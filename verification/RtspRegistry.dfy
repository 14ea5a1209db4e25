/**
 The registry of RTSP workers, backend/app/rtsp_api.py.

 Every method of `Registry` is one critical section under the source's lock, so an
 interleaving of request handlers and worker threads is a sequence of calls. The `Do...`
 functions say what each section does to the state; the lemmas are about any sequence.
 */
module RtspRegistry {
  import opened Wrappers

  type SessionId = string

  datatype Phase = Starting | Running | Stopping | Complete | Failed

  predicate Terminal(p: Phase) {
    p == Complete || p == Failed
  }

  datatype Entry = Entry(worker: int, mode: string, status: Phase, stopSet: bool, startedAt: real, updatedAt: real,
                         frames: nat, telemetry: Option<int>, error: Option<string>)

  /** What a status request shows of an entry. */
  datatype Status = Status(sessionId: SessionId, mode: string, status: Phase, running: bool, startedAt: real,
                           updatedAt: real, frames: nat, telemetry: Option<int>, error: Option<string>)

  /** A worker thread: reserved but not started, opening its camera, in its loop, or over. */
  datatype Stage = Reserved | Opening | Looping | Over

  datatype Worker = Worker(session: SessionId, stage: Stage)

  datatype State = State(active: map<SessionId, Entry>, recent: seq<Status>, workers: map<int, Worker>)

  const RECENT_LIMIT: nat := 32

  /** `_public_status`. */
  function Public(id: SessionId, e: Entry): Status {
    Status(id, e.mode, e.status, !Terminal(e.status), e.startedAt, e.updatedAt, e.frames, e.telemetry, e.error)
  }

  // ---------- The remembered statuses ----------

  /** The statuses other than the session's, in order. */
  function Forget(recent: seq<Status>, id: SessionId): seq<Status> {
    if recent == [] then []
    else
      var front, last := Forget(recent[..|recent| - 1], id), recent[|recent| - 1];
      if last.sessionId == id then front else front + [last]
  }

  predicate Knows(recent: seq<Status>, id: SessionId) {
    exists k :: 0 <= k < |recent| && recent[k].sessionId == id
  }

  function Find(recent: seq<Status>, id: SessionId): Option<Status> {
    if recent == [] then None
    else if recent[|recent| - 1].sessionId == id then Some(recent[|recent| - 1])
    else Find(recent[..|recent| - 1], id)
  }

  /** Assignment to a dictionary keeps the place of a key it knows. */
  function Put(recent: seq<Status>, s: Status): seq<Status> {
    if !Knows(recent, s.sessionId) then recent + [s]
    else seq(|recent|, k requires 0 <= k < |recent| => if recent[k].sessionId == s.sessionId then s else recent[k])
  }

  function Youngest(recent: seq<Status>, n: nat): seq<Status> {
    if |recent| > n then recent[|recent| - n..] else recent
  }

  // ---------- Critical sections ----------

  function DoReserve(s: State, w: int, id: SessionId, mode: string, now: real): State {
    if id in s.active || w in s.workers then s
    else State(s.active[id := Entry(w, mode, Starting, false, now, now, 0, None, None)], Forget(s.recent, id),
               s.workers[w := Worker(id, Reserved)])
  }

  predicate Alive(s: State, w: int) {
    w in s.workers && (s.workers[w].stage == Opening || s.workers[w].stage == Looping)
  }

  predicate Unfinished(s: State, w: int) {
    w in s.workers && s.workers[w].stage != Over
  }

  function DoThreadStarts(s: State, w: int): State {
    if w in s.workers && s.workers[w].stage == Reserved
    then s.(workers := s.workers[w := s.workers[w].(stage := Opening)])
    else s
  }

  /** The thread could not be started: the reservation is taken back. */
  function DoStartFails(s: State, w: int): State {
    if w in s.workers && s.workers[w].stage == Reserved then
      s.(active := s.active - {s.workers[w].session}, workers := s.workers[w := s.workers[w].(stage := Over)])
    else s
  }

  function DoMarkRunning(s: State, w: int, now: real): State {
    if w in s.workers && s.workers[w].stage == Opening then
      var id, workers := s.workers[w].session, s.workers[w := s.workers[w].(stage := Looping)];
      if id in s.active
      then State(s.active[id := s.active[id].(status := Running, updatedAt := now)], s.recent, workers)
      else s.(workers := workers)
    else s
  }

  function DoTelemetry(s: State, w: int, payload: int, now: real): State {
    if w in s.workers && s.workers[w].stage == Looping && s.workers[w].session in s.active then
      var id := s.workers[w].session;
      s.(active := s.active[id := s.active[id].(telemetry := Some(payload), frames := s.active[id].frames + 1,
                                                updatedAt := now)])
    else s
  }

  /** What the worker's last section makes of its entry. */
  function Finished(e: Entry, error: Option<string>, processed: nat, telemetry: Option<int>, now: real): Entry {
    e.(status := if error.Some? then Failed else Complete, error := error, telemetry := telemetry,
       frames := if processed >= e.frames then processed else e.frames, updatedAt := now)
  }

  function DoFinalise(s: State, w: int, error: Option<string>, processed: nat, telemetry: Option<int>,
                      now: real): State {
    if !Alive(s, w) then s
    else
      var id, workers := s.workers[w].session, s.workers[w := s.workers[w].(stage := Over)];
      if id in s.active then
        State(s.active - {id},
              Youngest(Put(s.recent, Public(id, Finished(s.active[id], error, processed, telemetry, now))),
                       RECENT_LIMIT), workers)
      else s.(workers := workers)
  }

  function DoStop(s: State, id: SessionId, now: real): State {
    if id in s.active
    then s.(active := s.active[id := s.active[id].(status := Stopping, updatedAt := now, stopSet := true)])
    else s
  }

  /** `rtsp_status`: None stands for not found. */
  function Answer(s: State, id: SessionId): Option<Status> {
    if id in s.active then Some(Public(id, s.active[id])) else Find(s.recent, id)
  }

  predicate ShowsRunning(s: State, id: SessionId) {
    Answer(s, id).Some? && Answer(s, id).value.running
  }

  datatype Action =
    | Reserve(worker: int, session: SessionId, mode: string, now: real)
    | ThreadStarts(worker: int)
    | StartFails(worker: int)
    | MarkRunning(worker: int, now: real)
    | Telemetry(worker: int, payload: int, now: real)
    | Finalise(worker: int, error: Option<string>, processed: nat, telemetry: Option<int>, now: real)
    | Stop(session: SessionId, now: real)

  function Apply(s: State, a: Action): State {
    match a
    case Reserve(w, id, mode, now) => DoReserve(s, w, id, mode, now)
    case ThreadStarts(w) => DoThreadStarts(s, w)
    case StartFails(w) => DoStartFails(s, w)
    case MarkRunning(w, now) => DoMarkRunning(s, w, now)
    case Telemetry(w, payload, now) => DoTelemetry(s, w, payload, now)
    case Finalise(w, error, processed, telemetry, now) => DoFinalise(s, w, error, processed, telemetry, now)
    case Stop(id, now) => DoStop(s, id, now)
  }

  function Run(s: State, actions: seq<Action>): State {
    if actions == [] then s else Apply(Run(s, actions[..|actions| - 1]), actions[|actions| - 1])
  }

  // ---------- The invariant ----------

  /** Entries and unfinished workers belong to one another. */
  ghost predicate Matched(active: map<SessionId, Entry>, workers: map<int, Worker>) {
    && (forall id :: id in active ==>
         && active[id].worker in workers && workers[active[id].worker].session == id
         && workers[active[id].worker].stage != Over)
    && (forall w :: w in workers && workers[w].stage != Over ==>
        workers[w].session in active && active[workers[w].session].worker == w)
  }

  ghost predicate DistinctSessions(recent: seq<Status>) {
    forall j, k :: 0 <= j < k < |recent| ==> recent[j].sessionId != recent[k].sessionId
  }

  ghost predicate RecentOk(active: map<SessionId, Entry>, recent: seq<Status>) {
    && |recent| <= RECENT_LIMIT && DistinctSessions(recent)
    && (forall k :: 0 <= k < |recent| ==>
        Terminal(recent[k].status) && !recent[k].running && recent[k].sessionId !in active)
  }

  ghost predicate NoneTerminal(active: map<SessionId, Entry>) {
    forall id :: id in active ==> !Terminal(active[id].status)
  }

  ghost predicate Inv(s: State) {
    Matched(s.active, s.workers) && RecentOk(s.active, s.recent) && NoneTerminal(s.active)
  }

  lemma {:induction false} ForgetIsRest(recent: seq<Status>, id: SessionId)
    ensures |Forget(recent, id)| <= |recent|
    ensures forall t :: t in Forget(recent, id) <==> t in recent && t.sessionId != id
    ensures DistinctSessions(recent) ==> DistinctSessions(Forget(recent, id))
  {
    if recent == [] {
    } else {
      var n := |recent| - 1;
      ForgetIsRest(recent[..n], id);
      assert recent == recent[..n] + [recent[n]];
    }
  }

  lemma ReserveKeeps(s: State, w: int, id: SessionId, mode: string, now: real)
    requires Inv(s)
    ensures Inv(DoReserve(s, w, id, mode, now))
  {
    ForgetIsRest(s.recent, id);
    assert forall k :: 0 <= k < |Forget(s.recent, id)| ==> Forget(s.recent, id)[k] in s.recent;
  }

  lemma FinaliseKeeps(s: State, w: int, error: Option<string>, processed: nat, telemetry: Option<int>, now: real)
    requires Inv(s)
    ensures Inv(DoFinalise(s, w, error, processed, telemetry, now))
  {
    hide Put, Youngest, Finished, RecentOk;
    if Alive(s, w) && s.workers[w].session in s.active {
      var id := s.workers[w].session;
      var status := Public(id, Finished(s.active[id], error, processed, telemetry, now));
      FinishedIsFinal(id, s.active[id], error, processed, telemetry, now);
      RememberedIsOk(s.active, s.recent, status);
    }
  }

  lemma FinishedIsFinal(id: SessionId, e: Entry, error: Option<string>, processed: nat, telemetry: Option<int>,
                        now: real)
    ensures var status := Public(id, Finished(e, error, processed, telemetry, now));
      status.sessionId == id && Terminal(status.status) && !status.running
  {
  }

  lemma RememberedIsOk(active: map<SessionId, Entry>, recent: seq<Status>, status: Status)
    requires RecentOk(active, recent) && Terminal(status.status) && !status.running
    ensures RecentOk(active - {status.sessionId}, Youngest(Put(recent, status), RECENT_LIMIT))
  {
    PutIsOk(active, recent, status);
    hide Put, Terminal;
  }

  lemma PutIsOk(active: map<SessionId, Entry>, recent: seq<Status>, status: Status)
    requires RecentOk(active, recent) && Terminal(status.status) && !status.running
    ensures var all := Put(recent, status);
      && DistinctSessions(all)
      && forall k :: 0 <= k < |all| ==>
           Terminal(all[k].status) && !all[k].running && all[k].sessionId !in active - {status.sessionId}
  {
    hide Terminal;
    if Knows(recent, status.sessionId) {
      var all := Put(recent, status);
      assert forall k :: 0 <= k < |all| ==> all[k].sessionId == recent[k].sessionId;
    }
  }

  lemma AliveHasEntry(s: State, w: int)
    requires Inv(s) && Alive(s, w)
    ensures s.workers[w].session in s.active && s.active[s.workers[w].session].worker == w
  {
  }

  lemma ThreadStepKeeps(s: State, a: Action)
    requires Inv(s) && (a.ThreadStarts? || a.StartFails? || a.MarkRunning?)
    ensures Inv(Apply(s, a))
  {
  }

  lemma OtherStepKeeps(s: State, a: Action)
    requires Inv(s) && (a.Telemetry? || a.Stop?)
    ensures Inv(Apply(s, a))
  {
  }

  lemma StepKeeps(s: State, a: Action)
    requires Inv(s)
    ensures Inv(Apply(s, a))
  {
    hide Inv, DoReserve, DoThreadStarts, DoStartFails, DoMarkRunning, DoTelemetry, DoFinalise, DoStop;
    match a {
      case Reserve(w, id, mode, now) => ReserveKeeps(s, w, id, mode, now);
      case Finalise(w, error, processed, telemetry, now) => FinaliseKeeps(s, w, error, processed, telemetry, now);
      case Telemetry(_, _, _) => OtherStepKeeps(s, a);
      case Stop(_, _) => OtherStepKeeps(s, a);
      case _ => ThreadStepKeeps(s, a);
    }
  }

  // ---------- The registry ----------

  class Registry {
    var active: map<SessionId, Entry>
    var recent: seq<Status>
    /** The threads, which the source keeps no list of. */
    ghost var workers: map<int, Worker>

    ghost function Now(): State
      reads this
    {
      State(active, recent, workers)
    }

    ghost predicate Valid()
      reads this
    {
      Inv(Now())
    }

    constructor ()
      ensures Valid() && Now() == State(map[], [], map[])
    {
      active, recent, workers := map[], [], map[];
    }

    /** The second, deciding check of a start request and its reservation. */
    method ReserveSession(worker: int, id: SessionId, mode: string, now: real) returns (ok: bool)
      requires Valid() && worker !in workers
      modifies this
      ensures Valid() && Now() == DoReserve(old(Now()), worker, id, mode, now)
      ensures ok <==> !ShowsRunning(old(Now()), id)
      ensures ok ==> Unfinished(Now(), worker) && id in active && active[id].worker == worker
    {
      ReserveKeeps(Now(), worker, id, mode, now);
      RunningIffActive(Now(), id);
      if id in active {
        return false;
      }
      recent := Forget(recent, id);
      active := active[id := Entry(worker, mode, Starting, false, now, now, 0, None, None)];
      workers := workers[worker := Worker(id, Reserved)];
      ok := true;
    }

    /** The reservation taken back after the thread could not be started. */
    method TakeBack(ghost w: int, id: SessionId)
      requires Valid() && w in workers && workers[w] == Worker(id, Reserved)
      modifies `active, `workers
      ensures Valid() && Now() == DoStartFails(old(Now()), w)
      ensures id !in active
    {
      ThreadStepKeeps(Now(), StartFails(w));
      active := active - {id};
      workers := workers[w := workers[w].(stage := Over)];
    }

    ghost method ThreadStarted(w: int)
      requires Valid()
      modifies `workers
      ensures Valid() && Now() == DoThreadStarts(old(Now()), w)
    {
      ThreadStepKeeps(Now(), ThreadStarts(w));
      if w in workers && workers[w].stage == Reserved {
        workers := workers[w := workers[w].(stage := Opening)];
      }
    }

    /** The worker's section once its camera is open. */
    method CameraOpened(ghost w: int, id: SessionId, now: real)
      requires Valid() && w in workers && workers[w] == Worker(id, Opening)
      modifies `active, `workers
      ensures Valid() && Now() == DoMarkRunning(old(Now()), w, now)
      ensures id in active && active[id].worker == w && active[id].status == Running
    {
      ThreadStepKeeps(Now(), MarkRunning(w, now));
      if id in active {
        active := active[id := active[id].(status := Running, updatedAt := now)];
      }
      workers := workers[w := workers[w].(stage := Looping)];
    }

    /** `_telemetry`, called from the worker's loop. */
    method Report(ghost w: int, id: SessionId, payload: int, now: real)
      requires Valid() && w in workers && workers[w] == Worker(id, Looping)
      modifies `active
      ensures Valid() && Now() == DoTelemetry(old(Now()), w, payload, now)
      ensures id in active && active[id].worker == w && active[id].frames == old(Now()).active[id].frames + 1
    {
      hide Inv;
      AliveHasEntry(Now(), w);
      OtherStepKeeps(Now(), Telemetry(w, payload, now));
      if id in active {
        active := active[id := active[id].(telemetry := Some(payload), frames := active[id].frames + 1,
                                           updatedAt := now)];
      }
    }

    /** `_remember_status`. */
    method Remember(status: Status)
      modifies `recent
      ensures recent == Youngest(Put(old(recent), status), RECENT_LIMIT)
    {
      recent := Put(recent, status);
      ghost var all := recent;
      while |recent| > RECENT_LIMIT
        invariant |recent| <= |all| && recent == all[|all| - |recent|..]
        invariant |all| > RECENT_LIMIT ==> |recent| >= RECENT_LIMIT
        invariant |all| <= RECENT_LIMIT ==> recent == all
      {
        recent := recent[1..];
      }
    }

    /** The worker's last section: one worker, one entry, moved in one piece. */
    method FinaliseWorker(ghost w: int, id: SessionId, error: Option<string>, processed: nat, telemetry: Option<int>,
                          now: real)
      requires Valid() && Alive(Now(), w) && workers[w].session == id
      modifies this
      ensures Valid() && Now() == DoFinalise(old(Now()), w, error, processed, telemetry, now)
      ensures !Unfinished(Now(), w) && id !in active
      ensures Answer(Now(), id) == Some(Public(id, Finished(old(Now()).active[id], error, processed, telemetry, now)))
    {
      hide Finished, Put, Youngest;
      FinaliseKeeps(Now(), w, error, processed, telemetry, now);
      FinalisedIsAnswered(Now(), w, error, processed, telemetry, now);
      if id in active {
        var e := Finished(active[id], error, processed, telemetry, now);
        Remember(Public(id, e));
        active := active - {id};
      }
      workers := workers[w := workers[w].(stage := Over)];
    }

    method StopSession(id: SessionId, now: real) returns (found: bool)
      requires Valid()
      modifies `active
      ensures Valid() && Now() == DoStop(old(Now()), id, now)
      ensures found <==> ShowsRunning(old(Now()), id)
    {
      OtherStepKeeps(Now(), Stop(id, now));
      RunningIffActive(Now(), id);
      if id !in active {
        return false;
      }
      active := active[id := active[id].(status := Stopping, updatedAt := now, stopSet := true)];
      found := true;
    }
  }

  lemma {:induction false} FindIs(recent: seq<Status>, id: SessionId)
    ensures Find(recent, id).Some? ==> Find(recent, id).value in recent && Find(recent, id).value.sessionId == id
    ensures forall k :: 0 <= k < |recent| && recent[k].sessionId == id && DistinctSessions(recent) ==>
      Find(recent, id) == Some(recent[k])
  {
    if recent == [] {
    } else {
      var n := |recent| - 1;
      FindIs(recent[..n], id);
      assert forall k :: 0 <= k < n ==> recent[..n][k] == recent[k];
    }
  }

  /** A session shows as running exactly while it has an entry. */
  lemma RunningIffActive(s: State, id: SessionId)
    requires Inv(s)
    ensures id in s.active <==> ShowsRunning(s, id)
  {
    FindIs(s.recent, id);
    if id !in s.active && Answer(s, id).Some? {
      var k :| 0 <= k < |s.recent| && s.recent[k] == Answer(s, id).value;
      assert !s.recent[k].running;
    }
  }

  /** The step that ends a worker finds that worker's own entry, and right after it the session
      answers with the entry's final status. */
  lemma FinalisedIsAnswered(s: State, w: int, error: Option<string>, processed: nat, telemetry: Option<int>, now: real)
    requires Inv(s) && Alive(s, w)
    ensures var (id, s') := (s.workers[w].session, DoFinalise(s, w, error, processed, telemetry, now));
      && id in s.active && s.active[id].worker == w && id !in s'.active
      && Answer(s', id) == Some(Public(id, Finished(s.active[id], error, processed, telemetry, now)))
  {
    hide Finished, Find;
    var id, s' := s.workers[w].session, DoFinalise(s, w, error, processed, telemetry, now);
    var status := Public(id, Finished(s.active[id], error, processed, telemetry, now));
    FinaliseKeeps(s, w, error, processed, telemetry, now);
    assert !Knows(s.recent, id);
    assert s'.recent[|s'.recent| - 1] == status;
    FindIs(s'.recent, id);
  }
}
