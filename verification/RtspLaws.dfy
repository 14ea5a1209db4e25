/**
 What the RTSP registry guarantees over every interleaving of handlers and workers.
 */
module RtspLaws {
  import opened Wrappers
  import opened RtspRegistry

  function Empty(): State {
    State(map[], [], map[])
  }

  lemma {:induction false} RunsKeepTheInvariant(actions: seq<Action>)
    ensures Inv(Run(Empty(), actions))
  {
    hide Apply;
    if actions == [] {
    } else {
      RunsKeepTheInvariant(actions[..|actions| - 1]);
      StepKeeps(Run(Empty(), actions[..|actions| - 1]), actions[|actions| - 1]);
    }
  }

  /** At any moment of any run: two unfinished workers serve different sessions, and each one's
      session shows that worker's own entry, running. */
  lemma OneWorkerPerSession(actions: seq<Action>, v: int, w: int)
    requires Unfinished(Run(Empty(), actions), v) && Unfinished(Run(Empty(), actions), w)
    ensures var s := Run(Empty(), actions);
      && (v != w ==> s.workers[v].session != s.workers[w].session)
      && s.workers[w].session in s.active && s.active[s.workers[w].session].worker == w
      && ShowsRunning(s, s.workers[w].session)
  {
    hide Run;
    var s := Run(Empty(), actions);
    RunsKeepTheInvariant(actions);
    RunningIffActive(s, s.workers[w].session);
  }

  /** At any moment of any run at most 32 statuses are remembered, all final, no two for one
      session and none for a session with a worker. */
  lemma RememberedStatusesAreFinal(actions: seq<Action>)
    ensures var s := Run(Empty(), actions);
      && |s.recent| <= 32 && DistinctSessions(s.recent)
      && forall k :: 0 <= k < |s.recent| ==>
          Terminal(s.recent[k].status) && !s.recent[k].running && s.recent[k].sessionId !in s.active
  {
    RunsKeepTheInvariant(actions);
  }

  // ---------- Answers are not lost ----------

  lemma {:induction false} ForgetOther(recent: seq<Status>, id: SessionId, other: SessionId)
    requires id != other
    ensures Find(Forget(recent, other), id) == Find(recent, id)
  {
    if recent == [] {
    } else {
      var n := |recent| - 1;
      ForgetOther(recent[..n], id, other);
      if recent[n].sessionId != other {
        assert (Forget(recent[..n], other) + [recent[n]])[..|Forget(recent[..n], other)|] == Forget(recent[..n], other);
      }
    }
  }

  lemma FindNewest(recent: seq<Status>, status: Status, id: SessionId)
    ensures Find(recent + [status], id) == if status.sessionId == id then Some(status) else Find(recent, id)
  {
    assert (recent + [status])[..|recent|] == recent;
  }

  lemma {:induction false} FindWithoutOldest(recent: seq<Status>, id: SessionId)
    requires recent != [] && recent[0].sessionId != id
    ensures Find(recent[1..], id) == Find(recent, id)
  {
    var n := |recent| - 1;
    if n == 0 {
    } else {
      assert recent[1..][..n - 1] == recent[..n][1..];
      FindWithoutOldest(recent[..n], id);
    }
  }

  /** The session whose status the next finalisation pushes out, if any. */
  function Oldest(s: State): Option<SessionId> {
    if |s.recent| == RECENT_LIMIT then Some(s.recent[0].sessionId) else None
  }

  /** The session's own start fails. */
  predicate OwnStartFails(s: State, a: Action, id: SessionId) {
    a.StartFails? && a.worker in s.workers && s.workers[a.worker] == Worker(id, Reserved)
  }

  /** A worker finishes while the session is the oldest of 32 remembered ones. */
  predicate PushedOut(s: State, a: Action, id: SessionId) {
    a.Finalise? && Alive(s, a.worker) && Oldest(s) == Some(id)
  }

  /** Exactly two steps make a session that answers stop answering: its own failed start, and a
      finalisation while it is the oldest of 32 remembered ones. In particular a reader never
      finds a session between its worker's end and its final status. */
  lemma AnswersAreKeptIff(s: State, a: Action, id: SessionId)
    requires Inv(s) && Answer(s, id).Some?
    ensures Answer(Apply(s, a), id).None? <==> OwnStartFails(s, a, id) || PushedOut(s, a, id)
  {
    hide Finished, Find;
    match a {
      case Reserve(w, other, mode, now) =>
        if other != id {
          ForgetOther(s.recent, id, other);
        }
      case StartFails(w) =>
        if OwnStartFails(s, a, id) {
          NobodyFound(s.recent, id);
        }
      case Finalise(w, error, processed, telemetry, now) =>
        if Alive(s, w) {
          if Oldest(s) == Some(id) {
            OldestIsPushedOut(s, w, error, processed, telemetry, now, id);
          } else if s.workers[w].session == id {
            FinalisedIsAnswered(s, w, error, processed, telemetry, now);
          } else {
            FinaliseKeepsOthers(s, w, error, processed, telemetry, now, id);
          }
        }
      case _ =>
    }
  }

  lemma FinaliseKeepsOthers(s: State, w: int, error: Option<string>, processed: nat, telemetry: Option<int>,
                            now: real, id: SessionId)
    requires Inv(s) && Alive(s, w) && s.workers[w].session != id && Oldest(s) != Some(id)
    ensures Answer(DoFinalise(s, w, error, processed, telemetry, now), id) == Answer(s, id)
  {
    hide Finished, Find;
    var own := s.workers[w].session;
    var status := Public(own, Finished(s.active[own], error, processed, telemetry, now));
    assert !Knows(s.recent, own);
    FindNewest(s.recent, status, id);
    if |s.recent| == RECENT_LIMIT {
      FindWithoutOldest(s.recent + [status], id);
      assert Youngest(s.recent + [status], RECENT_LIMIT) == (s.recent + [status])[1..];
    }
  }

  lemma OldestIsPushedOut(s: State, w: int, error: Option<string>, processed: nat, telemetry: Option<int>, now: real,
                          id: SessionId)
    requires Inv(s) && Alive(s, w) && Oldest(s) == Some(id)
    ensures Answer(DoFinalise(s, w, error, processed, telemetry, now), id).None?
  {
    hide Finished, Find;
    var s' := DoFinalise(s, w, error, processed, telemetry, now);
    var own := s.workers[w].session;
    var status := Public(own, Finished(s.active[own], error, processed, telemetry, now));
    assert !Knows(s.recent, own);
    assert s'.recent == (s.recent + [status])[1..];
    forall k | 0 <= k < |s'.recent|
      ensures s'.recent[k].sessionId != id
    {
      assert s'.recent[k] == (s.recent + [status])[k + 1];
    }
    NobodyFound(s'.recent, id);
  }

  lemma {:induction false} NobodyFound(recent: seq<Status>, id: SessionId)
    requires forall k :: 0 <= k < |recent| ==> recent[k].sessionId != id
    ensures Find(recent, id).None?
  {
    if recent == [] {
    } else {
      NobodyFound(recent[..|recent| - 1], id);
    }
  }

  // ---------- How long a final status stays ----------

  /** The status is remembered, with at most `d` younger ones. */
  ghost predicate Remembered(recent: seq<Status>, status: Status, d: int) {
    exists i :: 0 <= i < |recent| && recent[i] == status && |recent| - 1 - i <= d
  }

  lemma {:induction false} ForgetKeepsPlace(recent: seq<Status>, other: SessionId, status: Status, d: int)
    requires Remembered(recent, status, d) && status.sessionId != other
    ensures Remembered(Forget(recent, other), status, d)
  {
    var n := |recent| - 1;
    var i :| 0 <= i <= n && recent[i] == status && n - i <= d;
    var rest := Forget(recent[..n], other);
    if i < n {
      assert recent[..n][i] == status;
      ForgetKeepsPlace(recent[..n], other, status, d - 1);
      var j :| 0 <= j < |rest| && rest[j] == status && |rest| - 1 - j <= d - 1;
      assert Forget(recent, other)[j] == status;
    } else {
      assert Forget(recent, other)[|rest|] == status;
    }
  }

  lemma FinaliseKeepsPlace(s: State, w: int, error: Option<string>, processed: nat, telemetry: Option<int>, now: real,
                           status: Status, d: int)
    requires Inv(s) && Remembered(s.recent, status, d) && d < RECENT_LIMIT - 1
    ensures Remembered(DoFinalise(s, w, error, processed, telemetry, now).recent, status, d + 1)
  {
    hide Finished;
    var i :| 0 <= i < |s.recent| && s.recent[i] == status && |s.recent| - 1 - i <= d;
    var s' := DoFinalise(s, w, error, processed, telemetry, now);
    if Alive(s, w) {
      assert !Knows(s.recent, s.workers[w].session);
      if |s.recent| < RECENT_LIMIT {
        assert s'.recent[i] == status;
      } else {
        assert s'.recent[i - 1] == status;
      }
    } else {
      assert s'.recent[i] == status;
    }
  }

  function Finalisations(actions: seq<Action>): nat {
    if actions == [] then 0
    else Finalisations(actions[..|actions| - 1]) + (if actions[|actions| - 1].Finalise? then 1 else 0)
  }

  /** The session's camera is not started again. */
  ghost predicate NotRestarted(actions: seq<Action>, id: SessionId) {
    forall k :: 0 <= k < |actions| && actions[k].Reserve? ==> actions[k].session != id
  }

  lemma StepKeepsPlace(s: State, a: Action, status: Status, d: int)
    requires Inv(s) && Remembered(s.recent, status, d) && (a.Reserve? ==> a.session != status.sessionId)
    requires a.Finalise? ==> d < RECENT_LIMIT - 1
    ensures Remembered(Apply(s, a).recent, status, if a.Finalise? then d + 1 else d)
  {
    hide Inv, Remembered, Finished;
    match a {
      case Reserve(w, other, mode, now) => ForgetKeepsPlace(s.recent, other, status, d);
      case Finalise(w, error, processed, telemetry, now) =>
        FinaliseKeepsPlace(s, w, error, processed, telemetry, now, status, d);
      case _ =>
    }
  }

  lemma {:induction false} PlaceAfter(s: State, actions: seq<Action>, status: Status)
    requires Inv(s) && Remembered(s.recent, status, 0) && NotRestarted(actions, status.sessionId)
      && Finalisations(actions) < RECENT_LIMIT
    ensures Inv(Run(s, actions)) && Remembered(Run(s, actions).recent, status, Finalisations(actions))
  {
    hide Inv, Remembered, Apply;
    if actions == [] {
    } else {
      var n := |actions| - 1;
      PlaceAfter(s, actions[..n], status);
      StepKeeps(Run(s, actions[..n]), actions[n]);
      StepKeepsPlace(Run(s, actions[..n]), actions[n], status, Finalisations(actions[..n]));
    }
  }

  /** A finished session keeps answering with the same final status until it is started again
      or 32 more workers have finished. */
  lemma FinalStatusStays(s: State, w: int, error: Option<string>, processed: nat, telemetry: Option<int>, now: real,
                         more: seq<Action>)
    requires Inv(s) && Alive(s, w)
    requires NotRestarted(more, s.workers[w].session) && Finalisations(more) < 32
    ensures var (id, s') := (s.workers[w].session, DoFinalise(s, w, error, processed, telemetry, now));
      && id in s.active
      && Answer(Run(s', more), id) == Some(Public(id, Finished(s.active[id], error, processed, telemetry, now)))
  {
    hide Finished, Find;
    var id, s' := s.workers[w].session, DoFinalise(s, w, error, processed, telemetry, now);
    var status := Public(id, Finished(s.active[id], error, processed, telemetry, now));
    assert !Knows(s.recent, id);
    assert s'.recent[|s'.recent| - 1] == status;
    FinaliseKeeps(s, w, error, processed, telemetry, now);
    PlaceAfter(s', more, status);
    var end := Run(s', more);
    FindIs(end.recent, id);
  }

  // ---------- Stopping ----------

  /** Worker `w` has its session's entry. */
  ghost predicate Serving(s: State, id: SessionId, w: int) {
    Inv(s) && id in s.active && s.active[id].worker == w
  }

  /** A worker that no longer has the entry of its session never has it again. */
  lemma StepServing(s: State, a: Action, id: SessionId, w: int)
    requires Inv(s) && w in s.workers && s.workers[w].session == id
    ensures w in Apply(s, a).workers && Apply(s, a).workers[w].session == id
    ensures Serving(Apply(s, a), id, w) ==> Serving(s, id, w)
  {
    hide Inv, Finished;
    StepKeeps(s, a);
    EndedStaysEnded(s, a, id, w);
  }

  lemma EndedStaysEnded(s: State, a: Action, id: SessionId, w: int)
    requires Inv(s) && w in s.workers && s.workers[w].session == id
    ensures w in Apply(s, a).workers && Apply(s, a).workers[w].session == id
    ensures id in Apply(s, a).active && Apply(s, a).active[id].worker == w ==>
      id in s.active && s.active[id].worker == w
  {
    hide Finished, Find, Forget, Put, Youngest;
  }

  lemma StepKeepsSignal(s: State, a: Action, id: SessionId, w: int)
    requires Serving(s, id, w) && s.active[id].stopSet && Serving(Apply(s, a), id, w)
    ensures Apply(s, a).active[id].stopSet
  {
    hide Finished, Find, Forget, Put, Youngest;
  }

  /** Once set, a stop signal stays set for as long as its worker has its entry. */
  lemma {:induction false} StopSignalStays(s: State, more: seq<Action>, id: SessionId, w: int)
    requires Serving(s, id, w) && s.active[id].stopSet
    ensures Inv(Run(s, more)) && w in Run(s, more).workers && Run(s, more).workers[w].session == id
    ensures Serving(Run(s, more), id, w) ==> Run(s, more).active[id].stopSet
  {
    hide Inv, Apply;
    if more == [] {
      ServingIsKnown(s, id, w);
    } else {
      var n := |more| - 1;
      StopSignalStays(s, more[..n], id, w);
      StepKeeps(Run(s, more[..n]), more[n]);
      StepServing(Run(s, more[..n]), more[n], id, w);
      if Serving(Run(s, more), id, w) {
        StepKeepsSignal(Run(s, more[..n]), more[n], id, w);
      }
    }
  }

  lemma ServingIsKnown(s: State, id: SessionId, w: int)
    requires Serving(s, id, w)
    ensures w in s.workers && s.workers[w].session == id && s.workers[w].stage != Over
  {
  }

  lemma StepKeepsStopping(s: State, a: Action, id: SessionId, w: int)
    requires Serving(s, id, w) && s.active[id].status == Stopping && s.workers[w].stage == Looping
      && Serving(Apply(s, a), id, w)
    ensures Apply(s, a).active[id].status == Stopping && Apply(s, a).workers[w].stage == Looping
  {
    hide Finished, Find, Forget, Put, Youngest;
  }

  lemma {:induction false} StoppingStaysInTheLoop(s: State, more: seq<Action>, id: SessionId, w: int)
    requires Serving(s, id, w) && s.active[id].status == Stopping && s.workers[w].stage == Looping
    ensures Inv(Run(s, more)) && w in Run(s, more).workers && Run(s, more).workers[w].session == id
    ensures Serving(Run(s, more), id, w) ==>
      Run(s, more).active[id].status == Stopping && Run(s, more).workers[w].stage == Looping
  {
    hide Inv, Apply;
    if more == [] {
      ServingIsKnown(s, id, w);
    } else {
      var n := |more| - 1;
      StoppingStaysInTheLoop(s, more[..n], id, w);
      StepKeeps(Run(s, more[..n]), more[n]);
      StepServing(Run(s, more[..n]), more[n], id, w);
      if Serving(Run(s, more), id, w) {
        StepKeepsStopping(Run(s, more[..n]), more[n], id, w);
      }
    }
  }

  lemma RunTwo(s: State, a: Action, b: Action)
    ensures Run(s, [a, b]) == Apply(Apply(s, a), b)
  {
    hide Apply;
    assert [a, b][..1] == [a] && [a][..0] == [];
    assert Run(s, [a]) == Apply(Run(s, []), a);
  }

  /** A worker that is not in its loop yet goes on to open its camera and shows as running. */
  lemma StoppingIsOverwritten(s: State, id: SessionId, later: real)
    requires Inv(s) && id in s.active && s.workers[s.active[id].worker].stage != Looping
    ensures var s' := Run(s, [ThreadStarts(s.active[id].worker), MarkRunning(s.active[id].worker, later)]);
      && Serving(s', id, s.active[id].worker) && s'.active[id].status == Running
      && s'.active[id].stopSet == s.active[id].stopSet
  {
    hide Inv, Apply;
    var w := s.active[id].worker;
    ServingIsKnown(s, id, w);
    StepKeeps(s, ThreadStarts(w));
    StepKeeps(Apply(s, ThreadStarts(w)), MarkRunning(w, later));
    OpensAndRuns(s, id, later);
    RunTwo(s, ThreadStarts(w), MarkRunning(w, later));
  }

  lemma OpensAndRuns(s: State, id: SessionId, later: real)
    requires Inv(s) && id in s.active && s.workers[s.active[id].worker].stage != Looping
    ensures var s' := Apply(Apply(s, ThreadStarts(s.active[id].worker)), MarkRunning(s.active[id].worker, later));
      && id in s'.active && s'.active[id].worker == s.active[id].worker && s'.active[id].status == Running
      && s'.active[id].stopSet == s.active[id].stopSet
  {
    assert s.workers[s.active[id].worker].session == id;
  }

  /** A stopped session shows as stopping, whatever happens, until its worker is over, exactly if
      the worker was in its loop when it was stopped. */
  lemma StoppingStaysIff(s: State, id: SessionId, now: real)
    requires Inv(s) && id in s.active
    ensures (forall more :: Serving(Run(DoStop(s, id, now), more), id, s.active[id].worker) ==>
               Run(DoStop(s, id, now), more).active[id].status == Stopping)
       <==> s.workers[s.active[id].worker].stage == Looping
  {
    hide Inv, Run;
    var w, stopped := s.active[id].worker, DoStop(s, id, now);
    ServingIsKnown(s, id, w);
    StepKeeps(s, Stop(id, now));
    if s.workers[w].stage == Looping {
      forall more | Serving(Run(stopped, more), id, w)
        ensures Run(stopped, more).active[id].status == Stopping
      {
        StoppingStaysInTheLoop(stopped, more, id, w);
      }
    } else {
      StoppingIsOverwritten(stopped, id, now);
    }
  }

  // ---------- What a step changes ----------

  /** The step ends the entry: its own start fails, or its own worker finishes. */
  predicate EndsEntry(s: State, a: Action, id: SessionId) {
    || (a.StartFails? && a.worker in s.workers && s.workers[a.worker] == Worker(id, Reserved))
    || (a.Finalise? && a.worker in s.workers && s.workers[a.worker].session == id
        && (s.workers[a.worker].stage == Opening || s.workers[a.worker].stage == Looping))
  }

  /** An entry changes by the steps of its own session only: it is marked running once its camera
      is open, counts the frames its worker reports, and is stopped by a stop. */
  lemma EntryAfterStep(s: State, a: Action, id: SessionId)
    requires Inv(s) && id in s.active
    ensures var (e, active) := (s.active[id], Apply(s, a).active);
      && (id in active <==> !EndsEntry(s, a, id))
      && (id in active ==>
          active[id]
          == if a.MarkRunning? && a.worker in s.workers && s.workers[a.worker] == Worker(id, Opening)
             then e.(status := Running, updatedAt := a.now)
             else if a.Telemetry? && a.worker in s.workers && s.workers[a.worker] == Worker(id, Looping)
             then e.(telemetry := Some(a.payload), frames := e.frames + 1, updatedAt := a.now)
             else if a.Stop? && a.session == id then e.(status := Stopping, updatedAt := a.now, stopSet := true)
             else e)
  {
    hide Finished, Find, Forget, Put, Youngest, RecentOk, NoneTerminal;
  }

  /** A new entry is a start's, as it was asked for. */
  lemma NewEntryIsReserved(s: State, a: Action, id: SessionId)
    requires Inv(s) && id !in s.active
    ensures id in Apply(s, a).active <==> a.Reserve? && a.session == id && a.worker !in s.workers
    ensures a.Reserve? && a.session == id && a.worker !in s.workers ==>
      Apply(s, a).active[id] == Entry(a.worker, a.mode, Starting, false, a.now, a.now, 0, None, None)
  {
    hide Finished, Find, Forget, Put, Youngest, RecentOk, NoneTerminal;
  }

  /** A worker goes from reserved to opening its camera to its loop, and ends from any of them. */
  lemma WorkerAfterStep(s: State, a: Action, w: int)
    requires w in s.workers
    ensures var (stage, workers) := (s.workers[w].stage, Apply(s, a).workers);
      && w in workers && workers[w].session == s.workers[w].session
      && workers[w].stage
         == if a.ThreadStarts? && a.worker == w && stage == Reserved then Opening
            else if a.MarkRunning? && a.worker == w && stage == Opening then Looping
            else if a.StartFails? && a.worker == w && stage == Reserved then Over
            else if a.Finalise? && a.worker == w && (stage == Opening || stage == Looping) then Over
            else stage
  {
    hide Finished, Find, Forget, Put, Youngest;
  }

  /** Once its worker has finished, a session answers as failed with the error it finished with, or
      as complete if there was none, no longer running, with everything else its entry said. */
  lemma FinalAnswer(s: State, w: int, error: Option<string>, processed: nat, telemetry: Option<int>, now: real)
    requires Inv(s) && Alive(s, w)
    ensures var (id, s') := (s.workers[w].session, Apply(s, Finalise(w, error, processed, telemetry, now)));
      && id in s.active && id !in s'.active && Answer(s', id).Some?
      && var (e, status) := (s.active[id], Answer(s', id).value);
      && (status.status == Failed <==> error.Some?) && (status.status == Complete <==> error.None?)
      && status.error == error && !status.running && status.telemetry == telemetry
      && status.sessionId == id && status.mode == e.mode && status.startedAt == e.startedAt && status.updatedAt == now
      && status.frames >= processed && status.frames >= e.frames
      && (status.frames == processed || status.frames == e.frames)
  {
    hide Find, Put, Youngest, Inv;
    FinalisedIsAnswered(s, w, error, processed, telemetry, now);
  }

  /** A session with an entry answers with what the entry says, as running unless that is final. */
  lemma ActiveAnswer(s: State, id: SessionId)
    requires Inv(s) && id in s.active
    ensures var e := s.active[id];
      Answer(s, id)
      == Some(Status(id, e.mode, e.status, true, e.startedAt, e.updatedAt, e.frames, e.telemetry, e.error))
  {
  }

  /** What a session without an entry answers is changed by nobody but a start of its own: other
      steps leave it, or push it out. */
  lemma RememberedAnswerStays(s: State, a: Action, id: SessionId)
    requires Inv(s) && id !in s.active && !(a.Reserve? && a.session == id)
    ensures Answer(Apply(s, a), id) == if PushedOut(s, a, id) then None else Answer(s, id)
  {
    hide Finished, Find;
    match a {
      case Reserve(w, other, mode, now) =>
        ForgetOther(s.recent, id, other);
      case Finalise(w, error, processed, telemetry, now) =>
        if Alive(s, w) {
          if Oldest(s) == Some(id) {
            OldestIsPushedOut(s, w, error, processed, telemetry, now, id);
          } else {
            FinaliseKeepsOthers(s, w, error, processed, telemetry, now, id);
          }
        }
      case _ =>
    }
  }
}
