/**
 `SessionPipeline.process_frame` of backend/vision/pipeline.py: track the frame's faces, name
 faces under a per-frame embedding budget, and drive the presence machine on an interval.

 Detector and embedder are outside the model: a frame is the list of detections together
 with `look`, the identity the gallery would give to each of them.
 */
module Pipeline {
  import opened Wrappers
  import opened PresenceFsm
  import opened Attendance
  import Tracker

  type Table = seq<Tracker.Track>

  datatype Match = Match(studentId: Option<string>, score: real)

  datatype Frame = Frame(dets: seq<Tracker.Detection>, look: Tracker.Detection -> Match, ts: real)

  const NO_PASS_YET := -1000000000.0

  // ---------- Serving tracks under a budget ----------

  function Stamp(t: Tracker.Track, look: Tracker.Detection -> Match, ts: real): Tracker.Track {
    var m := look(t.det);
    t.(studentId := m.studentId, matchScore := m.score, lastReidTs := Some(ts))
  }

  /** How many of the first `n` tracks want an embedding. */
  ghost function Rank(tracks: Table, want: Tracker.Track -> bool, n: nat): nat
    requires n <= |tracks|
  {
    if n == 0 then 0 else Rank(tracks, want, n - 1) + if want(tracks[n - 1]) then 1 else 0
  }

  /** Track `i` is embedded: it wants it, and fewer than `budget` before it do. */
  ghost predicate Serves(tracks: Table, want: Tracker.Track -> bool, budget: nat, i: nat)
    requires i < |tracks|
  {
    want(tracks[i]) && Rank(tracks, want, i) < budget
  }

  ghost predicate Served(tracks: Table, want: Tracker.Track -> bool, budget: nat, look: Tracker.Detection -> Match,
                         ts: real, tracks': Table) {
    && |tracks'| == |tracks|
    && forall i: nat :: i < |tracks| ==>
         tracks'[i] == if Serves(tracks, want, budget, i) then Stamp(tracks[i], look, ts) else tracks[i]
  }

  /** The ids embedded among the first `n` tracks, in order. */
  ghost function Embedded(tracks: Table, want: Tracker.Track -> bool, budget: nat, n: nat): seq<int>
    requires n <= |tracks|
  {
    if n == 0 then []
    else
      var front := Embedded(tracks, want, budget, n - 1);
      if Serves(tracks, want, budget, n - 1) then front + [tracks[n - 1].trackId] else front
  }

  /** The embeddings among them that matched somebody. */
  ghost function Sightings(tracks: Table, want: Tracker.Track -> bool, budget: nat, look: Tracker.Detection -> Match,
                           ts: real, n: nat): seq<Sighting>
    requires n <= |tracks|
  {
    if n == 0 then []
    else
      var front := Sightings(tracks, want, budget, look, ts, n - 1);
      var m := look(tracks[n - 1].det);
      if Serves(tracks, want, budget, n - 1) && m.studentId.Some?
      then front + [Sighting(m.studentId.value, m.score, ts)]
      else front
  }

  lemma {:induction false} RankGrows(tracks: Table, want: Tracker.Track -> bool, i: nat, n: nat)
    requires i <= n <= |tracks|
    ensures Rank(tracks, want, i) <= Rank(tracks, want, n) <= Rank(tracks, want, i) + n - i
  {
    if i == n {
    } else {
      RankGrows(tracks, want, i, n - 1);
    }
  }

  /** Once the budget is gone nobody further down is embedded. */
  lemma {:induction false} NothingMore(tracks: Table, want: Tracker.Track -> bool, budget: nat,
                                       look: Tracker.Detection -> Match, ts: real, i: nat, n: nat)
    requires i <= n <= |tracks| && Rank(tracks, want, i) >= budget
    ensures Embedded(tracks, want, budget, n) == Embedded(tracks, want, budget, i)
    ensures Sightings(tracks, want, budget, look, ts, n) == Sightings(tracks, want, budget, look, ts, i)
    ensures forall k: nat :: i <= k < n ==> !Serves(tracks, want, budget, k)
  {
    if i == n {
    } else {
      NothingMore(tracks, want, budget, look, ts, i, n - 1);
      RankGrows(tracks, want, i, n - 1);
    }
  }

  /** The number of embeddings is the demand, capped by the budget. */
  lemma {:induction false} EmbeddedCount(tracks: Table, want: Tracker.Track -> bool, budget: nat, n: nat)
    requires n <= |tracks|
    ensures |Embedded(tracks, want, budget, n)|
      == if Rank(tracks, want, n) <= budget then Rank(tracks, want, n) else budget
  {
    if n == 0 {
    } else {
      EmbeddedCount(tracks, want, budget, n - 1);
    }
  }

  lemma {:induction false} EmbeddedAre(tracks: Table, want: Tracker.Track -> bool, budget: nat, n: nat, id: int)
    requires n <= |tracks|
    ensures id in Embedded(tracks, want, budget, n)
      <==> exists i: nat :: i < n && Serves(tracks, want, budget, i) && tracks[i].trackId == id
  {
    hide Serves;
    if n == 0 {
    } else {
      EmbeddedAre(tracks, want, budget, n - 1, id);
    }
  }

  ghost predicate Distinct(ids: seq<int>) {
    forall i, j :: 0 <= i < j < |ids| ==> ids[i] != ids[j]
  }

  lemma {:induction false} EmbeddedOnce(tracks: Table, want: Tracker.Track -> bool, budget: nat, n: nat, nextId: int)
    requires n <= |tracks| && Tracker.WellFormedTable(tracks, nextId)
    ensures Distinct(Embedded(tracks, want, budget, n))
  {
    hide Serves;
    if n == 0 {
    } else {
      EmbeddedOnce(tracks, want, budget, n - 1, nextId);
      EmbeddedAre(tracks, want, budget, n - 1, tracks[n - 1].trackId);
    }
  }

  // ---------- The two rounds of a frame ----------

  /** First round: faces in view that have no name. */
  function Nameless(): Tracker.Track -> bool {
    (t: Tracker.Track) => t.misses == 0 && t.studentId.None?
  }

  /** Second round, on a pass: faces in view not embedded this frame whose identity is old. */
  function Due(done: set<int>, interval: real, ts: real): Tracker.Track -> bool {
    (t: Tracker.Track) => t.misses == 0 && t.trackId !in done
        && (t.lastReidTs.None? || ts - t.lastReidTs.value >= interval)
  }

  /** The identities a pass reports: a falsy id is no identity. */
  ghost predicate Carries(tracks: Table, studentId: string) {
    studentId != "" && exists i :: 0 <= i < |tracks| && tracks[i].misses == 0 && tracks[i].studentId == Some(studentId)
  }

  ghost function IdSet(ids: seq<int>): set<int> {
    set i | 0 <= i < |ids| :: ids[i]
  }

  /** What one frame did: the tracker's picks, its table and next id, the table after each
      round, the ids embedded and the students matched in each, and whether the frame was a
      pass and whom it saw. */
  datatype Trace = Trace(ts: real, picks: seq<Option<nat>>, nextId: int, updated: Table, named: Table, table: Table,
                         first: seq<int>, second: seq<int>,
                         firstSightings: seq<Sighting>, secondSightings: seq<Sighting>, isPass: bool, seen: set<string>)

  ghost predicate FirstRound(f: Frame, budget: nat, tr: Trace) {
    && Served(tr.updated, Nameless(), budget, f.look, f.ts, tr.named)
    && tr.first == Embedded(tr.updated, Nameless(), budget, |tr.updated|)
    && tr.firstSightings == Sightings(tr.updated, Nameless(), budget, f.look, f.ts, |tr.updated|)
  }

  ghost predicate SecondRound(f: Frame, budget: nat, interval: real, tr: Trace) {
    var want := Due(IdSet(tr.first), interval, f.ts);
    && Served(tr.named, want, budget, f.look, f.ts, tr.table)
    && tr.second == Embedded(tr.named, want, budget, |tr.named|)
    && tr.secondSightings == Sightings(tr.named, want, budget, f.look, f.ts, |tr.named|)
    && forall s :: s in tr.seen <==> Carries(tr.table, s)
  }

  ghost predicate NoRound(tr: Trace) {
    tr.table == tr.named && tr.second == [] && tr.secondSightings == [] && tr.seen == {}
  }

  /** The frame as a whole: the second round runs, on what is left of the budget, exactly on a pass. */
  ghost predicate FrameDone(f: Frame, budget: nat, interval: real, lastPass: real, tr: Trace) {
    && tr.ts == f.ts
    && (tr.isPass <==> f.ts - lastPass >= interval)
    && FirstRound(f, budget, tr) && |tr.first| <= budget
    && if tr.isPass then SecondRound(f, budget - |tr.first|, interval, tr) else NoRound(tr)
  }

  datatype Config = Settings(iouThresh: real, maxMisses: int, budget: nat, interval: real)

  /** A frame met in a given state of tracker and pass clock. */
  ghost predicate FrameTraced(c: Config, table: Table, nextId: int, lastPass: real, f: Frame, tr: Trace) {
    && Tracker.Updated(table, nextId, f.dets, c.iouThresh, c.maxMisses, tr.picks, tr.updated, tr.nextId)
    && FrameDone(f, c.budget, c.interval, lastPass, tr)
  }

  class SessionPipeline {
    const tracker: Tracker.IoUTracker
    const fsm: PresenceFSM
    const attendance: CumulativeAttendance
    const roster: set<string>
    const reidIntervalS: real
    const maxReidPerFrame: nat
    var lastReidPass: real

    function Setup(): Config {
      Settings(tracker.iouThresh, tracker.maxMisses, maxReidPerFrame, reidIntervalS)
    }

    /** As constructed: no track, no pass and nothing known of anybody. */
    ghost predicate Fresh()
      reads this, tracker, fsm, attendance
    {
      && tracker.tracks == [] && tracker.nextId == 1 && lastReidPass == NO_PASS_YET && attendance.log == []
      && forall s :: fsm.ViewOf(s) == FRESH_VIEW
    }

    ghost predicate Valid()
      reads this, tracker, attendance
    {
      tracker.Valid() && attendance.Valid() && maxReidPerFrame >= 1
    }

    /** The budget is never below one, whatever the setting. */
    constructor (roster: set<string>, reidIntervalS: real, missThreshold: int, attendanceThreshold: int,
                 maxReidPerFrame: int)
      ensures Valid() && fresh(tracker) && fresh(fsm) && fresh(attendance)
      ensures this.roster == roster && this.reidIntervalS == reidIntervalS && fsm.missThreshold == missThreshold
      ensures this.maxReidPerFrame == (if maxReidPerFrame >= 1 then maxReidPerFrame else 1)
      ensures Fresh()
    {
      tracker := new Tracker.IoUTracker(0.3, 30);
      fsm := new PresenceFSM(missThreshold);
      attendance := new CumulativeAttendance(attendanceThreshold);
      this.roster, this.reidIntervalS := roster, reidIntervalS;
      this.maxReidPerFrame := if maxReidPerFrame >= 1 then maxReidPerFrame else 1;
      lastReidPass := NO_PASS_YET;
    }

    /** Both embedding loops: walk the tracks that want an embedding until the budget is spent. */
    method Serve(want: Tracker.Track -> bool, budget: nat, look: Tracker.Detection -> Match, ts: real)
      returns (done: seq<int>)
      requires Valid()
      modifies tracker`tracks, attendance
      ensures Valid()
      ensures Served(old(tracker.tracks), want, budget, look, ts, tracker.tracks)
      ensures done == Embedded(old(tracker.tracks), want, budget, |old(tracker.tracks)|)
      ensures attendance.log
        == old(attendance.log) + Sightings(old(tracker.tracks), want, budget, look, ts, |old(tracker.tracks)|)
    {
      ghost var was := tracker.tracks;
      done := [];
      var left, i := budget, 0;
      while i < |tracker.tracks|
        invariant i <= |tracker.tracks| == |was| && Valid()
        invariant left + |done| == budget
        invariant |done| == if Rank(was, want, i) <= budget then Rank(was, want, i) else budget
        invariant done == Embedded(was, want, budget, i)
        invariant attendance.log == old(attendance.log) + Sightings(was, want, budget, look, ts, i)
        invariant forall k: nat :: k < |was| ==>
          tracker.tracks[k] == if k < i && Serves(was, want, budget, k) then Stamp(was[k], look, ts) else was[k]
      {
        var t := tracker.tracks[i];
        if want(t) {
          if left == 0 {
            NothingMore(was, want, budget, look, ts, i, |was|);
            break;
          }
          tracker.tracks := tracker.tracks[i := Stamp(t, look, ts)];
          done := done + [t.trackId];
          left := left - 1;
          var m := look(t.det);
          if m.studentId.Some? {
            attendance.Observe(m.studentId.value, m.score, ts);
          }
        }
        i := i + 1;
      }
    }

    method SeenIds() returns (seen: set<string>)
      ensures forall s :: s in seen <==> Carries(tracker.tracks, s)
    {
      seen := {};
      var i := 0;
      while i < |tracker.tracks|
        invariant i <= |tracker.tracks|
        invariant forall s :: s in seen <==> Carries(tracker.tracks[..i], s)
      {
        var t := tracker.tracks[i];
        assert tracker.tracks[..i + 1] == tracker.tracks[..i] + [t];
        CarriesSnoc(tracker.tracks[..i], t);
        if t.misses == 0 && t.studentId.Some? && t.studentId.value != "" {
          seen := seen + {t.studentId.value};
        }
        i := i + 1;
      }
      assert tracker.tracks[..i] == tracker.tracks;
    }

    /** The `do_reid` block: refresh old identities on what is left of the budget, then let the
        machine observe everyone the tracks carry. */
    method RunPass(first: seq<int>, left: nat, look: Tracker.Detection -> Match, ts: real)
      returns (second: seq<int>, seen: set<string>, transitions: seq<Transition>)
      requires Valid()
      modifies `lastReidPass, tracker`tracks, attendance, fsm
      ensures Valid() && lastReidPass == ts
      ensures var was, want := old(tracker.tracks), Due(IdSet(first), reidIntervalS, ts);
        && Served(was, want, left, look, ts, tracker.tracks)
        && second == Embedded(was, want, left, |was|)
        && attendance.log == old(attendance.log) + Sightings(was, want, left, look, ts, |was|)
      ensures forall s :: s in seen <==> Carries(tracker.tracks, s)
      ensures forall s ::
        Turn(s in roster, old(fsm.ViewOf(s)), fsm.ViewOf(s), StatesFor(transitions, s), s in seen, fsm.missThreshold,
             ts)
    {
      hide Served, Turn, Carries, Rank, CumulativeAttendance.Valid;
      var done := set i | 0 <= i < |first| :: first[i];
      second := Serve(Due(done, reidIntervalS, ts), left, look, ts);
      seen := SeenIds();
      transitions := fsm.Observe(seen, roster, ts);
      lastReidPass := ts;
    }

    method ProcessFrame(f: Frame)
      returns (present: set<string>, transitions: seq<Transition>, ghost tr: Trace)
      requires Valid()
      modifies this, tracker, attendance, fsm
      ensures Valid()
      ensures FrameTraced(Setup(), old(tracker.tracks), old(tracker.nextId), old(lastReidPass), f, tr)
      ensures tracker.tracks == tr.table && tracker.nextId == tr.nextId
      ensures attendance.log == old(attendance.log) + tr.firstSightings + tr.secondSightings
      ensures lastReidPass == if tr.isPass then f.ts else old(lastReidPass)
      ensures forall s :: Turn(tr.isPass && s in roster, old(fsm.ViewOf(s)), fsm.ViewOf(s), StatesFor(transitions, s),
                               s in tr.seen, fsm.missThreshold, f.ts)
      ensures present == set s | s in roster && fsm.StateOf(s) == Present
    {
      hide Tracker.Updated, Served, Turn, Carries, Rank, CumulativeAttendance.Valid, Embedded, Sightings;
      var live;
      ghost var picks;
      live, picks := tracker.Update(f.dets);
      ghost var updated := tracker.tracks;
      var first := Serve(Nameless(), maxReidPerFrame, f.look, f.ts);
      ghost var named := tracker.tracks;
      ghost var firstSightings := Sightings(updated, Nameless(), maxReidPerFrame, f.look, f.ts, |updated|);
      EmbeddedCount(updated, Nameless(), maxReidPerFrame, |updated|);
      transitions := [];
      IdleTurn(fsm.missThreshold, f.ts);
      if f.ts - lastReidPass >= reidIntervalS {
        var left := maxReidPerFrame - |first|;
        var second, seen;
        second, seen, transitions := RunPass(first, left, f.look, f.ts);
        ghost var secondSightings := Sightings(named, Due(IdSet(first), reidIntervalS, f.ts), left, f.look, f.ts,
                                               |named|);
        tr := Trace(f.ts, picks, tracker.nextId, updated, named, tracker.tracks, first, second, firstSightings,
                    secondSightings, true, seen);
      } else {
        tr := Trace(f.ts, picks, tracker.nextId, updated, named, named, first, [], firstSightings, [], false, {});
      }
      present := set s | s in roster && fsm.StateOf(s) == Present;
    }
  }

  lemma CarriesSnoc(tracks: Table, t: Tracker.Track)
    ensures forall s ::
      Carries(tracks + [t], s) <==>
      Carries(tracks, s) || (s != "" && t.misses == 0 && t.studentId == Some(s))
  {
    var all := tracks + [t];
    assert all[|tracks|] == t;
    assert forall i :: 0 <= i < |tracks| ==> all[i] == tracks[i];
  }
}
