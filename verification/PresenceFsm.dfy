/**
 The presence machine of backend/presence/fsm.py: PRESENT, UNVERIFIED and ABSENT per
 student, driven by one look at the room per re-identification pass.

 `PresenceFSM` is the object with its mutable tables. What it does to one student is
 `Step` on that student's `View`; the lemmas below say what a whole history of looks
 amounts to, without mentioning the machine's counters.
 */
module PresenceFsm {
  import opened Wrappers

  datatype State = Present | Unverified | Absent

  /** A closed stretch of time in one state. */
  datatype Span = Span(state: State, startedAt: real, endedAt: real)

  datatype Interval = Interval(studentId: string, span: Span)

  datatype OpenInterval = OpenInterval(state: State, startedAt: real)

  datatype Track = Track(state: State, misses: nat, openInterval: Option<OpenInterval>)

  const FRESH_TRACK := Track(Absent, 0, None)

  datatype Transition = Transition(studentId: string, state: State)

  /** Everything the machine holds about one student. */
  datatype View = View(track: Track, closed: seq<Span>)

  const FRESH_VIEW := View(FRESH_TRACK, [])

  // ---------- One student ----------

  function CloseOpen(v: View, ts: real): View {
    match v.track.openInterval
    case None => v
    case Some(o) => View(v.track.(openInterval := None), v.closed + [Span(o.state, o.startedAt, ts)])
  }

  /** Close what is open and go to `state`; ABSENT is not an interval the machine opens. */
  function Entered(v: View, state: State, misses: nat, ts: real): View {
    var open := if state == Absent then None else Some(OpenInterval(state, ts));
    View(Track(state, misses, open), CloseOpen(v, ts).closed)
  }

  function Step(v: View, seen: bool, threshold: int, ts: real): View {
    var t := v.track;
    if seen then
      if t.state != Present then Entered(v, Present, 0, ts) else v.(track := t.(misses := 0))
    else
      var misses := t.misses + 1;
      if t.state == Present && misses < threshold then Entered(v, Unverified, misses, ts)
      else if t.state != Absent && misses >= threshold then Entered(v, Absent, misses, ts)
      else v.(track := t.(misses := misses))
  }

  // ---------- Histories ----------

  /** One pass: when it ran and whether it matched the student. */
  datatype Look = Look(ts: real, seen: bool)

  function Run(threshold: int, looks: seq<Look>): View {
    if looks == [] then FRESH_VIEW
    else
      var last := looks[|looks| - 1];
      Step(Run(threshold, looks[..|looks| - 1]), last.seen, threshold, last.ts)
  }

  /** How many passes in a row, up to the last one, missed the student. */
  function TrailingMisses(looks: seq<Look>): nat {
    if looks == [] || looks[|looks| - 1].seen then 0
    else 1 + TrailingMisses(looks[..|looks| - 1])
  }

  ghost predicate EverSeen(looks: seq<Look>) {
    exists i :: 0 <= i < |looks| && looks[i].seen
  }

  /** The state as a function of what was seen, and nothing else. */
  ghost function StateByHistory(threshold: int, looks: seq<Look>): State {
    if !EverSeen(looks) then Absent
    else if TrailingMisses(looks) == 0 then Present
    else if TrailingMisses(looks) < threshold then Unverified
    else Absent
  }

  lemma EverSeenSnoc(looks: seq<Look>, last: Look)
    ensures EverSeen(looks + [last]) <==> EverSeen(looks) || last.seen
  {
    var all := looks + [last];
    if EverSeen(looks) {
      var i :| 0 <= i < |looks| && looks[i].seen;
      assert all[i].seen;
    }
    if last.seen {
      assert all[|looks|].seen;
    }
  }

  /** PRESENT iff seen in the last pass, UNVERIFIED iff last seen k passes ago with
      1 <= k < threshold, ABSENT otherwise; the open interval is in that state. */
  lemma {:induction false} StateIsHistory(threshold: int, looks: seq<Look>)
    ensures var t := Run(threshold, looks).track;
            && t.state == StateByHistory(threshold, looks)
            && t.misses == TrailingMisses(looks)
            && (t.openInterval.None? <==> t.state == Absent)
            && (t.openInterval.Some? ==> t.openInterval.value.state == t.state)
  {
    if looks == [] {
    } else {
      var prefix, last := looks[..|looks| - 1], looks[|looks| - 1];
      assert looks == prefix + [last];
      StateIsHistory(threshold, prefix);
      EverSeenSnoc(prefix, last);
      if TrailingMisses(prefix) == 0 && prefix != [] {
        assert prefix[|prefix| - 1].seen;
      }
    }
  }

  /** Seconds a list of spans spends in `state`. */
  function TimeIn(spans: seq<Span>, state: State): real {
    if spans == [] then 0.0
    else
      var last := spans[|spans| - 1];
      TimeIn(spans[..|spans| - 1], state) + if last.state == state then last.endedAt - last.startedAt else 0.0
  }

  lemma TimeInSnoc(spans: seq<Span>, last: Span, state: State)
    ensures TimeIn(spans + [last], state)
         == TimeIn(spans, state) + if last.state == state then last.endedAt - last.startedAt else 0.0
  {
    assert (spans + [last])[..|spans|] == spans;
  }

  /** Credit every gap between consecutive passes to the state the earlier pass left;
      the last pass is credited up to `until`. */
  ghost function Credit(threshold: int, looks: seq<Look>, state: State, until: real): real {
    if looks == [] then 0.0
    else
      var last := looks[|looks| - 1];
      Credit(threshold, looks[..|looks| - 1], state, last.ts)
      + if StateByHistory(threshold, looks) == state then until - last.ts else 0.0
  }

  /** Interval bookkeeping adds up: closing the session at `until` leaves, for PRESENT and
      for UNVERIFIED, exactly the time credited gap by gap, for any list of timestamps. */
  lemma {:induction false} ClosedTimeIsCredit(threshold: int, looks: seq<Look>, state: State, until: real)
    requires state != Absent
    ensures TimeIn(CloseOpen(Run(threshold, looks), until).closed, state) == Credit(threshold, looks, state, until)
  {
    if looks == [] {
      assert TimeIn(CloseOpen(FRESH_VIEW, until).closed, state) == 0.0;
    } else {
      hide TimeIn, CloseOpen, Step, StateByHistory;
      var prefix, last := looks[..|looks| - 1], looks[|looks| - 1];
      assert Run(threshold, looks) == Step(Run(threshold, prefix), last.seen, threshold, last.ts);
      assert Credit(threshold, looks, state, until)
          == Credit(threshold, prefix, state, last.ts)
             + if StateByHistory(threshold, looks) == state then until - last.ts else 0.0;
      hide Run, Credit;
      OpenInItsState(threshold, prefix);
      OpenInItsState(threshold, looks);
      ClosedTimeIsCredit(threshold, prefix, state, last.ts);
      StepTime(Run(threshold, prefix), last.seen, threshold, last.ts, state, until);
    }
  }

  lemma OpenInItsState(threshold: int, looks: seq<Look>)
    ensures var tr := Run(threshold, looks).track;
      && tr.state == StateByHistory(threshold, looks)
      && (tr.openInterval.None? <==> tr.state == Absent)
      && (tr.openInterval.Some? ==> tr.openInterval.value.state == tr.state)
  {
    StateIsHistory(threshold, looks);
  }

  /** One pass closes the books at its own time and then counts for the state it leaves. */
  lemma StepTime(v: View, seen: bool, threshold: int, ts: real, state: State, until: real)
    requires state != Absent
    requires v.track.openInterval.None? <==> v.track.state == Absent
    requires v.track.openInterval.Some? ==> v.track.openInterval.value.state == v.track.state
    ensures TimeIn(CloseOpen(Step(v, seen, threshold, ts), until).closed, state)
         == TimeIn(CloseOpen(v, ts).closed, state)
            + if Step(v, seen, threshold, ts).track.state == state then until - ts else 0.0
  {
    hide TimeIn;
    CloseOpenTime(v, state, ts);
    CloseOpenTime(Step(v, seen, threshold, ts), state, until);
  }

  lemma CloseOpenTime(v: View, state: State, ts: real)
    ensures TimeIn(CloseOpen(v, ts).closed, state)
         == TimeIn(v.closed, state)
            + match v.track.openInterval
              case None => 0.0
              case Some(o) => if o.state == state then ts - o.startedAt else 0.0
  {
    if v.track.openInterval.Some? {
      var o := v.track.openInterval.value;
      TimeInSnoc(v.closed, Span(o.state, o.startedAt, ts), state);
    }
  }

  /** PRESENT time is the time that followed a pass which saw the student. */
  ghost function SeenCredit(looks: seq<Look>, until: real): real {
    if looks == [] then 0.0
    else
      var last := looks[|looks| - 1];
      SeenCredit(looks[..|looks| - 1], last.ts) + if last.seen then until - last.ts else 0.0
  }

  lemma {:induction false} PresentTimeFollowsSightings(threshold: int, looks: seq<Look>, until: real)
    ensures TimeIn(CloseOpen(Run(threshold, looks), until).closed, Present) == SeenCredit(looks, until)
  {
    ClosedTimeIsCredit(threshold, looks, Present, until);
    PresentCredit(threshold, looks, until);
  }

  lemma {:induction false} PresentCredit(threshold: int, looks: seq<Look>, until: real)
    ensures Credit(threshold, looks, Present, until) == SeenCredit(looks, until)
  {
    if looks == [] {
    } else {
      var last := looks[|looks| - 1];
      assert looks[|looks| - 1].seen ==> EverSeen(looks);
      PresentCredit(threshold, looks[..|looks| - 1], last.ts);
    }
  }

  // ---------- The object ----------

  function SpansOf(intervals: seq<Interval>, studentId: string): seq<Span> {
    if intervals == [] then []
    else
      var front, last := SpansOf(intervals[..|intervals| - 1], studentId), intervals[|intervals| - 1];
      if last.studentId == studentId then front + [last.span] else front
  }

  lemma SpansOfSnoc(intervals: seq<Interval>, last: Interval)
    ensures forall s ::
      SpansOf(intervals + [last], s)
          == if last.studentId == s then SpansOf(intervals, s) + [last.span] else SpansOf(intervals, s)
  {
    assert (intervals + [last])[..|intervals|] == intervals;
  }

  function StatesFor(transitions: seq<Transition>, studentId: string): seq<State> {
    if transitions == [] then []
    else
      var front, last := StatesFor(transitions[..|transitions| - 1], studentId), transitions[|transitions| - 1];
      if last.studentId == studentId then front + [last.state] else front
  }

  lemma StatesForSnoc(transitions: seq<Transition>, last: Transition)
    ensures forall s ::
      StatesFor(transitions + [last], s)
          == if last.studentId == s then StatesFor(transitions, s) + [last.state] else StatesFor(transitions, s)
  {
    assert (transitions + [last])[..|transitions|] == transitions;
  }

  /** A pass reports a student exactly when it changed the student's state. */
  function Reported(before: State, after: State): (r: seq<State>)
    ensures |r| <= 1
  {
    if before == after then [] else [after]
  }

  /** The transition list after one student's turn. */
  function AppendReport(transitions: seq<Transition>, studentId: string, reported: seq<State>): (r: seq<Transition>)
    requires |reported| <= 1
    ensures forall s ::
      StatesFor(r, s)
      == if s == studentId then StatesFor(transitions, s) + reported else StatesFor(transitions, s)
  {
    if reported == [] then transitions
    else
      StatesForSnoc(transitions, Transition(studentId, reported[0]));
      transitions + [Transition(studentId, reported[0])]
  }

  /** What a pass does to one student: a step and its report if the student is on the
      roster, nothing otherwise. */
  ghost predicate Turn(onRoster: bool, before: View, after: View, reported: seq<State>, seen: bool, threshold: int,
                       ts: real) {
    if onRoster then
      after == Step(before, seen, threshold, ts) && reported == Reported(before.track.state, after.track.state)
    else
      after == before && reported == []
  }

  lemma IdleTurn(threshold: int, ts: real)
    ensures forall v: View, seen: bool :: Turn(false, v, v, [], seen, threshold, ts)
  {
  }

  lemma NothingReported()
    ensures forall s :: StatesFor([], s) == []
  {
  }

  class PresenceFSM {
    const missThreshold: int
    var tracks: map<string, Track>
    var intervals: seq<Interval>

    constructor (missThreshold: int)
      ensures this.missThreshold == missThreshold
      ensures tracks == map[] && intervals == []
      ensures forall s :: ViewOf(s) == FRESH_VIEW
    {
      this.missThreshold := missThreshold;
      tracks := map[];
      intervals := [];
    }

    function TrackOf(studentId: string): Track
      reads this
    {
      if studentId in tracks then tracks[studentId] else FRESH_TRACK
    }

    function ViewOf(studentId: string): View
      reads this
    {
      View(TrackOf(studentId), SpansOf(intervals, studentId))
    }

    function StateOf(studentId: string): State
      reads this
    {
      TrackOf(studentId).state
    }

    function PresentSeconds(studentId: string): real
      reads this
    {
      TimeIn(SpansOf(intervals, studentId), Present)
    }

    /** `_close`: appends the student's open interval, ended at `ts`, to the log. */
    method Close(studentId: string, ts: real)
      requires studentId in tracks
      modifies this
      ensures tracks == old(tracks)[studentId := CloseOpen(old(ViewOf(studentId)), ts).track]
      ensures ViewOf(studentId) == CloseOpen(old(ViewOf(studentId)), ts)
      ensures forall s :: s != studentId ==> ViewOf(s) == old(ViewOf(s))
    {
      var tr := tracks[studentId];
      if tr.openInterval.Some? {
        var o := tr.openInterval.value;
        SpansOfSnoc(intervals, Interval(studentId, Span(o.state, o.startedAt, ts)));
        intervals := intervals + [Interval(studentId, Span(o.state, o.startedAt, ts))];
        tracks := tracks[studentId := tr.(openInterval := None)];
      }
    }

    method Enter(studentId: string, state: State, misses: nat, ts: real)
      requires studentId in tracks
      modifies this
      ensures tracks.Keys == old(tracks.Keys)
      ensures ViewOf(studentId) == Entered(old(ViewOf(studentId)), state, misses, ts)
      ensures forall s :: s != studentId ==> ViewOf(s) == old(ViewOf(s))
    {
      Close(studentId, ts);
      var open := if state == Absent then None else Some(OpenInterval(state, ts));
      tracks := tracks[studentId := Track(state, misses, open)];
    }

    /** The loop body of `observe`: one student in one pass. */
    method ObserveStudent(studentId: string, seen: bool, ts: real) returns (reported: seq<State>)
      modifies this
      ensures tracks.Keys == old(tracks.Keys) + {studentId}
      ensures ViewOf(studentId) == Step(old(ViewOf(studentId)), seen, missThreshold, ts)
      ensures forall s :: s != studentId ==> ViewOf(s) == old(ViewOf(s))
      ensures reported == Reported(old(ViewOf(studentId)).track.state, ViewOf(studentId).track.state)
    {
      var tr := TrackOf(studentId);
      tracks := tracks[studentId := tr];
      reported := [];
      if seen {
        if tr.state != Present {
          Enter(studentId, Present, 0, ts);
          reported := [Present];
        } else {
          tracks := tracks[studentId := tr.(misses := 0)];
        }
      } else {
        var misses := tr.misses + 1;
        if tr.state == Present && misses < missThreshold {
          Enter(studentId, Unverified, misses, ts);
          reported := [Unverified];
        } else if tr.state != Absent && misses >= missThreshold {
          Enter(studentId, Absent, misses, ts);
          reported := [Absent];
        } else {
          tracks := tracks[studentId := tr.(misses := misses)];
        }
      }
    }

    method Observe(seen: set<string>, roster: set<string>, ts: real) returns (transitions: seq<Transition>)
      modifies this
      ensures tracks.Keys == old(tracks.Keys) + roster
      ensures forall s ::
        Turn(s in roster, old(ViewOf(s)), ViewOf(s), StatesFor(transitions, s), s in seen, missThreshold, ts)
    {
      hide Step, Reported, StatesFor, ViewOf;
      transitions := [];
      NothingReported();
      var todo := roster;
      while todo != {}
        invariant todo <= roster
        invariant tracks.Keys == old(tracks.Keys) + (roster - todo)
        invariant forall s ::
          Turn(s in roster && s !in todo, old(ViewOf(s)), ViewOf(s), StatesFor(transitions, s), s in seen,
               missThreshold, ts)
        decreases todo
      {
        var sid :| sid in todo;
        assert ViewOf(sid) == old(ViewOf(sid)) && StatesFor(transitions, sid) == [];
        todo := todo - {sid};
        var reported := ObserveStudent(sid, sid in seen, ts);
        transitions := AppendReport(transitions, sid, reported);
        assert Turn(true, old(ViewOf(sid)), ViewOf(sid), StatesFor(transitions, sid), sid in seen, missThreshold, ts);
      }
    }

    /** Closes every open interval; the states themselves stay as they were. */
    method EndSession(ts: real)
      modifies this
      ensures tracks.Keys == old(tracks.Keys)
      ensures forall s :: ViewOf(s) == CloseOpen(old(ViewOf(s)), ts)
    {
      var todo := tracks.Keys;
      while todo != {}
        invariant todo <= tracks.Keys == old(tracks.Keys)
        invariant forall s :: s !in todo ==> ViewOf(s) == CloseOpen(old(ViewOf(s)), ts)
        invariant forall s :: s in todo ==> ViewOf(s) == old(ViewOf(s))
        decreases todo
      {
        var sid :| sid in todo;
        todo := todo - {sid};
        Close(sid, ts);
      }
    }
  }
}
