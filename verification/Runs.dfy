/**
 Runs of the pipeline and the presence they amount to, measured three ways: from frame
 gaps, from the machine's intervals, and from the recorder's rows.
 */
module Runs {
  import opened Wrappers
  import opened PresenceFsm
  import opened Recorder
  import opened Pipeline
  import opened Attendance
  import PipelineLaws

  // ---------- The run ----------

  ghost function TableAfter(log: seq<Trace>): Table {
    if log == [] then [] else log[|log| - 1].table
  }

  ghost function NextIdAfter(log: seq<Trace>): int {
    if log == [] then 1 else log[|log| - 1].nextId
  }

  ghost function LastPassAfter(log: seq<Trace>): real {
    if log == [] then NO_PASS_YET
    else if log[|log| - 1].isPass then log[|log| - 1].ts
    else LastPassAfter(log[..|log| - 1])
  }

  /** Every sighting of the run, in order. */
  ghost function SightingsOf(log: seq<Trace>): seq<Sighting> {
    if log == [] then []
    else SightingsOf(log[..|log| - 1]) + log[|log| - 1].firstSightings + log[|log| - 1].secondSightings
  }

  lemma SightingsOfSnoc(log: seq<Trace>, tr: Trace)
    ensures SightingsOf(log + [tr]) == SightingsOf(log) + tr.firstSightings + tr.secondSightings
  {
    assert (log + [tr])[..|log|] == log;
  }

  /** `log` is what a fresh pipeline makes of `frames`. */
  ghost predicate Traced(c: Config, frames: seq<Frame>, log: seq<Trace>) {
    if log == [] then frames == []
    else
      var front, n := log[..|log| - 1], |log| - 1;
      && |frames| == |log|
      && Traced(c, frames[..n], front)
      && FrameTraced(c, TableAfter(front), NextIdAfter(front), LastPassAfter(front), frames[n], log[n])
  }

  lemma TracedSnoc(c: Config, frames: seq<Frame>, log: seq<Trace>, f: Frame, tr: Trace)
    requires Traced(c, frames, log)
    requires FrameTraced(c, TableAfter(log), NextIdAfter(log), LastPassAfter(log), f, tr)
    ensures Traced(c, frames + [f], log + [tr])
    ensures TableAfter(log + [tr]) == tr.table && NextIdAfter(log + [tr]) == tr.nextId
    ensures LastPassAfter(log + [tr]) == if tr.isPass then tr.ts else LastPassAfter(log)
  {
    hide FrameTraced;
    TracedLength(c, frames, log);
    assert (log + [tr])[..|log|] == log && (frames + [f])[..|log|] == frames;
  }

  lemma TracedLength(c: Config, frames: seq<Frame>, log: seq<Trace>)
    requires Traced(c, frames, log)
    ensures |frames| == |log|
  {
  }

  lemma NothingTraced(c: Config)
    ensures Traced(c, [], []) && TableAfter([]) == [] && NextIdAfter([]) == 1 && LastPassAfter([]) == NO_PASS_YET
  {
  }

  lemma FrameTime(c: Config, table: Table, nextId: int, lastPass: real, f: Frame, tr: Trace)
    requires FrameTraced(c, table, nextId, lastPass, f, tr)
    ensures tr.ts == f.ts
  {
  }

  /** The pipeline has processed `frames`, leaving the trace `log`. */
  ghost predicate At(p: SessionPipeline, frames: seq<Frame>, log: seq<Trace>)
    reads p, p.tracker, p.attendance
  {
    && p.Valid() && Traced(p.Setup(), frames, log)
    && p.tracker.tracks == TableAfter(log) && p.tracker.nextId == NextIdAfter(log)
    && p.lastReidPass == LastPassAfter(log)
    && p.attendance.log == SightingsOf(log)
  }

  lemma StartsAt(p: SessionPipeline)
    requires p.Valid() && p.Fresh()
    ensures At(p, [], [])
  {
    NothingTraced(p.Setup());
  }

  lemma AtIsTraced(p: SessionPipeline, frames: seq<Frame>, log: seq<Trace>)
    requires At(p, frames, log)
    ensures Traced(p.Setup(), frames, log)
  {
  }

  /** The next frame of a run. */
  method Feed(p: SessionPipeline, f: Frame, ghost frames: seq<Frame>, ghost log: seq<Trace>)
    returns (present: set<string>, transitions: seq<Transition>, ghost tr: Trace)
    requires At(p, frames, log)
    modifies p, p.tracker, p.attendance, p.fsm
    ensures At(p, frames + [f], log + [tr]) && tr.ts == f.ts
    ensures forall s ::
      Turn(tr.isPass && s in p.roster, old(p.fsm.ViewOf(s)), p.fsm.ViewOf(s), StatesFor(transitions, s),
                             s in tr.seen, p.fsm.missThreshold, tr.ts)
    ensures present == set s | s in p.roster && p.fsm.StateOf(s) == Present
  {
    hide Turn, FrameDone, FrameTraced, Traced, SessionPipeline.Valid, TableAfter, NextIdAfter, LastPassAfter,
        SightingsOf;
    present, transitions, tr := p.ProcessFrame(f);
    TracedSnoc(p.Setup(), frames, log, f, tr);
    SightingsOfSnoc(log, tr);
    FrameTime(p.Setup(), TableAfter(log), NextIdAfter(log), LastPassAfter(log), f, tr);
  }

  // ---------- Attendance over a run ----------

  /** How many embeddings of a run matched a student. */
  ghost function RunMatches(c: Config, frames: seq<Frame>, log: seq<Trace>, studentId: string): nat
    requires Traced(c, frames, log)
  {
    if log == [] then 0
    else
      var n := |log| - 1;
      RunMatches(c, frames[..n], log[..n], studentId)
      + PipelineLaws.FrameMatches(frames[n], c.budget, c.interval, log[n], studentId)
  }

  lemma {:induction false} RunSightings(c: Config, frames: seq<Frame>, log: seq<Trace>, studentId: string)
    requires Traced(c, frames, log)
    ensures Count(SightingsOf(log), studentId) == RunMatches(c, frames, log, studentId)
  {
    hide Count, PipelineLaws.FrameMatches, FirstRound, SecondRound, NoRound, Tracker.Updated;
    if log == [] {
      PipelineLaws.NobodyCounted(studentId);
    } else {
      var n := |log| - 1;
      RunSightings(c, frames[..n], log[..n], studentId);
      PipelineLaws.FrameSightings(frames[n], c.budget, c.interval, LastPassAfter(log[..n]), log[n],
                                  SightingsOf(log[..n]), studentId);
    }
  }

  /** Over a whole run, a student's record counts exactly the embeddings that matched them, and
      the attended students are those with enough of them. */
  lemma RecordsCountMatches(p: SessionPipeline, frames: seq<Frame>, log: seq<Trace>, studentId: string)
    requires At(p, frames, log)
    ensures Traced(p.Setup(), frames, log)
    ensures var n := RunMatches(p.Setup(), frames, log, studentId);
      && n == (if studentId in p.attendance.records then p.attendance.records[studentId].totalSightings else 0)
      && (studentId in p.attendance.AttendedIds() <==> n > 0 && n >= p.attendance.threshold)
  {
    hide Traced, Count;
    RunSightings(p.Setup(), frames, log, studentId);
    p.attendance.AttendedIdsAreAttended();
    RecordIsCount(p.attendance, studentId);
  }

  lemma RecordIsCount(a: CumulativeAttendance, studentId: string)
    requires a.Valid()
    ensures Count(a.log, studentId) == if studentId in a.records then a.records[studentId].totalSightings else 0
  {
  }

  /** The passes of a run, as one student experienced them. */
  ghost function LooksOf(log: seq<Trace>, studentId: string): seq<Look> {
    if log == [] then []
    else
      var front, last := LooksOf(log[..|log| - 1], studentId), log[|log| - 1];
      if last.isPass then front + [Look(last.ts, studentId in last.seen)] else front
  }

  lemma LooksOfSnoc(log: seq<Trace>, tr: Trace)
    ensures forall s ::
      LooksOf(log + [tr], s)
      == if tr.isPass then LooksOf(log, s) + [Look(tr.ts, s in tr.seen)] else LooksOf(log, s)
  {
    assert (log + [tr])[..|log|] == log;
  }

  lemma RunSnoc(threshold: int, looks: seq<Look>, last: Look)
    ensures Run(threshold, looks + [last]) == Step(Run(threshold, looks), last.seen, threshold, last.ts)
  {
    assert (looks + [last])[..|looks|] == looks;
  }

  /** The machine's view of a student is the run of that student's looks. */
  ghost predicate Follows(onRoster: bool, threshold: int, looks: seq<Look>, v: View) {
    v == if onRoster then Run(threshold, looks) else FRESH_VIEW
  }

  lemma TurnFollows(onRoster: bool, threshold: int, log: seq<Trace>, tr: Trace, studentId: string, before: View,
                    after: View, reported: seq<State>)
    requires Follows(onRoster, threshold, LooksOf(log, studentId), before)
    requires Turn(tr.isPass && onRoster, before, after, reported, studentId in tr.seen, threshold, tr.ts)
    ensures Follows(onRoster, threshold, LooksOf(log + [tr], studentId), after)
    ensures reported == Reported(before.track.state, after.track.state)
  {
    LooksOfSnoc(log, tr);
    RunSnoc(threshold, LooksOf(log, studentId), Look(tr.ts, studentId in tr.seen));
  }

  ghost predicate PresentAfter(threshold: int, roster: set<string>, log: seq<Trace>, studentId: string) {
    studentId in roster && StateByHistory(threshold, LooksOf(log, studentId)) == Present
  }

  // ---------- Frame gaps ----------

  /** Every gap between frames, credited to who was present after the earlier frame. */
  ghost function FrameCredit(threshold: int, roster: set<string>, log: seq<Trace>, studentId: string): real {
    if |log| <= 1 then 0.0
    else
      var front := log[..|log| - 1];
      FrameCredit(threshold, roster, front, studentId)
      + if PresentAfter(threshold, roster, front, studentId) then log[|log| - 1].ts - front[|front| - 1].ts else 0.0
  }

  lemma FrameCreditSnoc(threshold: int, roster: set<string>, log: seq<Trace>, tr: Trace, studentId: string)
    requires log != []
    ensures FrameCredit(threshold, roster, log + [tr], studentId)
         == FrameCredit(threshold, roster, log, studentId)
            + if PresentAfter(threshold, roster, log, studentId) then tr.ts - log[|log| - 1].ts else 0.0
  {
    assert (log + [tr])[..|log|] == log;
  }

  lemma CreditShift(threshold: int, looks: seq<Look>, state: State, until: real, until': real)
    requires state != Absent
    ensures Credit(threshold, looks, state, until')
         == Credit(threshold, looks, state, until)
            + if StateByHistory(threshold, looks) == state then until' - until else 0.0
  {
  }

  /** Frame gaps telescope into pass gaps: frames between passes change nothing. */
  lemma {:induction false} FrameCreditIsCredit(threshold: int, roster: set<string>, log: seq<Trace>, studentId: string)
    requires log != [] && studentId in roster
    ensures FrameCredit(threshold, roster, log, studentId)
         == Credit(threshold, LooksOf(log, studentId), Present, log[|log| - 1].ts)
  {
    hide StateByHistory;
    var front, last := log[..|log| - 1], log[|log| - 1];
    assert log == front + [last];
    LooksOfSnoc(front, last);
    var looks := LooksOf(front, studentId);
    if last.isPass {
      CreditSnoc(threshold, looks, Look(last.ts, studentId in last.seen), last.ts);
    }
    if front == [] {
      assert Credit(threshold, looks, Present, last.ts) == 0.0;
    } else {
      FrameCreditIsCredit(threshold, roster, front, studentId);
      FrameCreditSnoc(threshold, roster, front, last, studentId);
      CreditShift(threshold, looks, Present, front[|front| - 1].ts, last.ts);
    }
  }

  lemma CreditSnoc(threshold: int, looks: seq<Look>, last: Look, until: real)
    ensures Credit(threshold, looks + [last], Present, until)
         == Credit(threshold, looks, Present, last.ts)
            + if StateByHistory(threshold, looks + [last]) == Present then until - last.ts else 0.0
  {
    assert (looks + [last])[..|looks|] == looks;
  }

  // ---------- Rows ----------

  /** Seconds a student's closed rows spend in `state`. */
  function RowTime(rows: seq<Row>, state: State): real {
    if rows == [] then 0.0
    else
      var last := rows[|rows| - 1];
      RowTime(rows[..|rows| - 1], state)
      + if last.state == state && last.endedAt.Some? then last.endedAt.value - last.startedAt else 0.0
  }

  lemma {:induction false} RowTimeIsSpanTime(rows: seq<Row>, sessionStart: real, state: State)
    requires state != Absent
    ensures RowTime(rows, state) == TimeIn(CameraSpans(rows, sessionStart), state)
  {
    if rows == [] {
    } else {
      var front, last := rows[..|rows| - 1], rows[|rows| - 1];
      RowTimeIsSpanTime(front, sessionStart, state);
      if last.state != Absent && last.endedAt.Some? {
        TimeInSnoc(CameraSpans(front, sessionStart),
                   Span(last.state, last.startedAt - sessionStart, last.endedAt.value - sessionStart), state);
      }
    }
  }

  /** The three measurements agree: gaps between frames up to the last one, the machine's
      PRESENT intervals, and the recorder's PRESENT rows, both closed at the last frame. */
  lemma ThreeMeasurementsAgree(threshold: int, roster: set<string>, log: seq<Trace>, studentId: string,
                               sessionStart: real)
    requires log != [] && studentId in roster
    ensures var looks, until := LooksOf(log, studentId), log[|log| - 1].ts;
      && FrameCredit(threshold, roster, log, studentId)
         == TimeIn(CloseOpen(Run(threshold, looks), until).closed, Present)
      && FrameCredit(threshold, roster, log, studentId)
         == RowTime(CloseLast(RecordRun(studentId, threshold, looks, sessionStart), sessionStart + until), Present)
      && FrameCredit(threshold, roster, log, studentId) == SeenCredit(looks, until)
  {
    var looks, until := LooksOf(log, studentId), log[|log| - 1].ts;
    FrameCreditIsCredit(threshold, roster, log, studentId);
    ClosedTimeIsCredit(threshold, looks, Present, until);
    PresentCredit(threshold, looks, until);
    RowsAreIntervals(studentId, threshold, looks, sessionStart, until);
    RowTimeIsSpanTime(CloseLast(RecordRun(studentId, threshold, looks, sessionStart), sessionStart + until),
                      sessionStart, Present);
  }

  // ---------- Spacing of passes ----------

  ghost predicate Spaced(looks: seq<Look>, interval: real) {
    forall i, j :: 0 <= i < j < |looks| && j == i + 1 ==> looks[j].ts - looks[i].ts >= interval
  }

  lemma {:induction false} SpacedGap(looks: seq<Look>, interval: real, i: nat, j: nat)
    requires Spaced(looks, interval) && i <= j < |looks|
    ensures looks[j].ts - looks[i].ts >= (j - i) as real * interval
  {
    if i == j {
    } else {
      SpacedGap(looks, interval, i, j - 1);
      assert looks[j].ts - looks[j - 1].ts >= interval;
      assert (j - i) as real == (j - 1 - i) as real + 1.0;
      assert (j - i) as real * interval == (j - 1 - i) as real * interval + interval;
    }
  }

  lemma {:induction false} MissesSince(looks: seq<Look>, i: nat)
    requires i < |looks| && looks[i].seen && forall j :: i < j < |looks| ==> !looks[j].seen
    ensures TrailingMisses(looks) == |looks| - 1 - i
  {
    if i == |looks| - 1 {
    } else {
      MissesSince(looks[..|looks| - 1], i);
    }
  }

  /** A student last seen in pass `i` is reported ABSENT no sooner than `threshold` intervals later. */
  lemma AbsentNeverEarly(threshold: int, looks: seq<Look>, interval: real, i: nat)
    requires Spaced(looks, interval) && interval >= 0.0
    requires i < |looks| && looks[i].seen && forall j :: i < j < |looks| ==> !looks[j].seen
    requires Run(threshold, looks).track.state == Absent
    ensures looks[|looks| - 1].ts - looks[i].ts >= threshold as real * interval
  {
    StateIsHistory(threshold, looks);
    MissesSince(looks, i);
    assert EverSeen(looks);
    SpacedGap(looks, interval, i, |looks| - 1);
    var missed := |looks| - 1 - i;
    assert missed >= threshold;
    assert (missed - threshold) as real * interval >= 0.0;
    assert missed as real * interval == threshold as real * interval + (missed - threshold) as real * interval;
  }

  lemma SpacedSnoc(looks: seq<Look>, last: Look, interval: real)
    requires Spaced(looks, interval) && (looks != [] ==> last.ts - looks[|looks| - 1].ts >= interval)
    ensures Spaced(looks + [last], interval)
  {
  }

  /** The pipeline spaces its passes by the re-identification interval. */
  lemma {:induction false} PassesAreSpaced(c: Config, frames: seq<Frame>, log: seq<Trace>, studentId: string)
    requires Traced(c, frames, log)
    ensures Spaced(LooksOf(log, studentId), c.interval)
    ensures LooksOf(log, studentId) != [] ==>
      LooksOf(log, studentId)[|LooksOf(log, studentId)| - 1].ts == LastPassAfter(log)
  {
    hide FirstRound, SecondRound, Tracker.Updated;
    if log == [] {
    } else {
      var front, last := log[..|log| - 1], log[|log| - 1];
      PassesAreSpaced(c, frames[..|log| - 1], front, studentId);
      if last.isPass {
        SpacedSnoc(LooksOf(front, studentId), Look(last.ts, studentId in last.seen), c.interval);
      }
    }
  }

  /** Hence, in any run of the pipeline, ABSENT waits `threshold` re-identification intervals. */
  lemma RunsNeverReportAbsentEarly(c: Config, frames: seq<Frame>, log: seq<Trace>, threshold: int, studentId: string,
                                   i: nat)
    requires Traced(c, frames, log) && c.interval >= 0.0
    requires var looks := LooksOf(log, studentId);
      && i < |looks| && looks[i].seen && (forall j :: i < j < |looks| ==> !looks[j].seen)
      && Run(threshold, looks).track.state == Absent
    ensures LastPassAfter(log) - LooksOf(log, studentId)[i].ts >= threshold as real * c.interval
  {
    hide Traced, Run, TrailingMisses;
    PassesAreSpaced(c, frames, log, studentId);
    AbsentNeverEarly(threshold, LooksOf(log, studentId), c.interval, i);
  }

  // ---------- The states, by the passes ----------

  /** The machine counts the passes since the last sighting: none, and the student is PRESENT; fewer
      than the threshold, UNVERIFIED; as many or more, or never a sighting, ABSENT. */
  lemma StateBySightings(threshold: int, looks: seq<Look>, i: nat)
    requires i < |looks| && looks[i].seen && forall j :: i < j < |looks| ==> !looks[j].seen
    ensures var missed := |looks| - 1 - i;
      Run(threshold, looks).track.state
      == if missed == 0 then Present else if missed < threshold then Unverified else Absent
  {
    hide Run, TrailingMisses;
    StateIsHistory(threshold, looks);
    MissesSince(looks, i);
  }

  lemma NeverSeenIsAbsent(threshold: int, looks: seq<Look>)
    requires forall j :: 0 <= j < |looks| ==> !looks[j].seen
    ensures Run(threshold, looks).track.state == Absent
  {
    hide Run, TrailingMisses;
    StateIsHistory(threshold, looks);
  }

  /** Four passes and what is left of them: seen, missed, missed again, seen. */
  lemma FourPasses()
    ensures var looks := [Look(0.0, true), Look(10.0, false), Look(20.0, false), Look(30.0, true)];
      var closed := CloseOpen(Run(2, looks), 40.0).closed;
      && closed == [Span(Present, 0.0, 10.0), Span(Unverified, 10.0, 20.0), Span(Present, 30.0, 40.0)]
      && TimeIn(closed, Present) == 20.0 && TimeIn(closed, Unverified) == 10.0
  {
    hide Run, TimeIn;
    var a, b, c, d := Look(0.0, true), Look(10.0, false), Look(20.0, false), Look(30.0, true);
    var p, u, q := Span(Present, 0.0, 10.0), Span(Unverified, 10.0, 20.0), Span(Present, 30.0, 40.0);
    NoPasses(2);
    RunSnoc(2, [], a);
    RunSnoc(2, [a], b);
    RunSnoc(2, [a, b], c);
    RunSnoc(2, [a, b, c], d);
    assert [] + [a] == [a] && [a] + [b] == [a, b] && [a, b] + [c] == [a, b, c] && [a, b, c] + [d] == [a, b, c, d];
    assert Run(2, [a]) == View(Track(Present, 0, Some(OpenInterval(Present, 0.0))), []);
    assert Run(2, [a, b]) == View(Track(Unverified, 1, Some(OpenInterval(Unverified, 10.0))), [p]);
    assert Run(2, [a, b, c]) == View(Track(Absent, 2, None), [p, u]);
    assert Run(2, [a, b, c, d]) == View(Track(Present, 0, Some(OpenInterval(Present, 30.0))), [p, u]);
    hide Step;
    TimesOfThree(p, u, q);
  }

  lemma NoPasses(threshold: int)
    ensures Run(threshold, []) == FRESH_VIEW
  {
  }

  lemma TimesOfThree(p: Span, u: Span, q: Span)
    requires p == Span(Present, 0.0, 10.0) && u == Span(Unverified, 10.0, 20.0) && q == Span(Present, 30.0, 40.0)
    ensures TimeIn([p, u, q], Present) == 20.0 && TimeIn([p, u, q], Unverified) == 10.0
  {
    assert TimeIn([], Present) == 0.0 && TimeIn([], Unverified) == 0.0;
    hide TimeIn;
    assert [] + [p] == [p] && [p] + [u] == [p, u] && [p, u] + [q] == [p, u, q];
    forall state
      ensures TimeIn([p, u, q], state)
           == TimeIn([], state) + (if state == Present then 20.0 else 0.0) + if state == Unverified then 10.0 else 0.0
    {
      TimeInSnoc([], p, state);
      TimeInSnoc([p], u, state);
      TimeInSnoc([p, u], q, state);
    }
  }
}
