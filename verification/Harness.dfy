/**
 `eval_presence` of backend/eval/harness.py: one pass over a clip, measuring hit rate against
 truth windows and PRESENT time over frame gaps.
 */
module Harness {
  import opened PresenceFsm
  import opened Pipeline
  import opened Runs
  import opened Geometry

  type Windows = seq<(real, real)>

  predicate InWindows(ts: real, windows: Windows) {
    exists w :: w in windows && w.0 <= ts <= w.1
  }

  function Total(windows: Windows): real {
    if windows == [] then 0.0 else Total(windows[..|windows| - 1]) + windows[|windows| - 1].1 - windows[|windows| - 1].0
  }

  /** Frames inside the truth windows, and those of them after which the student counted as present. */
  ghost function TruthFrames(log: seq<Trace>, windows: Windows): nat {
    if log == [] then 0
    else TruthFrames(log[..|log| - 1], windows) + if InWindows(log[|log| - 1].ts, windows) then 1 else 0
  }

  ghost function Hits(threshold: int, roster: set<string>, log: seq<Trace>, windows: Windows, studentId: string): nat {
    if log == [] then 0
    else Hits(threshold, roster, log[..|log| - 1], windows, studentId)
         + if InWindows(log[|log| - 1].ts, windows) && PresentAfter(threshold, roster, log, studentId) then 1 else 0
  }

  lemma {:induction false} HitsAreTruthFrames(threshold: int, roster: set<string>, log: seq<Trace>, windows: Windows,
                                              studentId: string)
    ensures Hits(threshold, roster, log, windows, studentId) <= TruthFrames(log, windows)
  {
    hide PresentAfter, InWindows;
    if log == [] {
    } else {
      HitsAreTruthFrames(threshold, roster, log[..|log| - 1], windows, studentId);
    }
  }

  /** The counters of one student after some frames. */
  datatype Tally = Tally(hits: nat, truthFrames: nat, measured: real)

  ghost predicate Tallied(threshold: int, roster: set<string>, log: seq<Trace>, windows: Windows, studentId: string,
                          t: Tally) {
    && t.hits == Hits(threshold, roster, log, windows, studentId)
    && t.truthFrames == TruthFrames(log, windows)
    && t.measured == FrameCredit(threshold, roster, log, studentId)
  }

  /** What one more frame does to a student's counters: first credit the gap to who was
      present before it, then judge the frame itself. */
  function NextTally(t: Tally, wasPresent: bool, gap: real, isPresent: bool, inside: bool): Tally {
    Tally(t.hits + (if inside && isPresent then 1 else 0), t.truthFrames + (if inside then 1 else 0),
          t.measured + if wasPresent then gap else 0.0)
  }

  lemma TallySnoc(threshold: int, roster: set<string>, log: seq<Trace>, tr: Trace, windows: Windows,
                  studentId: string, t: Tally, wasPresent: bool, gap: real)
    requires Tallied(threshold, roster, log, windows, studentId, t)
    requires log != [] ==>
      wasPresent == PresentAfter(threshold, roster, log, studentId) && gap == tr.ts - log[|log| - 1].ts
    requires log == [] ==> !wasPresent
    ensures Tallied(threshold, roster, log + [tr], windows, studentId,
                    NextTally(t, wasPresent, gap, PresentAfter(threshold, roster, log + [tr], studentId),
                              InWindows(tr.ts, windows)))
  {
    hide PresentAfter, InWindows;
    assert (log + [tr])[..|log|] == log;
  }

  /** The `present` list of a frame is who is PRESENT by history. */
  lemma PresentIsHistory(fsm: PresenceFSM, roster: set<string>, log: seq<Trace>, present: set<string>)
    requires forall s :: Follows(s in roster, fsm.missThreshold, LooksOf(log, s), fsm.ViewOf(s))
    requires present == set s | s in roster && fsm.StateOf(s) == Present
    ensures forall s :: s in present <==> PresentAfter(fsm.missThreshold, roster, log, s)
  {
    forall s
      ensures s in present <==> PresentAfter(fsm.missThreshold, roster, log, s)
    {
      StateIsHistory(fsm.missThreshold, LooksOf(log, s));
      assert fsm.StateOf(s) == fsm.ViewOf(s).track.state;
    }
  }

  lemma StartsTallied(pipeline: SessionPipeline, truth: map<string, Windows>)
    requires pipeline.Fresh()
    ensures forall s ::
      Follows(s in pipeline.roster, pipeline.fsm.missThreshold, LooksOf([], s), pipeline.fsm.ViewOf(s))
    ensures forall s :: s in truth ==>
      Tallied(pipeline.fsm.missThreshold, pipeline.roster, [], truth[s], s, Tally(0, 0, 0.0))
    ensures Credited(pipeline.fsm.missThreshold, pipeline.roster, [], {}, 0.0)
  {
  }

  /** `prevPresent` and `prevTs` describe the last frame of the log. */
  ghost predicate Credited(threshold: int, roster: set<string>, log: seq<Trace>, prevPresent: set<string>,
                           prevTs: real) {
    if log == [] then prevPresent == {}
    else prevTs == log[|log| - 1].ts && forall s :: s in prevPresent <==> PresentAfter(threshold, roster, log, s)
  }

  lemma CreditedGap(threshold: int, roster: set<string>, log: seq<Trace>, prevPresent: set<string>, prevTs: real,
                    studentId: string)
    requires Credited(threshold, roster, log, prevPresent, prevTs)
    ensures log == [] ==> studentId !in prevPresent
    ensures log != [] ==>
      prevTs == log[|log| - 1].ts && (studentId in prevPresent <==> PresentAfter(threshold, roster, log, studentId))
  {
  }

  lemma NextCredited(threshold: int, roster: set<string>, log: seq<Trace>, tr: Trace, present: set<string>)
    requires forall s :: s in present <==> PresentAfter(threshold, roster, log + [tr], s)
    ensures Credited(threshold, roster, log + [tr], present, tr.ts)
  {
  }

  function HitRate(t: Tally): real {
    if t.truthFrames == 0 then 0.0 else t.hits as real / t.truthFrames as real
  }

  /** What the evaluation reports of one student: the truth seconds, the hit rate over truth
      frames, and as measured seconds the PRESENT time the machine (whose view is `v`) would
      report if the session ended at the last frame. */
  ghost predicate Judged(threshold: int, roster: set<string>, log: seq<Trace>, windows: Windows, studentId: string,
                         v: View, hitRate: real, truthS: real, measuredS: real)
  {
    && truthS == Total(windows)
    && (if log == [] then measuredS == 0.0 else measuredS == TimeIn(CloseOpen(v, log[|log| - 1].ts).closed, Present))
    && (if TruthFrames(log, windows) == 0 then hitRate == 0.0
        else hitRate == Hits(threshold, roster, log, windows, studentId) as real / TruthFrames(log, windows) as real)
    && 0.0 <= hitRate <= 1.0
  }

  lemma TallyIsJudged(threshold: int, roster: set<string>, log: seq<Trace>, windows: Windows, studentId: string,
                      t: Tally, v: View)
    requires Tallied(threshold, roster, log, windows, studentId, t)
    requires Follows(studentId in roster, threshold, LooksOf(log, studentId), v)
    ensures Judged(threshold, roster, log, windows, studentId, v, HitRate(t), Total(windows), t.measured)
  {
    HitsAreTruthFrames(threshold, roster, log, windows, studentId);
    if t.truthFrames > 0 {
      QuotientBounds(t.hits as real, t.truthFrames as real);
    }
    if log != [] {
      if studentId in roster {
        ThreeMeasurementsAgree(threshold, roster, log, studentId, 0.0);
      } else {
        StrangersGetNoCredit(threshold, roster, log, studentId);
      }
    }
  }

  lemma {:induction false} StrangersGetNoCredit(threshold: int, roster: set<string>, log: seq<Trace>, studentId: string)
    requires studentId !in roster
    ensures FrameCredit(threshold, roster, log, studentId) == 0.0
  {
    if |log| <= 1 {
    } else {
      StrangersGetNoCredit(threshold, roster, log[..|log| - 1], studentId);
    }
  }

  datatype PresenceResult = PresenceResult(hitRate: map<string, real>, truthS: map<string, real>,
                                           measuredS: map<string, real>)

  /** A clip's presence measured against ground truth. */
  method EvalPresence(frames: seq<Frame>, pipeline: SessionPipeline, truth: map<string, Windows>)
    returns (r: PresenceResult, ghost log: seq<Trace>)
    requires pipeline.Valid() && pipeline.Fresh()
    modifies pipeline, pipeline.tracker, pipeline.attendance, pipeline.fsm
    ensures Traced(pipeline.Setup(), frames, log)
    ensures r.hitRate.Keys == r.truthS.Keys == r.measuredS.Keys == truth.Keys
    ensures forall s :: s in truth ==>
      Judged(pipeline.fsm.missThreshold, pipeline.roster, log, truth[s], s, pipeline.fsm.ViewOf(s),
                                              r.hitRate[s], r.truthS[s], r.measuredS[s])
  {
    hide At, Turn, Traced, Judged, Credited, PresenceFSM.ViewOf, PresenceFSM.StateOf, Follows, LooksOf, PresentAfter,
        Tallied, NextTally, InWindows, Total, HitRate, SessionPipeline.Valid, SessionPipeline.Fresh, StatesFor;
    log := [];
    ghost var threshold, roster := pipeline.fsm.missThreshold, pipeline.roster;
    StartsAt(pipeline);
    StartsTallied(pipeline, truth);
    var tallies := map s | s in truth :: Tally(0, 0, 0.0);
    var prevPresent: set<string> := {};
    var prevTs, i := 0.0, 0;
    while i < |frames|
      invariant 0 <= i <= |frames| && |log| == i && At(pipeline, frames[..i], log)
      invariant forall s :: Follows(s in roster, threshold, LooksOf(log, s), pipeline.fsm.ViewOf(s))
      invariant Credited(threshold, roster, log, prevPresent, prevTs)
      invariant tallies.Keys == truth.Keys
      invariant forall s :: s in truth ==> Tallied(threshold, roster, log, truth[s], s, tallies[s])
    {
      label before:
      var present, transitions;
      ghost var tr;
      present, transitions, tr := Feed(pipeline, frames[i], frames[..i], log);
      forall s
        ensures Follows(s in roster, threshold, LooksOf(log + [tr], s), pipeline.fsm.ViewOf(s))
      {
        TurnFollows(s in roster, threshold, log, tr, s, old@before(pipeline.fsm.ViewOf(s)), pipeline.fsm.ViewOf(s),
                    StatesFor(transitions, s));
      }
      PresentIsHistory(pipeline.fsm, roster, log + [tr], present);
      forall s | s in truth
        ensures Tallied(threshold, roster, log + [tr], truth[s], s,
                        NextTally(tallies[s], s in prevPresent, frames[i].ts - prevTs, s in present,
                                  InWindows(frames[i].ts, truth[s])))
      {
        CreditedGap(threshold, roster, log, prevPresent, prevTs, s);
        TallySnoc(threshold, roster, log, tr, truth[s], s, tallies[s], s in prevPresent, frames[i].ts - prevTs);
      }
      tallies := map s | s in truth ::
          NextTally(tallies[s], s in prevPresent, frames[i].ts - prevTs, s in present,
                    InWindows(frames[i].ts, truth[s]));
      NextCredited(threshold, roster, log, tr, present);
      prevPresent, prevTs := present, frames[i].ts;
      log := log + [tr];
      assert frames[..i + 1] == frames[..i] + [frames[i]];
      i := i + 1;
    }
    assert frames[..i] == frames;
    AtIsTraced(pipeline, frames, log);
    r := PresenceResult(
      map s | s in truth :: HitRate(tallies[s]),
      map s | s in truth :: Total(truth[s]),
      map s | s in truth :: tallies[s].measured);
    forall s | s in truth
      ensures Judged(threshold, roster, log, truth[s], s, pipeline.fsm.ViewOf(s), HitRate(tallies[s]),
                     Total(truth[s]), tallies[s].measured)
    {
      TallyIsJudged(threshold, roster, log, truth[s], s, tallies[s], pipeline.fsm.ViewOf(s));
    }
  }

  // ---------- What is measured ----------

  lemma TotalOfOne(from: real, to: real)
    ensures Total([(from, to)]) == to - from
  {
    assert [(from, to)][..0] == [];
  }

  /** The length of the truth is the sum of the lengths of its windows. */
  lemma {:induction false} TotalAdds(a: Windows, b: Windows)
    ensures Total(a + b) == Total(a) + Total(b)
  {
    if b == [] {
      assert a + b == a;
    } else {
      assert (a + b)[..|a + b| - 1] == a + b[..|b| - 1];
      TotalAdds(a, b[..|b| - 1]);
    }
  }

  /** Frame `k` lies in a truth window, ends included. */
  ghost predicate InTruth(log: seq<Trace>, windows: Windows, k: int) {
    0 <= k < |log| && exists i :: 0 <= i < |windows| && windows[i].0 <= log[k].ts <= windows[i].1
  }

  /** The frames of the truth, and those after which the student counted as present. */
  ghost function TruthAt(log: seq<Trace>, windows: Windows): set<int> {
    set k | 0 <= k < |log| && InTruth(log, windows, k)
  }

  /** The student counted as present after frame `k`. */
  ghost predicate PresentAt(threshold: int, roster: set<string>, log: seq<Trace>, studentId: string, k: int) {
    0 <= k < |log| && PresentAfter(threshold, roster, log[..k + 1], studentId)
  }

  ghost function HitAt(threshold: int, roster: set<string>, log: seq<Trace>, windows: Windows, studentId: string)
    : set<int>
  {
    set k | 0 <= k < |log| && InTruth(log, windows, k) && PresentAt(threshold, roster, log, studentId, k)
  }

  lemma TruthAtLast(log: seq<Trace>, windows: Windows)
    requires log != []
    ensures var n := |log| - 1;
      && n !in TruthAt(log[..n], windows)
      && TruthAt(log, windows) == TruthAt(log[..n], windows) + if InWindows(log[n].ts, windows) then {n} else {}
  {
    var n := |log| - 1;
    assert forall k :: 0 <= k < n ==> (InTruth(log, windows, k) <==> InTruth(log[..n], windows, k));
    assert InTruth(log, windows, n) <==> InWindows(log[n].ts, windows);
    hide InTruth;
  }

  lemma HitAtLast(threshold: int, roster: set<string>, log: seq<Trace>, windows: Windows, studentId: string)
    requires log != []
    ensures var n := |log| - 1;
      && n !in HitAt(threshold, roster, log[..n], windows, studentId)
      && HitAt(threshold, roster, log, windows, studentId)
         == HitAt(threshold, roster, log[..n], windows, studentId)
            + if InWindows(log[n].ts, windows) && PresentAfter(threshold, roster, log, studentId) then {n} else {}
  {
    hide PresentAfter;
    var n := |log| - 1;
    assert forall k :: 0 <= k < n ==> (InTruth(log, windows, k) <==> InTruth(log[..n], windows, k));
    assert InTruth(log, windows, n) <==> InWindows(log[n].ts, windows);
    hide InTruth;
    assert log[..n + 1] == log;
    forall k | 0 <= k < n
      ensures PresentAt(threshold, roster, log[..n], studentId, k) <==> PresentAt(threshold, roster, log, studentId, k)
    {
      assert log[..n][..k + 1] == log[..k + 1];
    }
  }

  /** The hit rate counts frames: those inside the truth, and of them those after which the student
      counted as present. */
  lemma {:induction false} FramesAreCounted(threshold: int, roster: set<string>, log: seq<Trace>, windows: Windows,
                                            studentId: string)
    ensures TruthFrames(log, windows) == |TruthAt(log, windows)|
    ensures Hits(threshold, roster, log, windows, studentId) == |HitAt(threshold, roster, log, windows, studentId)|
  {
    hide PresentAfter, InWindows;
    if log == [] {
    } else {
      FramesAreCounted(threshold, roster, log[..|log| - 1], windows, studentId);
      TruthAtLast(log, windows);
      HitAtLast(threshold, roster, log, windows, studentId);
      hide TruthAt, HitAt;
    }
  }
}
