/**
 `HeadOrientationMonitor` of backend/proctor/suppression.py: a sustained off-screen pose
 raises one review candidate per track, and only a stable neutral pose arms it again.

 The state kept per track is explained by the samples seen since the track was retained:
 when the current away or neutral run began, and whether an away run has been reported that
 no neutral run has cleared since.
 */
module HeadPose {
  import opened Wrappers

  datatype Pose = Pose(yawDeg: real, pitchDeg: real)

  datatype Observation = Observation(pose: Pose, isAway: bool, sustained: bool)

  datatype Kind = Away | Neutral | Between | Missing

  datatype Sample = Sample(kind: Kind, ts: real)

  datatype PoseState = PoseState(awaySince: Option<real>, neutralSince: Option<real>, latched: bool)

  const UNSEEN := PoseState(None, None, false)

  // ---------- Histories of one track ----------

  /** When the unbroken run of `kind` that the history ends in began. */
  ghost function Since(samples: seq<Sample>, kind: Kind): Option<real> {
    if samples == [] || samples[|samples| - 1].kind != kind then None
    else match Since(samples[..|samples| - 1], kind)
      case Some(t) => Some(t)
      case None => Some(samples[|samples| - 1].ts)
  }

  /** The history ends in a run of `kind` that has lasted `length`. */
  ghost predicate Lasting(samples: seq<Sample>, kind: Kind, length: real) {
    && Since(samples, kind).Some?
    && samples[|samples| - 1].ts - Since(samples, kind).value >= length
  }

  /** Sample `i` completes an away run of `sustain`. */
  ghost predicate SustainedAt(samples: seq<Sample>, sustain: real, i: int) {
    0 <= i < |samples| && Lasting(samples[..i + 1], Away, sustain)
  }

  /** Sample `i` completes a neutral run of `recovery`. */
  ghost predicate RecoveredAt(samples: seq<Sample>, recovery: real, i: int) {
    0 <= i < |samples| && Lasting(samples[..i + 1], Neutral, recovery)
  }

  /** Some away run was sustained and no neutral run has cleared it since. */
  ghost predicate Latched(samples: seq<Sample>, sustain: real, recovery: real) {
    exists t :: SustainedAt(samples, sustain, t) && forall r :: t < r ==> !RecoveredAt(samples, recovery, r)
  }

  /** Sample `i` raises a review candidate: it completes an away run while nothing is latched. */
  ghost predicate TriggersAt(samples: seq<Sample>, sustain: real, recovery: real, i: int) {
    SustainedAt(samples, sustain, i) && !Latched(samples[..i], sustain, recovery)
  }

  lemma AtPrefix(samples: seq<Sample>, more: seq<Sample>, sustain: real, recovery: real)
    ensures forall i :: i < |samples| ==>
      (SustainedAt(samples + more, sustain, i) <==> SustainedAt(samples, sustain, i))
    ensures forall i :: i < |samples| ==>
      (RecoveredAt(samples + more, recovery, i) <==> RecoveredAt(samples, recovery, i))
  {
    forall i | 0 <= i < |samples|
      ensures SustainedAt(samples + more, sustain, i) <==> SustainedAt(samples, sustain, i)
      ensures RecoveredAt(samples + more, recovery, i) <==> RecoveredAt(samples, recovery, i)
    {
      assert (samples + more)[..i + 1] == samples[..i + 1];
    }
  }

  /** One more sample completes a run at most at its own place. */
  lemma AtSnoc(samples: seq<Sample>, last: Sample, sustain: real, recovery: real)
    ensures var all, n := samples + [last], |samples|;
      && (forall i ::
            SustainedAt(all, sustain, i) <==>
            SustainedAt(samples, sustain, i) || (i == n && Lasting(all, Away, sustain)))
      && (forall i ::
            RecoveredAt(all, recovery, i) <==>
            RecoveredAt(samples, recovery, i) || (i == n && Lasting(all, Neutral, recovery)))
    ensures forall i :: SustainedAt(samples, sustain, i) || RecoveredAt(samples, recovery, i) ==> i < |samples|
  {
    hide Lasting;
    AtPrefix(samples, [last], sustain, recovery);
    assert (samples + [last])[..|samples| + 1] == samples + [last];
  }

  lemma LatchedSnoc(samples: seq<Sample>, last: Sample, sustain: real, recovery: real)
    ensures var all := samples + [last];
      Latched(all, sustain, recovery)
      <==> Lasting(all, Away, sustain) || (Latched(samples, sustain, recovery) && !Lasting(all, Neutral, recovery))
  {
    hide Lasting, SustainedAt, RecoveredAt;
    var all, n := samples + [last], |samples|;
    AtSnoc(samples, last, sustain, recovery);
    if t :| SustainedAt(all, sustain, t) && forall r :: t < r ==> !RecoveredAt(all, recovery, r) {
      if t < n {
        assert SustainedAt(samples, sustain, t);
        assert !RecoveredAt(all, recovery, n);
      }
    }
    if Latched(samples, sustain, recovery) && !Lasting(all, Neutral, recovery) {
      var t :| SustainedAt(samples, sustain, t) && forall r :: t < r ==> !RecoveredAt(samples, recovery, r);
      assert SustainedAt(all, sustain, t);
    }
    if Lasting(all, Away, sustain) {
      assert SustainedAt(all, sustain, n);
    }
  }

  lemma SinceSnoc(samples: seq<Sample>, last: Sample, kind: Kind)
    ensures Since(samples + [last], kind)
         == if last.kind != kind then None
            else if Since(samples, kind).Some? then Since(samples, kind)
            else Some(last.ts)
  {
    assert (samples + [last])[..|samples|] == samples;
  }

  ghost function StateFrom(samples: seq<Sample>, sustain: real, recovery: real): PoseState {
    PoseState(Since(samples, Away), Since(samples, Neutral), Latched(samples, sustain, recovery))
  }

  // ---------- Runs and triggers ----------

  /** The samples from `a` to `i` are all of the kind, and the one before `a` is not. */
  ghost predicate RunsFrom(samples: seq<Sample>, kind: Kind, a: int, i: int) {
    && 0 <= a <= i < |samples| && (forall j :: a <= j <= i ==> samples[j].kind == kind)
    && (a > 0 ==> samples[a - 1].kind != kind)
  }

  lemma {:induction false} SinceIsTheStart(samples: seq<Sample>, kind: Kind)
    ensures Since(samples, kind).Some? <==> samples != [] && samples[|samples| - 1].kind == kind
    ensures Since(samples, kind).Some? ==>
      exists a :: RunsFrom(samples, kind, a, |samples| - 1) && Since(samples, kind).value == samples[a].ts
  {
    if samples == [] {
    } else {
      var n := |samples| - 1;
      SinceIsTheStart(samples[..n], kind);
      if samples[n].kind == kind {
        if Since(samples[..n], kind).Some? {
          var a :| RunsFrom(samples[..n], kind, a, n - 1) && Since(samples[..n], kind).value == samples[..n][a].ts;
          assert RunsFrom(samples, kind, a, n);
        } else {
          assert RunsFrom(samples, kind, n, n);
        }
      }
    }
  }

  /** A run lasts for `length` exactly if the samples reach back unbroken that far: from its first
      sample to its last. */
  lemma LastingIff(samples: seq<Sample>, kind: Kind, length: real, i: nat)
    requires i < |samples|
    ensures Lasting(samples[..i + 1], kind, length) <==>
      exists a :: RunsFrom(samples, kind, a, i) && samples[i].ts - samples[a].ts >= length
  {
    var upto := samples[..i + 1];
    SinceIsTheStart(upto, kind);
    hide Since;
    assert forall a :: RunsFrom(upto, kind, a, i) <==> RunsFrom(samples, kind, a, i);
    forall a, b | RunsFrom(samples, kind, a, i) && RunsFrom(samples, kind, b, i)
      ensures a == b
    {
    }
    if a :| RunsFrom(samples, kind, a, i) {
      assert samples[i].kind == kind;
    }
  }

  /** A sample triggers exactly if the away run it is in has lasted `sustain`, and between any
      earlier sample of which that was true and this one a neutral run lasted `recovery`. */
  lemma TriggersIff(samples: seq<Sample>, sustain: real, recovery: real, i: nat)
    requires i < |samples|
    ensures TriggersAt(samples, sustain, recovery, i) <==>
      && (exists a :: RunsFrom(samples, Away, a, i) && samples[i].ts - samples[a].ts >= sustain)
      && forall t :: 0 <= t < i && SustainedAt(samples, sustain, t) ==>
           exists r :: t < r < i && RecoveredAt(samples, recovery, r)
  {
    LastingIff(samples, Away, sustain, i);
    hide Lasting;
    var before := samples[..i];
    assert samples == before + samples[i..];
    AtPrefix(before, samples[i..], sustain, recovery);
    assert forall t :: SustainedAt(before, sustain, t) ==> t < i;
    assert forall r :: RecoveredAt(before, recovery, r) ==> r < i;
    hide SustainedAt, RecoveredAt;
  }

  // ---------- Spacing of triggers ----------

  ghost predicate Ordered(samples: seq<Sample>) {
    forall i, j :: 0 <= i <= j < |samples| ==> samples[i].ts <= samples[j].ts
  }

  /** All samples from `a` to `b` are of one kind. */
  ghost predicate Unbroken(samples: seq<Sample>, kind: Kind, a: int, b: int) {
    0 <= a <= b < |samples| && forall i :: a <= i <= b ==> samples[i].kind == kind
  }

  lemma {:induction false} SinceIsUnbroken(samples: seq<Sample>, kind: Kind, n: nat) returns (a: nat)
    requires n < |samples| && Since(samples[..n + 1], kind).Some?
    ensures a <= n && Unbroken(samples, kind, a, n) && samples[a].ts == Since(samples[..n + 1], kind).value
  {
    assert samples[..n + 1][..n] == samples[..n];
    if Since(samples[..n], kind).None? {
      a := n;
    } else {
      a := SinceIsUnbroken(samples, kind, n - 1);
    }
  }

  /** A trigger ends an unbroken away run of at least `sustain`. */
  lemma TriggerEndsAwayRun(samples: seq<Sample>, sustain: real, recovery: real, i: nat) returns (a: nat)
    requires TriggersAt(samples, sustain, recovery, i)
    ensures a <= i && Unbroken(samples, Away, a, i) && samples[i].ts - samples[a].ts >= sustain
  {
    a := SinceIsUnbroken(samples, Away, i);
  }

  /** Between two triggers of a track there lie an unbroken neutral run of at least `recovery`
      and then the unbroken away run of the second, so they are `sustain + recovery` apart. */
  lemma TriggersAreSpaced(samples: seq<Sample>, sustain: real, recovery: real, i: nat, j: nat)
    returns (n1: nat, n2: nat, a: nat)
    requires TriggersAt(samples, sustain, recovery, i) && TriggersAt(samples, sustain, recovery, j) && i < j
    ensures i < n1 <= n2 < a <= j
    ensures Unbroken(samples, Neutral, n1, n2) && samples[n2].ts - samples[n1].ts >= recovery
    ensures Unbroken(samples, Away, a, j) && samples[j].ts - samples[a].ts >= sustain
    ensures Ordered(samples) ==> samples[j].ts - samples[i].ts >= sustain + recovery
  {
    var before := samples[..j];
    assert before + samples[j..] == samples;
    AtPrefix(before, samples[j..], sustain, recovery);
    assert SustainedAt(before, sustain, i);
    assert exists r :: i < r && RecoveredAt(before, recovery, r);
    n2 :| i < n2 && RecoveredAt(before, recovery, n2);
    assert RecoveredAt(samples, recovery, n2);
    n1 := SinceIsUnbroken(samples, Neutral, n2);
    a := SinceIsUnbroken(samples, Away, j);
    LastKind(samples, Away, i);
    LastKind(samples, Neutral, n2);
    assert samples[i].kind == Away && samples[n2].kind == Neutral;
  }

  lemma LastKind(samples: seq<Sample>, kind: Kind, i: nat)
    requires i < |samples| && Since(samples[..i + 1], kind).Some?
    ensures samples[i].kind == kind
  {
  }

  // ---------- The object ----------

  function Abs(x: real): real {
    if x >= 0.0 then x else -x
  }

  class HeadOrientationMonitor {
    const sustainS: real
    const recoveryS: real
    const yawAway: real
    const pitchDown: Option<real>
    const pitchUp: real
    const neutralYaw: real
    const neutralPitch: real
    var states: map<int, PoseState>
    /** The samples of every track since it was last unknown. */
    ghost var history: map<int, seq<Sample>>

    ghost function HistoryOf(trackId: int): seq<Sample>
      reads this
    {
      if trackId in history then history[trackId] else []
    }

    function StateOf(trackId: int): PoseState
      reads this
    {
      if trackId in states then states[trackId] else UNSEEN
    }

    ghost predicate Valid()
      reads this
    {
      forall id :: StateOf(id) == StateFrom(HistoryOf(id), sustainS, recoveryS)
    }

    constructor (sustainS: real, recoveryS: real, yawAway: real, pitchDown: Option<real>, pitchUp: real,
                 neutralYaw: real, neutralPitch: real)
      ensures Valid() && states == map[] && history == map[]
      ensures this.sustainS == sustainS && this.recoveryS == recoveryS
      ensures this.yawAway == yawAway && this.pitchDown == pitchDown && this.pitchUp == pitchUp
      ensures this.neutralYaw == neutralYaw && this.neutralPitch == neutralPitch
    {
      this.sustainS, this.recoveryS, this.yawAway, this.pitchDown := sustainS, recoveryS, yawAway, pitchDown;
      this.pitchUp, this.neutralYaw, this.neutralPitch := pitchUp, neutralYaw, neutralPitch;
      states, history := map[], map[];
    }

    /** Away beats neutral when the thresholds overlap; downward pitch counts only if monitored. */
    function Classify(pose: Pose): Kind {
      var downIsAway := pitchDown.Some? && pose.pitchDeg <= pitchDown.value;
      var neutralP := pose.pitchDeg <= neutralPitch && (pitchDown.Some? ==> pose.pitchDeg >= -neutralPitch);
      if Abs(pose.yawDeg) >= yawAway || downIsAway || pose.pitchDeg >= pitchUp then Away
      else if Abs(pose.yawDeg) <= neutralYaw && neutralP then Neutral
      else Between
    }

    /** A pose is away if it is turned far enough to either side, raised far enough, or, where that
        is monitored, lowered far enough; of the others it is neutral if it is turned little and
        raised, and where lowering is monitored lowered, little. */
    lemma WhatPosesAre(pose: Pose)
      ensures Classify(pose) == Away <==>
        || pose.yawDeg >= yawAway || pose.yawDeg <= -yawAway || pose.pitchDeg >= pitchUp
        || (pitchDown.Some? && pose.pitchDeg <= pitchDown.value)
      ensures Classify(pose) == Neutral <==>
        && Classify(pose) != Away
        && -neutralYaw <= pose.yawDeg <= neutralYaw && pose.pitchDeg <= neutralPitch
        && (pitchDown.Some? ==> pose.pitchDeg >= -neutralPitch)
      ensures Classify(pose) != Missing
    {
    }

    method Observe(trackId: int, pose: Pose, ts: real) returns (classified: Observation, triggered: bool)
      requires Valid()
      modifies this
      ensures Valid()
      ensures history == old(history)[trackId := old(HistoryOf(trackId)) + [Sample(Classify(pose), ts)]]
      ensures triggered <==> TriggersAt(HistoryOf(trackId), sustainS, recoveryS, |HistoryOf(trackId)| - 1)
      ensures classified
        == Observation(pose, Classify(pose) == Away,
                       Classify(pose) == Away && Latched(HistoryOf(trackId), sustainS, recoveryS))
    {
      hide Latched, Since, Lasting, TriggersAt;
      ghost var before := HistoryOf(trackId);
      assert StateOf(trackId) == StateFrom(before, sustainS, recoveryS);
      var state := StateOf(trackId);
      var kind := Classify(pose);
      triggered := false;
      match kind {
        case Away =>
          state := state.(neutralSince := None,
              awaySince := if state.awaySince.None? then Some(ts) else state.awaySince);
          if !state.latched && ts - state.awaySince.value >= sustainS {
            state := state.(latched := true);
            triggered := true;
          }
        case Neutral =>
          state := state.(awaySince := None,
              neutralSince := if state.neutralSince.None? then Some(ts) else state.neutralSince);
          if state.latched && ts - state.neutralSince.value >= recoveryS {
            state := state.(latched := false);
          }
        case Between =>
          state := state.(awaySince := None, neutralSince := None);
      }
      OneMoreSample(before, Sample(kind, ts), sustainS, recoveryS);
      assert state == StateFrom(before + [Sample(kind, ts)], sustainS, recoveryS);
      history := history[trackId := before + [Sample(kind, ts)]];
      states := states[trackId := state];
      assert forall id :: id != trackId ==> StateOf(id) == old(StateOf(id)) && HistoryOf(id) == old(HistoryOf(id));
      classified := Observation(pose, kind == Away, kind == Away && state.latched);
    }

    /** No landmarks this frame: running durations break, a latch stays. */
    method NoteMissing(trackId: int, ghost ts: real)
      requires Valid()
      modifies this
      ensures Valid()
      ensures history == old(history)[trackId := old(HistoryOf(trackId)) + [Sample(Missing, ts)]]
    {
      hide Latched, Since, Lasting, TriggersAt;
      ghost var before := HistoryOf(trackId);
      assert StateOf(trackId) == StateFrom(before, sustainS, recoveryS);
      OneMoreSample(before, Sample(Missing, ts), sustainS, recoveryS);
      history := history[trackId := before + [Sample(Missing, ts)]];
      if trackId in states {
        states := states[trackId := states[trackId].(awaySince := None, neutralSince := None)];
      }
      assert StateOf(trackId) == StateFrom(before + [Sample(Missing, ts)], sustainS, recoveryS);
      assert forall id :: id != trackId ==> StateOf(id) == old(StateOf(id)) && HistoryOf(id) == old(HistoryOf(id));
    }

    method Retain(trackIds: set<int>)
      requires Valid()
      modifies this
      ensures Valid()
      ensures history == map id | id in old(history) && id in trackIds :: old(history)[id]
    {
      NothingYet(sustainS, recoveryS);
      hide StateFrom;
      history := map id | id in history && id in trackIds :: history[id];
      states := map id | id in states && id in trackIds :: states[id];
      assert forall id :: StateOf(id) == if id in trackIds then old(StateOf(id)) else UNSEEN;
      assert forall id :: HistoryOf(id) == if id in trackIds then old(HistoryOf(id)) else [];
    }
  }

  lemma NothingYet(sustain: real, recovery: real)
    ensures StateFrom([], sustain, recovery) == UNSEEN
  {
  }

  /** How one more sample moves the state, and when it triggers. */
  lemma OneMoreSample(samples: seq<Sample>, last: Sample, sustain: real, recovery: real)
    ensures var all := samples + [last];
      && Since(all, Away)
          == (if last.kind != Away then None
              else if Since(samples, Away).Some? then Since(samples, Away)
              else Some(last.ts))
      && Since(all, Neutral)
          == (if last.kind != Neutral then None
              else if Since(samples, Neutral).Some? then Since(samples, Neutral)
              else Some(last.ts))
      && (Latched(all, sustain, recovery)
          <==> || (last.kind == Away && last.ts - Since(all, Away).value >= sustain)
               || (Latched(samples, sustain, recovery)
                   && !(last.kind == Neutral && last.ts - Since(all, Neutral).value >= recovery)))
      && (TriggersAt(all, sustain, recovery, |all| - 1)
          <==> last.kind == Away && last.ts - Since(all, Away).value >= sustain && !Latched(samples, sustain, recovery))
  {
    hide Latched;
    var all := samples + [last];
    SinceSnoc(samples, last, Away);
    SinceSnoc(samples, last, Neutral);
    LatchedSnoc(samples, last, sustain, recovery);
    assert all[..|all|] == all && all[..|samples|] == samples;
  }
}
