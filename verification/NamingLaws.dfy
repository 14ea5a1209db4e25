/**
 Who gets a name under the embedding budget, exactly, when some faces are in the gallery and
 others are not; that a still scene is such a run of the real pipeline; and that ids of
 forgotten tracks never come back over a whole run.
 */
module NamingLaws {
  import opened Wrappers
  import opened Pipeline
  import opened PipelineLaws
  import opened Runs
  import Tracker
  import TrackerLaws

  // ---------- Known faces and strangers ----------

  /** The gallery knows the faces marked in `knows`, and no others. */
  ghost predicate Recognised(look: Tracker.Detection -> Match, tracks: Table, knows: seq<bool>) {
    |knows| == |tracks| && forall i :: 0 <= i < |tracks| ==> (look(tracks[i].det).studentId.Some? <==> knows[i])
  }

  /** Only known faces have names: a name comes from a match. */
  ghost predicate Honest(tracks: Table, knows: seq<bool>) {
    |knows| == |tracks| && forall i :: 0 <= i < |tracks| ==> (tracks[i].studentId.Some? ==> knows[i])
  }

  /** The faces among the first `n` that the gallery does not know. */
  ghost function Strangers(knows: seq<bool>, n: nat): nat
    requires n <= |knows|
  {
    if n == 0 then 0 else if knows[n - 1] then Strangers(knows, n - 1) else Strangers(knows, n - 1) + 1
  }

  /** The known faces among the first `n` still without a name. */
  ghost function Seekers(tracks: Table, knows: seq<bool>, n: nat): nat
    requires n <= |tracks| == |knows|
  {
    if n == 0 then 0
    else if knows[n - 1] && tracks[n - 1].studentId.None? then Seekers(tracks, knows, n - 1) + 1
    else Seekers(tracks, knows, n - 1)
  }

  /** The nameless are the seekers and the strangers. */
  lemma {:induction false} NamelessAreBoth(tracks: Table, knows: seq<bool>, n: nat)
    requires Honest(tracks, knows) && InView(tracks) && n <= |tracks|
    ensures Rank(tracks, Nameless(), n) == Seekers(tracks, knows, n) + Strangers(knows, n)
  {
    if n == 0 {
    } else {
      NamelessAreBoth(tracks, knows, n - 1);
    }
  }

  // ---------- One frame ----------

  lemma ServedOne(tracks: Table, want: Tracker.Track -> bool, budget: nat, look: Tracker.Detection -> Match, ts: real,
                  tracks': Table, knows: seq<bool>, i: nat)
    requires Served(tracks, want, budget, look, ts, tracks') && Recognised(look, tracks, knows) && Honest(tracks, knows)
    requires i < |tracks|
    ensures tracks'[i].det == tracks[i].det
    ensures tracks'[i].studentId.Some? ==> knows[i]
    ensures tracks[i].studentId.Some? ==> tracks'[i].studentId.Some?
    ensures Serves(tracks, want, budget, i) && knows[i] ==> tracks'[i].studentId.Some?
    ensures !Serves(tracks, want, budget, i) ==> tracks'[i] == tracks[i]
  {
    hide Serves;
    assert tracks'[i] == if Serves(tracks, want, budget, i) then Stamp(tracks[i], look, ts) else tracks[i];
  }

  /** A round leaves only known faces named, and names no fewer than before. */
  lemma ServedStaysHonest(tracks: Table, want: Tracker.Track -> bool, budget: nat, look: Tracker.Detection -> Match,
                          ts: real, tracks': Table, knows: seq<bool>)
    requires Served(tracks, want, budget, look, ts, tracks') && Recognised(look, tracks, knows) && Honest(tracks, knows)
    ensures Honest(tracks', knows) && Recognised(look, tracks', knows)
    ensures forall i :: 0 <= i < |tracks| ==> (tracks[i].studentId.Some? ==> tracks'[i].studentId.Some?)
  {
    assert |tracks'| == |tracks|;
    forall i: nat | i < |tracks|
      ensures tracks'[i].det == tracks[i].det && (tracks'[i].studentId.Some? ==> knows[i])
      ensures tracks[i].studentId.Some? ==> tracks'[i].studentId.Some?
    {
      ServedOne(tracks, want, budget, look, ts, tracks', knows, i);
    }
  }

  lemma {:induction false} FewerSeekers(before: Table, after: Table, knows: seq<bool>, n: nat)
    requires |before| == |after| == |knows| && n <= |before|
    requires forall i :: 0 <= i < |before| ==> (before[i].studentId.Some? ==> after[i].studentId.Some?)
    ensures Seekers(after, knows, n) <= Seekers(before, knows, n)
  {
    if n == 0 {
    } else {
      FewerSeekers(before, after, knows, n - 1);
    }
  }

  /** What the first round spends, it spends on seekers, but for the strangers it meets. */
  lemma {:induction false} RoundProgress(tracks: Table, budget: nat, look: Tracker.Detection -> Match, ts: real,
                                         tracks': Table, knows: seq<bool>, n: nat)
    requires Served(tracks, Nameless(), budget, look, ts, tracks') && Recognised(look, tracks, knows)
      && Honest(tracks, knows)
    requires InView(tracks) && n <= |tracks|
    ensures var rank := Rank(tracks, Nameless(), n);
      Seekers(tracks', knows, n) + (if rank <= budget then rank else budget)
          <= Seekers(tracks, knows, n) + Strangers(knows, n)
  {
    hide Served, Recognised;
    ServedStaysHonest(tracks, Nameless(), budget, look, ts, tracks', knows);
    if n == 0 {
    } else {
      RoundProgress(tracks, budget, look, ts, tracks', knows, n - 1);
      ServedOne(tracks, Nameless(), budget, look, ts, tracks', knows, n - 1);
    }
  }

  /** What a frame does for track `i` and for the seekers before it. */
  lemma FrameProgress(f: Frame, budget: nat, interval: real, lastPass: real, tr: Trace, knows: seq<bool>, i: nat)
    requires FrameDone(f, budget, interval, lastPass, tr) && InView(tr.updated)
    requires Recognised(f.look, tr.updated, knows) && Honest(tr.updated, knows) && i < |tr.updated|
    ensures Honest(tr.table, knows)
    ensures tr.updated[i].studentId.Some? ==> tr.table[i].studentId.Some?
    ensures knows[i] && tr.updated[i].studentId.None? && Rank(tr.updated, Nameless(), i) < budget ==>
      tr.table[i].studentId.Some?
    ensures Rank(tr.updated, Nameless(), i) >= budget ==>
      Seekers(tr.table, knows, i) + budget <= Seekers(tr.updated, knows, i) + Strangers(knows, i)
  {
    hide Served, Recognised, Embedded, Sightings, Carries, Rank, Seekers;
    ServedStaysHonest(tr.updated, Nameless(), budget, f.look, f.ts, tr.named, knows);
    ServedOne(tr.updated, Nameless(), budget, f.look, f.ts, tr.named, knows, i);
    RoundProgress(tr.updated, budget, f.look, f.ts, tr.named, knows, i);
    if tr.isPass {
      ServedStaysHonest(tr.named, Due(IdSet(tr.first), interval, f.ts), budget - |tr.first|, f.look, f.ts, tr.table,
                        knows);
      FewerSeekers(tr.named, tr.table, knows, i);
    }
  }

  /** A track with `budget` nameless ones before it is left alone, in both rounds. */
  lemma FrameSkips(f: Frame, budget: nat, interval: real, lastPass: real, tr: Trace, i: nat)
    requires FrameDone(f, budget, interval, lastPass, tr) && i < |tr.updated|
      && Rank(tr.updated, Nameless(), i) >= budget
    ensures i < |tr.table| == |tr.updated| && tr.table[i] == tr.updated[i]
    ensures |tr.first| == budget && tr.second == []
  {
    hide Embedded, Sightings, Carries, Rank;
    var n := |tr.updated|;
    RankGrows(tr.updated, Nameless(), i, n);
    EmbeddedCount(tr.updated, Nameless(), budget, n);
    assert !Serves(tr.updated, Nameless(), budget, i);
    assert tr.named[i] == tr.updated[i];
    if tr.isPass {
      hide Served;
      NothingServed(tr.named, Due(IdSet(tr.first), interval, f.ts), f.look, f.ts, tr.table);
    }
  }

  // ---------- Many frames ----------

  /** The same faces are known, and the same are not, in every frame. */
  ghost predicate SteadyRun(frames: seq<Frame>, traces: seq<Trace>, knows: seq<bool>) {
    && |frames| == |traces| > 0 && Honest(traces[0].updated, knows)
    && forall k :: 0 <= k < |frames| ==> Recognised(frames[k].look, traces[k].updated, knows)
  }

  lemma {:induction false} CarriedSeekers(before: Table, after: Table, knows: seq<bool>, n: nat)
    requires Carried(before, after) && |knows| == |before| && n <= |before|
    ensures Seekers(after, knows, n) == Seekers(before, knows, n)
  {
    if n == 0 {
    } else {
      CarriedSeekers(before, after, knows, n - 1);
    }
  }

  /** With `u` strangers before it, track `i` is named after frame `k`, or the frames so far have
      named budget - u of the seekers before it each. */
  lemma {:induction false} RunProgress(frames: seq<Frame>, traces: seq<Trace>, budget: nat, interval: real,
                                       lastPasses: seq<real>, knows: seq<bool>, k: nat, i: nat)
    requires StableRun(frames, traces, budget, interval, lastPasses) && SteadyRun(frames, traces, knows) && k < |frames|
    requires i < |traces[0].updated| && knows[i]
    ensures Honest(traces[k].updated, knows) && Honest(traces[k].table, knows)
    ensures traces[k].table[i].studentId.Some?
         || Seekers(traces[k].table, knows, i) + Work(k + 1, budget - Strangers(knows, i))
             <= Seekers(traces[0].updated, knows, i)
  {
    hide FrameDone, InView, Recognised, Work, Seekers, Carried;
    var d := budget - Strangers(knows, i);
    WorkGrows(k, d);
    StaysInView(frames, traces, budget, interval, lastPasses, k);
    if k == 0 {
      FrameProgress(frames[0], budget, interval, lastPasses[0], traces[0], knows, i);
    } else {
      RunProgress(frames, traces, budget, interval, lastPasses, knows, k - 1, i);
      CarriedOver(traces[k - 1].table, traces[k].updated, knows, i);
      FrameProgress(frames[k], budget, interval, lastPasses[k], traces[k], knows, i);
    }
  }

  lemma CarriedOver(before: Table, after: Table, knows: seq<bool>, i: nat)
    requires Carried(before, after) && Honest(before, knows) && i < |before|
    ensures |after| == |before| == |knows| && Honest(after, knows) && after[i].studentId == before[i].studentId
    ensures after[i].lastReidTs == before[i].lastReidTs && Seekers(after, knows, i) == Seekers(before, knows, i)
  {
    CarriedSeekers(before, after, knows, i);
  }

  /** With fewer than `budget` strangers before it, a known face is named once the frames at rate
      budget - u have room for it and every seeker before it. */
  lemma NamedAtTheRateLeft(frames: seq<Frame>, traces: seq<Trace>, budget: nat, interval: real, lastPasses: seq<real>,
                           knows: seq<bool>, k: nat, i: nat)
    requires StableRun(frames, traces, budget, interval, lastPasses) && SteadyRun(frames, traces, knows) && k < |frames|
    requires i < |traces[0].updated| && knows[i]
    requires Work(k + 1, budget - Strangers(knows, i)) >= Seekers(traces[0].updated, knows, i) + 1
    ensures i < |traces[k].table| && traces[k].table[i].studentId.Some?
  {
    hide FrameDone, Recognised, Work, Seekers, Carried;
    RunProgress(frames, traces, budget, interval, lastPasses, knows, k, i);
  }

  /** With `budget` strangers before it, no frame embeds it. */
  lemma {:induction false} NeverServed(frames: seq<Frame>, traces: seq<Trace>, budget: nat, interval: real,
                                       lastPasses: seq<real>, knows: seq<bool>, k: nat, i: nat)
    requires StableRun(frames, traces, budget, interval, lastPasses) && SteadyRun(frames, traces, knows) && k < |frames|
    requires i < |traces[0].updated| && knows[i] && Strangers(knows, i) >= budget
    ensures Honest(traces[k].table, knows)
    ensures traces[k].table[i].studentId == traces[0].updated[i].studentId
      && traces[k].table[i].lastReidTs == traces[0].updated[i].lastReidTs
  {
    hide FrameDone, InView, Recognised, Seekers, Carried, Rank;
    RunProgress(frames, traces, budget, interval, lastPasses, knows, k, i);
    StaysInView(frames, traces, budget, interval, lastPasses, k);
    NamelessAreBoth(traces[k].updated, knows, i);
    FrameSkips(frames[k], budget, interval, lastPasses[k], traces[k], i);
    if k == 0 {
    } else {
      NeverServed(frames, traces, budget, interval, lastPasses, knows, k - 1, i);
      CarriedOver(traces[k - 1].table, traces[k].updated, knows, i);
    }
  }

  /** A nameless known face, given as many frames as there are seekers up to it, gets its name
      exactly if fewer than `budget` strangers are before it in the list; otherwise it is never
      embedded at all. */
  lemma NamedIffRoomIsLeft(frames: seq<Frame>, traces: seq<Trace>, budget: nat, interval: real, lastPasses: seq<real>,
                           knows: seq<bool>, k: nat, i: nat)
    requires StableRun(frames, traces, budget, interval, lastPasses) && SteadyRun(frames, traces, knows) && k < |frames|
    requires i < |traces[0].updated| && knows[i] && traces[0].updated[i].studentId.None?
    requires k >= Seekers(traces[0].updated, knows, i)
    ensures i < |traces[k].table| && (traces[k].table[i].studentId.Some? <==> Strangers(knows, i) < budget)
    ensures Strangers(knows, i) >= budget ==> traces[k].table[i].lastReidTs == traces[0].updated[i].lastReidTs
  {
    hide FrameDone, Recognised, Work, Seekers, Carried;
    if Strangers(knows, i) < budget {
      WorkIsEnough(k + 1, budget - Strangers(knows, i));
      NamedAtTheRateLeft(frames, traces, budget, interval, lastPasses, knows, k, i);
    } else {
      NeverServed(frames, traces, budget, interval, lastPasses, knows, k, i);
    }
  }

  lemma WorkIsEnough(m: nat, d: nat)
    requires d >= 1
    ensures Work(m, d) >= m
  {
  }

  // ---------- Frames of a run ----------

  lemma {:induction false} TracedAt(c: Config, frames: seq<Frame>, log: seq<Trace>, k: nat)
    requires Traced(c, frames, log) && k < |log|
    ensures |frames| == |log|
    ensures FrameTraced(c, TableAfter(log[..k]), NextIdAfter(log[..k]), LastPassAfter(log[..k]), frames[k], log[k])
    decreases |log|
  {
    hide FrameTraced, TableAfter, NextIdAfter, LastPassAfter;
    var n := |log| - 1;
    if k == n {
    } else {
      TracedAt(c, frames[..n], log[..n], k);
      assert log[..n][..k] == log[..k];
    }
  }

  lemma TableAfterFrame(log: seq<Trace>, k: nat)
    requires k < |log|
    ensures TableAfter(log[..k + 1]) == log[k].table && NextIdAfter(log[..k + 1]) == log[k].nextId
  {
  }

  lemma FrameKeepsIds(f: Frame, budget: nat, interval: real, lastPass: real, tr: Trace)
    requires FrameDone(f, budget, interval, lastPass, tr)
    ensures SameIds(tr.updated, tr.table)
  {
    hide Served, Embedded, Sightings, Carries;
    ServedKeepsIds(tr.updated, Nameless(), budget, f.look, f.ts, tr.named);
    if tr.isPass {
      ServedKeepsIds(tr.named, Due(IdSet(tr.first), interval, f.ts), budget - |tr.first|, f.look, f.ts, tr.table);
    }
  }

  lemma SameIdsSameHolders(a: Table, b: Table, id: int)
    requires SameIds(a, b)
    ensures TrackerLaws.HasId(a, id) <==> TrackerLaws.HasId(b, id)
  {
    if TrackerLaws.HasId(a, id) {
      var p :| 0 <= p < |a| && a[p].trackId == id;
      assert b[p].trackId == id;
    }
    if TrackerLaws.HasId(b, id) {
      var p :| 0 <= p < |b| && b[p].trackId == id;
      assert a[p].trackId == id;
    }
  }

  /** Over a whole run: an id that was handed out and is no longer in the table never comes back. */
  lemma {:induction false} IdsNeverComeBack(c: Config, frames: seq<Frame>, log: seq<Trace>, m: nat, n: nat, id: int)
    requires Traced(c, frames, log) && m <= n <= |log|
    requires id < NextIdAfter(log[..m]) && !TrackerLaws.HasId(TableAfter(log[..m]), id)
    ensures id < NextIdAfter(log[..n]) && !TrackerLaws.HasId(TableAfter(log[..n]), id)
    decreases n
  {
    hide Traced, TableAfter, NextIdAfter, LastPassAfter, FrameDone, TrackerLaws.HasId, Tracker.Updated;
    if m == n {
    } else {
      var k := n - 1;
      var tr := log[k];
      IdsNeverComeBack(c, frames, log, m, k, id);
      TracedAt(c, frames, log, k);
      TrackerLaws.IdsAreNeverReused(TableAfter(log[..k]), NextIdAfter(log[..k]), frames[k].dets, c.iouThresh,
                                    c.maxMisses,
                                    tr.picks, tr.updated, tr.nextId, id);
      FrameKeepsIds(frames[k], c.budget, c.interval, LastPassAfter(log[..k]), tr);
      SameIdsSameHolders(tr.updated, tr.table, id);
      TableAfterFrame(log, k);
    }
  }

  // ---------- A still scene ----------

  /** From frame `m` on, every frame lists exactly the boxes of the table it meets, in some order. */
  ghost predicate StillFrom(frames: seq<Frame>, log: seq<Trace>, perms: seq<seq<nat>>, m: nat) {
    && |perms| == |frames| == |log|
    && forall k: nat :: m <= k < |frames| ==> TrackerLaws.Rearranges(TableAfter(log[..k]), frames[k].dets, perms[k])
  }

  lemma ServedKeepsBoxes(tracks: Table, want: Tracker.Track -> bool, budget: nat, look: Tracker.Detection -> Match,
                         ts: real, tracks': Table)
    requires Served(tracks, want, budget, look, ts, tracks') && TrackerLaws.Scattered(tracks)
    ensures TrackerLaws.Scattered(tracks')
  {
    hide Serves;
    assert |tracks'| == |tracks|;
    forall i: nat | i < |tracks|
      ensures tracks'[i].det == tracks[i].det
    {
      assert tracks'[i] == if Serves(tracks, want, budget, i) then Stamp(tracks[i], look, ts) else tracks[i];
    }
  }

  lemma FrameKeepsBoxes(f: Frame, budget: nat, interval: real, lastPass: real, tr: Trace)
    requires FrameDone(f, budget, interval, lastPass, tr) && TrackerLaws.Scattered(tr.updated)
    ensures TrackerLaws.Scattered(tr.table)
  {
    hide Served, Embedded, Sightings, Carries, TrackerLaws.Scattered;
    ServedKeepsBoxes(tr.updated, Nameless(), budget, f.look, f.ts, tr.named);
    if tr.isPass {
      ServedKeepsBoxes(tr.named, Due(IdSet(tr.first), interval, f.ts), budget - |tr.first|, f.look, f.ts, tr.table);
    }
  }

  /** One frame of a still scene carries every track on. */
  lemma StillFrameCarries(c: Config, frames: seq<Frame>, log: seq<Trace>, perms: seq<seq<nat>>, m: nat, k: nat)
    requires Traced(c, frames, log) && StillFrom(frames, log, perms, m) && m <= k < |log|
    requires TrackerLaws.Scattered(TableAfter(log[..k])) && 0.0 < c.iouThresh <= 1.0
    ensures Carried(TableAfter(log[..k]), log[k].updated) && InView(log[k].updated)
    ensures FrameDone(frames[k], c.budget, c.interval, LastPassAfter(log[..k]), log[k])
    ensures TableAfter(log[..k + 1]) == log[k].table && TrackerLaws.Scattered(log[k].table)
  {
    hide Traced, TableAfter, NextIdAfter, LastPassAfter, FrameDone, TrackerLaws.Scattered, TrackerLaws.Rearranges,
        Tracker.Updated;
    TracedAt(c, frames, log, k);
    var before, tr := TableAfter(log[..k]), log[k];
    TrackerLaws.StillSceneKeepsIds(before, NextIdAfter(log[..k]), frames[k].dets, perms[k], c.iouThresh, c.maxMisses,
                                   tr.picks, tr.updated, tr.nextId);
    TrackerLaws.SameSceneIsScattered(before, tr.updated);
    FrameKeepsBoxes(frames[k], c.budget, c.interval, LastPassAfter(log[..k]), tr);
    TableAfterFrame(log, k);
  }

  lemma {:induction false} StillStaysScattered(c: Config, frames: seq<Frame>, log: seq<Trace>, perms: seq<seq<nat>>,
                                               m: nat, k: nat)
    requires Traced(c, frames, log) && StillFrom(frames, log, perms, m) && m <= k < |log|
    requires TrackerLaws.Scattered(TableAfter(log[..m])) && 0.0 < c.iouThresh <= 1.0
    ensures TrackerLaws.Scattered(TableAfter(log[..k]))
    decreases k
  {
    hide Traced, TableAfter, FrameDone, TrackerLaws.Scattered, StillFrom, Carried, InView;
    if m == k {
    } else {
      StillStaysScattered(c, frames, log, perms, m, k - 1);
      StillFrameCarries(c, frames, log, perms, m, k - 1);
    }
  }

  /** A still scene is a run over the same tracks, all in view. */
  lemma StillSceneIsStable(c: Config, frames: seq<Frame>, log: seq<Trace>, perms: seq<seq<nat>>, m: nat)
    returns (lastPasses: seq<real>)
    requires Traced(c, frames, log) && StillFrom(frames, log, perms, m) && m < |log|
    requires TrackerLaws.Scattered(TableAfter(log[..m])) && 0.0 < c.iouThresh <= 1.0
    ensures StableRun(frames[m..], log[m..], c.budget, c.interval, lastPasses)
  {
    hide Traced, TableAfter, LastPassAfter, FrameDone, TrackerLaws.Scattered, Carried, InView;
    lastPasses := seq(|log| - m, k requires 0 <= k < |log| - m => LastPassAfter(log[..m + k]));
    forall k: nat | m <= k < |log|
      ensures FrameDone(frames[k], c.budget, c.interval, LastPassAfter(log[..k]), log[k]) && InView(log[k].updated)
      ensures Carried(TableAfter(log[..k]), log[k].updated) && TableAfter(log[..k + 1]) == log[k].table
    {
      StillStaysScattered(c, frames, log, perms, m, k);
      StillFrameCarries(c, frames, log, perms, m, k);
    }
    forall k, k' | 0 <= k < |log| - m && k' == k + 1 < |log| - m
      ensures Carried(log[m..][k].table, log[m..][k'].updated)
    {
      assert log[m..][k] == log[m + k] && log[m..][k'] == log[m + k + 1];
    }
  }

  lemma {:induction false} NoStrangers(knows: seq<bool>, n: nat)
    requires n <= |knows| && forall i :: 0 <= i < |knows| ==> knows[i]
    ensures Strangers(knows, n) == 0
  {
    if n == 0 {
    } else {
      NoStrangers(knows, n - 1);
    }
  }

  lemma {:induction false} SeekersAreFew(tracks: Table, knows: seq<bool>, i: nat, n: nat)
    requires i < n <= |tracks| == |knows| && knows[i] && tracks[i].studentId.None?
    ensures Seekers(tracks, knows, i) + 1 <= Seekers(tracks, knows, n)
  {
    if n == i + 1 {
    } else {
      SeekersAreFew(tracks, knows, i, n - 1);
    }
  }

  /** In a still scene of faces the gallery knows, everybody is named within ceil(n / budget)
      frames of a real run, n being the number without a name when it begins. */
  lemma StillSceneIsNamedInTime(c: Config, frames: seq<Frame>, log: seq<Trace>, perms: seq<seq<nat>>, m: nat, k: nat,
                                i: nat)
    requires Traced(c, frames, log) && StillFrom(frames, log, perms, m) && m + k < |log| && c.budget >= 1
    requires TrackerLaws.Scattered(TableAfter(log[..m])) && 0.0 < c.iouThresh <= 1.0
    requires forall j, p :: m <= j < |log| && 0 <= p < |log[j].updated| ==>
      frames[j].look(log[j].updated[p].det).studentId.Some?
    requires k + 1 >= (Unnamed(log[m].updated) + c.budget - 1) / c.budget
    requires i < |log[m].updated|
    ensures |log[m + k].table| == |log[m].updated| && log[m + k].table[i].studentId.Some?
  {
    hide Traced, TableAfter, FrameDone, TrackerLaws.Scattered, StillFrom, Unnamed, Work;
    TracedLength(c, frames, log);
    var lastPasses := StillSceneIsStable(c, frames, log, perms, m);
    var knows := seq(|log[m].updated|, p => true);
    StableLengths(frames[m..], log[m..], c.budget, c.interval, lastPasses, k);
    StillSceneIsSteady(frames, log, knows, c, lastPasses, m);
    NoStrangers(knows, i);
    if log[m].updated[i].studentId.None? {
      EverybodySeeks(log[m].updated, knows, i);
      CeilingCovers(Unnamed(log[m].updated), c.budget, k + 1);
      NamedAtTheRateLeft(frames[m..], log[m..], c.budget, c.interval, lastPasses, knows, k, i);
    } else {
      NamesStay(frames[m..], log[m..], c.budget, c.interval, lastPasses, knows, k, i);
    }
  }

  lemma {:induction false} StableLengths(frames: seq<Frame>, traces: seq<Trace>, budget: nat, interval: real,
                                         lastPasses: seq<real>, k: nat)
    requires StableRun(frames, traces, budget, interval, lastPasses) && k < |frames|
    ensures |traces[k].updated| == |traces[k].table| == |traces[0].updated|
  {
    hide FrameDone, InView;
    FrameLength(frames[k], budget, interval, lastPasses[k], traces[k]);
    if k == 0 {
    } else {
      StableLengths(frames, traces, budget, interval, lastPasses, k - 1);
      assert Carried(traces[k - 1].table, traces[k].updated);
    }
  }

  lemma FrameLength(f: Frame, budget: nat, interval: real, lastPass: real, tr: Trace)
    requires FrameDone(f, budget, interval, lastPass, tr)
    ensures |tr.table| == |tr.updated|
  {
    hide FrameDone;
    FrameKeepsIds(f, budget, interval, lastPass, tr);
  }

  lemma StillSceneIsSteady(frames: seq<Frame>, log: seq<Trace>, knows: seq<bool>, c: Config, lastPasses: seq<real>,
                           m: nat)
    requires m < |log| == |frames| && StableRun(frames[m..], log[m..], c.budget, c.interval, lastPasses)
    requires |knows| == |log[m].updated| && forall p :: 0 <= p < |knows| ==> knows[p]
    requires forall j, p :: m <= j < |log| && 0 <= p < |log[j].updated| ==>
      frames[j].look(log[j].updated[p].det).studentId.Some?
    ensures SteadyRun(frames[m..], log[m..], knows)
  {
    hide FrameDone, InView, Carried;
    forall k: nat | k < |log| - m
      ensures Recognised(frames[m..][k].look, log[m..][k].updated, knows)
    {
      StableLengths(frames[m..], log[m..], c.budget, c.interval, lastPasses, k);
      assert log[m..][k] == log[m + k] && frames[m..][k] == frames[m + k];
    }
  }

  /** Where every face is known, the seekers up to a nameless one are among the nameless. */
  lemma EverybodySeeks(tracks: Table, knows: seq<bool>, i: nat)
    requires InView(tracks) && |knows| == |tracks| && (forall p :: 0 <= p < |knows| ==> knows[p])
    requires i < |tracks| && tracks[i].studentId.None?
    ensures Seekers(tracks, knows, i) + 1 <= Unnamed(tracks)
  {
    NamelessAreBoth(tracks, knows, |tracks|);
    NoStrangers(knows, |tracks|);
    SeekersAreFew(tracks, knows, i, |tracks|);
  }

  /** Known faces keep their names. */
  lemma {:induction false} NamesStay(frames: seq<Frame>, traces: seq<Trace>, budget: nat, interval: real,
                                     lastPasses: seq<real>, knows: seq<bool>, k: nat, i: nat)
    requires StableRun(frames, traces, budget, interval, lastPasses) && SteadyRun(frames, traces, knows) && k < |frames|
    requires i < |traces[0].updated| && knows[i] && traces[0].updated[i].studentId.Some?
    ensures i < |traces[k].table| && traces[k].table[i].studentId.Some?
  {
    hide FrameDone, InView, Recognised, Seekers, Carried, Work, Rank;
    RunProgress(frames, traces, budget, interval, lastPasses, knows, k, i);
    StaysInView(frames, traces, budget, interval, lastPasses, k);
    if k == 0 {
    } else {
      RunProgress(frames, traces, budget, interval, lastPasses, knows, k - 1, i);
      NamesStay(frames, traces, budget, interval, lastPasses, knows, k - 1, i);
      CarriedOver(traces[k - 1].table, traces[k].updated, knows, i);
    }
    FrameProgress(frames[k], budget, interval, lastPasses[k], traces[k], knows, i);
  }
}
