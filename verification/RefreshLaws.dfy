/**
 Who is embedded again once everybody has a name. A pass serves the tracks whose identity is
 old in list order, on one budget, and starts the next interval whether or not it got through
 the list; so which tracks it leaves out, and whether a later pass gets to them, is a matter
 of the list alone.
 */
module RefreshLaws {
  import opened Wrappers
  import opened Attendance
  import opened Pipeline
  import opened PipelineLaws
  import opened Runs
  import opened NamingLaws
  import Tracker
  import TrackerLaws

  // ---------- One frame ----------

  /** The track is in view, has a name, and was last embedded no later than the last pass. */
  ghost predicate Refreshed(t: Tracker.Track, lastPass: real) {
    t.misses == 0 && t.studentId.Some? && t.lastReidTs.Some? && t.lastReidTs.value <= lastPass
  }

  ghost predicate Settled(tracks: Table, lastPass: real) {
    forall i :: 0 <= i < |tracks| ==> Refreshed(tracks[i], lastPass)
  }

  /** The ids of the first `n` tracks. */
  ghost function FirstIds(tracks: Table, n: nat): seq<int> {
    if |tracks| <= n then seq(|tracks|, i requires 0 <= i < |tracks| => tracks[i].trackId)
    else seq(n, i requires 0 <= i < n => tracks[i].trackId)
  }

  lemma {:induction false} NobodyWants(tracks: Table, want: Tracker.Track -> bool, budget: nat, n: nat)
    requires n <= |tracks| && forall i :: 0 <= i < |tracks| ==> !want(tracks[i])
    ensures Rank(tracks, want, n) == 0 && Embedded(tracks, want, budget, n) == []
  {
    if n == 0 {
    } else {
      NobodyWants(tracks, want, budget, n - 1);
    }
  }

  lemma {:induction false} EverybodyWants(tracks: Table, want: Tracker.Track -> bool, budget: nat, n: nat)
    requires n <= |tracks| && forall i :: 0 <= i < |tracks| ==> want(tracks[i])
    ensures Rank(tracks, want, n) == n && Embedded(tracks, want, budget, n) == FirstIds(tracks[..n], budget)
  {
    if n == 0 {
    } else {
      EverybodyWants(tracks, want, budget, n - 1);
    }
  }

  /** Nobody is nameless, so the first round has nothing to do. */
  lemma NothingToName(f: Frame, budget: nat, tr: Trace, lastPass: real)
    requires FirstRound(f, budget, tr) && Settled(tr.updated, lastPass)
    ensures tr.first == [] && tr.named == tr.updated
  {
    hide Embedded, Sightings, Rank;
    NobodyWants(tr.updated, Nameless(), budget, |tr.updated|);
  }

  /** On a pass all are due, so the second round embeds the first `budget` of them. */
  lemma EverybodyIsDue(f: Frame, budget: nat, interval: real, tr: Trace, lastPass: real)
    requires SecondRound(f, budget, interval, tr) && tr.first == [] && f.ts - lastPass >= interval
    requires Settled(tr.named, lastPass)
    ensures |tr.table| == |tr.named| && tr.second == FirstIds(tr.named, budget)
    ensures forall i :: 0 <= i < |tr.named| ==>
      tr.table[i] == if i < budget then Stamp(tr.named[i], f.look, f.ts) else tr.named[i]
  {
    hide Embedded, Sightings, Rank, Stamp, Carries, FirstIds;
    var want, n := Due(IdSet(tr.first), interval, f.ts), |tr.named|;
    assert forall i :: 0 <= i < n ==> want(tr.named[i]);
    EverybodyWants(tr.named, want, budget, n);
    assert tr.named[..n] == tr.named;
    forall i | 0 <= i < n
      ensures tr.table[i] == if i < budget then Stamp(tr.named[i], f.look, f.ts) else tr.named[i]
    {
      EverybodyWants(tr.named, want, budget, i);
      assert Serves(tr.named, want, budget, i) <==> i < budget;
    }
  }

  /** With everybody settled, a frame that is a pass embeds exactly the first `budget` tracks of
      the list, and any other frame embeds nobody. */
  lemma SettledFrame(f: Frame, budget: nat, interval: real, lastPass: real, tr: Trace)
    requires FrameDone(f, budget, interval, lastPass, tr) && Settled(tr.updated, lastPass)
    ensures tr.first == [] && tr.second == (if tr.isPass then FirstIds(tr.updated, budget) else [])
    ensures |tr.table| == |tr.updated|
    ensures forall i :: 0 <= i < |tr.updated| ==>
      tr.table[i] == if tr.isPass && i < budget then Stamp(tr.updated[i], f.look, f.ts) else tr.updated[i]
  {
    hide FirstRound, SecondRound, Stamp, Settled, FirstIds;
    NothingToName(f, budget, tr, lastPass);
    if tr.isPass {
      EverybodyIsDue(f, budget, interval, tr, lastPass);
    }
  }

  ghost predicate Known(look: Tracker.Detection -> Match, tracks: Table) {
    forall i :: 0 <= i < |tracks| ==> look(tracks[i].det).studentId.Some?
  }

  lemma FrameStaysSettled(f: Frame, budget: nat, interval: real, lastPass: real, tr: Trace)
    requires FrameDone(f, budget, interval, lastPass, tr) && Settled(tr.updated, lastPass)
    requires Known(f.look, tr.updated) && interval >= 0.0
    ensures Settled(tr.table, if tr.isPass then f.ts else lastPass)
  {
    SettledFrame(f, budget, interval, lastPass, tr);
    hide FirstRound, SecondRound, FirstIds;
  }

  lemma CarriedSettled(before: Table, after: Table, lastPass: real)
    requires Carried(before, after) && Settled(before, lastPass)
    ensures Settled(after, lastPass)
  {
  }

  // ---------- Sightings ----------

  /** How many of the first `n` faces the gallery takes for the student. */
  ghost function TakenFor(tracks: Table, look: Tracker.Detection -> Match, studentId: string, n: nat): nat
    requires n <= |tracks|
  {
    if n == 0 then 0
    else
      var front := TakenFor(tracks, look, studentId, n - 1);
      if look(tracks[n - 1].det).studentId == Some(studentId) then front + 1 else front
  }

  ghost function AtMost(a: nat, b: nat): nat {
    if a <= b then a else b
  }

  lemma {:induction false} MatchedIsTaken(tracks: Table, want: Tracker.Track -> bool, budget: nat,
                                          look: Tracker.Detection -> Match, studentId: string, n: nat)
    requires n <= |tracks| && forall i :: 0 <= i < |tracks| ==> want(tracks[i])
    ensures Matched(tracks, want, budget, look, studentId, n) == TakenFor(tracks, look, studentId, AtMost(n, budget))
  {
    hide Rank;
    if n == 0 {
    } else {
      MatchedIsTaken(tracks, want, budget, look, studentId, n - 1);
      EverybodyWants(tracks, want, budget, n - 1);
    }
  }

  lemma {:induction false} NobodyMatched(tracks: Table, want: Tracker.Track -> bool, budget: nat,
                                         look: Tracker.Detection -> Match, studentId: string, n: nat)
    requires n <= |tracks| && forall i :: 0 <= i < |tracks| ==> !want(tracks[i])
    ensures Matched(tracks, want, budget, look, studentId, n) == 0
  {
    if n == 0 {
    } else {
      NobodyMatched(tracks, want, budget, look, studentId, n - 1);
    }
  }

  /** With everybody settled, a pass adds to a student's sightings the faces among the first
      `budget` that the gallery takes for them, and any other frame adds nothing. */
  lemma SettledSightings(f: Frame, budget: nat, interval: real, lastPass: real, tr: Trace, studentId: string)
    requires FrameDone(f, budget, interval, lastPass, tr) && Settled(tr.updated, lastPass)
    ensures FrameMatches(f, budget, interval, tr, studentId)
         == if tr.isPass then TakenFor(tr.updated, f.look, studentId, AtMost(|tr.updated|, budget)) else 0
  {
    hide FirstRound, SecondRound, Matched, TakenFor;
    NothingToName(f, budget, tr, lastPass);
    NobodyMatched(tr.updated, Nameless(), budget, f.look, studentId, |tr.updated|);
    if tr.isPass {
      var want := Due(IdSet(tr.first), interval, f.ts);
      assert forall i :: 0 <= i < |tr.named| ==> want(tr.named[i]);
      MatchedIsTaken(tr.named, want, budget, f.look, studentId, |tr.named|);
    }
  }

  // ---------- A still scene of a real run ----------

  ghost predicate TimesOrdered(frames: seq<Frame>) {
    forall i, j :: 0 <= i <= j < |frames| ==> frames[i].ts <= frames[j].ts
  }

  /** Names come with an embedding, and no embedding is later than `ts`. */
  ghost predicate Stamped(tracks: Table, ts: real) {
    forall t :: t in tracks ==>
      (t.studentId.Some? ==> t.lastReidTs.Some?) && (t.lastReidTs.Some? ==> t.lastReidTs.value <= ts)
  }

  lemma UpdatedStaysStamped(tracks: Table, nextId: int, dets: seq<Tracker.Detection>, thresh: real, maxMisses: int,
                            picks: seq<Option<nat>>, tracks': Table, nextId': int, ts: real)
    requires Tracker.Updated(tracks, nextId, dets, thresh, maxMisses, picks, tracks', nextId') && Stamped(tracks, ts)
    ensures Stamped(tracks', ts)
  {
    hide Tracker.Greedy, Tracker.Survivors, Tracker.Newcomers;
    forall t | t in tracks'
      ensures (t.studentId.Some? ==> t.lastReidTs.Some?) && (t.lastReidTs.Some? ==> t.lastReidTs.value <= ts)
    {
      TrackerLaws.SurvivorsHave(tracks, dets, picks, maxMisses, t);
      TrackerLaws.NewcomersHave(dets, picks, nextId, t);
      if t in Tracker.Survivors(tracks, dets, picks, maxMisses) {
        var p: nat :| p < |tracks| && t in Tracker.Fate(tracks[p], Tracker.PickedBy(picks, p), dets, maxMisses);
        assert tracks[p] in tracks && t.studentId == tracks[p].studentId && t.lastReidTs == tracks[p].lastReidTs;
      }
    }
  }

  lemma ServedStaysStamped(tracks: Table, want: Tracker.Track -> bool, budget: nat, look: Tracker.Detection -> Match,
                           ts: real, tracks': Table)
    requires Served(tracks, want, budget, look, ts, tracks') && Stamped(tracks, ts)
    ensures Stamped(tracks', ts)
  {
    hide Serves;
    forall t | t in tracks'
      ensures (t.studentId.Some? ==> t.lastReidTs.Some?) && (t.lastReidTs.Some? ==> t.lastReidTs.value <= ts)
    {
      var i: nat :| i < |tracks'| && tracks'[i] == t;
      assert tracks[i] in tracks;
      assert t == if Serves(tracks, want, budget, i) then Stamp(tracks[i], look, ts) else tracks[i];
    }
  }

  lemma FrameStaysStamped(f: Frame, budget: nat, interval: real, lastPass: real, tr: Trace)
    requires FrameDone(f, budget, interval, lastPass, tr) && Stamped(tr.updated, f.ts)
    ensures Stamped(tr.table, f.ts)
  {
    hide Served, Embedded, Sightings, Carries, Stamped;
    ServedStaysStamped(tr.updated, Nameless(), budget, f.look, f.ts, tr.named);
    if tr.isPass {
      ServedStaysStamped(tr.named, Due(IdSet(tr.first), interval, f.ts), budget - |tr.first|, f.look, f.ts, tr.table);
    }
  }

  lemma LaterStamped(tracks: Table, ts: real, ts': real)
    requires Stamped(tracks, ts) && ts <= ts'
    ensures Stamped(tracks, ts')
  {
  }

  lemma NothingStamped(ts: real)
    ensures Stamped(TableAfter([]), ts)
  {
  }

  lemma {:induction false} StampsArePast(c: Config, frames: seq<Frame>, log: seq<Trace>, k: nat)
    requires Traced(c, frames, log) && TimesOrdered(frames) && k < |log| == |frames|
    ensures Stamped(log[k].table, frames[k].ts)
    decreases k
  {
    hide Traced, TableAfter, NextIdAfter, LastPassAfter, FrameDone, Tracker.Updated, Stamped;
    TracedAt(c, frames, log, k);
    if k == 0 {
      assert log[..k] == [];
      NothingStamped(frames[k].ts);
    } else {
      StampsArePast(c, frames, log, k - 1);
      TableAfterFrame(log, k - 1);
      LaterStamped(log[k - 1].table, frames[k - 1].ts, frames[k].ts);
    }
    UpdatedStaysStamped(TableAfter(log[..k]), NextIdAfter(log[..k]), frames[k].dets, c.iouThresh, c.maxMisses,
                        log[k].picks, log[k].updated, log[k].nextId, frames[k].ts);
    FrameStaysStamped(frames[k], c.budget, c.interval, LastPassAfter(log[..k]), log[k]);
  }

  lemma FrameTimes(f: Frame, budget: nat, interval: real, lastPass: real, tr: Trace)
    requires FrameDone(f, budget, interval, lastPass, tr)
    ensures tr.ts == f.ts
  {
  }

  lemma LastPassNext(log: seq<Trace>, k: nat)
    requires k < |log|
    ensures LastPassAfter(log[..k + 1]) == if log[k].isPass then log[k].ts else LastPassAfter(log[..k])
  {
    assert log[..k + 1][..k] == log[..k];
  }

  /** Frame `m` of a still scene is a pass, and leaves everybody with a name; the gallery knows
      every face from then on. */
  ghost predicate AllNamedAt(c: Config, frames: seq<Frame>, log: seq<Trace>, perms: seq<seq<nat>>, m: nat) {
    && Traced(c, frames, log) && TimesOrdered(frames) && m < |log| == |frames| && StillFrom(frames, log, perms, m)
    && TrackerLaws.Scattered(TableAfter(log[..m])) && 0.0 < c.iouThresh <= 1.0 && c.interval >= 0.0
    && log[m].isPass && (forall i :: 0 <= i < |log[m].table| ==> log[m].table[i].studentId.Some?)
    && forall k :: m < k < |log| ==> Known(frames[k].look, log[k].updated)
  }

  lemma PassSettles(c: Config, frames: seq<Frame>, log: seq<Trace>, perms: seq<seq<nat>>, m: nat)
    requires AllNamedAt(c, frames, log, perms, m)
    ensures Settled(log[m].table, frames[m].ts)
  {
    hide Traced, TableAfter, FrameDone, TrackerLaws.Scattered, StillFrom, Known, Carried;
    StillFrameCarries(c, frames, log, perms, m, m);
    FrameStaysInView(frames[m], c.budget, c.interval, LastPassAfter(log[..m]), log[m]);
    StampsArePast(c, frames, log, m);
    forall i | 0 <= i < |log[m].table|
      ensures Refreshed(log[m].table[i], frames[m].ts)
    {
      assert log[m].table[i] in log[m].table;
    }
  }

  /** What is settled after the pass stays so. */
  lemma {:induction false} SettledFromThen(c: Config, frames: seq<Frame>, log: seq<Trace>, perms: seq<seq<nat>>,
                                           m: nat, k: nat)
    requires AllNamedAt(c, frames, log, perms, m) && m < k < |log|
    ensures FrameDone(frames[k], c.budget, c.interval, LastPassAfter(log[..k]), log[k])
    ensures Carried(log[k - 1].table, log[k].updated) && Settled(log[k].updated, LastPassAfter(log[..k]))
    decreases k
  {
    hide Traced, TableAfter, LastPassAfter, FrameDone, TrackerLaws.Scattered, StillFrom, Known, Carried, Settled,
        InView;
    StillStaysScattered(c, frames, log, perms, m, k);
    StillFrameCarries(c, frames, log, perms, m, k);
    TableAfterFrame(log, k - 1);
    LastPassNext(log, k - 1);
    if k == m + 1 {
      PassSettles(c, frames, log, perms, m);
      StillFrameCarries(c, frames, log, perms, m, m);
      assert log[m].ts == frames[m].ts by {
        FrameTimes(frames[m], c.budget, c.interval, LastPassAfter(log[..m]), log[m]);
      }
    } else {
      SettledFromThen(c, frames, log, perms, m, k - 1);
      FrameStaysSettled(frames[k - 1], c.budget, c.interval, LastPassAfter(log[..k - 1]), log[k - 1]);
      FrameTimes(frames[k - 1], c.budget, c.interval, LastPassAfter(log[..k - 1]), log[k - 1]);
    }
    CarriedSettled(log[k - 1].table, log[k].updated, LastPassAfter(log[..k]));
  }

  /** The track is the one it was, and has not been embedded since. */
  ghost predicate Untouched(before: Tracker.Track, after: Tracker.Track) {
    && after.trackId == before.trackId && after.studentId == before.studentId
    && after.lastReidTs == before.lastReidTs
  }

  /** The ids are the same, and so is every track after the first `budget`. */
  ghost predicate RestUntouched(before: Table, after: Table, budget: nat) {
    && SameIds(before, after)
    && forall i :: budget <= i < |before| ==> Untouched(before[i], after[i])
  }

  lemma CarriedUntouched(start: Table, before: Table, after: Table, budget: nat)
    requires Carried(before, after) && RestUntouched(start, before, budget)
    ensures RestUntouched(start, after, budget)
  {
  }

  lemma SettledUntouched(f: Frame, budget: nat, interval: real, lastPass: real, tr: Trace, start: Table)
    requires FrameDone(f, budget, interval, lastPass, tr) && Settled(tr.updated, lastPass)
    requires RestUntouched(start, tr.updated, budget)
    ensures RestUntouched(start, tr.table, budget)
    ensures tr.first == [] && tr.second == (if tr.isPass then FirstIds(start, budget) else [])
    ensures forall i :: 0 <= i < |tr.table| && tr.isPass && i < budget ==> tr.table[i].lastReidTs == Some(f.ts)
  {
    SettledFrame(f, budget, interval, lastPass, tr);
    hide FrameDone, Settled;
    assert FirstIds(start, budget) == FirstIds(tr.updated, budget);
  }

  /** A pass leaves tracks it has no budget for to the next frame, as the source has it, but the
      next pass starts at the head of the list again. Once a pass of a still scene has left
      everybody with a name, every later pass embeds exactly the first `budget` tracks of the
      list and no frame ever embeds any other. */
  lemma {:induction false} OnlyTheFirstAreRefreshed(c: Config, frames: seq<Frame>, log: seq<Trace>,
                                                    perms: seq<seq<nat>>, m: nat, k: nat)
    requires AllNamedAt(c, frames, log, perms, m) && m < k < |log| == |frames|
    ensures log[k].first == [] && log[k].second == (if log[k].isPass then FirstIds(log[m].table, c.budget) else [])
    ensures RestUntouched(log[m].table, log[k].table, c.budget)
    ensures forall i :: 0 <= i < |log[k].table| && log[k].isPass && i < c.budget ==>
      log[k].table[i].lastReidTs == Some(frames[k].ts)
    decreases k
  {
    hide AllNamedAt, LastPassAfter, FrameDone, Carried, Settled, FirstIds, RestUntouched;
    SettledFromThen(c, frames, log, perms, m, k);
    if k == m + 1 {
      NothingTouched(log[m].table, c.budget);
    } else {
      OnlyTheFirstAreRefreshed(c, frames, log, perms, m, k - 1);
    }
    CarriedUntouched(log[m].table, log[k - 1].table, log[k].updated, c.budget);
    SettledUntouched(frames[k], c.budget, c.interval, LastPassAfter(log[..k]), log[k], log[m].table);
  }

  lemma NothingTouched(tracks: Table, budget: nat)
    ensures RestUntouched(tracks, tracks, budget)
  {
  }

  /** A pass after that gets to everybody exactly if the budget covers the whole list. */
  lemma EverybodyIsRefreshedIff(c: Config, frames: seq<Frame>, log: seq<Trace>, perms: seq<seq<nat>>, m: nat, k: nat)
    requires m < k < |log| == |frames| && AllNamedAt(c, frames, log, perms, m) && log[k].isPass && c.interval > 0.0
    ensures (forall i :: 0 <= i < |log[k].table| ==> log[k].table[i].lastReidTs == Some(frames[k].ts)) <==>
      |log[k].table| <= c.budget
  {
    hide AllNamedAt, LastPassAfter, Carried;
    SettledFromThen(c, frames, log, perms, m, k);
    SettledFrame(frames[k], c.budget, c.interval, LastPassAfter(log[..k]), log[k]);
    hide FirstRound, SecondRound, FirstIds;
    if |log[k].table| > c.budget {
      assert Refreshed(log[k].updated[c.budget], LastPassAfter(log[..k]));
      assert log[k].table[c.budget].lastReidTs != Some(frames[k].ts);
    }
  }

  /** The first `budget` tracks embedded. */
  function FirstStamped(tracks: Table, f: Frame, budget: nat): Table {
    seq(|tracks|, i requires 0 <= i < |tracks| => if i < budget then Stamp(tracks[i], f.look, f.ts) else tracks[i])
  }

  /** What a frame makes of a settled table. */
  ghost function TraceOf(tracks: Table, f: Frame, budget: nat, interval: real, lastPass: real): Trace {
    if f.ts - lastPass < interval then Trace(f.ts, [], 0, tracks, tracks, tracks, [], [], [], [], false, {})
    else
      var want, table := Due(IdSet([]), interval, f.ts), FirstStamped(tracks, f, budget);
      Trace(f.ts, [], 0, tracks, tracks, table, [], Embedded(tracks, want, budget, |tracks|), [],
            Sightings(tracks, want, budget, f.look, f.ts, |tracks|), true, Identities(table))
  }

  ghost function Identities(tracks: Table): set<string> {
    set i | 0 <= i < |tracks| && Carries([tracks[i]], IdOf(tracks[i])) :: IdOf(tracks[i])
  }

  function IdOf(t: Tracker.Track): string {
    if t.studentId.Some? then t.studentId.value else ""
  }

  lemma IdentitiesAreCarried(tracks: Table, studentId: string)
    ensures studentId in Identities(tracks) <==> Carries(tracks, studentId)
  {
    if Carries(tracks, studentId) {
      var i :| 0 <= i < |tracks| && tracks[i].misses == 0 && tracks[i].studentId == Some(studentId);
      assert [tracks[i]][0].studentId == Some(studentId);
      assert Carries([tracks[i]], IdOf(tracks[i]));
    }
  }

  lemma {:induction false} NothingSighted(tracks: Table, want: Tracker.Track -> bool, budget: nat,
                                          look: Tracker.Detection -> Match, ts: real, n: nat)
    requires n <= |tracks| && forall i :: 0 <= i < |tracks| ==> !want(tracks[i])
    ensures Sightings(tracks, want, budget, look, ts, n) == []
  {
    if n == 0 {
    } else {
      NothingSighted(tracks, want, budget, look, ts, n - 1);
    }
  }

  lemma NobodyIsNamed(tracks: Table, f: Frame, budget: nat, lastPass: real)
    requires Settled(tracks, lastPass)
    ensures Served(tracks, Nameless(), budget, f.look, f.ts, tracks)
    ensures Embedded(tracks, Nameless(), budget, |tracks|) == []
    ensures Sightings(tracks, Nameless(), budget, f.look, f.ts, |tracks|) == []
  {
    hide Embedded, Sightings, Rank, Stamp;
    NobodyWants(tracks, Nameless(), budget, |tracks|);
    NothingSighted(tracks, Nameless(), budget, f.look, f.ts, |tracks|);
  }

  lemma FirstAreServed(tracks: Table, f: Frame, budget: nat, interval: real, lastPass: real)
    requires Settled(tracks, lastPass) && f.ts - lastPass >= interval
    ensures Served(tracks, Due(IdSet([]), interval, f.ts), budget, f.look, f.ts, FirstStamped(tracks, f, budget))
  {
    hide Embedded, Sightings, Rank, Stamp;
    var want := Due(IdSet([]), interval, f.ts);
    assert forall i :: 0 <= i < |tracks| ==> want(tracks[i]);
    forall i: nat | i < |tracks|
      ensures Serves(tracks, want, budget, i) <==> i < budget
    {
      EverybodyWants(tracks, want, budget, i);
    }
  }

  lemma TraceIsDone(tracks: Table, f: Frame, budget: nat, interval: real, lastPass: real)
    requires Settled(tracks, lastPass)
    ensures FrameDone(f, budget, interval, lastPass, TraceOf(tracks, f, budget, interval, lastPass))
  {
    hide Embedded, Sightings, Served, Carries, Identities, Settled, FirstStamped, Due, Nameless, IdSet;
    NobodyIsNamed(tracks, f, budget, lastPass);
    if f.ts - lastPass >= interval {
      FirstAreServed(tracks, f, budget, interval, lastPass);
      forall s
        ensures s in Identities(FirstStamped(tracks, f, budget)) <==> Carries(FirstStamped(tracks, f, budget), s)
      {
        IdentitiesAreCarried(FirstStamped(tracks, f, budget), s);
      }
    }
  }

  /** Two faces and a budget of one: the pass at 10 refreshes the first, the frame at 11 does not
      continue, and the pass at 15 refreshes the first again. */
  lemma TheSecondIsLeftOut(a: Tracker.Detection, b: Tracker.Detection) returns (traces: seq<Trace>)
    ensures var look := (d: Tracker.Detection) => Match(Some("s"), 1.0);
      && |traces| == 3
      && Settled(traces[0].updated, 0.0) && |traces[0].updated| == 2
      && FrameDone(Frame([a, b], look, 10.0), 1, 5.0, 0.0, traces[0]) && traces[0].isPass
      && FrameDone(Frame([a, b], look, 11.0), 1, 5.0, 10.0, traces[1]) && !traces[1].isPass
      && FrameDone(Frame([a, b], look, 15.0), 1, 5.0, 10.0, traces[2]) && traces[2].isPass
      && Carried(traces[0].table, traces[1].updated) && Carried(traces[1].table, traces[2].updated)
      && |traces[2].table| == 2 && traces[2].table[0].lastReidTs == Some(15.0)
      && traces[2].table[1].lastReidTs == traces[0].updated[1].lastReidTs == Some(0.0)
  {
    var look := (d: Tracker.Detection) => Match(Some("s"), 1.0);
    var start := [Tracker.Track(1, a, 1, 0, Some("s"), 1.0, Some(0.0)),
                  Tracker.Track(2, b, 1, 0, Some("s"), 1.0, Some(0.0))];
    var ten, eleven, fifteen := Frame([a, b], look, 10.0), Frame([a, b], look, 11.0), Frame([a, b], look, 15.0);
    var first := TraceOf(start, ten, 1, 5.0, 0.0);
    TraceIsDone(start, ten, 1, 5.0, 0.0);
    FrameStaysSettled(ten, 1, 5.0, 0.0, first);
    var second := TraceOf(first.table, eleven, 1, 5.0, 10.0);
    TraceIsDone(first.table, eleven, 1, 5.0, 10.0);
    var third := TraceOf(second.table, fifteen, 1, 5.0, 10.0);
    TraceIsDone(second.table, fifteen, 1, 5.0, 10.0);
    traces := [first, second, third];
  }

  /** What a frame adds to a student's sightings, once everybody is settled. */
  ghost function Added(f: Frame, budget: nat, tr: Trace, studentId: string): nat {
    if tr.isPass then TakenFor(tr.updated, f.look, studentId, AtMost(|tr.updated|, budget)) else 0
  }

  /** A student's sightings in the first `n` frames. */
  ghost function SightingsBy(log: seq<Trace>, n: nat, studentId: string): nat
    requires n <= |log|
  {
    Count(SightingsOf(log[..n]), studentId)
  }

  lemma NextSightings(c: Config, frames: seq<Frame>, log: seq<Trace>, perms: seq<seq<nat>>, m: nat, k: nat,
                      studentId: string)
    requires m < k < |log| == |frames| && AllNamedAt(c, frames, log, perms, m)
    ensures SightingsBy(log, k + 1, studentId)
         == SightingsBy(log, k, studentId) + Added(frames[k], c.budget, log[k], studentId)
  {
    hide AllNamedAt, LastPassAfter, FrameDone, Carried, Settled, Count, TakenFor, FrameMatches;
    SettledFromThen(c, frames, log, perms, m, k);
    assert log[..k + 1] == log[..k] + [log[k]];
    SightingsOfSnoc(log[..k], log[k]);
    FrameSightings(frames[k], c.budget, c.interval, LastPassAfter(log[..k]), log[k], SightingsOf(log[..k]), studentId);
    SettledSightings(frames[k], c.budget, c.interval, LastPassAfter(log[..k]), log[k], studentId);
  }

  /** So from that pass on a student's sightings stand still exactly as long as no pass takes one
      of the first `budget` faces for the student. */
  lemma {:induction false} SightingsStandStillIff(c: Config, frames: seq<Frame>, log: seq<Trace>,
                                                  perms: seq<seq<nat>>, m: nat, n: nat, studentId: string)
    requires m < n <= |log| == |frames| && AllNamedAt(c, frames, log, perms, m)
    ensures SightingsBy(log, n, studentId) >= SightingsBy(log, m + 1, studentId)
    ensures SightingsBy(log, n, studentId) == SightingsBy(log, m + 1, studentId) <==>
      forall k :: m < k < n ==> Added(frames[k], c.budget, log[k], studentId) == 0
    decreases n
  {
    hide AllNamedAt, SightingsBy, Added;
    if n == m + 1 {
    } else {
      SightingsStandStillIff(c, frames, log, perms, m, n - 1, studentId);
      NextSightings(c, frames, log, perms, m, n - 1, studentId);
    }
  }
}
