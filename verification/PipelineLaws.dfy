/**
 The embedding budget of `process_frame`: what one frame may spend, how fast it names
 everybody when every embedding matches, and who is never served when some do not.
 */
module PipelineLaws {
  import opened Wrappers
  import opened Attendance
  import opened Pipeline
  import Tracker

  // ---------- One frame ----------

  ghost predicate SameIds(a: Table, b: Table) {
    |a| == |b| && forall i :: 0 <= i < |a| ==> a[i].trackId == b[i].trackId
  }

  lemma ServedKeepsIds(tracks: Table, want: Tracker.Track -> bool, budget: nat, look: Tracker.Detection -> Match,
                       ts: real, tracks': Table)
    requires Served(tracks, want, budget, look, ts, tracks')
    ensures SameIds(tracks, tracks')
  {
    hide Serves;
    forall i: nat | i < |tracks|
      ensures tracks[i].trackId == tracks'[i].trackId
    {
      assert tracks'[i] == if Serves(tracks, want, budget, i) then Stamp(tracks[i], look, ts) else tracks[i];
    }
  }

  /** A frame embeds at most `budget` faces, and no track twice. */
  lemma FrameBudget(f: Frame, budget: nat, interval: real, lastPass: real, tr: Trace, nextId: int)
    requires FrameDone(f, budget, interval, lastPass, tr) && Tracker.WellFormedTable(tr.updated, nextId)
    ensures |tr.first + tr.second| <= budget
    ensures Distinct(tr.first + tr.second)
  {
    hide Served, Embedded, Sightings, Carries;
    EmbeddedOnce(tr.updated, Nameless(), budget, |tr.updated|, nextId);
    if tr.isPass {
      var want, left := Due(IdSet(tr.first), interval, f.ts), budget - |tr.first|;
      ServedKeepsIds(tr.updated, Nameless(), budget, f.look, f.ts, tr.named);
      EmbeddedOnce(tr.named, want, left, |tr.named|, nextId);
      EmbeddedCount(tr.named, want, left, |tr.named|);
      forall id | id in tr.second
        ensures id !in tr.first
      {
        SecondIsNotFirst(tr.named, tr.first, left, interval, f.ts, id);
      }
    }
    DistinctConcat(tr.first, tr.second);
  }

  lemma DistinctConcat(a: seq<int>, b: seq<int>)
    requires Distinct(a) && Distinct(b) && forall id :: id in b ==> id !in a
    ensures Distinct(a + b)
  {
    forall i, j | 0 <= i < j < |a + b|
      ensures (a + b)[i] != (a + b)[j]
    {
      if i < |a| <= j {
        assert b[j - |a|] in b && a[i] in a;
      }
    }
  }

  lemma SecondIsNotFirst(named: Table, first: seq<int>, left: nat, interval: real, ts: real, id: int)
    requires id in Embedded(named, Due(IdSet(first), interval, ts), left, |named|)
    ensures id !in first
  {
    var want := Due(IdSet(first), interval, ts);
    EmbeddedAre(named, want, left, |named|, id);
    var i: nat :| i < |named| && Serves(named, want, left, i) && named[i].trackId == id;
    assert id !in IdSet(first);
  }

  /** Embeddings of the first `n` tracks that matched the student. */
  ghost function Matched(tracks: Table, want: Tracker.Track -> bool, budget: nat, look: Tracker.Detection -> Match,
                         studentId: string, n: nat): nat
    requires n <= |tracks|
  {
    if n == 0 then 0
    else Matched(tracks, want, budget, look, studentId, n - 1)
         + if Serves(tracks, want, budget, n - 1) && look(tracks[n - 1].det).studentId == Some(studentId) then 1 else 0
  }

  lemma {:induction false} SightingsCountMatches(tracks: Table, want: Tracker.Track -> bool, budget: nat,
                                                 look: Tracker.Detection -> Match,
                                                 ts: real, studentId: string, n: nat)
    requires n <= |tracks|
    ensures Count(Sightings(tracks, want, budget, look, ts, n), studentId)
      == Matched(tracks, want, budget, look, studentId, n)
  {
    hide Serves;
    if n == 0 {
    } else {
      SightingsCountMatches(tracks, want, budget, look, ts, studentId, n - 1);
      var m := look(tracks[n - 1].det);
      if m.studentId.Some? {
        CountSnoc(Sightings(tracks, want, budget, look, ts, n - 1), Sighting(m.studentId.value, m.score, ts));
      }
    }
  }

  lemma {:induction false} CountConcat(a: seq<Sighting>, b: seq<Sighting>, studentId: string)
    ensures Count(a + b, studentId) == Count(a, studentId) + Count(b, studentId)
  {
    if b == [] {
      assert a + b == a;
    } else {
      assert (a + b)[..|a + b| - 1] == a + b[..|b| - 1];
      CountConcat(a, b[..|b| - 1], studentId);
    }
  }

  lemma NobodyCounted(studentId: string)
    ensures Count([], studentId) == 0
  {
  }

  /** How many embeddings of a frame matched a student. */
  ghost function FrameMatches(f: Frame, budget: nat, interval: real, tr: Trace, studentId: string): nat
    requires |tr.first| <= budget
  {
    Matched(tr.updated, Nameless(), budget, f.look, studentId, |tr.updated|)
    + if tr.isPass
        then Matched(tr.named, Due(IdSet(tr.first), interval, f.ts), budget - |tr.first|, f.look, studentId, |tr.named|)
      else 0
  }

  /** A frame adds to a student's sightings the number of its embeddings that matched them. */
  lemma FrameSightings(f: Frame, budget: nat, interval: real, lastPass: real, tr: Trace, log: seq<Sighting>,
                       studentId: string)
    requires FrameDone(f, budget, interval, lastPass, tr)
    ensures Count(log + tr.firstSightings + tr.secondSightings, studentId)
         == Count(log, studentId) + FrameMatches(f, budget, interval, tr, studentId)
  {
    hide Count, Sightings, Matched, Served, Embedded, Carries, Nameless, Due, IdSet;
    CountConcat(log + tr.firstSightings, tr.secondSightings, studentId);
    CountConcat(log, tr.firstSightings, studentId);
    NobodyCounted(studentId);
    SightingsCountMatches(tr.updated, Nameless(), budget, f.look, f.ts, studentId, |tr.updated|);
    if tr.isPass {
      SightingsCountMatches(tr.named, Due(IdSet(tr.first), interval, f.ts), budget - |tr.first|, f.look, f.ts,
                            studentId, |tr.named|);
    }
  }

  // ---------- Many frames over the same tracks ----------

  /** The tracker hands the same tracks on to the next frame, all of them in view. */
  ghost predicate Carried(before: Table, after: Table) {
    && |after| == |before|
    && forall i :: 0 <= i < |before| ==>
         && after[i].trackId == before[i].trackId && after[i].misses == 0
         && after[i].studentId == before[i].studentId && after[i].lastReidTs == before[i].lastReidTs
  }

  ghost predicate InView(tracks: Table) {
    forall i :: 0 <= i < |tracks| ==> tracks[i].misses == 0
  }

  ghost predicate StableRun(frames: seq<Frame>, traces: seq<Trace>, budget: nat, interval: real,
                            lastPasses: seq<real>) {
    && |frames| == |traces| == |lastPasses| && |traces| > 0 && InView(traces[0].updated)
    && (forall k :: 0 <= k < |frames| ==> FrameDone(frames[k], budget, interval, lastPasses[k], traces[k]))
    && (forall k, k' :: 0 <= k < |frames| && k' == k + 1 < |frames| ==> Carried(traces[k].table, traces[k'].updated))
  }

  ghost function Unnamed(tracks: Table): nat {
    Rank(tracks, Nameless(), |tracks|)
  }

  ghost predicate AlwaysMatches(look: Tracker.Detection -> Match) {
    forall d :: look(d).studentId.Some?
  }

  /** What `m` frames do at rate `d`. */
  function Work(m: nat, d: int): (w: int)
    ensures d >= 0 ==> w >= 0
  {
    m * d
  }

  lemma WorkGrows(m: nat, d: int)
    ensures Work(0, d) == 0 && Work(m + 1, d) == Work(m, d) + d
  {
  }

  function Monus(a: nat, b: nat): nat {
    if a <= b then 0 else a - b
  }

  lemma {:induction false} ServedNames(tracks: Table, budget: nat, look: Tracker.Detection -> Match, ts: real,
                                       tracks': Table, n: nat)
    requires Served(tracks, Nameless(), budget, look, ts, tracks') && AlwaysMatches(look) && n <= |tracks|
    ensures Rank(tracks', Nameless(), n) == Monus(Rank(tracks, Nameless(), n), budget)
  {
    if n == 0 {
    } else {
      ServedNames(tracks, budget, look, ts, tracks', n - 1);
      assert tracks'[n - 1]
          == if Serves(tracks, Nameless(), budget, n - 1) then Stamp(tracks[n - 1], look, ts) else tracks[n - 1];
    }
  }

  /** A round that leaves a nameless track alone or names it, with nothing left to spend
      unless all are named, does not change how many are nameless. */
  lemma {:induction false} SecondRoundKeepsNames(tracks: Table, want: Tracker.Track -> bool, left: nat,
                                                 look: Tracker.Detection -> Match, ts: real, tracks': Table, n: nat)
    requires Served(tracks, want, left, look, ts, tracks') && AlwaysMatches(look) && n <= |tracks|
    requires left == 0 || Rank(tracks, Nameless(), n) == 0
    ensures Rank(tracks', Nameless(), n) == Rank(tracks, Nameless(), n)
  {
    if n == 0 {
    } else {
      SecondRoundKeepsNames(tracks, want, left, look, ts, tracks', n - 1);
      assert tracks'[n - 1]
          == if Serves(tracks, want, left, n - 1) then Stamp(tracks[n - 1], look, ts) else tracks[n - 1];
    }
  }

  lemma FrameNames(f: Frame, budget: nat, interval: real, lastPass: real, tr: Trace)
    requires FrameDone(f, budget, interval, lastPass, tr) && AlwaysMatches(f.look)
    ensures |tr.table| == |tr.updated| && Unnamed(tr.table) == Monus(Unnamed(tr.updated), budget)
  {
    hide Embedded, Sightings, Serves, Carries;
    var n := |tr.updated|;
    ServedNames(tr.updated, budget, f.look, f.ts, tr.named, n);
    if tr.isPass {
      EmbeddedCount(tr.updated, Nameless(), budget, n);
      SecondRoundKeepsNames(tr.named, Due(IdSet(tr.first), interval, f.ts), budget - |tr.first|, f.look, f.ts,
                            tr.table, n);
    }
  }

  lemma {:induction false} CarriedKeepsNames(before: Table, after: Table, n: nat)
    requires Carried(before, after) && InView(before) && n <= |before|
    ensures Rank(after, Nameless(), n) == Rank(before, Nameless(), n)
  {
    if n == 0 {
    } else {
      CarriedKeepsNames(before, after, n - 1);
    }
  }

  lemma ServedStaysInView(tracks: Table, want: Tracker.Track -> bool, budget: nat, look: Tracker.Detection -> Match,
                          ts: real, tracks': Table)
    requires Served(tracks, want, budget, look, ts, tracks') && InView(tracks)
    ensures InView(tracks')
  {
    hide Serves;
    forall i: nat | i < |tracks'|
      ensures tracks'[i].misses == 0
    {
      assert tracks'[i] == if Serves(tracks, want, budget, i) then Stamp(tracks[i], look, ts) else tracks[i];
    }
  }

  lemma FrameStaysInView(f: Frame, budget: nat, interval: real, lastPass: real, tr: Trace)
    requires FrameDone(f, budget, interval, lastPass, tr) && InView(tr.updated)
    ensures InView(tr.table)
  {
    hide Served, InView;
    ServedStaysInView(tr.updated, Nameless(), budget, f.look, f.ts, tr.named);
    if tr.isPass {
      ServedStaysInView(tr.named, Due(IdSet(tr.first), interval, f.ts), budget - |tr.first|, f.look, f.ts, tr.table);
    }
  }

  lemma {:induction false} StaysInView(frames: seq<Frame>, traces: seq<Trace>, budget: nat, interval: real,
                                       lastPasses: seq<real>, k: nat)
    requires StableRun(frames, traces, budget, interval, lastPasses) && k < |frames|
    ensures InView(traces[k].updated) && InView(traces[k].table)
  {
    hide FrameDone;
    if k == 0 {
    } else {
      StaysInView(frames, traces, budget, interval, lastPasses, k - 1);
      assert Carried(traces[k - 1].table, traces[k].updated);
    }
    FrameStaysInView(frames[k], budget, interval, lastPasses[k], traces[k]);
  }

  /** While the tracks stay the same and every embedding matches, each frame names exactly
      `budget` more of them until nobody is nameless. */
  lemma {:induction false} NamedAtBudgetRate(frames: seq<Frame>, traces: seq<Trace>, budget: nat, interval: real,
                                             lastPasses: seq<real>, k: nat)
    requires StableRun(frames, traces, budget, interval, lastPasses) && k < |frames|
    requires forall i :: 0 <= i < |frames| ==> AlwaysMatches(frames[i].look)
    ensures Unnamed(traces[k].table) == Monus(Unnamed(traces[0].updated), Work(k + 1, budget))
  {
    hide FrameDone, AlwaysMatches, InView, Unnamed, Work;
    WorkGrows(k, budget);
    FrameNames(frames[k], budget, interval, lastPasses[k], traces[k]);
    if k == 0 {
    } else {
      NamedAtBudgetRate(frames, traces, budget, interval, lastPasses, k - 1);
      StaysInView(frames, traces, budget, interval, lastPasses, k - 1);
      assert Carried(traces[k - 1].table, traces[k].updated);
      CarriedUnnamed(traces[k - 1].table, traces[k].updated);
    }
  }

  lemma CarriedUnnamed(before: Table, after: Table)
    requires Carried(before, after) && InView(before)
    ensures Unnamed(after) == Unnamed(before)
  {
    CarriedKeepsNames(before, after, |before|);
  }

  /** Everybody is named within ceil(n / budget) frames. */
  lemma NamedInTime(frames: seq<Frame>, traces: seq<Trace>, budget: nat, interval: real, lastPasses: seq<real>,
                    k: nat, i: nat)
    requires StableRun(frames, traces, budget, interval, lastPasses) && k < |frames| && budget >= 1
    requires forall j :: 0 <= j < |frames| ==> AlwaysMatches(frames[j].look)
    requires k + 1 >= (Unnamed(traces[0].updated) + budget - 1) / budget
    requires i < |traces[k].table|
    ensures traces[k].table[i].studentId.Some?
  {
    hide FrameDone, AlwaysMatches, Work;
    var n := Unnamed(traces[0].updated);
    CeilingCovers(n, budget, k + 1);
    NamedAtBudgetRate(frames, traces, budget, interval, lastPasses, k);
    StaysInView(frames, traces, budget, interval, lastPasses, k);
    RankGrows(traces[k].table, Nameless(), i + 1, |traces[k].table|);
  }

  lemma CeilingCovers(n: nat, b: nat, m: nat)
    requires b >= 1 && m >= (n + b - 1) / b
    ensures Work(m, b) >= n
  {
    var q := (n + b - 1) / b;
    assert q * b + (n + b - 1) % b == n + b - 1;
    assert (m - q) * b >= 0;
    assert m * b == q * b + (m - q) * b;
  }

  // ---------- Why matching matters ----------

  /** The first `b` tracks are in view and nameless, and this frame's look knows none of them. */
  ghost predicate Unknown(tracks: Table, b: nat, look: Tracker.Detection -> Match) {
    && b <= |tracks|
    && forall i :: 0 <= i < b ==>
        tracks[i].misses == 0 && tracks[i].studentId.None? && look(tracks[i].det).studentId.None?
  }

  lemma {:induction false} LeadingRank(tracks: Table, b: nat)
    requires b <= |tracks| && forall i :: 0 <= i < b ==> tracks[i].misses == 0 && tracks[i].studentId.None?
    ensures Rank(tracks, Nameless(), b) == b
  {
    if b == 0 {
    } else {
      LeadingRank(tracks, b - 1);
    }
  }

  /** A frame that starts with `budget` unknown faces embeds those and nothing else. */
  lemma StarvedFrame(f: Frame, budget: nat, interval: real, lastPass: real, tr: Trace)
    requires FrameDone(f, budget, interval, lastPass, tr) && Unknown(tr.updated, budget, f.look)
    ensures |tr.first| == budget && tr.second == [] && |tr.table| == |tr.updated|
    ensures forall i :: budget <= i < |tr.table| ==> tr.table[i] == tr.updated[i]
    ensures forall i :: 0 <= i < budget ==> tr.table[i].studentId.None?
  {
    hide Served, Embedded, Sightings, Carries, Unknown;
    StarvedRound(f, budget, tr);
    if tr.isPass {
      NothingServed(tr.named, Due(IdSet(tr.first), interval, f.ts), f.look, f.ts, tr.table);
    }
  }

  /** Without budget nothing is embedded. */
  lemma NothingServed(tracks: Table, want: Tracker.Track -> bool, look: Tracker.Detection -> Match, ts: real,
                      tracks': Table)
    requires Served(tracks, want, 0, look, ts, tracks')
    ensures tracks' == tracks && Embedded(tracks, want, 0, |tracks|) == []
  {
    hide Embedded, Rank;
    EmbeddedCount(tracks, want, 0, |tracks|);
  }

  /** The first round goes to the unknown faces at the head of the list. */
  lemma StarvedRound(f: Frame, budget: nat, tr: Trace)
    requires FirstRound(f, budget, tr) && Unknown(tr.updated, budget, f.look)
    ensures |tr.first| == budget && |tr.named| == |tr.updated|
    ensures forall i :: budget <= i < |tr.named| ==> tr.named[i] == tr.updated[i]
    ensures forall i :: 0 <= i < budget ==> tr.named[i].studentId.None?
  {
    hide Embedded, Sightings, Rank;
    var n := |tr.updated|;
    LeadingRank(tr.updated, budget);
    RankGrows(tr.updated, Nameless(), budget, n);
    EmbeddedCount(tr.updated, Nameless(), budget, n);
    NothingMore(tr.updated, Nameless(), budget, f.look, f.ts, budget, n);
  }

  /** So `budget` faces nobody knows, at the head of the list, keep every later track from
      ever being embedded: its identity and its last embedding stay what they were. */
  lemma {:induction false} UnknownFacesStarveTheRest(frames: seq<Frame>, traces: seq<Trace>, budget: nat,
                                                     interval: real, lastPasses: seq<real>, k: nat, i: nat)
    requires StableRun(frames, traces, budget, interval, lastPasses) && k < |frames|
    requires budget <= |traces[0].updated| && forall j :: 0 <= j < budget ==> traces[0].updated[j].studentId.None?
    requires forall m, j :: 0 <= m < |frames| && 0 <= j < budget && j < |traces[m].updated| ==>
      frames[m].look(traces[m].updated[j].det).studentId.None?
    requires budget <= i < |traces[0].updated|
    ensures |traces[k].table| == |traces[0].updated|
    ensures forall j :: 0 <= j < budget ==> traces[k].table[j].studentId.None?
    ensures traces[k].table[i].studentId == traces[0].updated[i].studentId
      && traces[k].table[i].lastReidTs == traces[0].updated[i].lastReidTs
    ensures |traces[k].first| == budget && traces[k].second == []
  {
    hide FrameDone;
    if k == 0 {
    } else {
      UnknownFacesStarveTheRest(frames, traces, budget, interval, lastPasses, k - 1, i);
      assert Carried(traces[k - 1].table, traces[k].updated);
    }
    StarvedFrame(frames[k], budget, interval, lastPasses[k], traces[k]);
  }
}
