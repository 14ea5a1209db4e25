/**
 What becomes of a track: in one update of the tracker, in one frame of the pipeline, and over
 a run in which its face goes missing and comes back.
 */
module TrackLives {
  import opened Wrappers
  import opened Geometry
  import opened Attendance
  import opened Pipeline
  import opened PipelineLaws
  import opened Runs
  import opened NamingLaws
  import opened Tracker
  import opened TrackerLaws

  // ---------- One update ----------

  /** A pick is the unassigned entry the detection overlaps most, and enough, and the latest of
      those; without a pick the detection overlaps none of them enough. */
  lemma PickIsGreatestOverlap(tracks: Table, dets: seq<Detection>, thresh: real, picks: seq<Option<nat>>, j: nat)
    requires Greedy(tracks, dets, thresh, picks) && j < |dets|
    ensures forall p: nat :: p < |tracks| && (forall k :: 0 <= k < j ==> picks[k] != Some(p)) ==>
      Iou(dets[j].box, tracks[p].det.box)
      <= if picks[j].Some? && picks[j].value < |tracks| then Iou(dets[j].box, tracks[picks[j].value].det.box)
         else thresh
    ensures picks[j].Some? ==>
      && picks[j].value < |tracks| && Iou(dets[j].box, tracks[picks[j].value].det.box) >= thresh
      && forall p: nat :: picks[j].value < p < |tracks| && (forall k :: 0 <= k < j ==> picks[k] != Some(p)) ==>
           Iou(dets[j].box, tracks[p].det.box) < Iou(dets[j].box, tracks[picks[j].value].det.box)
    ensures picks[j].None? ==>
      forall p: nat :: p < |tracks| && (forall k :: 0 <= k < j ==> picks[k] != Some(p)) ==>
        Iou(dets[j].box, tracks[p].det.box) < thresh
  {
    hide Iou;
    assert IsBest(tracks, dets[j], Taken(picks[..j]), thresh, picks[j]);
    forall p: nat | p < |tracks| && (forall k :: 0 <= k < j ==> picks[k] != Some(p))
      ensures p !in Taken(picks[..j]) && Overlap(dets[j], tracks[p]) == Iou(dets[j].box, tracks[p].det.box)
    {
    }
  }

  /** An entry a detection picked goes on with that detection's box, no miss, and its identity. */
  lemma PickedContinues(tracks: Table, nextId: int, dets: seq<Detection>, thresh: real, maxMisses: int,
                        picks: seq<Option<nat>>, tracks': Table, nextId': int, j: nat)
    requires Updated(tracks, nextId, dets, thresh, maxMisses, picks, tracks', nextId')
    requires j < |dets| && picks[j].Some?
    ensures picks[j].value < |tracks|
    ensures var t := tracks[picks[j].value]; t.(det := dets[j], age := t.age + 1, misses := 0) in tracks'
  {
    hide Greedy, Survivors, Newcomers, PickedBy;
    IdsAreInRange(tracks, dets, thresh, picks);
    PickedByIs(tracks, dets, thresh, picks, j);
    var p := picks[j].value;
    var t' := tracks[p].(det := dets[j], age := tracks[p].age + 1, misses := 0);
    assert t' in Fate(tracks[p], PickedBy(picks, p), dets, maxMisses);
    SurvivorsHave(tracks, dets, picks, maxMisses, t');
  }

  /** An entry no detection picked has one more miss and is otherwise unchanged, and goes exactly
      if that is more than `maxMisses`. */
  lemma MissedAges(tracks: Table, nextId: int, dets: seq<Detection>, thresh: real, maxMisses: int,
                   picks: seq<Option<nat>>, tracks': Table, nextId': int, p: nat)
    requires Updated(tracks, nextId, dets, thresh, maxMisses, picks, tracks', nextId')
    requires p < |tracks| && forall j :: 0 <= j < |picks| ==> picks[j] != Some(p)
    ensures if tracks[p].misses + 1 <= maxMisses then tracks[p].(misses := tracks[p].misses + 1) in tracks'
            else !HasId(tracks', tracks[p].trackId)
  {
    assert PickedBy(picks, p).None?;
    hide Greedy, Survivors, Newcomers, PickedBy;
    if tracks[p].misses + 1 <= maxMisses {
      var t' := tracks[p].(misses := tracks[p].misses + 1);
      assert t' in Fate(tracks[p], PickedBy(picks, p), dets, maxMisses);
      SurvivorsHave(tracks, dets, picks, maxMisses, t');
    } else {
      forall k | 0 <= k < |tracks'|
        ensures tracks'[k].trackId != tracks[p].trackId
      {
        SomebodyElse(tracks, nextId, dets, thresh, maxMisses, picks, tracks', nextId', p, tracks'[k]);
      }
    }
  }

  lemma SomebodyElse(tracks: Table, nextId: int, dets: seq<Detection>, thresh: real, maxMisses: int,
                     picks: seq<Option<nat>>, tracks': Table, nextId': int, p: nat, t: Track)
    requires Updated(tracks, nextId, dets, thresh, maxMisses, picks, tracks', nextId')
    requires p < |tracks| && PickedBy(picks, p).None? && tracks[p].misses + 1 > maxMisses && t in tracks'
    ensures t.trackId != tracks[p].trackId
  {
    hide Greedy, Survivors, Newcomers, PickedBy;
    if t in Survivors(tracks, dets, picks, maxMisses) {
      SurvivorsHave(tracks, dets, picks, maxMisses, t);
      var q: nat :| q < |tracks| && t in Fate(tracks[q], PickedBy(picks, q), dets, maxMisses);
      assert t.trackId == tracks[q].trackId && q != p;
    } else {
      NewcomerIsNew(dets, picks, nextId, t);
    }
  }

  /** A detection that picked nothing starts an entry of its own, without an identity. */
  lemma UnmatchedIsNew(tracks: Table, nextId: int, dets: seq<Detection>, thresh: real, maxMisses: int,
                       picks: seq<Option<nat>>, tracks': Table, nextId': int, j: nat)
    requires Updated(tracks, nextId, dets, thresh, maxMisses, picks, tracks', nextId')
    requires j < |dets| && picks[j].None?
    ensures Tracker.Track(nextId + FreshBefore(picks[..j]), dets[j], 1, 0, None, 0.0, None) in tracks'
  {
    hide Greedy, Survivors, Newcomers;
    var t := Tracker.Track(nextId + FreshBefore(picks[..j]), dets[j], 1, 0, None, 0.0, None);
    assert IsNewcomer(dets, picks, nextId, j, t);
    NewcomersHave(dets, picks, nextId, t);
  }

  // ---------- One frame ----------

  /** The places before `n` of tracks that want an embedding. */
  ghost function WantingBefore(tracks: Table, want: Track -> bool, n: nat): set<int>
    requires n <= |tracks|
  {
    set j | 0 <= j < n && want(tracks[j])
  }

  lemma WantingBeforeNext(tracks: Table, want: Track -> bool, n: nat)
    requires n < |tracks|
    ensures n !in WantingBefore(tracks, want, n)
    ensures WantingBefore(tracks, want, n + 1)
         == WantingBefore(tracks, want, n) + if want(tracks[n]) then {n} else {}
  {
  }

  lemma {:induction false} RankIsCount(tracks: Table, want: Track -> bool, n: nat)
    requires n <= |tracks|
    ensures Rank(tracks, want, n) == |WantingBefore(tracks, want, n)|
  {
    if n == 0 {
    } else {
      RankIsCount(tracks, want, n - 1);
      WantingBeforeNext(tracks, want, n - 1);
      hide WantingBefore;
    }
  }

  /** The places before `i` of faces in view without a name. */
  ghost function NamelessBefore(tracks: Table, i: nat): set<int>
    requires i <= |tracks|
  {
    set j | 0 <= j < i && tracks[j].misses == 0 && tracks[j].studentId.None?
  }

  /** First round: exactly the faces in view without a name are embedded, as long as fewer than
      `budget` of them come before; whoever is embedded has what the gallery says. */
  lemma FirstRoundEmbeds(f: Frame, budget: nat, tr: Trace, i: nat)
    requires FirstRound(f, budget, tr) && i < |tr.updated|
    ensures |tr.named| == |tr.updated|
    ensures var t := tr.updated[i];
      && tr.named[i]
         == if t.misses == 0 && t.studentId.None? && |NamelessBefore(tr.updated, i)| < budget
            then t.(studentId := f.look(t.det).studentId, matchScore := f.look(t.det).score, lastReidTs := Some(f.ts))
            else t
  {
    hide Embedded, Sightings, Rank;
    RankIsCount(tr.updated, Nameless(), i);
    assert NamelessBefore(tr.updated, i) == WantingBefore(tr.updated, Nameless(), i);
  }

  /** The places before `i` of faces in view that were not embedded in the first round and were
      never embedded or not for an interval. */
  ghost function DueBefore(tracks: Table, done: seq<int>, interval: real, ts: real, i: nat): set<int>
    requires i <= |tracks|
  {
    set j | 0 <= j < i && tracks[j].misses == 0 && tracks[j].trackId !in done
            && (tracks[j].lastReidTs == None || ts - tracks[j].lastReidTs.value >= interval)
  }

  /** Second round, on a pass: exactly the faces in view whose identity is old, as long as the
      budget the first round left lasts. */
  lemma SecondRoundEmbeds(f: Frame, budget: nat, interval: real, tr: Trace, i: nat)
    requires SecondRound(f, budget, interval, tr) && i < |tr.named|
    ensures |tr.table| == |tr.named|
    ensures var t := tr.named[i];
      && tr.table[i]
         == if && t.misses == 0 && t.trackId !in tr.first
               && (t.lastReidTs == None || f.ts - t.lastReidTs.value >= interval)
               && |DueBefore(tr.named, tr.first, interval, f.ts, i)| < budget
            then t.(studentId := f.look(t.det).studentId, matchScore := f.look(t.det).score, lastReidTs := Some(f.ts))
            else t
  {
    hide Embedded, Sightings, Rank, Carries;
    var want := Due(IdSet(tr.first), interval, f.ts);
    assert forall id :: id in IdSet(tr.first) <==> id in tr.first;
    RankIsCount(tr.named, want, i);
    assert DueBefore(tr.named, tr.first, interval, f.ts, i) == WantingBefore(tr.named, want, i);
  }

  /** A face that is out of view, or that has a name younger than the interval, is not embedded
      in a frame, pass or no pass. */
  lemma FreshIsLeftAlone(f: Frame, budget: nat, interval: real, lastPass: real, tr: Trace, i: nat)
    requires FrameDone(f, budget, interval, lastPass, tr) && i < |tr.updated|
    requires var t := tr.updated[i];
      t.misses > 0
      || (t.studentId.Some? && (!tr.isPass || (t.lastReidTs.Some? && f.ts - t.lastReidTs.value < interval)))
    ensures |tr.table| == |tr.updated| && tr.table[i] == tr.updated[i]
  {
    hide Served, Embedded, Sightings, Rank, Carries;
    FirstRoundEmbeds(f, budget, tr, i);
    if tr.isPass {
      SecondRoundEmbeds(f, budget - |tr.first|, interval, tr, i);
    }
  }

  /** The students a pass reports are exactly those a face in view carries. */
  lemma PassSeesFacesInView(f: Frame, budget: nat, interval: real, lastPass: real, tr: Trace, studentId: string)
    requires FrameDone(f, budget, interval, lastPass, tr)
    ensures studentId in tr.seen <==>
      && f.ts - lastPass >= interval && studentId != ""
      && exists i :: 0 <= i < |tr.table| && tr.table[i].misses == 0 && tr.table[i].studentId == Some(studentId)
  {
    hide FirstRound, Served, Embedded, Sightings;
  }

  /** A sighting is logged for every face embedded that matched somebody, with the gallery's score
      and the frame's time. */
  lemma {:induction false} SightingsAreMatches(tracks: Table, want: Track -> bool, budget: nat,
                                               look: Detection -> Match, ts: real, n: nat, x: Sighting)
    requires n <= |tracks|
    ensures x in Sightings(tracks, want, budget, look, ts, n) <==>
      exists i: nat :: i < n && Serves(tracks, want, budget, i)
        && look(tracks[i].det).studentId == Some(x.studentId) && x.score == look(tracks[i].det).score && x.ts == ts
  {
    hide Serves;
    if n == 0 {
    } else {
      SightingsAreMatches(tracks, want, budget, look, ts, n - 1, x);
    }
  }

  // ---------- Passes of a run ----------

  /** Frame `j` is the last pass before frame `k`. */
  ghost predicate LastPassBefore(log: seq<Trace>, j: int, k: int) {
    0 <= j < k <= |log| && log[j].isPass && forall i :: j < i < k ==> !log[i].isPass
  }

  lemma {:induction false} LastPassIs(log: seq<Trace>, k: nat)
    requires k <= |log|
    ensures (LastPassAfter(log[..k]) == NO_PASS_YET && forall i :: 0 <= i < k ==> !log[i].isPass)
         || exists j :: LastPassBefore(log, j, k) && LastPassAfter(log[..k]) == log[j].ts
  {
    if k == 0 {
    } else {
      LastPassIs(log, k - 1);
      assert log[..k][..k - 1] == log[..k - 1];
      if log[k - 1].isPass {
        assert LastPassBefore(log, k - 1, k);
      } else if j :| LastPassBefore(log, j, k - 1) && LastPassAfter(log[..k - 1]) == log[j].ts {
        assert LastPassBefore(log, j, k);
      }
    }
  }

  /** A frame of a run is a pass exactly if the interval has gone by since the last one, or there
      was none and the clock reads at least an interval more than minus a billion. */
  lemma PassIff(c: Config, frames: seq<Frame>, log: seq<Trace>, k: nat)
    requires Traced(c, frames, log) && k < |log|
    ensures |frames| == |log|
    ensures log[k].isPass <==>
      || ((forall i :: 0 <= i < k ==> !log[i].isPass) && frames[k].ts + 1000000000.0 >= c.interval)
      || exists j :: LastPassBefore(log, j, k) && frames[k].ts - log[j].ts >= c.interval
  {
    hide Traced, TableAfter, NextIdAfter, LastPassAfter, FirstRound, SecondRound, NoRound, Tracker.Updated;
    TracedAt(c, frames, log, k);
    LastPassIs(log, k);
    forall i, j | LastPassBefore(log, i, k) && LastPassBefore(log, j, k)
      ensures i == j
    {
    }
  }

  // ---------- A face that goes missing ----------

  /** From frame `m` up to frame `n` no detection overlaps the face's last box enough. */
  ghost predicate OutOfSight(frames: seq<Frame>, m: nat, n: nat, t: Track, thresh: real)
    requires n <= |frames|
  {
    forall k, j :: m <= k < n && 0 <= j < |frames[k].dets| ==> Iou(frames[k].dets[j].box, t.det.box) < thresh
  }

  lemma NobodyPicks(tracks: Table, dets: seq<Detection>, thresh: real, picks: seq<Option<nat>>, p: nat)
    requires Greedy(tracks, dets, thresh, picks) && p < |tracks|
    requires forall j :: 0 <= j < |dets| ==> Iou(dets[j].box, tracks[p].det.box) < thresh
    ensures forall j :: 0 <= j < |picks| ==> picks[j] != Some(p)
  {
    hide Iou;
    forall j | 0 <= j < |picks|
      ensures picks[j] != Some(p)
    {
      PickIsGreatestOverlap(tracks, dets, thresh, picks, j);
    }
  }

  /** The frame leaves a track that is out of view as the tracker left it. */
  lemma MissingIsKept(f: Frame, budget: nat, interval: real, lastPass: real, tr: Trace, t: Track)
    requires FrameDone(f, budget, interval, lastPass, tr) && t in tr.updated && t.misses > 0
    ensures t in tr.table
  {
    hide FrameDone;
    var i: nat :| i < |tr.updated| && tr.updated[i] == t;
    FreshIsLeftAlone(f, budget, interval, lastPass, tr, i);
  }

  /** One frame without the face. */
  lemma OneMoreMiss(c: Config, frames: seq<Frame>, log: seq<Trace>, k: nat, t: Track)
    requires Traced(c, frames, log) && k < |log| == |frames| && t in TableAfter(log[..k])
    requires forall j :: 0 <= j < |frames[k].dets| ==> Iou(frames[k].dets[j].box, t.det.box) < c.iouThresh
    ensures if t.misses + 1 <= c.maxMisses then t.(misses := t.misses + 1) in TableAfter(log[..k + 1])
            else t.trackId < NextIdAfter(log[..k + 1]) && !HasId(TableAfter(log[..k + 1]), t.trackId)
  {
    hide Traced, TableAfter, NextIdAfter, LastPassAfter, FrameDone, Iou, Greedy, Survivors, Newcomers;
    TracedAt(c, frames, log, k);
    TableAfterFrame(log, k);
    var before, tr := TableAfter(log[..k]), log[k];
    var p: nat :| p < |before| && before[p] == t;
    NobodyPicks(before, frames[k].dets, c.iouThresh, tr.picks, p);
    MissedAges(before, NextIdAfter(log[..k]), frames[k].dets, c.iouThresh, c.maxMisses, tr.picks, tr.updated, tr.nextId,
               p);
    if t.misses + 1 <= c.maxMisses {
      MissingIsKept(frames[k], c.budget, c.interval, LastPassAfter(log[..k]), tr, t.(misses := t.misses + 1));
    } else {
      FrameKeepsIds(frames[k], c.budget, c.interval, LastPassAfter(log[..k]), tr);
      SameIdsSameHolders(tr.updated, tr.table, t.trackId);
    }
  }

  /** A face that goes missing keeps its track, box and identity included, through every run, for
      exactly as many frames as `maxMisses` allows; after that its id is gone for good. */
  lemma {:induction false} MissedForAWhile(c: Config, frames: seq<Frame>, log: seq<Trace>, m: nat, n: nat, t: Track)
    requires Traced(c, frames, log) && m < n <= |log| == |frames| && t in TableAfter(log[..m])
    requires OutOfSight(frames, m, n, t, c.iouThresh)
    ensures if t.misses + (n - m) <= c.maxMisses
            then t.(misses := t.misses + (n - m)) in TableAfter(log[..n])
            else t.trackId < NextIdAfter(log[..n]) && !HasId(TableAfter(log[..n]), t.trackId)
    decreases n
  {
    hide Traced, TableAfter, NextIdAfter, Iou;
    if n == m + 1 {
      OneMoreMiss(c, frames, log, m, t);
    } else {
      MissedForAWhile(c, frames, log, m, n - 1, t);
      if t.misses + (n - 1 - m) <= c.maxMisses {
        OneMoreMiss(c, frames, log, n - 1, t.(misses := t.misses + (n - 1 - m)));
      } else {
        IdsNeverComeBack(c, frames, log, n - 1, n, t.trackId);
      }
    }
  }

  /** Detection `j` overlaps entry `p` enough, no other entry, and no other detection overlaps `p`. */
  ghost predicate OnlyPair(tracks: Table, dets: seq<Detection>, thresh: real, j: nat, p: nat)
    requires j < |dets| && p < |tracks|
  {
    && Iou(dets[j].box, tracks[p].det.box) >= thresh
    && (forall q :: 0 <= q < |tracks| && q != p ==> Iou(dets[j].box, tracks[q].det.box) < thresh)
    && (forall k :: 0 <= k < |dets| && k != j ==> Iou(dets[k].box, tracks[p].det.box) < thresh)
  }

  lemma OnlyPairIsPicked(tracks: Table, dets: seq<Detection>, thresh: real, picks: seq<Option<nat>>, j: nat, p: nat)
    requires Greedy(tracks, dets, thresh, picks) && j < |dets| && p < |tracks| && OnlyPair(tracks, dets, thresh, j, p)
    ensures picks[j] == Some(p)
  {
    assert |picks| == |dets|;
    hide Iou, Greedy;
    forall k | 0 <= k < j
      ensures picks[k] != Some(p)
    {
      PickIsGreatestOverlap(tracks, dets, thresh, picks, k);
    }
    PickIsGreatestOverlap(tracks, dets, thresh, picks, j);
  }

  /** A face that was missing for no longer than that and is detected again where it was last seen
      goes on under its own id and identity. */
  lemma ComesBackAsItself(c: Config, frames: seq<Frame>, log: seq<Trace>, m: nat, n: nat, t: Track, j: nat, p: nat)
    requires Traced(c, frames, log) && m < n < |log| == |frames| && t in TableAfter(log[..m])
    requires OutOfSight(frames, m, n, t, c.iouThresh) && t.misses + (n - m) <= c.maxMisses
    requires j < |frames[n].dets| && p < |TableAfter(log[..n])| && TableAfter(log[..n])[p].trackId == t.trackId
    requires OnlyPair(TableAfter(log[..n]), frames[n].dets, c.iouThresh, j, p)
    ensures t.(det := frames[n].dets[j], age := t.age + 1, misses := 0) in log[n].updated
  {
    hide Traced, TableAfter, NextIdAfter, LastPassAfter, FrameDone, Iou, Greedy, Survivors, Newcomers, OnlyPair;
    MissedForAWhile(c, frames, log, m, n, t);
    TracedAt(c, frames, log, n);
    var before, tr := TableAfter(log[..n]), log[n];
    var q: nat :| q < |before| && before[q] == t.(misses := t.misses + (n - m));
    assert q == p;
    OnlyPairIsPicked(before, frames[n].dets, c.iouThresh, tr.picks, j, p);
    PickedContinues(before, NextIdAfter(log[..n]), frames[n].dets, c.iouThresh, c.maxMisses, tr.picks, tr.updated,
                    tr.nextId, j);
  }
}
