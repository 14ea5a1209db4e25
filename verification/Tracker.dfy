/**
 The greedy overlap tracker of backend/vision/tracker.py.

 A dictionary keeps its entries in the order they were added, so the track table is a
 sequence of records with increasing ids. One update is described by `picks`: for each
 detection, the position of the table entry it continues, if any. `Greedy` says which
 picks the code makes, `Survivors` and `Newcomers` what becomes of the table.
 */
module Tracker {
  import opened Wrappers
  import opened Geometry

  datatype Detection = Detection(box: Box, score: real)

  datatype Track = Track(trackId: int, det: Detection, age: int, misses: nat,
                         studentId: Option<string>, matchScore: real, lastReidTs: Option<real>)

  ghost predicate WellFormedTable(tracks: seq<Track>, nextId: int) {
    && (forall p, q :: 0 <= p < q < |tracks| ==> tracks[p].trackId < tracks[q].trackId)
    && (forall p :: 0 <= p < |tracks| ==> tracks[p].trackId < nextId)
  }

  function NewTrack(trackId: int, det: Detection): Track {
    Track(trackId, det, 1, 0, None, 0.0, None)
  }

  function Hit(t: Track, det: Detection): Track {
    t.(det := det, age := t.age + 1, misses := 0)
  }

  function Overlap(det: Detection, t: Track): real {
    Iou(det.box, t.det.box)
  }

  // ---------- Which entry a detection takes ----------

  /** The entry with the greatest overlap among those not in `taken`, the latest one on a
      tie, and none exactly when all of those are below the threshold. */
  ghost predicate IsBest(tracks: seq<Track>, det: Detection, taken: set<int>, thresh: real, r: Option<nat>) {
    match r
    case None => forall p :: 0 <= p < |tracks| && p !in taken ==> Overlap(det, tracks[p]) < thresh
    case Some(b) =>
      && b < |tracks| && b !in taken && Overlap(det, tracks[b]) >= thresh
      && forall p :: 0 <= p < |tracks| && p !in taken ==>
           if p <= b then Overlap(det, tracks[p]) <= Overlap(det, tracks[b])
               else Overlap(det, tracks[p]) < Overlap(det, tracks[b])
  }

  lemma BestIsUnique(tracks: seq<Track>, det: Detection, taken: set<int>, thresh: real, a: Option<nat>, b: Option<nat>)
    requires IsBest(tracks, det, taken, thresh, a) && IsBest(tracks, det, taken, thresh, b)
    ensures a == b
  {
  }

  /** The positions already continued. */
  ghost function Taken(picks: seq<Option<nat>>): set<int> {
    set j | 0 <= j < |picks| && picks[j].Some? :: picks[j].value
  }

  ghost function ClaimedAt(tracks: seq<Track>, claimed: set<int>): set<int> {
    set p | 0 <= p < |tracks| && tracks[p].trackId in claimed
  }

  ghost predicate Greedy(tracks: seq<Track>, dets: seq<Detection>, thresh: real, picks: seq<Option<nat>>) {
    && |picks| == |dets|
    && forall j :: 0 <= j < |dets| ==> IsBest(tracks, dets[j], Taken(picks[..j]), thresh, picks[j])
  }

  /** The picks are determined: `Greedy` leaves the update no choice. */
  lemma {:induction false} GreedyIsUnique(tracks: seq<Track>, dets: seq<Detection>, thresh: real,
                                          a: seq<Option<nat>>, b: seq<Option<nat>>, n: nat)
    requires Greedy(tracks, dets, thresh, a) && Greedy(tracks, dets, thresh, b) && n <= |dets|
    ensures a[..n] == b[..n]
  {
    hide IsBest;
    if n == 0 {
    } else {
      GreedyIsUnique(tracks, dets, thresh, a, b, n - 1);
      BestIsUnique(tracks, dets[n - 1], Taken(a[..n - 1]), thresh, a[n - 1], b[n - 1]);
      assert a[..n] == a[..n - 1] + [a[n - 1]] && b[..n] == b[..n - 1] + [b[n - 1]];
    }
  }

  /** No entry is continued by two detections. */
  lemma PicksAreInjective(tracks: seq<Track>, dets: seq<Detection>, thresh: real, picks: seq<Option<nat>>, j: nat,
                          k: nat)
    requires Greedy(tracks, dets, thresh, picks)
    requires j < k < |picks| && picks[j].Some? && picks[k].Some?
    ensures picks[j] != picks[k]
  {
    assert picks[..k][j] == picks[j];
    assert picks[j].value in Taken(picks[..k]);
    assert IsBest(tracks, dets[k], Taken(picks[..k]), thresh, picks[k]);
  }

  // ---------- What becomes of the table ----------

  /** The detection that continues entry `p`. */
  ghost function PickedBy(picks: seq<Option<nat>>, p: nat): (r: Option<nat>)
    ensures r.Some? ==> r.value < |picks| && picks[r.value] == Some(p)
    ensures r.None? <==> p !in Taken(picks)
  {
    if picks == [] then None
    else if picks[|picks| - 1] == Some(p) then Some(|picks| - 1)
    else
      var r := PickedBy(picks[..|picks| - 1], p);
      assert forall j :: 0 <= j < |picks| && picks[j] == Some(p) ==> picks[..|picks| - 1][j] == Some(p);
      assert p in Taken(picks) ==> p in Taken(picks[..|picks| - 1]);
      assert p in Taken(picks[..|picks| - 1]) ==> p in Taken(picks);
      r
  }

  /** An entry nobody continued has missed one more frame, and goes once it missed too many. */
  ghost function Fate(t: Track, source: Option<nat>, dets: seq<Detection>, maxMisses: int): seq<Track>
    requires source.Some? ==> source.value < |dets|
  {
    match source
    case Some(j) => [Hit(t, dets[j])]
    case None => if t.misses + 1 > maxMisses then [] else [t.(misses := t.misses + 1)]
  }

  ghost function Survivors(tracks: seq<Track>, dets: seq<Detection>, picks: seq<Option<nat>>,
                           maxMisses: int): seq<Track>
    requires |picks| == |dets|
  {
    if tracks == [] then []
    else
      var p := |tracks| - 1;
      Survivors(tracks[..p], dets, picks, maxMisses) + Fate(tracks[p], PickedBy(picks, p), dets, maxMisses)
  }

  ghost function Newcomers(dets: seq<Detection>, picks: seq<Option<nat>>, nextId: int): seq<Track>
    requires |picks| == |dets|
  {
    if dets == [] then []
    else
      var n := |dets| - 1;
      var front := Newcomers(dets[..n], picks[..n], nextId);
      if picks[n].None? then front + [NewTrack(nextId + |front|, dets[n])] else front
  }

  function Live(tracks: seq<Track>): seq<Track> {
    if tracks == [] then []
    else
      var last := tracks[|tracks| - 1];
      if last.misses == 0 then Live(tracks[..|tracks| - 1]) + [last] else Live(tracks[..|tracks| - 1])
  }

  /** The id each detection ends up with. */
  ghost function IdOf(tracks: seq<Track>, nextId: int, picks: seq<Option<nat>>, j: nat): int
    requires j < |picks|
    requires picks[j].Some? ==> picks[j].value < |tracks|
  {
    match picks[j]
    case Some(p) => tracks[p].trackId
    case None => nextId + FreshBefore(picks[..j])
  }

  ghost function FreshBefore(picks: seq<Option<nat>>): nat {
    if picks == [] then 0
    else FreshBefore(picks[..|picks| - 1]) + if picks[|picks| - 1].None? then 1 else 0
  }

  /** One frame of the tracker, from table and next id to table and next id. */
  ghost predicate Updated(tracks: seq<Track>, nextId: int, dets: seq<Detection>, thresh: real, maxMisses: int,
                          picks: seq<Option<nat>>, tracks': seq<Track>, nextId': int)
  {
    && WellFormedTable(tracks, nextId)
    && |picks| == |dets| && Greedy(tracks, dets, thresh, picks)
    && tracks' == Survivors(tracks, dets, picks, maxMisses) + Newcomers(dets, picks, nextId)
    && nextId' == nextId + FreshBefore(picks)
  }

  // ---------- The object ----------

  class IoUTracker {
    const iouThresh: real
    const maxMisses: int
    var tracks: seq<Track>
    var nextId: int

    ghost predicate Valid()
      reads this
    {
      WellFormedTable(tracks, nextId)
    }

    constructor (iouThresh: real, maxMisses: int)
      ensures Valid() && this.iouThresh == iouThresh && this.maxMisses == maxMisses
      ensures tracks == [] && nextId == 1
    {
      this.iouThresh, this.maxMisses := iouThresh, maxMisses;
      tracks, nextId := [], 1;
    }

    /** The inner search loop: the best entry whose id is not yet claimed. */
    method FindBest(det: Detection, claimed: set<int>) returns (best: Option<nat>)
      ensures IsBest(tracks, det, ClaimedAt(tracks, claimed), iouThresh, best)
    {
      best := None;
      var bestIou := iouThresh;
      var p := 0;
      while p < |tracks|
        invariant p <= |tracks|
        invariant best.None? ==> bestIou == iouThresh
        invariant best.Some? ==> && best.value < p && tracks[best.value].trackId !in claimed
                                 && bestIou == Overlap(det, tracks[best.value]) >= iouThresh
        invariant forall q: nat :: q < p && tracks[q].trackId !in claimed ==>
          if best.Some? && q <= best.value then Overlap(det, tracks[q]) <= bestIou
          else Overlap(det, tracks[q]) < bestIou
      {
        if tracks[p].trackId !in claimed {
          var i := Overlap(det, tracks[p]);
          if i >= bestIou {
            best, bestIou := Some(p), i;
          }
        }
        p := p + 1;
      }
    }

    method Update(dets: seq<Detection>) returns (live: seq<Track>, ghost picks: seq<Option<nat>>)
      requires Valid()
      modifies this
      ensures Valid()
      ensures Updated(old(tracks), old(nextId), dets, iouThresh, maxMisses, picks, tracks, nextId)
      ensures live == Live(tracks)
    {
      hide IsBest, Greedy, Progress, Taken;
      ghost var was, next := tracks, nextId;
      var claimed: set<int> := {};
      picks := [];
      StartUpdate(was, next, iouThresh);
      var j := 0;
      while j < |dets|
        invariant 0 <= j <= |dets|
        invariant MidUpdate(was, next, dets[..j], iouThresh, picks, tracks, nextId, claimed)
      {
        var det := dets[j];
        var best := FindBest(det, claimed);
        assert dets[..j + 1] == dets[..j] + [det];
        FreeMidUpdate(was, next, dets[..j], iouThresh, picks, tracks, nextId, claimed, det, best);
        match best {
          case None =>
            StartTrack(was, next, dets[..j], iouThresh, picks, tracks, nextId, claimed, det);
            tracks := tracks + [NewTrack(nextId, det)];
            claimed := claimed + {nextId};
            nextId := nextId + 1;
          case Some(p) =>
            ContinueTrack(was, next, dets[..j], iouThresh, picks, tracks, nextId, claimed, det, p);
            claimed := claimed + {tracks[p].trackId};
            tracks := tracks[p := Hit(tracks[p], det)];
        }
        picks := picks + [best];
        j := j + 1;
      }
      assert dets[..j] == dets;
      AgedTable(was, next, dets, iouThresh, picks, tracks, nextId, claimed, maxMisses);
      AgedKeepsOrder(tracks, claimed, maxMisses, nextId);
      AgeMissed(claimed);
      live := SeenNow();
    }

    /** The second loop of `update`: what no detection continued has missed this frame. */
    method AgeMissed(claimed: set<int>)
      modifies this`tracks
      ensures tracks == Aged(old(tracks), claimed, maxMisses)
    {
      var kept := [];
      var p := 0;
      while p < |tracks|
        invariant 0 <= p <= |tracks|
        invariant kept == Aged(tracks[..p], claimed, maxMisses)
      {
        var t := tracks[p];
        assert tracks[..p + 1][..p] == tracks[..p];
        if t.trackId in claimed {
          kept := kept + [t];
        } else if t.misses + 1 <= maxMisses {
          kept := kept + [t.(misses := t.misses + 1)];
        }
        p := p + 1;
      }
      assert tracks[..p] == tracks;
      tracks := kept;
    }

    /** The list `update` returns. */
    method SeenNow() returns (live: seq<Track>)
      ensures live == Live(tracks)
    {
      live := [];
      var p := 0;
      while p < |tracks|
        invariant 0 <= p <= |tracks|
        invariant live == Live(tracks[..p])
      {
        assert tracks[..p + 1][..p] == tracks[..p];
        if tracks[p].misses == 0 {
          live := live + [tracks[p]];
        }
        p := p + 1;
      }
      assert tracks[..p] == tracks;
    }
  }

  // ---------- Why the loops compute that ----------

  /** Midway through the detections: a continued entry is updated and claimed, the others
      are as they were and unclaimed. */
  ghost predicate Progress(was: Track, source: Option<nat>, dets: seq<Detection>, now: Track, claimed: set<int>) {
    match source
    case Some(j) => j < |dets| && now == Hit(was, dets[j]) && now.trackId in claimed
    case None => now == was && now.trackId !in claimed
  }

  ghost predicate InProgress(was: seq<Track>, dets: seq<Detection>, picks: seq<Option<nat>>, now: seq<Track>,
                             claimed: set<int>) {
    && |was| <= |now|
    && (forall p: nat :: p < |was| ==> Progress(was[p], PickedBy(picks, p), dets, now[p], claimed))
    && (forall p :: |was| <= p < |now| ==> now[p].trackId in claimed)
  }

  ghost predicate TailIs(now: seq<Track>, n: nat, tail: seq<Track>) {
    n <= |now| && now[n..] == tail
  }

  ghost predicate MidUpdate(was: seq<Track>, next: int, dets: seq<Detection>, thresh: real, picks: seq<Option<nat>>,
                            now: seq<Track>, nextId: int, claimed: set<int>) {
    && |picks| == |dets| && Greedy(was, dets, thresh, picks)
    && WellFormedTable(was, next) && WellFormedTable(now, nextId)
    && |was| <= |now| && nextId == next + FreshBefore(picks)
    && |now| == |was| + FreshBefore(picks)
    && InProgress(was, dets, picks, now, claimed)
    && TailIs(now, |was|, Newcomers(dets, picks, next))
  }

  function Aged(tracks: seq<Track>, claimed: set<int>, maxMisses: int): seq<Track> {
    if tracks == [] then []
    else
      var front, t := Aged(tracks[..|tracks| - 1], claimed, maxMisses), tracks[|tracks| - 1];
      if t.trackId in claimed then front + [t]
      else if t.misses + 1 <= maxMisses then front + [t.(misses := t.misses + 1)]
      else front
  }

  lemma {:induction false} AgedKeepsOrder(tracks: seq<Track>, claimed: set<int>, maxMisses: int, nextId: int)
    requires WellFormedTable(tracks, nextId)
    ensures WellFormedTable(Aged(tracks, claimed, maxMisses), nextId)
  {
    if tracks == [] {
    } else {
      var front, t := tracks[..|tracks| - 1], tracks[|tracks| - 1];
      AgedKeepsOrder(front, claimed, maxMisses, t.trackId);
    }
  }

  /** Ageing the table of the first loop gives the survivors, then the newcomers. */
  lemma AgedTable(was: seq<Track>, next: int, dets: seq<Detection>, thresh: real, picks: seq<Option<nat>>,
                  now: seq<Track>, nextId: int, claimed: set<int>, maxMisses: int)
    requires MidUpdate(was, next, dets, thresh, picks, now, nextId, claimed)
    ensures Aged(now, claimed, maxMisses) == Survivors(was, dets, picks, maxMisses) + Newcomers(dets, picks, next)
  {
    AgedSurvivors(was, dets, picks, now[..|was|], claimed, maxMisses);
    AgedNewcomers(now, claimed, maxMisses, |was|, |now|);
    assert now[..|now|] == now;
  }

  lemma {:induction false} AgedSurvivors(was: seq<Track>, dets: seq<Detection>, picks: seq<Option<nat>>,
                                         now: seq<Track>, claimed: set<int>, maxMisses: int)
    requires |picks| == |dets| && |was| == |now|
    requires forall p: nat :: p < |was| ==> Progress(was[p], PickedBy(picks, p), dets, now[p], claimed)
    ensures Aged(now, claimed, maxMisses) == Survivors(was, dets, picks, maxMisses)
  {
    hide PickedBy;
    if was == [] {
    } else {
      var n := |was| - 1;
      assert Progress(was[n], PickedBy(picks, n), dets, now[n], claimed);
      assert Survivors(was, dets, picks, maxMisses)
          == Survivors(was[..n], dets, picks, maxMisses) + Fate(was[n], PickedBy(picks, n), dets, maxMisses);
      AgedSurvivors(was[..n], dets, picks, now[..n], claimed, maxMisses);
    }
  }

  lemma {:induction false} AgedNewcomers(now: seq<Track>, claimed: set<int>, maxMisses: int, n: nat, m: nat)
    requires n <= m <= |now| && forall p :: n <= p < |now| ==> now[p].trackId in claimed
    ensures Aged(now[..m], claimed, maxMisses) == Aged(now[..n], claimed, maxMisses) + now[n..m]
  {
    if n == m {
    } else {
      AgedNewcomers(now, claimed, maxMisses, n, m - 1);
      assert now[..m][..m - 1] == now[..m - 1];
      assert now[n..m] == now[n..m - 1] + [now[m - 1]];
    }
  }

  lemma GreedySnoc(tracks: seq<Track>, dets: seq<Detection>, thresh: real, picks: seq<Option<nat>>, det: Detection,
                   best: Option<nat>)
    requires Greedy(tracks, dets, thresh, picks)
    requires IsBest(tracks, det, Taken(picks), thresh, best)
    ensures Greedy(tracks, dets + [det], thresh, picks + [best])
  {
    var picks' := picks + [best];
    forall j | 0 <= j < |dets| + 1
      ensures IsBest(tracks, (dets + [det])[j], Taken(picks'[..j]), thresh, picks'[j])
    {
      if j < |dets| {
        assert picks'[..j] == picks[..j];
      } else {
        assert picks'[..j] == picks;
      }
    }
  }

  lemma FreeMidUpdate(was: seq<Track>, next: int, dets: seq<Detection>, thresh: real, picks: seq<Option<nat>>,
                      now: seq<Track>, nextId: int, claimed: set<int>, det: Detection, best: Option<nat>)
    requires MidUpdate(was, next, dets, thresh, picks, now, nextId, claimed)
    requires IsBest(now, det, ClaimedAt(now, claimed), thresh, best)
    ensures IsBest(was, det, Taken(picks), thresh, best)
    ensures best.Some? ==> best.value < |was| && best.value !in Taken(picks)
    ensures Greedy(was, dets + [det], thresh, picks + [best])
  {
    hide Overlap, Newcomers, FreshBefore;
    forall p: int | 0 <= p < |now|
      ensures p in ClaimedAt(now, claimed) <==> p >= |was| || p in Taken(picks)
      ensures p !in ClaimedAt(now, claimed) ==> now[p] == was[p]
    {
      if p < |was| {
        assert Progress(was[p], PickedBy(picks, p), dets, now[p], claimed);
      }
    }
    GreedySnoc(was, dets, thresh, picks, det, best);
  }

  lemma StartUpdate(was: seq<Track>, next: int, thresh: real)
    requires WellFormedTable(was, next)
    ensures MidUpdate(was, next, [], thresh, [], was, next, {})
  {
  }

  lemma FreshBeforeSnoc(picks: seq<Option<nat>>, best: Option<nat>)
    ensures FreshBefore(picks + [best]) == FreshBefore(picks) + if best.None? then 1 else 0
  {
    assert (picks + [best])[..|picks|] == picks;
  }

  /** What one more pick adds to the newcomers. */
  lemma NewcomersSnoc(dets: seq<Detection>, picks: seq<Option<nat>>, next: int, det: Detection, best: Option<nat>)
    requires |picks| == |dets|
    ensures FreshBefore(picks + [best]) == FreshBefore(picks) + if best.None? then 1 else 0
    ensures Newcomers(dets + [det], picks + [best], next)
         == if best.None? then Newcomers(dets, picks, next) + [NewTrack(next + |Newcomers(dets, picks, next)|, det)]
            else Newcomers(dets, picks, next)
  {
    hide NewTrack, FreshBefore, Newcomers;
    FreshBeforeSnoc(picks, best);
    var n, ds, ps := |dets|, dets + [det], picks + [best];
    LastNewcomer(ds, ps, next);
    assert ds[..n] == dets && ps[..n] == picks;
  }

  lemma LastNewcomer(dets: seq<Detection>, picks: seq<Option<nat>>, next: int)
    requires |picks| == |dets| > 0
    ensures var n := |dets| - 1; var front := Newcomers(dets[..n], picks[..n], next);
      Newcomers(dets, picks, next)
      == if picks[n].None? then front + [NewTrack(next + |front|, dets[n])] else front
  {
    hide NewTrack;
  }

  lemma PickedBySnoc(picks: seq<Option<nat>>, best: Option<nat>)
    ensures forall p: nat ::
      PickedBy(picks + [best], p) == if best == Some(p) then Some(|picks|) else PickedBy(picks, p)
  {
    assert (picks + [best])[..|picks|] == picks;
  }

  lemma TableSnoc(now: seq<Track>, nextId: int, det: Detection, n: nat, tail: seq<Track>)
    requires WellFormedTable(now, nextId) && TailIs(now, n, tail)
    ensures WellFormedTable(now + [NewTrack(nextId, det)], nextId + 1)
    ensures TailIs(now + [NewTrack(nextId, det)], n, tail + [NewTrack(nextId, det)])
  {
  }

  lemma InProgressStart(was: seq<Track>, dets: seq<Detection>, picks: seq<Option<nat>>, now: seq<Track>,
                        claimed: set<int>, nextId: int, det: Detection)
    requires |picks| == |dets| && InProgress(was, dets, picks, now, claimed) && WellFormedTable(now, nextId)
    ensures InProgress(was, dets + [det], picks + [None], now + [NewTrack(nextId, det)], claimed + {nextId})
  {
    hide PickedBy;
    PickedBySnoc(picks, None);
  }

  lemma InProgressContinue(was: seq<Track>, dets: seq<Detection>, picks: seq<Option<nat>>, now: seq<Track>,
                           claimed: set<int>, nextId: int, det: Detection, b: nat)
    requires |picks| == |dets| && InProgress(was, dets, picks, now, claimed) && WellFormedTable(now, nextId)
    requires b < |was| && PickedBy(picks, b) == None
    ensures InProgress(was, dets + [det], picks + [Some(b)], now[b := Hit(now[b], det)], claimed + {now[b].trackId})
  {
    hide PickedBy;
    PickedBySnoc(picks, Some(b));
  }

  lemma StartTrack(was: seq<Track>, next: int, dets: seq<Detection>, thresh: real, picks: seq<Option<nat>>,
                   now: seq<Track>, nextId: int, claimed: set<int>, det: Detection)
    requires MidUpdate(was, next, dets, thresh, picks, now, nextId, claimed)
    requires Greedy(was, dets + [det], thresh, picks + [None])
    ensures MidUpdate(was, next, dets + [det], thresh, picks + [None], now + [NewTrack(nextId, det)], nextId + 1,
                      claimed + {nextId})
  {
    hide Greedy, InProgress, WellFormedTable, Newcomers, FreshBefore, NewTrack, TailIs;
    TableSnoc(now, nextId, det, |was|, Newcomers(dets, picks, next));
    InProgressStart(was, dets, picks, now, claimed, nextId, det);
    NewcomersSnoc(dets, picks, next, det, None);
  }

  lemma TableUpdate(now: seq<Track>, nextId: int, det: Detection, b: nat, n: nat, tail: seq<Track>)
    requires WellFormedTable(now, nextId) && b < n <= |now| && TailIs(now, n, tail)
    ensures WellFormedTable(now[b := Hit(now[b], det)], nextId)
    ensures TailIs(now[b := Hit(now[b], det)], n, tail)
  {
    assert now[b := Hit(now[b], det)][n..] == now[n..];
  }

  lemma ContinueTrack(was: seq<Track>, next: int, dets: seq<Detection>, thresh: real, picks: seq<Option<nat>>,
                      now: seq<Track>, nextId: int, claimed: set<int>, det: Detection, b: nat)
    requires MidUpdate(was, next, dets, thresh, picks, now, nextId, claimed)
    requires b < |was| && b !in Taken(picks)
    requires Greedy(was, dets + [det], thresh, picks + [Some(b)])
    ensures MidUpdate(was, next, dets + [det], thresh, picks + [Some(b)], now[b := Hit(now[b], det)], nextId,
                      claimed + {now[b].trackId})
  {
    assert |picks| == |dets|;
    hide Greedy, InProgress, WellFormedTable, Newcomers, FreshBefore, TailIs, Taken;
    NewcomersSnoc(dets, picks, next, det, Some(b));
    TableUpdate(now, nextId, det, b, |was|, Newcomers(dets, picks, next));
    InProgressContinue(was, dets, picks, now, claimed, nextId, det, b);
  }
}
