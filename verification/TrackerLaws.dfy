/**
 What an update of the tracker guarantees, and when the greedy choice is no choice at all.
 */
module TrackerLaws {
  import opened Wrappers
  import opened Geometry
  import opened Tracker

  // ---------- One track per detection ----------

  lemma PickIsFree(tracks: seq<Track>, dets: seq<Detection>, thresh: real, picks: seq<Option<nat>>, j: nat)
    requires Greedy(tracks, dets, thresh, picks) && j < |picks|
    ensures picks[j].Some? ==> picks[j].value < |tracks| && picks[j].value !in Taken(picks[..j])
  {
    assert IsBest(tracks, dets[j], Taken(picks[..j]), thresh, picks[j]);
  }

  lemma IdsAreInRange(tracks: seq<Track>, dets: seq<Detection>, thresh: real, picks: seq<Option<nat>>)
    requires Greedy(tracks, dets, thresh, picks)
    ensures forall j :: 0 <= j < |picks| && picks[j].Some? ==> picks[j].value < |tracks|
  {
    forall j | 0 <= j < |picks| && picks[j].Some?
      ensures picks[j].value < |tracks|
    {
      PickIsFree(tracks, dets, thresh, picks, j);
    }
  }

  lemma {:induction false} FreshBeforeMonotone(picks: seq<Option<nat>>, j: nat, k: nat)
    requires j < k <= |picks|
    ensures FreshBefore(picks[..j]) + (if picks[j].None? then 1 else 0) <= FreshBefore(picks[..k])
  {
    assert picks[..k][..k - 1] == picks[..k - 1];
    if j == k - 1 {
    } else {
      FreshBeforeMonotone(picks, j, k - 1);
    }
  }

  /** Two detections of a frame never share an id. */
  lemma DetectionsGetDistinctIds(tracks: seq<Track>, nextId: int, dets: seq<Detection>, thresh: real,
                                 picks: seq<Option<nat>>, j: nat, k: nat)
    requires WellFormedTable(tracks, nextId) && Greedy(tracks, dets, thresh, picks) && j < k < |dets|
    requires picks[j].Some? ==> picks[j].value < |tracks|
    requires picks[k].Some? ==> picks[k].value < |tracks|
    ensures IdOf(tracks, nextId, picks, j) != IdOf(tracks, nextId, picks, k)
  {
    if picks[j].Some? && picks[k].Some? {
      PicksAreInjective(tracks, dets, thresh, picks, j, k);
    } else if picks[j].None? && picks[k].None? {
      FreshBeforeMonotone(picks, j, k);
    }
  }

  lemma {:induction false} SurvivorsHave(tracks: seq<Track>, dets: seq<Detection>, picks: seq<Option<nat>>,
                                         maxMisses: int, t: Track)
    requires |picks| == |dets|
    ensures t in Survivors(tracks, dets, picks, maxMisses)
       <==> exists p: nat :: p < |tracks| && t in Fate(tracks[p], PickedBy(picks, p), dets, maxMisses)
  {
    hide PickedBy, Fate;
    if tracks == [] {
    } else {
      var n := |tracks| - 1;
      SurvivorsHave(tracks[..n], dets, picks, maxMisses, t);
      assert Survivors(tracks, dets, picks, maxMisses)
          == Survivors(tracks[..n], dets, picks, maxMisses) + Fate(tracks[n], PickedBy(picks, n), dets, maxMisses);
      if t in Survivors(tracks[..n], dets, picks, maxMisses) {
        var p: nat :| p < n && t in Fate(tracks[..n][p], PickedBy(picks, p), dets, maxMisses);
        assert t in Fate(tracks[p], PickedBy(picks, p), dets, maxMisses);
      }
      if p: nat :| p < |tracks| && t in Fate(tracks[p], PickedBy(picks, p), dets, maxMisses) {
        if p < n {
          assert t in Fate(tracks[..n][p], PickedBy(picks, p), dets, maxMisses);
        }
      }
    }
  }

  lemma {:induction false} NewcomersHave(dets: seq<Detection>, picks: seq<Option<nat>>, nextId: int, t: Track)
    requires |picks| == |dets|
    ensures |Newcomers(dets, picks, nextId)| == FreshBefore(picks)
    ensures t in Newcomers(dets, picks, nextId)
      <==> exists j :: 0 <= j < |dets| && IsNewcomer(dets, picks, nextId, j, t)
  {
    if dets == [] {
    } else {
      var n := |dets| - 1;
      NewcomersHave(dets[..n], picks[..n], nextId, t);
      assert forall j :: 0 <= j < n ==> picks[..n][..j] == picks[..j];
      assert forall j :: 0 <= j < n ==>
          (IsNewcomer(dets, picks, nextId, j, t) <==> IsNewcomer(dets[..n], picks[..n], nextId, j, t));
      assert IsNewcomer(dets, picks, nextId, n, t)
          <==> picks[n].None? && t == NewTrack(nextId + FreshBefore(picks[..n]), dets[n]);
    }
  }

  ghost predicate IsNewcomer(dets: seq<Detection>, picks: seq<Option<nat>>, nextId: int, j: nat, t: Track)
    requires j < |dets| == |picks|
  {
    picks[j].None? && t == NewTrack(nextId + FreshBefore(picks[..j]), dets[j])
  }

  /** Detection `j` ends up as record `t`: this frame's box under the id it was given. */
  ghost predicate Becomes(tracks: seq<Track>, nextId: int, dets: seq<Detection>, picks: seq<Option<nat>>, j: nat,
                          t: Track)
    requires j < |dets| == |picks|
  {
    && t.det == dets[j] && t.misses == 0
    && match picks[j]
       case Some(p) => p < |tracks| && t == Hit(tracks[p], dets[j])
       case None => t == NewTrack(nextId + FreshBefore(picks[..j]), dets[j])
  }

  /** Every detection is in the new table. */
  lemma DetectionIsKept(tracks: seq<Track>, nextId: int, dets: seq<Detection>, thresh: real, maxMisses: int,
                        picks: seq<Option<nat>>, tracks': seq<Track>, nextId': int, j: nat)
    requires Updated(tracks, nextId, dets, thresh, maxMisses, picks, tracks', nextId') && j < |dets|
    ensures exists t :: t in tracks' && Becomes(tracks, nextId, dets, picks, j, t)
  {
    PickIsFree(tracks, dets, thresh, picks, j);
    match picks[j]
    case Some(p) =>
      var t := Hit(tracks[p], dets[j]);
      PickedByIs(tracks, dets, thresh, picks, j);
      SurvivorsHave(tracks, dets, picks, maxMisses, t);
      assert t in Fate(tracks[p], PickedBy(picks, p), dets, maxMisses);
      assert Becomes(tracks, nextId, dets, picks, j, t);
    case None =>
      var t := NewTrack(nextId + FreshBefore(picks[..j]), dets[j]);
      NewcomersHave(dets, picks, nextId, t);
      assert IsNewcomer(dets, picks, nextId, j, t);
      assert Becomes(tracks, nextId, dets, picks, j, t);
  }

  /** Everything the new table shows as just seen is one of the detections. */
  lemma LiveTrackIsDetection(tracks: seq<Track>, nextId: int, dets: seq<Detection>, thresh: real, maxMisses: int,
                             picks: seq<Option<nat>>, tracks': seq<Track>, nextId': int, t: Track)
    requires Updated(tracks, nextId, dets, thresh, maxMisses, picks, tracks', nextId') && t in tracks' && t.misses == 0
    ensures exists j :: 0 <= j < |dets| && Becomes(tracks, nextId, dets, picks, j, t)
  {
    hide IsBest, FreshBefore, Taken, Newcomers, Survivors;
    SurvivorsHave(tracks, dets, picks, maxMisses, t);
    NewcomersHave(dets, picks, nextId, t);
    if t in Survivors(tracks, dets, picks, maxMisses) {
      var p: nat :| p < |tracks| && t in Fate(tracks[p], PickedBy(picks, p), dets, maxMisses);
      assert Becomes(tracks, nextId, dets, picks, PickedBy(picks, p).value, t);
    } else {
      var j :| 0 <= j < |dets| && IsNewcomer(dets, picks, nextId, j, t);
      assert Becomes(tracks, nextId, dets, picks, j, t);
    }
  }

  lemma PickedByIs(tracks: seq<Track>, dets: seq<Detection>, thresh: real, picks: seq<Option<nat>>, j: nat)
    requires Greedy(tracks, dets, thresh, picks) && j < |picks| && picks[j].Some?
    ensures PickedBy(picks, picks[j].value) == Some(j)
  {
    var p := picks[j].value;
    assert p in Taken(picks);
    var k := PickedBy(picks, p).value;
    if k < j {
      PicksAreInjective(tracks, dets, thresh, picks, k, j);
    } else if j < k {
      PicksAreInjective(tracks, dets, thresh, picks, j, k);
    }
  }

  // ---------- As many live tracks as detections ----------

  lemma {:induction false} LiveOfConcat(a: seq<Track>, b: seq<Track>)
    ensures Live(a + b) == Live(a) + Live(b)
  {
    if b == [] {
      assert a + b == a;
    } else {
      var n := |b| - 1;
      assert (a + b)[..|a + b| - 1] == a + b[..n];
      LiveOfConcat(a, b[..n]);
    }
  }

  /** How many of the first `n` entries were continued. */
  ghost function Continued(picks: seq<Option<nat>>, n: nat): nat {
    if n == 0 then 0 else Continued(picks, n - 1) + if n - 1 in Taken(picks) then 1 else 0
  }

  lemma {:induction false} ContinuedCounts(picks: seq<Option<nat>>, n: nat)
    ensures Continued(picks, n) == |set p | 0 <= p < n && p in Taken(picks)|
  {
    hide Taken;
    if n == 0 {
    } else {
      ContinuedCounts(picks, n - 1);
      var before := set p | 0 <= p < n - 1 && p in Taken(picks);
      assert (set p | 0 <= p < n && p in Taken(picks)) == if n - 1 in Taken(picks) then before + {n - 1} else before;
    }
  }

  lemma {:induction false} LiveSurvivors(tracks: seq<Track>, dets: seq<Detection>, picks: seq<Option<nat>>,
                                         maxMisses: int)
    requires |picks| == |dets|
    ensures |Live(Survivors(tracks, dets, picks, maxMisses))| == Continued(picks, |tracks|)
  {
    hide Taken;
    if tracks == [] {
    } else {
      var n := |tracks| - 1;
      var fate := Fate(tracks[n], PickedBy(picks, n), dets, maxMisses);
      LiveSurvivors(tracks[..n], dets, picks, maxMisses);
      LiveOfConcat(Survivors(tracks[..n], dets, picks, maxMisses), fate);
      assert fate != [] ==> fate[..|fate| - 1] == [];
    }
  }

  lemma {:induction false} LiveNewcomers(dets: seq<Detection>, picks: seq<Option<nat>>, nextId: int)
    requires |picks| == |dets|
    ensures |Live(Newcomers(dets, picks, nextId))| == FreshBefore(picks)
  {
    if dets == [] {
    } else {
      var n := |dets| - 1;
      LiveNewcomers(dets[..n], picks[..n], nextId);
      if picks[n].None? {
        var t := NewTrack(nextId + |Newcomers(dets[..n], picks[..n], nextId)|, dets[n]);
        LiveOfConcat(Newcomers(dets[..n], picks[..n], nextId), [t]);
        assert Live([t]) == [t];
      }
    }
  }

  lemma {:induction false} TakenCount(tracks: seq<Track>, dets: seq<Detection>, thresh: real, picks: seq<Option<nat>>,
                                      n: nat)
    requires Greedy(tracks, dets, thresh, picks) && n <= |picks|
    ensures |Taken(picks[..n])| + FreshBefore(picks[..n]) == n
    ensures forall p :: p in Taken(picks[..n]) ==> 0 <= p < |tracks|
  {
    hide IsBest, Greedy, Taken;
    if n > 0 {
      TakenCount(tracks, dets, thresh, picks, n - 1);
      var front, last := picks[..n - 1], picks[n - 1];
      assert picks[..n] == front + [last] && (front + [last])[..n - 1] == front;
      TakenSnoc(front, last);
      PickIsFree(tracks, dets, thresh, picks, n - 1);
    } else {
      assert picks[..0] == [];
      NothingTaken();
    }
  }

  lemma NothingTaken()
    ensures Taken([]) == {}
  {
  }

  lemma TakenSnoc(front: seq<Option<nat>>, last: Option<nat>)
    ensures Taken(front + [last]) == Taken(front) + if last.Some? then {last.value as int} else {}
  {
    var all := front + [last];
    assert forall j :: 0 <= j < |front| ==> all[j] == front[j];
    assert all[|front|] == last;
  }

  /** An update returns exactly one track per detection. */
  lemma OneTrackPerDetection(tracks: seq<Track>, nextId: int, dets: seq<Detection>, thresh: real, maxMisses: int,
                             picks: seq<Option<nat>>, tracks': seq<Track>, nextId': int)
    requires Updated(tracks, nextId, dets, thresh, maxMisses, picks, tracks', nextId')
    ensures |Live(tracks')| == |dets|
  {
    LiveOfConcat(Survivors(tracks, dets, picks, maxMisses), Newcomers(dets, picks, nextId));
    LiveSurvivors(tracks, dets, picks, maxMisses);
    LiveNewcomers(dets, picks, nextId);
    TakenCount(tracks, dets, thresh, picks, |picks|);
    assert picks[..|picks|] == picks;
    ContinuedCounts(picks, |tracks|);
    assert (set p | 0 <= p < |tracks| && p in Taken(picks)) == Taken(picks);
  }

  // ---------- Ids and misses ----------

  /** Kept tracks are within the miss budget; ids are old ones or new ones above every old one. */
  lemma KeptTracks(tracks: seq<Track>, nextId: int, dets: seq<Detection>, thresh: real, maxMisses: int,
                          picks: seq<Option<nat>>, tracks': seq<Track>, nextId': int)
    requires Updated(tracks, nextId, dets, thresh, maxMisses, picks, tracks', nextId')
    ensures nextId <= nextId'
    ensures forall t :: t in tracks' ==> t.misses == 0 || t.misses <= maxMisses
    ensures forall t :: t in tracks' ==>
      || nextId <= t.trackId < nextId'
      || exists p :: 0 <= p < |tracks| && tracks[p].trackId == t.trackId && tracks[p].misses + 1 >= t.misses
  {
    forall t | t in tracks'
      ensures t.misses == 0 || t.misses <= maxMisses
      ensures || nextId <= t.trackId < nextId'
              || exists p :: 0 <= p < |tracks| && tracks[p].trackId == t.trackId && tracks[p].misses + 1 >= t.misses
    {
      hide Greedy, Survivors, Newcomers;
      if t in Survivors(tracks, dets, picks, maxMisses) {
        SurvivorIsOld(tracks, dets, picks, maxMisses, t);
      } else {
        NewcomerIsNew(dets, picks, nextId, t);
      }
    }
  }

  lemma SurvivorIsOld(tracks: seq<Track>, dets: seq<Detection>, picks: seq<Option<nat>>, maxMisses: int, t: Track)
    requires |picks| == |dets| && t in Survivors(tracks, dets, picks, maxMisses)
    ensures t.misses == 0 || t.misses <= maxMisses
    ensures exists p :: 0 <= p < |tracks| && tracks[p].trackId == t.trackId && tracks[p].misses + 1 >= t.misses
  {
    hide Survivors;
    SurvivorsHave(tracks, dets, picks, maxMisses, t);
    var p: nat :| p < |tracks| && t in Fate(tracks[p], PickedBy(picks, p), dets, maxMisses);
    assert tracks[p].trackId == t.trackId;
  }

  lemma NewcomerIsNew(dets: seq<Detection>, picks: seq<Option<nat>>, nextId: int, t: Track)
    requires |picks| == |dets| && t in Newcomers(dets, picks, nextId)
    ensures t.misses == 0 && nextId <= t.trackId < nextId + FreshBefore(picks)
  {
    hide Newcomers;
    NewcomersHave(dets, picks, nextId, t);
    var j :| 0 <= j < |dets| && IsNewcomer(dets, picks, nextId, j, t);
    FreshBeforeMonotone(picks, j, |picks|);
    assert picks[..|picks|] == picks;
  }

  ghost predicate HasId(tracks: seq<Track>, id: int) {
    exists p :: 0 <= p < |tracks| && tracks[p].trackId == id
  }

  /** An id that left the table never comes back. */
  lemma IdsAreNeverReused(tracks: seq<Track>, nextId: int, dets: seq<Detection>, thresh: real, maxMisses: int,
                          picks: seq<Option<nat>>, tracks': seq<Track>, nextId': int, id: int)
    requires Updated(tracks, nextId, dets, thresh, maxMisses, picks, tracks', nextId')
    requires id < nextId && !HasId(tracks, id)
    ensures id < nextId' && !HasId(tracks', id)
  {
    KeptTracks(tracks, nextId, dets, thresh, maxMisses, picks, tracks', nextId');
    forall k | 0 <= k < |tracks'|
      ensures tracks'[k].trackId != id
    {
      assert tracks'[k] in tracks';
    }
  }

  // ---------- When the greedy choice is forced ----------

  ghost predicate Over(tracks: seq<Track>, dets: seq<Detection>, thresh: real, j: nat, p: nat)
    requires j < |dets| && p < |tracks|
  {
    Overlap(dets[j], tracks[p]) >= thresh
  }

  ghost predicate PartialMatching(tracks: seq<Track>, dets: seq<Detection>, thresh: real) {
    && (forall j: nat, p: nat, q: nat | j < |dets| && p < |tracks| && q < |tracks| ::
          Over(tracks, dets, thresh, j, p) && Over(tracks, dets, thresh, j, q) ==> p == q)
    && (forall j: nat, k: nat, p: nat | j < |dets| && k < |dets| && p < |tracks| ::
          Over(tracks, dets, thresh, j, p) && Over(tracks, dets, thresh, k, p) ==> j == k)
  }

  /** When "overlap at or above the threshold" pairs each detection with at most one entry
      and each entry with at most one detection, greedy assignment is that pairing, whatever
      the order the detections come in. */
  lemma GreedyRealisesTheMatching(tracks: seq<Track>, dets: seq<Detection>, thresh: real, picks: seq<Option<nat>>,
                                  j: nat, p: nat)
    requires Greedy(tracks, dets, thresh, picks) && PartialMatching(tracks, dets, thresh)
    requires j < |dets| && p < |tracks|
    ensures picks[j] == Some(p) <==> Over(tracks, dets, thresh, j, p)
  {
    assert IsBest(tracks, dets[j], Taken(picks[..j]), thresh, picks[j]);
    if picks[j].Some? {
      assert Over(tracks, dets, thresh, j, picks[j].value);
    }
    if Over(tracks, dets, thresh, j, p) && p in Taken(picks[..j]) {
      var k: nat :| k < j && picks[..j][k] == Some(p);
      assert IsBest(tracks, dets[k], Taken(picks[..k]), thresh, picks[k]);
      assert Over(tracks, dets, thresh, k, p);
      assert false;
    }
  }

  /** So reordering the detections of a frame does not change which id a box gets. */
  lemma OrderDoesNotMatter(tracks: seq<Track>, dets: seq<Detection>, dets': seq<Detection>, thresh: real,
                           picks: seq<Option<nat>>, picks': seq<Option<nat>>, j: nat, j': nat)
    requires Greedy(tracks, dets, thresh, picks) && Greedy(tracks, dets', thresh, picks')
    requires PartialMatching(tracks, dets, thresh) && PartialMatching(tracks, dets', thresh)
    requires j < |dets| && j' < |dets'| && dets[j] == dets'[j']
    ensures picks[j] == picks'[j']
  {
    IdsAreInRange(tracks, dets, thresh, picks);
    IdsAreInRange(tracks, dets', thresh, picks');
    forall p: nat | p < |tracks|
      ensures picks[j] == Some(p) <==> picks'[j'] == Some(p)
    {
      GreedyRealisesTheMatching(tracks, dets, thresh, picks, j, p);
      GreedyRealisesTheMatching(tracks, dets', thresh, picks', j', p);
    }
    if picks[j].Some? {
      assert picks'[j'] == Some(picks[j].value);
    }
  }

  // ---------- A still scene ----------

  /** Solid boxes that share no area. */
  ghost predicate Scattered(tracks: seq<Track>) {
    && (forall p :: 0 <= p < |tracks| ==> Solid(tracks[p].det.box))
    && (forall p, q :: 0 <= p < |tracks| && 0 <= q < |tracks| && p != q ==> Apart(tracks[p].det.box, tracks[q].det.box))
  }

  /** The detections are the boxes of the table, each once, in the order `perm`. */
  ghost predicate Rearranges(tracks: seq<Track>, dets: seq<Detection>, perm: seq<nat>) {
    && |perm| == |dets|
    && (forall j :: 0 <= j < |perm| ==> perm[j] < |tracks| && dets[j].box == tracks[perm[j]].det.box)
    && (forall j, k :: 0 <= j < k < |perm| ==> perm[j] != perm[k])
    && (forall p: nat :: p < |tracks| ==> p in perm)
  }

  lemma SceneOverlap(tracks: seq<Track>, dets: seq<Detection>, perm: seq<nat>, thresh: real, j: nat, p: nat)
    requires Scattered(tracks) && Rearranges(tracks, dets, perm) && 0.0 < thresh <= 1.0
    requires j < |dets| && p < |tracks|
    ensures Over(tracks, dets, thresh, j, p) <==> perm[j] == p
  {
    if perm[j] == p {
      IouOneIffSame(dets[j].box, tracks[p].det.box);
    } else {
      IouOfApart(dets[j].box, tracks[p].det.box);
    }
  }

  lemma SceneIsMatching(tracks: seq<Track>, dets: seq<Detection>, perm: seq<nat>, thresh: real)
    requires Scattered(tracks) && Rearranges(tracks, dets, perm) && 0.0 < thresh <= 1.0
    ensures PartialMatching(tracks, dets, thresh)
  {
    forall j: nat, p: nat | j < |dets| && p < |tracks|
      ensures Over(tracks, dets, thresh, j, p) <==> perm[j] == p
    {
      SceneOverlap(tracks, dets, perm, thresh, j, p);
    }
    hide Over;
  }

  ghost predicate HitBy(t: Track, source: Option<nat>, dets: seq<Detection>, now: Track) {
    source.Some? && source.value < |dets| && now == Hit(t, dets[source.value])
  }

  lemma {:induction false} AllHit(tracks: seq<Track>, dets: seq<Detection>, picks: seq<Option<nat>>, maxMisses: int)
    requires |picks| == |dets| && forall p: nat :: p < |tracks| ==> PickedBy(picks, p).Some?
    ensures |Survivors(tracks, dets, picks, maxMisses)| == |tracks|
    ensures forall p: nat :: p < |tracks| ==>
      HitBy(tracks[p], PickedBy(picks, p), dets, Survivors(tracks, dets, picks, maxMisses)[p])
  {
    hide PickedBy;
    if tracks == [] {
    } else {
      var n := |tracks| - 1;
      var front, r := Survivors(tracks[..n], dets, picks, maxMisses), Survivors(tracks, dets, picks, maxMisses);
      AllHit(tracks[..n], dets, picks, maxMisses);
      assert r == front + [Hit(tracks[n], dets[PickedBy(picks, n).value])];
      forall p: nat | p < |tracks|
        ensures HitBy(tracks[p], PickedBy(picks, p), dets, r[p])
      {
        if p < n {
          assert HitBy(tracks[..n][p], PickedBy(picks, p), dets, front[p]);
        }
      }
    }
  }

  lemma {:induction false} NoneFresh(dets: seq<Detection>, picks: seq<Option<nat>>, nextId: int)
    requires |picks| == |dets| && forall j :: 0 <= j < |picks| ==> picks[j].Some?
    ensures FreshBefore(picks) == 0 && Newcomers(dets, picks, nextId) == []
  {
    if dets == [] {
    } else {
      NoneFresh(dets[..|dets| - 1], picks[..|picks| - 1], nextId);
    }
  }

  /** Same people in the same places: the same ids, all just seen. */
  ghost predicate SameScene(before: seq<Track>, after: seq<Track>) {
    && |after| == |before|
    && forall p :: 0 <= p < |before| ==>
         after[p].trackId == before[p].trackId && after[p].det.box == before[p].det.box && after[p].misses == 0
  }

  /** A scene of disjoint boxes keeps all its ids, and makes no new one, in whatever order
      the detector lists the boxes. */
  lemma StillSceneKeepsIds(tracks: seq<Track>, nextId: int, dets: seq<Detection>, perm: seq<nat>, thresh: real,
                           maxMisses: int, picks: seq<Option<nat>>, tracks': seq<Track>, nextId': int)
    requires Updated(tracks, nextId, dets, thresh, maxMisses, picks, tracks', nextId')
    requires Scattered(tracks) && Rearranges(tracks, dets, perm) && 0.0 < thresh <= 1.0
    ensures nextId' == nextId && SameScene(tracks, tracks')
    ensures forall p :: 0 <= p < |tracks| ==> tracks'[p] == Hit(tracks[p], tracks'[p].det)
  {
    hide PickedBy, Greedy, Scattered, Rearranges, FreshBefore;
    SceneSources(tracks, dets, perm, thresh, picks);
    NoneFresh(dets, picks, nextId);
    AllHit(tracks, dets, picks, maxMisses);
    assert tracks' == Survivors(tracks, dets, picks, maxMisses);
    forall p: nat | p < |tracks|
      ensures tracks'[p] == Hit(tracks[p], tracks'[p].det) && tracks'[p].det.box == tracks[p].det.box
    {
      assert HitBy(tracks[p], PickedBy(picks, p), dets, tracks'[p]);
    }
  }

  lemma SceneSources(tracks: seq<Track>, dets: seq<Detection>, perm: seq<nat>, thresh: real, picks: seq<Option<nat>>)
    requires Greedy(tracks, dets, thresh, picks)
    requires Scattered(tracks) && Rearranges(tracks, dets, perm) && 0.0 < thresh <= 1.0
    ensures forall j :: 0 <= j < |picks| ==> picks[j].Some?
    ensures forall p: nat :: p < |tracks| ==>
      PickedBy(picks, p).Some? && dets[PickedBy(picks, p).value].box == tracks[p].det.box
  {
    hide IsBest, PickedBy, Scattered;
    ScenePicks(tracks, dets, perm, thresh, picks);
    forall p: nat | p < |tracks|
      ensures PickedBy(picks, p).Some? && dets[PickedBy(picks, p).value].box == tracks[p].det.box
    {
      assert p in perm;
      var j :| 0 <= j < |perm| && perm[j] == p;
      PickedByIs(tracks, dets, thresh, picks, j);
    }
  }

  lemma ScenePicks(tracks: seq<Track>, dets: seq<Detection>, perm: seq<nat>, thresh: real, picks: seq<Option<nat>>)
    requires Greedy(tracks, dets, thresh, picks)
    requires Scattered(tracks) && Rearranges(tracks, dets, perm) && 0.0 < thresh <= 1.0
    ensures forall j :: 0 <= j < |perm| ==> picks[j] == Some(perm[j])
  {
    SceneIsMatching(tracks, dets, perm, thresh);
    forall j | 0 <= j < |perm|
      ensures picks[j] == Some(perm[j])
    {
      SceneOverlap(tracks, dets, perm, thresh, j, perm[j]);
      GreedyRealisesTheMatching(tracks, dets, thresh, picks, j, perm[j]);
    }
  }

  datatype Shuffle = Shuffle(dets: seq<Detection>, perm: seq<nat>, picks: seq<Option<nat>>)

  /** A run of the tracker in which every frame lists the boxes of the table it meets. */
  ghost predicate StillRun(tables: seq<seq<Track>>, nextIds: seq<int>, frames: seq<Shuffle>, thresh: real,
                           maxMisses: int) {
    && |tables| == |nextIds| == |frames| + 1
    && forall k, k' :: 0 <= k < |frames| && k' == k + 1 ==>
         && Updated(tables[k], nextIds[k], frames[k].dets, thresh, maxMisses, frames[k].picks, tables[k'], nextIds[k'])
         && Rearranges(tables[k], frames[k].dets, frames[k].perm)
  }

  lemma SameSceneIsScattered(before: seq<Track>, after: seq<Track>)
    requires Scattered(before) && SameScene(before, after)
    ensures Scattered(after)
  {
  }

  /** However long the scene stays still and however the frames are shuffled, nobody's id changes. */
  lemma {:induction false} StillRunKeepsIds(tables: seq<seq<Track>>, nextIds: seq<int>, frames: seq<Shuffle>,
                                            thresh: real, maxMisses: int, k: nat)
    requires StillRun(tables, nextIds, frames, thresh, maxMisses) && k <= |frames|
    requires Scattered(tables[0]) && 0.0 < thresh <= 1.0
    requires forall p :: 0 <= p < |tables[0]| ==> tables[0][p].misses == 0
    ensures SameScene(tables[0], tables[k]) && nextIds[k] == nextIds[0]
  {
    hide Updated, Rearranges, Scattered;
    if k == 0 {
    } else {
      StillRunKeepsIds(tables, nextIds, frames, thresh, maxMisses, k - 1);
      SameSceneIsScattered(tables[0], tables[k - 1]);
      var f := frames[k - 1];
      StillSceneKeepsIds(tables[k - 1], nextIds[k - 1], f.dets, f.perm, thresh, maxMisses, f.picks, tables[k],
                         nextIds[k]);
    }
  }
}
