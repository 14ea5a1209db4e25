/**
 What the counts of a window and the numbers of a row mean for the observations themselves.
 */
module ZoneCounts {
  import opened Wrappers
  import opened Geometry
  import opened Zones
  import opened ZoneLaws

  // ---------- Bands ----------

  /** A box belongs to the front band from `frontBand` of the frame's height downwards, to the
      back band, if not to the front, up to `backBand`, and otherwise to the middle. */
  lemma BandOfABox(c: Config, o: Obs, height: int)
    ensures ZoneOf(c, o, height) == Front <==> (o.y1 + o.y2) as real >= 2.0 * (c.frontBand * height as real)
    ensures ZoneOf(c, o, height) == Back <==>
      && (o.y1 + o.y2) as real < 2.0 * (c.frontBand * height as real)
      && (o.y1 + o.y2) as real <= 2.0 * (c.backBand * height as real)
  {
  }

  // ---------- Counts ----------

  /** The places of a frame's observations in a zone. */
  ghost function InZone(c: Config, obs: seq<Obs>, height: int, z: Zone): set<int> {
    set k | 0 <= k < |obs| && ZoneOf(c, obs[k], height) == z
  }

  /** The places of a frame's observations that `t` counts. */
  ghost function CountedIn(c: Config, obs: seq<Obs>, height: int, z: Zone, t: Tally): set<int> {
    set k | 0 <= k < |obs| && Counts(c, obs[k], height, z, t)
  }

  lemma CountedInLast(c: Config, obs: seq<Obs>, height: int, z: Zone, t: Tally)
    requires obs != []
    ensures var n := |obs| - 1;
      && n !in CountedIn(c, obs[..n], height, z, t)
      && CountedIn(c, obs, height, z, t)
         == CountedIn(c, obs[..n], height, z, t) + if Counts(c, obs[n], height, z, t) then {n} else {}
  {
    hide Counts;
  }

  lemma {:induction false} CountIsCardinality(c: Config, obs: seq<Obs>, height: int, z: Zone, t: Tally)
    ensures Count(c, obs, height, z, t) == |CountedIn(c, obs, height, z, t)|
  {
    hide Counts;
    if obs == [] {
    } else {
      var n := |obs| - 1;
      CountIsCardinality(c, obs[..n], height, z, t);
      CountedInLast(c, obs, height, z, t);
      hide CountedIn;
    }
  }

  lemma CountIs(c: Config, obs: seq<Obs>, height: int, z: Zone, t: Tally, s: set<int>)
    requires forall k :: k in s <==> 0 <= k < |obs| && Counts(c, obs[k], height, z, t)
    ensures Count(c, obs, height, z, t) == |s|
  {
    hide Counts, Count;
    CountIsCardinality(c, obs, height, z, t);
    assert s == CountedIn(c, obs, height, z, t);
  }

  /** Each count of a frame is the number of its observations in the zone that show the thing:
      attention and a lowered head only where the pose could tell. */
  lemma WhatIsCounted(c: Config, obs: seq<Obs>, height: int, z: Zone)
    ensures Count(c, obs, height, z, Seen) == |InZone(c, obs, height, z)|
    ensures Count(c, obs, height, z, Posed)
         == |set k | k in InZone(c, obs, height, z) && obs[k].signals.attending.Some?|
    ensures Count(c, obs, height, z, Attending)
         == |set k | k in InZone(c, obs, height, z) && obs[k].signals.attending == Some(true)|
    ensures Count(c, obs, height, z, HeadDown)
         == |set k | k in InZone(c, obs, height, z) && obs[k].signals.attending.Some?
                     && obs[k].signals.headDown == Some(true)|
  {
    hide ZoneOf, Count;
    var here := InZone(c, obs, height, z);
    CountIs(c, obs, height, z, Seen, here);
    CountIs(c, obs, height, z, Posed, set k | k in here && obs[k].signals.attending.Some?);
    CountIs(c, obs, height, z, Attending, set k | k in here && obs[k].signals.attending == Some(true));
    CountIs(c, obs, height, z, HeadDown,
            set k | k in here && obs[k].signals.attending.Some? && obs[k].signals.headDown == Some(true));
  }

  /** Phones and stillness likewise, of the observations that could tell. */
  lemma WhatElseIsCounted(c: Config, obs: seq<Obs>, height: int, z: Zone)
    ensures Count(c, obs, height, z, PhoneKnown)
         == |set k | k in InZone(c, obs, height, z) && obs[k].signals.phone.Some?|
    ensures Count(c, obs, height, z, Phone)
         == |set k | k in InZone(c, obs, height, z) && obs[k].signals.phone == Some(true)|
    ensures Count(c, obs, height, z, StillKnown)
         == |set k | k in InZone(c, obs, height, z) && obs[k].signals.still.Some?|
    ensures Count(c, obs, height, z, Still)
         == |set k | k in InZone(c, obs, height, z) && obs[k].signals.still == Some(true)|
  {
    hide ZoneOf, Count;
    var here := InZone(c, obs, height, z);
    CountIs(c, obs, height, z, PhoneKnown, set k | k in here && obs[k].signals.phone.Some?);
    CountIs(c, obs, height, z, Phone, set k | k in here && obs[k].signals.phone == Some(true));
    CountIs(c, obs, height, z, StillKnown, set k | k in here && obs[k].signals.still.Some?);
    CountIs(c, obs, height, z, Still, set k | k in here && obs[k].signals.still == Some(true));
  }

  /** The tracks a frame shows at once in a zone, and those whose pose it shows. */
  lemma WhoIsShown(c: Config, obs: seq<Obs>, height: int, z: Zone)
    ensures Tracks(c, obs, height, z, Seen)
         == set k | 0 <= k < |obs| && ZoneOf(c, obs[k], height) == z :: obs[k].trackId
    ensures Tracks(c, obs, height, z, Posed)
         == set k | 0 <= k < |obs| && ZoneOf(c, obs[k], height) == z && obs[k].signals.attending.Some? :: obs[k].trackId
  {
    hide ZoneOf;
  }

  // ---------- Shares ----------

  /** Observation `k` of the frame is one of the zone's that `t` counts. */
  ghost predicate CountedOf(c: Config, f: ZoneFrame, z: Zone, t: Tally, k: int) {
    0 <= k < |f.obs| && Counts(c, f.obs[k], f.height, z, t)
  }

  ghost predicate CountedAt(c: Config, frames: seq<ZoneFrame>, z: Zone, t: Tally, i: int, k: int) {
    0 <= i < |frames| && CountedOf(c, frames[i], z, t, k)
  }

  ghost predicate AllShow(c: Config, frames: seq<ZoneFrame>, z: Zone, t: Tally, u: Tally) {
    forall i, k :: CountedAt(c, frames, z, u, i, k) ==> CountedAt(c, frames, z, t, i, k)
  }

  ghost predicate NoneShows(c: Config, frames: seq<ZoneFrame>, z: Zone, t: Tally) {
    forall i, k :: !CountedAt(c, frames, z, t, i, k)
  }

  lemma {:induction false} CountIsAll(c: Config, obs: seq<Obs>, height: int, z: Zone, t: Tally, u: Tally)
    requires forall s :: Shows(s, t) ==> Shows(s, u)
    ensures Count(c, obs, height, z, t) <= Count(c, obs, height, z, u)
    ensures Count(c, obs, height, z, t) == Count(c, obs, height, z, u) <==>
      forall k :: 0 <= k < |obs| && Counts(c, obs[k], height, z, u) ==> Counts(c, obs[k], height, z, t)
    ensures Count(c, obs, height, z, t) == 0 <==>
      forall k :: 0 <= k < |obs| ==> !Counts(c, obs[k], height, z, t)
  {
    hide ZoneOf, Shows;
    if obs == [] {
    } else {
      var n := |obs| - 1;
      CountIsAll(c, obs[..n], height, z, t, u);
      assert forall k :: 0 <= k < n ==> obs[..n][k] == obs[k];
    }
  }

  lemma FrameIsAll(c: Config, f: ZoneFrame, z: Zone, t: Tally, u: Tally)
    requires forall s :: Shows(s, t) ==> Shows(s, u)
    ensures Count(c, f.obs, f.height, z, t) <= Count(c, f.obs, f.height, z, u)
    ensures Count(c, f.obs, f.height, z, t) == Count(c, f.obs, f.height, z, u) <==>
      forall k :: CountedOf(c, f, z, u, k) ==> CountedOf(c, f, z, t, k)
    ensures Count(c, f.obs, f.height, z, t) == 0 <==> forall k :: !CountedOf(c, f, z, t, k)
  {
    hide Count, Counts, Shows;
    CountIsAll(c, f.obs, f.height, z, t, u);
    if forall k :: !CountedOf(c, f, z, t, k) {
      forall k | 0 <= k < |f.obs|
        ensures !Counts(c, f.obs[k], f.height, z, t)
      {
        assert !CountedOf(c, f, z, t, k);
      }
    }
    if forall k :: CountedOf(c, f, z, u, k) ==> CountedOf(c, f, z, t, k) {
      forall k | 0 <= k < |f.obs| && Counts(c, f.obs[k], f.height, z, u)
        ensures Counts(c, f.obs[k], f.height, z, t)
      {
        assert CountedOf(c, f, z, u, k);
      }
    }
  }

  lemma {:induction false} TotalIsAll(c: Config, frames: seq<ZoneFrame>, z: Zone, t: Tally, u: Tally)
    requires forall s :: Shows(s, t) ==> Shows(s, u)
    ensures Total(c, frames, z, t) <= Total(c, frames, z, u)
    ensures Total(c, frames, z, t) == Total(c, frames, z, u) <==> AllShow(c, frames, z, t, u)
    ensures Total(c, frames, z, t) == 0 <==> NoneShows(c, frames, z, t)
  {
    hide Count, CountedOf, Shows;
    if frames == [] {
    } else {
      var n := |frames| - 1;
      TotalIsAll(c, frames[..n], z, t, u);
      FrameIsAll(c, frames[n], z, t, u);
      assert frames == frames[..n] + [frames[n]];
      LastFrameShows(c, frames[..n], frames[n], z, t, u);
      hide AllShow, NoneShows;
    }
  }

  /** Splits the frames of a window into all but the last, and the last. */
  lemma LastFrameCounts(c: Config, front: seq<ZoneFrame>, f: ZoneFrame, z: Zone, t: Tally)
    ensures forall i, k ::
      CountedAt(c, front + [f], z, t, i, k) <==>
      CountedAt(c, front, z, t, i, k) || (i == |front| && CountedOf(c, f, z, t, k))
    ensures forall k :: !CountedAt(c, front, z, t, |front|, k)
  {
    hide CountedOf;
  }

  lemma LastFrameShows(c: Config, front: seq<ZoneFrame>, f: ZoneFrame, z: Zone, t: Tally, u: Tally)
    ensures AllShow(c, front + [f], z, t, u) <==>
      && AllShow(c, front, z, t, u)
      && forall k :: CountedOf(c, f, z, u, k) ==> CountedOf(c, f, z, t, k)
    ensures NoneShows(c, front + [f], z, t) <==> NoneShows(c, front, z, t) && forall k :: !CountedOf(c, f, z, t, k)
  {
    hide CountedOf, CountedAt;
    LastFrameCounts(c, front, f, z, t);
    LastFrameCounts(c, front, f, z, u);
    if AllShow(c, front + [f], z, t, u) {
      forall i, k | CountedAt(c, front, z, u, i, k)
        ensures CountedAt(c, front, z, t, i, k)
      {
        assert CountedAt(c, front + [f], z, u, i, k);
      }
      forall k | CountedOf(c, f, z, u, k)
        ensures CountedOf(c, f, z, t, k)
      {
        assert CountedAt(c, front + [f], z, u, |front|, k);
      }
    }
    if NoneShows(c, front + [f], z, t) {
      forall i, k
        ensures !CountedAt(c, front, z, t, i, k)
      {
        assert !CountedAt(c, front + [f], z, t, i, k);
      }
      forall k
        ensures !CountedOf(c, f, z, t, k)
      {
        assert !CountedAt(c, front + [f], z, t, |front|, k);
      }
    }
  }

  /** The share is 1 exactly if all of `u` show `t`, and 0 exactly if none does. */
  lemma ShareExtremes(c: Config, frames: seq<ZoneFrame>, z: Zone, t: Tally, u: Tally)
    requires (forall s :: Shows(s, t) ==> Shows(s, u)) && Total(c, frames, z, u) > 0
    ensures Rate(Total(c, frames, z, t), Total(c, frames, z, u)) == 1.0 <==> AllShow(c, frames, z, t, u)
    ensures Rate(Total(c, frames, z, t), Total(c, frames, z, u)) == 0.0 <==> NoneShows(c, frames, z, t)
  {
    hide AllShow, NoneShows, Total, Shows;
    TotalIsAll(c, frames, z, t, u);
    var n, d := Total(c, frames, z, t) as real, Total(c, frames, z, u) as real;
    QuotientBounds(n, d);
    QuotientTimes(n, d);
  }

  /** The observations of a window's zone. */
  ghost predicate ObservedAt(c: Config, frames: seq<ZoneFrame>, z: Zone, i: int, k: int) {
    && 0 <= i < |frames| && 0 <= k < |frames[i].obs| && ZoneOf(c, frames[i].obs[k], frames[i].height) == z
  }

  ghost function SignalsAt(frames: seq<ZoneFrame>, i: int, k: int): Signals
    requires 0 <= i < |frames| && 0 <= k < |frames[i].obs|
  {
    frames[i].obs[k].signals
  }

  /** The engagement index of a row is 1 exactly if every observation of the zone whose pose could
      tell shows attention, and 0 exactly if none does. */
  lemma IndexExtremes(c: Config, start: real, frames: seq<ZoneFrame>, z: Zone)
    requires Judge(c, start, z, Batch(c, frames, z)).Ok?
    ensures var row := Judge(c, start, z, Batch(c, frames, z)).value;
      && (row.vnei == 1.0 <==>
          forall i, k :: ObservedAt(c, frames, z, i, k) && SignalsAt(frames, i, k).attending.Some? ==>
            SignalsAt(frames, i, k).attending == Some(true))
      && (row.vnei == 0.0 <==>
          forall i, k :: ObservedAt(c, frames, z, i, k) ==> SignalsAt(frames, i, k).attending != Some(true))
  {
    CountedShowAttention(c, frames, z);
    hide Total, Peak, AllTracks, Rate, Counts, CountedAt, ObservedAt;
    ShareExtremes(c, frames, z, Attending, Posed);
  }

  lemma CountedShowAttention(c: Config, frames: seq<ZoneFrame>, z: Zone)
    ensures forall i, k :: CountedAt(c, frames, z, Posed, i, k) <==>
      ObservedAt(c, frames, z, i, k) && SignalsAt(frames, i, k).attending.Some?
    ensures forall i, k :: CountedAt(c, frames, z, Attending, i, k) <==>
      ObservedAt(c, frames, z, i, k) && SignalsAt(frames, i, k).attending == Some(true)
  {
    hide ZoneOf;
  }

  // ---------- Rows ----------

  /** Besides the rates: the row's start and length, its enrolment, which is the configured one
      unless more were in view at once, and its coverage. */
  lemma RowStates(c: Config, start: real, frames: seq<ZoneFrame>, z: Zone)
    requires Judge(c, start, z, Batch(c, frames, z)).Ok?
    ensures var (row, w) := (Judge(c, start, z, Batch(c, frames, z)).value, Batch(c, frames, z));
      && row.zone == z && row.windowStart == c.sessionStart + start && row.nTracked == w.peak
      && row.enrolled == (if z in c.enrolled && c.enrolled[z] >= w.peak then c.enrolled[z] else w.peak)
      && (row.enrolled > 0 ==> row.coverage * row.enrolled as real == w.peak as real)
      && (row.enrolled == 0 ==> row.coverage == 0.0)
      && (c.windowS >= 0.0 ==> row.windowS as real <= c.windowS < row.windowS as real + 1.0)
      && (c.windowS < 0.0 ==> row.windowS as real - 1.0 < c.windowS <= row.windowS as real)
      && (row.phoneRate == None <==> Total(c, frames, z, PhoneKnown) == 0)
      && (row.stillRate == None <==> Total(c, frames, z, StillKnown) == 0)
  {
    hide Total, Peak, AllTracks, Rate;
    var row, w := Judge(c, start, z, Batch(c, frames, z)).value, Batch(c, frames, z);
    PeakShare(w.peak, row.enrolled);
  }

  lemma PeakShare(peak: nat, enrolled: nat)
    requires peak <= enrolled
    ensures Rate(peak, enrolled) <= 1.0
    ensures if enrolled > 0 then Rate(peak, enrolled) * enrolled as real == peak as real
            else Rate(peak, enrolled) == 0.0
  {
    if enrolled > 0 {
      QuotientBounds(peak as real, enrolled as real);
      QuotientTimes(peak as real, enrolled as real);
    }
  }

  /** A zone is withheld for privacy exactly if no frame shows k_min of its tracks at once, and for
      want of poses if it is not, yet not reportable either. */
  lemma WithheldWhy(c: Config, start: real, frames: seq<ZoneFrame>, z: Zone)
    requires Occupied(c, frames, z)
    ensures Judge(c, start, z, Batch(c, frames, z)) == Err(PrivacyFloor) <==>
      forall i :: 0 <= i < |frames| ==> !ShownBy(c, frames[i], z, Seen, c.kMin)
    ensures Judge(c, start, z, Batch(c, frames, z)) == Err(InsufficientPose) <==>
      && (exists i :: 0 <= i < |frames| && ShownBy(c, frames[i], z, Seen, c.kMin))
      && (Total(c, frames, z, Posed) == 0
          || forall i :: 0 <= i < |frames| ==> !ShownBy(c, frames[i], z, Posed, c.kMin))
  {
    hide Tracks, Total, AllTracks, Rate, RateIfAny, Trunc;
    assert frames != [] by {
      NothingSeen(c, z);
    }
    ReportedIffEnoughAtOnce(c, start, frames, z);
    PeakIsTheMaximum(c, frames, z, Seen);
  }

  /** Of a closed window, exactly the occupied zones appear: reported if they are reportable and
      the write is not refused, withheld otherwise. */
  lemma EveryOccupiedZoneAppears(c: Config, w: Window, reply: Zone -> Reply, rows: map<Zone, ZoneRow>,
                                 withheld: map<Zone, Reason>, z: Zone)
    requires Reported(c, w, reply, rows, withheld)
    ensures z in rows <==>
      Occupied(c, w.frames, z) && Judge(c, w.start, z, Batch(c, w.frames, z)).Ok? && reply(z) != Refused
    ensures z in withheld <==> Occupied(c, w.frames, z) && z !in rows
    ensures z in withheld ==>
      withheld[z] == match Judge(c, w.start, z, Batch(c, w.frames, z)) case Ok(_) => PersistenceFailed case Err(e) => e
    ensures Occupied(c, w.frames, z) <==> exists i, k :: ObservedAt(c, w.frames, z, i, k)
  {
    hide Judge, Batch, ObservedAt;
    TotalIsAll(c, w.frames, z, Seen, Seen);
    assert forall i, k :: CountedAt(c, w.frames, z, Seen, i, k) <==> ObservedAt(c, w.frames, z, i, k) by {
      SeenIsObserved(c, w.frames, z);
    }
  }

  lemma SeenIsObserved(c: Config, frames: seq<ZoneFrame>, z: Zone)
    ensures forall i, k :: CountedAt(c, frames, z, Seen, i, k) <==> ObservedAt(c, frames, z, i, k)
  {
    hide ZoneOf;
  }
}
