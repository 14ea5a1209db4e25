/**
 What the zone aggregates mean: windows partition the frames and their starts keep apart,
 observations are conserved, and a row is only ever about enough people seen at once.
 */
module ZoneLaws {
  import opened Wrappers
  import opened Zones
  import opened Geometry

  // ---------- Windows ----------

  function FramesOf(events: seq<Event>): seq<ZoneFrame> {
    if events == [] then []
    else
      var front, last := FramesOf(events[..|events| - 1]), events[|events| - 1];
      if last.Saw? then front + [last.frame] else front
  }

  function Concat(windows: seq<Window>): seq<ZoneFrame> {
    if windows == [] then [] else Concat(windows[..|windows| - 1]) + windows[|windows| - 1].frames
  }

  lemma ConcatSnoc(windows: seq<Window>, w: Window)
    ensures Concat(windows + [w]) == Concat(windows) + w.frames
  {
    assert (windows + [w])[..|windows|] == windows;
  }

  /** Every frame lands in exactly one window, and in order. */
  lemma {:induction false} WindowsPartitionTheFrames(events: seq<Event>, windowS: real)
    ensures var w := Run(events, windowS); Concat(w.closed) + w.current == FramesOf(events)
    ensures var w := Run(events, windowS); w.start.None? ==> w.current == [] && w.closed == []
  {
    hide Step;
    if events == [] {
    } else {
      var n := |events| - 1;
      WindowsPartitionTheFrames(events[..n], windowS);
      StepPartitions(Run(events[..n], windowS), events[n], windowS);
    }
  }

  lemma StepPartitions(w: Windowing, e: Event, windowS: real)
    requires w.start.None? ==> w.current == [] && w.closed == []
    ensures var w' := Step(w, e, windowS);
      && Concat(w'.closed) + w'.current == Concat(w.closed) + w.current + (if e.Saw? then [e.frame] else [])
      && (w'.start.None? ==> w'.current == [] && w'.closed == [])
  {
    if w.start.Some? {
      ConcatSnoc(w.closed, Window(w.start.value, w.current, false));
      ConcatSnoc(w.closed, Window(w.start.value, w.current, true));
    }
    hide Concat;
    if e.Saw? {
      assert Concat(w.closed) + (w.current + [e.frame]) == (Concat(w.closed) + w.current) + [e.frame];
    }
  }

  /** A window starting at `next` may follow `w`. */
  predicate MayFollow(w: Window, next: real, windowS: real) {
    if w.flushed then next == w.start else next - w.start >= windowS
  }

  ghost predicate Chained(w: Windowing, windowS: real) {
    && (forall i, j :: 0 <= i && j == i + 1 && j < |w.closed| ==> MayFollow(w.closed[i], w.closed[j].start, windowS))
    && (w.closed != [] ==> w.start.Some? && MayFollow(w.closed[|w.closed| - 1], w.start.value, windowS))
  }

  /** A window that a frame closed is followed by one starting at least `windowS` later; one
      that an outside flush closed is followed by one with the very same start, because the
      flush does not reset it. */
  lemma {:induction false} StartsAreChained(events: seq<Event>, windowS: real)
    ensures Chained(Run(events, windowS), windowS)
  {
    if events == [] {
    } else {
      StartsAreChained(events[..|events| - 1], windowS);
    }
  }

  lemma {:induction false} UnflushedWindows(events: seq<Event>, windowS: real)
    requires forall k :: 0 <= k < |events| ==> events[k].Saw?
    ensures var w := Run(events, windowS); forall k :: 0 <= k < |w.closed| ==> !w.closed[k].flushed
  {
    if events == [] {
    } else {
      var n := |events| - 1;
      UnflushedWindows(events[..n], windowS);
      assert Run(events, windowS) == Step(Run(events[..n], windowS), Saw(events[n].frame), windowS);
    }
  }

  lemma {:induction false} LaterStart(w: Windowing, windowS: real, i: nat, j: nat)
    requires Chained(w, windowS) && windowS >= 0.0 && i < j < |w.closed|
    requires forall k :: 0 <= k < |w.closed| ==> !w.closed[k].flushed
    ensures w.closed[j].start - w.closed[i].start >= windowS
    decreases j
  {
    assert MayFollow(w.closed[j - 1], w.closed[j].start, windowS) by {
      assert j == (j - 1) + 1;
    }
    if i == j - 1 {
    } else {
      LaterStart(w, windowS, i, j - 1);
    }
  }

  /** Without outside flushes, the starts of any two windows are at least `windowS` apart,
      whatever the order of the timestamps. */
  lemma StartsAreSpaced(events: seq<Event>, windowS: real, i: nat, j: nat)
    requires windowS >= 0.0 && forall k :: 0 <= k < |events| ==> events[k].Saw?
    requires i < j < |Run(events, windowS).closed|
    ensures Run(events, windowS).closed[j].start - Run(events, windowS).closed[i].start >= windowS
  {
    StartsAreChained(events, windowS);
    UnflushedWindows(events, windowS);
    LaterStart(Run(events, windowS), windowS, i, j);
  }

  /** The frames of a window come less than `windowS` after its start, which is the time of its
      first frame unless a flush came before it. */
  ghost predicate Timely(start: real, frames: seq<ZoneFrame>, afterFlush: bool, windowS: real) {
    && (forall k :: 0 <= k < |frames| ==> frames[k].ts - start < windowS)
    && (!afterFlush ==> frames != [] && frames[0].ts == start)
  }

  predicate AfterFlush(closed: seq<Window>, k: int) {
    0 < k <= |closed| && closed[k - 1].flushed
  }

  ghost predicate AllTimely(w: Windowing, windowS: real) {
    && (forall k :: 0 <= k < |w.closed| ==>
        Timely(w.closed[k].start, w.closed[k].frames, AfterFlush(w.closed, k), windowS))
    && (w.start.Some? ==> Timely(w.start.value, w.current, AfterFlush(w.closed, |w.closed|), windowS))
  }

  lemma StepIsTimely(w: Windowing, e: Event, windowS: real)
    requires windowS > 0.0 && AllTimely(w, windowS) && (w.start.None? ==> w.current == [] && w.closed == [])
    ensures AllTimely(Step(w, e, windowS), windowS)
  {
    hide Timely;
    var w' := Step(w, e, windowS);
    forall k | 0 <= k < |w'.closed|
      ensures Timely(w'.closed[k].start, w'.closed[k].frames, AfterFlush(w'.closed, k), windowS)
    {
      assert AfterFlush(w'.closed, k) == AfterFlush(w.closed, k);
      if k < |w.closed| {
        assert w'.closed[k] == w.closed[k];
      } else {
        assert w'.closed[k].start == w.start.value && w'.closed[k].frames == w.current;
      }
    }
    if e.Saw? {
      StepStartsTimely(w, e.frame, windowS);
    } else if w.start.Some? {
      NoFrames(w.start.value, windowS);
    }
  }

  lemma NoFrames(start: real, windowS: real)
    ensures Timely(start, [], true, windowS)
  {
  }

  lemma StepStartsTimely(w: Windowing, f: ZoneFrame, windowS: real)
    requires windowS > 0.0 && AllTimely(w, windowS) && (w.start.None? ==> w.current == [] && w.closed == [])
    ensures var w' := Step(w, Saw(f), windowS);
      Timely(w'.start.value, w'.current, AfterFlush(w'.closed, |w'.closed|), windowS)
  {
    if w.start.None? {
      assert w.current + [f] == [f];
    }
  }

  lemma {:induction false} FramesAreTimely(events: seq<Event>, windowS: real)
    requires windowS > 0.0
    ensures AllTimely(Run(events, windowS), windowS)
  {
    hide Step, AllTimely;
    if events == [] {
      NothingIsTimely(windowS);
    } else {
      FramesAreTimely(events[..|events| - 1], windowS);
      WindowsPartitionTheFrames(events[..|events| - 1], windowS);
      StepIsTimely(Run(events[..|events| - 1], windowS), events[|events| - 1], windowS);
    }
  }

  lemma NothingIsTimely(windowS: real)
    ensures AllTimely(Windowing(None, [], []), windowS)
  {
  }

  /** An outside flush in the middle of a session splits a window in two that share a start. */
  lemma FlushSplitsAWindow(a: ZoneFrame, b: ZoneFrame, windowS: real)
    requires a.ts <= b.ts < a.ts + windowS
    ensures Run([Saw(a), Flushed, Saw(b), Flushed], windowS).closed
      == [Window(a.ts, [a], true), Window(a.ts, [b], true)]
  {
    var events := [Saw(a), Flushed, Saw(b), Flushed];
    assert events[..3] == [Saw(a), Flushed, Saw(b)] && events[..3][..2] == [Saw(a), Flushed]
        && events[..3][..2][..1] == [Saw(a)];
    assert Run([Saw(a)], windowS) == Windowing(Some(a.ts), [a], []);
    assert Run([Saw(a), Flushed], windowS) == Windowing(Some(a.ts), [], [Window(a.ts, [a], true)]);
    assert Run(events[..3], windowS) == Windowing(Some(a.ts), [b], [Window(a.ts, [a], true)]);
  }

  // ---------- Conservation ----------

  /** What the zones count together. */
  ghost function SeenBy(c: Config, frames: seq<ZoneFrame>): nat {
    Total(c, frames, Front, Seen) + Total(c, frames, Mid, Seen) + Total(c, frames, Back, Seen)
  }

  ghost function SeenByAll(c: Config, windows: seq<Window>): nat {
    if windows == [] then 0 else SeenByAll(c, windows[..|windows| - 1]) + SeenBy(c, windows[|windows| - 1].frames)
  }

  function Observations(frames: seq<ZoneFrame>): nat {
    if frames == [] then 0 else Observations(frames[..|frames| - 1]) + |frames[|frames| - 1].obs|
  }

  lemma {:induction false} EachIsCountedOnce(c: Config, obs: seq<Obs>, height: int)
    ensures Count(c, obs, height, Front, Seen) + Count(c, obs, height, Mid, Seen) + Count(c, obs, height, Back, Seen)
      == |obs|
  {
    hide ZoneOf;
    if obs == [] {
    } else {
      EachIsCountedOnce(c, obs[..|obs| - 1], height);
      var z := ZoneOf(c, obs[|obs| - 1], height);
      assert z == Front || z == Mid || z == Back;
    }
  }

  lemma {:induction false} ZonesCountEverything(c: Config, frames: seq<ZoneFrame>)
    ensures SeenBy(c, frames) == Observations(frames)
  {
    hide Count;
    if frames == [] {
    } else {
      ZonesCountEverything(c, frames[..|frames| - 1]);
      EachIsCountedOnce(c, frames[|frames| - 1].obs, frames[|frames| - 1].height);
    }
  }

  lemma {:induction false} ObservationsConcat(a: seq<ZoneFrame>, b: seq<ZoneFrame>)
    ensures Observations(a + b) == Observations(a) + Observations(b)
  {
    if b == [] {
      assert a + b == a;
    } else {
      assert (a + b)[..|a + b| - 1] == a + b[..|b| - 1];
      ObservationsConcat(a, b[..|b| - 1]);
    }
  }

  lemma {:induction false} WindowsCountEverything(c: Config, windows: seq<Window>)
    ensures SeenByAll(c, windows) == Observations(Concat(windows))
  {
    hide SeenBy;
    if windows == [] {
    } else {
      var n := |windows| - 1;
      WindowsCountEverything(c, windows[..n]);
      ZonesCountEverything(c, windows[n].frames);
      ObservationsConcat(Concat(windows[..n]), windows[n].frames);
    }
  }

  /** No observation is lost or counted twice: the closed windows and the open one together
      count as many as came in. */
  lemma ObservationsAreConserved(c: Config, events: seq<Event>)
    ensures var w := Run(events, c.windowS);
      SeenByAll(c, w.closed) + SeenBy(c, w.current) == Observations(FramesOf(events))
  {
    hide SeenBy, SeenByAll;
    var w := Run(events, c.windowS);
    WindowsPartitionTheFrames(events, c.windowS);
    WindowsCountEverything(c, w.closed);
    ZonesCountEverything(c, w.current);
    ObservationsConcat(Concat(w.closed), w.current);
  }

  // ---------- Peaks ----------

  ghost predicate ShownBy(c: Config, f: ZoneFrame, z: Zone, t: Tally, k: int) {
    |Tracks(c, f.obs, f.height, z, t)| >= k
  }

  /** The peak is the true maximum over the frames: some frame reaches it and none exceeds it. */
  lemma {:induction false} PeakIsTheMaximum(c: Config, frames: seq<ZoneFrame>, z: Zone, t: Tally)
    ensures forall i :: 0 <= i < |frames| ==>
      |Tracks(c, frames[i].obs, frames[i].height, z, t)| <= Peak(c, frames, z, t)
    ensures frames != [] ==>
      exists i :: 0 <= i < |frames| && |Tracks(c, frames[i].obs, frames[i].height, z, t)| == Peak(c, frames, z, t)
  {
    hide Tracks;
    if frames == [] {
    } else {
      var n := |frames| - 1;
      PeakIsTheMaximum(c, frames[..n], z, t);
      forall i | 0 <= i < |frames|
        ensures |Tracks(c, frames[i].obs, frames[i].height, z, t)| <= Peak(c, frames, z, t)
      {
        if i < n {
          assert frames[..n][i] == frames[i];
        }
      }
      if frames[..n] == [] || Peak(c, frames[..n], z, t) <= |Tracks(c, frames[n].obs, frames[n].height, z, t)| {
        assert |Tracks(c, frames[n].obs, frames[n].height, z, t)| == Peak(c, frames, z, t);
      } else {
        var i :| 0 <= i < n
            && |Tracks(c, frames[..n][i].obs, frames[..n][i].height, z, t)| == Peak(c, frames[..n], z, t);
        assert frames[..n][i] == frames[i];
      }
    }
  }

  /** The peak never exceeds the number of track ids seen over the whole window, which counts a
      person once per id they are ever given. */
  lemma {:induction false} PeakAtMostUnion(c: Config, frames: seq<ZoneFrame>, z: Zone)
    ensures Peak(c, frames, z, Seen) <= |AllTracks(c, frames, z)|
  {
    hide Tracks;
    if frames == [] {
    } else {
      var n := |frames| - 1;
      PeakAtMostUnion(c, frames[..n], z);
      SubsetSize(AllTracks(c, frames[..n], z), AllTracks(c, frames, z));
      SubsetSize(Tracks(c, frames[n].obs, frames[n].height, z, Seen), AllTracks(c, frames, z));
    }
  }

  /** Frame `i` alone shows every track the zone had over the window. */
  ghost predicate ShowsAll(c: Config, frames: seq<ZoneFrame>, z: Zone, i: nat)
    requires i < |frames|
  {
    Tracks(c, frames[i].obs, frames[i].height, z, Seen) == AllTracks(c, frames, z)
  }

  lemma {:induction false} AllTracksAreEverybody(c: Config, frames: seq<ZoneFrame>, z: Zone, i: nat)
    requires i < |frames|
    ensures Tracks(c, frames[i].obs, frames[i].height, z, Seen) <= AllTracks(c, frames, z)
  {
    hide Tracks;
    var n := |frames| - 1;
    if i == n {
    } else {
      AllTracksAreEverybody(c, frames[..n], z, i);
    }
  }

  /** The peak counts the distinct tracks of the window exactly if they were all in view at once. */
  lemma PeakIsUnionIff(c: Config, frames: seq<ZoneFrame>, z: Zone)
    requires frames != []
    ensures Peak(c, frames, z, Seen) == |AllTracks(c, frames, z)| <==>
      exists i :: 0 <= i < |frames| && ShowsAll(c, frames, z, i)
  {
    hide Tracks, Peak, AllTracks;
    PeakIsTheMaximum(c, frames, z, Seen);
    PeakAtMostUnion(c, frames, z);
    if Peak(c, frames, z, Seen) == |AllTracks(c, frames, z)| {
      var i :| 0 <= i < |frames| && |Tracks(c, frames[i].obs, frames[i].height, z, Seen)| == Peak(c, frames, z, Seen);
      AllTracksAreEverybody(c, frames, z, i);
      SubsetOfSameSize(Tracks(c, frames[i].obs, frames[i].height, z, Seen), AllTracks(c, frames, z));
      assert ShowsAll(c, frames, z, i);
    }
  }

  lemma SubsetOfSameSize(a: set<int>, b: set<int>)
    requires a <= b && |a| == |b|
    ensures a == b
  {
    assert b == a + (b - a);
    assert |b| == |a| + |b - a|;
  }

  // ---------- Rows ----------

  lemma CountsNest(c: Config, obs: seq<Obs>, height: int, z: Zone)
    ensures Count(c, obs, height, z, Attending) <= Count(c, obs, height, z, Posed) <= Count(c, obs, height, z, Seen)
    ensures Count(c, obs, height, z, HeadDown) <= Count(c, obs, height, z, Posed)
    ensures Count(c, obs, height, z, Phone) <= Count(c, obs, height, z, PhoneKnown)
    ensures Count(c, obs, height, z, Still) <= Count(c, obs, height, z, StillKnown)
  {
    hide ZoneOf, Count;
    CountGrows(c, obs, height, z, Attending, Posed);
    CountGrows(c, obs, height, z, Posed, Seen);
    CountGrows(c, obs, height, z, HeadDown, Posed);
    CountGrows(c, obs, height, z, Phone, PhoneKnown);
    CountGrows(c, obs, height, z, Still, StillKnown);
  }

  /** A weaker tally counts no fewer observations. */
  lemma {:induction false} CountGrows(c: Config, obs: seq<Obs>, height: int, z: Zone, t: Tally, u: Tally)
    requires forall s :: Shows(s, t) ==> Shows(s, u)
    ensures Count(c, obs, height, z, t) <= Count(c, obs, height, z, u)
  {
    hide ZoneOf, Shows;
    if obs == [] {
    } else {
      CountGrows(c, obs[..|obs| - 1], height, z, t, u);
    }
  }

  lemma {:induction false} TotalsNest(c: Config, frames: seq<ZoneFrame>, z: Zone)
    ensures Total(c, frames, z, Attending) <= Total(c, frames, z, Posed) <= Total(c, frames, z, Seen)
    ensures Total(c, frames, z, HeadDown) <= Total(c, frames, z, Posed)
    ensures Total(c, frames, z, Phone) <= Total(c, frames, z, PhoneKnown)
    ensures Total(c, frames, z, Still) <= Total(c, frames, z, StillKnown)
  {
    hide Count;
    if frames == [] {
    } else {
      TotalsNest(c, frames[..|frames| - 1], z);
      CountsNest(c, frames[|frames| - 1].obs, frames[|frames| - 1].height, z);
    }
  }

  /** `share` is num / den and lies between 0 and 1; None stands for an empty denominator. */
  predicate IsShare(share: Option<real>, num: nat, den: nat) {
    if share.Some? then den > 0 && 0.0 <= share.value <= 1.0 && share.value * den as real == num as real else den == 0
  }

  lemma RateIsAShare(num: nat, den: nat)
    requires num <= den
    ensures Rate(num, den) <= 1.0 && IsShare(RateIfAny(num, den), num, den)
    ensures den > 0 ==> IsShare(Some(Rate(num, den)), num, den)
  {
    if den != 0 {
      QuotientBounds(num as real, den as real);
      QuotientTimes(num as real, den as real);
    }
  }

  /** A zone with anything to show is reported exactly if some frame shows at least `k_min` of
      its tracks at once, some frame shows the pose of at least `k_min` of them at once, and
      at least one pose was seen. */
  lemma ReportedIffEnoughAtOnce(c: Config, start: real, frames: seq<ZoneFrame>, z: Zone)
    requires Occupied(c, frames, z)
    ensures Judge(c, start, z, Batch(c, frames, z)).Ok?
       <==> && (exists i :: 0 <= i < |frames| && ShownBy(c, frames[i], z, Seen, c.kMin))
            && (exists i :: 0 <= i < |frames| && ShownBy(c, frames[i], z, Posed, c.kMin))
            && Total(c, frames, z, Posed) > 0
  {
    hide Tracks, Total, AllTracks, Rate, RateIfAny;
    assert frames != [] by {
      NothingSeen(c, z);
    }
    PeakIsTheMaximum(c, frames, z, Seen);
    PeakIsTheMaximum(c, frames, z, Posed);
    var i :| 0 <= i < |frames| && |Tracks(c, frames[i].obs, frames[i].height, z, Seen)| == Peak(c, frames, z, Seen);
    var j :| 0 <= j < |frames| && |Tracks(c, frames[j].obs, frames[j].height, z, Posed)| == Peak(c, frames, z, Posed);
    assert ShownBy(c, frames[i], z, Seen, Peak(c, frames, z, Seen))
        && ShownBy(c, frames[j], z, Posed, Peak(c, frames, z, Posed));
  }

  lemma NothingSeen(c: Config, z: Zone)
    ensures Total(c, [], z, Seen) == 0
  {
  }

  predicate RowFits(c: Config, start: real, z: Zone, w: ZoneWindow, row: ZoneRow) {
    && row.zone == z && row.windowStart == c.sessionStart + start && row.nTracked == w.peak >= c.kMin
        && w.posePeak >= c.kMin
    && row.nTracked <= row.enrolled && (z in c.enrolled ==> c.enrolled[z] <= row.enrolled)
    && (row.enrolled > 0 ==> IsShare(Some(row.coverage), row.nTracked, row.enrolled)) && row.coverage <= 1.0
    && IsShare(Some(row.vnei), w.attending, w.attendObs) && IsShare(Some(row.headDownRate), w.headDown, w.attendObs)
    && IsShare(row.phoneRate, w.phone, w.phoneObs) && IsShare(row.stillRate, w.still, w.stillObs)
  }

  /** What a row says is true of its window. `n_tracked` tracks were visible at once, never
      more; the enrolment it is set against is at least that; coverage and rates are shares
      between 0 and 1 of the observations that could tell, so attention is an average over
      visible, pose-observable tracks alone. */
  lemma RowsAreTrue(c: Config, start: real, frames: seq<ZoneFrame>, z: Zone)
    ensures var (w, verdict) := (Batch(c, frames, z), Judge(c, start, z, Batch(c, frames, z)));
      verdict.Ok? ==> RowFits(c, start, z, w, verdict.value)
  {
    hide Total, Peak, AllTracks, Judge, Rate, RowFits;
    TotalsNest(c, frames, z);
    if Judge(c, start, z, Batch(c, frames, z)).Ok? {
      RowOf(c, start, z, Batch(c, frames, z));
    }
  }

  lemma RowOf(c: Config, start: real, z: Zone, w: ZoneWindow)
    requires Judge(c, start, z, w).Ok?
    requires w.attending <= w.attendObs && w.headDown <= w.attendObs && w.phone <= w.phoneObs && w.still <= w.stillObs
    ensures RowFits(c, start, z, w, Judge(c, start, z, w).value)
  {
    hide Rate, RateIfAny, IsShare;
    RateIsAShare(w.attending, w.attendObs);
    RateIsAShare(w.headDown, w.attendObs);
    RateIsAShare(w.phone, w.phoneObs);
    RateIsAShare(w.still, w.stillObs);
    RateIsAShare(w.peak, Judge(c, start, z, w).value.enrolled);
  }

  /** A share of the enrolment, capped at 1. */
  function Capped(tracks: nat, enrolled: nat): real {
    if Rate(tracks, enrolled) > 1.0 then 1.0 else Rate(tracks, enrolled)
  }

  /** A row's coverage is the share of the distinct tracks of its window, as the module describes
      it, exactly if they were all in view at once or as many as are enrolled were. */
  lemma CoverageIsOfDistinctTracksIff(c: Config, start: real, frames: seq<ZoneFrame>, z: Zone)
    requires Judge(c, start, z, Batch(c, frames, z)).Ok?
    ensures var row := Judge(c, start, z, Batch(c, frames, z)).value;
      row.coverage == Capped(|AllTracks(c, frames, z)|, row.enrolled) <==>
      (exists i :: 0 <= i < |frames| && ShowsAll(c, frames, z, i)) || row.nTracked == row.enrolled
  {
    hide Total, Peak, AllTracks, ShowsAll, Rate, Capped;
    assert frames != [] by {
      NothingPosed(c, z);
    }
    PeakIsUnionIff(c, frames, z);
    PeakAtMostUnion(c, frames, z);
    var row := Judge(c, start, z, Batch(c, frames, z)).value;
    assert row.nTracked == Peak(c, frames, z, Seen) <= row.enrolled;
    CappedIsPeakIff(row.nTracked, |AllTracks(c, frames, z)|, row.enrolled);
    assert row.coverage == Capped(row.nTracked, row.enrolled) by {
      CoverageIsCapped(c, start, z, Batch(c, frames, z));
    }
  }

  lemma NothingPosed(c: Config, z: Zone)
    ensures Total(c, [], z, Posed) == 0
  {
  }

  lemma CoverageIsCapped(c: Config, start: real, z: Zone, w: ZoneWindow)
    requires Judge(c, start, z, w).Ok?
    ensures var row := Judge(c, start, z, w).value; row.coverage == Capped(row.nTracked, row.enrolled)
  {
    hide Rate, RateIfAny;
  }

  lemma CappedIsPeakIff(peak: nat, distinct: nat, enrolled: nat)
    requires peak <= distinct && peak <= enrolled
    ensures Capped(peak, enrolled) == Capped(distinct, enrolled) <==> peak == distinct || peak == enrolled
  {
    if enrolled > 0 {
      var p, d, e := peak as real, distinct as real, enrolled as real;
      QuotientBounds(p, e);
      QuotientTimes(p, e);
      QuotientTimes(d, e);
      if distinct <= enrolled {
        QuotientBounds(d, e);
      }
    }
  }

  /** Two students who pass one after the other: one of them at a time, two over the window. The
      row says half of the two enrolled were covered, not all. */
  lemma OneAfterTheOther(first: int, second: int)
    requires first != second
    ensures var c, seen := Config(60.0, 0.6, 0.3, 1, map[Front := 2], 0.0), Signals(Some(true), None, None, None);
      var frames := [ZoneFrame([Obs(first, 9, 9, seen)], 10, 0.0), ZoneFrame([Obs(second, 9, 9, seen)], 10, 1.0)];
      var verdict := Judge(c, 0.0, Front, Batch(c, frames, Front));
      && Peak(c, frames, Front, Seen) == 1 && |AllTracks(c, frames, Front)| == 2
      && verdict.Ok? && verdict.value.coverage == 0.5 && Capped(2, verdict.value.enrolled) == 1.0
  {
    var c, seen := Config(60.0, 0.6, 0.3, 1, map[Front := 2], 0.0), Signals(Some(true), None, None, None);
    var a, b := ZoneFrame([Obs(first, 9, 9, seen)], 10, 0.0), ZoneFrame([Obs(second, 9, 9, seen)], 10, 1.0);
    OneByItself(c, a, first);
    OneByItself(c, b, second);
    TwoFrames(c, a, b, first, second);
    hide Total, AllTracks, Peak;
    assert Rate(1, 2) == 0.5 && Rate(2, 2) == 1.0;
  }

  lemma TwoFrames(c: Config, a: ZoneFrame, b: ZoneFrame, first: int, second: int)
    requires Tracks(c, a.obs, a.height, Front, Seen) == Tracks(c, a.obs, a.height, Front, Posed) == {first}
    requires Tracks(c, b.obs, b.height, Front, Seen) == Tracks(c, b.obs, b.height, Front, Posed) == {second}
    requires Count(c, a.obs, a.height, Front, Posed) == Count(c, b.obs, b.height, Front, Posed) == 1
    ensures AllTracks(c, [a, b], Front) == {first, second} && Total(c, [a, b], Front, Posed) == 2
    ensures Peak(c, [a, b], Front, Seen) == Peak(c, [a, b], Front, Posed) == 1
  {
    hide Tracks, Count;
    assert [a, b][..1] == [a] && [a][..0] == [];
    assert AllTracks(c, [a], Front) == AllTracks(c, [], Front) + {first};
    assert Total(c, [a], Front, Posed) == Total(c, [], Front, Posed) + 1;
    assert forall t :: Peak(c, [a], Front, t) == Larger(0, |Tracks(c, a.obs, a.height, Front, t)|);
    assert forall t ::
        Peak(c, [a, b], Front, t) == Larger(Peak(c, [a], Front, t), |Tracks(c, b.obs, b.height, Front, t)|);
  }

  lemma OneByItself(c: Config, f: ZoneFrame, id: int)
    requires |f.obs| == 1 && f.obs[0].trackId == id && ZoneOf(c, f.obs[0], f.height) == Front
    requires f.obs[0].signals.attending.Some?
    ensures Tracks(c, f.obs, f.height, Front, Seen) == Tracks(c, f.obs, f.height, Front, Posed) == {id}
    ensures Count(c, f.obs, f.height, Front, Posed) == 1
  {
    assert Counts(c, f.obs[0], f.height, Front, Seen) && Counts(c, f.obs[0], f.height, Front, Posed);
    assert f.obs[..0] == [];
  }
}
