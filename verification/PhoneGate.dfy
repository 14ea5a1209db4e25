/**
 Temporal confirmation of phones, backend/proctor/engine.py: a phone near a face counts once
 it has been sighted in at least two frames close in time and place.

 `Advance` is what one frame does to the evidence of one track; the lemmas read a
 confirmation back into the frames that caused it.
 */
module PhoneGate {
  import opened Wrappers

  /** A pixel box. */
  datatype PixelBox = PixelBox(x1: int, y1: int, x2: int, y2: int)

  datatype Evidence = Evidence(timestamps: seq<real>, box: PixelBox)

  /** What one frame shows of one track: whether it is in view, its face box, and the phone
      attributed to it, if any. */
  datatype Sight = Sight(ts: real, active: bool, face: PixelBox, phone: Option<PixelBox>)

  function CentreX(b: PixelBox): real {
    (b.x1 + b.x2) as real / 2.0
  }

  function CentreY(b: PixelBox): real {
    (b.y1 + b.y2) as real / 2.0
  }

  function Sq(x: real): real {
    x * x
  }

  function SqDistance(a: PixelBox, b: PixelBox): real {
    Sq(CentreX(a) - CentreX(b)) + Sq(CentreY(a) - CentreY(b))
  }

  function SqDiagonal(b: PixelBox): real {
    Sq((b.x2 - b.x1) as real) + Sq((b.y2 - b.y1) as real)
  }

  /** The phone moved by at most 1.25 face diagonals, a diagonal counting as at least one
      pixel; lengths are compared by their squares. */
  predicate Compatible(previous: PixelBox, current: PixelBox, face: PixelBox) {
    var d := SqDiagonal(face);
    SqDistance(previous, current) <= 1.5625 * (if d >= 1.0 then d else 1.0)
  }

  // ---------- One track ----------

  function Recent(timestamps: seq<real>, cutoff: real): seq<real> {
    if timestamps == [] then []
    else
      var front, last := Recent(timestamps[..|timestamps| - 1], cutoff), timestamps[|timestamps| - 1];
      if last >= cutoff then front + [last] else front
  }

  /** The evidence right after a sighting, before pruning. */
  function Sighted(e: Option<Evidence>, s: Sight, window: real): Evidence
    requires s.phone.Some?
  {
    var base := if e.Some? && Compatible(e.value.box, s.phone.value, s.face)
                then Recent(e.value.timestamps, s.ts - window) else [];
    Evidence(if base == [] || s.ts > base[|base| - 1] then base + [s.ts] else base, s.phone.value)
  }

  /** Configuration can raise the number of sightings required, never lower it below two. */
  predicate Confirms(e: Evidence, hits: int) {
    |e.timestamps| >= 2 && |e.timestamps| >= hits
  }

  function Prune(e: Option<Evidence>, s: Sight, window: real): Option<Evidence> {
    if e.Some? && s.active && e.value.timestamps != []
       && e.value.timestamps[|e.value.timestamps| - 1] >= s.ts - window
    then e else None
  }

  function Advance(e: Option<Evidence>, s: Sight, window: real): Option<Evidence> {
    Prune(if s.phone.Some? then Some(Sighted(e, s, window)) else e, s, window)
  }

  function EvidenceAfter(sights: seq<Sight>, window: real): Option<Evidence> {
    if sights == [] then None
    else Advance(EvidenceAfter(sights[..|sights| - 1], window), sights[|sights| - 1], window)
  }

  /** The last frame confirms a phone on the track. */
  predicate ConfirmsLast(sights: seq<Sight>, window: real, hits: int) {
    && sights != [] && sights[|sights| - 1].phone.Some?
    && Confirms(Sighted(EvidenceAfter(sights[..|sights| - 1], window), sights[|sights| - 1], window), hits)
  }

  // ---------- What evidence stands for ----------

  /** Frames `p` and `q` are consecutive sightings. */
  ghost predicate NextSighting(sights: seq<Sight>, p: int, q: int) {
    && 0 <= p < q < |sights| && sights[p].phone.Some? && sights[q].phone.Some?
    && forall k :: p < k < q ==> sights[k].phone.None?
  }

  /** From frame `from` on, the phone moved compatibly from each sighting to the next. */
  ghost predicate Linked(sights: seq<Sight>, from: int) {
    forall p, q :: from <= p && NextSighting(sights, p, q) ==>
        Compatible(sights[p].phone.value, sights[q].phone.value, sights[q].face)
  }

  ghost predicate InView(sights: seq<Sight>, from: int) {
    forall k :: 0 <= from <= k < |sights| ==> sights[k].active
  }

  /** Frames `frames`, in order, are sightings at exactly the given, strictly increasing times. */
  ghost predicate Witnesses(sights: seq<Sight>, frames: seq<nat>, timestamps: seq<real>) {
    && |frames| == |timestamps| > 0
    && (forall k :: 0 <= k < |frames| ==>
        frames[k] < |sights| && sights[frames[k]].phone.Some? && sights[frames[k]].ts == timestamps[k])
    && (forall j, k :: 0 <= j < k < |frames| ==> frames[j] < frames[k] && timestamps[j] < timestamps[k])
  }

  ghost predicate LastSighting(sights: seq<Sight>, z: int) {
    0 <= z < |sights| && sights[z].phone.Some? && forall k :: z < k < |sights| ==> sights[k].phone.None?
  }

  /** Evidence stands for sightings on a track that stayed in view, each compatible with the
      one before; its box is the latest of them. */
  ghost predicate Explains(sights: seq<Sight>, e: Evidence, frames: seq<nat>) {
    && frames != [] && e.timestamps != [] && Witnesses(sights, frames, e.timestamps)
    && InView(sights, frames[0]) && Linked(sights, frames[0])
    && exists z :: frames[0] <= z < |sights| && LastSighting(sights, z) && sights[z].phone == Some(e.box)
  }

  /** Phones are only attributed to tracks in view. */
  ghost predicate Attributed(sights: seq<Sight>) {
    forall k :: 0 <= k < |sights| ==> sights[k].phone.Some? ==> sights[k].active
  }

  lemma {:induction false} RecentAreKept(timestamps: seq<real>, cutoff: real) returns (kept: seq<nat>)
    ensures |kept| == |Recent(timestamps, cutoff)|
    ensures forall k :: 0 <= k < |kept| ==>
      kept[k] < |timestamps| && Recent(timestamps, cutoff)[k] == timestamps[kept[k]] >= cutoff
    ensures forall j, k :: 0 <= j < k < |kept| ==> kept[j] < kept[k]
  {
    if timestamps == [] {
      kept := [];
    } else {
      var n := |timestamps| - 1;
      var front := timestamps[..n];
      kept := RecentAreKept(front, cutoff);
      assert forall k :: 0 <= k < |kept| ==> front[kept[k]] == timestamps[kept[k]];
      RecentSnoc(front, timestamps[n], cutoff);
      assert front + [timestamps[n]] == timestamps;
      hide Recent;
      if timestamps[n] >= cutoff {
        kept := kept + [n];
      }
    }
  }

  lemma RecentSnoc(front: seq<real>, last: real, cutoff: real)
    ensures Recent(front + [last], cutoff)
         == if last >= cutoff then Recent(front, cutoff) + [last] else Recent(front, cutoff)
  {
    assert (front + [last])[..|front|] == front;
  }

  /** Dropping old times keeps witnesses for the others. */
  lemma RecentWitnesses(sights: seq<Sight>, frames: seq<nat>, timestamps: seq<real>, cutoff: real)
    returns (frames': seq<nat>)
    requires Witnesses(sights, frames, timestamps) && Recent(timestamps, cutoff) != []
    ensures Witnesses(sights, frames', Recent(timestamps, cutoff)) && frames[0] <= frames'[0]
  {
    var kept := RecentAreKept(timestamps, cutoff);
    frames' := seq(|kept|, k requires 0 <= k < |kept| => frames[kept[k]]);
    if kept[0] > 0 {
      assert frames[0] < frames[kept[0]];
    }
  }

  lemma NewSightLinks(sights: seq<Sight>, s: Sight, from: int, z: int)
    requires Linked(sights, from) && from <= z && LastSighting(sights, z) && s.phone.Some?
    requires Compatible(sights[z].phone.value, s.phone.value, s.face)
    ensures Linked(sights + [s], from)
  {
    hide Compatible;
    var all := sights + [s];
    forall p, q | from <= p && NextSighting(all, p, q)
      ensures Compatible(all[p].phone.value, all[q].phone.value, all[q].face)
    {
      assert forall k :: 0 <= k < |sights| ==> all[k] == sights[k];
      if q < |sights| {
        assert NextSighting(sights, p, q);
      } else {
        assert p == z;
      }
    }
  }

  lemma IdleLinks(sights: seq<Sight>, s: Sight, from: int)
    requires Linked(sights, from) && s.phone.None?
    ensures Linked(sights + [s], from)
  {
    hide Compatible;
    var all := sights + [s];
    forall p, q | from <= p && NextSighting(all, p, q)
      ensures Compatible(all[p].phone.value, all[q].phone.value, all[q].face)
    {
      assert forall k :: 0 <= k < |sights| ==> all[k] == sights[k];
      assert NextSighting(sights, p, q);
    }
  }

  lemma WitnessesStay(sights: seq<Sight>, s: Sight, frames: seq<nat>, timestamps: seq<real>)
    requires Witnesses(sights, frames, timestamps)
    ensures Witnesses(sights + [s], frames, timestamps)
    ensures s.phone.Some? && s.ts > timestamps[|timestamps| - 1] ==>
      Witnesses(sights + [s], frames + [|sights|], timestamps + [s.ts])
    ensures InView(sights, frames[0]) && s.active ==> InView(sights + [s], frames[0])
  {
  }

  /** A fresh sighting starts an explanation of its own. */
  lemma StartOver(sights: seq<Sight>, s: Sight)
    requires s.phone.Some? && s.active
    ensures Explains(sights + [s], Evidence([s.ts], s.phone.value), [|sights|])
  {
    hide Compatible;
    assert LastSighting(sights + [s], |sights|);
  }

  lemma NewIsLast(sights: seq<Sight>, s: Sight)
    requires s.phone.Some?
    ensures LastSighting(sights + [s], |sights|) && (sights + [s])[|sights|].phone == s.phone
  {
  }

  /** A compatible sighting extends what the evidence stands for. */
  lemma Extend(sights: seq<Sight>, s: Sight, e: Evidence, frames: seq<nat>, window: real) returns (frames': seq<nat>)
    requires Explains(sights, e, frames) && s.phone.Some? && s.active && Compatible(e.box, s.phone.value, s.face)
    ensures Explains(sights + [s], Sighted(Some(e), s, window), frames')
  {
    hide Compatible, Explains, Recent;
    var recent := Recent(e.timestamps, s.ts - window);
    if recent == [] {
      frames' := [|sights|];
      StartOver(sights, s);
      assert Sighted(Some(e), s, window) == Evidence([s.ts], s.phone.value);
    } else {
      frames' := ExtendRecent(sights, s, e, frames, window);
      assert Sighted(Some(e), s, window)
          == Evidence(if s.ts > recent[|recent| - 1] then recent + [s.ts] else recent, s.phone.value);
    }
  }

  lemma ExtendRecent(sights: seq<Sight>, s: Sight, e: Evidence, frames: seq<nat>, window: real)
    returns (frames': seq<nat>)
    requires Explains(sights, e, frames) && s.phone.Some? && s.active && Compatible(e.box, s.phone.value, s.face)
    requires Recent(e.timestamps, s.ts - window) != []
    ensures var recent := Recent(e.timestamps, s.ts - window);
      Explains(sights + [s], Evidence(if s.ts > recent[|recent| - 1] then recent + [s.ts] else recent, s.phone.value),
               frames')
  {
    hide Compatible, Linked, InView, Witnesses, Recent, LastSighting;
    var recent := Recent(e.timestamps, s.ts - window);
    var z :| frames[0] <= z < |sights| && LastSighting(sights, z) && sights[z].phone == Some(e.box);
    var kept := RecentWitnesses(sights, frames, e.timestamps, s.ts - window);
    NewSightLinks(sights, s, frames[0], z);
    LaterStart(sights, s, frames, kept, e.timestamps, recent);
    WitnessesStay(sights, s, kept, recent);
    NewIsLast(sights, s);
    frames' := if s.ts > recent[|recent| - 1] then kept + [|sights|] else kept;
  }

  lemma LaterStart(sights: seq<Sight>, s: Sight, frames: seq<nat>, kept: seq<nat>, timestamps: seq<real>,
                   recent: seq<real>)
    requires Witnesses(sights, frames, timestamps) && Witnesses(sights, kept, recent) && frames[0] <= kept[0]
    ensures kept[0] < |sights| && |kept| == |recent|
    ensures InView(sights, frames[0]) ==> InView(sights, kept[0])
    ensures Linked(sights + [s], frames[0]) ==> Linked(sights + [s], kept[0])
  {
    hide Compatible, NextSighting;
  }

  /** A frame without a phone leaves the explanation standing while the track stays in view. */
  lemma Idle(sights: seq<Sight>, s: Sight, e: Evidence, frames: seq<nat>)
    requires Explains(sights, e, frames) && s.phone.None? && s.active
    ensures Explains(sights + [s], e, frames)
  {
    hide Compatible, Linked, InView, Witnesses;
    var z :| frames[0] <= z < |sights| && LastSighting(sights, z) && sights[z].phone == Some(e.box);
    assert LastSighting(sights + [s], z);
    WitnessesStay(sights, s, frames, e.timestamps);
    IdleLinks(sights, s, frames[0]);
  }

  /** All times are inside the window ending at `ts`; the last may be `ts` itself. */
  ghost predicate InWindow(timestamps: seq<real>, ts: real, window: real) {
    forall k :: 0 <= k < |timestamps| ==> timestamps[k] >= ts - window || (k == |timestamps| - 1 && timestamps[k] == ts)
  }

  lemma SightedInWindow(e: Option<Evidence>, s: Sight, window: real)
    requires s.phone.Some?
    ensures InWindow(Sighted(e, s, window).timestamps, s.ts, window)
  {
    hide Compatible;
    if e.Some? {
      var kept := RecentAreKept(e.value.timestamps, s.ts - window);
    }
  }

  lemma SightedIsExplained(sights: seq<Sight>, s: Sight, e: Option<Evidence>, before: seq<nat>, window: real)
    returns (frames: seq<nat>)
    requires s.phone.Some? && s.active
    requires e.Some? ==> Explains(sights, e.value, before)
    ensures Explains(sights + [s], Sighted(e, s, window), frames)
    ensures InWindow(Sighted(e, s, window).timestamps, s.ts, window)
  {
    hide Explains, InWindow;
    SightedInWindow(e, s, window);
    if e.Some? && Compatible(e.value.box, s.phone.value, s.face) {
      frames := Extend(sights, s, e.value, before, window);
    } else {
      frames := [|sights|];
      StartOver(sights, s);
      assert [] + [s.ts] == [s.ts];
    }
  }

  lemma {:induction false} EvidenceIsExplained(sights: seq<Sight>, window: real) returns (frames: seq<nat>)
    requires Attributed(sights)
    ensures var e := EvidenceAfter(sights, window); e.Some? ==> Explains(sights, e.value, frames)
  {
    frames := [];
    if sights == [] {
    } else {
      var n := |sights| - 1;
      var before := EvidenceIsExplained(sights[..n], window);
      assert sights == sights[..n] + [sights[n]];
      var s := sights[n];
      if s.active && s.phone.Some? {
        frames := SightedIsExplained(sights[..n], s, EvidenceAfter(sights[..n], window), before, window);
      } else if s.active && EvidenceAfter(sights[..n], window).Some? {
        frames := before;
        Idle(sights[..n], s, EvidenceAfter(sights[..n], window).value, before);
      }
    }
  }

  lemma TwoAreInside(sights: seq<Sight>, frames: seq<nat>, timestamps: seq<real>, ts: real, window: real)
    requires Witnesses(sights, frames, timestamps) && InWindow(timestamps, ts, window) && |timestamps| >= 2
    ensures forall k :: 0 <= k < |timestamps| ==> timestamps[k] >= ts - window
  {
    var n := |timestamps| - 1;
    assert timestamps[n - 1] >= ts - window && timestamps[n - 1] < timestamps[n];
  }

  lemma NoneInTheFuture(sights: seq<Sight>, frames: seq<nat>, timestamps: seq<real>)
    requires sights != [] && Witnesses(sights, frames, timestamps) && TimeOrdered(sights)
    ensures forall k :: 0 <= k < |timestamps| ==> timestamps[k] <= sights[|sights| - 1].ts
  {
  }

  ghost predicate TimeOrdered(sights: seq<Sight>) {
    forall j, k :: 0 <= j <= k < |sights| ==> sights[j].ts <= sights[k].ts
  }

  /** A confirmation names at least two frames (and as many as configured) with strictly
      increasing times inside the window, all on one track that stayed in view from the first
      to the last, the phone moving compatibly from each sighting to the next. In particular
      repeating a frame, or several boxes in one frame, never confirms. */
  lemma ConfirmedPhoneWasSightedTwice(sights: seq<Sight>, window: real, hits: int)
    returns (frames: seq<nat>, timestamps: seq<real>)
    requires Attributed(sights) && ConfirmsLast(sights, window, hits)
    ensures |frames| >= 2 && |frames| >= hits && Witnesses(sights, frames, timestamps)
    ensures forall k :: 0 <= k < |timestamps| ==> timestamps[k] >= sights[|sights| - 1].ts - window
    ensures InView(sights, frames[0]) && Linked(sights, frames[0])
    ensures TimeOrdered(sights) ==> forall k :: 0 <= k < |timestamps| ==> timestamps[k] <= sights[|sights| - 1].ts
  {
    hide Compatible, NextSighting, Linked, InView, Witnesses, LastSighting, InWindow, TimeOrdered, Sighted;
    var n := |sights| - 1;
    var e := EvidenceAfter(sights[..n], window);
    AttributedPrefix(sights, n);
    var before := EvidenceIsExplained(sights[..n], window);
    assert sights == sights[..n] + [sights[n]];
    frames := SightedIsExplained(sights[..n], sights[n], e, before, window);
    timestamps := Sighted(e, sights[n], window).timestamps;
    TwoAreInside(sights, frames, timestamps, sights[n].ts, window);
    if TimeOrdered(sights) {
      NoneInTheFuture(sights, frames, timestamps);
    }
    assert |frames| == |timestamps| by {
      SameLength(sights, frames, timestamps);
    }
  }

  lemma AttributedPrefix(sights: seq<Sight>, n: nat)
    requires Attributed(sights) && n < |sights|
    ensures Attributed(sights[..n]) && (sights[n].phone.Some? ==> sights[n].active)
  {
  }

  lemma SameLength(sights: seq<Sight>, frames: seq<nat>, timestamps: seq<real>)
    requires Witnesses(sights, frames, timestamps)
    ensures |frames| == |timestamps|
  {
  }

  // ---------- When a phone is confirmed ----------

  /** A phone moved compatibly if its centre moved by at most 1.25 times the diagonal of the face, the
      diagonal counting as at least one pixel: as squares, in quarter pixels. */
  lemma CompatibleIff(previous: PixelBox, current: PixelBox, face: PixelBox)
    ensures var (dx, dy) := (previous.x1 + previous.x2 - current.x1 - current.x2,
                             previous.y1 + previous.y2 - current.y1 - current.y2);
      var diagonal2 := (face.x2 - face.x1) * (face.x2 - face.x1) + (face.y2 - face.y1) * (face.y2 - face.y1);
      Compatible(previous, current, face) <==>
        4 * (dx * dx + dy * dy) <= 25 * (if diagonal2 >= 1 then diagonal2 else 1)
  {
    var (dx, dy) := (previous.x1 + previous.x2 - current.x1 - current.x2,
                     previous.y1 + previous.y2 - current.y1 - current.y2);
    HalfSquared(dx, CentreX(previous) - CentreX(current));
    HalfSquared(dy, CentreY(previous) - CentreY(current));
    WholeSquared(face.x2 - face.x1);
    WholeSquared(face.y2 - face.y1);
    hide Sq;
  }

  lemma HalfSquared(d: int, x: real)
    requires x == d as real / 2.0
    ensures 4.0 * Sq(x) == (d * d) as real
  {
  }

  lemma WholeSquared(d: int)
    ensures Sq(d as real) == (d * d) as real
  {
  }

  /** From frame `a` on the track was in view, and the phone, seen first in frame `a`, moved
      compatibly from each sighting to the next, seen at later times each and all inside the
      window of the last frame. */
  ghost predicate SeenThroughout(sights: seq<Sight>, a: int, window: real) {
    && 0 <= a < |sights| && sights[a].phone.Some? && TimeOrdered(sights)
    && InView(sights, a) && Linked(sights, a)
    && (forall j, k :: a <= j < k < |sights| && sights[j].phone.Some? && sights[k].phone.Some? ==>
          sights[j].ts < sights[k].ts)
    && sights[a].ts >= sights[|sights| - 1].ts - window
  }

  /** The sightings from frame `a` on. */
  ghost function SightingsSince(sights: seq<Sight>, a: nat): nat
    requires a <= |sights|
  {
    if |sights| == a then 0
    else SightingsSince(sights[..|sights| - 1], a) + if sights[|sights| - 1].phone.Some? then 1 else 0
  }

  /** The recorded times from `from` on. */
  ghost function TimesSince(timestamps: seq<real>, from: real): nat {
    if timestamps == [] then 0
    else TimesSince(timestamps[..|timestamps| - 1], from) + if timestamps[|timestamps| - 1] >= from then 1 else 0
  }

  lemma TimesSinceSnoc(timestamps: seq<real>, last: real, from: real)
    ensures TimesSince(timestamps + [last], from) == TimesSince(timestamps, from) + if last >= from then 1 else 0
  {
    assert (timestamps + [last])[..|timestamps|] == timestamps;
  }

  lemma {:induction false} RecentKeepsTimes(timestamps: seq<real>, cutoff: real, from: real)
    requires cutoff <= from
    ensures TimesSince(Recent(timestamps, cutoff), from) == TimesSince(timestamps, from)
  {
    if timestamps == [] {
    } else {
      var n := |timestamps| - 1;
      RecentKeepsTimes(timestamps[..n], cutoff, from);
      if timestamps[n] >= cutoff {
        TimesSinceSnoc(Recent(timestamps[..n], cutoff), timestamps[n], from);
      }
    }
  }

  lemma {:induction false} TimesAreFew(timestamps: seq<real>, from: real)
    ensures TimesSince(timestamps, from) <= |timestamps|
  {
    if timestamps == [] {
    } else {
      TimesAreFew(timestamps[..|timestamps| - 1], from);
    }
  }

  ghost predicate NotAfter(e: Option<Evidence>, ts: real) {
    e.Some? ==> forall k :: 0 <= k < |e.value.timestamps| ==> e.value.timestamps[k] <= ts
  }

  lemma SightedNotAfter(e: Option<Evidence>, s: Sight, window: real)
    requires s.phone.Some? && NotAfter(e, s.ts)
    ensures NotAfter(Some(Sighted(e, s, window)), s.ts)
  {
    hide Compatible, Recent;
    if e.Some? {
      var kept := RecentAreKept(e.value.timestamps, s.ts - window);
    }
  }

  lemma {:induction false} EvidenceIsPast(sights: seq<Sight>, window: real)
    requires TimeOrdered(sights) && sights != []
    ensures NotAfter(EvidenceAfter(sights, window), sights[|sights| - 1].ts)
  {
    hide Sighted;
    var n := |sights| - 1;
    var e := EvidenceAfter(sights[..n], window);
    if n == 0 {
    } else {
      EvidenceIsPast(sights[..n], window);
    }
    if sights[n].phone.Some? {
      SightedNotAfter(e, sights[n], window);
    }
  }

  /** Evidence of a chain of sightings: its box and last time are those of the latest, and it has
      a time for each of them. */
  ghost predicate HoldsChain(sights: seq<Sight>, a: nat, e: Evidence, z: int)
    requires a < |sights|
  {
    && LastSighting(sights, z) && a <= z && sights[z].phone == Some(e.box)
    && e.timestamps != [] && e.timestamps[|e.timestamps| - 1] == sights[z].ts
    && TimesSince(e.timestamps, sights[a].ts) >= SightingsSince(sights, a)
  }

  lemma ChainOfFewer(sights: seq<Sight>, a: nat, window: real)
    requires SeenThroughout(sights, a, window) && a < |sights| - 1
    ensures SeenThroughout(sights[..|sights| - 1], a, window)
  {
    hide Compatible;
    var n := |sights| - 1;
    var front := sights[..n];
    forall p, q | a <= p && NextSighting(front, p, q)
      ensures Compatible(front[p].phone.value, front[q].phone.value, front[q].face)
    {
      assert NextSighting(sights, p, q);
    }
  }

  /** A first sighting leaves evidence of itself. */
  lemma ChainStarts(e: Option<Evidence>, s: Sight, window: real)
    requires s.phone.Some? && NotAfter(e, s.ts)
    ensures var e' := Sighted(e, s, window);
      && e'.timestamps != [] && e'.timestamps[|e'.timestamps| - 1] == s.ts && Some(e'.box) == s.phone
      && TimesSince(e'.timestamps, s.ts) >= 1
  {
    hide Compatible, Recent;
    var e' := Sighted(e, s, window);
    SightedNotAfter(e, s, window);
    assert e'.timestamps[|e'.timestamps| - 1] >= s.ts;
  }

  lemma RecentLast(timestamps: seq<real>, cutoff: real)
    requires timestamps != [] && timestamps[|timestamps| - 1] >= cutoff
    ensures var recent := Recent(timestamps, cutoff);
      recent != [] && recent[|recent| - 1] == timestamps[|timestamps| - 1]
  {
  }

  /** A further one adds to it. */
  lemma ChainGoesOn(e: Evidence, s: Sight, window: real, from: real)
    requires s.phone.Some? && Compatible(e.box, s.phone.value, s.face) && s.ts - window <= from <= s.ts
    requires e.timestamps != [] && from <= e.timestamps[|e.timestamps| - 1] < s.ts
    ensures var e' := Sighted(Some(e), s, window);
      && e'.timestamps != [] && e'.timestamps[|e'.timestamps| - 1] == s.ts && Some(e'.box) == s.phone
      && TimesSince(e'.timestamps, from) == TimesSince(e.timestamps, from) + 1
  {
    hide Compatible;
    hide Recent, TimesSince;
    var base := Recent(e.timestamps, s.ts - window);
    RecentLast(e.timestamps, s.ts - window);
    RecentKeepsTimes(e.timestamps, s.ts - window, from);
    TimesSinceSnoc(base, s.ts, from);
  }

  lemma ChainStep(sights: seq<Sight>, a: nat, window: real, e: Evidence, y: int)
    requires SeenThroughout(sights, a, window) && a < |sights| - 1 && sights[|sights| - 1].phone.Some?
    requires HoldsChain(sights[..|sights| - 1], a, e, y)
    ensures HoldsChain(sights, a, Sighted(Some(e), sights[|sights| - 1], window), |sights| - 1)
  {
    hide Compatible, Sighted, TimesSince, InView;
    var n := |sights| - 1;
    assert NextSighting(sights, y, n);
    ChainGoesOn(e, sights[n], window, sights[a].ts);
  }

  lemma ChainRests(sights: seq<Sight>, a: nat, window: real, e: Evidence, y: int)
    requires SeenThroughout(sights, a, window) && a < |sights| - 1 && sights[|sights| - 1].phone.None?
    requires HoldsChain(sights[..|sights| - 1], a, e, y)
    ensures HoldsChain(sights, a, e, y)
  {
    hide Compatible, Linked, InView, TimesSince;
  }

  /** Evidence of a chain that started no longer ago than the window survives the frame. */
  lemma ChainSurvives(sights: seq<Sight>, a: nat, window: real, e: Evidence, z: int)
    requires SeenThroughout(sights, a, window) && HoldsChain(sights, a, e, z)
    ensures Prune(Some(e), sights[|sights| - 1], window) == Some(e)
  {
    hide Compatible, Linked, TimesSince, SightingsSince;
  }

  lemma {:induction false} ChainIsHeld(sights: seq<Sight>, a: nat, window: real) returns (z: int)
    requires SeenThroughout(sights, a, window)
    ensures EvidenceAfter(sights, window).Some? && HoldsChain(sights, a, EvidenceAfter(sights, window).value, z)
    ensures sights[|sights| - 1].phone.Some? ==>
      EvidenceAfter(sights, window)
      == Some(Sighted(EvidenceAfter(sights[..|sights| - 1], window), sights[|sights| - 1], window))
  {
    FirstIsSighted(sights, a, window);
    hide Sighted, Prune, TimesSince, SightingsSince, SeenThroughout, HoldsChain;
    var n := |sights| - 1;
    var s, before := sights[n], EvidenceAfter(sights[..n], window);
    if a == n {
      z := n;
      ChainBegins(sights, window);
    } else {
      ChainOfFewer(sights, a, window);
      z := ChainIsHeld(sights[..n], a, window);
      if s.phone.Some? {
        ChainStep(sights, a, window, before.value, z);
        z := n;
      } else {
        ChainRests(sights, a, window, before.value, z);
      }
    }
    ChainSurvives(sights, a, window, if s.phone.Some? then Sighted(before, s, window) else before.value, z);
  }

  lemma ChainBegins(sights: seq<Sight>, window: real)
    requires sights != [] && SeenThroughout(sights, |sights| - 1, window)
    ensures var n := |sights| - 1;
      && sights[n].phone.Some?
      && HoldsChain(sights, n, Sighted(EvidenceAfter(sights[..n], window), sights[n], window), n)
  {
    hide Compatible, Sighted, TimesSince, Linked, InView;
    var n := |sights| - 1;
    if n > 0 {
      EvidenceIsPast(sights[..n], window);
    }
    ChainStarts(EvidenceAfter(sights[..n], window), sights[n], window);
    assert SightingsSince(sights[..n], n) == 0;
  }

  /** A phone seen throughout as above, in the last frame too, is confirmed as soon as it has been
      sighted twice, and the configured number of times. */
  lemma SeenThroughoutIsConfirmed(sights: seq<Sight>, a: nat, window: real, hits: int)
    requires SeenThroughout(sights, a, window) && sights[|sights| - 1].phone.Some?
    requires SightingsSince(sights, a) >= 2 && SightingsSince(sights, a) >= hits
    ensures ConfirmsLast(sights, window, hits)
  {
    hide Compatible, Sighted, SeenThroughout, TimesSince;
    var z := ChainIsHeld(sights, a, window);
    TimesAreFew(EvidenceAfter(sights, window).value.timestamps, sights[a].ts);
    assert sights[a].phone.Some? && a < |sights| by {
      FirstIsSighted(sights, a, window);
    }
  }

  lemma FirstIsSighted(sights: seq<Sight>, a: nat, window: real)
    requires SeenThroughout(sights, a, window)
    ensures a < |sights| && sights[a].phone.Some?
  {
  }
}
