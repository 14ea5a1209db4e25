/**
 Zone engagement aggregates, backend/engagement/vnei.py (`ZoneAggregator`).

 The aggregator streams: it keeps one running record per zone and closes a window when a
 frame arrives `window_s` after the window's start. The specification is a batch one: a
 window is a list of frames, and its record is computed from that list by counting.
 */
module Zones {
  import opened Wrappers

  datatype Zone = Front | Mid | Back

  /** What is observable of one track in one frame; None where the backend cannot tell. */
  datatype Signals = Signals(attending: Option<bool>, headDown: Option<bool>, phone: Option<bool>, still: Option<bool>)

  datatype Obs = Obs(trackId: int, y1: int, y2: int, signals: Signals)

  datatype ZoneFrame = ZoneFrame(obs: seq<Obs>, height: int, ts: real)

  datatype Config = Config(windowS: real, frontBand: real, backBand: real, kMin: int, enrolled: map<Zone, int>,
                           sessionStart: real)

  function ZoneOf(c: Config, o: Obs, height: int): Zone {
    var centre := (o.y1 + o.y2) as real / 2.0;
    if centre >= c.frontBand * height as real then Front
    else if centre <= c.backBand * height as real then Back
    else Mid
  }

  // ---------- Batch specification ----------

  /** The eight things counted per zone. */
  datatype Tally = Seen | Posed | Attending | HeadDown | PhoneKnown | Phone | StillKnown | Still

  predicate Shows(s: Signals, t: Tally) {
    match t
    case Seen => true
    case Posed => s.attending.Some?
    case Attending => s.attending == Some(true)
    case HeadDown => s.attending.Some? && s.headDown == Some(true)
    case PhoneKnown => s.phone.Some?
    case Phone => s.phone == Some(true)
    case StillKnown => s.still.Some?
    case Still => s.still == Some(true)
  }

  predicate Counts(c: Config, o: Obs, height: int, z: Zone, t: Tally) {
    ZoneOf(c, o, height) == z && Shows(o.signals, t)
  }

  ghost function Count(c: Config, obs: seq<Obs>, height: int, z: Zone, t: Tally): nat {
    if obs == [] then 0
    else
      var n := |obs| - 1;
      if Counts(c, obs[n], height, z, t) then Count(c, obs[..n], height, z, t) + 1 else Count(c, obs[..n], height, z, t)
  }

  /** The distinct tracks of a zone in one frame for which `t` holds. */
  ghost function Tracks(c: Config, obs: seq<Obs>, height: int, z: Zone, t: Tally): set<int> {
    set k | 0 <= k < |obs| && Counts(c, obs[k], height, z, t) :: obs[k].trackId
  }

  ghost function Total(c: Config, frames: seq<ZoneFrame>, z: Zone, t: Tally): nat {
    if frames == [] then 0
    else
      var n := |frames| - 1;
      Total(c, frames[..n], z, t) + Count(c, frames[n].obs, frames[n].height, z, t)
  }

  ghost function AllTracks(c: Config, frames: seq<ZoneFrame>, z: Zone): set<int> {
    if frames == [] then {}
    else
      var n := |frames| - 1;
      AllTracks(c, frames[..n], z) + Tracks(c, frames[n].obs, frames[n].height, z, Seen)
  }

  function Larger(a: nat, b: nat): nat {
    if a >= b then a else b
  }

  /** The most distinct tracks any single frame shows. */
  ghost function Peak(c: Config, frames: seq<ZoneFrame>, z: Zone, t: Tally): nat {
    if frames == [] then 0
    else
      var n := |frames| - 1;
      Larger(Peak(c, frames[..n], z, t), |Tracks(c, frames[n].obs, frames[n].height, z, t)|)
  }

  /** The record of one zone over a window. */
  datatype ZoneWindow = ZoneWindow(trackIds: set<int>, peak: nat, posePeak: nat, nObs: nat, attendObs: nat,
                                   attending: nat,
                                   headDown: nat, phoneObs: nat, phone: nat, stillObs: nat, still: nat)

  function EmptyWindow(): ZoneWindow {
    ZoneWindow({}, 0, 0, 0, 0, 0, 0, 0, 0, 0, 0)
  }

  ghost function Batch(c: Config, frames: seq<ZoneFrame>, z: Zone): ZoneWindow {
    ZoneWindow(AllTracks(c, frames, z), Peak(c, frames, z, Seen), Peak(c, frames, z, Posed),
               Total(c, frames, z, Seen), Total(c, frames, z, Posed), Total(c, frames, z, Attending),
               Total(c, frames, z, HeadDown),
               Total(c, frames, z, PhoneKnown), Total(c, frames, z, Phone), Total(c, frames, z, StillKnown),
               Total(c, frames, z, Still))
  }

  // ---------- Windows ----------

  /** What happens to an aggregator: a frame, or a flush from outside. */
  datatype Event = Saw(frame: ZoneFrame) | Flushed

  /** A closed window, and whether an outside flush closed it. */
  datatype Window = Window(start: real, frames: seq<ZoneFrame>, flushed: bool)

  datatype Windowing = Windowing(start: Option<real>, current: seq<ZoneFrame>, closed: seq<Window>)

  function Step(w: Windowing, e: Event, windowS: real): Windowing {
    match e
    case Saw(f) =>
      if w.start.None? then Windowing(Some(f.ts), w.current + [f], w.closed)
      else if f.ts - w.start.value >= windowS
      then Windowing(Some(f.ts), [f], w.closed + [Window(w.start.value, w.current, false)])
      else Windowing(w.start, w.current + [f], w.closed)
    case Flushed =>
      if w.start.None? then w
      else Windowing(w.start, [], w.closed + [Window(w.start.value, w.current, true)])
  }

  function Run(events: seq<Event>, windowS: real): Windowing {
    if events == [] then Windowing(None, [], [])
    else Step(Run(events[..|events| - 1], windowS), events[|events| - 1], windowS)
  }

  lemma RunSnoc(events: seq<Event>, e: Event, windowS: real)
    ensures Run(events + [e], windowS) == Step(Run(events, windowS), e, windowS)
  {
    hide Step;
    assert (events + [e])[..|events|] == events;
  }

  // ---------- Rows ----------

  datatype ZoneRow = ZoneRow(windowStart: real, windowS: int, zone: Zone, nTracked: nat, enrolled: nat, coverage: real,
                             vnei: real, headDownRate: real, phoneRate: Option<real>, stillRate: Option<real>)

  datatype Reason = PrivacyFloor | InsufficientPose | PersistenceFailed

  /** Truncation toward zero. */
  function Trunc(x: real): int {
    if x >= 0.0 then x.Floor else -((-x).Floor)
  }

  function Rate(num: nat, den: nat): real {
    if den != 0 then num as real / den as real else 0.0
  }

  function RateIfAny(num: nat, den: nat): Option<real> {
    if den != 0 then Some(Rate(num, den)) else None
  }

  /** The row a zone's record leads to, or the reason it is withheld. */
  function Judge(c: Config, start: real, z: Zone, w: ZoneWindow): Result<ZoneRow, Reason> {
    if w.peak < c.kMin then Err(PrivacyFloor)
    else if w.posePeak < c.kMin || w.attendObs == 0 then Err(InsufficientPose)
    else
      var configured := if z in c.enrolled then c.enrolled[z] else 0;
      var enrolled: nat := if configured >= w.peak then configured else w.peak;
      var share := Rate(w.peak, enrolled);
      Ok(ZoneRow(c.sessionStart + start, Trunc(c.windowS), z, w.peak, enrolled, if share > 1.0 then 1.0 else share,
                 Rate(w.attending, w.attendObs), Rate(w.headDown, w.attendObs),
                 RateIfAny(w.phone, w.phoneObs), RateIfAny(w.still, w.stillObs)))
  }

  /** The zones of a window in which anything was seen. */
  ghost predicate Occupied(c: Config, frames: seq<ZoneFrame>, z: Zone) {
    Total(c, frames, z, Seen) > 0
  }

  /** An occupied zone gets a row exactly if it is reportable and the write is not refused;
      otherwise it is withheld for its reason. */
  ghost predicate ZoneReported(c: Config, w: Window, z: Zone, reply: Reply, rows: map<Zone, ZoneRow>,
                               withheld: map<Zone, Reason>) {
    match Judge(c, w.start, z, Batch(c, w.frames, z))
    case Ok(row) =>
      if reply != Refused then z in rows && rows[z] == row && z !in withheld
      else z !in rows && z in withheld && withheld[z] == PersistenceFailed
    case Err(reason) => z !in rows && z in withheld && withheld[z] == reason
  }

  ghost predicate Reported(c: Config, w: Window, reply: Zone -> Reply, rows: map<Zone, ZoneRow>,
                           withheld: map<Zone, Reason>) {
    forall z ::
      if Occupied(c, w.frames, z) then ZoneReported(c, w, z, reply(z), rows, withheld)
      else z !in rows && z !in withheld
  }

  // ---------- One frame ----------

  function Win(zones: map<Zone, ZoneWindow>, z: Zone): ZoneWindow {
    if z in zones then zones[z] else EmptyWindow()
  }

  function Ids(sets: map<Zone, set<int>>, z: Zone): set<int> {
    if z in sets then sets[z] else {}
  }

  function Field(w: ZoneWindow, t: Tally): nat {
    match t
    case Seen => w.nObs
    case Posed => w.attendObs
    case Attending => w.attending
    case HeadDown => w.headDown
    case PhoneKnown => w.phoneObs
    case Phone => w.phone
    case StillKnown => w.stillObs
    case Still => w.still
  }

  /** Zone `z` holds the batch record of `frames` plus the counts, but not yet the peaks, of
      the first observations `part` of one more frame. */
  ghost predicate PartwayZone(c: Config, frames: seq<ZoneFrame>, part: seq<Obs>, height: int, z: Zone, known: bool,
                              w: ZoneWindow, ids: set<int>, poseIds: set<int>)
  {
    && (known <==> Total(c, frames, z, Seen) + Count(c, part, height, z, Seen) > 0)
    && w.trackIds == AllTracks(c, frames, z) + Tracks(c, part, height, z, Seen)
    && w.peak == Peak(c, frames, z, Seen) && w.posePeak == Peak(c, frames, z, Posed)
    && (forall t :: Field(w, t) == Total(c, frames, z, t) + Count(c, part, height, z, t))
    && ids == Tracks(c, part, height, z, Seen) && poseIds == Tracks(c, part, height, z, Posed)
  }

  ghost predicate Partway(c: Config, frames: seq<ZoneFrame>, part: seq<Obs>, height: int,
                          zones: map<Zone, ZoneWindow>, seen: map<Zone, set<int>>, posed: map<Zone, set<int>>)
  {
    forall z :: PartwayZone(c, frames, part, height, z, z in zones, Win(zones, z), Ids(seen, z), Ids(posed, z))
  }

  ghost predicate Streamed(c: Config, frames: seq<ZoneFrame>, zones: map<Zone, ZoneWindow>) {
    forall z :: (z in zones <==> Occupied(c, frames, z)) && Win(zones, z) == Batch(c, frames, z)
  }

  lemma CountSnoc(c: Config, part: seq<Obs>, o: Obs, height: int, z: Zone, t: Tally)
    ensures Count(c, part + [o], height, z, t)
      == Count(c, part, height, z, t) + if Counts(c, o, height, z, t) then 1 else 0
    ensures Tracks(c, part + [o], height, z, t)
      == Tracks(c, part, height, z, t) + if Counts(c, o, height, z, t) then {o.trackId} else {}
  {
    hide Counts;
    var all := part + [o];
    assert all[..|part|] == part;
    forall id
      ensures id in Tracks(c, all, height, z, t) <==>
        id in Tracks(c, part, height, z, t) || (Counts(c, o, height, z, t) && id == o.trackId)
    {
      if id in Tracks(c, part, height, z, t) {
        var k :| 0 <= k < |part| && Counts(c, part[k], height, z, t) && part[k].trackId == id;
        assert all[k] == part[k];
      }
      if Counts(c, o, height, z, t) {
        assert all[|part|] == o;
      }
    }
  }

  /** What one observation adds to the record of its zone. */
  ghost predicate Noted(w: ZoneWindow, o: Obs, w': ZoneWindow) {
    && w'.trackIds == w.trackIds + {o.trackId} && w'.peak == w.peak && w'.posePeak == w.posePeak
    && forall t :: Field(w', t) == Field(w, t) + if Shows(o.signals, t) then 1 else 0
  }

  /** The body of the observation loop, on the record of the observation's zone. */
  method Note(w: ZoneWindow, o: Obs) returns (w': ZoneWindow)
    ensures Noted(w, o, w')
  {
    var s := o.signals;
    w' := w.(trackIds := w.trackIds + {o.trackId}, nObs := w.nObs + 1);
    if s.attending.Some? {
      w' := w'.(attendObs := w'.attendObs + 1,
                attending := w'.attending + (if s.attending.value then 1 else 0),
                headDown := w'.headDown + (if s.headDown == Some(true) then 1 else 0));
    }
    if s.phone.Some? {
      w' := w'.(phoneObs := w'.phoneObs + 1, phone := w'.phone + (if s.phone.value then 1 else 0));
    }
    if s.still.Some? {
      w' := w'.(stillObs := w'.stillObs + 1, still := w'.still + (if s.still.value then 1 else 0));
    }
  }

  lemma NoteZone(c: Config, frames: seq<ZoneFrame>, part: seq<Obs>, o: Obs, height: int, z: Zone, known: bool,
                 w: ZoneWindow, ids: set<int>, poseIds: set<int>, w': ZoneWindow)
    requires PartwayZone(c, frames, part, height, z, known, w, ids, poseIds)
    requires if ZoneOf(c, o, height) == z then Noted(w, o, w') else w' == w
    ensures PartwayZone(c, frames, part + [o], height, z, known || ZoneOf(c, o, height) == z, w',
                        ids + (if Counts(c, o, height, z, Seen) then {o.trackId} else {}),
                        poseIds + (if Counts(c, o, height, z, Posed) then {o.trackId} else {}))
  {
    hide Count, Tracks, Total, AllTracks, Peak, Field;
    forall t
      ensures Count(c, part + [o], height, z, t)
        == Count(c, part, height, z, t) + if Counts(c, o, height, z, t) then 1 else 0
    {
      CountSnoc(c, part, o, height, z, t);
    }
    CountSnoc(c, part, o, height, z, Seen);
    CountSnoc(c, part, o, height, z, Posed);
  }

  lemma BatchSnoc(c: Config, frames: seq<ZoneFrame>, f: ZoneFrame, z: Zone, known: bool, w: ZoneWindow, ids: set<int>,
                  poseIds: set<int>)
    requires PartwayZone(c, frames, f.obs, f.height, z, known, w, ids, poseIds)
    ensures Batch(c, frames + [f], z) == w.(peak := Larger(w.peak, |ids|), posePeak := Larger(w.posePeak, |poseIds|))
    ensures known <==> Occupied(c, frames + [f], z)
  {
    hide Count, Tracks;
    assert (frames + [f])[..|frames|] == frames;
    assert forall t :: Total(c, frames + [f], z, t) == Field(w, t);
    assert Field(w, Seen) == w.nObs && Field(w, Posed) == w.attendObs && Field(w, Attending) == w.attending
        && Field(w, HeadDown) == w.headDown
        && Field(w, PhoneKnown) == w.phoneObs && Field(w, Phone) == w.phone && Field(w, StillKnown) == w.stillObs
        && Field(w, Still) == w.still;
  }

  lemma FieldOfBatch(c: Config, frames: seq<ZoneFrame>, z: Zone, t: Tally)
    ensures Field(Batch(c, frames, z), t) == Total(c, frames, z, t)
  {
    hide Total, Peak, AllTracks;
  }

  lemma StartZone(c: Config, frames: seq<ZoneFrame>, height: int, z: Zone, known: bool)
    requires known <==> Occupied(c, frames, z)
    ensures PartwayZone(c, frames, [], height, z, known, Batch(c, frames, z), {}, {})
  {
    hide Total, Peak, AllTracks, Field, Counts;
    forall t
      ensures Field(Batch(c, frames, z), t) == Total(c, frames, z, t)
    {
      FieldOfBatch(c, frames, z, t);
    }
  }

  lemma StartFrame(c: Config, frames: seq<ZoneFrame>, height: int, zones: map<Zone, ZoneWindow>)
    requires Streamed(c, frames, zones)
    ensures Partway(c, frames, [], height, zones, map[], map[])
  {
    hide PartwayZone, Batch, Occupied;
    forall z
      ensures PartwayZone(c, frames, [], height, z, z in zones, Win(zones, z), Ids(map[], z), Ids(map[], z))
    {
      StartZone(c, frames, height, z, z in zones);
    }
  }

  lemma NothingStreamed(c: Config)
    ensures Streamed(c, [], map[])
  {
  }

  lemma NoteMore(c: Config, frames: seq<ZoneFrame>, part: seq<Obs>, o: Obs, height: int, zones: map<Zone, ZoneWindow>,
                 seen: map<Zone, set<int>>, posed: map<Zone, set<int>>, zones': map<Zone, ZoneWindow>,
                 seen': map<Zone, set<int>>, posed': map<Zone, set<int>>)
    requires Partway(c, frames, part, height, zones, seen, posed)
    requires var zone := ZoneOf(c, o, height);
      && zone in zones' && zones' == zones[zone := zones'[zone]] && Noted(Win(zones, zone), o, zones'[zone])
      && seen' == seen[zone := Ids(seen, zone) + {o.trackId}]
      && posed' == if o.signals.attending.Some? then posed[zone := Ids(posed, zone) + {o.trackId}] else posed
    ensures Partway(c, frames, part + [o], height, zones', seen', posed')
  {
    hide PartwayZone, Noted, ZoneOf;
    forall z
      ensures PartwayZone(c, frames, part + [o], height, z, z in zones', Win(zones', z), Ids(seen', z), Ids(posed', z))
    {
      NoteZone(c, frames, part, o, height, z, z in zones, Win(zones, z), Ids(seen, z), Ids(posed, z), Win(zones', z));
      assert Ids(seen', z) == Ids(seen, z) + (if Counts(c, o, height, z, Seen) then {o.trackId} else {});
      assert Ids(posed', z) == Ids(posed, z) + (if Counts(c, o, height, z, Posed) then {o.trackId} else {});
    }
  }

  function Raised(w: ZoneWindow, ids: set<int>, poseIds: set<int>): ZoneWindow {
    w.(peak := Larger(w.peak, |ids|), posePeak := Larger(w.posePeak, |poseIds|))
  }

  lemma EndFrame(c: Config, frames: seq<ZoneFrame>, f: ZoneFrame, zones: map<Zone, ZoneWindow>,
                 seen: map<Zone, set<int>>, posed: map<Zone, set<int>>, zones': map<Zone, ZoneWindow>)
    requires Partway(c, frames, f.obs, f.height, zones, seen, posed) && zones'.Keys == zones.Keys
    requires forall z :: Win(zones', z) == Raised(Win(zones, z), Ids(seen, z), Ids(posed, z))
    ensures Streamed(c, frames + [f], zones')
  {
    hide PartwayZone, Batch, Occupied;
    forall z
      ensures (z in zones' <==> Occupied(c, frames + [f], z)) && Win(zones', z) == Batch(c, frames + [f], z)
    {
      BatchSnoc(c, frames, f, z, z in zones, Win(zones, z), Ids(seen, z), Ids(posed, z));
    }
  }

  lemma SeenZonesAreKnown(c: Config, frames: seq<ZoneFrame>, part: seq<Obs>, height: int, zones: map<Zone, ZoneWindow>,
                          seen: map<Zone, set<int>>, posed: map<Zone, set<int>>, z: Zone)
    requires Partway(c, frames, part, height, zones, seen, posed)
    ensures Ids(seen, z) != {} ==> z in zones
    ensures Ids(seen, z) == {} ==> Ids(posed, z) == {}
  {
    hide AllTracks, Peak, Field;
    assert PartwayZone(c, frames, part, height, z, z in zones, Win(zones, z), Ids(seen, z), Ids(posed, z));
    if id :| id in Tracks(c, part, height, z, Seen) {
      SeenIsCounted(c, part, height, z, id);
    }
    if id :| id in Tracks(c, part, height, z, Posed) {
      assert id in Tracks(c, part, height, z, Seen);
    }
  }

  lemma {:induction false} SeenIsCounted(c: Config, part: seq<Obs>, height: int, z: Zone, id: int)
    requires id in Tracks(c, part, height, z, Seen)
    ensures Count(c, part, height, z, Seen) > 0
  {
    hide Counts;
    var n := |part| - 1;
    var k :| 0 <= k <= n && Counts(c, part[k], height, z, Seen) && part[k].trackId == id;
    if k == n {
    } else {
      assert part[..n][k] == part[k];
      SeenIsCounted(c, part[..n], height, z, id);
    }
  }

  // ---------- The aggregator ----------

  datatype LastWindow = LastWindow(reported: bool, windowStart: real, reportedZones: set<Zone>,
                                   withheld: map<Zone, Reason>)

  class ZoneAggregator {
    const config: Config
    var windowStart: Option<real>
    var zones: map<Zone, ZoneWindow>
    var completedWindows: nat
    var lastWindow: Option<LastWindow>
    /** Everything that happened to the aggregator. */
    ghost var events: seq<Event>

    ghost predicate Valid()
      reads this
    {
      var w := Run(events, config.windowS);
      && windowStart == w.start && Streamed(config, w.current, zones)
    }

    constructor (config: Config)
      ensures Valid() && this.config == config && events == [] && completedWindows == 0 && lastWindow.None?
    {
      this.config, windowStart, zones, completedWindows, lastWindow, events := config, None, map[], 0, None, [];
      NothingStreamed(config);
    }

    /** Folds the observations of a frame into the zones. */
    method Absorb(f: ZoneFrame, ghost frames: seq<ZoneFrame>)
      requires Streamed(config, frames, zones)
      modifies `zones
      ensures Streamed(config, frames + [f], zones)
    {
      hide Partway, Streamed, Noted, ZoneOf;
      var seen, posed: map<Zone, set<int>> := map[], map[];
      StartFrame(config, frames, f.height, zones);
      var i := 0;
      while i < |f.obs|
        invariant 0 <= i <= |f.obs|
        invariant Partway(config, frames, f.obs[..i], f.height, zones, seen, posed) && seen.Keys <= zones.Keys
      {
        var o := f.obs[i];
        assert f.obs[..i + 1] == f.obs[..i] + [o];
        ghost var zones0, seen0, posed0 := zones, seen, posed;
        var zone := ZoneOf(config, o, f.height);
        seen := seen[zone := Ids(seen, zone) + {o.trackId}];
        var w := Note(Win(zones, zone), o);
        zones := zones[zone := w];
        if o.signals.attending.Some? {
          posed := posed[zone := Ids(posed, zone) + {o.trackId}];
        }
        NoteMore(config, frames, f.obs[..i], o, f.height, zones0, seen0, posed0, zones, seen, posed);
        i := i + 1;
      }
      assert f.obs[..i] == f.obs;
      RaisePeaks(f, seen, posed, frames);
    }

    /** The second loop of `observe`: the peaks take this frame's distinct tracks into account. */
    method RaisePeaks(f: ZoneFrame, seen: map<Zone, set<int>>, posed: map<Zone, set<int>>, ghost frames: seq<ZoneFrame>)
      requires Partway(config, frames, f.obs, f.height, zones, seen, posed) && seen.Keys <= zones.Keys
      modifies `zones
      ensures Streamed(config, frames + [f], zones)
    {
      hide Partway, Streamed, Raised;
      ghost var zones0 := zones;
      var todo := seen.Keys;
      while todo != {}
        invariant todo <= seen.Keys && zones.Keys == zones0.Keys
        invariant forall z ::
          Win(zones, z)
          == if z in seen && z !in todo then Raised(Win(zones0, z), Ids(seen, z), Ids(posed, z)) else Win(zones0, z)
        decreases todo
      {
        var z :| z in todo;
        zones := zones[z := Raised(zones[z], seen[z], Ids(posed, z))];
        todo := todo - {z};
      }
      forall z
        ensures Win(zones, z) == Raised(Win(zones0, z), Ids(seen, z), Ids(posed, z))
      {
        SeenZonesAreKnown(config, frames, f.obs, f.height, zones0, seen, posed, z);
        NothingRaised(Win(zones0, z));
      }
      EndFrame(config, frames, f, zones0, seen, posed, zones);
    }

    /** The rows of the window that ends now; only they, and the status, depend on the writer. */
    method Close(ghost w: Window, reply: Zone -> Reply) returns (rows: map<Zone, ZoneRow>, withheld: map<Zone, Reason>)
      requires windowStart == Some(w.start) && Streamed(config, w.frames, zones)
      modifies `zones, `completedWindows, `lastWindow
      ensures zones == map[]
      ensures Reported(config, w, reply, rows, withheld)
      ensures lastWindow == if old(zones) == map[] then old(lastWindow)
                            else Some(LastWindow(rows != map[], config.sessionStart + w.start, rows.Keys, withheld))
      ensures completedWindows == old(completedWindows) + if old(zones) == map[] then 0 else 1
    {
      hide Judge, Batch, Occupied;
      rows, withheld := map[], map[];
      var todo := zones.Keys;
      while todo != {}
        invariant todo <= zones.Keys
        modifies {}
        invariant forall z ::
          if z in zones && z !in todo then ZoneReported(config, w, z, reply(z), rows, withheld)
          else z !in rows && z !in withheld
        decreases todo
      {
        var z :| z in todo;
        todo := todo - {z};
        match Judge(config, windowStart.value, z, zones[z]) {
          case Ok(row) =>
            if reply(z) == Refused {
              withheld := withheld[z := PersistenceFailed];
            } else {
              rows := rows[z := row];
            }
          case Err(reason) =>
            withheld := withheld[z := reason];
        }
        assert Win(zones, z) == Batch(config, w.frames, z);
      }
      assert Reported(config, w, reply, rows, withheld);
      if zones != map[] {
        completedWindows := completedWindows + 1;
        lastWindow := Some(LastWindow(rows != map[], config.sessionStart + windowStart.value, rows.Keys, withheld));
      }
      zones := map[];
    }

    /** `flush` from outside, in practice when the session ends. */
    method Flush(reply: Zone -> Reply) returns (rows: map<Zone, ZoneRow>, ghost withheld: map<Zone, Reason>)
      requires Valid()
      modifies this
      ensures Valid() && events == old(events) + [Flushed]
      ensures ClosedNow(reply, rows, withheld)
    {
      hide Streamed, Reported, Judge, Batch;
      events := events + [Flushed];
      assert events[..|events| - 1] == old(events);
      NothingStreamed(config);
      if windowStart.None? {
        return map[], map[];
      }
      rows, withheld := Close(Window(windowStart.value, Run(old(events), config.windowS).current, true), reply);
    }

    /** Folds one sampled frame in; when the window is over, its rows come out first. */
    method Observe(f: ZoneFrame, reply: Zone -> Reply)
      returns (rows: map<Zone, ZoneRow>, ghost withheld: map<Zone, Reason>)
      requires Valid()
      modifies this
      ensures Valid() && events == old(events) + [Saw(f)]
      ensures ClosedNow(reply, rows, withheld)
    {
      hide Streamed, Reported, Judge, Batch, Run;
      rows, withheld := map[], map[];
      ghost var w := Run(events, config.windowS);
      ghost var frames := w.current;
      if windowStart.None? {
        windowStart := Some(f.ts);
      } else if f.ts - windowStart.value >= config.windowS {
        rows, withheld := Close(Window(windowStart.value, w.current, false), reply);
        windowStart, frames := Some(f.ts), [];
        NothingStreamed(config);
      }
      Absorb(f, frames);
      RunSnoc(events, Saw(f), config.windowS);
      events := events + [Saw(f)];
      assert [] + [f] == [f];
    }

    /** The last event closed a window and `rows` are that window's, or it closed none and
        there are no rows. */
    twostate predicate ClosedNow(reply: Zone -> Reply, rows: map<Zone, ZoneRow>, withheld: map<Zone, Reason>)
      reads this
    {
      var before, after := Run(old(events), config.windowS).closed, Run(events, config.windowS).closed;
      if after == before then rows == map[]
      else |after| == |before| + 1 && Reported(config, after[|before|], reply, rows, withheld)
    }
  }

  lemma NothingRaised(w: ZoneWindow)
    ensures Raised(w, {}, {}) == w
  {
  }
}
