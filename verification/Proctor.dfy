/**
 `ProctorEngine` of backend/proctor/engine.py: one exam-mode pass over a frame's tracks and
 object detections, ending in review flags.

 Landmark geometry and the object detector are outside the model: a track comes with the
 pose its landmarks gave, if any, and detections are arbitrary boxes.
 */
module Proctor {
  import opened Wrappers
  import opened PhoneGate
  import opened Cooldown
  import HeadPose

  datatype Face = Face(trackId: int, studentId: Option<string>, box: PixelBox, pose: Option<HeadPose.Pose>)

  datatype FlagRow = FlagRow(key: Key, flaggedAt: real, studentId: Option<string>)

  datatype Label = CellPhone | Person | Other

  datatype Detection = Detection(kind: Label, box: PixelBox, confidence: real)

  // ---------- Attribution ----------

  function Width(b: PixelBox): (w: real)
    ensures w >= 1.0
  {
    (if b.x2 - b.x1 > 1 then b.x2 - b.x1 else 1) as real
  }

  function Height(b: PixelBox): (h: real)
    ensures h >= 1.0
  {
    (if b.y2 - b.y1 > 1 then b.y2 - b.y1 else 1) as real
  }

  /** How far out a place is in the area below a face, squared: 1 at the ends of its axes. */
  function Outness(dx: real, dy: real, w: real, h: real): real
    requires w >= 1.0 && h >= 1.0
  {
    Sq(dx / (1.5 * w)) + Sq(dy / (2.75 * h))
  }

  function Diagonal2(b: PixelBox): real {
    Sq(Width(b)) + Sq(Height(b))
  }

  /** How far the phone is from the face: the square of the source's score, or None when the
      phone is neither within desk reach below the face nor beside it. */
  function Score2(phone: PixelBox, face: PixelBox): Option<real> {
    var w, h := Width(face), Height(face);
    var dx := if CentreX(phone) >= CentreX(face) then CentreX(phone) - CentreX(face)
        else CentreX(face) - CentreX(phone);
    var dy := CentreY(phone) - CentreY(face);
    var inDeskReach := 0.0 <= dy <= 2.75 * h && dx <= 1.5 * w;
    var inProximity := -0.75 * h <= dy && SqDistance(phone, face) <= 2.25 * Diagonal2(face);
    var desk, near := Outness(dx, dy, w, h), SqDistance(phone, face) / Diagonal2(face);
    if inDeskReach && inProximity then Some(if desk <= near then desk else near)
    else if inDeskReach then Some(desk)
    else if inProximity then Some(near)
    else None
  }

  /** The first face with the least score. */
  ghost predicate IsNearest(phone: PixelBox, faces: seq<Face>, r: Option<nat>) {
    match r
    case None => forall k :: 0 <= k < |faces| ==> Score2(phone, faces[k].box).None?
    case Some(b) =>
      && b < |faces| && Score2(phone, faces[b].box).Some?
      && forall k :: 0 <= k < |faces| && Score2(phone, faces[k].box).Some? ==>
           if k < b then Score2(phone, faces[k].box).value > Score2(phone, faces[b].box).value
           else Score2(phone, faces[k].box).value >= Score2(phone, faces[b].box).value
  }

  method NearestTrack(phone: PixelBox, faces: seq<Face>) returns (best: Option<nat>)
    ensures IsNearest(phone, faces, best)
  {
    hide Score2;
    best := None;
    var bestScore := 0.0;
    var i := 0;
    while i < |faces|
      invariant 0 <= i <= |faces|
      invariant IsNearest(phone, faces[..i], best)
      invariant best.Some? ==> Score2(phone, faces[best.value].box) == Some(bestScore)
    {
      var s := Score2(phone, faces[i].box);
      assert faces[..i + 1] == faces[..i] + [faces[i]];
      if s.Some? && (best.None? || s.value < bestScore) {
        best, bestScore := Some(i), s.value;
      }
      i := i + 1;
    }
    assert faces[..i] == faces;
  }

  // ---------- The engine ----------

  function IdsOf(faces: seq<Face>): set<int> {
    set k | 0 <= k < |faces| :: faces[k].trackId
  }

  ghost predicate DistinctFaces(faces: seq<Face>) {
    forall j, k :: 0 <= j < k < |faces| ==> faces[j].trackId != faces[k].trackId
  }

  /** One frame as the phone gate sees it: the phone kept for each track that got one. */
  datatype FrameLog = FrameLog(ts: real, faces: map<int, PixelBox>, phones: map<int, Detection>)

  ghost function SightOf(f: FrameLog, trackId: int): Sight {
    Sight(f.ts, trackId in f.faces, if trackId in f.faces then f.faces[trackId] else PixelBox(0, 0, 0, 0),
          if trackId in f.faces && trackId in f.phones then Some(f.phones[trackId].box) else None)
  }

  ghost function SightsOf(frames: seq<FrameLog>, trackId: int): seq<Sight> {
    seq(|frames|, k requires 0 <= k < |frames| => SightOf(frames[k], trackId))
  }

  lemma SightsOfSnoc(frames: seq<FrameLog>, f: FrameLog, trackId: int)
    ensures SightsOf(frames + [f], trackId) == SightsOf(frames, trackId) + [SightOf(f, trackId)]
  {
  }

  lemma SightsAreAttributed(frames: seq<FrameLog>, trackId: int)
    ensures Attributed(SightsOf(frames, trackId))
  {
  }

  /** The most confident phone nearest to each face, the earliest on a tie. */
  ghost predicate PhoneFor(detections: seq<Detection>, faces: seq<Face>, trackId: int, d: Detection) {
    exists i :: Claims(detections, faces, trackId, i) && 0 <= i < |detections| && detections[i] == d
      && forall j :: Claims(detections, faces, trackId, j) && 0 <= j < |detections| ==>
           if j < i then detections[j].confidence < d.confidence else detections[j].confidence <= d.confidence
  }

  /** Detection `i` is a phone whose nearest face is track `trackId`. */
  ghost predicate Claims(detections: seq<Detection>, faces: seq<Face>, trackId: int, i: int) {
    && 0 <= i < |detections| && detections[i].kind == CellPhone
    && exists k: nat :: k < |faces| && IsNearest(detections[i].box, faces, Some(k)) && faces[k].trackId == trackId
  }

  ghost predicate PhonesByTrack(detections: seq<Detection>, faces: seq<Face>, phones: map<int, Detection>) {
    forall id :: if id in phones then PhoneFor(detections, faces, id, phones[id])
                 else forall i :: !Claims(detections, faces, id, i)
  }

  function CountPersons(detections: seq<Detection>): nat {
    if detections == [] then 0
    else CountPersons(detections[..|detections| - 1]) + if detections[|detections| - 1].kind == Person then 1 else 0
  }

  lemma NearestIsUnique(phone: PixelBox, faces: seq<Face>, a: Option<nat>, b: Option<nat>)
    requires IsNearest(phone, faces, a) && IsNearest(phone, faces, b)
    ensures a == b
  {
    hide Score2;
  }

  lemma ClaimIs(detections: seq<Detection>, faces: seq<Face>, i: nat, near: Option<nat>)
    requires i < |detections| && IsNearest(detections[i].box, faces, near)
    ensures forall id ::
      Claims(detections, faces, id, i) <==>
      detections[i].kind == CellPhone && near.Some? && faces[near.value].trackId == id
  {
    hide Score2, IsNearest;
    if near.Some? {
      NearestInRange(detections[i].box, faces, near);
    }
    forall id
      ensures Claims(detections, faces, id, i)
        <==> detections[i].kind == CellPhone && near.Some? && faces[near.value].trackId == id
    {
      if Claims(detections, faces, id, i) {
        var k: nat :| k < |faces| && IsNearest(detections[i].box, faces, Some(k)) && faces[k].trackId == id;
        NearestIsUnique(detections[i].box, faces, near, Some(k));
      }
    }
  }

  lemma NearestInRange(phone: PixelBox, faces: seq<Face>, near: Option<nat>)
    requires IsNearest(phone, faces, near) && near.Some?
    ensures near.value < |faces|
  {
  }

  /** What one more detection does to the phones kept so far. */
  ghost predicate Keeps(before: map<int, Detection>, claimed: Option<int>, d: Detection, after: map<int, Detection>) {
    forall id ::
      if claimed == Some(id) && (id !in before || d.confidence > before[id].confidence)
      then id in after && after[id] == d
      else if id in before then id in after && after[id] == before[id]
      else id !in after
  }

  lemma PhonesByTrackSnoc(detections: seq<Detection>, d: Detection, faces: seq<Face>, claimed: Option<int>,
                          before: map<int, Detection>, after: map<int, Detection>)
    requires PhonesByTrack(detections, faces, before) && Keeps(before, claimed, d, after)
    requires forall id :: Claims(detections + [d], faces, id, |detections|) <==> claimed == Some(id)
    ensures PhonesByTrack(detections + [d], faces, after)
  {
    hide IsNearest;
    var all, n := detections + [d], |detections|;
    assert forall i, id :: 0 <= i < n ==> (Claims(all, faces, id, i) <==> Claims(detections, faces, id, i)) by {
      assert forall i :: 0 <= i < n ==> all[i] == detections[i];
    }
    assert forall i, id :: Claims(all, faces, id, i) ==> i < n || (i == n && claimed == Some(id));
    hide Claims, PhoneFor;
    forall id
      ensures if id in after then PhoneFor(all, faces, id, after[id]) else forall i :: !Claims(all, faces, id, i)
    {
      var better := id !in before || d.confidence > before[id].confidence;
      if claimed == Some(id) && better {
        BetterPhone(detections, d, faces, id, if id in before then Some(before[id]) else None);
      } else if id in before {
        PhoneIsKept(detections, d, faces, id, before[id]);
      }
    }
  }

  /** A detection more confident than the phone kept so far, or the first one, is the phone now. */
  lemma BetterPhone(detections: seq<Detection>, d: Detection, faces: seq<Face>, id: int, kept: Option<Detection>)
    requires forall i :: 0 <= i < |detections| ==>
      (Claims(detections + [d], faces, id, i) <==> Claims(detections, faces, id, i))
    requires Claims(detections + [d], faces, id, |detections|)
    requires forall i :: Claims(detections + [d], faces, id, i) ==> i <= |detections|
    requires if kept.Some? then PhoneFor(detections, faces, id, kept.value) && d.confidence > kept.value.confidence
      else forall i :: !Claims(detections, faces, id, i)
    ensures PhoneFor(detections + [d], faces, id, d)
  {
    hide Claims;
    assert (detections + [d])[|detections|] == d;
    assert forall i :: 0 <= i < |detections| ==> (detections + [d])[i] == detections[i];
  }

  /** A phone stays kept when the new detection is not for its track or no more confident. */
  lemma PhoneIsKept(detections: seq<Detection>, d: Detection, faces: seq<Face>, id: int, kept: Detection)
    requires forall i :: 0 <= i < |detections| ==>
      (Claims(detections + [d], faces, id, i) <==> Claims(detections, faces, id, i))
    requires Claims(detections + [d], faces, id, |detections|) ==> d.confidence <= kept.confidence
    requires forall i :: Claims(detections + [d], faces, id, i) ==> i <= |detections|
    requires PhoneFor(detections, faces, id, kept)
    ensures PhoneFor(detections + [d], faces, id, kept)
  {
    hide Claims;
    assert (detections + [d])[|detections|] == d;
    assert forall i :: 0 <= i < |detections| ==> (detections + [d])[i] == detections[i];
  }

  /** The tracks that got a phone, each once. */
  ghost predicate Lists(order: seq<int>, phones: map<int, Detection>) {
    && (forall id :: id in phones <==> id in order)
    && (forall j, k :: 0 <= j < k < |order| ==> order[j] != order[k])
  }

  /** The attribution loop: at most one phone per track and frame. */
  method SelectPhones(detections: seq<Detection>, faces: seq<Face>)
    returns (phones: map<int, Detection>, order: seq<int>)
    ensures PhonesByTrack(detections, faces, phones)
    ensures phones.Keys <= IdsOf(faces) && Lists(order, phones)
  {
    hide IsNearest, PhonesByTrack;
    phones, order := map[], [];
    var i := 0;
    NoPhonesYet(faces);
    while i < |detections|
      invariant 0 <= i <= |detections|
      invariant PhonesByTrack(detections[..i], faces, phones)
      invariant phones.Keys <= IdsOf(faces) && Lists(order, phones)
    {
      var d := detections[i];
      var claimed := None;
      ghost var before := phones;
      assert detections[..i + 1] == detections[..i] + [d];
      var near := NearestTrack(d.box, faces);
      ClaimIs(detections[..i] + [d], faces, i, near);
      if d.kind == CellPhone && near.Some? {
        NearestInRange(d.box, faces, near);
        var id := faces[near.value].trackId;
        claimed := Some(id);
        if id !in phones {
          phones, order := phones[id := d], order + [id];
        } else if d.confidence > phones[id].confidence {
          phones := phones[id := d];
        }
      }
      PhonesByTrackSnoc(detections[..i], d, faces, claimed, before, phones);
      i := i + 1;
    }
    assert detections[..i] == detections;
  }

  lemma NoPhonesYet(faces: seq<Face>)
    ensures PhonesByTrack([], faces, map[])
  {
  }

  /** Attributing an accepted phone again to its own track alone, as the flag does, finds the
      same track: a confirmed phone is never flagged without one. */
  lemma SecondAttributionAgrees(phone: PixelBox, faces: seq<Face>, k: nat, again: Option<nat>)
    requires k < |faces| && IsNearest(phone, faces, Some(k)) && IsNearest(phone, [faces[k]], again)
    ensures again == Some(0)
  {
    hide Score2;
    assert [faces[k]][0] == faces[k];
  }

  function BoxesOf(faces: seq<Face>): (r: map<int, PixelBox>)
    requires DistinctFaces(faces)
    ensures r.Keys == IdsOf(faces)
    ensures forall k :: 0 <= k < |faces| ==> faces[k].trackId in r && r[faces[k].trackId] == faces[k].box
  {
    map id | id in IdsOf(faces) :: FaceOf(faces, id).box
  }

  function FaceOf(faces: seq<Face>, trackId: int): (f: Face)
    requires DistinctFaces(faces) && trackId in IdsOf(faces)
    ensures f in faces && f.trackId == trackId
    ensures forall k :: 0 <= k < |faces| && faces[k].trackId == trackId ==> f == faces[k]
  {
    if faces[0].trackId == trackId then faces[0]
    else
      assert exists k :: 0 <= k < |faces| && faces[k].trackId == trackId;
      assert forall k :: 1 <= k < |faces| ==> faces[k] == faces[1..][k - 1];
      FaceOf(faces[1..], trackId)
  }

  function SampleOf(monitor: HeadPose.HeadOrientationMonitor, f: Face, ts: real): HeadPose.Sample {
    HeadPose.Sample(if f.pose.Some? then monitor.Classify(f.pose.value) else HeadPose.Missing, ts)
  }

  /** A face is sampled by its pose as the monitor's thresholds have it, and as missing without one. */
  lemma SampleShowsThePose(monitor: HeadPose.HeadOrientationMonitor, f: Face, ts: real)
    ensures SampleOf(monitor, f, ts).ts == ts
    ensures SampleOf(monitor, f, ts).kind == HeadPose.Missing <==> f.pose.None?
    ensures f.pose.Some? ==>
      var pose := f.pose.value;
      SampleOf(monitor, f, ts).kind == HeadPose.Away <==>
        || pose.yawDeg >= monitor.yawAway || pose.yawDeg <= -monitor.yawAway || pose.pitchDeg >= monitor.pitchUp
        || (monitor.pitchDown.Some? && pose.pitchDeg <= monitor.pitchDown.value)
  {
    if f.pose.Some? {
      monitor.WhatPosesAre(f.pose.value);
    }
  }

  /** The last sample of a history triggers a head-pose candidate. */
  ghost predicate TriggersNow(monitor: HeadPose.HeadOrientationMonitor, samples: seq<HeadPose.Sample>) {
    HeadPose.TriggersAt(samples, monitor.sustainS, monitor.recoveryS, |samples| - 1)
  }

  /** The rows written are those of the flags persisted from `before` to `after`. */
  ghost predicate Wrote(sessionStart: real, before: seq<Flag>, after: seq<Flag>, written: seq<FlagRow>) {
    && |after| == |before| + |written| && after[..|before|] == before
    && forall k :: |before| <= k < |after| ==>
         written[k - |before|].key == after[k].key && written[k - |before|].flaggedAt == sessionStart + after[k].ts
  }

  /** A row about a track carries the student its face has; one about an extra person none. */
  ghost predicate OfStudents(written: seq<FlagRow>, students: map<int, Option<string>>) {
    forall r :: r in written ==>
      match r.key
      case ExtraPerson => r.studentId == None
      case HeadPose(id) => id in students && r.studentId == students[id]
      case Phone(id) => id in students && r.studentId == students[id]
  }

  function AsList(row: Option<FlagRow>): seq<FlagRow> {
    if row.Some? then [row.value] else []
  }

  lemma WroteMore(sessionStart: real, a: seq<Flag>, b: seq<Flag>, c: seq<Flag>, written: seq<FlagRow>,
                  more: seq<FlagRow>)
    requires Wrote(sessionStart, a, b, written) && Wrote(sessionStart, b, c, more)
    ensures Wrote(sessionStart, a, c, written + more)
  {
    assert c[..|a|] == c[..|b|][..|a|];
    assert forall k :: |a| <= k < |b| ==> c[k] == c[..|b|][k];
  }

  function Look(evidence: map<int, Evidence>, trackId: int): Option<Evidence> {
    if trackId in evidence then Some(evidence[trackId]) else None
  }

  ghost predicate Phoned(f: FrameLog, done: seq<int>) {
    forall id :: id in done ==> id in f.phones && id in f.faces
  }

  /** Exactly the phones of the tracks `done` have been folded into the evidence, and exactly
      those it then confirms are confirmed. */
  ghost predicate Folded(f: FrameLog, done: seq<int>, before: map<int, Evidence>, after: map<int, Evidence>,
                         confirmed: map<int, Detection>, window: real, hits: int)
    requires Phoned(f, done)
  {
    && (forall id ::
          Look(after, id)
          == if id in done then Some(Sighted(Look(before, id), SightOf(f, id), window)) else Look(before, id))
    && (forall id ::
          id in confirmed <==>
          id in done && Confirms(Sighted(Look(before, id), SightOf(f, id), window), hits))
    && (forall id :: id in confirmed ==> id in f.phones && confirmed[id] == f.phones[id])
  }

  lemma NothingFolded(f: FrameLog, evidence: map<int, Evidence>, window: real, hits: int)
    ensures Phoned(f, []) && Folded(f, [], evidence, evidence, map[], window, hits)
  {
  }

  lemma FoldedMore(f: FrameLog, done: seq<int>, id: int, before: map<int, Evidence>, mid: map<int, Evidence>,
                   after: map<int, Evidence>,
                   confirmed: map<int, Detection>, confirmed': map<int, Detection>, window: real, hits: int)
    requires Phoned(f, done + [id]) && id !in done && Phoned(f, done)
      && Folded(f, done, before, mid, confirmed, window, hits)
    requires after == mid[id := Sighted(Look(mid, id), SightOf(f, id), window)]
    requires confirmed' == if Confirms(after[id], hits) then confirmed[id := f.phones[id]] else confirmed
    ensures Folded(f, done + [id], before, after, confirmed', window, hits)
  {
    hide Sighted, Confirms, SightOf;
  }

  class ProctorEngine {
    const cooldownS: real
    const phoneConfirmHits: int
    const phoneConfirmWindowS: real
    const sessionStart: real
    const poseMonitor: HeadPose.HeadOrientationMonitor
    var lastFlag: map<Key, real>
    var evidence: map<int, Evidence>
    var confirmed: map<int, Detection>
    /** Everything persisted so far, and everything observed so far. */
    ghost var flags: seq<Flag>
    ghost var frames: seq<FrameLog>

    function LastFlagOf(key: Key): Option<real>
      reads `lastFlag
    {
      if key in lastFlag then Some(lastFlag[key]) else None
    }

    ghost predicate FlagsValid()
      reads `lastFlag, `flags
    {
      (forall key :: LastFlagOf(key) == LastOf(flags, key)) && Admitted(flags, cooldownS)
    }

    ghost predicate EvidenceValid()
      reads `evidence, `frames
    {
      forall id :: Look(evidence, id) == EvidenceAfter(SightsOf(frames, id), phoneConfirmWindowS)
    }

    ghost predicate Valid()
      reads this, poseMonitor
    {
      poseMonitor.Valid() && FlagsValid() && EvidenceValid()
    }

    constructor (cooldownS: real, phoneConfirmHits: int, phoneConfirmWindowS: real, sessionStart: real,
                 poseMonitor: HeadPose.HeadOrientationMonitor)
      requires poseMonitor.Valid()
      ensures Valid() && flags == [] && frames == [] && confirmed == map[]
      ensures this.cooldownS == cooldownS && this.phoneConfirmHits == phoneConfirmHits
      ensures this.phoneConfirmWindowS == phoneConfirmWindowS && this.sessionStart == sessionStart
        && this.poseMonitor == poseMonitor
    {
      this.cooldownS, this.phoneConfirmHits, this.phoneConfirmWindowS := cooldownS, phoneConfirmHits,
          phoneConfirmWindowS;
      this.sessionStart, this.poseMonitor := sessionStart, poseMonitor;
      lastFlag, evidence, confirmed, flags, frames := map[], map[], map[], [], [];
    }

    /** `_flag`: only a persisted flag consumes the cooldown. */
    method RaiseFlag(key: Key, studentId: Option<string>, ts: real, reply: Reply) returns (row: Option<FlagRow>)
      requires FlagsValid()
      modifies `lastFlag, `flags
      ensures FlagsValid()
      ensures flags == Request(old(flags), key, ts, cooldownS, reply)
      ensures row == if flags == old(flags) then None else Some(FlagRow(key, sessionStart + ts, studentId))
      ensures row.Some? ==> flags == old(flags) + [Flag(key, ts)]
      ensures cooldownS >= 0.0 ==> (row.Some? <==> reply != Refused && LongAgo(old(flags), key, ts, cooldownS))
    {
      hide LastOf, Admitted, LongAgo;
      row := None;
      assert LastFlagOf(key) == LastOf(flags, key);
      if cooldownS >= 0.0 {
        RequestPersistsIff(flags, key, ts, cooldownS, reply);
      }
      if key in lastFlag && ts - lastFlag[key] < cooldownS {
        return;
      }
      if reply == Refused {
        return;
      }
      FlagSnoc(flags, Flag(key, ts), cooldownS);
      lastFlag := lastFlag[key := ts];
      flags := flags + [Flag(key, ts)];
      row := Some(FlagRow(key, sessionStart + ts, studentId));
    }

    /** The body of the first loop of `observe`: a pose sample, and a candidate if it newly sustained. */
    method ObservePose(face: Face, ts: real, reply: Key -> Reply) returns (row: Option<FlagRow>, triggered: bool)
      requires poseMonitor.Valid() && FlagsValid()
      modifies `lastFlag, `flags, poseMonitor
      ensures poseMonitor.Valid() && FlagsValid()
      ensures poseMonitor.HistoryOf(face.trackId)
        == old(poseMonitor.HistoryOf(face.trackId)) + [SampleOf(poseMonitor, face, ts)]
      ensures forall id :: id != face.trackId ==> poseMonitor.HistoryOf(id) == old(poseMonitor.HistoryOf(id))
      ensures triggered <==> TriggersNow(poseMonitor, poseMonitor.HistoryOf(face.trackId))
      ensures flags == if triggered
        then Request(old(flags), Key.HeadPose(face.trackId), ts, cooldownS, reply(Key.HeadPose(face.trackId)))
                       else old(flags)
      ensures Wrote(sessionStart, old(flags), flags, AsList(row))
      ensures row.Some? ==> row.value.key == Key.HeadPose(face.trackId) && row.value.studentId == face.studentId
    {
      hide HeadPose.TriggersAt, HeadPose.HeadOrientationMonitor.Valid, Admitted, CooledDown, LastOf;
      row, triggered := None, false;
      if face.pose.None? {
        poseMonitor.NoteMissing(face.trackId, ts);
        MissingNeverTriggers(poseMonitor, old(poseMonitor.HistoryOf(face.trackId)), ts);
      } else {
        var classified;
        classified, triggered := poseMonitor.Observe(face.trackId, face.pose.value, ts);
        if triggered {
          row := RaiseFlag(Key.HeadPose(face.trackId), face.studentId, ts, reply(Key.HeadPose(face.trackId)));
        }
      }
    }

    /** The first loop of `observe`, over all faces of the frame. */
    method ObservePoses(faces: seq<Face>, ts: real, reply: Key -> Reply)
      returns (written: seq<FlagRow>, ghost requested: seq<Key>)
      requires poseMonitor.Valid() && FlagsValid() && DistinctFaces(faces)
      modifies `lastFlag, `flags, poseMonitor
      ensures poseMonitor.Valid() && FlagsValid()
      ensures forall k :: 0 <= k < |faces| ==>
        Sampled(poseMonitor, old(poseMonitor.HistoryOf(faces[k].trackId)), faces[k], ts,
                poseMonitor.HistoryOf(faces[k].trackId), requested)
      ensures forall key :: key in requested ==> key.HeadPose? && key.trackId in IdsOf(faces)
      ensures flags == RequestAll(old(flags), requested, ts, cooldownS, reply)
        && Wrote(sessionStart, old(flags), flags, written)
      ensures OfStudents(written, StudentsOf(faces))
    {
      hide TriggersNow, HeadPose.HeadOrientationMonitor.Valid, FlagsValid, Request, IdsOf, Wrote,
          HeadPose.HeadOrientationMonitor.HistoryOf, OfStudents, LongAgo, Sampled, SampleOf, AsList;
      written, requested := [], [];
      var i := 0;
      ghost var before, done: set<int> := flags, {};
      NothingWritten(sessionStart, flags);
      ghost var students := StudentsOf(faces);
      hide StudentsOf;
      NobodyFlagged(students);
      IdsOfFaces(faces);
      while i < |faces|
        invariant 0 <= i <= |faces| && poseMonitor.Valid() && FlagsValid()
        invariant forall k :: 0 <= k < i ==>
          Sampled(poseMonitor, old(poseMonitor.HistoryOf(faces[k].trackId)), faces[k], ts,
                  poseMonitor.HistoryOf(faces[k].trackId), requested)
        invariant forall k :: i <= k < |faces| ==>
          poseMonitor.HistoryOf(faces[k].trackId) == old(poseMonitor.HistoryOf(faces[k].trackId))
              && faces[k].trackId !in done
        invariant done <= IdsOf(faces) && forall key :: key in requested ==> key.HeadPose? && key.trackId in done
        invariant flags == RequestAll(before, requested, ts, cooldownS, reply)
          && Wrote(sessionStart, before, flags, written)
        invariant OfStudents(written, students)
      {
        label before:
        var row, triggered := ObservePose(faces[i], ts, reply);
        OneFlagged(faces[i], row, students);
        FlaggedToo(written, row, students);
        WroteMore(sessionStart, before, old@before(flags), flags, written, AsList(row));
        written := written + AsList(row);
        ghost var already, key := requested, Key.HeadPose(faces[i].trackId);
        if triggered {
          RequestAllSnoc(before, requested, key, ts, cooldownS, reply);
          requested := requested + [key];
        }
        forall k | 0 <= k <= i
          ensures Sampled(poseMonitor, old(poseMonitor.HistoryOf(faces[k].trackId)), faces[k], ts,
                          poseMonitor.HistoryOf(faces[k].trackId), requested)
        {
          if k < i {
            SampledBefore(poseMonitor, old(poseMonitor.HistoryOf(faces[k].trackId)), faces[k], ts,
                          poseMonitor.HistoryOf(faces[k].trackId), already, key);
          } else {
            SampledNow(poseMonitor, old(poseMonitor.HistoryOf(faces[k].trackId)), faces[k], ts,
                       poseMonitor.HistoryOf(faces[k].trackId), already, triggered);
          }
        }
        done := done + {faces[i].trackId};
        i := i + 1;
      }
    }

    /** `_phone_is_confirmed`: fold one sighting into the track's evidence. */
    method PhoneIsConfirmed(trackId: int, s: Sight) returns (ok: bool)
      requires s.phone.Some?
      modifies `evidence
      ensures evidence == old(evidence)[trackId := Sighted(old(Look(evidence, trackId)), s, phoneConfirmWindowS)]
      ensures ok <==> Confirms(evidence[trackId], phoneConfirmHits)
    {
      hide Sighted;
      evidence := evidence[trackId := Sighted(Look(evidence, trackId), s, phoneConfirmWindowS)];
      ok := Confirms(evidence[trackId], phoneConfirmHits);
    }

    /** One phone of the second loop of `observe`. */
    method ConfirmPhone(f: FrameLog, id: int, studentId: Option<string>, reply: Reply) returns (row: Option<FlagRow>)
      requires FlagsValid() && id in f.phones && id in f.faces
      modifies `lastFlag, `flags, `evidence, `confirmed
      ensures FlagsValid()
      ensures evidence == old(evidence)[id := Sighted(old(Look(evidence, id)), SightOf(f, id), phoneConfirmWindowS)]
      ensures confirmed
        == if Confirms(evidence[id], phoneConfirmHits) then old(confirmed)[id := f.phones[id]] else old(confirmed)
      ensures flags == if Confirms(evidence[id], phoneConfirmHits)
        then Request(old(flags), Key.Phone(id), f.ts, cooldownS, reply) else old(flags)
      ensures Wrote(sessionStart, old(flags), flags, AsList(row))
      ensures row.Some? ==> row.value.key == Key.Phone(id) && row.value.studentId == studentId
    {
      hide Sighted, Confirms, FlagsValid, Request, Wrote, LongAgo;
      row := None;
      NothingWritten(sessionStart, flags);
      var ok := PhoneIsConfirmed(id, Sight(f.ts, true, f.faces[id], Some(f.phones[id].box)));
      if ok {
        confirmed := confirmed[id := f.phones[id]];
        row := RaiseFlag(Key.Phone(id), studentId, f.ts, reply);
        RowIsWritten(sessionStart, old(flags), Key.Phone(id), studentId, f.ts, cooldownS, reply, row);
      }
    }

    /** The second loop of `observe`: each kept phone counts once towards its track, in the
        order the tracks first got one. */
    method ConfirmPhones(f: FrameLog, order: seq<int>, students: map<int, Option<string>>, reply: Key -> Reply)
      returns (written: seq<FlagRow>, ghost requested: seq<Key>)
      requires FlagsValid() && f.phones.Keys <= f.faces.Keys == students.Keys && Lists(order, f.phones)
      modifies `lastFlag, `flags, `evidence, `confirmed
      ensures FlagsValid() && Phoned(f, order)
        && Folded(f, order, old(evidence), evidence, confirmed, phoneConfirmWindowS, phoneConfirmHits)
      ensures forall key :: key in requested <==> key.Phone? && key.trackId in confirmed
      ensures flags == RequestAll(old(flags), requested, f.ts, cooldownS, reply)
        && Wrote(sessionStart, old(flags), flags, written)
      ensures OfStudents(written, students)
    {
      hide Sighted, Confirms, FlagsValid, Request, Wrote, SightOf, Folded, OfStudents;
      written, requested, confirmed := [], [], map[];
      ghost var before, evidence0 := flags, evidence;
      NothingWritten(sessionStart, flags);
      NothingFolded(f, evidence, phoneConfirmWindowS, phoneConfirmHits);
      NobodyFlagged(students);
      var i := 0;
      while i < |order|
        invariant 0 <= i <= |order| && FlagsValid()
        invariant Phoned(f, order[..i])
          && Folded(f, order[..i], evidence0, evidence, confirmed, phoneConfirmWindowS, phoneConfirmHits)
        invariant forall key :: key in requested <==> key.Phone? && key.trackId in confirmed
        invariant flags == RequestAll(before, requested, f.ts, cooldownS, reply)
          && Wrote(sessionStart, before, flags, written)
        invariant OfStudents(written, students)
      {
        var id := order[i];
        assert id !in order[..i] && order[..i + 1] == order[..i] + [id];
        label asking:
        var row := ConfirmPhone(f, id, students[id], reply(Key.Phone(id)));
        FlaggedToo(written, row, students);
        WroteMore(sessionStart, before, old@asking(flags), flags, written, AsList(row));
        FoldedMore(f, order[..i], id, evidence0, old@asking(evidence), evidence, old@asking(confirmed), confirmed,
                   phoneConfirmWindowS, phoneConfirmHits);
        written := written + AsList(row);
        if Confirms(evidence[id], phoneConfirmHits) {
          RequestAllSnoc(before, requested, Key.Phone(id), f.ts, cooldownS, reply);
          requested := requested + [Key.Phone(id)];
        }
        i := i + 1;
      }
      assert order[..i] == order;
    }

    /** `_prune_phone_evidence`. */
    method PruneEvidence(active: set<int>, ts: real)
      modifies `evidence
      ensures forall id, s: Sight :: s.ts == ts && (s.active <==> id in active) ==>
        Look(evidence, id) == Prune(old(Look(evidence, id)), s, phoneConfirmWindowS)
    {
      evidence := map id | id in evidence && id in active && evidence[id].timestamps != []
        && evidence[id].timestamps[|evidence[id].timestamps| - 1] >= ts - phoneConfirmWindowS :: evidence[id];
    }

    /** Exactly the confirmed phones are those the frames so far confirm. */
    ghost predicate ConfirmedNow()
      reads `confirmed, `frames
    {
      forall id :: id in confirmed <==> ConfirmsLast(SightsOf(frames, id), phoneConfirmWindowS, phoneConfirmHits)
    }

    /** The phone half of the pass: confirmation, then pruning. */
    method ObservePhones(f: FrameLog, order: seq<int>, students: map<int, Option<string>>, reply: Key -> Reply)
      returns (written: seq<FlagRow>, ghost requested: seq<Key>)
      requires FlagsValid() && EvidenceValid() && f.phones.Keys <= f.faces.Keys == students.Keys
        && Lists(order, f.phones)
      modifies `lastFlag, `flags, `evidence, `confirmed, `frames
      ensures FlagsValid() && EvidenceValid() && ConfirmedNow() && frames == old(frames) + [f]
      ensures forall id :: id in confirmed ==> id in f.phones && confirmed[id] == f.phones[id]
      ensures forall key :: key in requested <==> key.Phone? && key.trackId in confirmed
      ensures flags == RequestAll(old(flags), requested, f.ts, cooldownS, reply)
        && Wrote(sessionStart, old(flags), flags, written)
      ensures OfStudents(written, students)
    {
      hide FlagsValid, RequestAll, Wrote, Sighted, Confirms, EvidenceAfter, SightsOf, SightOf, Prune, ConfirmsLast,
          OfStudents;
      written, requested := ConfirmPhones(f, order, students, reply);
      label sighted:
      PruneEvidence(f.faces.Keys, f.ts);
      frames := frames + [f];
      forall id
        ensures Look(evidence, id) == EvidenceAfter(SightsOf(frames, id), phoneConfirmWindowS)
        ensures id in confirmed <==> ConfirmsLast(SightsOf(frames, id), phoneConfirmWindowS, phoneConfirmHits)
      {
        SightIs(f, id);
        EvidenceStep(old(frames), f, id, phoneConfirmWindowS, phoneConfirmHits, old(Look(evidence, id)),
                     old@sighted(Look(evidence, id)), Look(evidence, id));
      }
    }

    /** The last check of `observe`. */
    method CheckPersons(persons: nat, tracks: nat, ts: real, reply: Reply) returns (row: Option<FlagRow>)
      requires FlagsValid()
      modifies `lastFlag, `flags
      ensures FlagsValid()
      ensures flags == if persons > tracks then Request(old(flags), ExtraPerson, ts, cooldownS, reply) else old(flags)
      ensures Wrote(sessionStart, old(flags), flags, AsList(row))
      ensures row.Some? ==> row.value.key == ExtraPerson && row.value.studentId == None
    {
      hide FlagsValid, Request, Wrote, LongAgo;
      row := None;
      NothingWritten(sessionStart, flags);
      if persons > tracks {
        row := RaiseFlag(ExtraPerson, None, ts, reply);
        RowIsWritten(sessionStart, old(flags), ExtraPerson, None, ts, cooldownS, reply, row);
      }
    }

    /** Every face has been sampled, and has a head-pose candidate exactly if that triggered;
        the monitor has forgotten all other tracks. */
    twostate predicate AllSampled(faces: seq<Face>, ts: real, requested: seq<Key>)
      reads poseMonitor
    {
      && (forall k :: 0 <= k < |faces| ==>
           Sampled(poseMonitor, old(poseMonitor.HistoryOf(faces[k].trackId)), faces[k], ts,
                   poseMonitor.HistoryOf(faces[k].trackId), requested))
      && (forall id :: id !in IdsOf(faces) ==> poseMonitor.HistoryOf(id) == [])
    }

    /** The head-pose half of the pass. */
    method ObserveHeads(faces: seq<Face>, ts: real, reply: Key -> Reply)
      returns (written: seq<FlagRow>, ghost requested: seq<Key>)
      requires poseMonitor.Valid() && FlagsValid() && DistinctFaces(faces)
      modifies `lastFlag, `flags, poseMonitor
      ensures poseMonitor.Valid() && FlagsValid() && AllSampled(faces, ts, requested)
      ensures forall key :: key in requested ==> key.HeadPose? && key.trackId in IdsOf(faces)
      ensures flags == RequestAll(old(flags), requested, ts, cooldownS, reply)
        && Wrote(sessionStart, old(flags), flags, written)
      ensures OfStudents(written, StudentsOf(faces))
    {
      hide FlagsValid, RequestAll, Wrote, TriggersNow, HeadPose.HeadOrientationMonitor.Valid,
          HeadPose.HeadOrientationMonitor.HistoryOf, IdsOf, OfStudents;
      written, requested := ObservePoses(faces, ts, reply);
      IdsOfFaces(faces);
      RetainFaces(faces);
    }

    /** One exam-mode pass. The flags requested are, for every face in view, a head-pose
        candidate exactly if its pose newly sustained and a phone candidate exactly if its
        phone is confirmed by the frames so far, and one extra-person candidate exactly if
        more persons than faces were detected. A row is written for a candidate exactly if every
        earlier flag of its kind and track is at least the cooldown ago and the write is not
        refused, with the time of the pass and the student the face carries. */
    method Observe(faces: seq<Face>, detections: seq<Detection>, ts: real, reply: Key -> Reply)
      returns (written: seq<FlagRow>, ghost phones: map<int, Detection>, ghost poseKeys: seq<Key>,
               ghost phoneKeys: seq<Key>)
      requires Valid() && DistinctFaces(faces)
      modifies this, poseMonitor
      ensures Valid() && ConfirmedNow()
      ensures PhonesByTrack(detections, faces, phones) && frames == old(frames) + [FrameLog(ts, BoxesOf(faces), phones)]
      ensures AllSampled(faces, ts, poseKeys) && forall key :: key in poseKeys ==>
        key.HeadPose? && key.trackId in IdsOf(faces)
      ensures forall key :: key in phoneKeys <==> key.Phone? && key.trackId in confirmed
      ensures forall id :: id in confirmed ==> id in phones && confirmed[id] == phones[id]
      ensures var requested := poseKeys + phoneKeys
                               + (if CountPersons(detections) > |faces| then [ExtraPerson] else []);
        flags == RequestAll(old(flags), requested, ts, cooldownS, reply)
        && Wrote(sessionStart, old(flags), flags, written)
      ensures cooldownS >= 0.0 ==>
        forall key :: Flagged(written, key) <==>
          && (key in poseKeys || key in phoneKeys || (key == ExtraPerson && CountPersons(detections) > |faces|))
          && reply(key) != Refused && LongAgo(old(flags), key, ts, cooldownS)
      ensures (forall r :: r in written ==> r.flaggedAt == sessionStart + ts) && OfStudents(written, StudentsOf(faces))
    {
      hide FlagsValid, EvidenceValid, ConfirmedNow, RequestAll, AllSampled, PhonesByTrack, Request, Wrote,
           HeadPose.HeadOrientationMonitor.Valid, IdsOf, BoxesOf, CountPersons, OfStudents, LongAgo, StudentsOf;
      FlagsAreAdmitted();
      var writtenPoses, writtenPhones, kept, order;
      writtenPoses, poseKeys := ObserveHeads(faces, ts, reply);
      label posed:
      kept, order := SelectPhones(detections, faces);
      phones := kept;
      writtenPhones, phoneKeys := ObservePhones(FrameLog(ts, BoxesOf(faces), kept), order, StudentsOf(faces), reply);
      label phoned:
      WroteMore(sessionStart, old(flags), old@posed(flags), flags, writtenPoses, writtenPhones);
      RequestAllConcat(old(flags), poseKeys, phoneKeys, ts, cooldownS, reply);
      written := writtenPoses + writtenPhones;
      BothFlagged(writtenPoses, writtenPhones, StudentsOf(faces));
      var row := CheckPersons(CountPersons(detections), |faces|, ts, reply(ExtraPerson));
      WroteMore(sessionStart, old(flags), old@phoned(flags), flags, written, AsList(row));
      RequestAllSnoc(old(flags), poseKeys + phoneKeys, ExtraPerson, ts, cooldownS, reply);
      assert poseKeys + phoneKeys + [] == poseKeys + phoneKeys;
      FlaggedToo(written, row, StudentsOf(faces));
      written := written + AsList(row);
      ghost var requested := poseKeys + phoneKeys + (if CountPersons(detections) > |faces| then [ExtraPerson] else []);
      RowsOfPass(sessionStart, old(flags), requested, ts, cooldownS, reply, flags, written);
    }

    lemma FlagsAreAdmitted()
      requires FlagsValid()
      ensures Admitted(flags, cooldownS)
    {
    }

    /** `retain`: the monitor forgets the tracks that are out of view. */
    method RetainFaces(faces: seq<Face>)
      requires poseMonitor.Valid()
      modifies poseMonitor
      ensures poseMonitor.Valid()
      ensures forall id ::
        poseMonitor.HistoryOf(id) == if id in IdsOf(faces) then old(poseMonitor.HistoryOf(id)) else []
    {
      hide HeadPose.HeadOrientationMonitor.Valid;
      poseMonitor.Retain(IdsOf(faces));
    }
  }

  /** Passes `p` and `q` kept a phone for the track, and none between them did. */
  ghost predicate NextPhone(frames: seq<FrameLog>, trackId: int, p: int, q: int) {
    && 0 <= p < q < |frames| && trackId in frames[p].phones && trackId in frames[q].phones && trackId in frames[q].faces
    && forall k :: p < k < q ==> trackId !in frames[k].phones
  }

  /** From pass `from` on, the track's phone moved compatibly from each sighting to the next. */
  ghost predicate PhonesLinked(frames: seq<FrameLog>, trackId: int, from: int) {
    forall p, q :: from <= p && NextPhone(frames, trackId, p, q) ==>
      Compatible(frames[p].phones[trackId].box, frames[q].phones[trackId].box, frames[q].faces[trackId])
  }

  ghost predicate FramesOrdered(frames: seq<FrameLog>) {
    forall j, k :: 0 <= j <= k < |frames| ==> frames[j].ts <= frames[k].ts
  }

  lemma SightsLinkPhones(frames: seq<FrameLog>, trackId: int, from: nat)
    requires Linked(SightsOf(frames, trackId), from) && forall k :: from <= k < |frames| ==> trackId in frames[k].faces
    ensures PhonesLinked(frames, trackId, from)
  {
    hide Compatible;
    var sights := SightsOf(frames, trackId);
    forall p, q | from <= p && NextPhone(frames, trackId, p, q)
      ensures Compatible(frames[p].phones[trackId].box, frames[q].phones[trackId].box, frames[q].faces[trackId])
    {
      assert forall k :: p <= k <= q ==> sights[k] == SightOf(frames[k], trackId);
      assert NextSighting(sights, p, q);
    }
  }

  /** Whatever the engine reports as confirmed was seen on the same track in at least two
      distinct passes, at strictly increasing times inside the window. From the first of them
      on the track was in view in every pass, and the phone moved compatibly from each sighting
      to the next. */
  lemma ConfirmedPhoneIsReal(engine: ProctorEngine, trackId: int) returns (passes: seq<nat>)
    requires engine.Valid() && engine.ConfirmedNow() && trackId in engine.confirmed
    ensures |passes| >= 2 && |passes| >= engine.phoneConfirmHits
    ensures forall k :: 0 <= k < |passes| ==> passes[k] < |engine.frames| && trackId in engine.frames[passes[k]].phones
    ensures forall k :: 0 <= k < |passes| ==>
      engine.frames[passes[k]].ts >= engine.frames[|engine.frames| - 1].ts - engine.phoneConfirmWindowS
    ensures FramesOrdered(engine.frames) ==>
      forall k :: 0 <= k < |passes| ==> engine.frames[passes[k]].ts <= engine.frames[|engine.frames| - 1].ts
    ensures forall j, k :: 0 <= j < k < |passes| ==>
      passes[j] < passes[k] && engine.frames[passes[j]].ts < engine.frames[passes[k]].ts
    ensures forall k :: passes[0] <= k < |engine.frames| ==> trackId in engine.frames[k].faces
    ensures PhonesLinked(engine.frames, trackId, passes[0])
  {
    hide Linked, NextSighting, PhonesLinked, HeadPose.HeadOrientationMonitor.Valid;
    var sights := SightsOf(engine.frames, trackId);
    SightsAreAttributed(engine.frames, trackId);
    var timestamps;
    passes, timestamps := ConfirmedPhoneWasSightedTwice(sights, engine.phoneConfirmWindowS, engine.phoneConfirmHits);
    forall k | 0 <= k < |passes|
      ensures passes[k] < |engine.frames| && trackId in engine.frames[passes[k]].phones
        && engine.frames[passes[k]].ts == timestamps[k]
    {
      assert sights[passes[k]].phone.Some?;
    }
    forall k | passes[0] <= k < |engine.frames|
      ensures trackId in engine.frames[k].faces
    {
      assert sights[k].active;
    }
    SightsLinkPhones(engine.frames, trackId, passes[0]);
  }

  /** However often the engine is asked, its persisted flags of a key keep their distance. */
  lemma EngineFlagsAreSpaced(engine: ProctorEngine, i: nat, j: nat, from: real, length: real)
    requires engine.Valid() && engine.cooldownS > 0.0 && length >= 0.0
    requires i < j < |engine.flags| && engine.flags[i].key == engine.flags[j].key
    ensures engine.flags[j].ts - engine.flags[i].ts >= engine.cooldownS
    ensures CountIn(engine.flags, engine.flags[i].key, from, length) <= (length / engine.cooldownS).Floor + 1
  {
    FlagsAreSpaced(engine.flags, engine.cooldownS, i, j);
    FlagRate(engine.flags, engine.flags[i].key, engine.cooldownS, from, length);
  }

  function StudentsOf(faces: seq<Face>): (r: map<int, Option<string>>)
    requires DistinctFaces(faces)
    ensures r.Keys == IdsOf(faces)
    ensures forall k :: 0 <= k < |faces| ==> faces[k].trackId in r && r[faces[k].trackId] == faces[k].studentId
  {
    map id | id in IdsOf(faces) :: FaceOf(faces, id).studentId
  }

  lemma SampledBefore(monitor: HeadPose.HeadOrientationMonitor, before: seq<HeadPose.Sample>, face: Face, ts: real,
                      after: seq<HeadPose.Sample>, requested: seq<Key>, key: Key)
    requires Sampled(monitor, before, face, ts, after, requested) && key != Key.HeadPose(face.trackId)
    ensures Sampled(monitor, before, face, ts, after, requested + [key])
  {
  }

  lemma SampledNow(monitor: HeadPose.HeadOrientationMonitor, before: seq<HeadPose.Sample>, face: Face, ts: real,
                   after: seq<HeadPose.Sample>, requested: seq<Key>, triggered: bool)
    requires after == before + [SampleOf(monitor, face, ts)] && (triggered <==> TriggersNow(monitor, after))
    requires Key.HeadPose(face.trackId) !in requested
    ensures Sampled(monitor, before, face, ts, after,
                    if triggered then requested + [Key.HeadPose(face.trackId)] else requested)
  {
  }

  ghost predicate Flagged(written: seq<FlagRow>, key: Key) {
    exists r :: r in written && r.key == key
  }

  lemma NobodyFlagged(students: map<int, Option<string>>)
    ensures OfStudents([], students)
  {
  }

  lemma FlaggedToo(written: seq<FlagRow>, row: Option<FlagRow>, students: map<int, Option<string>>)
    requires OfStudents(written, students) && (row.Some? ==> OfStudents([row.value], students))
    ensures OfStudents(written + AsList(row), students)
  {
    if row.Some? {
      assert row.value in [row.value];
    }
  }

  lemma OneFlagged(face: Face, row: Option<FlagRow>, students: map<int, Option<string>>)
    requires face.trackId in students && students[face.trackId] == face.studentId
    requires row.Some? ==> row.value.key == Key.HeadPose(face.trackId) && row.value.studentId == face.studentId
    ensures row.Some? ==> OfStudents([row.value], students)
  {
  }

  lemma BothFlagged(a: seq<FlagRow>, b: seq<FlagRow>, students: map<int, Option<string>>)
    requires OfStudents(a, students) && OfStudents(b, students)
    ensures OfStudents(a + b, students)
  {
  }

  /** The rows of a pass, read off the history alone. */
  lemma RowsOfPass(sessionStart: real, flags: seq<Flag>, requested: seq<Key>, ts: real, cooldown: real,
                   reply: Key -> Reply, after: seq<Flag>, written: seq<FlagRow>)
    requires Admitted(flags, cooldown) && after == RequestAll(flags, requested, ts, cooldown, reply)
    requires Wrote(sessionStart, flags, after, written)
    ensures forall r :: r in written ==> r.flaggedAt == sessionStart + ts
    ensures cooldown >= 0.0 ==>
      forall key :: Flagged(written, key) <==>
        key in requested && reply(key) != Refused && LongAgo(flags, key, ts, cooldown)
  {
    hide RequestAll, LongAgo, Admitted;
    PassPersists(flags, requested, ts, cooldown, reply);
    var added := Added(flags, requested, ts, cooldown, reply);
    assert |written| == |added| && forall k :: 0 <= k < |added| ==> after[|flags| + k] == added[k];
    forall k | 0 <= k < |written|
      ensures written[k].key == added[k].key && written[k].flaggedAt == sessionStart + added[k].ts
      ensures added[k] in added
    {
      assert written[|flags| + k - |flags|].key == after[|flags| + k].key;
    }
    forall key
      ensures Flagged(written, key) <==> Flag(key, ts) in added
    {
      if Flagged(written, key) {
        var k :| 0 <= k < |written| && written[k].key == key;
        assert added[k] == Flag(key, ts);
      }
      if Flag(key, ts) in added {
        var k :| 0 <= k < |added| && added[k] == Flag(key, ts);
        assert written[k] in written && written[k].key == key;
      }
    }
  }

  ghost function PersonsAt(detections: seq<Detection>): set<int> {
    set i | 0 <= i < |detections| && detections[i].kind == Person
  }

  lemma PersonsAtLast(detections: seq<Detection>)
    requires detections != []
    ensures var n := |detections| - 1;
      && n !in PersonsAt(detections[..n])
      && PersonsAt(detections) == PersonsAt(detections[..n]) + if detections[n].kind == Person then {n} else {}
  {
  }

  /** The persons are the detections labelled so. */
  lemma {:induction false} PersonsAreCounted(detections: seq<Detection>)
    ensures CountPersons(detections) == |PersonsAt(detections)|
  {
    if detections == [] {
    } else {
      PersonsAreCounted(detections[..|detections| - 1]);
      PersonsAtLast(detections);
      hide PersonsAt;
    }
  }

  lemma SightIs(f: FrameLog, trackId: int)
    ensures SightOf(f, trackId).ts == f.ts && (SightOf(f, trackId).active <==> trackId in f.faces)
  {
  }

  /** Sighting, then pruning, is one step of the track's evidence. */
  lemma EvidenceStep(frames: seq<FrameLog>, f: FrameLog, trackId: int, window: real, hits: int,
                     before: Option<Evidence>, mid: Option<Evidence>, after: Option<Evidence>)
    requires before == EvidenceAfter(SightsOf(frames, trackId), window) && f.phones.Keys <= f.faces.Keys
    requires mid == if trackId in f.phones then Some(Sighted(before, SightOf(f, trackId), window)) else before
    requires after == Prune(mid, SightOf(f, trackId), window)
    ensures after == EvidenceAfter(SightsOf(frames + [f], trackId), window)
    ensures ConfirmsLast(SightsOf(frames + [f], trackId), window, hits)
       <==> trackId in f.phones && Confirms(Sighted(before, SightOf(f, trackId), window), hits)
  {
    hide Sighted, Prune, Confirms;
    SightsOfSnoc(frames, f, trackId);
    var sights, s := SightsOf(frames, trackId), SightOf(f, trackId);
    assert (sights + [s])[..|sights|] == sights;
  }

  lemma {:induction false} RequestAllConcat(flags: seq<Flag>, a: seq<Key>, b: seq<Key>, ts: real, cooldown: real,
                                            reply: Key -> Reply)
    ensures RequestAll(flags, a + b, ts, cooldown, reply)
      == RequestAll(RequestAll(flags, a, ts, cooldown, reply), b, ts, cooldown, reply)
  {
    hide Request;
    if b == [] {
      assert a + b == a;
    } else {
      assert (a + b)[..|a + b| - 1] == a + b[..|b| - 1];
      RequestAllConcat(flags, a, b[..|b| - 1], ts, cooldown, reply);
    }
  }

  /** The face has been sampled this frame, and a candidate requested exactly if that triggered. */
  ghost predicate Sampled(monitor: HeadPose.HeadOrientationMonitor, before: seq<HeadPose.Sample>, face: Face, ts: real,
                          after: seq<HeadPose.Sample>, requested: seq<Key>)
  {
    && after == before + [SampleOf(monitor, face, ts)]
    && (Key.HeadPose(face.trackId) in requested <==> TriggersNow(monitor, after))
  }

  lemma RowIsWritten(sessionStart: real, flags: seq<Flag>, key: Key, studentId: Option<string>, ts: real,
                     cooldown: real, reply: Reply, row: Option<FlagRow>)
    requires row
      == if Request(flags, key, ts, cooldown, reply) == flags then None
         else Some(FlagRow(key, sessionStart + ts, studentId))
    ensures Wrote(sessionStart, flags, Request(flags, key, ts, cooldown, reply), AsList(row))
  {
    hide CooledDown;
    assert flags + [Flag(key, ts)] != flags;
  }

  lemma NothingWritten(sessionStart: real, flags: seq<Flag>)
    ensures Wrote(sessionStart, flags, flags, [])
  {
  }

  lemma IdsOfFaces(faces: seq<Face>)
    ensures forall k :: 0 <= k < |faces| ==> faces[k].trackId in IdsOf(faces)
  {
  }

  lemma MissingNeverTriggers(monitor: HeadPose.HeadOrientationMonitor, samples: seq<HeadPose.Sample>, ts: real)
    ensures !TriggersNow(monitor, samples + [HeadPose.Sample(HeadPose.Missing, ts)])
  {
    var all := samples + [HeadPose.Sample(HeadPose.Missing, ts)];
    assert all[..|all|] == all;
  }

  lemma FlagSnoc(flags: seq<Flag>, f: Flag, cooldown: real)
    ensures forall key :: LastOf(flags + [f], key) == if key == f.key then Some(f.ts) else LastOf(flags, key)
    ensures Admitted(flags, cooldown) && CooledDown(flags, f.key, f.ts, cooldown) ==> Admitted(flags + [f], cooldown)
  {
    hide CooledDown;
    assert (flags + [f])[..|flags|] == flags;
    assert forall j :: 0 <= j < |flags| ==> (flags + [f])[..j] == flags[..j];
  }

  // ---------- Which face a phone is put to ----------

  /** A phone is in reach of a face if its centre lies below the face's, by at most 2.75 face heights
      and at most 1.5 face widths to a side, or at most 1.5 face diagonals away and no more than 0.75
      heights above it. In doubled coordinates, where everything is whole. */
  lemma InReachIff(phone: PixelBox, face: PixelBox)
    ensures var (w, h) := (if face.x2 - face.x1 > 1 then face.x2 - face.x1 else 1,
                           if face.y2 - face.y1 > 1 then face.y2 - face.y1 else 1);
      var (x, y) := (phone.x1 + phone.x2 - face.x1 - face.x2, phone.y1 + phone.y2 - face.y1 - face.y2);
      Score2(phone, face).Some? <==>
        || (0 <= 2 * y <= 11 * h && -3 * w <= x <= 3 * w)
        || (-3 * h <= 2 * y && x * x + y * y <= 9 * (w * w + h * h))
  {
    var (w, h) := (if face.x2 - face.x1 > 1 then face.x2 - face.x1 else 1,
                   if face.y2 - face.y1 > 1 then face.y2 - face.y1 else 1);
    var (x, y) := (phone.x1 + phone.x2 - face.x1 - face.x2, phone.y1 + phone.y2 - face.y1 - face.y2);
    assert Width(face) == w as real && Height(face) == h as real;
    ReachIs(phone, face);
    HalfSquared(x, CentreX(phone) - CentreX(face));
    HalfSquared(y, CentreY(phone) - CentreY(face));
    WholeSquared(w);
    WholeSquared(h);
    NearInWhole(x, y, w, h, CentreX(phone) - CentreX(face), CentreY(phone) - CentreY(face));
    hide Sq, Score2, Width, Height;
  }

  lemma NearInWhole(x: int, y: int, w: int, h: int, dx: real, dy: real)
    requires 4.0 * Sq(dx) == (x * x) as real && 4.0 * Sq(dy) == (y * y) as real
    requires Sq(w as real) == (w * w) as real && Sq(h as real) == (h * h) as real
    ensures Sq(dx) + Sq(dy) <= 2.25 * (Sq(w as real) + Sq(h as real)) <==> x * x + y * y <= 9 * (w * w + h * h)
  {
    hide Sq;
  }

  /** When a phone is in reach, and how a face in reach scores: the square of how far out in the area
      below it the phone is, or of the distance in diagonals, whichever applies, and the lesser of
      the two if both do. */
  lemma ReachIs(phone: PixelBox, face: PixelBox)
    ensures var (w, h) := (Width(face), Height(face));
      var (x, y) := (CentreX(phone) - CentreX(face), CentreY(phone) - CentreY(face));
      var (below, near) := (0.0 <= y <= 2.75 * h && -1.5 * w <= x <= 1.5 * w,
                            -0.75 * h <= y && Sq(x) + Sq(y) <= 2.25 * (Sq(w) + Sq(h)));
      && (Score2(phone, face).Some? <==> below || near)
      && (below || near ==>
          var (score, out, away) := (Score2(phone, face).value, Outness(x, y, w, h),
                                     SqDistance(phone, face) / Diagonal2(face));
          && (below ==> score <= out) && (near ==> score <= away)
          && ((below && score == out) || (near && score == away)))
  {
    var x := CentreX(phone) - CentreX(face);
    OutnessToEitherSide(x, CentreY(phone) - CentreY(face), Width(face), Height(face));
    assert -x == CentreX(face) - CentreX(phone);
    hide Width, Height, Sq, Outness;
  }

  /** One and a half widths to a side, or 2.75 heights down, is all the way out; to the left counts
      as to the right. */
  lemma OutnessToEitherSide(x: real, y: real, w: real, h: real)
    requires w >= 1.0 && h >= 1.0
    ensures Outness(-x, y, w, h) == Outness(x, y, w, h)
    ensures Outness(1.5 * w, 0.0, w, h) == Outness(0.0, 2.75 * h, w, h) == 1.0
  {
    assert (-x) / (1.5 * w) == -(x / (1.5 * w));
  }

  /** A phone kept for a track is a cell phone in reach of that track's face, and of no face with a
      lesser score, nor of an earlier one with the same. */
  lemma KeptPhoneIsInReach(detections: seq<Detection>, faces: seq<Face>, phones: map<int, Detection>, id: int)
    requires PhonesByTrack(detections, faces, phones) && id in phones
    ensures phones[id] in detections && phones[id].kind == CellPhone
    ensures exists k ::
      && 0 <= k < |faces| && faces[k].trackId == id && Score2(phones[id].box, faces[k].box).Some?
      && forall l :: 0 <= l < |faces| && Score2(phones[id].box, faces[l].box).Some? ==>
           && Score2(phones[id].box, faces[l].box).value >= Score2(phones[id].box, faces[k].box).value
           && (l < k ==> Score2(phones[id].box, faces[l].box).value > Score2(phones[id].box, faces[k].box).value)
  {
    hide Score2;
    assert PhoneFor(detections, faces, id, phones[id]);
    var i :| Claims(detections, faces, id, i) && 0 <= i < |detections| && detections[i] == phones[id];
    var k: nat :| k < |faces| && IsNearest(detections[i].box, faces, Some(k)) && faces[k].trackId == id;
  }

  /** Conversely a cell phone in reach of one face, and of no other with as little a score, gives that
      face's track a phone, at least as confident. */
  lemma PhoneInReachIsKept(detections: seq<Detection>, faces: seq<Face>, phones: map<int, Detection>, i: nat, k: nat)
    requires PhonesByTrack(detections, faces, phones) && i < |detections| && k < |faces|
    requires detections[i].kind == CellPhone && Score2(detections[i].box, faces[k].box).Some?
    requires forall l :: 0 <= l < |faces| && l != k && Score2(detections[i].box, faces[l].box).Some? ==>
      Score2(detections[i].box, faces[l].box).value > Score2(detections[i].box, faces[k].box).value
    ensures faces[k].trackId in phones && phones[faces[k].trackId].confidence >= detections[i].confidence
  {
    hide Score2;
    assert IsNearest(detections[i].box, faces, Some(k));
    assert Claims(detections, faces, faces[k].trackId, i);
  }

  /** Of the phones put to one track the most confident is kept, and the earliest of those. */
  lemma KeptPhoneIsFirstOfTheBest(detections: seq<Detection>, faces: seq<Face>, phones: map<int, Detection>, id: int)
    returns (i: nat)
    requires PhonesByTrack(detections, faces, phones) && id in phones
    ensures i < |detections| && detections[i] == phones[id] && Claims(detections, faces, id, i)
    ensures forall j :: 0 <= j < |detections| && Claims(detections, faces, id, j) ==>
      if j < i then detections[j].confidence < detections[i].confidence
      else detections[j].confidence <= detections[i].confidence
  {
    hide Claims;
    assert PhoneFor(detections, faces, id, phones[id]);
    var k :| Claims(detections, faces, id, k) && 0 <= k < |detections| && detections[k] == phones[id]
      && forall j :: Claims(detections, faces, id, j) && 0 <= j < |detections| ==>
           if j < k then detections[j].confidence < phones[id].confidence
           else detections[j].confidence <= phones[id].confidence;
    i := k;
  }
}
