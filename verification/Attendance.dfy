/**
 Cumulative attendance, backend/presence/attendance.py: per student, what all the
 sightings so far amount to. `log` is the history the records must answer to.
 */
module Attendance {
  import opened Wrappers

  datatype Sighting = Sighting(studentId: string, score: real, ts: real)

  datatype Record = Record(firstSeen: Option<real>, lastSeen: Option<real>, totalSightings: nat, bestScore: real)

  function Count(log: seq<Sighting>, studentId: string): nat {
    if log == [] then 0
    else Count(log[..|log| - 1], studentId) + if log[|log| - 1].studentId == studentId then 1 else 0
  }

  ghost predicate Names(log: seq<Sighting>, studentId: string, i: int) {
    0 <= i < |log| && log[i].studentId == studentId
  }

  /** The record of a student who has been seen: how often, from when to when, and the best
      score, which is never below zero. */
  ghost predicate Sums(log: seq<Sighting>, studentId: string, rec: Record) {
    && rec.totalSightings == Count(log, studentId)
    && (exists i ::
          Names(log, studentId, i) && rec.firstSeen == Some(log[i].ts)
          && forall j :: Names(log, studentId, j) ==> i <= j)
    && (exists i ::
          Names(log, studentId, i) && rec.lastSeen == Some(log[i].ts)
          && forall j :: Names(log, studentId, j) ==> j <= i)
    && rec.bestScore >= 0.0
    && (forall i :: Names(log, studentId, i) ==> log[i].score <= rec.bestScore)
    && (rec.bestScore == 0.0 || exists i :: Names(log, studentId, i) && log[i].score == rec.bestScore)
  }

  lemma CountSnoc(log: seq<Sighting>, s: Sighting)
    ensures forall id :: Count(log + [s], id) == Count(log, id) + if s.studentId == id then 1 else 0
  {
    assert (log + [s])[..|log|] == log;
  }

  lemma NamesSnoc(log: seq<Sighting>, s: Sighting, id: string)
    ensures forall i :: Names(log + [s], id, i) <==> Names(log, id, i) || (i == |log| && s.studentId == id)
  {
  }

  lemma SumsFirst(log: seq<Sighting>, s: Sighting)
    requires forall i :: !Names(log, s.studentId, i)
    requires Count(log, s.studentId) == 0
    ensures Sums(log + [s], s.studentId, Record(Some(s.ts), Some(s.ts), 1, if s.score > 0.0 then s.score else 0.0))
  {
    NamesSnoc(log, s, s.studentId);
    CountSnoc(log, s);
    assert Names(log + [s], s.studentId, |log|);
  }

  lemma SumsAgain(log: seq<Sighting>, s: Sighting, rec: Record)
    requires Sums(log, s.studentId, rec)
    ensures Sums(log + [s], s.studentId,
                 Record(rec.firstSeen, Some(s.ts), rec.totalSightings + 1,
                        if s.score > rec.bestScore then s.score else rec.bestScore))
  {
    NamesSnoc(log, s, s.studentId);
    CountSnoc(log, s);
    var all := log + [s];
    assert Names(all, s.studentId, |log|);
    var first :| Names(log, s.studentId, first) && rec.firstSeen == Some(log[first].ts)
        && forall j :: Names(log, s.studentId, j) ==> first <= j;
    assert Names(all, s.studentId, first) && all[first] == log[first];
    if rec.bestScore != 0.0 {
      var best :| Names(log, s.studentId, best) && log[best].score == rec.bestScore;
      assert Names(all, s.studentId, best) && all[best] == log[best];
    }
  }

  lemma SumsOther(log: seq<Sighting>, s: Sighting, id: string, rec: Record)
    requires id != s.studentId && Sums(log, id, rec)
    ensures Sums(log + [s], id, rec)
  {
    NamesSnoc(log, s, id);
    CountSnoc(log, s);
    var all := log + [s];
    assert forall i :: Names(log, id, i) ==> all[i] == log[i];
    var first :| Names(log, id, first) && rec.firstSeen == Some(log[first].ts)
        && forall j :: Names(log, id, j) ==> first <= j;
    var last :| Names(log, id, last) && rec.lastSeen == Some(log[last].ts)
        && forall j :: Names(log, id, j) ==> j <= last;
    assert Names(all, id, first) && Names(all, id, last);
    if rec.bestScore != 0.0 {
      var best :| Names(log, id, best) && log[best].score == rec.bestScore;
      assert Names(all, id, best);
    }
  }

  lemma {:induction false} CountIsPositive(log: seq<Sighting>, id: string)
    ensures Count(log, id) > 0 <==> exists i :: Names(log, id, i)
  {
    if log == [] {
    } else {
      var front, last := log[..|log| - 1], log[|log| - 1];
      CountIsPositive(front, id);
      assert log == front + [last];
      assert forall i :: Names(log, id, i) <==> Names(front, id, i) || (i == |front| && last.studentId == id);
      if last.studentId == id {
        assert Names(log, id, |front|);
      }
    }
  }

  lemma {:induction false} CountGrows(log: seq<Sighting>, more: seq<Sighting>, id: string)
    ensures Count(log, id) <= Count(log + more, id)
  {
    if more == [] {
      assert log + more == log;
    } else {
      var n := |more| - 1;
      CountGrows(log, more[..n], id);
      assert (log + more)[..|log + more| - 1] == log + more[..n];
    }
  }

  /** Who has attended, read off the history. */
  ghost predicate Attended(log: seq<Sighting>, threshold: int, id: string) {
    Count(log, id) > 0 && Count(log, id) >= threshold
  }

  /** ATTENDED never flips back, whatever is seen later. */
  lemma AttendedNeverFlipsBack(log: seq<Sighting>, more: seq<Sighting>, threshold: int, id: string)
    requires Attended(log, threshold, id)
    ensures Attended(log + more, threshold, id)
  {
    CountGrows(log, more, id);
  }

  class CumulativeAttendance {
    const threshold: int
    var records: map<string, Record>
    ghost var log: seq<Sighting>

    ghost predicate Valid()
      reads this
    {
      forall id :: if id in records then Sums(log, id, records[id]) else Count(log, id) == 0
    }

    constructor (threshold: int)
      ensures Valid() && this.threshold == threshold
      ensures records == map[] && log == []
    {
      this.threshold := threshold;
      records, log := map[], [];
    }

    method Observe(studentId: string, score: real, ts: real)
      requires Valid()
      modifies this
      ensures Valid() && log == old(log) + [Sighting(studentId, score, ts)]
    {
      hide Sums, Count;
      ghost var s := Sighting(studentId, score, ts);
      CountSnoc(log, s);
      forall id | id != studentId && id in records
        ensures Sums(log + [s], id, records[id])
      {
        SumsOther(log, s, id, records[id]);
      }
      if studentId !in records {
        CountIsPositive(log, studentId);
        SumsFirst(log, s);
        records := records[studentId := Record(Some(ts), Some(ts), 1, if score > 0.0 then score else 0.0)];
      } else {
        var rec := records[studentId];
        SumsAgain(log, s, rec);
        records := records[studentId := Record(rec.firstSeen, Some(ts), rec.totalSightings + 1,
                                               if score > rec.bestScore then score else rec.bestScore)];
      }
      log := log + [s];
    }

    function AttendedIds(): set<string>
      reads this
    {
      set id | id in records && records[id].totalSightings >= threshold
    }

    /** The set the source reports is the set the history defines. */
    lemma AttendedIdsAreAttended()
      requires Valid()
      ensures forall id :: id in AttendedIds() <==> Attended(log, threshold, id)
    {
      forall id
        ensures id in AttendedIds() <==> Attended(log, threshold, id)
      {
        CountIsPositive(log, id);
      }
    }
  }

  /** The places of the log that name the student. */
  ghost function NamedAt(log: seq<Sighting>, studentId: string): set<int> {
    set i | 0 <= i < |log| && log[i].studentId == studentId
  }

  /** A student's total is the number of sightings logged for them. */
  lemma {:induction false} SightingsAreCounted(log: seq<Sighting>, studentId: string)
    ensures Count(log, studentId) == |NamedAt(log, studentId)|
  {
    if log == [] {
    } else {
      var n := |log| - 1;
      SightingsAreCounted(log[..n], studentId);
      NamedAtLast(log, studentId);
      hide NamedAt;
    }
  }

  lemma NamedAtLast(log: seq<Sighting>, studentId: string)
    requires log != []
    ensures var n := |log| - 1;
      && n !in NamedAt(log[..n], studentId)
      && NamedAt(log, studentId)
         == NamedAt(log[..n], studentId) + if log[n].studentId == studentId then {n} else {}
  {
  }

  /** What a record says of a log whose times do not go back: nobody saw the student before the first
      time or after the last, each is the time of a sighting, and no sighting scored more than the
      best score, which is one of theirs or zero. */
  lemma RecordSays(log: seq<Sighting>, studentId: string, rec: Record, i: nat)
    requires Sums(log, studentId, rec) && i < |log| && log[i].studentId == studentId
    requires forall j, k :: 0 <= j <= k < |log| ==> log[j].ts <= log[k].ts
    ensures rec.firstSeen.Some? && rec.lastSeen.Some?
    ensures rec.firstSeen.value <= log[i].ts <= rec.lastSeen.value && log[i].score <= rec.bestScore
    ensures exists j :: 0 <= j < |log| && log[j].studentId == studentId && log[j].ts == rec.firstSeen.value
    ensures exists j :: 0 <= j < |log| && log[j].studentId == studentId && log[j].ts == rec.lastSeen.value
    ensures rec.bestScore == 0.0
         || exists j :: 0 <= j < |log| && log[j].studentId == studentId && log[j].score == rec.bestScore
    ensures rec.totalSightings == |NamedAt(log, studentId)|
  {
    SightingsAreCounted(log, studentId);
    assert Names(log, studentId, i);
  }
}
