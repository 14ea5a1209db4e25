/**
 The capture loop of backend/app/ws.py: every frame through the pipeline, its transitions to
 the recorder, and both closed when the session ends.
 */
module Capture {
  import opened Wrappers
  import opened PresenceFsm
  import opened Recorder
  import opened Pipeline
  import opened Runs

  /** Between frames: the machine follows the passes so far, and so do the recorder's rows. */
  ghost predicate InStep(onRoster: bool, threshold: int, looks: seq<Look>, v: View, studentId: string, rows: seq<Row>,
                         sessionStart: real) {
    && Follows(onRoster, threshold, looks, v)
    && rows == if onRoster then RecordRun(studentId, threshold, looks, sessionStart) else []
  }

  lemma StaysInStep(onRoster: bool, threshold: int, log: seq<Trace>, tr: Trace, studentId: string, before: View,
                    after: View, reported: seq<State>, rows: seq<Row>, sessionStart: real)
    requires InStep(onRoster, threshold, LooksOf(log, studentId), before, studentId, rows, sessionStart)
    requires Turn(tr.isPass && onRoster, before, after, reported, studentId in tr.seen, threshold, tr.ts)
    ensures InStep(onRoster, threshold, LooksOf(log + [tr], studentId), after, studentId,
                   RecordAll(rows, studentId, reported, sessionStart + tr.ts), sessionStart)
  {
    hide Step, Reported, RecordAll, LooksOf, StatesFor;
    TurnFollows(onRoster, threshold, log, tr, studentId, before, after, reported);
    LooksOfSnoc(log, tr);
    var looks, last := LooksOf(log, studentId), Look(tr.ts, studentId in tr.seen);
    RecordAllOne(rows, studentId, Present, sessionStart + tr.ts);
    if tr.isPass && onRoster {
      RunSnoc(threshold, looks, last);
      assert (looks + [last])[..|looks|] == looks;
    }
  }

  /** What a finished session leaves of one student: the rows other than ABSENT are the
      machine's intervals, and the PRESENT rows, the seconds the machine reports as present and
      the time that followed a sighting are all the same. */
  ghost predicate BooksAgree(onRoster: bool, looks: seq<Look>, until: real, closed: seq<Span>, presentS: real,
                             rows: seq<Row>, sessionStart: real) {
    && CameraSpans(rows, sessionStart) == closed
    && Tiled(rows)
    && RowTime(rows, Present) == presentS == (if onRoster then SeenCredit(looks, until) else 0.0)
    && (rows != [] ==> && FirstSighting(looks).Some? && rows[0].startedAt == sessionStart + FirstSighting(looks).value
                       && rows[|rows| - 1].endedAt == Some(sessionStart + until))
  }

  lemma ClosingTheBooks(onRoster: bool, threshold: int, looks: seq<Look>, v: View, studentId: string, rows: seq<Row>,
                        sessionStart: real, until: real)
    requires InStep(onRoster, threshold, looks, v, studentId, rows, sessionStart)
    ensures var closed := CloseOpen(v, until).closed;
      BooksAgree(onRoster, looks, until, closed, TimeIn(closed, Present), CloseLast(rows, sessionStart + until),
                 sessionStart)
  {
    if onRoster {
      RowsAreIntervals(studentId, threshold, looks, sessionStart, until);
      RowTimeIsSpanTime(CloseLast(rows, sessionStart + until), sessionStart, Present);
      PresentTimeFollowsSightings(threshold, looks, until);
    }
  }

  /** The capture loop of a session, from the first frame to the "end" message. */
  method RunSession(frames: seq<Frame>, pipeline: SessionPipeline, recorder: SessionRecorder, endTs: real)
    returns (ghost log: seq<Trace>)
    requires pipeline.Valid() && pipeline.Fresh() && recorder.Valid() && recorder.rows == []
    modifies pipeline, pipeline.tracker, pipeline.attendance, pipeline.fsm, recorder
    ensures At(pipeline, frames, log) && Traced(pipeline.Setup(), frames, log)
    ensures forall s :: BooksAgree(s in pipeline.roster, LooksOf(log, s), endTs, SpansOf(pipeline.fsm.intervals, s),
                                   pipeline.fsm.PresentSeconds(s), RowsOf(recorder.rows, s), recorder.sessionStart)
    ensures forall id: nat :: id < |recorder.rows| ==>
      recorder.rows[id].endedAt.Some? && multiset(recorder.closes)[id] == 1
  {
    hide At, Turn, Traced, SessionRecorder.Valid, SessionPipeline.Valid, SessionPipeline.Fresh, PresenceFSM.ViewOf,
        InStep, RowsOf, LooksOf, StatesFor, RecordAll, BooksAgree, CloseOpen, CloseLast, SpansOf;
    log := [];
    ghost var threshold, start := pipeline.fsm.missThreshold, recorder.sessionStart;
    StartsAt(pipeline);
    StartsInStep(pipeline, recorder);
    var i := 0;
    while i < |frames|
      invariant 0 <= i <= |frames| && recorder.Valid()
      invariant At(pipeline, frames[..i], log)
      invariant forall s ::
        InStep(s in pipeline.roster, threshold, LooksOf(log, s), pipeline.fsm.ViewOf(s), s, RowsOf(recorder.rows, s),
               start)
    {
      label before:
      var present, transitions;
      ghost var tr;
      present, transitions, tr := Feed(pipeline, frames[i], frames[..i], log);
      if transitions != [] {
        recorder.Record(transitions, frames[i].ts);
      } else {
        NothingRecorded(start + tr.ts);
      }
      forall s
        ensures InStep(s in pipeline.roster, threshold, LooksOf(log + [tr], s), pipeline.fsm.ViewOf(s), s,
                       RowsOf(recorder.rows, s), start)
      {
        StaysInStep(s in pipeline.roster, threshold, log, tr, s, old@before(pipeline.fsm.ViewOf(s)),
                    pipeline.fsm.ViewOf(s),
                    StatesFor(transitions, s), old@before(RowsOf(recorder.rows, s)), start);
      }
      log := log + [tr];
      assert frames[..i + 1] == frames[..i] + [frames[i]];
      i := i + 1;
    }
    assert frames[..i] == frames;
    assert Traced(pipeline.Setup(), frames, log) by {
      AtIsTraced(pipeline, frames, log);
    }
    label done:
    pipeline.fsm.EndSession(endTs);
    recorder.Close(endTs);
    forall s
      ensures BooksAgree(s in pipeline.roster, LooksOf(log, s), endTs, SpansOf(pipeline.fsm.intervals, s),
                         pipeline.fsm.PresentSeconds(s), RowsOf(recorder.rows, s), start)
    {
      ClosingTheBooks(s in pipeline.roster, threshold, LooksOf(log, s), old@done(pipeline.fsm.ViewOf(s)), s,
                      old@done(RowsOf(recorder.rows, s)), start, endTs);
      ViewIsSpans(pipeline.fsm, s);
    }
  }

  lemma ViewIsSpans(fsm: PresenceFSM, studentId: string)
    ensures fsm.ViewOf(studentId).closed == SpansOf(fsm.intervals, studentId)
    ensures fsm.PresentSeconds(studentId) == TimeIn(fsm.ViewOf(studentId).closed, Present)
  {
  }

  lemma StartsInStep(pipeline: SessionPipeline, recorder: SessionRecorder)
    requires pipeline.Fresh() && recorder.rows == []
    ensures forall s ::
      InStep(s in pipeline.roster, pipeline.fsm.missThreshold, LooksOf([], s), pipeline.fsm.ViewOf(s), s,
                               RowsOf(recorder.rows, s), recorder.sessionStart)
  {
  }

  lemma NothingRecorded(at: real)
    ensures forall s, rows :: RecordAll(rows, s, StatesFor([], s), at) == rows
  {
  }
}
