/**
 `SessionRecorder` of backend/app/store.py: turns reported transitions into presence rows,
 closing the student's open row (a PATCH of the same id) before opening the next.

 The table a writer would hold is `rows`, a row's id being its position; `closes` lists the
 ids of the close calls in order. Unlike the machine, the recorder also writes ABSENT rows.
 */
module Recorder {
  import opened Wrappers
  import opened PresenceFsm

  datatype Row = Row(studentId: string, state: State, startedAt: real, endedAt: Option<real>)

  function RowsOf(rows: seq<Row>, studentId: string): seq<Row> {
    if rows == [] then []
    else
      var front, last := RowsOf(rows[..|rows| - 1], studentId), rows[|rows| - 1];
      if last.studentId == studentId then front + [last] else front
  }

  lemma RowsOfSnoc(rows: seq<Row>, last: Row)
    ensures forall s ::
      RowsOf(rows + [last], s) == if last.studentId == s then RowsOf(rows, s) + [last] else RowsOf(rows, s)
  {
    assert (rows + [last])[..|rows|] == rows;
  }

  // ---------- One student's rows ----------

  function CloseLast(rows: seq<Row>, at: real): (r: seq<Row>)
    ensures |r| == |rows|
  {
    if rows == [] || rows[|rows| - 1].endedAt.Some? then rows
    else rows[..|rows| - 1] + [rows[|rows| - 1].(endedAt := Some(at))]
  }

  function RecordOne(rows: seq<Row>, studentId: string, state: State, at: real): seq<Row> {
    CloseLast(rows, at) + [Row(studentId, state, at, None)]
  }

  function RecordAll(rows: seq<Row>, studentId: string, states: seq<State>, at: real): seq<Row> {
    if states == [] then rows
    else RecordOne(RecordAll(rows, studentId, states[..|states| - 1], at), studentId, states[|states| - 1], at)
  }

  lemma RecordAllSnoc(rows: seq<Row>, studentId: string, states: seq<State>, last: State, at: real)
    ensures RecordAll(rows, studentId, states + [last], at)
      == RecordOne(RecordAll(rows, studentId, states, at), studentId, last, at)
  {
    assert (states + [last])[..|states|] == states;
  }

  lemma RecordAllOne(rows: seq<Row>, studentId: string, state: State, at: real)
    ensures RecordAll(rows, studentId, [], at) == rows
    ensures RecordAll(rows, studentId, [state], at) == RecordOne(rows, studentId, state, at)
  {
    RecordAllSnoc(rows, studentId, [], state, at);
    assert [] + [state] == [state];
  }

  /** Each row but the last is closed at the instant the next one opens. */
  ghost predicate Tiled(rows: seq<Row>) {
    forall i, j :: 0 <= i < j < |rows| && j == i + 1 ==>
        rows[i].endedAt == Some(rows[j].startedAt) && rows[i].state != rows[j].state
  }

  /** The closed rows other than ABSENT, in session time. */
  function CameraSpans(rows: seq<Row>, sessionStart: real): seq<Span> {
    if rows == [] then []
    else
      var front, last := CameraSpans(rows[..|rows| - 1], sessionStart), rows[|rows| - 1];
      if last.state != Absent && last.endedAt.Some? then
        front + [Span(last.state, last.startedAt - sessionStart, last.endedAt.value - sessionStart)]
      else front
  }

  lemma CameraSpansSnoc(rows: seq<Row>, last: Row, sessionStart: real)
    ensures CameraSpans(rows + [last], sessionStart)
         == if last.state != Absent && last.endedAt.Some? then
              CameraSpans(rows, sessionStart)
              + [Span(last.state, last.startedAt - sessionStart, last.endedAt.value - sessionStart)]
            else CameraSpans(rows, sessionStart)
  {
    assert (rows + [last])[..|rows|] == rows;
  }

  // ---------- The recorder driven by the machine ----------

  /** The rows of one student once the recorder has been handed every report of `looks`. */
  function RecordRun(studentId: string, threshold: int, looks: seq<Look>, sessionStart: real): seq<Row> {
    if looks == [] then []
    else
      var prefix, last := looks[..|looks| - 1], looks[|looks| - 1];
      RecordAll(RecordRun(studentId, threshold, prefix, sessionStart), studentId,
                Reported(Run(threshold, prefix).track.state, Run(threshold, looks).track.state), sessionStart + last.ts)
  }

  /** The rows tell what the machine knows: the last one is its state, still open, and the
      others hold its closed intervals. */
  ghost predicate Mirrors(rows: seq<Row>, v: View, sessionStart: real) {
    if rows == [] then v == FRESH_VIEW.(track := v.track) && v.track.state == Absent && v.track.openInterval.None?
    else
      var last := rows[|rows| - 1];
      && last.endedAt.None? && last.state == v.track.state
      && Tiled(rows)
      && CameraSpans(rows[..|rows| - 1], sessionStart) == v.closed
      && v.track.openInterval
         == (if last.state == Absent then None else Some(OpenInterval(last.state, last.startedAt - sessionStart)))
  }

  lemma CloseLastTiles(rows: seq<Row>, at: real)
    requires Tiled(rows)
    ensures Tiled(CloseLast(rows, at))
  {
  }

  /** Closing the machine's interval is closing the row. */
  lemma ShutSpan(v: View, last: Row, sessionStart: real, until: real)
    requires v.track.openInterval
      == (if last.state == Absent then None else Some(OpenInterval(last.state, last.startedAt - sessionStart)))
    ensures CloseOpen(v, until).closed
         == if last.state == Absent then v.closed
             else v.closed + [Span(last.state, last.startedAt - sessionStart, until)]
  {
  }

  lemma ShutRows(front: seq<Row>, last: Row, v: View, sessionStart: real, until: real)
    requires CameraSpans(front, sessionStart) == v.closed
    requires v.track.openInterval
      == (if last.state == Absent then None else Some(OpenInterval(last.state, last.startedAt - sessionStart)))
    ensures CameraSpans(front + [last.(endedAt := Some(sessionStart + until))], sessionStart)
      == CloseOpen(v, until).closed
  {
    hide CameraSpans, CloseOpen;
    CameraSpansSnoc(front, last.(endedAt := Some(sessionStart + until)), sessionStart);
    assert (sessionStart + until) - sessionStart == until;
    ShutSpan(v, last, sessionStart, until);
  }

  lemma CloseLastIs(rows: seq<Row>, at: real)
    requires rows != [] && rows[|rows| - 1].endedAt.None?
    ensures CloseLast(rows, at) == rows[..|rows| - 1] + [rows[|rows| - 1].(endedAt := Some(at))]
  {
  }

  lemma NothingMirrors(v: View, sessionStart: real, until: real)
    requires v.closed == [] && v.track.openInterval.None?
    ensures CameraSpans(CloseLast([], sessionStart + until), sessionStart) == CloseOpen(v, until).closed
  {
  }

  lemma CloseLastMirrors(rows: seq<Row>, v: View, sessionStart: real, until: real)
    requires Mirrors(rows, v, sessionStart)
    ensures CameraSpans(CloseLast(rows, sessionStart + until), sessionStart) == CloseOpen(v, until).closed
    ensures Tiled(CloseLast(rows, sessionStart + until))
  {
    hide CameraSpans, CloseOpen, CloseLast, Tiled;
    assert Tiled(rows) by {
      MirrorsIsTiled(rows, v, sessionStart);
    }
    CloseLastTiles(rows, sessionStart + until);
    if rows == [] {
      NothingMirrors(v, sessionStart, until);
    } else {
      CloseLastIs(rows, sessionStart + until);
      ShutRows(rows[..|rows| - 1], rows[|rows| - 1], v, sessionStart, until);
    }
  }

  lemma MirrorsIsTiled(rows: seq<Row>, v: View, sessionStart: real)
    requires Mirrors(rows, v, sessionStart)
    ensures Tiled(rows)
  {
  }

  lemma TiledSnoc(rows: seq<Row>, row: Row)
    requires Tiled(rows)
    requires rows != [] ==> rows[|rows| - 1].endedAt == Some(row.startedAt) && rows[|rows| - 1].state != row.state
    ensures Tiled(rows + [row])
  {
  }

  lemma LastIsClosed(rows: seq<Row>, v: View, sessionStart: real, ts: real)
    requires Mirrors(rows, v, sessionStart)
    ensures var closed := CloseLast(rows, sessionStart + ts);
      closed != [] ==>
          closed[|closed| - 1].endedAt == Some(sessionStart + ts) && closed[|closed| - 1].state == v.track.state
  {
    hide CameraSpans, Tiled;
  }

  lemma OpenedMirrors(closed: seq<Row>, row: Row, v: View, sessionStart: real)
    requires Tiled(closed + [row]) && CameraSpans(closed, sessionStart) == v.closed && row.endedAt.None?
      && row.state == v.track.state
    requires v.track.openInterval
      == (if row.state == Absent then None else Some(OpenInterval(row.state, row.startedAt - sessionStart)))
    ensures Mirrors(closed + [row], v, sessionStart)
  {
    hide CameraSpans, Tiled;
    assert (closed + [row])[..|closed + [row]| - 1] == closed;
  }

  lemma EnteredMirrors(studentId: string, rows: seq<Row>, v: View, state: State, misses: nat, ts: real,
                       sessionStart: real)
    requires Mirrors(rows, v, sessionStart) && state != v.track.state
    ensures Mirrors(RecordOne(rows, studentId, state, sessionStart + ts), Entered(v, state, misses, ts), sessionStart)
  {
    hide CameraSpans, Tiled, CloseLast, CloseOpen, Mirrors;
    var row := Row(studentId, state, sessionStart + ts, None);
    var closed := CloseLast(rows, sessionStart + ts);
    CloseLastMirrors(rows, v, sessionStart, ts);
    LastIsClosed(rows, v, sessionStart, ts);
    TiledSnoc(closed, row);
    OpenedMirrors(closed, row, Entered(v, state, misses, ts), sessionStart);
  }

  lemma StepMirrors(studentId: string, rows: seq<Row>, v: View, look: Look, threshold: int, sessionStart: real)
    requires Mirrors(rows, v, sessionStart)
    ensures var after := Step(v, look.seen, threshold, look.ts);
      Mirrors(RecordAll(rows, studentId, Reported(v.track.state, after.track.state), sessionStart + look.ts), after,
              sessionStart)
  {
    hide Mirrors, Entered, RecordAll, RecordOne;
    var after := Step(v, look.seen, threshold, look.ts);
    StepEnters(v, look, threshold);
    RecordAllOne(rows, studentId, after.track.state, sessionStart + look.ts);
    if v.track.state != after.track.state {
      EnteredMirrors(studentId, rows, v, after.track.state, after.track.misses, look.ts, sessionStart);
    } else {
      MissesDoNotMatter(rows, v, after.track.misses, sessionStart);
    }
  }

  /** A step enters the new state, or changes nothing but the count of misses. */
  lemma StepEnters(v: View, look: Look, threshold: int)
    ensures var after := Step(v, look.seen, threshold, look.ts);
      after == if after.track.state != v.track.state then Entered(v, after.track.state, after.track.misses, look.ts)
               else v.(track := v.track.(misses := after.track.misses))
  {
  }

  lemma MissesDoNotMatter(rows: seq<Row>, v: View, misses: nat, sessionStart: real)
    requires Mirrors(rows, v, sessionStart)
    ensures Mirrors(rows, v.(track := v.track.(misses := misses)), sessionStart)
  {
  }

  lemma {:induction false} RunMirrors(studentId: string, threshold: int, looks: seq<Look>, sessionStart: real)
    ensures Mirrors(RecordRun(studentId, threshold, looks, sessionStart), Run(threshold, looks), sessionStart)
  {
    if looks == [] {
    } else {
      var prefix, last := looks[..|looks| - 1], looks[|looks| - 1];
      RunMirrors(studentId, threshold, prefix, sessionStart);
      var rows, v := RecordRun(studentId, threshold, prefix, sessionStart), Run(threshold, prefix);
      StepMirrors(studentId, rows, v, last, threshold, sessionStart);
      assert Run(threshold, looks) == Step(v, last.seen, threshold, last.ts);
      assert RecordRun(studentId, threshold, looks, sessionStart)
          == RecordAll(rows, studentId, Reported(v.track.state, Run(threshold, looks).track.state),
                       sessionStart + last.ts);
    }
  }

  /** The first pass that saw the student, if any. */
  ghost function FirstSighting(looks: seq<Look>): Option<real> {
    if looks == [] then None
    else match FirstSighting(looks[..|looks| - 1])
      case Some(t) => Some(t)
      case None => if looks[|looks| - 1].seen then Some(looks[|looks| - 1].ts) else None
  }

  lemma {:induction false} FirstRowAtFirstSighting(studentId: string, threshold: int, looks: seq<Look>,
                                                   sessionStart: real)
    ensures var rows := RecordRun(studentId, threshold, looks, sessionStart);
      && (rows == [] <==> FirstSighting(looks).None?)
      && (rows != [] ==> rows[0].startedAt == sessionStart + FirstSighting(looks).value)
      && (FirstSighting(looks).None? <==> !EverSeen(looks))
  {
    if looks == [] {
    } else {
      var prefix, last := looks[..|looks| - 1], looks[|looks| - 1];
      FirstRowAtFirstSighting(studentId, threshold, prefix, sessionStart);
      assert looks == prefix + [last];
      EverSeenSnoc(prefix, last);
      StateIsHistory(threshold, prefix);
      StateIsHistory(threshold, looks);
      RecordAllFirst(RecordRun(studentId, threshold, prefix, sessionStart), studentId,
                     Reported(Run(threshold, prefix).track.state, Run(threshold, looks).track.state),
                     sessionStart + last.ts);
    }
  }

  lemma RecordAllFirst(rows: seq<Row>, studentId: string, states: seq<State>, at: real)
    requires |states| <= 1
    ensures var r := RecordAll(rows, studentId, states, at);
      && |r| == |rows| + |states|
      && (r != [] ==> r[0].startedAt == if rows == [] then at else rows[0].startedAt)
  {
    if states != [] {
      RecordAllOne(rows, studentId, states[0], at);
      assert [states[0]] == states;
    }
  }

  /** Closing both at the same time, the recorder's rows other than ABSENT are the machine's
      intervals, and all its rows tile the time from the first sighting to the close. */
  lemma RowsAreIntervals(studentId: string, threshold: int, looks: seq<Look>, sessionStart: real, until: real)
    ensures var rows := CloseLast(RecordRun(studentId, threshold, looks, sessionStart), sessionStart + until);
      && CameraSpans(rows, sessionStart) == CloseOpen(Run(threshold, looks), until).closed
      && Tiled(rows)
      && (rows == [] <==> !EverSeen(looks))
      && (rows != [] ==> && FirstSighting(looks).Some?
                         && rows[0].startedAt == sessionStart + FirstSighting(looks).value
                         && rows[|rows| - 1].endedAt == Some(sessionStart + until))
  {
    var rows := RecordRun(studentId, threshold, looks, sessionStart);
    RunMirrors(studentId, threshold, looks, sessionStart);
    CloseLastMirrors(rows, Run(threshold, looks), sessionStart, until);
    FirstRowAtFirstSighting(studentId, threshold, looks, sessionStart);
  }

  // ---------- The object ----------

  ghost predicate LastFor(rows: seq<Row>, studentId: string, id: nat) {
    && id < |rows| && rows[id].studentId == studentId
    && forall j :: id < j < |rows| ==> rows[j].studentId != studentId
  }

  /** Replacing a student's last row replaces the last of that student's rows. */
  lemma {:induction false} RowsOfUpdate(rows: seq<Row>, id: nat, row: Row)
    requires id < |rows| && row.studentId == rows[id].studentId && LastFor(rows, row.studentId, id)
    ensures var mine := RowsOf(rows, row.studentId);
      && mine != [] && mine[|mine| - 1] == rows[id]
      && RowsOf(rows[id := row], row.studentId) == mine[..|mine| - 1] + [row]
    ensures forall s :: s != row.studentId ==> RowsOf(rows[id := row], s) == RowsOf(rows, s)
  {
    hide RowsOf;
    var n := |rows| - 1;
    var front, last := rows[..n], rows[n];
    assert rows == front + [last];
    RowsOfSnoc(front, last);
    if id == n {
      assert rows[id := row] == front + [row];
      RowsOfSnoc(front, row);
    } else {
      assert rows[id := row] == front[id := row] + [last];
      RowsOfSnoc(front[id := row], last);
      RowsOfUpdate(front, id, row);
    }
  }

  lemma {:induction false} RowsOfClosed(rows: seq<Row>, studentId: string)
    requires forall i :: 0 <= i < |rows| && rows[i].studentId == studentId ==> rows[i].endedAt.Some?
    ensures forall i :: 0 <= i < |RowsOf(rows, studentId)| ==> RowsOf(rows, studentId)[i].endedAt.Some?
  {
    if rows == [] {
    } else {
      RowsOfClosed(rows[..|rows| - 1], studentId);
    }
  }

  class SessionRecorder {
    const sessionStart: real
    var rows: seq<Row>
    var open: map<string, nat>
    var closes: seq<nat>

    /** `open` points at each student's last row exactly when that row is open, and every
        row has been closed once if it is closed and never otherwise. */
    ghost predicate Valid()
      reads this
    {
      && (forall s :: s in open ==> LastFor(rows, s, open[s]))
      && (forall i :: 0 <= i < |rows| ==>
          (rows[i].endedAt.None? <==> rows[i].studentId in open && open[rows[i].studentId] == i))
      && (forall i: nat :: multiset(closes)[i] == if i < |rows| && rows[i].endedAt.Some? then 1 else 0)
    }

    constructor (sessionStart: real)
      ensures Valid() && this.sessionStart == sessionStart
      ensures rows == [] && open == map[] && closes == []
    {
      this.sessionStart := sessionStart;
      rows, open, closes := [], map[], [];
    }

    /** `close_interval` on the student's open row, if there is one. */
    method CloseRow(studentId: string, at: real)
      requires Valid()
      modifies this
      ensures Valid() && open == old(open) - {studentId} && |rows| == |old(rows)|
      ensures forall s ::
        RowsOf(rows, s) == if s == studentId then CloseLast(old(RowsOf(rows, s)), at) else old(RowsOf(rows, s))
    {
      hide RowsOf;
      if studentId in open {
        var id := open[studentId];
        var row := rows[id].(endedAt := Some(at));
        RowsOfUpdate(rows, id, row);
        rows := rows[id := row];
        closes := closes + [id];
        open := open - {studentId};
      } else {
        RowsOfClosed(rows, studentId);
      }
    }

    method OpenRow(studentId: string, state: State, at: real)
      requires Valid() && studentId !in open
      modifies this
      ensures Valid() && open.Keys == old(open.Keys) + {studentId}
      ensures forall s ::
        RowsOf(rows, s)
        == if s == studentId then old(RowsOf(rows, s)) + [Row(s, state, at, None)] else old(RowsOf(rows, s))
    {
      RowsOfSnoc(rows, Row(studentId, state, at, None));
      open := open[studentId := |rows|];
      rows := rows + [Row(studentId, state, at, None)];
    }

    /** The loop body of `record`: close the student's row, then open the new one. */
    method RecordRow(studentId: string, state: State, at: real)
      requires Valid()
      modifies this
      ensures Valid()
      ensures forall s ::
        RowsOf(rows, s)
        == if s == studentId then RecordOne(old(RowsOf(rows, s)), s, state, at) else old(RowsOf(rows, s))
    {
      hide Valid, RowsOf, CloseLast;
      CloseRow(studentId, at);
      OpenRow(studentId, state, at);
    }

    method Record(transitions: seq<Transition>, relTs: real)
      requires Valid()
      modifies this
      ensures Valid()
      ensures forall s ::
        RowsOf(rows, s) == RecordAll(old(RowsOf(rows, s)), s, StatesFor(transitions, s), sessionStart + relTs)
    {
      hide Valid, RowsOf, CloseLast;
      var at := sessionStart + relTs;
      var i := 0;
      while i < |transitions|
        invariant 0 <= i <= |transitions| && Valid()
        invariant forall s ::
          RowsOf(rows, s) == RecordAll(old(RowsOf(rows, s)), s, StatesFor(transitions[..i], s), at)
      {
        var t := transitions[i];
        RecordRow(t.studentId, t.state, at);
        assert transitions[..i + 1] == transitions[..i] + [t];
        StatesForSnoc(transitions[..i], t);
        RecordAllSnoc(old(RowsOf(rows, t.studentId)), t.studentId, StatesFor(transitions[..i], t.studentId), t.state,
                      at);
        i := i + 1;
      }
      assert transitions[..i] == transitions;
    }

    /** Closes every open row; afterwards every row that was ever opened has had exactly one
        close call, and calling `Close` again closes nothing. */
    method Close(relTs: real)
      requires Valid()
      modifies this
      ensures Valid() && open == map[]
      ensures forall s :: RowsOf(rows, s) == CloseLast(old(RowsOf(rows, s)), sessionStart + relTs)
      ensures forall i: nat :: i < |rows| ==> rows[i].endedAt.Some? && multiset(closes)[i] == 1
      ensures old(open) == map[] ==> closes == old(closes)
    {
      hide Valid, RowsOf, CloseLast;
      var at := sessionStart + relTs;
      ClosedUnlessOpen(at);
      var todo := open.Keys;
      while todo != {}
        invariant Valid() && open.Keys == todo <= old(open.Keys)
        invariant forall s ::
          RowsOf(rows, s) == if s in todo then old(RowsOf(rows, s)) else CloseLast(old(RowsOf(rows, s)), at)
        invariant old(open) == map[] ==> closes == old(closes)
        decreases todo
      {
        var sid :| sid in todo;
        todo := todo - {sid};
        CloseRow(sid, at);
      }
      ClosedOnce();
    }

    lemma ClosedUnlessOpen(at: real)
      requires Valid()
      ensures forall s :: s !in open ==> CloseLast(RowsOf(rows, s), at) == RowsOf(rows, s)
    {
      forall s | s !in open
        ensures CloseLast(RowsOf(rows, s), at) == RowsOf(rows, s)
      {
        RowsOfClosed(rows, s);
      }
    }

    lemma ClosedOnce()
      requires Valid() && open == map[]
      ensures forall i: nat :: i < |rows| ==> rows[i].endedAt.Some? && multiset(closes)[i] == 1
    {
    }
  }
}
