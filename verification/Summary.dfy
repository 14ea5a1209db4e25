/**
 Session summaries of zone rows, backend/app/store.py (`_summarise_zone_aggregates`).

 The source groups rows by window and accumulates group by group. The specification is one
 sum over the rows that contribute, with no grouping and no order.
 */
module Summary {
  import opened Wrappers
  import opened Geometry

  /** A stored aggregate row; any column may be missing. */
  datatype Row = Row(sessionId: Option<string>, windowStart: Option<string>, zone: string, windowS: Option<int>,
                     tracked: Option<int>,
                     enrolled: Option<int>, vnei: Option<real>, coverage: Option<real>, poseObservations: Option<int>)

  datatype Key = Key(sessionId: string, windowStart: string)

  /** Weights are whole numbers, kept here as reals. */
  datatype Totals = Totals(vneiSum: real, vneiWeight: real, coverageSum: real, coverageWeight: real, windows: nat)

  datatype SessionSummary = SessionSummary(vnei: Option<real>, coverage: Option<real>, reportableWindows: nat,
                                           vneiWeight: real, coverageWeight: real)

  // ---------- One row ----------

  /** A missing or zero value gives way to the default, and the result is at least `least`. */
  function Or(value: Option<int>, default: int, least: int): int {
    var v := if value.None? || value.value == 0 then default else value.value;
    if v >= least then v else least
  }

  function Duration(r: Row): int {
    Or(r.windowS, 60, 1)
  }

  /** Pose observations weigh a row; a legacy row without them weighs by visible person-seconds. */
  function VneiWeight(r: Row): int {
    var pose := Or(r.poseObservations, 0, 0);
    if pose != 0 then pose else Or(r.tracked, 0, 0) * Duration(r)
  }

  function CoverageWeight(r: Row): int {
    Or(r.enrolled, 0, 0) * Duration(r)
  }

  datatype Amount = VneiSum | VneiMass | CoverageSum | CoverageMass

  function Value(a: Amount, r: Row): real {
    match a
    case VneiSum => if r.vnei.Some? && VneiWeight(r) > 0 then r.vnei.value * VneiWeight(r) as real else 0.0
    case VneiMass => if r.vnei.Some? && VneiWeight(r) > 0 then VneiWeight(r) as real else 0.0
    case CoverageSum =>
      if r.coverage.Some? && Or(r.enrolled, 0, 0) > 0 then r.coverage.value * CoverageWeight(r) as real else 0.0
    case CoverageMass => if r.coverage.Some? && Or(r.enrolled, 0, 0) > 0 then CoverageWeight(r) as real else 0.0
  }

  // ---------- Specification ----------

  predicate Filed(r: Row) {
    r.sessionId.Some? && r.sessionId.value != "" && r.windowStart.Some? && r.windowStart.value != ""
  }

  function KeyOf(r: Row): Key
    requires Filed(r)
  {
    Key(r.sessionId.value, r.windowStart.value)
  }

  predicate InWindow(r: Row, k: Key) {
    Filed(r) && KeyOf(r) == k
  }

  predicate HasClassRow(rows: seq<Row>, k: Key) {
    exists r :: r in rows && InWindow(r, k) && r.zone == "class"
  }

  /** A row contributes unless its window has a class row and it is not one. */
  predicate Contributes(rows: seq<Row>, r: Row, k: Key) {
    InWindow(r, k) && (r.zone == "class" || !HasClassRow(rows, k))
  }

  ghost function Sum(rows: seq<Row>, p: Row -> bool, a: Amount): real {
    if rows == [] then 0.0
    else
      var front, last := Sum(rows[..|rows| - 1], p, a), rows[|rows| - 1];
      if p(last) then front + Value(a, last) else front
  }

  /** The rows that count for a session. */
  ghost function Counting(rows: seq<Row>, sid: string): Row -> bool {
    (r: Row) => r.sessionId == Some(sid) && Filed(r) && Contributes(rows, r, KeyOf(r))
  }

  ghost function SessionSum(rows: seq<Row>, sid: string, a: Amount): real {
    Sum(rows, Counting(rows, sid), a)
  }

  ghost function KeysOf(rows: seq<Row>): set<Key> {
    set r | r in rows && Filed(r) :: KeyOf(r)
  }

  ghost function WindowsOf(rows: seq<Row>, sid: string): set<Key> {
    set k | k in KeysOf(rows) && k.sessionId == sid
  }

  function Mean(sum: real, weight: real): Option<real> {
    if weight != 0.0 then Some(sum / weight) else None
  }

  ghost function SummaryOf(rows: seq<Row>, sid: string): SessionSummary {
    SessionSummary(Mean(SessionSum(rows, sid, VneiSum), SessionSum(rows, sid, VneiMass)),
                   Mean(SessionSum(rows, sid, CoverageSum), SessionSum(rows, sid, CoverageMass)),
                   |WindowsOf(rows, sid)|, SessionSum(rows, sid, VneiMass), SessionSum(rows, sid, CoverageMass))
  }

  // ---------- Sums ----------

  lemma SumOfNone(p: Row -> bool)
    ensures forall a :: Sum([], p, a) == 0.0
  {
  }

  lemma SumSnoc(rows: seq<Row>, r: Row, p: Row -> bool, a: Amount)
    ensures Sum(rows + [r], p, a) == if p(r) then Sum(rows, p, a) + Value(a, r) else Sum(rows, p, a)
  {
    assert (rows + [r])[..|rows|] == rows;
  }

  lemma {:induction false} SumAgrees(rows: seq<Row>, p: Row -> bool, q: Row -> bool, a: Amount)
    requires forall r :: r in rows ==> p(r) == q(r)
    ensures Sum(rows, p, a) == Sum(rows, q, a)
  {
    hide Value;
    if rows == [] {
    } else {
      SumAgrees(rows[..|rows| - 1], p, q, a);
    }
  }

  /** Two disjoint conditions. */
  lemma {:induction false} SumSplits(rows: seq<Row>, p: Row -> bool, q: Row -> bool, both: Row -> bool, a: Amount)
    requires forall r :: r in rows ==> !(p(r) && q(r)) && both(r) == (p(r) || q(r))
    ensures Sum(rows, both, a) == Sum(rows, p, a) + Sum(rows, q, a)
  {
    hide Value;
    if rows == [] {
    } else {
      SumSplits(rows[..|rows| - 1], p, q, both, a);
    }
  }

  function Where(rows: seq<Row>, p: Row -> bool): (kept: seq<Row>)
    ensures forall r :: r in kept <==> r in rows && p(r)
  {
    if rows == [] then []
    else
      var front, last := Where(rows[..|rows| - 1], p), rows[|rows| - 1];
      assert forall r :: r in rows <==> r in rows[..|rows| - 1] || r == last;
      if p(last) then front + [last] else front
  }

  lemma WhereSnoc(rows: seq<Row>, r: Row, p: Row -> bool)
    ensures Where(rows + [r], p) == if p(r) then Where(rows, p) + [r] else Where(rows, p)
  {
    assert (rows + [r])[..|rows|] == rows;
  }

  lemma SumNothing(p: Row -> bool, q: Row -> bool, a: Amount)
    ensures Sum(Where([], p), q, a) == Sum([], (r: Row) => p(r) && q(r), a)
  {
  }

  lemma {:induction false} SumWhere(rows: seq<Row>, p: Row -> bool, q: Row -> bool, a: Amount)
    ensures Sum(Where(rows, p), q, a) == Sum(rows, (r: Row) => p(r) && q(r), a)
  {
    hide Value, Sum, Where;
    var both := (r: Row) => p(r) && q(r);
    if rows == [] {
      SumNothing(p, q, a);
    } else {
      var front, last := rows[..|rows| - 1], rows[|rows| - 1];
      assert rows == front + [last];
      SumWhere(front, p, q, a);
      WhereSnoc(front, last, p);
      SumSnoc(front, last, both, a);
      SumSnoc(Where(front, p), last, q, a);
    }
  }

  // ---------- The loops ----------

  ghost predicate Grouped(rows: seq<Row>, windows: map<Key, seq<Row>>) {
    && windows.Keys == KeysOf(rows)
    && forall k :: k in windows ==> windows[k] == Where(rows, (r: Row) => InWindow(r, k))
  }

  /** The first loop: rows by window, in their order. */
  method GroupByWindow(rows: seq<Row>) returns (windows: map<Key, seq<Row>>)
    ensures Grouped(rows, windows)
  {
    hide Grouped;
    windows := map[];
    NothingGrouped();
    var i := 0;
    while i < |rows|
      invariant 0 <= i <= |rows|
      invariant Grouped(rows[..i], windows)
    {
      var r := rows[i];
      ghost var before := windows;
      assert rows[..i + 1] == rows[..i] + [r];
      if Filed(r) {
        var k := KeyOf(r);
        windows := windows[k := (if k in windows then windows[k] else []) + [r]];
      }
      GroupMore(rows[..i], r, before, windows);
      i := i + 1;
    }
    assert rows[..i] == rows;
  }

  lemma NothingGrouped()
    ensures Grouped([], map[])
  {
  }

  lemma GroupMore(rows: seq<Row>, r: Row, before: map<Key, seq<Row>>, after: map<Key, seq<Row>>)
    requires Grouped(rows, before)
    requires after
      == if Filed(r) then before[KeyOf(r) := (if KeyOf(r) in before then before[KeyOf(r)] else []) + [r]] else before
    ensures Grouped(rows + [r], after)
  {
    assert KeysOf(rows + [r]) == KeysOf(rows) + (if Filed(r) then {KeyOf(r)} else {});
    forall k | k in after
      ensures after[k] == Where(rows + [r], (r: Row) => InWindow(r, k))
    {
      WhereSnoc(rows, r, (r: Row) => InWindow(r, k));
      if k !in before {
        NoneInWindow(rows, k);
      }
    }
  }

  lemma NoneInWindow(rows: seq<Row>, k: Key)
    requires k !in KeysOf(rows)
    ensures Where(rows, (r: Row) => InWindow(r, k)) == []
  {
    WhereNone(rows, (r: Row) => InWindow(r, k));
  }

  lemma {:induction false} WhereNone(rows: seq<Row>, p: Row -> bool)
    requires forall r :: r in rows ==> !p(r)
    ensures Where(rows, p) == []
  {
    if rows == [] {
    } else {
      WhereNone(rows[..|rows| - 1], p);
    }
  }

  function All(): Row -> bool {
    (r: Row) => true
  }

  /** The inner loop: the report rows of one window on top of the session's totals. */
  method AddRows(total: Totals, rows: seq<Row>) returns (t: Totals)
    ensures t.vneiSum == total.vneiSum + Sum(rows, All(), VneiSum)
      && t.vneiWeight == total.vneiWeight + Sum(rows, All(), VneiMass)
    ensures t.coverageSum == total.coverageSum + Sum(rows, All(), CoverageSum)
    ensures t.coverageWeight == total.coverageWeight + Sum(rows, All(), CoverageMass)
    ensures t.windows == total.windows
  {
    hide Or, VneiWeight, CoverageWeight, Sum;
    t := total;
    var i := 0;
    SumOfNone(All());
    while i < |rows|
      invariant 0 <= i <= |rows| && t.windows == total.windows
      invariant t.vneiSum == total.vneiSum + Sum(rows[..i], All(), VneiSum)
        && t.vneiWeight == total.vneiWeight + Sum(rows[..i], All(), VneiMass)
      invariant t.coverageSum == total.coverageSum + Sum(rows[..i], All(), CoverageSum)
      invariant t.coverageWeight == total.coverageWeight + Sum(rows[..i], All(), CoverageMass)
    {
      var row := rows[i];
      assert rows[..i + 1] == rows[..i] + [row];
      SumSnoc(rows[..i], row, All(), VneiSum);
      SumSnoc(rows[..i], row, All(), VneiMass);
      SumSnoc(rows[..i], row, All(), CoverageSum);
      SumSnoc(rows[..i], row, All(), CoverageMass);
      if row.vnei.Some? && VneiWeight(row) > 0 {
        var weight := VneiWeight(row) as real;
        t := t.(vneiSum := t.vneiSum + row.vnei.value * weight, vneiWeight := t.vneiWeight + weight);
      }
      if row.coverage.Some? && Or(row.enrolled, 0, 0) > 0 {
        var weight := CoverageWeight(row) as real;
        t := t.(coverageSum := t.coverageSum + row.coverage.value * weight,
                coverageWeight := t.coverageWeight + weight);
      }
      i := i + 1;
    }
    assert rows[..i] == rows;
  }

  // ---------- From groups to one sum ----------

  ghost function CountingIn(rows: seq<Row>, sid: string, done: set<Key>): Row -> bool {
    (r: Row) => r.sessionId == Some(sid) && Filed(r) && Contributes(rows, r, KeyOf(r)) && KeyOf(r) in done
  }

  ghost function TotalsIn(rows: seq<Row>, sid: string, done: set<Key>): Totals {
    var p := CountingIn(rows, sid, done);
    Totals(Sum(rows, p, VneiSum), Sum(rows, p, VneiMass), Sum(rows, p, CoverageSum), Sum(rows, p, CoverageMass),
           |set k | k in done && k.sessionId == sid|)
  }

  function ReportRows(rows: seq<Row>): seq<Row> {
    var classRows := Where(rows, (r: Row) => r.zone == "class");
    if classRows != [] then classRows else rows
  }

  /** The class rows of a window if it has any, otherwise all its rows. */
  lemma ReportRowsContribute(rows: seq<Row>, k: Key, a: Amount)
    ensures Sum(ReportRows(Where(rows, (r: Row) => InWindow(r, k))), All(), a)
      == Sum(rows, (r: Row) => Contributes(rows, r, k), a)
  {
    hide Value, InWindow;
    var p, c := (r: Row) => InWindow(r, k), (r: Row) => r.zone == "class";
    var window := Where(rows, p);
    SumWhere(rows, p, All(), a);
    SumWhere(window, c, All(), a);
    var cAll := (r: Row) => c(r) && All()(r);
    SumWhere(rows, p, cAll, a);
    var classRows := Where(window, c);
    if classRows != [] {
      assert classRows[0] in classRows;
      assert HasClassRow(rows, k);
      SumAgrees(rows, (r: Row) => p(r) && cAll(r), (r: Row) => Contributes(rows, r, k), a);
    } else {
      assert forall r :: r in rows && InWindow(r, k) ==> r.zone != "class" by {
        assert forall r :: r in rows && InWindow(r, k) && r.zone == "class" ==> r in classRows;
      }
      SumAgrees(rows, (r: Row) => p(r) && All()(r), (r: Row) => Contributes(rows, r, k), a);
    }
  }

  lemma OneMoreWindow(rows: seq<Row>, sid: string, done: set<Key>, k: Key, a: Amount)
    requires k !in done
    ensures Sum(rows, CountingIn(rows, sid, done + {k}), a)
         == Sum(rows, CountingIn(rows, sid, done), a)
            + if k.sessionId == sid then Sum(rows, (r: Row) => Contributes(rows, r, k), a) else 0.0
  {
    hide Value, HasClassRow;
    if k.sessionId == sid {
      SumSplits(rows, CountingIn(rows, sid, done), (r: Row) => Contributes(rows, r, k),
                CountingIn(rows, sid, done + {k}), a);
    } else {
      SumAgrees(rows, CountingIn(rows, sid, done), CountingIn(rows, sid, done + {k}), a);
    }
  }

  function TotalOf(totals: map<string, Totals>, sid: string): Totals {
    if sid in totals then totals[sid] else Totals(0.0, 0.0, 0.0, 0.0, 0)
  }

  lemma TotalsMore(rows: seq<Row>, sid: string, done: set<Key>, k: Key, report: seq<Row>, t: Totals)
    requires k !in done && report == ReportRows(Where(rows, (r: Row) => InWindow(r, k)))
    requires var before := TotalsIn(rows, k.sessionId, done);
      && t.vneiSum == before.vneiSum + Sum(report, All(), VneiSum)
      && t.vneiWeight == before.vneiWeight + Sum(report, All(), VneiMass)
      && t.coverageSum == before.coverageSum + Sum(report, All(), CoverageSum)
      && t.coverageWeight == before.coverageWeight + Sum(report, All(), CoverageMass) && t.windows == before.windows + 1
    ensures TotalsIn(rows, sid, done + {k}) == if sid == k.sessionId then t else TotalsIn(rows, sid, done)
  {
    hide Sum, ReportRows, CountingIn;
    KeysMore(done, k, sid);
    forall a
      ensures Sum(rows, CountingIn(rows, sid, done + {k}), a)
           == Sum(rows, CountingIn(rows, sid, done), a) + if k.sessionId == sid then Sum(report, All(), a) else 0.0
    {
      OneMoreWindow(rows, sid, done, k, a);
      ReportRowsContribute(rows, k, a);
    }
  }

  lemma KeysMore(done: set<Key>, k: Key, sid: string)
    requires k !in done
    ensures |set j | j in done + {k} && j.sessionId == sid|
         == |set j | j in done && j.sessionId == sid| + if k.sessionId == sid then 1 else 0
  {
    var of := set j | j in done && j.sessionId == sid;
    assert (set j | j in done + {k} && j.sessionId == sid) == if sid == k.sessionId then of + {k} else of;
  }

  lemma {:induction false} SumNone(rows: seq<Row>, p: Row -> bool, a: Amount)
    requires forall r :: r in rows ==> !p(r)
    ensures Sum(rows, p, a) == 0.0
  {
    if rows == [] {
    } else {
      SumNone(rows[..|rows| - 1], p, a);
    }
  }

  lemma NothingTotalled(rows: seq<Row>, sid: string)
    ensures TotalsIn(rows, sid, {}) == Totals(0.0, 0.0, 0.0, 0.0, 0)
  {
    forall a
      ensures Sum(rows, CountingIn(rows, sid, {}), a) == 0.0
    {
      SumNone(rows, CountingIn(rows, sid, {}), a);
    }
    assert (set k: Key | k in {} && k.sessionId == sid) == {};
  }

  lemma AllTotalled(rows: seq<Row>, sid: string, a: Amount)
    ensures Sum(rows, CountingIn(rows, sid, KeysOf(rows)), a) == SessionSum(rows, sid, a)
  {
    SumAgrees(rows, CountingIn(rows, sid, KeysOf(rows)), Counting(rows, sid), a);
  }

  ghost predicate Totalled(rows: seq<Row>, done: set<Key>, totals: map<string, Totals>) {
    forall sid :: (sid in totals <==> exists k :: k in done && k.sessionId == sid)
        && TotalOf(totals, sid) == TotalsIn(rows, sid, done)
  }

  lemma TotalledMore(rows: seq<Row>, done: set<Key>, k: Key, report: seq<Row>, totals: map<string, Totals>, t: Totals)
    requires Totalled(rows, done, totals) && k !in done && report == ReportRows(Where(rows, (r: Row) => InWindow(r, k)))
    requires var before := TotalOf(totals, k.sessionId);
      && t.vneiSum == before.vneiSum + Sum(report, All(), VneiSum)
      && t.vneiWeight == before.vneiWeight + Sum(report, All(), VneiMass)
      && t.coverageSum == before.coverageSum + Sum(report, All(), CoverageSum)
      && t.coverageWeight == before.coverageWeight + Sum(report, All(), CoverageMass) && t.windows == before.windows + 1
    ensures Totalled(rows, done + {k}, totals[k.sessionId := t])
  {
    hide Sum, ReportRows, TotalsIn;
    forall sid
      ensures TotalOf(totals[k.sessionId := t], sid) == TotalsIn(rows, sid, done + {k})
      ensures sid in totals[k.sessionId := t] <==> exists j :: j in done + {k} && j.sessionId == sid
    {
      TotalsMore(rows, sid, done, k, report, t);
      assert k in done + {k};
      if sid in totals {
        var j :| j in done && j.sessionId == sid;
        assert j in done + {k};
      }
    }
  }

  ghost predicate Known(rows: seq<Row>, sid: string) {
    exists k :: k in KeysOf(rows) && k.sessionId == sid
  }

  /** The whole summary: for every session with a filed row, and no other, the order-free sums. */
  method Summarise(rows: seq<Row>) returns (summaries: map<string, SessionSummary>)
    ensures forall sid :: sid in summaries <==> Known(rows, sid)
    ensures forall sid :: sid in summaries ==> summaries[sid] == SummaryOf(rows, sid)
  {
    hide Sum, Where, ReportRows, TotalsIn, KeysOf, Mean;
    var windows := GroupByWindow(rows);
    var totals: map<string, Totals> := map[];
    var todo := windows.Keys;
    ghost var done: set<Key> := {};
    forall sid {
      NothingTotalled(rows, sid);
    }
    while todo != {}
      invariant todo + done == windows.Keys && todo !! done
      invariant Totalled(rows, done, totals)
      decreases todo
    {
      var k :| k in todo;
      var classRows := Where(windows[k], (r: Row) => r.zone == "class");
      var reportRows := if classRows != [] then classRows else windows[k];
      assert reportRows == ReportRows(windows[k]) by {
        ReportRowsAre(windows[k]);
      }
      var total := TotalOf(totals, k.sessionId);
      var t := AddRows(total.(windows := total.windows + 1), reportRows);
      TotalledMore(rows, done, k, reportRows, totals, t);
      totals := totals[k.sessionId := t];
      todo, done := todo - {k}, done + {k};
    }
    summaries := map sid | sid in totals ::
      SessionSummary(Mean(totals[sid].vneiSum, totals[sid].vneiWeight),
                     Mean(totals[sid].coverageSum, totals[sid].coverageWeight),
                     totals[sid].windows, totals[sid].vneiWeight, totals[sid].coverageWeight);
    forall sid | sid in summaries
      ensures summaries[sid] == SummaryOf(rows, sid)
    {
      assert done == KeysOf(rows);
      TotalsAreTheSummary(rows, sid);
    }
  }

  lemma ReportRowsAre(rows: seq<Row>)
    ensures ReportRows(rows)
      == if Where(rows, (r: Row) => r.zone == "class") != [] then Where(rows, (r: Row) => r.zone == "class") else rows
  {
  }

  lemma TotalsAreTheSummary(rows: seq<Row>, sid: string)
    ensures var t := TotalsIn(rows, sid, KeysOf(rows));
      SummaryOf(rows, sid)
          == SessionSummary(Mean(t.vneiSum, t.vneiWeight), Mean(t.coverageSum, t.coverageWeight), t.windows,
                                             t.vneiWeight, t.coverageWeight)
  {
    hide Sum, Mean, KeysOf;
    forall a {
      AllTotalled(rows, sid, a);
    }
    assert (set k | k in KeysOf(rows) && k.sessionId == sid) == WindowsOf(rows, sid);
  }
}
