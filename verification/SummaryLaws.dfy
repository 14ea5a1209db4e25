/**
 What a session summary promises: it does not depend on the order of the rows or on other
 sessions, lies between the values it averages, and its weights add over disjoint windows.
 */
module SummaryLaws {
  import opened Wrappers
  import opened Geometry
  import opened Summary

  // ---------- Order ----------

  lemma {:induction false} SumConcat(a: seq<Row>, b: seq<Row>, p: Row -> bool, amount: Amount)
    ensures Sum(a + b, p, amount) == Sum(a, p, amount) + Sum(b, p, amount)
  {
    hide Value;
    if b == [] {
      assert a + b == a;
    } else {
      assert (a + b)[..|a + b| - 1] == a + b[..|b| - 1];
      SumConcat(a, b[..|b| - 1], p, amount);
    }
  }

  /** Taking out row `i`. */
  lemma SumWithout(rows: seq<Row>, i: nat, p: Row -> bool, amount: Amount)
    requires i < |rows|
    ensures Sum(rows, p, amount)
      == Sum(rows[..i] + rows[i + 1..], p, amount) + if p(rows[i]) then Value(amount, rows[i]) else 0.0
  {
    hide Value;
    assert rows == rows[..i] + ([rows[i]] + rows[i + 1..]);
    SumConcat(rows[..i], [rows[i]] + rows[i + 1..], p, amount);
    SumConcat([rows[i]], rows[i + 1..], p, amount);
    SumConcat(rows[..i], rows[i + 1..], p, amount);
    SumSnoc([], rows[i], p, amount);
    assert [] + [rows[i]] == [rows[i]];
  }

  lemma MultisetWithout(rows: seq<Row>, i: nat)
    requires i < |rows|
    ensures multiset(rows[..i] + rows[i + 1..]) == multiset(rows) - multiset{rows[i]}
  {
    assert rows == rows[..i] + [rows[i]] + rows[i + 1..];
  }

  lemma {:induction false} SumPermutes(a: seq<Row>, b: seq<Row>, p: Row -> bool, amount: Amount)
    requires multiset(a) == multiset(b)
    ensures Sum(a, p, amount) == Sum(b, p, amount)
    decreases |a|
  {
    hide Value, Sum;
    assert |a| == |multiset(a)| == |multiset(b)| == |b|;
    if a == [] {
      assert a == b;
    } else {
      var n := |a| - 1;
      assert a[n] in multiset(b);
      var i: nat :| i < |b| && b[i] == a[n];
      assert a[..n] + a[n + 1..] == a[..n];
      MultisetWithout(a, n);
      MultisetWithout(b, i);
      SumPermutes(a[..n], b[..i] + b[i + 1..], p, amount);
      SumWithout(a, n, p, amount);
      SumWithout(b, i, p, amount);
    }
  }

  lemma SameMembers(a: seq<Row>, b: seq<Row>)
    requires multiset(a) == multiset(b)
    ensures forall r :: r in a <==> r in b
  {
    assert forall r :: r in a <==> r in multiset(a);
    assert forall r :: r in b <==> r in multiset(b);
  }

  lemma SessionSumPermutes(a: seq<Row>, b: seq<Row>, sid: string, amount: Amount)
    requires multiset(a) == multiset(b)
    ensures SessionSum(a, sid, amount) == SessionSum(b, sid, amount)
  {
    hide Value;
    SameMembers(a, b);
    SumPermutes(a, b, Counting(a, sid), amount);
    SumAgrees(b, Counting(a, sid), Counting(b, sid), amount);
  }

  /** Any order of the same rows gives the same summaries. */
  lemma OrderDoesNotMatter(a: seq<Row>, b: seq<Row>, sid: string)
    requires multiset(a) == multiset(b)
    ensures SummaryOf(a, sid) == SummaryOf(b, sid)
  {
    hide SessionSum, Mean;
    SameMembers(a, b);
    forall amount {
      SessionSumPermutes(a, b, sid, amount);
    }
    assert KeysOf(a) == KeysOf(b);
  }

  // ---------- Locality ----------

  function OwnRows(rows: seq<Row>, sid: string): seq<Row> {
    Where(rows, (r: Row) => r.sessionId == Some(sid))
  }

  lemma OwnSum(rows: seq<Row>, sid: string, amount: Amount)
    ensures SessionSum(OwnRows(rows, sid), sid, amount) == SessionSum(rows, sid, amount)
  {
    hide Value;
    var own, p := OwnRows(rows, sid), (r: Row) => r.sessionId == Some(sid);
    forall r | r in own
      ensures Counting(own, sid)(r) == Counting(rows, sid)(r)
    {
      if Filed(r) {
        assert forall s :: s in rows && InWindow(s, KeyOf(r)) ==> s in own;
      }
    }
    SumAgrees(own, Counting(own, sid), Counting(rows, sid), amount);
    SumWhere(rows, p, Counting(rows, sid), amount);
    SumAgrees(rows, (r: Row) => p(r) && Counting(rows, sid)(r), Counting(rows, sid), amount);
  }

  /** A session's summary is computed from that session's rows alone. */
  lemma OnlyOwnRowsMatter(rows: seq<Row>, sid: string)
    ensures SummaryOf(OwnRows(rows, sid), sid) == SummaryOf(rows, sid)
  {
    hide SessionSum, Mean;
    forall amount {
      OwnSum(rows, sid, amount);
    }
    assert WindowsOf(OwnRows(rows, sid), sid) == WindowsOf(rows, sid) by {
      OwnWindows(rows, sid);
    }
  }

  lemma OwnWindows(rows: seq<Row>, sid: string)
    ensures WindowsOf(OwnRows(rows, sid), sid) == WindowsOf(rows, sid)
  {
    forall k
      ensures k in WindowsOf(OwnRows(rows, sid), sid) <==> k in WindowsOf(rows, sid)
    {
      if k in WindowsOf(rows, sid) {
        var r :| r in rows && Filed(r) && KeyOf(r) == k;
        assert r in OwnRows(rows, sid);
      }
    }
  }

  /** A row of a window that already has a class row changes nothing unless it is one itself. */
  lemma ClassRowsTakePrecedence(rows: seq<Row>, r: Row, sid: string)
    requires Filed(r) && r.zone != "class" && HasClassRow(rows, KeyOf(r))
    ensures SummaryOf(rows + [r], sid) == SummaryOf(rows, sid)
  {
    hide Mean;
    assert forall s :: s in rows + [r] <==> s in rows || s == r;
    forall amount
      ensures SessionSum(rows + [r], sid, amount) == SessionSum(rows, sid, amount)
    {
      SumSnoc(rows, r, Counting(rows + [r], sid), amount);
      forall s | s in rows
        ensures Counting(rows + [r], sid)(s) == Counting(rows, sid)(s)
      {
        if Filed(s) {
          SameClassRows(rows, r, KeyOf(s));
        }
      }
      SameClassRows(rows, r, KeyOf(r));
      SumAgrees(rows, Counting(rows + [r], sid), Counting(rows, sid), amount);
    }
    assert KeysOf(rows + [r]) == KeysOf(rows);
  }

  lemma SameClassRows(rows: seq<Row>, r: Row, k: Key)
    requires r.zone != "class"
    ensures HasClassRow(rows + [r], k) == HasClassRow(rows, k)
  {
    assert forall s :: s in rows + [r] <==> s in rows || s == r;
  }

  // ---------- Means ----------

  lemma WeighedBetween(x: real, lo: real, hi: real, w: real)
    requires lo <= x <= hi && w >= 0.0
    ensures lo * w <= x * w <= hi * w
  {
    assert (x - lo) * w >= 0.0 && (hi - x) * w >= 0.0;
  }

  lemma WeightsArePositive(r: Row)
    ensures Value(VneiMass, r) >= 0.0 && Value(CoverageMass, r) >= 0.0
    ensures Value(VneiMass, r) == 0.0 ==> Value(VneiSum, r) == 0.0
    ensures Value(CoverageMass, r) == 0.0 ==> Value(CoverageSum, r) == 0.0
    ensures Value(VneiMass, r) > 0.0 ==> r.vnei.Some? && Value(VneiSum, r) == r.vnei.value * Value(VneiMass, r)
    ensures Value(CoverageMass, r) > 0.0 ==>
      r.coverage.Some? && Value(CoverageSum, r) == r.coverage.value * Value(CoverageMass, r)
  {
    var e, d := Or(r.enrolled, 0, 0), Duration(r);
    if e > 0 {
      assert e * d > 0;
    }
  }

  /** Every row that weighs anything has its value between the bounds. */
  ghost predicate Within(rows: seq<Row>, p: Row -> bool, sum: Amount, lo: real, hi: real) {
    forall r :: r in rows && p(r) ==>
      (sum == VneiSum && Value(VneiMass, r) > 0.0 ==> lo <= r.vnei.value <= hi)
      && (sum == CoverageSum && Value(CoverageMass, r) > 0.0 ==> lo <= r.coverage.value <= hi)
  }

  function MassOf(sum: Amount): Amount {
    if sum == VneiSum then VneiMass else CoverageMass
  }

  lemma {:induction false} SumBetween(rows: seq<Row>, p: Row -> bool, sum: Amount, lo: real, hi: real)
    requires (sum == VneiSum || sum == CoverageSum) && Within(rows, p, sum, lo, hi)
    ensures Sum(rows, p, MassOf(sum)) >= 0.0 && Between(Sum(rows, p, sum), Sum(rows, p, MassOf(sum)), lo, hi)
  {
    hide Value, Between;
    if rows == [] {
      NothingBetween(lo, hi);
    } else {
      var front, last := rows[..|rows| - 1], rows[|rows| - 1];
      assert forall r :: r in front ==> r in rows;
      SumBetween(front, p, sum, lo, hi);
      if p(last) {
        OneBetween(rows, last, p, sum, lo, hi);
        BetweenAdds(Sum(front, p, sum), Sum(front, p, MassOf(sum)), Value(sum, last), Value(MassOf(sum), last), lo, hi);
      }
    }
  }

  /** The sum is `mass` times something between the bounds. */
  predicate Between(sum: real, mass: real, lo: real, hi: real) {
    lo * mass <= sum <= hi * mass
  }

  lemma NothingBetween(lo: real, hi: real)
    ensures Between(0.0, 0.0, lo, hi)
  {
  }

  lemma BetweenAdds(sum: real, mass: real, sum': real, mass': real, lo: real, hi: real)
    requires Between(sum, mass, lo, hi) && Between(sum', mass', lo, hi)
    ensures Between(sum + sum', mass + mass', lo, hi)
  {
    assert lo * (mass + mass') == lo * mass + lo * mass' && hi * (mass + mass') == hi * mass + hi * mass';
  }

  lemma OneBetween(rows: seq<Row>, r: Row, p: Row -> bool, sum: Amount, lo: real, hi: real)
    requires (sum == VneiSum || sum == CoverageSum) && Within(rows, p, sum, lo, hi) && r in rows && p(r)
    ensures Value(MassOf(sum), r) >= 0.0 && Between(Value(sum, r), Value(MassOf(sum), r), lo, hi)
  {
    hide Value;
    WeightsArePositive(r);
    if Value(MassOf(sum), r) > 0.0 {
      WeighedBetween(if sum == VneiSum then r.vnei.value else r.coverage.value, lo, hi, Value(MassOf(sum), r));
    }
  }

  lemma MeanBetween(sum: real, mass: real, lo: real, hi: real)
    requires mass >= 0.0 && Between(sum, mass, lo, hi) && Mean(sum, mass).Some?
    ensures lo <= Mean(sum, mass).value <= hi
  {
    var m := sum / mass;
    assert m * mass == sum;
    assert (m - lo) * mass >= 0.0 && (hi - m) * mass >= 0.0;
    SignOfFactor(m - lo, mass);
    SignOfFactor(hi - m, mass);
  }

  /** Both averages lie between the least and the greatest of the values that weigh in. */
  lemma SummaryIsBetween(rows: seq<Row>, sid: string, lo: real, hi: real)
    ensures Within(rows, Counting(rows, sid), VneiSum, lo, hi) && SummaryOf(rows, sid).vnei.Some? ==>
      lo <= SummaryOf(rows, sid).vnei.value <= hi
    ensures Within(rows, Counting(rows, sid), CoverageSum, lo, hi) && SummaryOf(rows, sid).coverage.Some? ==>
      lo <= SummaryOf(rows, sid).coverage.value <= hi
  {
    hide Within, Sum, Mean;
    if Within(rows, Counting(rows, sid), VneiSum, lo, hi) && SummaryOf(rows, sid).vnei.Some? {
      SumBetween(rows, Counting(rows, sid), VneiSum, lo, hi);
      MeanBetween(SessionSum(rows, sid, VneiSum), SessionSum(rows, sid, VneiMass), lo, hi);
    }
    if Within(rows, Counting(rows, sid), CoverageSum, lo, hi) && SummaryOf(rows, sid).coverage.Some? {
      SumBetween(rows, Counting(rows, sid), CoverageSum, lo, hi);
      MeanBetween(SessionSum(rows, sid, CoverageSum), SessionSum(rows, sid, CoverageMass), lo, hi);
    }
  }

  // ---------- Weights ----------

  /** A window counts by what was seen of it: coverage, and attention where pose observations
      are missing, weigh in proportion to the window's length, so a short last window weighs
      less than a full one; where there are pose observations, they alone weigh. */
  lemma WeightsFollowEvidence(r: Row, a: int, b: int)
    requires a >= 1 && b >= 1
    ensures CoverageWeight(r.(windowS := Some(a))) * b == CoverageWeight(r.(windowS := Some(b))) * a
    ensures Or(r.poseObservations, 0, 0) == 0 ==>
      VneiWeight(r.(windowS := Some(a))) * b == VneiWeight(r.(windowS := Some(b))) * a
    ensures r.poseObservations.Some? && r.poseObservations.value > 0 ==>
      VneiWeight(r.(windowS := Some(a))) == VneiWeight(r.(windowS := Some(b))) == r.poseObservations.value
    ensures r.windowS.None? ==> CoverageWeight(r) == CoverageWeight(r.(windowS := Some(60)))
  {
    Swap(Or(r.enrolled, 0, 0), a, b);
    Swap(Or(r.tracked, 0, 0), a, b);
  }

  lemma Swap(x: int, a: int, b: int)
    ensures x * a * b == x * b * a
  {
  }

  // ---------- Additivity ----------

  lemma JoinedSum(a: seq<Row>, b: seq<Row>, sid: string, amount: Amount)
    requires KeysOf(a) !! KeysOf(b)
    ensures SessionSum(a + b, sid, amount) == SessionSum(a, sid, amount) + SessionSum(b, sid, amount)
  {
    hide Value;
    assert forall r :: r in a + b <==> r in a || r in b;
    SumConcat(a, b, Counting(a + b, sid), amount);
    forall r | r in a
      ensures Counting(a + b, sid)(r) == Counting(a, sid)(r)
    {
      OtherWindows(a, b, r);
    }
    forall r | r in b
      ensures Counting(a + b, sid)(r) == Counting(b, sid)(r)
    {
      OtherWindows(b, a, r);
    }
    SumAgrees(a, Counting(a + b, sid), Counting(a, sid), amount);
    SumAgrees(b, Counting(a + b, sid), Counting(b, sid), amount);
  }

  lemma OtherWindows(a: seq<Row>, b: seq<Row>, r: Row)
    requires KeysOf(a) !! KeysOf(b) && r in a
    ensures Filed(r) ==> HasClassRow(a + b, KeyOf(r)) == HasClassRow(b + a, KeyOf(r)) == HasClassRow(a, KeyOf(r))
  {
    if Filed(r) {
      assert forall s :: (s in a + b <==> s in a || s in b) && (s in b + a <==> s in a || s in b);
      assert KeyOf(r) in KeysOf(a);
      forall s | s in b && Filed(s)
        ensures KeyOf(s) != KeyOf(r)
      {
        assert KeyOf(s) in KeysOf(b);
      }
    }
  }

  lemma {:induction false} MassIsPositive(rows: seq<Row>, p: Row -> bool, sum: Amount)
    requires sum == VneiSum || sum == CoverageSum
    ensures Sum(rows, p, MassOf(sum)) >= 0.0
    ensures Sum(rows, p, MassOf(sum)) == 0.0 ==> Sum(rows, p, sum) == 0.0
  {
    hide Value;
    if rows == [] {
    } else {
      MassIsPositive(rows[..|rows| - 1], p, sum);
      WeightsArePositive(rows[|rows| - 1]);
    }
  }

  /** An average times its weight; nothing if there is no average. */
  function Weighed(mean: Option<real>, weight: real): real {
    if mean.Some? then mean.value * weight else 0.0
  }

  lemma MeanTimesMass(sum: real, mass: real)
    requires mass == 0.0 ==> sum == 0.0
    ensures Weighed(Mean(sum, mass), mass) == sum
  {
  }

  lemma WeighedIsSum(rows: seq<Row>, sid: string)
    ensures Weighed(SummaryOf(rows, sid).vnei, SummaryOf(rows, sid).vneiWeight) == SessionSum(rows, sid, VneiSum)
    ensures Weighed(SummaryOf(rows, sid).coverage, SummaryOf(rows, sid).coverageWeight)
      == SessionSum(rows, sid, CoverageSum)
  {
    hide Mean, Weighed, Sum;
    MassIsPositive(rows, Counting(rows, sid), VneiSum);
    MassIsPositive(rows, Counting(rows, sid), CoverageSum);
    MeanTimesMass(SessionSum(rows, sid, VneiSum), SessionSum(rows, sid, VneiMass));
    MeanTimesMass(SessionSum(rows, sid, CoverageSum), SessionSum(rows, sid, CoverageMass));
  }

  /** Batches of rows about disjoint windows can be summarised apart: windows and weights add,
      and the joint average is the weighted one of the two. */
  lemma DisjointWindowsAdd(a: seq<Row>, b: seq<Row>, sid: string)
    requires KeysOf(a) !! KeysOf(b)
    ensures var (x, y, z) := (SummaryOf(a, sid), SummaryOf(b, sid), SummaryOf(a + b, sid));
      && z.reportableWindows == x.reportableWindows + y.reportableWindows
      && z.vneiWeight == x.vneiWeight + y.vneiWeight && z.coverageWeight == x.coverageWeight + y.coverageWeight
      && Weighed(z.vnei, z.vneiWeight) == Weighed(x.vnei, x.vneiWeight) + Weighed(y.vnei, y.vneiWeight)
      && Weighed(z.coverage, z.coverageWeight)
         == Weighed(x.coverage, x.coverageWeight) + Weighed(y.coverage, y.coverageWeight)
  {
    hide SessionSum, Mean, Weighed;
    forall amount {
      JoinedSum(a, b, sid, amount);
    }
    WeighedIsSum(a, sid);
    WeighedIsSum(b, sid);
    WeighedIsSum(a + b, sid);
    assert forall r :: r in a + b <==> r in a || r in b;
    assert KeysOf(a + b) == KeysOf(a) + KeysOf(b);
    assert WindowsOf(a + b, sid) == WindowsOf(a, sid) + WindowsOf(b, sid);
    assert WindowsOf(a, sid) !! WindowsOf(b, sid);
  }

  // ---------- What weighs how much ----------

  /** A row's attention weighs its pose observations if it has any, and otherwise the tracks it saw
      times its length; its coverage weighs its enrolment times its length. Missing and negative
      numbers count as nothing; a missing or zero length counts as 60 seconds, a negative one as 1. */
  lemma WeightsAre(r: Row)
    ensures var length := if r.windowS.None? || r.windowS.value == 0 then 60
                          else if r.windowS.value < 0 then 1 else r.windowS.value;
      && VneiWeight(r) == (if r.poseObservations.Some? && r.poseObservations.value > 0 then r.poseObservations.value
                           else if r.tracked.Some? && r.tracked.value > 0 then r.tracked.value * length else 0)
      && CoverageWeight(r) == if r.enrolled.Some? && r.enrolled.value > 0 then r.enrolled.value * length else 0
  {
  }

  /** A session of one row is summarised by that row: its own averages, where they weigh anything,
      its own weights, and one window. */
  lemma OneRowIsItsOwnSummary(r: Row)
    requires Filed(r)
    ensures var s := SummaryOf([r], r.sessionId.value);
      && s.vnei == (if VneiWeight(r) > 0 then r.vnei else None)
      && s.coverage == (if CoverageWeight(r) > 0 then r.coverage else None)
      && s.vneiWeight == (if r.vnei.Some? && VneiWeight(r) > 0 then VneiWeight(r) as real else 0.0)
      && s.coverageWeight == (if r.coverage.Some? && CoverageWeight(r) > 0 then CoverageWeight(r) as real else 0.0)
      && s.reportableWindows == 1
  {
    var sid := r.sessionId.value;
    forall a: Amount
      ensures SessionSum([r], sid, a) == Value(a, r)
    {
      SumOfOne(r, a);
    }
    assert WindowsOf([r], sid) == {KeyOf(r)};
    RowMeans(r);
    hide VneiWeight, CoverageWeight, SessionSum, WindowsOf, Value, Mean;
  }

  lemma RowMeans(r: Row)
    ensures Mean(Value(VneiSum, r), Value(VneiMass, r)) == if VneiWeight(r) > 0 then r.vnei else None
    ensures Mean(Value(CoverageSum, r), Value(CoverageMass, r)) == if CoverageWeight(r) > 0 then r.coverage else None
    ensures Value(VneiMass, r) == if r.vnei.Some? && VneiWeight(r) > 0 then VneiWeight(r) as real else 0.0
    ensures Value(CoverageMass, r)
         == if r.coverage.Some? && CoverageWeight(r) > 0 then CoverageWeight(r) as real else 0.0
  {
    CoverageWeighsIff(r);
    hide VneiWeight, CoverageWeight, Mean;
    MeanOfNothing();
    if r.vnei.Some? && VneiWeight(r) > 0 {
      MeanOfOne(Value(VneiSum, r), Value(VneiMass, r), r.vnei.value, VneiWeight(r));
    }
    if r.coverage.Some? && CoverageWeight(r) > 0 {
      MeanOfOne(Value(CoverageSum, r), Value(CoverageMass, r), r.coverage.value, CoverageWeight(r));
    }
  }

  lemma SumOfOne(r: Row, a: Amount)
    requires Filed(r)
    ensures SessionSum([r], r.sessionId.value, a) == Value(a, r)
  {
    hide Value;
    var p := Counting([r], r.sessionId.value);
    assert p(r);
    SumSnoc([], r, p, a);
    SumOfNone(p);
    assert [] + [r] == [r];
  }

  lemma CoverageWeighsIff(r: Row)
    ensures CoverageWeight(r) > 0 <==> Or(r.enrolled, 0, 0) > 0
  {
    if Or(r.enrolled, 0, 0) > 0 {
      assert Duration(r) >= 1;
    }
  }

  lemma MeanOfNothing()
    ensures forall x :: Mean(x, 0.0) == None
  {
  }

  lemma MeanOfOne(sum: real, mass: real, x: real, weight: int)
    requires weight > 0 && mass == weight as real && sum == x * weight as real
    ensures Mean(sum, mass) == Some(x)
  {
    var m := sum / mass;
    assert m * mass == sum && (m - x) * mass == 0.0;
    SignOfFactor(m - x, mass);
  }

  /** A session is summarised exactly if one of its rows names it and a window, neither being empty. */
  lemma SummarisedIff(rows: seq<Row>, sid: string)
    ensures Known(rows, sid) <==>
      sid != "" && exists r :: r in rows && r.sessionId == Some(sid) && r.windowStart.Some? && r.windowStart.value != ""
  {
    if r :| r in rows && r.sessionId == Some(sid) && r.windowStart.Some? && r.windowStart.value != "" && sid != "" {
      assert KeyOf(r) in KeysOf(rows) && KeyOf(r).sessionId == sid;
    }
  }

  /** The windows counted are the distinct ones the session's rows name. */
  lemma WindowsAreNamed(rows: seq<Row>, sid: string, start: string)
    ensures Key(sid, start) in WindowsOf(rows, sid) <==>
      && sid != "" && start != ""
      && exists r :: r in rows && r.sessionId == Some(sid) && r.windowStart == Some(start)
    ensures forall k :: k in WindowsOf(rows, sid) ==> k.sessionId == sid
    ensures SummaryOf(rows, sid).reportableWindows == |WindowsOf(rows, sid)|
  {
    if r :| r in rows && r.sessionId == Some(sid) && r.windowStart == Some(start) && sid != "" && start != "" {
      assert KeyOf(r) == Key(sid, start);
    }
  }
}
