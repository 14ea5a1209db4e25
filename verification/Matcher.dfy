/**
 The cosine matcher of backend/vision/embedding_store.py, over exact reals.

 Dafny's reals have no square root, so a vector comes with its norm, the one nonnegative
 number whose square is the vector's product with itself.
 */
module Matcher {
  import opened Wrappers
  import Geometry

  type Vector = seq<real>

  // ---------- Inner products ----------

  function Times(x: real, y: real): real {
    x * y
  }

  function Dot(a: Vector, b: Vector): real
    requires |a| == |b|
  {
    if a == [] then 0.0
    else
      var n := |a| - 1;
      Dot(a[..n], b[..n]) + Times(a[n], b[n])
  }

  function Mix(x: real, a: real, y: real, b: real): real {
    x * a + y * b
  }

  /** x * a + y * b, entry by entry. */
  function Combine(x: real, a: Vector, y: real, b: Vector): (c: Vector)
    requires |a| == |b|
    ensures |c| == |a| && forall k :: 0 <= k < |c| ==> c[k] == Mix(x, a[k], y, b[k])
  {
    seq(|a|, k requires 0 <= k < |a| => Mix(x, a[k], y, b[k]))
  }

  function Scale(x: real, a: Vector): Vector {
    Combine(x, a, 0.0, a)
  }

  lemma {:induction false} DotSymmetric(a: Vector, b: Vector)
    requires |a| == |b|
    ensures Dot(a, b) == Dot(b, a)
  {
    if a == [] {
    } else {
      DotSymmetric(a[..|a| - 1], b[..|a| - 1]);
    }
  }

  lemma CombineFront(x: real, a: Vector, y: real, b: Vector)
    requires |a| == |b| > 0
    ensures Combine(x, a, y, b)[..|a| - 1] == Combine(x, a[..|a| - 1], y, b[..|a| - 1])
  {
    hide Mix;
  }

  lemma {:induction false} DotLinear(x: real, a: Vector, y: real, b: Vector, c: Vector)
    requires |a| == |b| == |c|
    ensures Dot(Combine(x, a, y, b), c) == Mix(x, Dot(a, c), y, Dot(b, c))
  {
    hide Mix, Times;
    if a == [] {
      MixZero(x, y);
    } else {
      var n := |a| - 1;
      DotLinear(x, a[..n], y, b[..n], c[..n]);
      CombineFront(x, a, y, b);
      Regroup(x, Dot(a[..n], c[..n]), a[n], y, Dot(b[..n], c[..n]), b[n], c[n]);
    }
  }

  lemma MixZero(x: real, y: real)
    ensures Mix(x, 0.0, y, 0.0) == 0.0
  {
  }

  lemma Regroup(x: real, p: real, a: real, y: real, q: real, b: real, c: real)
    ensures Mix(x, p, y, q) + Times(Mix(x, a, y, b), c) == Mix(x, p + Times(a, c), y, q + Times(b, c))
  {
    assert (x * a + y * b) * c == x * (a * c) + y * (b * c);
    assert x * (p + a * c) == x * p + x * (a * c) && y * (q + b * c) == y * q + y * (b * c);
  }

  lemma DotScale(x: real, a: Vector, b: Vector)
    requires |a| == |b|
    ensures Dot(Scale(x, a), b) == x * Dot(a, b)
  {
    hide Dot, Combine;
    DotLinear(x, a, 0.0, a, b);
  }

  predicate IsZero(a: Vector) {
    forall k :: 0 <= k < |a| ==> a[k] == 0.0
  }

  /** A vector's product with itself is positive unless it is zero. */
  lemma {:induction false} DotSelf(a: Vector)
    ensures Dot(a, a) >= 0.0
    ensures Dot(a, a) == 0.0 <==> IsZero(a)
  {
    hide Times;
    if a == [] {
    } else {
      var n := |a| - 1;
      DotSelf(a[..n]);
      Square(a[n]);
      if IsZero(a) {
        assert IsZero(a[..n]);
      }
      if Dot(a, a) == 0.0 {
        assert forall k :: 0 <= k < n ==> a[k] == a[..n][k];
      }
    }
  }

  lemma SameSign(x: real, y: real)
    requires (x > 0.0 && y > 0.0) || (x < 0.0 && y < 0.0)
    ensures Times(x, y) > 0.0
  {
  }

  lemma Square(x: real)
    ensures Times(x, x) >= 0.0 && (Times(x, x) == 0.0 <==> x == 0.0)
  {
    if x != 0.0 {
      SameSign(x, x);
    }
  }

  /** The square of a combination, expanded. */
  lemma CombinedSquare(x: real, a: Vector, y: real, b: Vector)
    requires |a| == |b|
    ensures var c := Combine(x, a, y, b);
      Dot(c, c) == Mix(x, Mix(x, Dot(a, a), y, Dot(a, b)), y, Mix(x, Dot(a, b), y, Dot(b, b)))
  {
    hide Dot, Combine, Mix;
    var c := Combine(x, a, y, b);
    DotLinear(x, a, y, b, c);
    DotSymmetric(a, c);
    DotLinear(x, a, y, b, a);
    DotSymmetric(b, c);
    DotLinear(x, a, y, b, b);
    DotSymmetric(b, a);
  }

  /** Cauchy-Schwarz, with its equality case: the bound is reached exactly by vectors one of
      which is a multiple of the other. */
  lemma CauchySchwarz(a: Vector, b: Vector)
    requires |a| == |b|
    ensures Times(Dot(a, b), Dot(a, b)) <= Times(Dot(a, a), Dot(b, b))
    ensures Times(Dot(a, b), Dot(a, b)) == Times(Dot(a, a), Dot(b, b))
       <==> IsZero(Combine(Dot(a, b), a, -Dot(a, a), b))
  {
    hide Dot, Combine, Gap, IsZero, Times;
    var p, q, r := Dot(a, a), Dot(a, b), Dot(b, b);
    var c := Combine(q, a, -p, b);
    CombinedIsGap(a, b);
    DotSelf(c);
    DotSelf(a);
    if p == 0.0 {
      ZeroDot(a, b);
    }
    Discriminant(p, q, r, Dot(c, c));
  }

  function Gap(p: real, q: real, r: real): real {
    p * (p * r - q * q)
  }

  lemma CombinedIsGap(a: Vector, b: Vector)
    requires |a| == |b|
    ensures var c := Combine(Dot(a, b), a, -Dot(a, a), b); Dot(c, c) == Gap(Dot(a, a), Dot(a, b), Dot(b, b))
  {
    hide Dot, Combine, Mix, Gap;
    CombinedSquare(Dot(a, b), a, -Dot(a, a), b);
    Expand(Dot(a, a), Dot(a, b), Dot(b, b));
  }

  lemma Discriminant(p: real, q: real, r: real, s: real)
    requires p >= 0.0 && s >= 0.0 && s == Gap(p, q, r) && (p == 0.0 ==> q == 0.0)
    ensures Times(q, q) <= Times(p, r) && (Times(q, q) == Times(p, r) <==> s == 0.0)
  {
    if p > 0.0 {
      PositiveFactor(p, p * r - q * q);
    }
  }

  lemma Expand(p: real, q: real, r: real)
    ensures Mix(q, Mix(q, p, -p, q), -p, Mix(q, q, -p, r)) == Gap(p, q, r)
  {
    var u, v := q * q, p * r;
    assert Mix(q, p, -p, q) == 0.0;
    assert Mix(q, q, -p, r) == u - v;
    assert -p * (u - v) == p * (v - u);
  }

  lemma PositiveFactor(p: real, x: real)
    requires p > 0.0 && p * x >= 0.0
    ensures x >= 0.0 && (p * x == 0.0 <==> x == 0.0)
  {
  }

  lemma {:induction false} ZeroDot(a: Vector, b: Vector)
    requires |a| == |b| && IsZero(a)
    ensures Dot(a, b) == 0.0
  {
    if a == [] {
    } else {
      ZeroDot(a[..|a| - 1], b[..|a| - 1]);
    }
  }

  // ---------- Normalised rows ----------

  predicate IsNorm(v: Vector, n: real) {
    n >= 0.0 && n * n == Dot(v, v)
  }

  /** `_l2`: the zero vector stays as it is. */
  function Unit(v: Vector, n: real): (u: Vector)
    ensures |u| == |v|
  {
    if n > 0.0 then Scale(1.0 / n, v) else v
  }

  ghost predicate Normal(u: Vector) {
    Dot(u, u) == 1.0 || Dot(u, u) == 0.0
  }

  lemma UnitIsNormal(v: Vector, n: real)
    requires IsNorm(v, n)
    ensures Dot(Unit(v, n), Unit(v, n)) == if n > 0.0 then 1.0 else 0.0
  {
    hide Combine, Dot;
    if n > 0.0 {
      var k, u := 1.0 / n, Unit(v, n);
      DotScale(k, v, u);
      DotSymmetric(v, u);
      DotScale(k, v, v);
      Reciprocal(n);
      assert k * (k * (n * n)) == (k * n) * (k * n);
    } else {
      assert n == 0.0;
    }
  }

  lemma Reciprocal(n: real)
    requires n > 0.0
    ensures 1.0 / n > 0.0 && (1.0 / n) * n == 1.0
  {
  }

  /** Scores of normalised vectors lie between -1 and 1. */
  lemma ScoreInRange(u: Vector, v: Vector)
    requires |u| == |v| && Normal(u) && Normal(v)
    ensures -1.0 <= Dot(u, v) <= 1.0
  {
    hide Dot;
    CauchySchwarz(u, v);
    SquareAtMostOne(Dot(u, v), Times(Dot(u, u), Dot(v, v)));
  }

  lemma SquareAtMostOne(x: real, y: real)
    requires Times(x, x) <= y <= 1.0
    ensures -1.0 <= x <= 1.0
  {
    if x > 1.0 {
      SameSign(x - 1.0, x + 1.0);
    } else if x < -1.0 {
      SameSign(x - 1.0, x + 1.0);
    }
  }

  /** Two normalised vectors score 1 exactly if they are the same unit vector. */
  lemma FullScoreIffSame(u: Vector, v: Vector)
    requires |u| == |v| && Normal(u) && Normal(v)
    ensures Dot(u, v) == 1.0 <==> u == v && Dot(u, u) == 1.0
  {
    hide Dot;
    if Dot(u, v) == 1.0 {
      CauchySchwarz(u, v);
      assert Dot(u, u) == 1.0 && Dot(v, v) == 1.0;
      CombinedSquare(1.0, u, -1.0, v);
      var d := Combine(1.0, u, -1.0, v);
      DotSelf(d);
      forall k | 0 <= k < |u|
        ensures u[k] == v[k]
      {
        assert d[k] == u[k] - v[k];
      }
      assert u == v;
    }
  }

  /** Vectors of one direction have one normal form. */
  lemma SameDirectionSameUnit(v: Vector, n: real, k: real, p: Vector, m: real)
    requires IsNorm(v, n) && n > 0.0 && k > 0.0 && p == Scale(k, v) && IsNorm(p, m)
    ensures m == k * n && Unit(p, m) == Unit(v, n)
  {
    hide Dot;
    DotScale(k, v, p);
    DotSymmetric(v, p);
    DotScale(k, v, v);
    assert m * m == (k * n) * (k * n);
    assert k * n > 0.0;
    SameRoot(m, k * n);
    forall i | 0 <= i < |v|
      ensures Unit(p, m)[i] == Unit(v, n)[i]
    {
      Cancels(k, n, v[i]);
    }
  }

  lemma SameRoot(x: real, y: real)
    requires x >= 0.0 && y > 0.0 && x * x == y * y
    ensures x == y
  {
    assert (x - y) * (x + y) == 0.0;
    Geometry.SignOfFactor(x - y, x + y);
  }

  lemma Cancels(k: real, n: real, x: real)
    requires k > 0.0 && n > 0.0
    ensures k * n > 0.0 && (1.0 / (k * n)) * (k * x) == (1.0 / n) * x
  {
  }

  // ---------- The gallery ----------

  datatype Template = Template(id: string, vec: Vector, norm: real)

  datatype MatchError = DimensionMismatch

  /** A template has the width of the rows so far; the first one sets it. */
  predicate Fits(rows: seq<Vector>, t: Template) {
    rows == [] || |t.vec| == |rows[0]|
  }

  /** The rows after adding templates one by one: one of the wrong width adds none. */
  function RowsOf(added: seq<Template>): seq<Vector> {
    if added == [] then []
    else
      var front, last := RowsOf(added[..|added| - 1]), added[|added| - 1];
      if Fits(front, last) then front + [Unit(last.vec, last.norm)] else front
  }

  /** The ids after the same, where every template leaves its id. */
  function IdsOf(added: seq<Template>): seq<string> {
    if added == [] then [] else IdsOf(added[..|added| - 1]) + [added[|added| - 1].id]
  }

  lemma {:induction false} RowsAndIds(added: seq<Template>)
    ensures |RowsOf(added)| <= |IdsOf(added)| == |added|
    ensures RowsOf(added) == [] <==> added == []
    ensures forall i :: 0 <= i < |added| ==> IdsOf(added)[i] == added[i].id
    ensures forall i :: 0 <= i < |RowsOf(added)| ==> |RowsOf(added)[i]| == |added[0].vec|
  {
    if added == [] {
    } else {
      RowsAndIds(added[..|added| - 1]);
    }
  }

  ghost predicate OneWidth(added: seq<Template>) {
    forall i :: 0 <= i < |added| ==> |added[i].vec| == |added[0].vec|
  }

  /** Rows and ids belong together exactly if all templates had one width: adding one of
      another width fails only after its id went in. */
  lemma {:induction false} AlignedIffOneWidth(added: seq<Template>)
    ensures |RowsOf(added)| == |IdsOf(added)| <==> OneWidth(added)
    ensures OneWidth(added) ==> forall i :: 0 <= i < |RowsOf(added)| ==>
      i < |added| && RowsOf(added)[i] == Unit(added[i].vec, added[i].norm)
  {
    hide Unit;
    if added == [] {
    } else {
      var n := |added| - 1;
      AlignedIffOneWidth(added[..n]);
      RowsAndIds(added[..n]);
      assert forall i :: 0 <= i < n ==> added[..n][i] == added[i];
      if OneWidth(added) {
        assert OneWidth(added[..n]);
      } else if OneWidth(added[..n]) && n > 0 {
        assert |added[n].vec| != |added[0].vec|;
        assert |RowsOf(added[..n])[0]| == |added[..n][0].vec|;
      }
    }
  }

  ghost predicate FirstMax(rows: seq<Vector>, probe: Vector, i: nat)
    requires forall k :: 0 <= k < |rows| ==> |rows[k]| == |probe|
  {
    && i < |rows|
    && forall k :: 0 <= k < |rows| ==>
        if k < i then Dot(rows[k], probe) < Dot(rows[i], probe) else Dot(rows[k], probe) <= Dot(rows[i], probe)
  }

  /** `np.argmax`: the first row with the greatest score. */
  function ArgMax(rows: seq<Vector>, probe: Vector): (i: nat)
    requires rows != [] && forall k :: 0 <= k < |rows| ==> |rows[k]| == |probe|
    ensures FirstMax(rows, probe, i)
  {
    var n := |rows| - 1;
    if n == 0 then 0
    else
      var i := ArgMax(rows[..n], probe);
      assert forall k :: 0 <= k < n ==> rows[..n][k] == rows[k];
      assert FirstMax(rows[..n], probe, i);
      if Dot(rows[n], probe) > Dot(rows[i], probe) then n else i
  }

  datatype Hit = Hit(id: Option<string>, score: real)

  function MatchOf(ids: seq<string>, rows: seq<Vector>, probe: Vector, norm: real, threshold: real)
    : Result<Hit, MatchError>
    requires |rows| <= |ids| && forall k :: 0 <= k < |rows| ==> |rows[k]| == |rows[0]|
  {
    if rows == [] then Ok(Hit(None, 0.0))
    else if |probe| != |rows[0]| then Err(DimensionMismatch)
    else
      var p := Unit(probe, norm);
      var i := ArgMax(rows, p);
      var score := Dot(rows[i], p);
      Ok(Hit(if score >= threshold then Some(ids[i]) else None, score))
  }

  class EmbeddingStore {
    const threshold: real
    var ids: seq<string>
    var mat: seq<Vector>
    /** Every template `Add` was called with. */
    ghost var added: seq<Template>

    ghost predicate Valid()
      reads this
    {
      ids == IdsOf(added) && mat == RowsOf(added)
    }

    constructor (threshold: real)
      ensures Valid() && added == [] && this.threshold == threshold
    {
      this.threshold, ids, mat, added := threshold, [], [], [];
    }

    method Add(studentId: string, vec: Vector, norm: real) returns (r: Result<nat, MatchError>)
      requires Valid() && IsNorm(vec, norm)
      modifies this
      ensures Valid() && added == old(added) + [Template(studentId, vec, norm)]
      ensures r == if Fits(old(mat), Template(studentId, vec, norm)) then Ok(|mat| - 1) else Err(DimensionMismatch)
    {
      var v := Unit(vec, norm);
      added := added + [Template(studentId, vec, norm)];
      assert added[..|added| - 1] == old(added);
      ids := ids + [studentId];
      if mat == [] {
        mat := [v];
      } else if |v| == |mat[0]| {
        mat := mat + [v];
      } else {
        return Err(DimensionMismatch);
      }
      r := Ok(|mat| - 1);
    }

    method Match(vec: Vector, norm: real) returns (r: Result<Hit, MatchError>)
      requires Valid() && IsNorm(vec, norm)
      ensures |mat| <= |ids| && forall k :: 0 <= k < |mat| ==> |mat[k]| == |mat[0]|
      ensures r == MatchOf(ids, mat, vec, norm, threshold)
    {
      RowsAndIds(added);
      if mat == [] || ids == [] {
        return Ok(Hit(None, 0.0));
      }
      var probe := Unit(vec, norm);
      if |probe| != |mat[0]| {
        return Err(DimensionMismatch);
      }
      var i := ArgMax(mat, probe);
      var score := Dot(mat[i], probe);
      r := Ok(Hit(if score >= threshold then Some(ids[i]) else None, score));
    }
  }

  // ---------- What a match means ----------

  ghost predicate Measured(added: seq<Template>) {
    forall i :: 0 <= i < |added| ==> IsNorm(added[i].vec, added[i].norm)
  }

  lemma {:induction false} RowsAreNormal(added: seq<Template>)
    requires Measured(added)
    ensures forall i :: 0 <= i < |RowsOf(added)| ==> Normal(RowsOf(added)[i])
  {
    hide Unit, Dot;
    if added == [] {
    } else {
      var n := |added| - 1;
      assert forall i :: 0 <= i < n ==> added[..n][i] == added[i];
      RowsAreNormal(added[..n]);
      UnitIsNormal(added[n].vec, added[n].norm);
    }
  }

  /** Whatever is matched, the score lies between -1 and 1, and an accepted id scored at least
      the threshold. */
  lemma MatchScoreInRange(added: seq<Template>, probe: Vector, norm: real, threshold: real)
    requires Measured(added) && IsNorm(probe, norm)
    ensures |RowsOf(added)| <= |IdsOf(added)| && forall k :: 0 <= k < |RowsOf(added)| ==>
      |RowsOf(added)[k]| == |RowsOf(added)[0]|
    ensures var r := MatchOf(IdsOf(added), RowsOf(added), probe, norm, threshold);
      r.Ok? ==> -1.0 <= r.value.score <= 1.0 && (r.value.id.Some? ==> r.value.score >= threshold)
  {
    hide Dot, Unit, IsNorm;
    RowsAndIds(added);
    RowsAreNormal(added);
    var rows, p := RowsOf(added), Unit(probe, norm);
    assert Normal(p) by {
      UnitIsNormal(probe, norm);
    }
    if rows != [] && |probe| == |rows[0]| {
      ScoreInRange(rows[ArgMax(rows, p)], p);
    }
  }

  /** What a match says of a probe of the gallery's width: the score is the greatest over the rows;
      an id comes back exactly if some row reaches the threshold, and is then that of the first
      row with the greatest score. */
  lemma MatchMeans(ids: seq<string>, rows: seq<Vector>, probe: Vector, norm: real, threshold: real) returns (i: nat)
    requires |rows| <= |ids| && (forall k :: 0 <= k < |rows| ==> |rows[k]| == |rows[0]|)
    requires rows != [] && |probe| == |rows[0]|
    ensures var p := Unit(probe, norm);
      && i < |rows|
      && (forall k :: 0 <= k < i ==> Dot(rows[k], p) < Dot(rows[i], p))
      && (forall k :: 0 <= k < |rows| ==> Dot(rows[k], p) <= Dot(rows[i], p))
      && MatchOf(ids, rows, probe, norm, threshold).Ok?
      && var hit := MatchOf(ids, rows, probe, norm, threshold).value;
      && hit.score == Dot(rows[i], p)
      && (hit.id.Some? ==> hit.id.value == ids[i])
      && (hit.id.Some? <==> exists k :: 0 <= k < |rows| && Dot(rows[k], p) >= threshold)
  {
    hide Dot, Unit;
    i := ArgMax(rows, Unit(probe, norm));
  }

  /** An empty gallery matches nobody, and a probe of another width is an error, whatever else. */
  lemma NoMatchAtAll(ids: seq<string>, rows: seq<Vector>, probe: Vector, norm: real, threshold: real)
    requires |rows| <= |ids| && (forall k :: 0 <= k < |rows| ==> |rows[k]| == |rows[0]|)
    ensures rows == [] ==> MatchOf(ids, rows, probe, norm, threshold) == Ok(Hit(None, 0.0))
    ensures MatchOf(ids, rows, probe, norm, threshold).Err? <==> rows != [] && |probe| != |rows[0]|
  {
    hide Dot, Unit, ArgMax;
  }

  /** A face somewhat off its template's direction is recognised all the same. */
  lemma OffAxisFaceIsRecognised()
    ensures var added := [Template("a", [1.0, 0.0], 1.0)];
      && IdsOf(added) == ["a"] && RowsOf(added) == [[1.0, 0.0]] && IsNorm([0.8, 0.6], 1.0)
      && MatchOf(IdsOf(added), RowsOf(added), [0.8, 0.6], 1.0, 0.45) == Ok(Hit(Some("a"), 0.8))
      && MatchOf(IdsOf(added), RowsOf(added), [0.8, 0.6], 1.0, 0.85) == Ok(Hit(None, 0.8))
  {
    var a, probe := Template("a", [1.0, 0.0], 1.0), [0.8, 0.6];
    DotOfTwo(1.0, 0.0, 0.8, 0.6);
    DotOfTwo(0.8, 0.6, 0.8, 0.6);
    UnitOfTwo(1.0, 0.0);
    UnitOfTwo(0.8, 0.6);
    assert [a][..0] == [];
    hide Dot, Unit, ArgMax;
    var i := MatchMeans(["a"], [[1.0, 0.0]], probe, 1.0, 0.45);
    var j := MatchMeans(["a"], [[1.0, 0.0]], probe, 1.0, 0.85);
  }

  lemma DotOfTwo(a: real, b: real, c: real, d: real)
    ensures Dot([a, b], [c, d]) == Times(a, c) + Times(b, d)
  {
    assert [a, b][..1] == [a] && [c, d][..1] == [c] && [a][..0] == [c][..0] == [];
    assert Dot([a], [c]) == Times(a, c);
  }

  lemma UnitOfTwo(a: real, b: real)
    ensures Unit([a, b], 1.0) == [a, b]
  {
  }

  /** The probe and the template point the same way. */
  ghost predicate SameDirection(t: Template, probe: Vector) {
    exists k :: k > 0.0 && t.vec == Scale(k, probe)
  }

  lemma SameUnitSameDirection(t: Template, probe: Vector, norm: real)
    requires t.norm > 0.0 && norm > 0.0 && |t.vec| == |probe| && Unit(t.vec, t.norm) == Unit(probe, norm)
    ensures SameDirection(t, probe)
  {
    var k := t.norm / norm;
    RatioIsPositive(t.norm, norm);
    forall i | 0 <= i < |probe|
      ensures t.vec[i] == Scale(k, probe)[i]
    {
      assert Unit(t.vec, t.norm)[i] == Unit(probe, norm)[i];
      CrossMultiply(t.norm, norm, t.vec[i], probe[i]);
    }
    assert t.vec == Scale(k, probe);
  }

  lemma RatioIsPositive(n: real, m: real)
    requires n > 0.0 && m > 0.0
    ensures n / m > 0.0
  {
  }

  lemma CrossMultiply(n: real, m: real, x: real, y: real)
    requires n > 0.0 && m > 0.0 && (1.0 / n) * x == (1.0 / m) * y
    ensures x == (n / m) * y
  {
    assert x == n * ((1.0 / n) * x);
    assert n * ((1.0 / m) * y) == (n / m) * y;
  }

  /** A probe that points the way of an enrolled template scores exactly 1, is accepted under
      any threshold up to 1, and the id returned is the one of the first template that points
      exactly that way. */
  lemma EnrolledDirectionMatches(added: seq<Template>, i: nat, probe: Vector, norm: real, k: real, threshold: real)
    returns (j: nat)
    requires Measured(added) && OneWidth(added) && i < |added| && added[i].norm > 0.0
    requires k > 0.0 && probe == Scale(k, added[i].vec) && IsNorm(probe, norm) && threshold <= 1.0
    ensures |RowsOf(added)| <= |IdsOf(added)| && forall l :: 0 <= l < |RowsOf(added)| ==>
      |RowsOf(added)[l]| == |RowsOf(added)[0]|
    ensures j <= i && SameDirection(added[j], probe)
    ensures MatchOf(IdsOf(added), RowsOf(added), probe, norm, threshold) == Ok(Hit(Some(added[j].id), 1.0))
  {
    hide Dot, Unit, Combine, IsNorm, ArgMax, FirstMax, Normal;
    RowsAndIds(added);
    AlignedIffOneWidth(added);
    RowsAreNormal(added);
    var rows, p := RowsOf(added), Unit(probe, norm);
    UnitsMeet(added[i], probe, norm, k);
    j := FirstFullScore(rows, p, i);
    UnitIsNormal(added[j].vec, added[j].norm);
    assert added[j].norm > 0.0 by {
      NormIsPositive(added[j].vec, added[j].norm);
    }
    SameUnitSameDirection(added[j], probe, norm);
  }

  /** A gallery that holds the probe gives it the score 1, by the first row equal to it. */
  lemma FirstFullScore(rows: seq<Vector>, p: Vector, i: nat) returns (j: nat)
    requires i < |rows| && rows[i] == p && Dot(p, p) == 1.0
    requires forall k :: 0 <= k < |rows| ==> |rows[k]| == |p| && Normal(rows[k])
    ensures j == ArgMax(rows, p) && j <= i && rows[j] == p && Dot(rows[j], p) == 1.0
  {
    hide Dot;
    j := ArgMax(rows, p);
    ScoreInRange(rows[j], p);
    FullScoreIffSame(rows[j], p);
  }

  lemma NormIsPositive(v: Vector, n: real)
    requires IsNorm(v, n)
    ensures Dot(Unit(v, n), Unit(v, n)) == 1.0 ==> n > 0.0
  {
    UnitIsNormal(v, n);
  }

  lemma UnitsMeet(t: Template, probe: Vector, norm: real, k: real)
    requires IsNorm(t.vec, t.norm) && t.norm > 0.0 && k > 0.0 && probe == Scale(k, t.vec) && IsNorm(probe, norm)
    ensures norm > 0.0 && Unit(probe, norm) == Unit(t.vec, t.norm)
    ensures Dot(Unit(probe, norm), Unit(probe, norm)) == 1.0
  {
    hide Unit, Combine, Dot;
    SameDirectionSameUnit(t.vec, t.norm, k, probe, norm);
    SameSign(k, t.norm);
    UnitIsNormal(t.vec, t.norm);
  }

  /** Conversely, a score of 1 is only ever given to a template of the probe's direction. */
  lemma FullScoreMeansSameDirection(added: seq<Template>, probe: Vector, norm: real, threshold: real)
    requires Measured(added) && OneWidth(added) && IsNorm(probe, norm)
    ensures |RowsOf(added)| <= |IdsOf(added)| && forall l :: 0 <= l < |RowsOf(added)| ==>
      |RowsOf(added)[l]| == |RowsOf(added)[0]|
    ensures var r := MatchOf(IdsOf(added), RowsOf(added), probe, norm, threshold);
      r.Ok? && r.value.score == 1.0 && r.value.id.Some? ==>
          exists j :: 0 <= j < |added| && added[j].id == r.value.id.value && SameDirection(added[j], probe)
  {
    hide Dot, Unit, IsNorm, SameDirection;
    RowsAndIds(added);
    AlignedIffOneWidth(added);
    RowsAreNormal(added);
    var rows, p := RowsOf(added), Unit(probe, norm);
    var r := MatchOf(IdsOf(added), rows, probe, norm, threshold);
    if r.Ok? && r.value.score == 1.0 && r.value.id.Some? {
      var j := ArgMax(rows, p);
      UnitIsNormal(probe, norm);
      FullScoreIffSame(rows[j], p);
      UnitIsNormal(added[j].vec, added[j].norm);
      NormIsPositive(added[j].vec, added[j].norm);
      NormIsPositive(probe, norm);
      SameUnitSameDirection(added[j], probe, norm);
      assert added[j].id == r.value.id.value && SameDirection(added[j], probe);
    }
  }

  /** One template of the wrong width in between shifts the ids: a probe equal to the template
      of "c" is given the id of the refused template "b". This is a run of the class by itself:
      the loaders that fill a gallery let the error of a failed add escape and drop the store. */
  lemma RefusedTemplateShiftsIds()
    ensures var added := [Template("a", [1.0], 1.0), Template("b", [1.0, 0.0], 1.0), Template("c", [-1.0], 1.0)];
      && IdsOf(added) == ["a", "b", "c"] && RowsOf(added) == [[1.0], [-1.0]]
      && MatchOf(IdsOf(added), RowsOf(added), [-1.0], 1.0, 0.45) == Ok(Hit(Some("b"), 1.0))
  {
    var a, b, c := Template("a", [1.0], 1.0), Template("b", [1.0, 0.0], 1.0), Template("c", [-1.0], 1.0);
    ShiftedRows(a, b, c);
    assert [1.0][..0] == [] && [-1.0][..0] == [];
    assert Dot([1.0], [-1.0]) == -1.0 && Dot([-1.0], [-1.0]) == 1.0;
  }

  lemma ShiftedRows(a: Template, b: Template, c: Template)
    requires a == Template("a", [1.0], 1.0) && b == Template("b", [1.0, 0.0], 1.0) && c == Template("c", [-1.0], 1.0)
    ensures IdsOf([a, b, c]) == ["a", "b", "c"] && RowsOf([a, b, c]) == [[1.0], [-1.0]]
    ensures Unit([-1.0], 1.0) == [-1.0]
  {
    var added := [a, b, c];
    assert added[..2] == [a, b] && added[..2][..1] == [a] && added[..2][..1][..0] == [];
    assert Unit([1.0], 1.0) == [1.0] && Unit([-1.0], 1.0) == [-1.0];
    assert [a, b][..1] == [a] && !Fits([[1.0]], b);
    assert RowsOf([a]) == [[1.0]];
    assert RowsOf([a, b]) == [[1.0]];
    assert IdsOf([a]) == [a.id] && IdsOf([a, b]) == [a.id, b.id];
  }
}
