/**
 Axis-aligned boxes and the overlap measure of backend/vision/tracker.py, over the reals.
 */
module Geometry {

  datatype Box = Box(x1: real, y1: real, x2: real, y2: real)

  function Max(a: real, b: real): real {
    if a >= b then a else b
  }

  function Min(a: real, b: real): real {
    if a <= b then a else b
  }

  function Area(b: Box): real {
    (b.x2 - b.x1) * (b.y2 - b.y1)
  }

  /** How far two intervals overlap. */
  function Common(lo1: real, hi1: real, lo2: real, hi2: real): real {
    Max(0.0, Min(hi1, hi2) - Max(lo1, lo2))
  }

  function Inter(a: Box, b: Box): real {
    Common(a.x1, a.x2, b.x1, b.x2) * Common(a.y1, a.y2, b.y1, b.y2)
  }

  function Iou(a: Box, b: Box): real {
    var inter := Inter(a, b);
    var union := Area(a) + Area(b) - inter;
    if union > 0.0 then inter / union else 0.0
  }

  ghost predicate WellFormed(b: Box) {
    b.x1 <= b.x2 && b.y1 <= b.y2
  }

  ghost predicate Solid(b: Box) {
    b.x1 < b.x2 && b.y1 < b.y2
  }

  /** The boxes share no area. */
  ghost predicate Apart(a: Box, b: Box) {
    a.x2 <= b.x1 || b.x2 <= a.x1 || a.y2 <= b.y1 || b.y2 <= a.y1
  }

  lemma ProductMonotone(u: real, v: real, w: real, h: real)
    requires 0.0 <= u <= w && 0.0 <= v <= h
    ensures 0.0 <= u * v <= w * h
  {
    assert u * v <= w * v by {
      assert (w - u) * v >= 0.0;
    }
    assert w * v <= w * h by {
      assert w * (h - v) >= 0.0;
    }
  }

  lemma CommonBounds(lo1: real, hi1: real, lo2: real, hi2: real)
    requires lo1 <= hi1 && lo2 <= hi2
    ensures 0.0 <= Common(lo1, hi1, lo2, hi2) <= hi1 - lo1
    ensures Common(lo1, hi1, lo2, hi2) <= hi2 - lo2
  {
  }

  lemma AreaCovers(b: Box, w: real, h: real)
    requires 0.0 <= w <= b.x2 - b.x1 && 0.0 <= h <= b.y2 - b.y1
    ensures 0.0 <= w * h <= Area(b)
  {
    ProductMonotone(w, h, b.x2 - b.x1, b.y2 - b.y1);
  }

  lemma InterBounds(a: Box, b: Box)
    requires WellFormed(a) && WellFormed(b)
    ensures 0.0 <= Inter(a, b) <= Area(a)
    ensures Inter(a, b) <= Area(b)
  {
    var w, h := Common(a.x1, a.x2, b.x1, b.x2), Common(a.y1, a.y2, b.y1, b.y2);
    CommonBounds(a.x1, a.x2, b.x1, b.x2);
    CommonBounds(a.y1, a.y2, b.y1, b.y2);
    assert Inter(a, b) == w * h;
    hide Common, Inter, Area;
    assert w * h <= Area(a) by {
      AreaCovers(a, w, h);
    }
    AreaCovers(b, w, h);
  }

  lemma SignOfFactor(x: real, y: real)
    requires y > 0.0
    ensures x * y >= 0.0 <==> x >= 0.0
    ensures x * y == 0.0 <==> x == 0.0
  {
  }

  lemma QuotientBounds(n: real, d: real)
    requires 0.0 <= n <= d && d > 0.0
    ensures 0.0 <= n / d <= 1.0
    ensures n / d == 1.0 <==> n == d
  {
    var q := n / d;
    assert q * d == n;
    assert (1.0 - q) * d == d - n;
    SignOfFactor(q, d);
    SignOfFactor(1.0 - q, d);
  }

  lemma QuotientTimes(n: real, d: real)
    requires d > 0.0
    ensures (n / d) * d == n
  {
  }

  lemma IouSymmetric(a: Box, b: Box)
    ensures Iou(a, b) == Iou(b, a)
  {
    assert Min(a.x2, b.x2) == Min(b.x2, a.x2) && Max(a.x1, b.x1) == Max(b.x1, a.x1);
    assert Min(a.y2, b.y2) == Min(b.y2, a.y2) && Max(a.y1, b.y1) == Max(b.y1, a.y1);
    assert Inter(a, b) == Inter(b, a);
  }

  lemma IouInUnitInterval(a: Box, b: Box)
    requires WellFormed(a) && WellFormed(b)
    ensures 0.0 <= Iou(a, b) <= 1.0
  {
    InterBounds(a, b);
    var union := Area(a) + Area(b) - Inter(a, b);
    if union > 0.0 {
      QuotientBounds(Inter(a, b), union);
    }
  }

  lemma FullProduct(u: real, v: real, w: real, h: real)
    requires 0.0 <= u <= w && 0.0 <= v <= h && 0.0 < w && 0.0 < h && u * v == w * h
    ensures u == w && v == h
  {
    assert (w - u) * h + u * (h - v) == 0.0;
    SignOfFactor(w - u, h);
    assert u * (h - v) >= 0.0 by {
      ProductMonotone(u, h - v, w, h);
    }
    assert u == w;
    assert (h - v) * w == 0.0;
    SignOfFactor(h - v, w);
  }

  /** Overlap is total exactly for the same box. */
  lemma IouOneIffSame(a: Box, b: Box)
    requires Solid(a) && Solid(b)
    ensures Iou(a, b) == 1.0 <==> a == b
  {
    InterBounds(a, b);
    var inter, union := Inter(a, b), Area(a) + Area(b) - Inter(a, b);
    SignOfFactor(a.x2 - a.x1, a.y2 - a.y1);
    SignOfFactor(b.x2 - b.x1, b.y2 - b.y1);
    assert Area(a) > 0.0 && Area(b) > 0.0;
    QuotientBounds(inter, union);
    if inter == union {
      WholeInter(a, b);
    }
  }

  lemma WholeInter(a: Box, b: Box)
    requires Solid(a) && Solid(b) && Inter(a, b) == Area(a) == Area(b)
    ensures a == b
  {
    var w, h := Common(a.x1, a.x2, b.x1, b.x2), Common(a.y1, a.y2, b.y1, b.y2);
    CommonBounds(a.x1, a.x2, b.x1, b.x2);
    CommonBounds(a.y1, a.y2, b.y1, b.y2);
    FullProduct(w, h, a.x2 - a.x1, a.y2 - a.y1);
    FullProduct(w, h, b.x2 - b.x1, b.y2 - b.y1);
  }

  lemma IouOfApart(a: Box, b: Box)
    requires Apart(a, b)
    ensures Iou(a, b) == 0.0
  {
    var w, h := Common(a.x1, a.x2, b.x1, b.x2), Common(a.y1, a.y2, b.y1, b.y2);
    assert w == 0.0 || h == 0.0;
    assert Inter(a, b) == 0.0;
  }

  /** The point lies in the box. */
  predicate Inside(b: Box, x: real, y: real) {
    b.x1 <= x <= b.x2 && b.y1 <= y <= b.y2
  }

  /** Boxes that are not apart have a box in common: exactly the points in both, and its area is
      what they overlap by. */
  lemma OverlapIsTheCommonBox(a: Box, b: Box) returns (both: Box)
    requires WellFormed(a) && WellFormed(b) && !Apart(a, b)
    ensures WellFormed(both) && forall x, y :: Inside(both, x, y) <==> Inside(a, x, y) && Inside(b, x, y)
    ensures Inter(a, b) == (both.x2 - both.x1) * (both.y2 - both.y1)
  {
    both := Box(Max(a.x1, b.x1), Max(a.y1, b.y1), Min(a.x2, b.x2), Min(a.y2, b.y2));
    assert Common(a.x1, a.x2, b.x1, b.x2) == both.x2 - both.x1;
    assert Common(a.y1, a.y2, b.y1, b.y2) == both.y2 - both.y1;
  }

  /** The measure is the share of the common area in the area of both together. */
  lemma IouIsTheShare(a: Box, b: Box)
    requires Solid(a) && Solid(b)
    ensures Area(a) + Area(b) - Inter(a, b) > 0.0
    ensures Iou(a, b) * (Area(a) + Area(b) - Inter(a, b)) == Inter(a, b)
  {
    hide Area, Inter;
    InterBounds(a, b);
    AreaIsPositive(a);
    AreaIsPositive(b);
    QuotientTimes(Inter(a, b), Area(a) + Area(b) - Inter(a, b));
  }

  lemma AreaIsPositive(b: Box)
    requires Solid(b)
    ensures Area(b) > 0.0
  {
    SignOfFactor(b.x2 - b.x1, b.y2 - b.y1);
  }
}
