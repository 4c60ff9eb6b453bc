/** Integer interpolation along a calibration axis, and the check that the axis is sorted. */
module Interpolation {
  import opened CArithmetic

  /** The first index at or after i whose abscissa is at least v. */
  function FirstAtLeast(x: seq<u16>, v: int, i: nat): (k: nat)
    requires i <= |x|
    ensures i <= k <= |x|
    ensures forall j :: i <= j < k ==> x[j] < v
    ensures k < |x| ==> x[k] >= v
    decreases |x| - i
  {
    if i == |x| || x[i] >= v then i else FirstAtLeast(x, v, i + 1)
  }

  /** The two truncating quotients that the code adds up between two nodes. */
  function Weighted(x0: int, y0: int, x1: int, y1: int, v: int): int
    requires x0 < x1
  {
    TruncDiv((x1 - v) * y0, x1 - x0) + TruncDiv((v - x0) * y1, x1 - x0)
  }

  function Interpolated(x: seq<u16>, y: seq<i16>, v: int): int
    requires |x| == |y| > 0
  {
    if v < x[0] then y[0]
    else if v > x[|x| - 1] then y[|x| - 1]
    else
      var k := FirstAtLeast(x, v, 1);
      if k == |x| then 0
      else if x[k] == v then y[k]
      else Weighted(x[k - 1], y[k - 1], x[k], y[k], v)
  }

  lemma ProductFits(a: int, y: int)
    requires 0 <= a <= 65535 && -32768 <= y <= 32767
    ensures -0x8000_0000 <= a * y < 0x8000_0000
  {
    if y >= 0 {
      assert a * y <= 65535 * y by { MulMono(a, 65535, y); }
      assert a * y >= 0;
    } else {
      assert a * -y <= 65535 * -y by { MulMono(a, 65535, -y); }
      assert a * -y >= 0;
      assert a * y == -(a * -y);
    }
  }

  /** q is e divided by d and truncated toward zero. */
  predicate Truncated(q: int, e: int, d: int) {
    (e >= 0 ==> 0 <= q && q * d <= e < q * d + d) && (e <= 0 ==> q <= 0 && q * d - d < e <= q * d)
  }

  lemma TruncatedUnique(p: int, q: int, e: int, d: int)
    requires d > 0 && Truncated(p, e, d) && Truncated(q, e, d)
    ensures p == q
  {
    assert (p + 1) * d == p * d + d && (q + 1) * d == q * d + d;
    if p < q {
      MulMono(p + 1, q, d);
    } else if q < p {
      MulMono(q + 1, p, d);
    }
  }

  /** Between two nodes the code adds two quotients that are truncated one at a time. */
  lemma WeightedIsTwoQuotients(x0: int, y0: int, x1: int, y1: int, v: int, p: int, q: int)
    requires x0 <= v < x1
    requires Truncated(p, (x1 - v) * y0, x1 - x0) && Truncated(q, (v - x0) * y1, x1 - x0)
    ensures Weighted(x0, y0, x1, y1, v) == p + q
  {
    TruncDivBounds((x1 - v) * y0, x1 - x0);
    TruncDivBounds((v - x0) * y1, x1 - x0);
    TruncatedUnique(p, TruncDiv((x1 - v) * y0, x1 - x0), (x1 - v) * y0, x1 - x0);
    TruncatedUnique(q, TruncDiv((v - x0) * y1, x1 - x0), (v - x0) * y1, x1 - x0);
  }

  /** On a flat axis the two truncations are felt: a third of the way between two nodes of value 1 the result is 0. */
  lemma TwoTruncationsLoseOne()
    ensures Interpolated([0, 3], [1, 1], 1) == 0
  {
  }

  /** The truncated sum is less than two away from the exact line. */
  lemma WeightedNearLine(x0: int, y0: int, x1: int, y1: int, v: int)
    requires x0 <= v < x1
    ensures var w, d, exact := Weighted(x0, y0, x1, y1, v), x1 - x0, (x1 - v) * y0 + (v - x0) * y1;
            && -2 * d < w * d - exact < 2 * d
            && (y0 >= 0 && y1 >= 0 ==> w * d <= exact && w >= 0)
            && (y0 <= 0 && y1 <= 0 ==> w * d >= exact && w <= 0)
  {
    var d, a, b := x1 - x0, x1 - v, v - x0;
    PartBounds(a, y0, d);
    PartBounds(b, y1, d);
    hide TruncDiv;
    AddParts(TruncDiv(a * y0, d), TruncDiv(b * y1, d), a * y0, b * y1, d, y0, y1);
  }

  /** Two quotients, each less than a divisor from its dividend, added up. */
  lemma AddParts(q0: int, q1: int, e0: int, e1: int, d: int, y0: int, y1: int)
    requires y0 >= 0 ==> 0 <= q0 && q0 * d <= e0 < q0 * d + d
    requires y0 <= 0 ==> q0 <= 0 && q0 * d - d < e0 <= q0 * d
    requires y1 >= 0 ==> 0 <= q1 && q1 * d <= e1 < q1 * d + d
    requires y1 <= 0 ==> q1 <= 0 && q1 * d - d < e1 <= q1 * d
    ensures -2 * d < (q0 + q1) * d - (e0 + e1) < 2 * d
    ensures y0 >= 0 && y1 >= 0 ==> (q0 + q1) * d <= e0 + e1 && q0 + q1 >= 0
    ensures y0 <= 0 && y1 <= 0 ==> (q0 + q1) * d >= e0 + e1 && q0 + q1 <= 0
  {
    assert (q0 + q1) * d == q0 * d + q1 * d;
  }

  /**
    Between two nodes the truncated sum stays within one of the range of the two node
    values, and it fits the 16-bit result.
   */
  lemma WeightedInRange(x0: int, y0: int, x1: int, y1: int, v: int)
    requires x0 <= v < x1 && FitsInt16(y0) && FitsInt16(y1)
    ensures var w := Weighted(x0, y0, x1, y1, v);
            && Min(y0, y1) - 1 <= w <= Max(y0, y1) + 1
            && FitsInt16(w)
  {
    var d, a, b := x1 - x0, x1 - v, v - x0;
    var lo, hi := Min(y0, y1), Max(y0, y1);
    var w := Weighted(x0, y0, x1, y1, v);
    if lo < 0 < hi {
      PartBounds(a, y0, d);
      PartBounds(b, y1, d);
      MixedSigns(TruncDiv(a * y0, d), TruncDiv(b * y1, d), lo, hi, y0, y1, a, b, d);
    } else {
      WeightedNearLine(x0, y0, x1, y1, v);
      Between(a, b, y0, y1, lo, hi, d);
      Squeeze(w, lo, hi, a * y0 + b * y1, d);
    }
  }

  lemma Squeeze(w: int, lo: int, hi: int, exact: int, d: int)
    requires d > 0 && lo * d <= exact <= hi * d
    requires -2 * d < w * d - exact < 2 * d
    ensures w * d <= exact ==> lo - 1 <= w <= hi
    ensures w * d >= exact ==> lo <= w <= hi + 1
  {
    assert (hi + 2) * d == hi * d + 2 * d && (lo - 2) * d == lo * d - 2 * d;
    assert (hi + 1) * d == hi * d + d && (lo - 1) * d == lo * d - d;
    MulCancel(w, hi + 2, d);
    MulCancel(lo - 2, w, d);
    if w * d <= exact {
      MulCancel(w, hi + 1, d);
    }
    if w * d >= exact {
      MulCancel(lo - 1, w, d);
    }
  }

  /** One quotient: within a divisor of its dividend, on the near side of zero, and no larger than the node value. */
  lemma PartBounds(a: int, y: int, d: int)
    requires 0 <= a <= d && d > 0
    ensures var q := TruncDiv(a * y, d);
            && (y >= 0 ==> 0 <= q <= y && q * d <= a * y < q * d + d)
            && (y <= 0 ==> y <= q <= 0 && q * d - d < a * y <= q * d)
  {
    var q := TruncDiv(a * y, d);
    TruncDivBounds(a * y, d);
    if y >= 0 {
      assert a * y >= 0;
      MulMono(a, d, y);
      assert (y + 1) * d == d * y + d;
      MulCancel(q, y + 1, d);
    } else {
      assert a * -y >= 0 && a * y == -(a * -y);
      MulMono(a, d, -y);
      assert d * -y == -(d * y);
      assert (y - 1) * d == d * y - d;
      MulCancel(y - 1, q, d);
    }
  }

  lemma Between(a: int, b: int, y0: int, y1: int, lo: int, hi: int, d: int)
    requires 0 <= a && 0 <= b && a + b == d
    requires lo <= y0 <= hi && lo <= y1 <= hi
    ensures lo * d <= a * y0 + b * y1 <= hi * d
  {
  }

  lemma MixedSigns(q0: int, q1: int, lo: int, hi: int, y0: int, y1: int, a: int, b: int, d: int)
    requires lo < 0 < hi && ((lo == y0 && hi == y1) || (lo == y1 && hi == y0))
    requires y0 >= 0 ==> 0 <= q0 <= y0
    requires y0 <= 0 ==> y0 <= q0 <= 0
    requires y1 >= 0 ==> 0 <= q1 <= y1
    requires y1 <= 0 ==> y1 <= q1 <= 0
    ensures lo <= q0 + q1 <= hi
  {
  }

  /** The interpolated value never needs more than 16 bits, whatever the axis. */
  lemma InterpolatedFits(x: seq<u16>, y: seq<i16>, v: int)
    requires |x| == |y| > 0
    ensures FitsInt16(Interpolated(x, y, v))
  {
    var k := FirstAtLeast(x, v, 1);
    if x[0] <= v <= x[|x| - 1] && k < |x| && x[k] != v {
      WeightedInRange(x[k - 1], y[k - 1], x[k], y[k], v);
    }
  }

  /**
    On an axis of two or more points that contains v, the answer comes from the two nodes
    around v; outside it is the value at the nearer end.
   */
  lemma InterpolatedIsLocal(x: seq<u16>, y: seq<i16>, v: int)
    requires |x| == |y| >= 2
    ensures v < x[0] ==> Interpolated(x, y, v) == y[0]
    ensures x[0] <= v && v > x[|x| - 1] ==> Interpolated(x, y, v) == y[|x| - 1]
    ensures x[0] <= v <= x[|x| - 1] ==> exists k :: 0 < k < |x| && NearLine(x, y, v, k)
  {
    if x[0] <= v <= x[|x| - 1] {
      var k := FirstAtLeast(x, v, 1);
      LocalAt(x, y, v, k);
    }
  }

  lemma LocalAt(x: seq<u16>, y: seq<i16>, v: int, k: nat)
    requires |x| == |y| >= 2 && x[0] <= v <= x[|x| - 1]
    requires k == FirstAtLeast(x, v, 1)
    ensures 0 < k < |x| && NearLine(x, y, v, k)
  {
    var x0: int, x1: int := x[k - 1], x[k];
    if x1 != v {
      WeightedNearLine(x0, y[k - 1], x1, y[k], v);
      WeightedInRange(x0, y[k - 1], x1, y[k], v);
    } else {
      assert (x1 - v) * y[k - 1] == 0;
      assert (v - x0) * y[k] == (x1 - x0) * y[k] == y[k] * (x1 - x0);
    }
  }

  /** The result is less than two from the line through nodes k-1 and k, and within one of their value range. */
  predicate NearLine(x: seq<u16>, y: seq<i16>, v: int, k: nat)
    requires |x| == |y| && 0 < k < |x|
  {
    var x0: int, x1: int, r := x[k - 1], x[k], Interpolated(x, y, v);
    var d, exact := x1 - x0, (x1 - v) * y[k - 1] + (v - x0) * y[k];
    && x[k - 1] <= v <= x[k]
    && (d > 0 ==> -2 * d < r * d - exact < 2 * d)
    && Min(y[k - 1], y[k]) - 1 <= r <= Max(y[k - 1], y[k]) + 1
  }

  /** What the sortedness check establishes: equal neighbours are allowed. */
  ghost predicate Sorted(x: seq<u16>) {
    forall p, q :: 0 <= p < q < |x| ==> x[p] <= x[q]
  }

  /** The node whose value is returned at node j: the first from the second on with its abscissa, or the very first. */
  function ReachedNode(x: seq<u16>, j: nat): (k: nat)
    requires |x| >= 2 && j < |x|
    ensures k <= |x|
  {
    if j == 0 && x[0] < x[1] then 0 else FirstAtLeast(x, x[j], 1)
  }

  /** On a sorted axis the value at a node is that of the reached node, which has the same abscissa. */
  lemma ReachedNodeReturned(x: seq<u16>, y: seq<i16>, j: nat)
    requires |x| == |y| >= 2 && j < |x| && Sorted(x)
    ensures var k := ReachedNode(x, j);
            k < |x| && x[k] == x[j] && Interpolated(x, y, x[j]) == y[k]
  {
    var k := FirstAtLeast(x, x[j], 1);
    if j == 0 {
      assert k == 1;
      if x[0] < x[1] {
        TruncDivExact(y[0], x[1] - x[0]);
        assert TruncDiv(0 * y[1], x[1] - x[0]) == 0;
      }
    } else {
      assert k <= j;
    }
  }

  /** A node's own value is reproduced exactly when it equals that of the reached node. */
  lemma NodeReproducedExactlyWhen(x: seq<u16>, y: seq<i16>, j: nat)
    requires |x| == |y| >= 2 && j < |x| && Sorted(x)
    ensures ReachedNode(x, j) < |x|
    ensures Interpolated(x, y, x[j]) == y[j] <==> y[ReachedNode(x, j)] == y[j]
  {
    ReachedNodeReturned(x, y, j);
  }

  /** On a strictly increasing axis that is the node itself, so the node values are reproduced exactly. */
  lemma ExactAtNodes(x: seq<u16>, y: seq<i16>, j: nat)
    requires |x| == |y| >= 2 && j < |x|
    requires forall p, q :: 0 <= p < q < |x| ==> x[p] < x[q]
    ensures ReachedNode(x, j) == j && Interpolated(x, y, x[j]) == y[j]
  {
    ReachedNodeReturned(x, y, j);
  }

  /**
    A one-point axis is not handled: at its own point the loop body never runs and the result
    is zero.  No caller has one: the two axes of the program have two and three points.
   */
  lemma OnePointAxis(x: seq<u16>, y: seq<i16>, v: int)
    requires |x| == |y| == 1
    ensures Interpolated(x, y, v) == if v == x[0] then 0 else y[0]
  {
  }

  /** No intermediate result of the interpolation leaves the 32-bit range. */
  lemma BlendFits(x0: u16, y0: i16, x1: u16, y1: i16, v: int)
    requires x0 <= v < x1
    ensures FitsInt32((x1 - v) * y0) && FitsInt32((v - x0) * y1)
    ensures FitsInt32(TruncDiv((x1 - v) * y0, x1 - x0))
    ensures FitsInt32(Weighted(x0, y0, x1, y1, v))
  {
    ProductFits(x1 - v, y0);
    ProductFits(v - x0, y1);
    PartBounds(x1 - v, y0, x1 - x0);
    WeightedInRange(x0, y0, x1, y1, v);
  }

  /** The two statements of the interpolating branch, in 32-bit arithmetic. */
  method Blend(x0: u16, y0: i16, x1: u16, y1: i16, v: i16) returns (r: i32)
    requires x0 <= v < x1
    ensures r == Weighted(x0, y0, x1, y1, v)
  {
    BlendFits(x0, y0, x1, y1, v);
    var left: i32 := (x1 - v) * y0;
    var right: i32 := (v - x0) * y1;
    r := TruncDiv(left, x1 - x0);
    r := r + TruncDiv(right, x1 - x0);
  }

  method Interpolate(x: seq<u16>, y: seq<i16>, xNew: i16) returns (r: i16)
    requires 0 < |x| == |y| < 0x1_0000
    ensures r == Interpolated(x, y, xNew)
  {
    var yNew: i32 := 0;
    if xNew < x[0] {
      yNew := y[0];
    } else if xNew > x[|x| - 1] {
      yNew := y[|x| - 1];
    } else {
      var i: u16 := 1;
      while i < |x|
        invariant 1 <= i <= |x|
        invariant forall j :: 1 <= j < i ==> x[j] < xNew
        invariant FirstAtLeast(x, xNew, 1) == FirstAtLeast(x, xNew, i)
        invariant yNew == 0
      {
        if x[i] == xNew {
          yNew := y[i];
          break;
        } else if x[i] > xNew {
          yNew := Blend(x[i - 1], y[i - 1], x[i], y[i], xNew);
          break;
        }
        i := i + 1;
      }
    }
    InterpolatedFits(x, y, xNew);
    CastLossless(yNew);
    r := ToInt16(yNew);
  }

  /** A calibration mode and its backscatter link frequency. */
  datatype CalMode = CalMode(modeId: u16, blf: u16)

  method CheckSortedByBlf(modes: seq<CalMode>) returns (r: int)
    ensures r == 0 || r == -1
    ensures r == 0 <==> forall p, q :: 0 <= p < q < |modes| ==> modes[p].blf <= modes[q].blf
  {
    var i := 1;
    while i < |modes|
      invariant 1 <= i
      invariant forall p, q :: 0 <= p < q < i && q < |modes| ==> modes[p].blf <= modes[q].blf
    {
      if modes[i - 1].blf > modes[i].blf {
        return -1;
      }
      i := i + 1;
    }
    return 0;
  }
}
