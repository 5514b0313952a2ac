/** Sums, means and linear interpolation over the reals. */
module Numeric {
  /** `_EPS` */
  const EPS := 0.000000000001

  function Sum(xs: seq<real>): real {
    if xs == [] then 0.0 else xs[0] + Sum(xs[1..])
  }

  function Mean(xs: seq<real>): real
    requires xs != []
  {
    Sum(xs) / |xs| as real
  }

  /** Repeated addition. */
  function Times(n: nat, v: real): real {
    if n == 0 then 0.0 else v + Times(n - 1, v)
  }

  lemma {:induction false} TimesIsProduct(n: nat, v: real)
    ensures Times(n, v) == n as real * v
  {
    if n > 0 {
      TimesIsProduct(n - 1, v);
      Distribute(v, (n - 1) as real);
    }
  }

  lemma MeanTimes(xs: seq<real>)
    requires xs != []
    ensures Times(|xs|, Mean(xs)) == Sum(xs)
  {
    TimesIsProduct(|xs|, Mean(xs));
  }

  predicate AtLeast(xs: seq<real>, lo: real) { forall x | x in xs :: lo <= x }

  predicate AtMost(xs: seq<real>, hi: real) { forall x | x in xs :: x <= hi }

  predicate Above(xs: seq<real>, lo: real) { forall x | x in xs :: lo < x }

  lemma {:induction false} SumConcat(a: seq<real>, b: seq<real>)
    ensures Sum(a + b) == Sum(a) + Sum(b)
  {
    if a == [] {
      assert a + b == b;
    } else {
      SumConcat(a[1..], b);
      assert (a + b)[1..] == a[1..] + b;
    }
  }

  lemma {:induction false} SumBounds(xs: seq<real>, lo: real, hi: real)
    requires AtLeast(xs, lo) && AtMost(xs, hi)
    ensures Times(|xs|, lo) <= Sum(xs) <= Times(|xs|, hi)
  {
    if xs != [] {
      assert xs[0] in xs;
      assert forall x | x in xs[1..] :: x in xs;
      SumBounds(xs[1..], lo, hi);
    }
  }

  lemma Distribute(a: real, n: real)
    ensures (n + 1.0) * a == n * a + a
  {}

  lemma {:induction false} SumAbove(xs: seq<real>, lo: real)
    requires Above(xs, lo) && xs != []
    ensures Times(|xs|, lo) < Sum(xs)
  {
    var rest := xs[1..];
    assert xs[0] in xs;
    assert forall x | x in rest :: x in xs;
    if rest != [] {
      SumAbove(rest, lo);
    }
  }

  lemma Quotient(s: real, n: real, b: real)
    requires n > 0.0
    ensures s / n <= b <==> s <= n * b
    ensures b <= s / n <==> n * b <= s
  {
    var q := s / n;
    assert q * n == s;
    if q <= b {
      assert (b - q) * n >= 0.0;
    } else {
      assert (q - b) * n > 0.0;
    }
  }

  /** A mean lies between the bounds of what it is the mean of. */
  lemma MeanWithin(xs: seq<real>, lo: real, hi: real)
    requires xs != [] && AtLeast(xs, lo) && AtMost(xs, hi)
    ensures lo <= Mean(xs) <= hi
  {
    SumBounds(xs, lo, hi);
    MeanBySum(xs, lo);
    MeanBySum(xs, hi);
  }

  lemma MeanAbove(xs: seq<real>, lo: real)
    requires xs != [] && Above(xs, lo)
    ensures lo < Mean(xs)
  {
    SumAbove(xs, lo);
    MeanBySum(xs, lo);
  }

  lemma MeanBySum(xs: seq<real>, b: real)
    requires xs != []
    ensures Mean(xs) <= b <==> Sum(xs) <= Times(|xs|, b)
    ensures b <= Mean(xs) <==> Times(|xs|, b) <= Sum(xs)
  {
    TimesIsProduct(|xs|, b);
    Quotient(Sum(xs), |xs| as real, b);
  }

  /** `np.min` */
  function Least(xs: seq<real>): (m: real)
    requires xs != []
    ensures m in xs && AtLeast(xs, m)
  {
    if |xs| == 1 then xs[0]
    else
      var rest := Least(xs[1..]);
      assert forall x | x in xs :: x == xs[0] || x in xs[1..];
      if xs[0] < rest then xs[0] else rest
  }

  /** `np.max` */
  function Greatest(xs: seq<real>): (m: real)
    requires xs != []
    ensures m in xs && AtMost(xs, m)
  {
    if |xs| == 1 then xs[0]
    else
      var rest := Greatest(xs[1..]);
      assert forall x | x in xs :: x == xs[0] || x in xs[1..];
      if xs[0] > rest then xs[0] else rest
  }

  /** `np.clip` */
  function Clip(v: real, lo: real, hi: real): real {
    var atLeast := if v < lo then lo else v;
    if hi < atLeast then hi else atLeast
  }

  // ---- np.interp ----

  predicate NonDecreasing(xs: seq<real>) { forall i, j | 0 <= i < j < |xs| :: xs[i] <= xs[j] }

  predicate Increasing(xs: seq<real>) { forall i, j | 0 <= i < j < |xs| :: xs[i] < xs[j] }

  /** The last knot at or left of v. */
  function Knot(xs: seq<real>, v: real): (k: nat)
    requires xs != [] && NonDecreasing(xs) && xs[0] <= v
    ensures k < |xs| && xs[k] <= v && (k + 1 < |xs| ==> v < xs[k + 1])
  {
    if xs[|xs| - 1] <= v then |xs| - 1 else Knot(xs[..|xs| - 1], v)
  }

  function Line(x0: real, y0: real, x1: real, y1: real, v: real): real
    requires x0 < x1
  {
    y0 + (y1 - y0) / (x1 - x0) * (v - x0)
  }

  /** Piecewise linear through the knots, constant outside them. */
  function Interp(xs: seq<real>, ys: seq<real>, v: real): real
    requires |xs| == |ys| > 0 && NonDecreasing(xs)
  {
    if v < xs[0] then ys[0]
    else
      var k := Knot(xs, v);
      if k == |xs| - 1 then ys[k] else Line(xs[k], ys[k], xs[k + 1], ys[k + 1], v)
  }

  /** What interpolation means: constant before the first and from the last knot on,
      and between two knots at the same fraction of the way in value as in place. */
  lemma InterpMeans(xs: seq<real>, ys: seq<real>, v: real)
    requires |xs| == |ys| > 0 && NonDecreasing(xs)
    ensures v < xs[0] ==> Interp(xs, ys, v) == ys[0]
    ensures v >= xs[|xs| - 1] ==> Interp(xs, ys, v) == ys[|ys| - 1]
    ensures forall k | 0 <= k < |xs| - 1 && xs[k] <= v < xs[k + 1] ::
              (Interp(xs, ys, v) - ys[k]) * (xs[k + 1] - xs[k]) == (ys[k + 1] - ys[k]) * (v - xs[k])
  {
    if xs[0] <= v {
      var j := Knot(xs, v);
      forall k | 0 <= k < |xs| - 1 && xs[k] <= v < xs[k + 1]
        ensures (Interp(xs, ys, v) - ys[k]) * (xs[k + 1] - xs[k]) == (ys[k + 1] - ys[k]) * (v - xs[k])
      {
        assert j == k;
        Proportional(xs[k], ys[k], xs[k + 1], ys[k + 1], v);
      }
    }
  }

  lemma Proportional(x0: real, y0: real, x1: real, y1: real, v: real)
    requires x0 < x1
    ensures (Line(x0, y0, x1, y1, v) - y0) * (x1 - x0) == (y1 - y0) * (v - x0)
  {
    var w := x1 - x0;
    var slope := (y1 - y0) / w;
    assert slope * w == y1 - y0;
    assert slope * (v - x0) * w == (slope * w) * (v - x0);
  }

  /** What clipping means: the nearest value in the interval. */
  lemma ClipMeans(v: real, lo: real, hi: real)
    requires lo <= hi
    ensures lo <= Clip(v, lo, hi) <= hi && (lo <= v <= hi ==> Clip(v, lo, hi) == v)
    ensures (v < lo ==> Clip(v, lo, hi) == lo) && (v > hi ==> Clip(v, lo, hi) == hi)
  {}

  lemma LineIsShare(x0: real, y0: real, x1: real, y1: real, v: real)
    requires x0 < x1
    ensures Line(x0, y0, x1, y1, v) == y0 + (y1 - y0) * ((v - x0) / (x1 - x0))
  {
    var w := x1 - x0;
    assert (y1 - y0) / w * (v - x0) == (y1 - y0) * ((v - x0) / w);
  }

  lemma LineBetween(x0: real, y0: real, x1: real, y1: real, v: real)
    requires x0 <= v <= x1 && x0 < x1
    ensures y0 <= y1 ==> y0 <= Line(x0, y0, x1, y1, v) <= y1
    ensures y1 <= y0 ==> y1 <= Line(x0, y0, x1, y1, v) <= y0
  {
    LineIsShare(x0, y0, x1, y1, v);
    var t := (v - x0) / (x1 - x0);
    Quotient(v - x0, x1 - x0, 0.0);
    Quotient(v - x0, x1 - x0, 1.0);
    assert 0.0 <= t <= 1.0;
    if y0 <= y1 {
      assert 0.0 <= (y1 - y0) * t && (y1 - y0) * (1.0 - t) >= 0.0;
    } else {
      assert 0.0 <= (y0 - y1) * t && (y0 - y1) * (1.0 - t) >= 0.0;
    }
  }

  lemma LineMonotone(x0: real, y0: real, x1: real, y1: real, u: real, v: real)
    requires x0 < x1 && y0 <= y1 && u <= v
    ensures Line(x0, y0, x1, y1, u) <= Line(x0, y0, x1, y1, v)
  {
    Quotient(y1 - y0, x1 - x0, 0.0);
    var slope := (y1 - y0) / (x1 - x0);
    assert slope * (v - u) >= 0.0;
    assert slope * (v - x0) == slope * (u - x0) + slope * (v - u);
  }

  lemma InterpWithin(xs: seq<real>, ys: seq<real>, v: real, lo: real, hi: real)
    requires |xs| == |ys| > 0 && NonDecreasing(xs) && AtLeast(ys, lo) && AtMost(ys, hi)
    ensures lo <= Interp(xs, ys, v) <= hi
  {
    assert ys[0] in ys;
    if xs[0] <= v {
      var k := Knot(xs, v);
      assert ys[k] in ys;
      if k < |xs| - 1 {
        assert ys[k + 1] in ys;
        LineBetween(xs[k], ys[k], xs[k + 1], ys[k + 1], v);
      }
    }
  }

  /** Monotone knots interpolate to a monotone map. */
  lemma InterpMonotone(xs: seq<real>, ys: seq<real>, u: real, v: real)
    requires |xs| == |ys| > 0 && NonDecreasing(xs) && NonDecreasing(ys) && u <= v
    ensures Interp(xs, ys, u) <= Interp(xs, ys, v)
  {
    if v < xs[0] {
    } else if u < xs[0] {
      InterpFrom(xs, ys, v);
      var k := Knot(xs, v);
      assert k == 0 || ys[0] <= ys[k];
    } else {
      var j, k := Knot(xs, u), Knot(xs, v);
      InterpFrom(xs, ys, v);
      InterpFrom(xs, ys, u);
      if j < k {
        assert j + 1 == k || ys[j + 1] <= ys[k];
      } else if j == k {
        if k < |xs| - 1 {
          LineMonotone(xs[k], ys[k], xs[k + 1], ys[k + 1], u, v);
        }
      }
    }
  }

  lemma InterpFrom(xs: seq<real>, ys: seq<real>, v: real)
    requires |xs| == |ys| > 0 && NonDecreasing(xs) && NonDecreasing(ys) && xs[0] <= v
    ensures var k := Knot(xs, v);
            ys[k] <= Interp(xs, ys, v) && (k + 1 < |xs| ==> Interp(xs, ys, v) <= ys[k + 1])
  {
    var k := Knot(xs, v);
    if k < |xs| - 1 {
      LineBetween(xs[k], ys[k], xs[k + 1], ys[k + 1], v);
    }
  }

  /** At a knot of strictly increasing knots the value is the knot's own. */
  lemma InterpAtKnot(xs: seq<real>, ys: seq<real>, k: nat)
    requires |xs| == |ys| > 0 && Increasing(xs) && k < |xs|
    ensures Interp(xs, ys, xs[k]) == ys[k]
  {
    var v := xs[k];
    var j := Knot(xs, v);
    assert j == k;
    assert v - xs[j] == 0.0;
  }
}
