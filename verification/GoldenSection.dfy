/** Golden-section search for the log-temperature. */
module GoldenSection {
  const WIDE_ENOUGH := 0.000001

  /** The ratio (sqrt 5 - 1) / 2, known by its equation. */
  predicate Golden(r: real) { 0.0 < r < 1.0 && r * r + r == 1.0 }

  /** The loss as the search sees it, over the logarithm of the temperature. */
  function Loss(loss: real -> real, exp: real -> real, x: real): real { loss(exp(x)) }

  /** Strictly falling up to m and strictly rising from there. */
  ghost predicate Unimodal(loss: real -> real, exp: real -> real, low: real, m: real, high: real) {
    && low <= m <= high
    && (forall x, y | low <= x < y <= m :: Loss(loss, exp, x) > Loss(loss, exp, y))
    && (forall x, y | m <= x < y <= high :: Loss(loss, exp, x) < Loss(loss, exp, y))
  }

  ghost predicate Rising(f: real -> real) { forall x: real, y: real | x < y :: f(x) < f(y) }

  function Power(r: real, n: nat): real {
    if n == 0 then 1.0 else r * Power(r, n - 1)
  }

  function Max(x: real, y: real): real { if x < y then y else x }

  /** Taking the ratio twice leaves what the ratio takes away. */
  lemma TwiceLeaves(r: real, w: real)
    requires Golden(r)
    ensures r * (r * w) == w - r * w
  {
    assert r * (r * w) == (r * r) * w;
    assert (r * r) * w == (1.0 - r) * w;
  }

  lemma MoreThanHalf(r: real)
    requires Golden(r)
    ensures r > 0.5
  {
    assert (r - 0.5) * (r + 1.5) == r * r + r - 0.75;
  }

  lemma Narrower(r: real, w: real)
    requires Golden(r) && w >= 0.0
    ensures 0.0 <= w - r * w <= r * w <= w
    ensures w > 0.0 ==> w - r * w < r * w
  {
    MoreThanHalf(r);
    assert (1.0 - r) * w >= 0.0 && (r - 0.5) * w >= 0.0;
    if w > 0.0 {
      assert (r - 0.5) * w > 0.0;
    }
  }

  /** The two probes of a bracket. */
  function Left(r: real, a: real, b: real): real { b - r * (b - a) }

  function Right(r: real, a: real, b: real): real { a + r * (b - a) }

  /** A width after n rounds. */
  function Shrunk(r: real, n: nat, width: real): real {
    if n == 0 then width else r * Shrunk(r, n - 1, width)
  }

  lemma {:induction false} ShrunkIsPower(r: real, n: nat, width: real)
    ensures Shrunk(r, n, width) == Power(r, n) * width
  {
    if n > 0 {
      ShrunkIsPower(r, n - 1, width);
    }
  }

  lemma ShrunkZero(r: real, width: real)
    ensures Shrunk(r, 0, width) == width
  {}

  lemma ProbesInside(r: real, a: real, b: real)
    requires Golden(r) && a <= b
    ensures a <= Left(r, a, b) <= Right(r, a, b) <= b && (a < b ==> Left(r, a, b) < Right(r, a, b))
  {
    Narrower(r, b - a);
  }

  /** Cutting off the right, the left probe is the new right probe; cutting off
      the left, the right probe is the new left probe. */
  lemma ProbeReused(r: real, a: real, b: real, n: nat, width: real)
    requires Golden(r) && a <= b && b - a == Shrunk(r, n, width)
    ensures Right(r, a, Right(r, a, b)) == Left(r, a, b)
    ensures Left(r, Left(r, a, b), b) == Right(r, a, b)
    ensures Right(r, a, b) - a == b - Left(r, a, b) == Shrunk(r, n + 1, width)
  {
    TwiceLeaves(r, b - a);
  }

  /** The side that is kept holds the minimum. */
  lemma MinimumKept(
    loss: real -> real, exp: real -> real, low: real, m: real, high: real, a: real, b: real, c: real, d: real)
    requires Unimodal(loss, exp, low, m, high) && low <= a <= m <= b <= high && a <= c <= d <= b && (a < b ==> c < d)
    ensures Loss(loss, exp, c) < Loss(loss, exp, d) ==> m <= d
    ensures Loss(loss, exp, c) >= Loss(loss, exp, d) ==> c <= m
  {}

  /** The returned temperature lies within the bounds, and its logarithm misses
      the minimum of a unimodal loss by at most half the final bracket. Each round
      evaluates the loss once and reuses the other value. */
  method Search(loss: real -> real, exp: real -> real, r: real, low: real, high: real, maxIter: int, ghost m: real)
    returns (t: real, ghost at: real, ghost evaluations: nat)
    requires Golden(r) && low <= high && Rising(exp)
    requires Unimodal(loss, exp, low, m, high)
    ensures t == exp(at) && exp(low) <= t <= exp(high) && low <= at <= high
    ensures var rounds := if maxIter > 1 then maxIter else 1;
            && -Max(WIDE_ENOUGH, Shrunk(r, rounds, high - low)) <= 2.0 * (at - m)
                  <= Max(WIDE_ENOUGH, Shrunk(r, rounds, high - low))
            && evaluations <= rounds + 2
            && (-0.000001 <= 2.0 * (at - m) <= 0.000001
                || -Shrunk(r, rounds, high - low) <= 2.0 * (at - m) <= Shrunk(r, rounds, high - low))
  {
    hide Golden, Unimodal, Rising, Left, Right, Shrunk, Loss;
    var rounds: nat := if maxIter > 1 then maxIter else 1;
    var a, b := low, high;
    var c, d := Left(r, a, b), Right(r, a, b);
    var fc, fd := Loss(loss, exp, c), Loss(loss, exp, d);
    evaluations := 2;
    ShrunkZero(r, high - low);
    MinimumInside(loss, exp, low, m, high);
    for k := 0 to rounds
      invariant low <= a <= m <= b <= high
      invariant c == Left(r, a, b) && d == Right(r, a, b)
      invariant fc == Loss(loss, exp, c) && fd == Loss(loss, exp, d)
      invariant b - a == Shrunk(r, k, high - low)
      invariant evaluations == k + 2
    {
      ProbesInside(r, a, b);
      MinimumKept(loss, exp, low, m, high, a, b, c, d);
      ProbeReused(r, a, b, k, high - low);
      if fc < fd {
        b, d, fd := d, c, fc;
        c := Left(r, a, b);
        fc := Loss(loss, exp, c);
      } else {
        a, c, fc := c, d, fd;
        d := Right(r, a, b);
        fd := Loss(loss, exp, d);
      }
      evaluations := evaluations + 1;
      if -WIDE_ENOUGH < b - a < WIDE_ENOUGH {
        break;
      }
    }
    at := (a + b) / 2.0;
    Bounded(exp, low, at, high);
    t := exp((a + b) / 2.0);
  }

  lemma MinimumInside(loss: real -> real, exp: real -> real, low: real, m: real, high: real)
    requires Unimodal(loss, exp, low, m, high)
    ensures low <= m <= high
  {}

  lemma Bounded(exp: real -> real, low: real, at: real, high: real)
    requires Rising(exp) && low <= at <= high
    ensures exp(low) <= exp(at) <= exp(high)
  {}
}
