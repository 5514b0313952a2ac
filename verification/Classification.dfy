/** Class probabilities: softmax, temperature, isotonic curves per class and the
    renormalisation after them. */
module Classification {
  import opened Options
  import opened Numeric
  import opened Json
  import opened Calibrators

  /** All that is used of `exp`. */
  ghost predicate LikeExp(exp: real -> real) {
    (forall x: real :: exp(x) > 0.0) && forall x: real, y: real | x < y :: exp(x) < exp(y)
  }

  // ---- normalising ----

  function Divided(xs: seq<real>, total: real): (ys: seq<real>)
    requires total != 0.0
    ensures |ys| == |xs| && forall i | 0 <= i < |xs| :: ys[i] == xs[i] / total
  {
    seq(|xs|, i requires 0 <= i < |xs| => xs[i] / total)
  }

  lemma {:induction false} SumDivided(xs: seq<real>, total: real)
    requires total != 0.0
    ensures Sum(Divided(xs, total)) == Sum(xs) / total
  {
    if xs != [] {
      SumDivided(xs[1..], total);
      assert Divided(xs, total)[1..] == Divided(xs[1..], total);
      AddQuotients(xs[0], Sum(xs[1..]), total);
    }
  }

  lemma AddQuotients(a: real, b: real, total: real)
    requires total != 0.0
    ensures a / total + b / total == (a + b) / total
  {}

  lemma {:induction false} PositiveSum(xs: seq<real>)
    requires forall i | 0 <= i < |xs| :: xs[i] > 0.0
    ensures xs != [] ==> Sum(xs) > 0.0
    ensures Sum(xs) >= 0.0
  {
    if xs != [] {
      PositiveSum(xs[1..]);
    }
  }

  lemma QuotientOrder(a: real, b: real, total: real)
    requires total > 0.0
    ensures a / total <= b / total <==> a <= b
    ensures a > 0.0 ==> a / total > 0.0
  {
    var p, q := a / total, b / total;
    assert a == p * total && b == q * total;
    assert (q - p) * total == b - a;
    if p <= q {
      assert (q - p) * total >= 0.0;
    } else {
      assert (p - q) * total > 0.0;
    }
  }

  // ---- softmax and temperature ----

  function Exponentials(exp: real -> real, logits: seq<real>): (es: seq<real>)
    requires logits != []
    ensures |es| == |logits| && forall i | 0 <= i < |logits| :: es[i] == exp(logits[i] - Greatest(logits))
  {
    seq(|logits|, i requires 0 <= i < |logits| => exp(logits[i] - Greatest(logits)))
  }

  lemma ExponentialsPositive(exp: real -> real, logits: seq<real>)
    requires LikeExp(exp) && logits != []
    ensures Sum(Exponentials(exp, logits)) > 0.0
  {
    PositiveSum(Exponentials(exp, logits));
  }

  function Softmax(exp: real -> real, logits: seq<real>): seq<real>
    requires LikeExp(exp) && logits != []
  {
    ExponentialsPositive(exp, logits);
    var es := Exponentials(exp, logits);
    Divided(es, Sum(es))
  }

  /** `transform`: the logits over the temperature. */
  function Cooled(scaler: TemperatureScaler, logits: seq<real>): (ys: seq<real>)
    requires scaler.Valid()
    ensures |ys| == |logits|
  {
    Divided(logits, scaler.temperature)
  }

  /** A softmax row is positive, sums to one and ranks the classes as the logits do. */
  lemma SoftmaxRanks(exp: real -> real, logits: seq<real>)
    requires LikeExp(exp) && logits != []
    ensures var p := Softmax(exp, logits);
            && |p| == |logits|
            && Sum(p) == 1.0
            && (forall i | 0 <= i < |p| :: p[i] > 0.0)
            && forall i, j | 0 <= i < |p| && 0 <= j < |p| :: p[i] <= p[j] <==> logits[i] <= logits[j]
  {
    var es := Exponentials(exp, logits);
    ExponentialsPositive(exp, logits);
    assert Softmax(exp, logits) == Divided(es, Sum(es));
    ExponentialsRank(exp, logits);
    hide Softmax, LikeExp, Exponentials, Divided, Greatest, Sum;
    DividedRanks(es, Sum(es));
  }

  lemma ExponentialsRank(exp: real -> real, logits: seq<real>)
    requires LikeExp(exp) && logits != []
    ensures var es := Exponentials(exp, logits);
            && (forall i | 0 <= i < |es| :: es[i] > 0.0)
            && forall i, j | 0 <= i < |es| && 0 <= j < |es| :: es[i] <= es[j] <==> logits[i] <= logits[j]
  {
    hide LikeExp, Greatest, Exponentials;
    var es, m := Exponentials(exp, logits), Greatest(logits);
    forall i, j | 0 <= i < |es| && 0 <= j < |es| ensures es[i] > 0.0 && (es[i] <= es[j] <==> logits[i] <= logits[j]) {
      ExpRanks(exp, logits[i] - m, logits[j] - m);
    }
  }

  lemma ExpRanks(exp: real -> real, x: real, y: real)
    requires LikeExp(exp)
    ensures exp(x) > 0.0
    ensures exp(x) <= exp(y) <==> x <= y
  {}

  lemma DividedRanks(es: seq<real>, total: real)
    requires total > 0.0 && total == Sum(es) && forall i | 0 <= i < |es| :: es[i] > 0.0
    ensures var p := Divided(es, total);
            && Sum(p) == 1.0
            && (forall i | 0 <= i < |p| :: p[i] > 0.0)
            && forall i, j | 0 <= i < |p| && 0 <= j < |p| :: p[i] <= p[j] <==> es[i] <= es[j]
  {
    SumDivided(es, total);
    SelfQuotient(total);
    var p := Divided(es, total);
    forall i, j | 0 <= i < |p| && 0 <= j < |p| ensures p[i] > 0.0 && (p[i] <= p[j] <==> es[i] <= es[j]) {
      QuotientOrder(es[i], es[j], total);
    }
  }

  lemma SelfQuotient(total: real)
    requires total != 0.0
    ensures total / total == 1.0
  {}

  /** `np.argmax`: the first of the largest entries. */
  function Argmax(xs: seq<real>): (k: nat)
    requires xs != []
    ensures k < |xs|
    ensures forall i | 0 <= i < |xs| :: xs[i] <= xs[k]
    ensures forall i | 0 <= i < k :: xs[i] < xs[k]
  {
    if |xs| == 1 then 0
    else
      var k := Argmax(xs[..|xs| - 1]);
      if xs[k] < xs[|xs| - 1] then |xs| - 1 else k
  }

  predicate SameOrder(xs: seq<real>, ys: seq<real>) {
    |xs| == |ys| && forall i, j | 0 <= i < |xs| && 0 <= j < |xs| :: xs[i] <= xs[j] <==> ys[i] <= ys[j]
  }

  lemma SameArgmax(xs: seq<real>, ys: seq<real>)
    requires xs != [] && SameOrder(xs, ys)
    ensures Argmax(xs) == Argmax(ys)
  {
    var i, j := Argmax(xs), Argmax(ys);
    assert xs[j] <= xs[i] && ys[i] <= ys[j];
  }

  /** Temperature alone never changes the decision: the most probable class is the
      one with the largest logit, whatever the temperature. */
  lemma TemperatureKeepsArgmax(exp: real -> real, scaler: TemperatureScaler, logits: seq<real>)
    requires LikeExp(exp) && scaler.Valid() && logits != []
    ensures Argmax(Softmax(exp, Cooled(scaler, logits))) == Argmax(Softmax(exp, logits)) == Argmax(logits)
  {
    hide Softmax, LikeExp, Cooled, Argmax;
    SoftmaxKeepsArgmax(exp, Cooled(scaler, logits));
    SoftmaxKeepsArgmax(exp, logits);
    CooledKeepsArgmax(scaler, logits);
  }

  lemma SoftmaxKeepsArgmax(exp: real -> real, logits: seq<real>)
    requires LikeExp(exp) && logits != []
    ensures Softmax(exp, logits) != [] && Argmax(Softmax(exp, logits)) == Argmax(logits)
  {
    SoftmaxRanks(exp, logits);
    hide Softmax, LikeExp, Argmax;
    SameArgmax(Softmax(exp, logits), logits);
  }

  lemma CooledKeepsArgmax(scaler: TemperatureScaler, logits: seq<real>)
    requires scaler.Valid() && logits != []
    ensures Argmax(Cooled(scaler, logits)) == Argmax(logits)
  {
    CooledRanks(scaler, logits);
    hide Cooled, Argmax;
    SameArgmax(Cooled(scaler, logits), logits);
  }

  lemma CooledRanks(scaler: TemperatureScaler, logits: seq<real>)
    requires scaler.Valid() && logits != []
    ensures SameOrder(Cooled(scaler, logits), logits)
  {
    var cooled := Cooled(scaler, logits);
    forall i, j | 0 <= i < |logits| && 0 <= j < |logits| ensures cooled[i] <= cooled[j] <==> logits[i] <= logits[j] {
      QuotientOrder(logits[i], logits[j], scaler.temperature);
    }
  }

  // ---- one curve ----

  lemma {:induction false} BreakpointsOrdered(c: IsotonicCalibrator)
    requires c.Valid()
    ensures NonDecreasing(c.x)
  {
    forall i, j | 0 <= i < j < |c.x| ensures c.x[i] <= c.x[j] {
      StepsOrder(c.x, i, j);
    }
  }

  lemma {:induction false} StepsOrder(xs: seq<real>, i: nat, j: nat)
    requires i <= j < |xs| && forall k | 0 <= k < |xs| - 1 :: xs[k] <= xs[k + 1]
    ensures xs[i] <= xs[j]
  {
    if i < j {
      StepsOrder(xs, i, j - 1);
      assert xs[j - 1] <= xs[j - 1 + 1];
    }
  }

  function PredictCurve(c: IsotonicCalibrator, p: real): real
    requires c.Valid()
  {
    BreakpointsOrdered(c);
    Clip(Interp(c.x, c.y, Clip(p, c.x[0], c.x[|c.x| - 1])), 0.0, 1.0)
  }

  /** A curve fitted with non-decreasing values maps into [0, 1] and never turns
      a larger probability into a smaller one. */
  lemma CurveMonotone(c: IsotonicCalibrator, p: real, q: real)
    requires c.Valid() && NonDecreasing(c.y) && p <= q
    ensures 0.0 <= PredictCurve(c, p) <= PredictCurve(c, q) <= 1.0
  {
    BreakpointsOrdered(c);
    InterpMonotone(c.x, c.y, Clip(p, c.x[0], c.x[|c.x| - 1]), Clip(q, c.x[0], c.x[|c.x| - 1]));
  }

  // ---- all classes, renormalised ----

  ghost predicate Usable(curves: seq<Option<IsotonicCalibrator>>) {
    forall i | 0 <= i < |curves| && curves[i].Some? :: curves[i].value.Valid()
  }

  /** The curves are non-decreasing, as an isotonic fit leaves them. */
  ghost predicate Rising(curves: seq<Option<IsotonicCalibrator>>) {
    Usable(curves) && forall i | 0 <= i < |curves| && curves[i].Some? :: NonDecreasing(curves[i].value.y)
  }

  function MapClass(curve: Option<IsotonicCalibrator>, p: real): real
    requires curve.Some? ==> curve.value.Valid()
  {
    if curve.Some? then PredictCurve(curve.value, p) else p
  }

  function Mapped(row: seq<real>, curves: seq<Option<IsotonicCalibrator>>): (out: seq<real>)
    requires |curves| == |row| && Usable(curves)
    ensures |out| == |row|
  {
    seq(|row|, i requires 0 <= i < |row| => MapClass(curves[i], row[i]))
  }

  predicate Degenerate(row: seq<real>) { Sum(row) <= EPS }

  /** The row over its sum; a row that collapsed is uniform. */
  function Renormalised(row: seq<real>): (out: seq<real>)
    ensures |out| == |row|
  {
    if Degenerate(row) then seq(|row|, i requires 0 <= i < |row| => 1.0 / |row| as real) else Divided(row, Sum(row))
  }

  function Calibrated(row: seq<real>, curves: seq<Option<IsotonicCalibrator>>): seq<real>
    requires |curves| == |row| && Usable(curves)
  {
    Renormalised(Mapped(row, curves))
  }

  lemma {:induction false} SumUniform(n: nat, total: nat)
    requires total > 0
    ensures Sum(seq(n, _ => 1.0 / total as real)) == n as real / total as real
  {
    var row := seq(n, _ => 1.0 / total as real);
    if n > 0 {
      SumUniform(n - 1, total);
      assert row[1..] == seq(n - 1, _ => 1.0 / total as real);
      AddQuotients(1.0, (n - 1) as real, total as real);
    }
  }

  /** Whatever the curves do to a row, its calibrated form sums to one. */
  lemma CalibratedSumsToOne(row: seq<real>, curves: seq<Option<IsotonicCalibrator>>)
    requires |curves| == |row| > 0 && Usable(curves)
    ensures Sum(Calibrated(row, curves)) == 1.0
  {
    var mapped := Mapped(row, curves);
    if Degenerate(mapped) {
      SumUniform(|row|, |row|);
      assert Calibrated(row, curves) == seq(|row|, _ => 1.0 / |row| as real);
    } else {
      SumDivided(mapped, Sum(mapped));
      SelfQuotient(Sum(mapped));
    }
  }

  // ---- two classes ----

  /** P(true) of a boolean decision after temperature and curves. */
  function TrueProbability(
    exp: real -> real, scaler: TemperatureScaler, curves: seq<Option<IsotonicCalibrator>>, logits: seq<real>): real
    requires LikeExp(exp) && scaler.Valid() && |logits| == |curves| == 2 && Usable(curves)
  {
    Calibrated(Softmax(exp, Cooled(scaler, logits)), curves)[1]
  }

  /** The mapped but not yet renormalised row. */
  function MappedRow(
    exp: real -> real, scaler: TemperatureScaler, curves: seq<Option<IsotonicCalibrator>>,
    logits: seq<real>): (row: seq<real>)
    requires LikeExp(exp) && scaler.Valid() && |logits| == |curves| == 2 && Usable(curves)
    ensures |row| == 2
  {
    Mapped(Softmax(exp, Cooled(scaler, logits)), curves)
  }

  lemma PairSum(xs: seq<real>)
    requires |xs| == 2
    ensures Sum(xs) == xs[0] + xs[1]
  {
    assert Sum(xs[1..]) == xs[1] + Sum(xs[1..][1..]);
  }

  /** The second softmax entry in terms of the logit difference alone. */
  function Odds(exp: real -> real, d: real): real
    requires LikeExp(exp)
  {
    if d >= 0.0 then exp(0.0) / (exp(0.0) + exp(-d)) else exp(d) / (exp(0.0) + exp(d))
  }

  lemma SoftmaxOfTwo(exp: real -> real, logits: seq<real>)
    requires LikeExp(exp) && |logits| == 2
    ensures Softmax(exp, logits)[1] == Odds(exp, logits[1] - logits[0])
    ensures Softmax(exp, logits)[0] == 1.0 - Softmax(exp, logits)[1]
  {
    SoftmaxRanks(exp, logits);
    SoftmaxIsDivided(exp, logits);
    ExponentialsOfTwo(exp, logits);
    hide LikeExp, Softmax, Exponentials, Greatest, Sum, Divided, Odds;
    var es := Exponentials(exp, logits);
    DividedOfTwo(es);
    PairSum(Softmax(exp, logits));
    OddsOfTwo(exp, es, logits[1] - logits[0]);
  }

  lemma SoftmaxIsDivided(exp: real -> real, logits: seq<real>)
    requires LikeExp(exp) && logits != []
    ensures var es := Exponentials(exp, logits); Sum(es) > 0.0 && Softmax(exp, logits) == Divided(es, Sum(es))
  {
    ExponentialsPositive(exp, logits);
  }

  lemma OddsOfTwo(exp: real -> real, es: seq<real>, d: real)
    requires LikeExp(exp) && es == if d >= 0.0 then [exp(-d), exp(0.0)] else [exp(0.0), exp(d)]
    ensures es[0] + es[1] > 0.0 && es[1] / (es[0] + es[1]) == Odds(exp, d)
  {
    ExpRanks(exp, d, 0.0);
    ExpRanks(exp, -d, 0.0);
  }

  lemma DividedOfTwo(es: seq<real>)
    requires |es| == 2 && Sum(es) > 0.0
    ensures |Divided(es, Sum(es))| == 2 && Divided(es, Sum(es))[1] == es[1] / Sum(es)
    ensures Sum(es) == es[0] + es[1]
  {
    PairSum(es);
  }

  lemma ExponentialsOfTwo(exp: real -> real, logits: seq<real>)
    requires |logits| == 2
    ensures var d := logits[1] - logits[0];
            Exponentials(exp, logits) == if d >= 0.0 then [exp(-d), exp(0.0)] else [exp(0.0), exp(d)]
  {
    var m := Greatest(logits);
    assert logits[0] in logits && logits[1] in logits;
    assert m == if logits[1] >= logits[0] then logits[1] else logits[0];
  }

  lemma FractionOrder(a: real, b: real, c: real, d: real)
    requires a >= 0.0 && b >= 0.0 && c >= a && 0.0 <= d <= b && a + b > 0.0 && c + d > 0.0
    ensures a / (a + b) <= c / (c + d)
  {
    var p, q := a / (a + b), c / (c + d);
    assert p * (a + b) == a && q * (c + d) == c;
    assert a * d <= c * b by {
      assert a * d <= a * b && a * b <= c * b;
    }
    assert a * (c + d) <= c * (a + b);
    FractionByCross(a, a + b, c, c + d);
  }

  lemma FractionByCross(a: real, s: real, c: real, t: real)
    requires s > 0.0 && t > 0.0 && a * t <= c * s
    ensures a / s <= c / t
  {
    var q := c / t;
    assert (s * q) * t == s * (q * t) == s * c;
    Cancel(a, s * q, t);
    Quotient(a, s, q);
  }

  lemma Cancel(a: real, b: real, t: real)
    requires t > 0.0 && a * t <= b * t
    ensures a <= b
  {
    if a > b {
      PositiveProduct(a - b, t);
    }
  }

  lemma PositiveProduct(x: real, t: real)
    requires x > 0.0 && t > 0.0
    ensures x * t > 0.0
  {}

  lemma OddsMonotone(exp: real -> real, d: real, e: real)
    requires LikeExp(exp) && d <= e
    ensures Odds(exp, d) <= Odds(exp, e)
  {
    var z := exp(0.0);
    if d >= 0.0 {
      ExpRanks(exp, -e, -d);
      FractionOrder(z, exp(-d), z, exp(-e));
    } else if e < 0.0 {
      ExpRanks(exp, d, e);
      FractionOrder(exp(d), z, exp(e), z);
    } else {
      ExpRanks(exp, d, 0.0);
      ExpRanks(exp, -e, 0.0);
      FractionOrder(exp(d), z, z, exp(-e));
    }
  }

  lemma CooledDifference(scaler: TemperatureScaler, l: seq<real>, k: seq<real>)
    requires scaler.Valid() && |l| == |k| == 2 && l[1] - l[0] <= k[1] - k[0]
    ensures var cl, ck := Cooled(scaler, l), Cooled(scaler, k); cl[1] - cl[0] <= ck[1] - ck[0]
  {
    var t := scaler.temperature;
    SubtractQuotients(l[1], l[0], t);
    SubtractQuotients(k[1], k[0], t);
    QuotientOrder(l[1] - l[0], k[1] - k[0], t);
  }

  lemma SubtractQuotients(a: real, b: real, total: real)
    requires total != 0.0
    ensures a / total - b / total == (a - b) / total
  {}

  /** A larger logit difference maps to no smaller true mass and no larger false mass. */
  lemma MappedMonotone(
    exp: real -> real, scaler: TemperatureScaler, curves: seq<Option<IsotonicCalibrator>>, l: seq<real>, k: seq<real>)
    requires LikeExp(exp) && scaler.Valid() && |l| == |k| == |curves| == 2 && Rising(curves)
    requires l[1] - l[0] <= k[1] - k[0]
    ensures var a, b := MappedRow(exp, scaler, curves, l), MappedRow(exp, scaler, curves, k);
            0.0 <= a[1] <= b[1] && 0.0 <= b[0] <= a[0]
  {
    hide LikeExp, Odds, PredictCurve;
    var cl, ck := Cooled(scaler, l), Cooled(scaler, k);
    var p, q := Softmax(exp, cl), Softmax(exp, ck);
    CooledDifference(scaler, l, k);
    SoftmaxOfTwo(exp, cl);
    SoftmaxOfTwo(exp, ck);
    OddsMonotone(exp, cl[1] - cl[0], ck[1] - ck[0]);
    SoftmaxRanks(exp, cl);
    SoftmaxRanks(exp, ck);
    hide Softmax, Cooled;
    ClassMonotone(curves, 1, p[1], q[1]);
    ClassMonotone(curves, 0, q[0], p[0]);
  }

  lemma ClassMonotone(curves: seq<Option<IsotonicCalibrator>>, i: nat, p: real, q: real)
    requires Rising(curves) && i < |curves| && 0.0 <= p <= q
    ensures 0.0 <= MapClass(curves[i], p) <= MapClass(curves[i], q)
  {
    if curves[i].Some? {
      CurveMonotone(curves[i].value, p, q);
    }
  }

  function Share(row: seq<real>): real
    requires |row| == 2
  {
    if Degenerate(row) then 0.5 else row[1] / Sum(row)
  }

  lemma TrueProbabilityIsShare(
    exp: real -> real, scaler: TemperatureScaler, curves: seq<Option<IsotonicCalibrator>>, l: seq<real>)
    requires LikeExp(exp) && scaler.Valid() && |l| == |curves| == 2 && Usable(curves)
    ensures TrueProbability(exp, scaler, curves, l) == Share(MappedRow(exp, scaler, curves, l))
  {
    hide LikeExp, Softmax, Cooled, Mapped, Sum;
  }

  lemma HalfShare(row: seq<real>)
    requires |row| == 2 && !Degenerate(row)
    ensures Share(row) <= 0.5 <==> row[1] <= row[0]
    ensures 0.5 <= Share(row) <==> row[0] <= row[1]
  {
    PairSum(row);
    Quotient(row[1], Sum(row), 0.5);
  }

  /** Of two rows, if one collapsed, the other lies on the right side of one half. */
  predicate RightSide(a: seq<real>, b: seq<real>)
    requires |a| == |b| == 2
  {
    && !(Degenerate(a) && !Degenerate(b) && b[1] < b[0])
    && !(!Degenerate(a) && Degenerate(b) && a[1] > a[0])
  }

  lemma ShareMonotone(a: seq<real>, b: seq<real>)
    requires |a| == |b| == 2 && 0.0 <= a[1] <= b[1] && 0.0 <= b[0] <= a[0]
    ensures Share(a) <= Share(b) <==>
            RightSide(a, b)
  {
    PairSum(a);
    PairSum(b);
    if !Degenerate(a) && !Degenerate(b) {
      FractionOrder(a[1], a[0], b[1], b[0]);
    } else if !Degenerate(b) {
      HalfShare(b);
    } else if !Degenerate(a) {
      HalfShare(a);
    }
  }

  /** Calibrated P(true) never falls as the logit difference grows, except across
      a row that collapsed: there exactly when the row that did not collapse lies
      on the wrong side of one half. */
  lemma TrueProbabilityMonotoneIff(
    exp: real -> real, scaler: TemperatureScaler, curves: seq<Option<IsotonicCalibrator>>, l: seq<real>, k: seq<real>)
    requires LikeExp(exp) && scaler.Valid() && |l| == |k| == |curves| == 2 && Rising(curves)
    requires l[1] - l[0] <= k[1] - k[0]
    ensures var a, b := MappedRow(exp, scaler, curves, l), MappedRow(exp, scaler, curves, k);
            TrueProbability(exp, scaler, curves, l) <= TrueProbability(exp, scaler, curves, k) <==>
            RightSide(a, b)
  {
    hide LikeExp, TrueProbability, MappedRow, Degenerate, Share;
    MappedMonotone(exp, scaler, curves, l, k);
    TrueProbabilityIsShare(exp, scaler, curves, l);
    TrueProbabilityIsShare(exp, scaler, curves, k);
    ShareMonotone(MappedRow(exp, scaler, curves, l), MappedRow(exp, scaler, curves, k));
  }

  /** `probability_true >= threshold` */
  predicate Decision(
    exp: real -> real, scaler: TemperatureScaler, curves: seq<Option<IsotonicCalibrator>>, threshold: real,
    l: seq<real>)
    requires LikeExp(exp) && scaler.Valid() && |l| == |curves| == 2 && Usable(curves)
  {
    TrueProbability(exp, scaler, curves, l) >= threshold
  }

  /** Every threshold is one cut-off on the logit difference, in that past a row
      decided true every row is decided true, exactly when no row collapsed on the
      wrong side. */
  lemma OneCutOff(
    exp: real -> real, scaler: TemperatureScaler, curves: seq<Option<IsotonicCalibrator>>, l: seq<real>, k: seq<real>)
    requires LikeExp(exp) && scaler.Valid() && |l| == |k| == |curves| == 2 && Rising(curves)
    requires l[1] - l[0] <= k[1] - k[0]
    ensures (forall threshold ::
               Decision(exp, scaler, curves, threshold, l) ==> Decision(exp, scaler, curves, threshold, k))
            <==> RightSide(MappedRow(exp, scaler, curves, l), MappedRow(exp, scaler, curves, k))
  {
    hide LikeExp, TrueProbability, MappedRow, RightSide;
    TrueProbabilityMonotoneIff(exp, scaler, curves, l, k);
    assert Decision(exp, scaler, curves, TrueProbability(exp, scaler, curves, l), l);
  }

  /** The exception is real: two tiny curves for which a larger logit difference
      gets a smaller probability. */
  lemma CollapseBreaksMonotony(exp: real -> real) returns (curves: seq<Option<IsotonicCalibrator>>)
    requires LikeExp(exp)
    ensures |curves| == 2 && Rising(curves)
    ensures TrueProbability(exp, TemperatureScaler(1.0), curves, [0.0, 0.0])
            > TrueProbability(exp, TemperatureScaler(1.0), curves, [0.0, 1.0])
  {
    var scaler, l, k := TemperatureScaler(1.0), [0.0, 0.0], [0.0, 1.0];
    var p := Odds(exp, 1.0);
    OddsOfHalf(exp);
    var low := IsotonicCalibrator([0.0], [0.6 * EPS]);
    var high := IsotonicCalibrator([0.5, p], [0.2 * EPS, 0.55 * EPS]);
    curves := [Some(low), Some(high)];
    assert low.Valid() && high.Valid() && Rising(curves);
    CurveAtEnds(low, high, 0.5, p);
    CurveAtEnds(low, high, p, p);
    RowOfTwo(exp, scaler, curves, l, 0.5);
    RowOfTwo(exp, scaler, curves, k, p);
    hide LikeExp, TrueProbability, MappedRow, PredictCurve, Rising, Odds;
    TrueProbabilityIsShare(exp, scaler, curves, l);
    TrueProbabilityIsShare(exp, scaler, curves, k);
    var a, b := MappedRow(exp, scaler, curves, l), MappedRow(exp, scaler, curves, k);
    PairSum(a);
    PairSum(b);
    ShareMonotone(a, b);
  }

  lemma OddsOfHalf(exp: real -> real)
    requires LikeExp(exp)
    ensures Odds(exp, 0.0) == 0.5 < Odds(exp, 1.0)
  {
    var z := exp(0.0);
    ExpRanks(exp, -1.0, 0.0);
    ExpRanks(exp, 0.0, -1.0);
    Quotient(z, z + exp(-1.0), 0.5);
    Quotient(z, z + z, 0.5);
  }

  lemma CurveAtEnds(low: IsotonicCalibrator, high: IsotonicCalibrator, v: real, p: real)
    requires p > 0.5 && (v == 0.5 || v == p)
    requires low == IsotonicCalibrator([0.0], [0.6 * EPS])
             && high == IsotonicCalibrator([0.5, p], [0.2 * EPS, 0.55 * EPS])
    ensures low.Valid() && high.Valid()
    ensures PredictCurve(low, 1.0 - v) == 0.6 * EPS
    ensures PredictCurve(high, v) == if v == 0.5 then 0.2 * EPS else 0.55 * EPS
  {
    BreakpointsOrdered(low);
    BreakpointsOrdered(high);
    InterpAtKnot(high.x, high.y, if v == 0.5 then 0 else 1);
  }

  lemma RowOfTwo(
    exp: real -> real, scaler: TemperatureScaler, curves: seq<Option<IsotonicCalibrator>>, l: seq<real>, p: real)
    requires LikeExp(exp) && scaler == TemperatureScaler(1.0) && |l| == |curves| == 2 && Usable(curves)
    requires curves[0].Some? && curves[1].Some? && Odds(exp, l[1] - l[0]) == p
    ensures MappedRow(exp, scaler, curves, l)
            == [PredictCurve(curves[0].value, 1.0 - p), PredictCurve(curves[1].value, p)]
  {
    hide PredictCurve, Odds, Softmax, LikeExp, Cooled;
    CooledByOne(scaler, l);
    SoftmaxOfTwo(exp, l);
    SoftmaxRanks(exp, l);
  }

  lemma CooledByOne(scaler: TemperatureScaler, l: seq<real>)
    requires scaler == TemperatureScaler(1.0)
    ensures scaler.Valid() && Cooled(scaler, l) == l
  {
    forall i | 0 <= i < |l| ensures l[i] / 1.0 == l[i] {}
  }

  // ---- the batch, in place ----

  ghost function RowAt(a: array2<real>, r: nat): (row: seq<real>)
    requires r < a.Length0
    reads a
    ensures |row| == a.Length1 && forall c | 0 <= c < a.Length1 :: row[c] == a[r, c]
  {
    seq(a.Length1, c requires 0 <= c < a.Length1 reads a => a[r, c])
  }

  /** The sum of one row. */
  method RowTotal(a: array2<real>, r: nat) returns (total: real)
    requires r < a.Length0
    ensures total == Sum(RowAt(a, r))
  {
    ghost var row := RowAt(a, r);
    total := 0.0;
    var c := a.Length1;
    assert row[c..] == [];
    while c > 0
      invariant 0 <= c <= a.Length1
      invariant total == Sum(row[c..])
    {
      c := c - 1;
      total := a[r, c] + total;
      assert row[c..][1..] == row[c + 1..];
    }
    assert row[0..] == row;
  }

  /** One class of every row through its curve. */
  method MapColumn(probs: array2<real>, out: array2<real>, c: nat, curve: IsotonicCalibrator)
    requires probs != out && probs.Length0 == out.Length0 && probs.Length1 == out.Length1 && c < out.Length1
             && curve.Valid()
    modifies out
    ensures forall r, k | 0 <= r < out.Length0 && 0 <= k < out.Length1 ::
              out[r, k] == if k == c then PredictCurve(curve, probs[r, c]) else old(out[r, k])
  {
    hide PredictCurve;
    for r := 0 to out.Length0
      invariant forall i, k | 0 <= i < out.Length0 && 0 <= k < out.Length1 ::
                  out[i, k] == if k == c && i < r then PredictCurve(curve, probs[i, c]) else old(out[i, k])
    {
      out[r, c] := PredictCurve(curve, probs[r, c]);
    }
  }

  method FillRow(out: array2<real>, r: nat, value: real)
    requires r < out.Length0
    modifies out
    ensures RowAt(out, r) == seq(out.Length1, _ => value)
    ensures forall i, k | 0 <= i < out.Length0 && 0 <= k < out.Length1 && i != r :: out[i, k] == old(out[i, k])
  {
    for c := 0 to out.Length1
      invariant forall k | 0 <= k < c :: out[r, k] == value
      invariant forall i, k | 0 <= i < out.Length0 && 0 <= k < out.Length1 && i != r :: out[i, k] == old(out[i, k])
    {
      out[r, c] := value;
    }
  }

  method DivideRow(out: array2<real>, r: nat, total: real)
    requires r < out.Length0 && total != 0.0
    modifies out
    ensures RowAt(out, r) == Divided(old(RowAt(out, r)), total)
    ensures forall i, k | 0 <= i < out.Length0 && 0 <= k < out.Length1 && i != r :: out[i, k] == old(out[i, k])
  {
    ghost var divided := Divided(RowAt(out, r), total);
    for c := 0 to out.Length1
      invariant forall k | 0 <= k < out.Length1 :: out[r, k] == if k < c then divided[k] else old(out[r, k])
      invariant forall i, k | 0 <= i < out.Length0 && 0 <= k < out.Length1 && i != r :: out[i, k] == old(out[i, k])
    {
      out[r, c] := out[r, c] / total;
    }
  }

  /** A collapsed row becomes uniform, and every row is divided by its sum. */
  method RenormaliseRow(out: array2<real>, r: nat)
    requires r < out.Length0 && out.Length1 > 0
    modifies out
    ensures RowAt(out, r) == Renormalised(old(RowAt(out, r)))
    ensures forall i, k | 0 <= i < out.Length0 && 0 <= k < out.Length1 && i != r :: out[i, k] == old(out[i, k])
  {
    hide Sum, Divided;
    ghost var before := RowAt(out, r);
    var total := RowTotal(out, r);
    if total <= EPS {
      UniformStays(out.Length1);
      FillRow(out, r, 1.0 / out.Length1 as real);
      total := RowTotal(out, r);
    }
    DivideRow(out, r, total);
  }

  lemma UniformStays(n: nat)
    requires n > 0
    ensures var uniform := seq(n, _ => 1.0 / n as real);
            Sum(uniform) == 1.0 && Divided(uniform, 1.0) == seq(n, i requires 0 <= i < n => 1.0 / n as real)
  {
    SumUniform(n, n);
    SelfQuotient(n as real);
  }

  /** `apply_isotonic`: refused when there is not one curve slot per class;
      otherwise every row is its calibrated form. */
  method ApplyIsotonic(
    probs: array2<real>, curves: seq<Option<IsotonicCalibrator>>) returns (ok: bool, out: array2<real>)
    requires Usable(curves) && probs.Length1 > 0
    ensures ok <==> |curves| == probs.Length1
    ensures ok ==> fresh(out) && out.Length0 == probs.Length0 && out.Length1 == probs.Length1
    ensures ok ==> forall r | 0 <= r < out.Length0 :: RowAt(out, r) == Calibrated(RowAt(probs, r), curves)
  {
    ok := |curves| == probs.Length1;
    out := new real[probs.Length0, probs.Length1]((r, c)
        requires 0 <= r < probs.Length0 && 0 <= c < probs.Length1 reads probs => probs[r, c]);
    if !ok {
      return;
    }
    hide PredictCurve;
    for index := 0 to |curves|
      invariant forall r, k | 0 <= r < out.Length0 && 0 <= k < out.Length1 ::
                  out[r, k] == if k < index then MapClass(curves[k], probs[r, k]) else probs[r, k]
    {
      if curves[index].Some? {
        MapColumn(probs, out, index, curves[index].value);
      }
    }
    ghost var mapped :=
        seq(out.Length0, r requires 0 <= r < out.Length0 reads probs => Mapped(RowAt(probs, r), curves));
    assert forall r | 0 <= r < out.Length0 :: RowAt(out, r) == mapped[r];
    for r := 0 to out.Length0
      invariant forall i | 0 <= i < out.Length0 :: RowAt(out, i) == if i < r then Renormalised(mapped[i]) else mapped[i]
    {
      label Row:
      RenormaliseRow(out, r);
      forall i | 0 <= i < out.Length0 && i != r ensures RowAt(out, i) == old@Row(RowAt(out, i)) {}
    }
  }

  // ---- what the steps of a prediction mean ----

  /** Cooling divides every logit, and so every difference, by the temperature. */
  lemma CooledMeans(scaler: TemperatureScaler, logits: seq<real>, i: nat, j: nat)
    requires scaler.Valid() && i < |logits| && j < |logits|
    ensures Cooled(scaler, logits)[i] * scaler.temperature == logits[i]
    ensures (Cooled(scaler, logits)[i] - Cooled(scaler, logits)[j]) * scaler.temperature == logits[i] - logits[j]
  {
    var t := scaler.temperature;
    var a, b := logits[i] / t, logits[j] / t;
    assert a * t == logits[i] && b * t == logits[j];
    assert (a - b) * t == a * t - b * t;
  }

  /** Softmax entries are to each other as the exponentials of their logits, taken
      from the greatest. */
  lemma SoftmaxMeans(exp: real -> real, logits: seq<real>, i: nat, j: nat)
    requires LikeExp(exp) && i < |logits| && j < |logits|
    ensures |Softmax(exp, logits)| == |logits|
    ensures var top := Greatest(logits);
            Softmax(exp, logits)[i] * exp(logits[j] - top) == Softmax(exp, logits)[j] * exp(logits[i] - top)
  {
    hide Softmax, Greatest, Sum, LikeExp, Divided;
    SoftmaxIsDivided(exp, logits);
    DividedCross(Exponentials(exp, logits), Sum(Exponentials(exp, logits)), i, j);
  }

  lemma DividedCross(es: seq<real>, total: real, i: nat, j: nat)
    requires total > 0.0 && i < |es| && j < |es|
    ensures |Divided(es, total)| == |es| && Divided(es, total)[i] * es[j] == Divided(es, total)[j] * es[i]
  {
    Cross(es[i], es[j], total);
  }

  lemma Cross(a: real, b: real, total: real)
    requires total > 0.0
    ensures a / total * b == b / total * a
  {}

  /** What calibration does to a class: without a curve nothing, with one the curve's
      interpolation, from its first to its last breakpoint, cut to [0, 1]. */
  lemma MapClassMeans(curve: Option<IsotonicCalibrator>, p: real)
    requires curve.Some? ==> curve.value.Valid()
    ensures curve == None ==> MapClass(curve, p) == p
    ensures curve.Some? ==>
              var c := curve.value;
              && NonDecreasing(c.x) && 0.0 <= MapClass(curve, p) <= 1.0
              && var mapped := Interp(c.x, c.y, if p < c.x[0] then c.x[0] else p);
                 && (0.0 <= mapped <= 1.0 ==> MapClass(curve, p) == mapped)
                 && (mapped > 1.0 ==> MapClass(curve, p) == 1.0)
                 && (mapped < 0.0 ==> MapClass(curve, p) == 0.0)
  {
    if curve.Some? {
      var c := curve.value;
      BreakpointsOrdered(c);
      InterpOutside(c.x, c.y, p);
    }
  }

  /** Cutting to the last knot first changes nothing. */
  lemma InterpOutside(xs: seq<real>, ys: seq<real>, v: real)
    requires |xs| == |ys| > 0 && NonDecreasing(xs)
    ensures xs[0] <= xs[|xs| - 1]
    ensures Interp(xs, ys, Clip(v, xs[0], xs[|xs| - 1])) == Interp(xs, ys, if v < xs[0] then xs[0] else v)
  {
    InterpMeans(xs, ys, v);
    InterpMeans(xs, ys, xs[|xs| - 1]);
  }

  /** Renormalising keeps proportions, or makes a row that collapsed uniform. */
  lemma RenormalisedMeans(row: seq<real>, i: nat)
    requires i < |row|
    ensures Sum(row) > 0.000000000001 ==> Renormalised(row)[i] * Sum(row) == row[i]
    ensures Sum(row) <= 0.000000000001 ==> Renormalised(row)[i] * |row| as real == 1.0
  {
    hide Sum, Divided;
    if Sum(row) > 0.000000000001 {
      DividedBack(row, Sum(row), i);
    } else {
      QuotientTimes(1.0, |row| as real);
    }
  }

  lemma DividedBack(row: seq<real>, total: real, i: nat)
    requires total != 0.0 && i < |row|
    ensures |Divided(row, total)| == |row| && Divided(row, total)[i] * total == row[i]
  {
    QuotientTimes(row[i], total);
  }

  lemma QuotientTimes(a: real, b: real)
    requires b != 0.0
    ensures a / b * b == a
  {}
}
