/** Numeric bins: fitting by merging thin quantile bins, and looking scores up. */
module BinFitting {
  import opened Results
  import opened Numeric
  import opened Calibrators

  datatype FitError = LengthMismatch | NoSamples | TooFewBins | NoWidth

  // ---- lookup ----

  /** `np.searchsorted(..., side="left")` in a sorted sequence. */
  function SearchLeft(a: seq<real>, v: real): (k: nat)
    ensures k <= |a|
  {
    if a == [] || a[0] >= v then 0 else 1 + SearchLeft(a[1..], v)
  }

  lemma {:induction false} SearchLeftPlaces(a: seq<real>, v: real)
    requires Increasing(a)
    ensures forall j | 0 <= j < |a| :: a[j] < v <==> j < SearchLeft(a, v)
  {
    if a != [] {
      SearchLeftPlaces(a[1..], v);
      forall j | 0 <= j < |a| ensures a[j] < v <==> j < SearchLeft(a, v) {
        if j > 0 {
          assert a[j] == a[1..][j - 1] && a[0] < a[j];
        }
      }
    }
  }

  function Interior(edges: seq<real>): seq<real>
    requires |edges| >= 2
  {
    edges[1..|edges| - 1]
  }

  /** The quantile bin of a score: bins are closed on the right. */
  function RawBin(edges: seq<real>, score: real): (k: nat)
    requires |edges| >= 2
    ensures k <= |edges| - 2
  {
    SearchLeft(Interior(edges), score)
  }

  lemma RawBinPlaces(edges: seq<real>, score: real)
    requires |edges| >= 2 && Increasing(edges)
    ensures forall j | 1 <= j < |edges| - 1 :: edges[j] < score <==> j <= RawBin(edges, score)
  {
    SearchLeftPlaces(Interior(edges), score);
    forall j | 1 <= j < |edges| - 1 ensures edges[j] < score <==> j <= RawBin(edges, score) {
      assert edges[j] == Interior(edges)[j - 1];
    }
  }

  /** `bin_index` */
  function BinIndex(c: NumericCalibrator, score: real): (k: nat)
    requires c.Valid()
    ensures k < |c.centers|
  {
    var index := SearchLeft(Interior(c.edges), score);
    if index > |c.centers| - 1 then |c.centers| - 1 else index
  }

  /** `predict`: value and probability. */
  function Predict(c: NumericCalibrator, score: real): (real, real)
    requires c.Valid() && NonDecreasing(c.centers)
  {
    var k := BinIndex(c, score);
    var value := if c.interpolate && |c.centers| > 1 then Interp(c.centers, c.values, score) else c.values[k];
    (Clip(value, c.labelMin, c.labelMax), Clip(c.coverages[k], 0.0, 1.0))
  }

  /** What belongs to the training samples that lookup sends to bin k. */
  function Held(c: NumericCalibrator, scores: seq<real>, xs: seq<real>, k: nat): seq<real>
    requires c.Valid() && |scores| == |xs|
  {
    if scores == [] then []
    else (if BinIndex(c, scores[0]) == k then [xs[0]] else []) + Held(c, scores[1..], xs[1..], k)
  }

  /** How many of the labels lie within the tolerance band. */
  function Inside(labels: seq<real>, value: real, tolerance: real): nat {
    if labels == [] then 0
    else (if -tolerance <= labels[0] - value <= tolerance then 1 else 0) + Inside(labels[1..], value, tolerance)
  }

  function Coverage(labels: seq<real>, value: real, tolerance: real): real
    requires labels != []
  {
    Inside(labels, value, tolerance) as real / |labels| as real
  }

  /** Coverage times the sample count is the number of labels in the band. */
  lemma CoverageCounts(labels: seq<real>, value: real, tolerance: real)
    requires labels != []
    ensures Coverage(labels, value, tolerance) * |labels| as real
         == |set i | 0 <= i < |labels| && value - tolerance <= labels[i] <= value + tolerance| as real
  {
    InsideCounts(labels, value, tolerance);
  }

  lemma {:induction false} InsideCounts(labels: seq<real>, value: real, tolerance: real)
    ensures Inside(labels, value, tolerance)
         == |set i | 0 <= i < |labels| && value - tolerance <= labels[i] <= value + tolerance|
  {
    var all := set i | 0 <= i < |labels| && value - tolerance <= labels[i] <= value + tolerance;
    if labels == [] {
      assert all == {};
    } else {
      var n := |labels| - 1;
      InsideCounts(labels[..n], value, tolerance);
      var front := set i | 0 <= i < |labels[..n]| && value - tolerance <= labels[..n][i] <= value + tolerance;
      InsideSnoc(labels, value, tolerance);
      assert all == front + if value - tolerance <= labels[n] <= value + tolerance then {n} else {};
      assert n !in front;
    }
  }

  lemma {:induction false} InsideSnoc(labels: seq<real>, value: real, tolerance: real)
    requires labels != []
    ensures var last := labels[|labels| - 1];
            Inside(labels, value, tolerance)
            == Inside(labels[..|labels| - 1], value, tolerance) + if -tolerance <= last - value <= tolerance then 1
                else 0
  {
    if |labels| > 1 {
      InsideSnoc(labels[1..], value, tolerance);
      assert labels[1..][..|labels| - 2] == labels[..|labels| - 1][1..];
    }
  }

  function SumCounts(counts: seq<int>): int {
    if counts == [] then 0 else counts[0] + SumCounts(counts[1..])
  }

  // ---- samples by raw bin ----

  /** The elements whose raw bin lies in [lo, hi), in order. */
  function Pick(xs: seq<real>, bins: seq<nat>, lo: nat, hi: nat): seq<real>
    requires |xs| == |bins|
  {
    if xs == [] then []
    else (if lo <= bins[0] < hi then [xs[0]] else []) + Pick(xs[1..], bins[1..], lo, hi)
  }

  /** `xs[np.isin(assignments, pending)]` */
  function Masked(xs: seq<real>, bins: seq<nat>, pending: seq<nat>): seq<real>
    requires |xs| == |bins|
  {
    if xs == [] then []
    else (if bins[0] in pending then [xs[0]] else []) + Masked(xs[1..], bins[1..], pending)
  }

  lemma {:induction false} MaskedIsPick(xs: seq<real>, bins: seq<nat>, pending: seq<nat>, lo: nat, hi: nat)
    requires |xs| == |bins| && forall j: nat :: j in pending <==> lo <= j < hi
    ensures Masked(xs, bins, pending) == Pick(xs, bins, lo, hi)
  {
    if xs != [] {
      MaskedIsPick(xs[1..], bins[1..], pending, lo, hi);
    }
  }

  lemma {:induction false} PickSizes(xs: seq<real>, ys: seq<real>, bins: seq<nat>, lo: nat, hi: nat)
    requires |xs| == |ys| == |bins|
    ensures |Pick(xs, bins, lo, hi)| == |Pick(ys, bins, lo, hi)|
  {
    if xs != [] {
      PickSizes(xs[1..], ys[1..], bins[1..], lo, hi);
    }
  }

  /** Two adjacent ranges hold what their union holds. */
  lemma {:induction false} PickSplits(xs: seq<real>, bins: seq<nat>, lo: nat, mid: nat, hi: nat)
    requires |xs| == |bins| && lo <= mid <= hi
    ensures Sum(Pick(xs, bins, lo, hi)) == Sum(Pick(xs, bins, lo, mid)) + Sum(Pick(xs, bins, mid, hi))
    ensures |Pick(xs, bins, lo, hi)| == |Pick(xs, bins, lo, mid)| + |Pick(xs, bins, mid, hi)|
  {
    if xs != [] {
      PickSplits(xs[1..], bins[1..], lo, mid, hi);
      PickSum(xs, bins, lo, hi);
      PickSum(xs, bins, lo, mid);
      PickSum(xs, bins, mid, hi);
    }
  }

  lemma {:induction false} PickParts(xs: seq<real>, bins: seq<nat>, lo: nat, mid: nat, hi: nat)
    requires |xs| == |bins| && lo <= mid <= hi
    ensures multiset(Pick(xs, bins, lo, hi)) == multiset(Pick(xs, bins, lo, mid)) + multiset(Pick(xs, bins, mid, hi))
  {
    if xs != [] {
      PickParts(xs[1..], bins[1..], lo, mid, hi);
    }
  }

  lemma PickSum(xs: seq<real>, bins: seq<nat>, lo: nat, hi: nat)
    requires |xs| == |bins| > 0
    ensures Sum(Pick(xs, bins, lo, hi))
            == (if lo <= bins[0] < hi then xs[0] else 0.0) + Sum(Pick(xs[1..], bins[1..], lo, hi))
  {
    var rest := Pick(xs[1..], bins[1..], lo, hi);
    assert ([xs[0]] + rest)[1..] == rest;
    assert [] + rest == rest;
  }

  lemma {:induction false} PickSkipsEmpty(xs: seq<real>, bins: seq<nat>, lo: nat, mid: nat, hi: nat)
    requires |xs| == |bins| && lo <= mid <= hi && Pick(xs, bins, lo, mid) == []
    ensures Pick(xs, bins, lo, hi) == Pick(xs, bins, mid, hi)
  {
    if xs != [] {
      assert Pick(xs[1..], bins[1..], lo, mid) == [];
      PickSkipsEmpty(xs[1..], bins[1..], lo, mid, hi);
    }
  }

  lemma {:induction false} PickDropsEmpty(xs: seq<real>, bins: seq<nat>, lo: nat, mid: nat, hi: nat)
    requires |xs| == |bins| && lo <= mid <= hi && Pick(xs, bins, mid, hi) == []
    ensures Pick(xs, bins, lo, hi) == Pick(xs, bins, lo, mid)
  {
    if xs != [] {
      assert Pick(xs[1..], bins[1..], mid, hi) == [];
      PickDropsEmpty(xs[1..], bins[1..], lo, mid, hi);
    }
  }

  lemma {:induction false} PickAll(xs: seq<real>, bins: seq<nat>, hi: nat)
    requires |xs| == |bins| && forall i | 0 <= i < |bins| :: bins[i] < hi
    ensures Pick(xs, bins, 0, hi) == xs
  {
    if xs != [] {
      PickAll(xs[1..], bins[1..], hi);
      assert [xs[0]] + xs[1..] == xs;
    }
  }

  lemma {:induction false} PickFrom(xs: seq<real>, bins: seq<nat>, lo: nat, hi: nat)
    requires |xs| == |bins|
    ensures forall x | x in Pick(xs, bins, lo, hi) :: exists i :: 0 <= i < |xs| && x == xs[i] && lo <= bins[i] < hi
  {
    if xs != [] {
      PickFrom(xs[1..], bins[1..], lo, hi);
      forall x | x in Pick(xs, bins, lo, hi) ensures exists i :: 0 <= i < |xs| && x == xs[i] && lo <= bins[i] < hi {
        if x in Pick(xs[1..], bins[1..], lo, hi) {
          var i :| 0 <= i < |xs[1..]| && x == xs[1..][i] && lo <= bins[1..][i] < hi;
          assert xs[i + 1] == x && lo <= bins[i + 1] < hi;
        } else {
          assert x == xs[0] && lo <= bins[0] < hi;
        }
      }
    }
  }

  // ---- merged bins ----

  /** Where the kept bins are cut from the raw bins: bin k is [cuts[k], cuts[k + 1]). */
  predicate Ascending(cuts: seq<nat>) { forall i, j | 0 <= i < j < |cuts| :: cuts[i] < cuts[j] }

  ghost predicate CutFrom(edges: seq<real>, cuts: seq<nat>, kept: seq<real>) {
    && |kept| == |cuts| > 0
    && Ascending(cuts)
    && cuts[0] == 0
    && forall j | 0 <= j < |cuts| :: cuts[j] < |edges| && kept[j] == edges[cuts[j]]
  }

  /** Looking a score up among the kept edges finds the kept bin that its raw bin
      was merged into. */
  lemma LookupFindsMergedBin(edges: seq<real>, cuts: seq<nat>, c: NumericCalibrator, score: real, k: nat)
    requires c.Valid() && |edges| >= 2 && Increasing(edges)
    requires CutFrom(edges, cuts, c.edges) && cuts[|cuts| - 1] == |edges| - 1 && k < |c.centers|
    ensures BinIndex(c, score) == k <==> cuts[k] <= RawBin(edges, score) < cuts[k + 1]
  {
    var raw, kept, index := RawBin(edges, score), c.edges, RawBin(c.edges, score);
    assert Increasing(kept);
    RawBinPlaces(edges, score);
    RawBinPlaces(kept, score);
    assert BinIndex(c, score) == index;
    assert cuts[index] <= raw by {
      if index > 0 {
        assert kept[index] < score;
        assert cuts[0] < cuts[index] < cuts[|cuts| - 1];
      }
    }
    assert raw < cuts[index + 1] by {
      if index + 1 < |kept| - 1 {
        assert !(kept[index + 1] < score);
        assert cuts[0] < cuts[index + 1] < cuts[|cuts| - 1];
      }
    }
    assert k + 1 <= index ==> k + 1 == index || cuts[k + 1] < cuts[index];
    assert index + 1 <= k ==> index + 1 == k || cuts[index + 1] < cuts[k];
  }

  ghost predicate RawBins(edges: seq<real>, scores: seq<real>, bins: seq<nat>)
    requires |edges| >= 2
  {
    |bins| == |scores| && forall i | 0 <= i < |scores| :: bins[i] == RawBin(edges, scores[i])
  }

  lemma {:induction false} HeldIsPick(
    edges: seq<real>, cuts: seq<nat>, c: NumericCalibrator, scores: seq<real>, xs: seq<real>, bins: seq<nat>, k: nat)
    requires c.Valid() && |edges| >= 2 && Increasing(edges) && |xs| == |scores| && RawBins(edges, scores, bins)
    requires CutFrom(edges, cuts, c.edges) && cuts[|cuts| - 1] == |edges| - 1 && k < |c.centers|
    ensures Held(c, scores, xs, k) == Pick(xs, bins, cuts[k], cuts[k + 1])
  {
    if scores != [] {
      HeldIsPick(edges, cuts, c, scores[1..], xs[1..], bins[1..], k);
      LookupFindsMergedBin(edges, cuts, c, scores[0], k);
    }
  }

  /** A bin over the raw bins [lo, hi): its count and its mean label. */
  ghost predicate Counted(labels: seq<real>, bins: seq<nat>, lo: nat, hi: nat, value: real, count: int)
    requires |labels| == |bins|
  {
    var own := Pick(labels, bins, lo, hi);
    own != [] && count == |own| && value == Mean(own)
  }

  ghost predicate Covered(
    labels: seq<real>, bins: seq<nat>, lo: nat, hi: nat, value: real, coverage: real, tolerance: real)
    requires |labels| == |bins|
  {
    var own := Pick(labels, bins, lo, hi);
    own != [] && coverage == Coverage(own, value, tolerance)
  }

  /** The center lies between the interior edges around its bin. */
  ghost predicate Centered(edges: seq<real>, lo: nat, hi: nat, center: real)
    requires hi < |edges|
  {
    && (1 <= lo < |edges| - 1 ==> edges[lo] < center)
    && (1 <= hi < |edges| - 1 ==> center <= edges[hi])
  }

  lemma MeanScoreIsCentered(edges: seq<real>, scores: seq<real>, bins: seq<nat>, lo: nat, hi: nat)
    requires |edges| >= 2 && Increasing(edges) && RawBins(edges, scores, bins) && lo < hi < |edges|
    requires Pick(scores, bins, lo, hi) != []
    ensures Centered(edges, lo, hi, Mean(Pick(scores, bins, lo, hi)))
  {
    var own := Pick(scores, bins, lo, hi);
    PickFrom(scores, bins, lo, hi);
    forall x | x in own
      ensures 1 <= lo < |edges| - 1 ==> edges[lo] < x
      ensures 1 <= hi < |edges| - 1 ==> x <= edges[hi]
    {
      var i :| 0 <= i < |scores| && x == scores[i] && lo <= bins[i] < hi;
      RawBinPlaces(edges, x);
    }
    if 1 <= lo < |edges| - 1 {
      MeanAbove(own, edges[lo]);
    }
    if 1 <= hi < |edges| - 1 {
      MeanAtMost(own, edges[hi]);
    }
  }

  lemma MeanAtMost(xs: seq<real>, hi: real)
    requires xs != [] && AtMost(xs, hi)
    ensures Mean(xs) <= hi
  {
    var lo := Least(xs);
    MeanWithin(xs, lo, hi);
  }

  lemma {:induction false} CountsSnoc(counts: seq<int>, n: int)
    ensures SumCounts(counts + [n]) == SumCounts(counts) + n
  {
    if counts == [] {
      assert [n][1..] == [];
    } else {
      CountsSnoc(counts[1..], n);
      assert (counts + [n])[1..] == counts[1..] + [n];
    }
  }

  /** One published bin: an entry of each of the four parallel lists. */
  datatype Row = Row(center: real, value: real, coverage: real, count: int)

  function RowOf(binScores: seq<real>, binLabels: seq<real>, tolerance: real): Row {
    if binScores == [] || binLabels == [] then Row(0.0, 0.0, 0.0, 0)
    else
      var meanLabel := Mean(binLabels);
      Row(Mean(binScores), meanLabel, Coverage(binLabels, meanLabel, tolerance), |binLabels|)
  }

  lemma RowCount(binScores: seq<real>, binLabels: seq<real>, tolerance: real)
    requires binScores != []
    ensures RowOf(binScores, binLabels, tolerance).count == |binLabels|
  {}

  /** The rows of all cut ranges. */
  function Rows(scores: seq<real>, labels: seq<real>, bins: seq<nat>, cuts: seq<nat>, tolerance: real): (rows: seq<Row>)
    requires |scores| == |labels| == |bins|
    ensures |rows| == if cuts == [] then 0 else |cuts| - 1
  {
    if |cuts| <= 1 then []
    else Rows(scores, labels, bins, cuts[..|cuts| - 1], tolerance)
         + [RowOf(Pick(scores, bins, cuts[|cuts| - 2], cuts[|cuts| - 1]),
             Pick(labels, bins, cuts[|cuts| - 2], cuts[|cuts| - 1]), tolerance)]
  }

  lemma RowsSnoc(scores: seq<real>, labels: seq<real>, bins: seq<nat>, cuts: seq<nat>, tolerance: real, hi: nat)
    requires |scores| == |labels| == |bins| && |cuts| > 0
    ensures Rows(scores, labels, bins, cuts + [hi], tolerance)
         == Rows(scores, labels, bins, cuts, tolerance)
            + [RowOf(Pick(scores, bins, cuts[|cuts| - 1], hi), Pick(labels, bins, cuts[|cuts| - 1], hi), tolerance)]
  {
    assert (cuts + [hi])[..|cuts|] == cuts;
  }

  lemma {:induction false} RowAt(
    scores: seq<real>, labels: seq<real>, bins: seq<nat>, cuts: seq<nat>, tolerance: real, k: nat)
    requires |scores| == |labels| == |bins| && k + 1 < |cuts|
    ensures Rows(scores, labels, bins, cuts, tolerance)[k]
         == RowOf(Pick(scores, bins, cuts[k], cuts[k + 1]), Pick(labels, bins, cuts[k], cuts[k + 1]), tolerance)
  {
    if k + 2 < |cuts| {
      RowAt(scores, labels, bins, cuts[..|cuts| - 1], tolerance, k);
    }
  }

  lemma {:induction false} RowCountsSum(
    scores: seq<real>, labels: seq<real>, bins: seq<nat>, cuts: seq<nat>, tolerance: real)
    requires |scores| == |labels| == |bins| && |cuts| > 0 && Ascending(cuts) && cuts[0] == 0
    ensures SumCounts(RowCounts(Rows(scores, labels, bins, cuts, tolerance)))
            == |Pick(labels, bins, 0, cuts[|cuts| - 1])|
  {
    hide Pick, RowOf, Rows, SumCounts, RowCounts;
    if |cuts| == 1 {
      PickNothing(labels, bins, 0);
      NoRowsCount(scores, labels, bins, cuts, tolerance);
    } else {
      var front, lo, hi := cuts[..|cuts| - 1], cuts[|cuts| - 2], cuts[|cuts| - 1];
      RowCountsSum(scores, labels, bins, front, tolerance);
      PickSplits(labels, bins, 0, lo, hi);
      RangeCount(scores, labels, bins, lo, hi, tolerance);
      RowsSnoc(scores, labels, bins, front, tolerance, hi);
      assert front + [hi] == cuts;
      RowCountsSnoc(Rows(scores, labels, bins, front, tolerance),
          RowOf(Pick(scores, bins, lo, hi), Pick(labels, bins, lo, hi), tolerance));
    }
  }

  lemma NoRowsCount(scores: seq<real>, labels: seq<real>, bins: seq<nat>, cuts: seq<nat>, tolerance: real)
    requires |scores| == |labels| == |bins| && |cuts| == 1
    ensures SumCounts(RowCounts(Rows(scores, labels, bins, cuts, tolerance))) == 0
  {}

  lemma RangeCount(scores: seq<real>, labels: seq<real>, bins: seq<nat>, lo: nat, hi: nat, tolerance: real)
    requires |scores| == |labels| == |bins|
    ensures RowOf(Pick(scores, bins, lo, hi), Pick(labels, bins, lo, hi), tolerance).count
            == |Pick(labels, bins, lo, hi)|
  {
    hide Pick, Mean, Coverage;
    PickSizes(scores, labels, bins, lo, hi);
  }

  lemma RowCountsSnoc(rows: seq<Row>, row: Row)
    ensures SumCounts(RowCounts(rows + [row])) == SumCounts(RowCounts(rows)) + row.count
  {
    hide SumCounts;
    CountsSnoc(RowCounts(rows), row.count);
    assert RowCounts(rows + [row]) == RowCounts(rows) + [row.count];
  }

  function RowCounts(rows: seq<Row>): seq<int> { seq(|rows|, k requires 0 <= k < |rows| => rows[k].count) }

  /** The bins kept so far. */
  ghost predicate Kept(
    edges: seq<real>, scores: seq<real>, labels: seq<real>, bins: seq<nat>, cuts: seq<nat>,
    kept: seq<real>, rows: seq<Row>, minSamples: int, tolerance: real)
    requires |labels| == |scores| == |bins|
  {
    && CutFrom(edges, cuts, kept)
    && rows == Rows(scores, labels, bins, cuts, tolerance)
    && forall k | 0 <= k < |rows| :: rows[k].count >= 1 && rows[k].count >= minSamples
  }

  // ---- the leftover merge ----

  function Flat(n: nat, value: real): seq<real> { seq(n, _ => value) }

  lemma {:induction false} SumFlat(n: nat, value: real)
    ensures Sum(Flat(n, value)) == Times(n, value)
  {
    if n > 0 {
      SumFlat(n - 1, value);
      assert Flat(n, value)[1..] == Flat(n - 1, value);
    }
  }

  /** Standing in for the old bin, its mean repeated gives the mean of the whole. */
  lemma MergedMean(labels: seq<real>, bins: seq<nat>, lo: nat, mid: nat, hi: nat)
    requires |labels| == |bins| && lo <= mid <= hi && Pick(labels, bins, lo, mid) != []
    ensures Pick(labels, bins, lo, hi) != []
    ensures var own := Pick(labels, bins, lo, mid);
            Mean(Pick(labels, bins, mid, hi) + Flat(|own|, Mean(own))) == Mean(Pick(labels, bins, lo, hi))
  {
    hide Mean;
    var own := Pick(labels, bins, lo, mid);
    FlatMeanSum(own);
    PickSplits(labels, bins, lo, mid, hi);
    MeanOfMerge(own, Flat(|own|, Mean(own)), Pick(labels, bins, mid, hi), Pick(labels, bins, lo, hi));
  }

  lemma SameMean(a: seq<real>, b: seq<real>)
    requires a != [] && |a| == |b| && Sum(a) == Sum(b)
    ensures Mean(a) == Mean(b)
  {}

  lemma MeanOfMerge(own: seq<real>, flat: seq<real>, extra: seq<real>, all: seq<real>)
    requires own != [] && |flat| == |own| && Sum(flat) == Sum(own)
    requires |all| == |own| + |extra| && Sum(all) == Sum(own) + Sum(extra)
    ensures Mean(extra + flat) == Mean(all)
  {
    hide Mean;
    SumConcat(extra, flat);
    SameMean(extra + flat, all);
  }

  /** A mean added up as often as there are elements is their sum. */
  lemma FlatMeanSum(own: seq<real>)
    requires own != []
    ensures Sum(Flat(|own|, Mean(own))) == Sum(own)
  {
    hide Mean;
    SumFlat(|own|, Mean(own));
    MeanTimes(own);
  }

  /** What the source promises of a fit, said of lookup: every bin's count and
      value are those of the training samples that lookup sends to it. */
  ghost predicate Consistent(c: NumericCalibrator, scores: seq<real>, labels: seq<real>, minSamples: int) {
    && c.Valid()
    && |scores| == |labels|
    && (forall k | 0 <= k < |c.centers| ::
          && HeldMean(c, scores, labels, k)
          && (c.counts[k] >= minSamples || |c.centers| == 1))
    && SumCounts(c.counts) == |scores|
    && Increasing(c.centers)
    && Increasing(c.edges)
  }

  ghost predicate HeldMean(c: NumericCalibrator, scores: seq<real>, labels: seq<real>, k: nat)
    requires c.Valid() && |scores| == |labels| && k < |c.centers|
  {
    var held := Held(c, scores, labels, k);
    held != [] && c.counts[k] == |held| && c.values[k] == Mean(held)
  }

  /** The coverage of bin k is the share of its samples inside the band. */
  ghost predicate HeldCoverage(c: NumericCalibrator, scores: seq<real>, labels: seq<real>, k: nat)
    requires c.Valid() && |scores| == |labels| && k < |c.centers|
  {
    var held := Held(c, scores, labels, k);
    held != [] && c.coverages[k] == Coverage(held, c.values[k], c.tolerance)
  }

  /** The coverage of a last bin with leftovers: fewer than the minimum of its
      samples count with their own labels, the others with their mean. */
  ghost predicate FoldedCoverage(c: NumericCalibrator, scores: seq<real>, labels: seq<real>, k: nat, minSamples: int)
    requires c.Valid() && |scores| == |labels| && k < |c.centers|
  {
    exists own: seq<real>, extra: seq<real> ::
      SplitsHeld(own, extra, Held(c, scores, labels, k)) && |extra| < minSamples
      && c.coverages[k] == Coverage(extra + Flat(|own|, Mean(own)), c.values[k], c.tolerance)
  }

  ghost predicate SplitsHeld(own: seq<real>, extra: seq<real>, held: seq<real>) {
    own != [] && extra != [] && multiset(own) + multiset(extra) == multiset(held)
  }

  ghost predicate BinTells(
    edges: seq<real>, labels: seq<real>, bins: seq<nat>, cuts: seq<nat>, c: NumericCalibrator, k: nat, minSamples: int)
    requires c.Valid() && |labels| == |bins| && k < |c.centers| && |cuts| == |c.edges| && cuts[k + 1] < |edges|
  {
    && Counted(labels, bins, cuts[k], cuts[k + 1], c.values[k], c.counts[k])
    && Centered(edges, cuts[k], cuts[k + 1], c.centers[k])
    && (c.counts[k] >= minSamples || |c.centers| == 1)
    && 0.0 <= c.coverages[k] <= 1.0
  }

  ghost predicate CoveragesHold(c: NumericCalibrator, scores: seq<real>, labels: seq<real>, minSamples: int)
    requires c.Valid() && |scores| == |labels|
  {
    && (forall k | 0 <= k < |c.centers| - 1 :: HeldCoverage(c, scores, labels, k))
    && (HeldCoverage(c, scores, labels, |c.centers| - 1)
          || FoldedCoverage(c, scores, labels, |c.centers| - 1, minSamples))
  }

  /** All bins cut up to the last edge make a consistent calibrator. */
  lemma FinishedIsConsistent(
    edges: seq<real>, scores: seq<real>, labels: seq<real>, bins: seq<nat>, cuts: seq<nat>, c: NumericCalibrator,
    minSamples: int)
    requires c.Valid() && |edges| >= 2 && Increasing(edges) && RawBins(edges, scores, bins) && |labels| == |scores|
    requires CutFrom(edges, cuts, c.edges) && cuts[|cuts| - 1] == |edges| - 1
    requires forall k | 0 <= k < |c.centers| :: BinTells(edges, labels, bins, cuts, c, k, minSamples)
    requires SumCounts(c.counts) == |Pick(labels, bins, 0, |edges| - 1)|
    ensures Consistent(c, scores, labels, minSamples)
    ensures AtLeast(c.coverages, 0.0) && AtMost(c.coverages, 1.0)
    ensures forall k | 0 <= k < |c.centers|
            && Covered(labels, bins, cuts[k], cuts[k + 1], c.values[k], c.coverages[k], c.tolerance) ::
              HeldCoverage(c, scores, labels, k)
  {
    PickAll(labels, bins, |edges| - 1);
    forall k | 0 <= k < |c.centers| ensures Held(c, scores, labels, k) == Pick(labels, bins, cuts[k], cuts[k + 1]) {
      HeldIsPick(edges, cuts, c, scores, labels, bins, k);
    }
    forall k | 0 <= k < |c.centers|
      ensures HeldMean(c, scores, labels, k) && (c.counts[k] >= minSamples || |c.centers| == 1)
    {
      assert BinTells(edges, labels, bins, cuts, c, k, minSamples);
    }
    forall i, j | 0 <= i < j < |c.centers| ensures c.centers[i] < c.centers[j] {
      assert BinTells(edges, labels, bins, cuts, c, i, minSamples)
          && BinTells(edges, labels, bins, cuts, c, j, minSamples);
      assert cuts[0] < cuts[i + 1] <= cuts[j] < cuts[|cuts| - 1];
    }
    forall k | 0 <= k < |c.centers| ensures 0.0 <= c.coverages[k] <= 1.0 {
      assert BinTells(edges, labels, bins, cuts, c, k, minSamples);
    }
  }

  /** The pending raw bins are exactly those from start on. */
  ghost predicate IsRange(pending: seq<nat>, start: nat, end: nat) {
    forall j: nat :: j in pending <==> start <= j < end
  }

  lemma RangeStarts(end: nat)
    ensures IsRange([], end, end)
  {}

  lemma PendingGrows(pending: seq<nat>, start: nat, end: nat)
    requires IsRange(pending, start, end) && start <= end
    ensures IsRange(pending + [end], start, end + 1)
  {
    forall j: nat ensures j in pending + [end] <==> j in pending || j == end {}
  }

  /** What is pending, with the empty raw bins dropped before it. */
  lemma PendingIsRange(
    labels: seq<real>, xs: seq<real>, bins: seq<nat>, pending: seq<nat>, lo: nat, start: nat, hi: nat)
    requires |labels| == |xs| == |bins| && lo <= start <= hi && Pick(labels, bins, lo, start) == []
    requires IsRange(pending, start, hi)
    ensures Masked(xs, bins, pending) == Pick(xs, bins, lo, hi)
  {
    MaskedIsPick(xs, bins, pending, start, hi);
    PickSizes(labels, xs, bins, lo, start);
    PickSkipsEmpty(xs, bins, lo, start, hi);
  }

  /** The merging loop before raw bin `end`: the kept bins, empty raw bins dropped
      after them, and the raw bins still pending. */
  ghost predicate Merging(
    edges: seq<real>, scores: seq<real>, labels: seq<real>, bins: seq<nat>, cuts: seq<nat>, start: nat,
    kept: seq<real>, rows: seq<Row>, pending: seq<nat>, minSamples: int, tolerance: real, end: nat)
    requires |labels| == |scores| == |bins|
  {
    && Kept(edges, scores, labels, bins, cuts, kept, rows, minSamples, tolerance)
    && cuts[|cuts| - 1] <= start <= end && Pick(labels, bins, cuts[|cuts| - 1], start) == []
    && IsRange(pending, start, end)
  }

  lemma MergingStarts(
    edges: seq<real>, scores: seq<real>, labels: seq<real>, bins: seq<nat>, minSamples: int, tolerance: real)
    requires |labels| == |scores| == |bins| && edges != []
    ensures Merging(edges, scores, labels, bins, [0], 0, [edges[0]], [], [], minSamples, tolerance, 0)
  {
    PickNothing(labels, bins, 0);
  }

  lemma PendOneMore(
    edges: seq<real>, scores: seq<real>, labels: seq<real>, bins: seq<nat>, cuts: seq<nat>, start: nat,
    kept: seq<real>, rows: seq<Row>, pending: seq<nat>, minSamples: int, tolerance: real, end: nat)
    requires |labels| == |scores| == |bins|
    requires Merging(edges, scores, labels, bins, cuts, start, kept, rows, pending, minSamples, tolerance, end)
    ensures Merging(edges, scores, labels, bins, cuts, start, kept, rows, pending + [end], minSamples, tolerance,
            end + 1)
  {
    hide Kept, Pick;
    PendingGrows(pending, start, end);
  }

  lemma DropEmpty(
    edges: seq<real>, scores: seq<real>, labels: seq<real>, bins: seq<nat>, cuts: seq<nat>, start: nat,
    kept: seq<real>, rows: seq<Row>, pending: seq<nat>, minSamples: int, tolerance: real, end: nat)
    requires |labels| == |scores| == |bins| && Masked(labels, bins, pending) == []
    requires Merging(edges, scores, labels, bins, cuts, start, kept, rows, pending, minSamples, tolerance, end)
    ensures Merging(edges, scores, labels, bins, cuts, end, kept, rows, [], minSamples, tolerance, end)
  {
    hide Pick, Masked, Rows;
    PendingIsRange(labels, labels, bins, pending, cuts[|cuts| - 1], start, end);
    RangeStarts(end);
  }

  lemma KeepPending(
    edges: seq<real>, scores: seq<real>, labels: seq<real>, bins: seq<nat>, cuts: seq<nat>, start: nat,
    kept: seq<real>, rows: seq<Row>, pending: seq<nat>, minSamples: int, tolerance: real, end: nat)
    requires |labels| == |scores| == |bins| && start < end < |edges|
    requires Merging(edges, scores, labels, bins, cuts, start, kept, rows, pending, minSamples, tolerance, end)
    requires |Masked(labels, bins, pending)| >= 1 && |Masked(labels, bins, pending)| >= minSamples
    ensures Merging(edges, scores, labels, bins, cuts + [end], end, kept + [edges[end]],
                    rows + [RowOf(Masked(scores, bins, pending), Masked(labels, bins, pending), tolerance)], [],
                        minSamples, tolerance, end)
  {
    hide RowOf, Pick, Masked, Rows;
    PendingIsRange(labels, labels, bins, pending, cuts[|cuts| - 1], start, end);
    PendingIsRange(labels, scores, bins, pending, cuts[|cuts| - 1], start, end);
    RowsSnoc(scores, labels, bins, cuts, tolerance, end);
    PickSizes(scores, labels, bins, cuts[|cuts| - 1], end);
    RowCount(Masked(scores, bins, pending), Masked(labels, bins, pending), tolerance);
    PickNothing(labels, bins, end);
    RangeStarts(end);
  }

  /** The raw bins [lo, hi) hold enough samples for a bin of their own. */
  predicate Enough(labels: seq<real>, bins: seq<nat>, lo: nat, hi: nat, minSamples: int)
    requires |labels| == |bins|
  {
    |Pick(labels, bins, lo, hi)| >= minSamples && |Pick(labels, bins, lo, hi)| >= 1
  }

  ghost predicate TooFewUntil(labels: seq<real>, bins: seq<nat>, lo: nat, end: nat, minSamples: int)
    requires |labels| == |bins|
  {
    forall m | lo < m < end :: !Enough(labels, bins, lo, m, minSamples)
  }

  /** Up to raw bin `end`, every cut was made as soon as it could be, and there is
      no cut to make after the last one. */
  ghost predicate CutEarly(labels: seq<real>, bins: seq<nat>, cuts: seq<nat>, minSamples: int, end: nat)
    requires |labels| == |bins| && cuts != []
  {
    && (forall k | 0 <= k < |cuts| - 1 :: Enough(labels, bins, cuts[k], cuts[k + 1], minSamples))
    && (forall k | 0 <= k < |cuts| - 1 :: TooFewUntil(labels, bins, cuts[k], cuts[k + 1], minSamples))
    && TooFewUntil(labels, bins, cuts[|cuts| - 1], end + 1, minSamples)
  }

  lemma CutEarlyStep(labels: seq<real>, bins: seq<nat>, cuts: seq<nat>, minSamples: int, end: nat)
    requires |labels| == |bins| && cuts != [] && CutEarly(labels, bins, cuts, minSamples, end)
    ensures if Enough(labels, bins, cuts[|cuts| - 1], end + 1, minSamples)
            then CutEarly(labels, bins, cuts + [end + 1], minSamples, end + 1)
            else CutEarly(labels, bins, cuts, minSamples, end + 1)
  {
    hide Enough;
  }

  lemma NoMoreCuts(labels: seq<real>, bins: seq<nat>, lo: nat, cuts: seq<nat>, minSamples: int, end: nat, k: nat)
    requires |labels| == |bins| && k < |cuts| - 1 && Ascending(cuts) && cuts[|cuts| - 1] <= end
    requires CutEarly(labels, bins, cuts, minSamples, end) && TooFewUntil(labels, bins, lo, end + 1, minSamples)
    ensures cuts[k] != lo
  {
    hide Enough;
    assert Enough(labels, bins, cuts[k], cuts[k + 1], minSamples);
    assert cuts[k + 1] <= end;
  }

  /** The samples and the minimum leave no choice of cuts. */
  lemma {:induction false} EarlyCutsAgree(
    labels: seq<real>, bins: seq<nat>, a: seq<nat>, b: seq<nat>, minSamples: int, end: nat, k: nat)
    requires |labels| == |bins| && 0 < |a| <= |b| && Ascending(a) && Ascending(b) && a[0] == b[0]
    requires a[|a| - 1] <= end && b[|b| - 1] <= end && k <= |a|
    requires CutEarly(labels, bins, a, minSamples, end) && CutEarly(labels, bins, b, minSamples, end)
    ensures a[..k] == b[..k]
    ensures k == |a| ==> a == b
  {
    hide Enough;
    if k > 1 {
      EarlyCutsAgree(labels, bins, a, b, minSamples, end, k - 1);
      assert a[..k - 1][k - 2] == b[..k - 1][k - 2];
      assert a[k - 2 + 1] == a[k - 1] && b[k - 2 + 1] == b[k - 1];
      assert a[k - 1] == b[k - 1];
    }
    if k == |a| < |b| {
      NoMoreCuts(labels, bins, a[k - 1], b, minSamples, end, k - 1);
    }
  }

  lemma CutsBegin(labels: seq<real>, bins: seq<nat>, minSamples: int)
    requires |labels| == |bins|
    ensures CutEarly(labels, bins, [0], minSamples, 0)
  {}

  method MergeThinBins(
    scores: seq<real>, labels: seq<real>, edges: seq<real>, bins: seq<nat>, minSamples: int, tolerance: real)
    returns (kept: seq<real>, rows: seq<Row>, pending: seq<nat>, ghost cuts: seq<nat>, ghost start: nat)
    requires |scores| == |labels| == |bins| && |edges| >= 2
    ensures Merging(edges, scores, labels, bins, cuts, start, kept, rows, pending, minSamples, tolerance, |edges| - 1)
    ensures CutEarly(labels, bins, cuts, minSamples, |edges| - 1)
  {
    hide RowOf, Masked, Kept, Pick, CutEarly;
    kept, rows, pending := [edges[0]], [], [];
    cuts, start := [0], 0;
    CutsBegin(labels, bins, minSamples);
    MergingStarts(edges, scores, labels, bins, minSamples, tolerance);
    for index := 0 to |edges| - 1
      invariant start <= index && cuts != []
      invariant Merging(edges, scores, labels, bins, cuts, start, kept, rows, pending, minSamples, tolerance, index)
      invariant CutEarly(labels, bins, cuts, minSamples, index)
    {
      PendOneMore(edges, scores, labels, bins, cuts, start, kept, rows, pending, minSamples, tolerance, index);
      pending := pending + [index];
      var binLabels := Masked(labels, bins, pending);
      PendingIsRange(labels, labels, bins, pending, cuts[|cuts| - 1], start, index + 1);
      CutEarlyStep(labels, bins, cuts, minSamples, index);
      if |binLabels| < minSamples {
        continue;
      }
      if |binLabels| == 0 {
        DropEmpty(edges, scores, labels, bins, cuts, start, kept, rows, pending, minSamples, tolerance, index + 1);
        pending, start := [], index + 1;
        continue;
      }
      KeepPending(edges, scores, labels, bins, cuts, start, kept, rows, pending, minSamples, tolerance, index + 1);
      kept := kept + [edges[index + 1]];
      rows := rows + [RowOf(Masked(scores, bins, pending), binLabels, tolerance)];
      cuts := cuts + [index + 1];
      pending, start := [], index + 1;
    }
  }

  lemma {:induction false} PickNothing(xs: seq<real>, bins: seq<nat>, lo: nat)
    requires |xs| == |bins|
    ensures Pick(xs, bins, lo, lo) == []
  {
    if xs != [] {
      PickNothing(xs[1..], bins[1..], lo);
    }
  }

  /** The calibrator that the lists make. */
  function Calibrator(
    kept: seq<real>, rows: seq<Row>, tolerance: real, labelMin: real, labelMax: real,
    interpolate: bool): NumericCalibrator {
    NumericCalibrator(
      kept,
      seq(|rows|, k requires 0 <= k < |rows| => rows[k].center),
      seq(|rows|, k requires 0 <= k < |rows| => rows[k].value),
      seq(|rows|, k requires 0 <= k < |rows| => rows[k].coverage),
      RowCounts(rows), tolerance, labelMin, labelMax, interpolate)
  }

  /** The last bin with the leftover labels: its mean repeated stands in for its
      own labels. */
  function FoldedRow(row: Row, extra: seq<real>, tolerance: real): Row
    requires row.count >= 1
  {
    if extra == [] then row
    else
      var merged := extra + Flat(row.count, row.value);
      Row(row.center, Mean(merged), Coverage(merged, Mean(merged), tolerance), row.count + |extra|)
  }

  function Folded(rows: seq<Row>, extra: seq<real>, tolerance: real): seq<Row>
    requires rows != [] && rows[|rows| - 1].count >= 1
  {
    rows[|rows| - 1 := FoldedRow(rows[|rows| - 1], extra, tolerance)]
  }

  lemma FoldedCounts(rows: seq<Row>, extra: seq<real>, tolerance: real)
    requires rows != [] && rows[|rows| - 1].count >= 1
    ensures SumCounts(RowCounts(Folded(rows, extra, tolerance))) == SumCounts(RowCounts(rows)) + |extra|
  {
    var last := rows[|rows| - 1];
    var front := RowCounts(rows[..|rows| - 1]);
    CountsSnoc(front, last.count);
    CountsSnoc(front, FoldedRow(last, extra, tolerance).count);
    assert RowCounts(rows) == front + [last.count];
    assert RowCounts(Folded(rows, extra, tolerance)) == front + [FoldedRow(last, extra, tolerance).count];
  }

  /** What a row says of its raw bins. */
  lemma RowTells(
    edges: seq<real>, scores: seq<real>, labels: seq<real>, bins: seq<nat>, lo: nat, hi: nat, tolerance: real, row: Row)
    requires |edges| >= 2 && Increasing(edges) && RawBins(edges, scores, bins) && |labels| == |scores|
             && lo < hi < |edges|
    requires row == RowOf(Pick(scores, bins, lo, hi), Pick(labels, bins, lo, hi), tolerance) && row.count >= 1
    ensures Counted(labels, bins, lo, hi, row.value, row.count)
    ensures Covered(labels, bins, lo, hi, row.value, row.coverage, tolerance)
    ensures Centered(edges, lo, hi, row.center)
    ensures 0.0 <= row.coverage <= 1.0
  {
    MeanScoreIsCentered(edges, scores, bins, lo, hi);
    CoverageIsShare(Pick(labels, bins, lo, hi), row.value, tolerance);
  }

  lemma {:induction false} InsideAtMost(labels: seq<real>, value: real, tolerance: real)
    ensures Inside(labels, value, tolerance) <= |labels|
  {
    if labels != [] {
      InsideAtMost(labels[1..], value, tolerance);
    }
  }

  lemma CoverageIsShare(labels: seq<real>, value: real, tolerance: real)
    requires labels != []
    ensures 0.0 <= Coverage(labels, value, tolerance) <= 1.0
  {
    InsideAtMost(labels, value, tolerance);
    Quotient(Inside(labels, value, tolerance) as real, |labels| as real, 0.0);
    Quotient(Inside(labels, value, tolerance) as real, |labels| as real, 1.0);
  }

  predicate MeansOf(xs: seq<real>, value: real) { xs != [] && value == Mean(xs) }

  /** The last bin after the leftover merge: it counts and averages its own and
      the leftover labels. */
  lemma FoldedTells(
    edges: seq<real>, scores: seq<real>, labels: seq<real>, bins: seq<nat>, lo: nat, mid: nat, tolerance: real,
    row: Row)
    requires |edges| >= 2 && Increasing(edges) && RawBins(edges, scores, bins) && |labels| == |scores|
             && lo < mid <= |edges| - 1
    requires row == RowOf(Pick(scores, bins, lo, mid), Pick(labels, bins, lo, mid), tolerance) && row.count >= 1
    ensures var hi := |edges| - 1;
            var folded := FoldedRow(row, Pick(labels, bins, mid, hi), tolerance);
            && Counted(labels, bins, lo, hi, folded.value, folded.count)
            && Centered(edges, lo, hi, folded.center)
            && 0.0 <= folded.coverage <= 1.0
            && (Pick(labels, bins, mid, hi) == [] ==>
                  Covered(labels, bins, lo, hi, folded.value, folded.coverage, tolerance))
            && row.count == |Pick(labels, bins, lo, mid)| && MeansOf(Pick(labels, bins, lo, mid), row.value)
  {
    hide Mean, Coverage, RowOf, RawBin, Pick;
    var hi := |edges| - 1;
    var extra := Pick(labels, bins, mid, hi);
    RowTells(edges, scores, labels, bins, lo, mid, tolerance, row);
    PickSplits(labels, bins, lo, mid, hi);
    if extra == [] {
      PickDropsEmpty(labels, bins, lo, mid, hi);
    } else {
      MergedMean(labels, bins, lo, mid, hi);
      var merged := extra + Flat(row.count, row.value);
      CoverageIsShare(merged, Mean(merged), tolerance);
    }
  }

  /** The kept bins, the last one folded, make a consistent calibrator. */
  lemma FoldedIsConsistent(
    edges: seq<real>, scores: seq<real>, labels: seq<real>, bins: seq<nat>, cuts: seq<nat>,
    kept: seq<real>, rows: seq<Row>, minSamples: int, c: NumericCalibrator)
    requires |edges| >= 2 && Increasing(edges) && RawBins(edges, scores, bins) && |labels| == |scores| && c.Valid()
    requires Kept(edges, scores, labels, bins, cuts, kept, rows, minSamples, c.tolerance) && rows != []
    requires var extra := Pick(labels, bins, cuts[|cuts| - 1], |edges| - 1);
             c == Calibrator(kept[|kept| - 1 := edges[|edges| - 1]], Folded(rows, extra, c.tolerance),
                             c.tolerance, c.labelMin, c.labelMax, c.interpolate)
    ensures Consistent(c, scores, labels, minSamples)
    ensures AtLeast(c.coverages, 0.0) && AtMost(c.coverages, 1.0)
    ensures forall k | 0 <= k < |c.centers| - 1 :: HeldCoverage(c, scores, labels, k)
    ensures var extra := Pick(labels, bins, cuts[|cuts| - 1], |edges| - 1);
            if extra == [] then HeldCoverage(c, scores, labels, |c.centers| - 1)
            else |extra| < minSamples ==> FoldedCoverage(c, scores, labels, |c.centers| - 1, minSamples)
  {
    hide Mean, Coverage, RowOf, FoldedRow, Counted, Covered, Centered, Consistent, HeldCoverage, Rows, Pick, RawBin;
    var last, hi := |cuts| - 1, |edges| - 1;
    var cuts' := cuts[last := hi];
    var extra := Pick(labels, bins, cuts[last], hi);
    assert CutFrom(edges, cuts', c.edges);
    forall k | 0 <= k < |c.centers|
      ensures BinTells(edges, labels, bins, cuts', c, k, minSamples)
      ensures k < |c.centers| - 1 || extra == [] ==>
              Covered(labels, bins, cuts'[k], cuts'[k + 1], c.values[k], c.coverages[k], c.tolerance)
    {
      RowAt(scores, labels, bins, cuts, c.tolerance, k);
      assert cuts[k] < cuts[k + 1];
      if k < |c.centers| - 1 {
        RowTells(edges, scores, labels, bins, cuts[k], cuts[k + 1], c.tolerance, rows[k]);
      } else {
        FoldedTells(edges, scores, labels, bins, cuts[k], cuts[k + 1], c.tolerance, rows[k]);
        FoldedGrows(rows[k], extra, c.tolerance);
      }
    }
    assert SumCounts(c.counts) == |Pick(labels, bins, 0, hi)| by {
      RowCountsSum(scores, labels, bins, cuts, c.tolerance);
      FoldedCounts(rows, extra, c.tolerance);
      PickSplits(labels, bins, 0, cuts[last], hi);
    }
    FinishedIsConsistent(edges, scores, labels, bins, cuts', c, minSamples);
    forall k | 0 <= k < |c.centers| && (k < |c.centers| - 1 || extra == []) ensures HeldCoverage(c, scores, labels, k) {
      assert Covered(labels, bins, cuts'[k], cuts'[k + 1], c.values[k], c.coverages[k], c.tolerance);
    }
    if extra != [] && |extra| < minSamples {
      FoldedCovers(edges, scores, labels, bins, cuts, rows, minSamples, c, cuts');
    }
  }

  lemma FoldedCovers(
    edges: seq<real>, scores: seq<real>, labels: seq<real>, bins: seq<nat>, cuts: seq<nat>,
    rows: seq<Row>, minSamples: int, c: NumericCalibrator, cuts': seq<nat>)
    requires |edges| >= 2 && Increasing(edges) && RawBins(edges, scores, bins) && |labels| == |scores| && c.Valid()
    requires |cuts| >= 2 && Ascending(cuts) && cuts[|cuts| - 1] < |edges| && cuts' == cuts[|cuts| - 1 := |edges| - 1]
    requires CutFrom(edges, cuts', c.edges) && rows == Rows(scores, labels, bins, cuts, c.tolerance)
             && rows[|rows| - 1].count >= 1
    requires var extra := Pick(labels, bins, cuts[|cuts| - 1], |edges| - 1);
             && extra != [] && |extra| < minSamples && |c.centers| == |rows|
             && c.values[|rows| - 1] == FoldedRow(rows[|rows| - 1], extra, c.tolerance).value
             && c.coverages[|rows| - 1] == FoldedRow(rows[|rows| - 1], extra, c.tolerance).coverage
    ensures FoldedCoverage(c, scores, labels, |c.centers| - 1, minSamples)
  {
    hide Mean, Coverage, RowOf, Rows, Pick, RawBin;
    var k := |rows| - 1;
    var lo, mid, hi := cuts[k], cuts[k + 1], |edges| - 1;
    var own, extra := Pick(labels, bins, lo, mid), Pick(labels, bins, mid, hi);
    RowAt(scores, labels, bins, cuts, c.tolerance, k);
    FoldedTells(edges, scores, labels, bins, lo, mid, c.tolerance, rows[k]);
    HeldIsPick(edges, cuts', c, scores, labels, bins, k);
    PickParts(labels, bins, lo, mid, hi);
    assert SplitsHeld(own, extra, Held(c, scores, labels, k));
  }

  lemma FoldedGrows(row: Row, extra: seq<real>, tolerance: real)
    requires row.count >= 1
    ensures FoldedRow(row, extra, tolerance).count >= row.count
  {}

  /** One bin over everything. */
  lemma SingleIsConsistent(
    edges: seq<real>, scores: seq<real>, labels: seq<real>, bins: seq<nat>, minSamples: int, c: NumericCalibrator)
    requires |edges| >= 2 && Increasing(edges) && RawBins(edges, scores, bins) && |labels| == |scores| > 0 && c.Valid()
    requires c == Calibrator([edges[0], edges[|edges| - 1]], [RowOf(scores, labels, c.tolerance)],
                             c.tolerance, c.labelMin, c.labelMax, c.interpolate)
    ensures Consistent(c, scores, labels, minSamples)
    ensures AtLeast(c.coverages, 0.0) && AtMost(c.coverages, 1.0)
    ensures HeldCoverage(c, scores, labels, 0)
  {
    hide Mean, Coverage, Counted, Covered, Centered, Consistent, HeldCoverage;
    var hi := |edges| - 1;
    PickAll(scores, bins, hi);
    PickAll(labels, bins, hi);
    RowTells(edges, scores, labels, bins, 0, hi, c.tolerance, RowOf(scores, labels, c.tolerance));
    FinishedIsConsistent(edges, scores, labels, bins, [0, hi], c, minSamples);
  }

  ghost predicate QuantileEdges(q: seq<real>, scores: seq<real>)
    requires scores != []
  {
    q != [] && Increasing(q) && q[0] == Least(scores) && q[|q| - 1] == Greatest(scores)
  }

  /** The resolved tolerance: a share of the label range unless that is asked for
      as it is, or the range is degenerate. */
  function Width(labels: seq<real>, tolerance: real, absolute: bool): real
    requires labels != []
  {
    var span := Greatest(labels) - Least(labels);
    if absolute || span <= EPS then tolerance else tolerance * span
  }

  /** A label range is no reason for refusal, only the tolerance itself. */
  lemma NoWidthIff(labels: seq<real>, tolerance: real, absolute: bool)
    requires labels != []
    ensures Width(labels, tolerance, absolute) <= 0.0 <==> tolerance <= 0.0
  {
    var span := Greatest(labels) - Least(labels);
    if span > EPS {
      Signs(tolerance, span);
    }
  }

  lemma Signs(a: real, b: real)
    requires b > 0.0
    ensures a * b <= 0.0 <==> a <= 0.0
  {
    if a <= 0.0 {
      assert -a * b >= 0.0;
    }
  }

  /** As many bins as were asked for, as long as each can get its samples. */
  function BinsAllowed(samples: nat, numBins: int, minSamples: int): (n: nat)
    ensures n >= 1 && (n > 1 ==> n <= numBins)
  {
    var share := samples / (if minSamples > 1 then minSamples else 1);
    var fewest := if numBins < share then numBins else share;
    if fewest > 1 then fewest else 1
  }

  /** The number of quantile bins: the largest that was asked for and that gives
      every bin its minimum of samples, and one if there is none. */
  ghost predicate LargestAllowed(n: nat, samples: nat, numBins: int, minSamples: int) {
    var least := if minSamples > 1 then minSamples else 1;
    && n >= 1
    && (n > 1 ==> n <= numBins && n * least <= samples)
    && forall m: nat | n < m :: !(m <= numBins && m * least <= samples)
  }

  lemma BinsAllowedFit(samples: nat, numBins: int, minSamples: int)
    ensures LargestAllowed(BinsAllowed(samples, numBins, minSamples), samples, numBins, minSamples)
  {
    var n, least := BinsAllowed(samples, numBins, minSamples), if minSamples > 1 then minSamples else 1;
    ShareIsLargest(samples, least);
    forall m: nat | n < m ensures !(m <= numBins && m * least <= samples) {
      if m * least <= samples {
        assert m <= samples / least;
      }
    }
    assert n > 1 ==> n <= samples / least;
  }

  lemma ShareIsLargest(samples: nat, least: nat)
    requires least >= 1
    ensures forall m: nat :: m * least <= samples <==> m <= samples / least
  {
    forall m: nat ensures m * least <= samples <==> m <= samples / least {
      ShareOf(samples, least, m);
    }
  }

  lemma ShareOf(samples: nat, least: nat, m: nat)
    requires least >= 1
    ensures m * least <= samples <==> m <= samples / least
  {
    var q, r := samples / least, samples % least;
    assert samples == q * least + r && r < least;
    if m <= q {
      Scaled(m, q, least);
    } else {
      Scaled(q + 1, m, least);
      assert (q + 1) * least == q * least + least;
    }
  }

  lemma Scaled(a: nat, b: nat, c: nat)
    requires a <= b
    ensures a * c <= b * c
  {}

  /** Two numbers cannot both be the largest. */
  lemma LargestAllowedOnce(n: nat, m: nat, samples: nat, numBins: int, minSamples: int)
    requires LargestAllowed(n, samples, numBins, minSamples) && LargestAllowed(m, samples, numBins, minSamples)
    ensures n == m
  {}

  /** The quantile edges of that many bins, kept apart when all scores are equal. */
  ghost function EdgesOf(scores: seq<real>, quantiles: nat -> seq<real>, numBins: int, minSamples: int): seq<real>
    requires scores != []
  {
    var q := quantiles(BinsAllowed(|scores|, numBins, minSamples));
    if |q| >= 2 then q else [Least(scores), Least(scores) + EPS]
  }

  /** Neither setting the end edges nor the second check for a width changes the
      edges any more. */
  method FitEdges(
    scores: seq<real>, quantiles: nat -> seq<real>, numBins: int, minSamples: int) returns (edges: seq<real>)
    requires scores != [] && forall b: nat | b >= 1 :: QuantileEdges(quantiles(b), scores)
    ensures edges == EdgesOf(scores, quantiles, numBins, minSamples)
    ensures |edges| >= 2 && Increasing(edges) && edges[0] == Least(scores)
    ensures edges[|edges| - 1] == if Least(scores) == Greatest(scores) then Least(scores) + EPS else Greatest(scores)
  {
    edges := quantiles(BinsAllowed(|scores|, numBins, minSamples));
    if |edges| < 2 {
      edges := [edges[0], edges[0] + EPS];
    }
    edges := edges[0 := Least(scores)][|edges| - 1 := Greatest(scores)];
    if edges[|edges| - 1] <= edges[0] {
      edges := [edges[0], edges[0] + EPS];
    }
  }

  function RawBinsOf(edges: seq<real>, scores: seq<real>): (bins: seq<nat>)
    requires |edges| >= 2
    ensures RawBins(edges, scores, bins)
  {
    seq(|scores|, i requires 0 <= i < |scores| => RawBin(edges, scores[i]))
  }

  /** The earliest cuts give the fitted edges, the last one moved out to the end,
      and the centers are the mean scores of what was cut; without a cut there is
      one bin over everything. */
  ghost predicate CutInto(
    c: NumericCalibrator, edges: seq<real>, scores: seq<real>, labels: seq<real>, minSamples: int, cuts: seq<nat>)
    requires |edges| >= 2 && |scores| == |labels| > 0
  {
    var bins, last := RawBinsOf(edges, scores), |cuts| - 1;
    && last >= 0 && Ascending(cuts) && cuts[0] == 0 && cuts[last] < |edges|
    && CutEarly(labels, bins, cuts, minSamples, |edges| - 1)
    && if last == 0 then c.edges == [edges[0], edges[|edges| - 1]] && c.centers == [Mean(scores)]
       else
         && |c.edges| == |cuts| && |c.centers| == last && c.edges[last] == edges[|edges| - 1]
         && forall k | 0 <= k < last ::
              c.edges[k] == edges[cuts[k]] && MeansOf(Pick(scores, bins, cuts[k], cuts[k + 1]), c.centers[k])
  }

  ghost predicate EarliestBins(
    c: NumericCalibrator, edges: seq<real>, scores: seq<real>, labels: seq<real>, minSamples: int) {
    |edges| >= 2 && |scores| == |labels| > 0 && exists cuts :: CutInto(c, edges, scores, labels, minSamples, cuts)
  }

  /** What is promised of the edges and centers leaves one choice, for given edges. */
  lemma EarliestBinsAgree(
    c: NumericCalibrator, d: NumericCalibrator, edges: seq<real>, scores: seq<real>, labels: seq<real>, minSamples: int)
    requires EarliestBins(c, edges, scores, labels, minSamples) && EarliestBins(d, edges, scores, labels, minSamples)
    ensures c.edges == d.edges && c.centers == d.centers
  {
    hide CutEarly, Mean, Pick;
    var a :| CutInto(c, edges, scores, labels, minSamples, a);
    var b :| CutInto(d, edges, scores, labels, minSamples, b);
    if |a| <= |b| {
      EarlyCutsAgree(labels, RawBinsOf(edges, scores), a, b, minSamples, |edges| - 1, |a|);
    } else {
      EarlyCutsAgree(labels, RawBinsOf(edges, scores), b, a, minSamples, |edges| - 1, |b|);
    }
    assert a == b;
    if |a| > 1 {
      forall k | 0 <= k < |c.centers| ensures c.centers[k] == d.centers[k] && c.edges[k] == d.edges[k] {
        assert MeansOf(Pick(scores, RawBinsOf(edges, scores), a[k], a[k + 1]), c.centers[k]);
        assert MeansOf(Pick(scores, RawBinsOf(edges, scores), a[k], a[k + 1]), d.centers[k]);
      }
    }
  }

  /** The raw edges are the quantiles of the largest allowed number of bins, or those
      of one narrow bin when they all coincide. */
  ghost predicate CutFromQuantiles(
    c: NumericCalibrator, scores: seq<real>, labels: seq<real>, quantiles: nat -> seq<real>, numBins: int,
    minSamples: int)
    requires scores != []
  {
    exists n :: LargestAllowed(n, |scores|, numBins, minSamples)
                && var q := quantiles(n);
                   EarliestBins(c, if |q| >= 2 then q
                       else [Least(scores), Least(scores) + EPS], scores, labels, minSamples)
  }

  /** The raw bin holds enough scores. */
  predicate FullBin(edges: seq<real>, scores: seq<real>, k: nat, minSamples: int)
    requires |edges| >= 2
  {
    var own := |Pick(scores, RawBinsOf(edges, scores), k, k + 1)|;
    own >= 1 && own >= minSamples
  }

  /** When every raw bin holds the minimum, none is merged: the calibrator has the
      raw edges and exactly one bin for each. */
  lemma EveryRawBinKept(c: NumericCalibrator, edges: seq<real>, scores: seq<real>, labels: seq<real>, minSamples: int)
    requires EarliestBins(c, edges, scores, labels, minSamples)
    requires forall k | 0 <= k < |edges| - 1 :: FullBin(edges, scores, k, minSamples)
    ensures c.edges == edges && |c.centers| == |edges| - 1
  {
    hide Pick, Mean;
    var bins := RawBinsOf(edges, scores);
    var cuts :| CutInto(c, edges, scores, labels, minSamples, cuts);
    var every := seq(|edges|, k requires 0 <= k < |edges| => k);
    forall k | 0 <= k < |every| - 1 ensures Enough(labels, bins, every[k], every[k + 1], minSamples) {
      assert FullBin(edges, scores, k, minSamples);
      PickSizes(scores, labels, bins, k, k + 1);
    }
    if |cuts| <= |every| {
      EarlyCutsAgree(labels, bins, cuts, every, minSamples, |edges| - 1, |cuts|);
    } else {
      EarlyCutsAgree(labels, bins, every, cuts, minSamples, |edges| - 1, |every|);
    }
    assert cuts == every;
  }

  /** With the scores spread so evenly, a fit has exactly as many bins as were
      allowed. */
  lemma EvenQuantilesFillEveryBin(
    c: NumericCalibrator, scores: seq<real>, labels: seq<real>, quantiles: nat -> seq<real>, numBins: int,
    minSamples: int, n: nat)
    requires scores != [] && |scores| == |labels| && CutFromQuantiles(c, scores, labels, quantiles, numBins, minSamples)
    requires LargestAllowed(n, |scores|, numBins, minSamples) && |quantiles(n)| == n + 1
    requires forall k | 0 <= k < n :: FullBin(quantiles(n), scores, k, minSamples)
    ensures c.edges == quantiles(n) && |c.centers| == n
  {
    hide EarliestBins, LargestAllowed, FullBin;
    var m :| LargestAllowed(m, |scores|, numBins, minSamples)
             && var q := quantiles(m);
                EarliestBins(c, if |q| >= 2 then q
                    else [Least(scores), Least(scores) + EPS], scores, labels, minSamples);
    assert m == n by { LargestAllowedOnce(n, m, |scores|, numBins, minSamples); }
    assert n >= 1 by { AtLeastOne(n, |scores|, numBins, minSamples); }
    EveryRawBinKept(c, quantiles(n), scores, labels, minSamples);
  }

  lemma AtLeastOne(n: nat, samples: nat, numBins: int, minSamples: int)
    requires LargestAllowed(n, samples, numBins, minSamples)
    ensures n >= 1
  {}

  lemma KeptRowsCenter(
    edges: seq<real>, scores: seq<real>, labels: seq<real>, bins: seq<nat>, cuts: seq<nat>,
    kept: seq<real>, rows: seq<Row>, minSamples: int, tolerance: real)
    requires |labels| == |scores| == |bins|
             && Kept(edges, scores, labels, bins, cuts, kept, rows, minSamples, tolerance)
    ensures |rows| == |cuts| - 1
    ensures forall k | 0 <= k < |rows| :: MeansOf(Pick(scores, bins, cuts[k], cuts[k + 1]), rows[k].center)
  {
    hide Mean, Pick, Coverage;
    forall k | 0 <= k < |rows| ensures MeansOf(Pick(scores, bins, cuts[k], cuts[k + 1]), rows[k].center) {
      RowAt(scores, labels, bins, cuts, tolerance, k);
      PickSizes(scores, labels, bins, cuts[k], cuts[k + 1]);
    }
  }

  lemma SingleCut(
    c: NumericCalibrator, edges: seq<real>, scores: seq<real>, labels: seq<real>, minSamples: int, cuts: seq<nat>)
    requires |edges| >= 2 && |scores| == |labels| > 0 && cuts == [0]
    requires CutEarly(labels, RawBinsOf(edges, scores), cuts, minSamples, |edges| - 1)
    requires c.edges == [edges[0], edges[|edges| - 1]] && c.centers == [RowOf(scores, labels, c.tolerance).center]
    ensures CutInto(c, edges, scores, labels, minSamples, cuts)
  {
    hide Mean, CutEarly, Coverage;
  }

  lemma KeptCut(
    c: NumericCalibrator, edges: seq<real>, scores: seq<real>, labels: seq<real>, minSamples: int, cuts: seq<nat>,
    kept: seq<real>, rows: seq<Row>, extra: seq<real>)
    requires |edges| >= 2 && |scores| == |labels| > 0 && rows != [] && cuts != [] && cuts[|cuts| - 1] < |edges|
    requires Kept(edges, scores, labels, RawBinsOf(edges, scores), cuts, kept, rows, minSamples, c.tolerance)
    requires CutEarly(labels, RawBinsOf(edges, scores), cuts, minSamples, |edges| - 1)
    requires c == Calibrator(kept[|kept| - 1 := edges[|edges| - 1]], Folded(rows, extra, c.tolerance),
                             c.tolerance, c.labelMin, c.labelMax, c.interpolate)
    ensures CutInto(c, edges, scores, labels, minSamples, cuts)
  {
    hide Mean, Pick, CutEarly, RowOf, Rows, RawBinsOf, Coverage, Flat;
    KeptRowsCenter(edges, scores, labels, RawBinsOf(edges, scores), cuts, kept, rows, minSamples, c.tolerance);
    assert forall k | 0 <= k < |rows| :: c.centers[k] == rows[k].center;
  }

  lemma LeftoverIsThin(labels: seq<real>, bins: seq<nat>, cuts: seq<nat>, minSamples: int, end: nat)
    requires |labels| == |bins| && cuts != [] && CutEarly(labels, bins, cuts, minSamples, end)
             && cuts[|cuts| - 1] <= end
    ensures Pick(labels, bins, cuts[|cuts| - 1], end) == [] || |Pick(labels, bins, cuts[|cuts| - 1], end)| < minSamples
  {
    hide Pick;
    var last := cuts[|cuts| - 1];
    if last == end {
      PickNothing(labels, bins, end);
    } else {
      assert !Enough(labels, bins, last, end, minSamples);
    }
  }

  method FitBins(
    scores: seq<real>, labels: seq<real>, edges: seq<real>, minSamples: int, width: real, interpolate: bool)
    returns (c: NumericCalibrator)
    requires |scores| == |labels| > 0 && |edges| >= 2 && Increasing(edges) && width > 0.0
    ensures Consistent(c, scores, labels, minSamples) && CoveragesHold(c, scores, labels, minSamples)
    ensures EarliestBins(c, edges, scores, labels, minSamples)
    ensures c.tolerance == width && c.interpolate == interpolate
    ensures c.labelMin == Least(labels) && c.labelMax == Greatest(labels)
    ensures AtLeast(c.coverages, 0.0) && AtMost(c.coverages, 1.0)
  {
    hide Consistent, HeldCoverage, FoldedCoverage, Mean, CutEarly, RowOf, FoldedRow, RawBin, Pick, Masked, Least,
        Greatest, AtLeast, AtMost, Rows;
    var labelMin, labelMax := Least(labels), Greatest(labels);
    var bins := RawBinsOf(edges, scores);
    var kept, rows, pending;
    ghost var cuts, start;
    kept, rows, pending, cuts, start := MergeThinBins(scores, labels, edges, bins, minSamples, width);
    var extra := Masked(labels, bins, pending);
    if rows == [] {
      c := Calibrator([edges[0], edges[|edges| - 1]], [RowOf(scores, labels, width)], width, labelMin, labelMax,
          interpolate);
      SingleIsConsistent(edges, scores, labels, bins, minSamples, c);
      SingleCut(c, edges, scores, labels, minSamples, cuts);
    } else {
      PendingIsRange(labels, labels, bins, pending, cuts[|cuts| - 1], start, |edges| - 1);
      c := Calibrator(kept[|kept| - 1 := edges[|edges| - 1]], Folded(rows, extra, width), width, labelMin, labelMax,
          interpolate);
      FoldedIsConsistent(edges, scores, labels, bins, cuts, kept, rows, minSamples, c);
      LeftoverIsThin(labels, bins, cuts, minSamples, |edges| - 1);
      KeptCut(c, edges, scores, labels, minSamples, cuts, kept, rows, extra);
    }
  }

  function Refusal(
    scores: seq<real>, labels: seq<real>, numBins: int, tolerance: real, absolute: bool): Result<(), FitError> {
    if |scores| != |labels| then Err(LengthMismatch)
    else if |scores| == 0 then Err(NoSamples)
    else if numBins < 1 then Err(TooFewBins)
    else if Width(labels, tolerance, absolute) <= 0.0 then Err(NoWidth)
    else Ok(())
  }

  /** When a fit is refused, and why: a label range is never the reason. */
  lemma RefusalMeans(scores: seq<real>, labels: seq<real>, numBins: int, tolerance: real, absolute: bool)
    ensures var r := Refusal(scores, labels, numBins, tolerance, absolute);
            && (r == Err(LengthMismatch) <==> |scores| != |labels|)
            && (r == Err(NoSamples) <==> |scores| == |labels| == 0)
            && (r == Err(TooFewBins) <==> |scores| == |labels| > 0 && numBins < 1)
            && (r == Err(NoWidth) <==> |scores| == |labels| > 0 && numBins >= 1 && tolerance <= 0.0)
  {
    if labels != [] {
      NoWidthIff(labels, tolerance, absolute);
    }
    hide Width;
  }

  /** The tolerance as it was given, or as a share of the label range unless that is
      degenerate. */
  lemma WidthMeans(labels: seq<real>, tolerance: real, low: real, high: real)
    requires low in labels && high in labels && forall l | l in labels :: low <= l <= high
    ensures Width(labels, tolerance, true) == tolerance
    ensures Width(labels, tolerance, false) == if high - low <= 0.000000000001 then tolerance
            else tolerance * (high - low)
  {
    assert Least(labels) == low && Greatest(labels) == high;
  }

  /** Whatever the scores, the labels and the requested bins, a fit is refused for
      the stated reasons only, and otherwise every training sample is looked up in
      the bin that counted and averaged it. Coverage is exact but for a last bin
      that leftover samples were folded into, whose own labels then count as their
      mean. */
  method FitNumericBins(
    scores: seq<real>, labels: seq<real>, quantiles: nat -> seq<real>, numBins: int, minSamples: int,
    tolerance: real, toleranceAbsolute: bool, interpolate: bool)
    returns (r: Result<NumericCalibrator, FitError>)
    requires scores != [] ==> forall b: nat | b >= 1 :: QuantileEdges(quantiles(b), scores)
    ensures match Refusal(scores, labels, numBins, tolerance, toleranceAbsolute)
            case Err(error) => r == Err(error)
            case Ok(_) =>
              && r.Ok?
              && Consistent(r.value, scores, labels, minSamples)
              && CoveragesHold(r.value, scores, labels, minSamples)
              && EarliestBins(r.value, EdgesOf(scores, quantiles, numBins, minSamples), scores, labels, minSamples)
              && CutFromQuantiles(r.value, scores, labels, quantiles, numBins, minSamples)
              && r.value.tolerance == Width(labels, tolerance, toleranceAbsolute) && r.value.interpolate == interpolate
              && r.value.labelMin == Least(labels) && r.value.labelMax == Greatest(labels)
              && AtLeast(r.value.coverages, 0.0) && AtMost(r.value.coverages, 1.0)
  {
    if |scores| != |labels| {
      r := Err(LengthMismatch);
      return;
    }
    if |scores| == 0 {
      r := Err(NoSamples);
      return;
    }
    if numBins < 1 {
      r := Err(TooFewBins);
      return;
    }
    var width := Width(labels, tolerance, toleranceAbsolute);
    if width <= 0.0 {
      r := Err(NoWidth);
      return;
    }
    var edges := FitEdges(scores, quantiles, numBins, minSamples);
    hide Consistent, CoveragesHold, Least, Greatest;
    var c;
    c := FitBins(scores, labels, edges, minSamples, width, interpolate);
    BinsAllowedFit(|scores|, numBins, minSamples);
    r := Ok(c);
  }

  // ---- prediction with a fitted calibrator ----

  lemma {:induction false} HeldFrom(c: NumericCalibrator, scores: seq<real>, xs: seq<real>, k: nat)
    requires c.Valid() && |scores| == |xs|
    ensures forall x | x in Held(c, scores, xs, k) :: x in xs
    ensures forall i | 0 <= i < |xs| && BinIndex(c, scores[i]) == k :: xs[i] in Held(c, scores, xs, k)
  {
    if scores != [] {
      HeldFrom(c, scores[1..], xs[1..], k);
      forall i | 0 <= i < |xs| && BinIndex(c, scores[i]) == k ensures xs[i] in Held(c, scores, xs, k) {
        if i > 0 {
          assert xs[1..][i - 1] == xs[i] && scores[1..][i - 1] == scores[i];
        }
      }
    }
  }

  lemma FittedValuesWithin(c: NumericCalibrator, scores: seq<real>, labels: seq<real>, minSamples: int)
    requires Consistent(c, scores, labels, minSamples) && labels != []
    ensures AtLeast(c.values, Least(labels)) && AtMost(c.values, Greatest(labels))
  {
    forall k | 0 <= k < |c.values| ensures Least(labels) <= c.values[k] <= Greatest(labels) {
      assert HeldMean(c, scores, labels, k);
      HeldFrom(c, scores, labels, k);
      MeanWithin(Held(c, scores, labels, k), Least(labels), Greatest(labels));
    }
  }

  /** For any score at all, the clips of a fitted calibrator change nothing: the
      prediction is the interpolated or the bin's value, with the bin's coverage. */
  lemma ClipsChangeNothing(c: NumericCalibrator, scores: seq<real>, labels: seq<real>, minSamples: int, score: real)
    requires Consistent(c, scores, labels, minSamples) && labels != []
    requires c.labelMin == Least(labels) && c.labelMax == Greatest(labels)
    requires AtLeast(c.coverages, 0.0) && AtMost(c.coverages, 1.0)
    ensures NonDecreasing(c.centers)
    ensures var (value, probability) := Predict(c, score);
            && value == (if c.interpolate && |c.centers| > 1 then Interp(c.centers, c.values, score)
                  else c.values[BinIndex(c, score)])
            && Least(labels) <= value <= Greatest(labels)
            && probability == c.coverages[BinIndex(c, score)]
  {
    FittedValuesWithin(c, scores, labels, minSamples);
    InterpWithin(c.centers, c.values, score, Least(labels), Greatest(labels));
    assert c.values[BinIndex(c, score)] in c.values && c.coverages[BinIndex(c, score)] in c.coverages;
  }

  /** At a bin's center, and without interpolation everywhere in the bin, the
      prediction is the mean label of the training samples looked up there. */
  lemma PredictsTheMeanLabel(
    c: NumericCalibrator, scores: seq<real>, labels: seq<real>, minSamples: int, k: nat, score: real)
    requires Consistent(c, scores, labels, minSamples) && labels != [] && k < |c.centers|
    requires c.labelMin == Least(labels) && c.labelMax == Greatest(labels)
    requires AtLeast(c.coverages, 0.0) && AtMost(c.coverages, 1.0)
    requires if c.interpolate && |c.centers| > 1 then score == c.centers[k] else BinIndex(c, score) == k
    ensures NonDecreasing(c.centers) && Held(c, scores, labels, k) != []
    ensures Predict(c, score).0 == Mean(Held(c, scores, labels, k))
  {
    ClipsChangeNothing(c, scores, labels, minSamples, score);
    assert HeldMean(c, scores, labels, k);
    InterpAtKnot(c.centers, c.values, k);
  }
}
