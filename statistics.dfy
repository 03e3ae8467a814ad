/** Descriptive statistics of a sample of whole-day delays, as pandas'
    `describe(percentiles=[0.25, 0.5, 0.75])` and the group aggregations
    `count, median, mean, std, min, max, quantile` compute them on the
    non-null values: quantiles by linear interpolation, the sample
    (ddof = 1) standard deviation. Only the square root is left to the
    caller; everything else is exact rational arithmetic. */
module Statistics {
  import opened Options
  import Sorting

  /** The key that sorts integers in their natural order. */
  function IntKey(x: int): real {
    x as real
  }

  ghost predicate Sorted(s: seq<int>) {
    forall i, j :: 0 <= i < j < |s| ==> s[i] <= s[j]
  }

  /** The values of `xs` in non-decreasing order. */
  function SortInts(xs: seq<int>): (s: seq<int>)
    ensures multiset(s) == multiset(xs)
    ensures |s| == |xs|
    ensures Sorted(s)
  {
    var r := Sorting.SortBy(xs, IntKey);
    assert forall i, j :: 0 <= i < j < |r| ==> IntKey(r[i]) <= IntKey(r[j]);
    r
  }

  /** The `k/4` quantile of the sorted sample `s` with linear interpolation
      (pandas' default): the virtual index is `h = (n - 1) * k / 4`, and the
      value lies between `s[floor(h)]` and the element after it. */
  function Quantile(s: seq<int>, k: nat): (q: real)
    requires |s| > 0 && k <= 4
    ensures k == 0 ==> q == s[0] as real
    ensures k == 4 ==> q == s[|s| - 1] as real
  {
    var h := (|s| - 1) * k;
    assert h / 4 < |s| by {
      MulLeft(|s| - 1, k, 4);
    }
    Interpolate(s, h / 4, (h % 4) as real / 4.0)
  }

  /** The value a fraction `f` of the way from `s[lo]` to the element after
      it (just `s[lo]` at the last element). */
  function Interpolate(s: seq<int>, lo: nat, f: real): real
    requires lo < |s|
  {
    if lo + 1 < |s| then s[lo] as real + f * (s[lo + 1] - s[lo]) as real
    else s[lo] as real
  }

  /** In a sorted sample, interpolating at a fraction in `[0, 1]` stays
      between `s[lo]` and the next element. */
  lemma InterpolateBetween(s: seq<int>, lo: nat, f: real)
    requires lo < |s| && Sorted(s) && 0.0 <= f <= 1.0
    ensures s[lo] as real <= Interpolate(s, lo, f)
    ensures lo + 1 < |s| ==> Interpolate(s, lo, f) <= s[lo + 1] as real
    ensures lo + 1 >= |s| ==> Interpolate(s, lo, f) == s[lo] as real
  {
    if lo + 1 < |s| {
      assert s[lo] <= s[lo + 1];
      var d := (s[lo + 1] - s[lo]) as real;
      assert d == s[lo + 1] as real - s[lo] as real;
      ScaleBetween(f, d);
    }
  }

  /** In a sorted sample, interpolation from one index is monotone in the
      fraction. */
  lemma InterpolateMonotone(s: seq<int>, lo: nat, f1: real, f2: real)
    requires lo < |s| && Sorted(s) && f1 <= f2
    ensures Interpolate(s, lo, f1) <= Interpolate(s, lo, f2)
  {
    if lo + 1 < |s| {
      assert s[lo] <= s[lo + 1];
      ScaleMonotone(f1, f2, (s[lo + 1] - s[lo]) as real);
    }
  }

  /** The pieces of `Quantile(s, k)`: the lower index and the
      interpolation fraction. */
  lemma QuantileParts(s: seq<int>, k: nat) returns (lo: nat, f: real)
    requires |s| > 0 && k <= 4
    ensures lo == (|s| - 1) * k / 4 && lo < |s|
    ensures f == ((|s| - 1) * k % 4) as real / 4.0 && 0.0 <= f <= 1.0
    ensures Quantile(s, k) == Interpolate(s, lo, f)
  {
    var h := (|s| - 1) * k;
    MulLeft(|s| - 1, k, 4);
    lo := h / 4;
    f := (h % 4) as real / 4.0;
  }

  /** Every quantile lies between the smallest and the largest value. */
  lemma QuantileBounds(s: seq<int>, k: nat)
    requires |s| > 0 && k <= 4 && Sorted(s)
    ensures s[0] as real <= Quantile(s, k) <= s[|s| - 1] as real
  {
    var lo, f := QuantileParts(s, k);
    InterpolateBetween(s, lo, f);
    assert s[0] <= s[lo];
    if lo + 1 < |s| {
      assert s[lo + 1] <= s[|s| - 1];
    }
  }

  /** Quantiles are monotone in the quantile level; in particular the
      interquartile range `Q(3/4) - Q(1/4)` is never negative. */
  lemma QuantileMonotone(s: seq<int>, k1: nat, k2: nat)
    requires |s| > 0 && k1 <= k2 <= 4 && Sorted(s)
    ensures Quantile(s, k1) <= Quantile(s, k2)
  {
    MulLeft(|s| - 1, k1, k2);
    var lo1, f1 := QuantileParts(s, k1);
    var lo2, f2 := QuantileParts(s, k2);
    if lo1 == lo2 {
      InterpolateMonotone(s, lo1, f1, f2);
    } else {
      InterpolateBetween(s, lo1, f1);
      InterpolateBetween(s, lo2, f2);
      assert s[lo1 + 1] <= s[lo2];
    }
  }

  lemma MulLeft(c: int, a: int, b: int)
    requires c >= 0 && a <= b
    ensures c * a <= c * b
  {
    assert c * b - c * a == c * (b - a);
  }

  lemma ScaleBetween(f: real, d: real)
    requires 0.0 <= f <= 1.0 && d >= 0.0
    ensures 0.0 <= f * d <= d
  {
    assert d - f * d == (1.0 - f) * d;
  }

  lemma ScaleMonotone(f1: real, f2: real, d: real)
    requires f1 <= f2 && d >= 0.0
    ensures f1 * d <= f2 * d
  {
    assert f2 * d - f1 * d == (f2 - f1) * d;
  }

  /** The median (`Q(1/2)`) agrees with the textbook definition: the middle
      element of an odd-sized sample, the mean of the two middle elements of
      an even-sized one. */
  lemma MedianIsMiddle(s: seq<int>)
    requires |s| > 0
    ensures |s| % 2 == 1 ==> Quantile(s, 2) == s[|s| / 2] as real
    ensures |s| % 2 == 0 ==> Quantile(s, 2) == (s[|s| / 2 - 1] + s[|s| / 2]) as real / 2.0
  {
    var n := |s|;
    var m := n / 2;
    if n % 2 == 1 {
      assert n == 2 * m + 1;
      assert (n - 1) * 2 == 4 * m;
      assert (n - 1) * 2 / 4 == m;
      assert (n - 1) * 2 % 4 == 0;
    } else {
      assert n == 2 * m && m >= 1;
      assert (n - 1) * 2 == 4 * (m - 1) + 2;
      assert (n - 1) * 2 / 4 == m - 1;
      assert (n - 1) * 2 % 4 == 2;
    }
  }

  function Sum(xs: seq<int>): int {
    if xs == [] then 0 else Sum(xs[..|xs| - 1]) + xs[|xs| - 1]
  }

  /** Sum of squared deviations of `xs` from `m`. */
  function SquaredDeviations(xs: seq<int>, m: real): (r: real)
    ensures r >= 0.0
  {
    if xs == [] then 0.0
    else
      var d := xs[|xs| - 1] as real - m;
      assert d * d >= 0.0;
      SquaredDeviations(xs[..|xs| - 1], m) + d * d
  }

  function Mean(xs: seq<int>): real
    requires |xs| > 0
  {
    Sum(xs) as real / |xs| as real
  }

  /** The sample (ddof = 1) variance, defined from two values on. */
  function SampleVariance(xs: seq<int>): (v: real)
    requires |xs| >= 2
    ensures v >= 0.0
  {
    SquaredDeviations(xs, Mean(xs)) / (|xs| - 1) as real
  }

  /** Bounds on every element bound the sum. */
  lemma {:induction false} SumBounds(xs: seq<int>, lo: int, hi: int)
    requires forall i :: 0 <= i < |xs| ==> lo <= xs[i] <= hi
    ensures |xs| * lo <= Sum(xs) <= |xs| * hi
  {
    if xs != [] {
      SumBounds(xs[..|xs| - 1], lo, hi);
    }
  }

  /** `v` is a value of `xs` and no value is smaller. */
  ghost predicate IsMinimum(xs: seq<int>, v: real) {
    (exists i :: 0 <= i < |xs| && xs[i] as real == v) && forall i :: 0 <= i < |xs| ==> v <= xs[i] as real
  }

  /** `v` is a value of `xs` and no value is larger. */
  ghost predicate IsMaximum(xs: seq<int>, v: real) {
    (exists i :: 0 <= i < |xs| && xs[i] as real == v) && forall i :: 0 <= i < |xs| ==> xs[i] as real <= v
  }

  /** What `describe` reports; absent fields are pandas' NaN. */
  datatype Summary = Summary(
    count: nat,
    mean: Option<real>,
    median: Option<real>,
    std: Option<real>,
    min: Option<real>,
    max: Option<real>,
    q25: Option<real>,
    q75: Option<real>)
  {
    /** `75% - 25%`, NaN (absent) when the sample is empty. */
    function Iqr(): Option<real> {
      if q25.Some? && q75.Some? then Some(q75.value - q25.value) else None
    }
  }

  /** The smallest and largest values of the sorted sample are the sample's
      minimum and maximum. */
  lemma SortedEnds(xs: seq<int>)
    requires |xs| > 0
    ensures IsMinimum(xs, SortInts(xs)[0] as real)
    ensures IsMaximum(xs, SortInts(xs)[|xs| - 1] as real)
  {
    var s := SortInts(xs);
    var n := |xs|;
    assert s[0] in multiset(xs) && s[n - 1] in multiset(xs);
    assert s[0] in xs && s[n - 1] in xs;
    forall i | 0 <= i < n ensures s[0] <= xs[i] <= s[n - 1] {
      assert xs[i] in multiset(s);
      assert xs[i] in s;
      var j :| 0 <= j < n && s[j] == xs[i];
      assert s[0] <= s[j] <= s[n - 1];
    }
  }

  /** The statistics of the non-null sample `xs`; `sqrt` is the square root
      of the runtime, applied to the sample variance. */
  function Describe(xs: seq<int>, sqrt: real -> real): (d: Summary)
    ensures d.count == |xs|
    ensures d.mean.Some? <==> |xs| > 0
    ensures d.median.Some? <==> |xs| > 0
    ensures d.min.Some? <==> |xs| > 0
    ensures d.max.Some? <==> |xs| > 0
    ensures d.Iqr().Some? <==> |xs| > 0
    ensures d.std.Some? <==> |xs| >= 2
    ensures |xs| >= 2 ==> d.std == Some(sqrt(SampleVariance(xs)))
    ensures |xs| > 0 ==>
      && d.mean == Some(Mean(xs))
      && d.median == Some(Quantile(SortInts(xs), 2))
      && d.q25 == Some(Quantile(SortInts(xs), 1))
      && d.q75 == Some(Quantile(SortInts(xs), 3))
    ensures |xs| > 0 ==>
      && IsMinimum(xs, d.min.value)
      && IsMaximum(xs, d.max.value)
      && d.min.value <= d.median.value <= d.max.value
      && d.min.value <= d.mean.value <= d.max.value
      && d.Iqr().value >= 0.0
  {
    if xs == [] then
      Summary(0, None, None, None, None, None, None, None)
    else
      var s := SortInts(xs);
      var n := |xs|;
      SortedEnds(xs);
      QuantileBounds(s, 2);
      QuantileMonotone(s, 1, 3);
      SumBounds(xs, s[0], s[n - 1]);
      assert s[0] as real <= Mean(xs) <= s[n - 1] as real by {
        MeanBounds(xs, s[0], s[n - 1]);
      }
      Summary(
        n,
        Some(Mean(xs)),
        Some(Quantile(s, 2)),
        if n >= 2 then Some(sqrt(SampleVariance(xs))) else None,
        Some(s[0] as real),
        Some(s[n - 1] as real),
        Some(Quantile(s, 1)),
        Some(Quantile(s, 3)))
  }

  lemma MeanBounds(xs: seq<int>, lo: int, hi: int)
    requires |xs| > 0
    requires |xs| * lo <= Sum(xs) <= |xs| * hi
    ensures lo as real <= Mean(xs) <= hi as real
  {
    var n := |xs| as real;
    var total := Sum(xs) as real;
    CastProduct(|xs|, lo);
    CastProduct(|xs|, hi);
    DivBounds(total, lo as real, hi as real, n);
  }

  lemma CastProduct(a: int, b: int)
    ensures (a * b) as real == a as real * b as real
  {
  }

  lemma DivBounds(a: real, lo: real, hi: real, n: real)
    requires n > 0.0 && n * lo <= a <= n * hi
    ensures lo <= a / n <= hi
  {
    var q := a / n;
    assert q * n == a;
    assert (q - lo) * n == a - n * lo;
    assert (hi - q) * n == n * hi - a;
    SignOfProduct(q - lo, n);
    SignOfProduct(hi - q, n);
  }

  lemma SignOfProduct(x: real, n: real)
    requires n > 0.0 && x * n >= 0.0
    ensures x >= 0.0
  {
  }

  /** A single value is its own median, and has no sample deviation. */
  lemma DescribeSingle(v: int, sqrt: real -> real)
    ensures Describe([v], sqrt).median == Some(v as real)
    ensures Describe([v], sqrt).std == None
  {
    assert SortInts([v]) == [v] by {
      assert multiset(SortInts([v])) == multiset{v};
      assert SortInts([v])[0] in multiset(SortInts([v]));
    }
  }
}
