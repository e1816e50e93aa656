// The latency statistics over exact reals: sorting, moments, percentiles and jitter as
// functions of the samples, and the laws they obey.
module LatencyStats {

  // Rounding half away from zero.
  function Round(x: real): int {
    if 0.0 <= x then (x + 0.5).Floor else -((-x + 0.5).Floor)
  }

  // To two decimal places.
  function Hundredths(x: real): real {
    Round(x * 100.0) as real / 100.0
  }

  // ---------- sorting ----------

  ghost predicate Sorted(s: seq<real>) {
    forall i, j :: 0 <= i < j < |s| ==> s[i] <= s[j]
  }

  function InsertInto(s: seq<real>, x: real): seq<real> {
    if s == [] || s[|s| - 1] <= x then s + [x]
    else InsertInto(s[..|s| - 1], x) + [s[|s| - 1]]
  }

  // The sorted arrangement of the samples, whatever algorithm finds it.
  function Sort(s: seq<real>): seq<real> {
    if s == [] then [] else InsertInto(Sort(s[..|s| - 1]), s[|s| - 1])
  }

  lemma MultisetFront(s: seq<real>)
    requires s != []
    ensures multiset(s) == multiset(s[..|s| - 1]) + multiset{s[|s| - 1]}
  {
    assert s == s[..|s| - 1] + [s[|s| - 1]];
  }

  lemma {:induction false} InsertKeepsSamples(s: seq<real>, x: real)
    ensures multiset(InsertInto(s, x)) == multiset(s) + multiset{x}
    ensures |InsertInto(s, x)| == |s| + 1
    decreases |s|
  {
    if s != [] && s[|s| - 1] > x {
      InsertKeepsSamples(s[..|s| - 1], x);
      MultisetFront(s);
    }
  }

  lemma {:induction false} InsertStaysBelow(s: seq<real>, x: real, hi: real)
    requires x <= hi && forall i :: 0 <= i < |s| ==> s[i] <= hi
    ensures forall i :: 0 <= i < |InsertInto(s, x)| ==> InsertInto(s, x)[i] <= hi
    decreases |s|
  {
    if s != [] && s[|s| - 1] > x {
      InsertStaysBelow(s[..|s| - 1], x, hi);
    }
  }

  lemma {:induction false} InsertSorts(s: seq<real>, x: real)
    requires Sorted(s)
    ensures Sorted(InsertInto(s, x))
    decreases |s|
  {
    if s != [] && s[|s| - 1] > x {
      InsertSorts(s[..|s| - 1], x);
      InsertStaysBelow(s[..|s| - 1], x, s[|s| - 1]);
    }
  }

  lemma {:induction false} SortSorts(s: seq<real>)
    ensures Sorted(Sort(s)) && multiset(Sort(s)) == multiset(s) && |Sort(s)| == |s|
    decreases |s|
  {
    if s != [] {
      SortSorts(s[..|s| - 1]);
      InsertSorts(Sort(s[..|s| - 1]), s[|s| - 1]);
      InsertKeepsSamples(Sort(s[..|s| - 1]), s[|s| - 1]);
      MultisetFront(s);
    }
  }

  lemma LastIsLargest(s: seq<real>, x: real)
    requires Sorted(s) && s != [] && x in multiset(s)
    ensures x <= s[|s| - 1]
  {
    var i :| 0 <= i < |s| && s[i] == x;
  }

  lemma SameRest<T>(a: multiset<T>, b: multiset<T>, x: T)
    requires a + multiset{x} == b + multiset{x}
    ensures a == b
  {
    assert (a + multiset{x}) - multiset{x} == a && (b + multiset{x}) - multiset{x} == b;
  }

  lemma LargestFirst(a: seq<real>, b: seq<real>)
    requires Sorted(a) && Sorted(b) && multiset(a) == multiset(b) && a != [] && b != []
    ensures a[|a| - 1] == b[|b| - 1]
  {
    assert a[|a| - 1] in multiset(a) && b[|b| - 1] in multiset(b);
    LastIsLargest(a, b[|b| - 1]);
    LastIsLargest(b, a[|a| - 1]);
  }

  // A multiset of samples has one sorted arrangement.
  lemma {:induction false} SortedIsUnique(a: seq<real>, b: seq<real>)
    requires Sorted(a) && Sorted(b) && multiset(a) == multiset(b)
    ensures a == b
    decreases |a|
  {
    assert |a| == |multiset(a)| == |multiset(b)| == |b|;
    if a != [] {
      var n := |a| - 1;
      LargestFirst(a, b);
      MultisetFront(a);
      MultisetFront(b);
      SameRest(multiset(a[..n]), multiset(b[..n]), a[n]);
      SortedIsUnique(a[..n], b[..n]);
      assert a == a[..n] + [a[n]] && b == b[..n] + [b[n]];
    }
  }

  lemma SortIgnoresOrder(a: seq<real>, b: seq<real>)
    requires multiset(a) == multiset(b)
    ensures Sort(a) == Sort(b)
  {
    SortSorts(a);
    SortSorts(b);
    SortedIsUnique(Sort(a), Sort(b));
  }

  // ---------- products of reals ----------

  lemma ProductNonnegative(a: real, b: real)
    requires 0.0 <= a && 0.0 <= b
    ensures 0.0 <= a * b
  {
  }

  lemma ProductPositive(a: real, b: real)
    requires 0.0 < a && 0.0 < b
    ensures 0.0 < a * b
  {
  }

  lemma CancelFactor(a: real, b: real, n: real)
    requires 0.0 < n && a * n <= b * n
    ensures a <= b
  {
    if a > b {
      ProductPositive(a - b, n);
    }
  }

  lemma QuotientTimes(a: real, n: real)
    requires 0.0 < n
    ensures a / n * n == a
  {
  }

  // ---------- sums ----------

  function Sum(s: seq<real>): real {
    if s == [] then 0.0 else Sum(s[..|s| - 1]) + s[|s| - 1]
  }

  function Square(x: real): real { x * x }

  lemma SquareOfPositive(x: real)
    requires 0.0 < x
    ensures 0.0 < Square(x)
  {
    var half := x / 2.0;
    ProductPositive(x, half);
    assert Square(x) == 2.0 * (x * half);
  }

  lemma SquarePositive(x: real)
    requires x != 0.0
    ensures 0.0 < Square(x)
  {
    SquareOfPositive(Abs(x));
    assert Square(x) == Square(-x);
  }

  function Squares(s: seq<real>, centre: real): real {
    if s == [] then 0.0 else Squares(s[..|s| - 1], centre) + Square(s[|s| - 1] - centre)
  }

  function Mean(s: seq<real>): real
    requires s != []
  {
    Sum(s) / |s| as real
  }

  function Variance(s: seq<real>): real
    requires s != []
  {
    Squares(s, Mean(s)) / |s| as real
  }

  function Abs(x: real): (r: real)
    ensures 0.0 <= r && (r == x || r == -x)
  {
    if x < 0.0 then -x else x
  }

  // The sum of absolute differences of neighbours.
  function Variation(s: seq<real>): real {
    if |s| < 2 then 0.0 else Variation(s[..|s| - 1]) + Abs(s[|s| - 1] - s[|s| - 2])
  }

  lemma {:induction false} SumBounds(s: seq<real>, lo: real, hi: real)
    requires forall i :: 0 <= i < |s| ==> lo <= s[i] <= hi
    ensures |s| as real * lo <= Sum(s) <= |s| as real * hi
    decreases |s|
  {
    if s != [] {
      SumBounds(s[..|s| - 1], lo, hi);
      assert |s| as real * lo == (|s| - 1) as real * lo + lo;
      assert |s| as real * hi == (|s| - 1) as real * hi + hi;
    }
  }

  lemma MeanTimes(s: seq<real>)
    requires s != []
    ensures Mean(s) * |s| as real == Sum(s)
  {
  }

  lemma MeanBetween(s: seq<real>, lo: real, hi: real)
    requires s != [] && forall i :: 0 <= i < |s| ==> lo <= s[i] <= hi
    ensures lo <= Mean(s) <= hi
  {
    SumBounds(s, lo, hi);
    MeanTimes(s);
    CancelFactor(lo, Mean(s), |s| as real);
    CancelFactor(Mean(s), hi, |s| as real);
  }

  // ---------- the variance bound ----------

  function Gap(x: real, lo: real, hi: real): real { (hi - x) * (x - lo) }

  function Gaps(s: seq<real>, lo: real, hi: real): real {
    if s == [] then 0.0 else Gaps(s[..|s| - 1], lo, hi) + Gap(s[|s| - 1], lo, hi)
  }

  lemma GapNonnegative(x: real, lo: real, hi: real)
    requires lo <= x <= hi
    ensures 0.0 <= Gap(x, lo, hi)
  {
    ProductNonnegative(hi - x, x - lo);
  }

  lemma {:induction false} GapsNonnegative(s: seq<real>, lo: real, hi: real)
    requires forall i :: 0 <= i < |s| ==> lo <= s[i] <= hi
    ensures 0.0 <= Gaps(s, lo, hi)
    decreases |s|
  {
    if s != [] {
      GapsNonnegative(s[..|s| - 1], lo, hi);
      GapNonnegative(s[|s| - 1], lo, hi);
    }
  }

  // What squares about a centre and gaps to the ends add up to.
  function Cross(centre: real, lo: real, hi: real, sum: real, n: real): real {
    (hi + lo - 2.0 * centre) * sum + n * (centre * centre - hi * lo)
  }

  lemma CrossStep(centre: real, lo: real, hi: real, sum: real, n: real, x: real)
    ensures Cross(centre, lo, hi, sum + x, n + 1.0) ==
            Cross(centre, lo, hi, sum, n) + (Square(x - centre) + Gap(x, lo, hi))
  {
    var k, c := hi + lo - 2.0 * centre, centre * centre - hi * lo;
    assert k * (sum + x) == k * sum + k * x;
    assert (n + 1.0) * c == n * c + c;
    assert Square(x - centre) + Gap(x, lo, hi) == k * x + c;
  }

  lemma {:induction false} SquaresPlusGaps(s: seq<real>, centre: real, lo: real, hi: real)
    ensures Squares(s, centre) + Gaps(s, lo, hi) == Cross(centre, lo, hi, Sum(s), |s| as real)
    decreases |s|
  {
    if s != [] {
      SquaresPlusGaps(s[..|s| - 1], centre, lo, hi);
      CrossStep(centre, lo, hi, Sum(s[..|s| - 1]), (|s| - 1) as real, s[|s| - 1]);
    }
  }

  lemma CrossAtTheMean(m: real, lo: real, hi: real, sum: real, n: real)
    requires m * n == sum
    ensures Cross(m, lo, hi, sum, n) == Gap(m, lo, hi) * n
  {
    assert (hi + lo - 2.0 * m) * (m * n) == ((hi + lo - 2.0 * m) * m) * n;
  }

  lemma QuotientBound(sq: real, gaps: real, n: real, b: real)
    requires 0.0 < n && 0.0 <= gaps && sq + gaps == b * n
    ensures sq / n <= b
  {
    QuotientTimes(sq, n);
    CancelFactor(sq / n, b, n);
  }

  lemma VarianceBoundAbout(s: seq<real>, m: real, lo: real, hi: real)
    requires s != [] && forall i :: 0 <= i < |s| ==> lo <= s[i] <= hi
    requires m * |s| as real == Sum(s)
    ensures Squares(s, m) / |s| as real <= Gap(m, lo, hi)
  {
    hide *;
    GapsNonnegative(s, lo, hi);
    SquaresPlusGaps(s, m, lo, hi);
    CrossAtTheMean(m, lo, hi, Sum(s), |s| as real);
    QuotientBound(Squares(s, m), Gaps(s, lo, hi), |s| as real, Gap(m, lo, hi));
  }

  // The variance is at most (max - mean)(mean - min).
  lemma VarianceBound(s: seq<real>, lo: real, hi: real)
    requires s != [] && forall i :: 0 <= i < |s| ==> lo <= s[i] <= hi
    ensures Variance(s) <= (hi - Mean(s)) * (Mean(s) - lo)
  {
    MeanTimes(s);
    VarianceBoundAbout(s, Mean(s), lo, hi);
  }

  lemma {:induction false} SquaresZero(s: seq<real>, centre: real)
    ensures 0.0 <= Squares(s, centre)
    ensures Squares(s, centre) == 0.0 <==> forall i :: 0 <= i < |s| ==> s[i] == centre
    decreases |s|
  {
    if s != [] {
      SquaresZero(s[..|s| - 1], centre);
      if s[|s| - 1] != centre {
        SquarePositive(s[|s| - 1] - centre);
      } else {
        assert Square(0.0) == 0.0;
      }
      assert forall i :: 0 <= i < |s| - 1 ==> s[..|s| - 1][i] == s[i];
    }
  }

  // The variance is never negative, and zero exactly when all samples are equal.
  lemma VarianceZeroIffConstant(s: seq<real>)
    requires s != []
    ensures 0.0 <= Variance(s)
    ensures Variance(s) == 0.0 <==> forall i, j :: 0 <= i < j < |s| ==> s[i] == s[j]
  {
    var n, m := |s| as real, Mean(s);
    SquaresZero(s, m);
    QuotientTimes(Squares(s, m), n);
    if forall i, j :: 0 <= i < j < |s| ==> s[i] == s[j] {
      assert forall i :: 0 <= i < |s| ==> s[i] == s[0];
      MeanBetween(s, s[0], s[0]);
    }
  }

  // ---------- jitter ----------

  lemma {:induction false} SortedVariation(s: seq<real>)
    requires Sorted(s) && s != []
    ensures Variation(s) == s[|s| - 1] - s[0]
    decreases |s|
  {
    if |s| >= 2 {
      SortedVariation(s[..|s| - 1]);
    }
  }

  lemma {:induction false} VariationSpans(s: seq<real>, i: nat, j: nat)
    requires i <= j < |s|
    ensures Abs(s[j] - s[i]) <= Variation(s)
    decreases |s|
  {
    if |s| >= 2 {
      var front := s[..|s| - 1];
      if j < |s| - 1 {
        VariationSpans(front, i, j);
      } else if i < j {
        VariationSpans(front, i, |s| - 2);
      } else {
        VariationSpans(front, 0, 0);
      }
    }
  }

  lemma SameElements(s: seq<real>, t: seq<real>, k: nat) returns (i: nat)
    requires multiset(s) == multiset(t) && k < |t|
    ensures i < |s| && s[i] == t[k]
  {
    assert t[k] in multiset(s);
    i :| i < |s| && s[i] == t[k];
  }

  // Sorting first gives the least variation of any order: jitter over sorted samples
  // never exceeds jitter over the samples as they arrived.
  lemma SortingMinimisesVariation(s: seq<real>)
    ensures Variation(Sort(s)) <= Variation(s)
  {
    var t := Sort(s);
    SortSorts(s);
    if t != [] {
      SortedVariation(t);
      var i := SameElements(s, t, 0);
      var j := SameElements(s, t, |t| - 1);
      VariationSpans(s, if i <= j then i else j, if i <= j then j else i);
    }
  }

  // A walk through the samples that touches four of them in order.
  lemma {:induction false} VariationVisits(s: seq<real>, i: nat, j: nat, k: nat, l: nat)
    requires i <= j <= k <= l < |s|
    ensures Abs(s[j] - s[i]) + Abs(s[k] - s[j]) + Abs(s[l] - s[k]) <= Variation(s)
    decreases |s|
  {
    if |s| >= 2 {
      var n := |s| - 1;
      var front := s[..n];
      if l < n {
        VariationVisits(front, i, j, k, l);
      } else if k < n {
        VariationVisits(front, i, j, k, n - 1);
      } else if j < n {
        VariationVisits(front, i, j, n - 1, n - 1);
      } else if i < n {
        VariationVisits(front, i, n - 1, n - 1, n - 1);
      } else {
        VariationVisits(front, 0, 0, 0, 0);
      }
    }
  }

  ghost predicate Descending(s: seq<real>) {
    forall i, j :: 0 <= i < j < |s| ==> s[i] >= s[j]
  }

  lemma {:induction false} DescendingVariation(s: seq<real>)
    requires Descending(s) && s != []
    ensures Variation(s) == s[0] - s[|s| - 1]
    decreases |s|
  {
    if |s| >= 2 {
      DescendingVariation(s[..|s| - 1]);
    }
  }

  // No step down on the way from the least sample to the largest.
  lemma NoWayBack(s: seq<real>, i: nat, j: nat, a: nat, b: nat)
    requires i <= j < |s| && a < b < |s| && Variation(s) <= s[j] - s[i]
    requires forall k :: 0 <= k < |s| ==> s[i] <= s[k] <= s[j]
    ensures s[a] <= s[b]
  {
    if a < i {
      VariationVisits(s, a, i, j, j);
    } else if j < b {
      VariationVisits(s, i, j, b, b);
    } else {
      VariationVisits(s, i, a, b, j);
    }
  }

  // No step up on the way from the largest sample to the least.
  lemma NoWayUp(s: seq<real>, i: nat, j: nat, a: nat, b: nat)
    requires i <= j < |s| && a < b < |s| && Variation(s) <= s[i] - s[j]
    requires forall k :: 0 <= k < |s| ==> s[j] <= s[k] <= s[i]
    ensures s[a] >= s[b]
  {
    if a < i {
      VariationVisits(s, a, i, j, j);
    } else if j < b {
      VariationVisits(s, i, j, b, b);
    } else {
      VariationVisits(s, i, a, b, j);
    }
  }

  lemma SortedExtremes(s: seq<real>, t: seq<real>, k: nat)
    requires Sorted(t) && multiset(s) == multiset(t) && t != [] && k < |s|
    ensures t[0] <= s[k] <= t[|t| - 1]
  {
    var i := SameElements(t, s, k);
    assert i > 0 ==> t[0] <= t[i];
    assert i < |t| - 1 ==> t[i] <= t[|t| - 1];
  }

  lemma OrderedVariation(s: seq<real>)
    requires Sorted(s) || Descending(s)
    ensures Variation(Sort(s)) == Variation(s)
  {
    var t := Sort(s);
    SortSorts(s);
    if s != [] {
      SortedVariation(t);
      SortedExtremes(s, t, 0);
      SortedExtremes(s, t, |s| - 1);
      var i := SameElements(s, t, 0);
      var j := SameElements(s, t, |t| - 1);
      if Sorted(s) {
        SortedVariation(s);
        EndsOf(s, i);
        EndsOf(s, j);
      } else {
        DescendingVariation(s);
        DescendingEnds(s, i);
        DescendingEnds(s, j);
      }
    }
  }

  lemma EndsOf(s: seq<real>, i: nat)
    requires Sorted(s) && i < |s|
    ensures s[0] <= s[i] <= s[|s| - 1]
  {
    assert i > 0 ==> s[0] <= s[i];
    assert i < |s| - 1 ==> s[i] <= s[|s| - 1];
  }

  lemma DescendingEnds(s: seq<real>, i: nat)
    requires Descending(s) && i < |s|
    ensures s[0] >= s[i] >= s[|s| - 1]
  {
    assert i > 0 ==> s[0] >= s[i];
    assert i < |s| - 1 ==> s[i] >= s[|s| - 1];
  }

  lemma StraightWhenLeast(s: seq<real>)
    requires Variation(Sort(s)) == Variation(s)
    ensures Sorted(s) || Descending(s)
  {
    var t := Sort(s);
    SortSorts(s);
    if s != [] {
      SortedVariation(t);
      forall k | 0 <= k < |s| ensures t[0] <= s[k] <= t[|t| - 1] { SortedExtremes(s, t, k); }
      var i := SameElements(s, t, 0);
      var j := SameElements(s, t, |t| - 1);
      hide Variation, Sort, Abs;
      if i <= j {
        forall a, b | 0 <= a < b < |s| ensures s[a] <= s[b] { NoWayBack(s, i, j, a, b); }
      } else {
        forall a, b | 0 <= a < b < |s| ensures s[a] >= s[b] { NoWayUp(s, j, i, a, b); }
      }
    }
  }

  // The sorted samples give the jitter of the samples as they arrived exactly when those
  // never fell or never rose.
  lemma SortingKeepsVariationIff(s: seq<real>)
    ensures Variation(Sort(s)) == Variation(s) <==> Sorted(s) || Descending(s)
  {
    hide *;
    if Sorted(s) || Descending(s) {
      OrderedVariation(s);
    }
    if Variation(Sort(s)) == Variation(s) {
      StraightWhenLeast(s);
    }
  }

  // ---------- percentiles ----------

  function Ceil(x: real): (r: int)
    ensures r as real - 1.0 < x <= r as real
  {
    -((-x).Floor)
  }

  // Linear interpolation between the two samples around a fractional index.
  function Interpolate(data: seq<real>, rank: real): real
    requires data != [] && 0.0 <= rank <= (|data| - 1) as real
  {
    var lower, upper := rank.Floor, Ceil(rank);
    if lower == upper then data[lower]
    else data[lower] + (data[upper] - data[lower]) * (rank - lower as real)
  }

  lemma Share(f: real, m: real)
    requires 0.0 <= f <= 1.0 && 0.0 <= m
    ensures 0.0 <= f * m <= m
  {
    ProductNonnegative(f, m);
    ProductNonnegative(1.0 - f, m);
  }

  function Rank(p: real, n: nat): (r: real)
    requires 0.0 < p < 100.0 && n > 0
    ensures 0.0 <= r <= (n - 1) as real
  {
    Share(p / 100.0, (n - 1) as real);
    p / 100.0 * (n - 1) as real
  }

  function Percentile(data: seq<real>, p: real): real {
    if data == [] then 0.0
    else if p <= 0.0 then data[0]
    else if p >= 100.0 then data[|data| - 1]
    else Interpolate(data, Rank(p, |data|))
  }

  lemma Blend(a: real, b: real, f: real)
    requires a <= b && 0.0 <= f <= 1.0
    ensures a <= a + (b - a) * f <= b
  {
    ProductNonnegative(b - a, f);
    ProductNonnegative(b - a, 1.0 - f);
  }

  lemma BlendMonotone(a: real, b: real, f: real, g: real)
    requires a <= b && f <= g
    ensures a + (b - a) * f <= a + (b - a) * g
  {
    ProductNonnegative(b - a, g - f);
  }

  lemma InterpolateBetween(data: seq<real>, rank: real)
    requires Sorted(data) && data != [] && 0.0 <= rank <= (|data| - 1) as real
    ensures data[rank.Floor] <= Interpolate(data, rank) <= data[Ceil(rank)]
  {
    var lower, upper := rank.Floor, Ceil(rank);
    if lower != upper {
      Blend(data[lower], data[upper], rank - lower as real);
    }
  }

  lemma InterpolateMonotone(data: seq<real>, r: real, q: real)
    requires Sorted(data) && data != [] && 0.0 <= r <= q <= (|data| - 1) as real
    ensures Interpolate(data, r) <= Interpolate(data, q)
  {
    InterpolateBetween(data, r);
    InterpolateBetween(data, q);
    var a, b := r.Floor, q.Floor;
    if a == b {
      if r != a as real {
        assert Ceil(r) == Ceil(q) == a + 1;
        BlendMonotone(data[a], data[a + 1], r - a as real, q - a as real);
      }
    } else {
      assert Ceil(r) <= b;
      assert data[Ceil(r)] <= data[b];
    }
  }

  lemma RankMonotone(p: real, q: real, n: nat)
    requires 0.0 < p <= q < 100.0 && n > 0
    ensures Rank(p, n) <= Rank(q, n)
  {
    ProductNonnegative(q / 100.0 - p / 100.0, (n - 1) as real);
  }

  lemma PercentileWithin(data: seq<real>, p: real)
    requires Sorted(data) && data != []
    ensures data[0] <= Percentile(data, p) <= data[|data| - 1]
  {
    if 0.0 < p < 100.0 {
      InterpolateBetween(data, Rank(p, |data|));
    }
  }

  // On sorted data the percentile is monotone in p, over all reals.
  lemma PercentileMonotone(data: seq<real>, p: real, q: real)
    requires Sorted(data) && p <= q
    ensures Percentile(data, p) <= Percentile(data, q)
  {
    if data != [] {
      PercentileWithin(data, p);
      PercentileWithin(data, q);
      if 0.0 < p && q < 100.0 {
        RankMonotone(p, q, |data|);
        InterpolateMonotone(data, Rank(p, |data|), Rank(q, |data|));
      }
    }
  }

  // It passes through every sample: data[k] at p = 100k/(n-1).
  lemma PercentileHitsSamples(data: seq<real>, k: nat)
    requires 2 <= |data| && k < |data|
    ensures Percentile(data, 100.0 * (k as real / (|data| - 1) as real)) == data[k]
  {
    var n := (|data| - 1) as real;
    QuotientTimes(k as real, n);
    if k == 0 {
      assert 0.0 / n == 0.0;
    } else if k == |data| - 1 {
      SelfQuotient(n);
    } else {
      FractionInside(k as real, n);
      RankAt(k as real / n, k as real, |data|);
      assert (k as real).Floor == k && Ceil(k as real) == k;
    }
  }

  lemma SelfQuotient(n: real)
    requires 0.0 < n
    ensures n / n == 1.0
  {
  }

  lemma RankAt(f: real, k: real, n: nat)
    requires 1 < n && 0.0 < f < 1.0 && f * (n - 1) as real == k
    ensures 0.0 < 100.0 * f < 100.0 && Rank(100.0 * f, n) == k
  {
    assert 100.0 * f / 100.0 == f;
  }

  lemma FractionInside(k: real, n: real)
    requires 0.0 < k < n
    ensures 0.0 < k / n < 1.0
  {
    QuotientTimes(k, n);
    if k / n >= 1.0 {
      CancelFactor(1.0, k / n, n);
      ProductNonnegative(k / n - 1.0, n);
    }
  }
  // ---------- what the percentile is between the samples ----------

  lemma InterpolateOnSegment(data: seq<real>, k: nat, rank: real)
    requires k + 1 < |data| && k as real <= rank <= (k + 1) as real
    ensures Interpolate(data, rank) == data[k] + (data[k + 1] - data[k]) * (rank - k as real)
  {
    if rank == k as real {
      assert rank.Floor == k && Ceil(rank) == k;
    } else if rank == (k + 1) as real {
      assert rank.Floor == k + 1 && Ceil(rank) == k + 1;
      assert (data[k + 1] - data[k]) * 1.0 == data[k + 1] - data[k];
    } else {
      assert rank.Floor == k && Ceil(rank) == k + 1;
    }
  }

  // The fractional index of percent p among n samples.
  function Index(p: real, n: nat): real
    requires 0 < n
  {
    p / 100.0 * (n - 1) as real
  }

  lemma IndexRange(p: real, n: nat)
    requires 2 <= n && 0.0 <= Index(p, n) <= (n - 1) as real
    ensures 0.0 <= p <= 100.0
    ensures 0.0 < p < 100.0 ==> Rank(p, n) == Index(p, n)
    ensures p == 0.0 ==> Index(p, n) == 0.0
    ensures p == 100.0 ==> Index(p, n) == (n - 1) as real
  {
    CancelFactor(0.0, p / 100.0, (n - 1) as real);
    CancelFactor(p / 100.0, 1.0, (n - 1) as real);
  }

  // Between two neighbouring samples the percentile is the straight line through them.
  lemma PercentileOnSegment(data: seq<real>, k: nat, p: real)
    requires k + 1 < |data| && k as real <= Index(p, |data|) <= (k + 1) as real
    ensures Percentile(data, p) == data[k] + (data[k + 1] - data[k]) * (Index(p, |data|) - k as real)
  {
    var rank := Index(p, |data|);
    IndexRange(p, |data|);
    InterpolateOnSegment(data, k, rank);
    hide Index, Rank, Interpolate;
    if p == 100.0 {
      assert k + 1 == |data| - 1;
      assert (data[k + 1] - data[k]) * 1.0 == data[k + 1] - data[k];
    } else if p == 0.0 {
      assert k == 0 && (data[1] - data[0]) * 0.0 == 0.0;
    }
  }

  // The mean of a and b with weights 1 - t and t.
  function Mix(t: real, a: real, b: real): real {
    (1.0 - t) * a + t * b
  }

  function Line(y: real, slope: real, x: real): real {
    y + slope * x
  }

  lemma PercentileIsLine(data: seq<real>, k: nat, p: real)
    requires k + 1 < |data| && k as real <= Index(p, |data|) <= (k + 1) as real
    ensures Percentile(data, p) == Line(data[k], data[k + 1] - data[k], Index(p, |data|) - k as real)
  {
    hide Percentile, Index;
    PercentileOnSegment(data, k, p);
  }

  // So it is affine there: a weighted mean of two percents has the weighted mean of their
  // percentiles.
  lemma PercentileAffine(data: seq<real>, k: nat, p: real, q: real, t: real)
    requires k + 1 < |data| && 0.0 <= t <= 1.0
    requires k as real <= Index(p, |data|) <= (k + 1) as real
    requires k as real <= Index(q, |data|) <= (k + 1) as real
    ensures Percentile(data, Mix(t, p, q)) == Mix(t, Percentile(data, p), Percentile(data, q))
  {
    hide *;
    var n := |data|;
    IndexMix(p, q, t, n);
    MixBetween(Index(p, n), Index(q, n), t, k as real, (k + 1) as real);
    PercentileIsLine(data, k, p);
    PercentileIsLine(data, k, q);
    PercentileIsLine(data, k, Mix(t, p, q));
    MixLine(data[k], data[k + 1] - data[k], Index(p, n), Index(q, n), k as real, t);
  }

  lemma IndexMix(p: real, q: real, t: real, n: nat)
    requires 0 < n
    ensures Index(Mix(t, p, q), n) == Mix(t, Index(p, n), Index(q, n))
  {
    MixScaled(p, q, t, (n - 1) as real);
  }

  lemma MixScaled(p: real, q: real, t: real, m: real)
    ensures ((1.0 - t) * p + t * q) / 100.0 * m == (1.0 - t) * (p / 100.0 * m) + t * (q / 100.0 * m)
  {
    var u := 1.0 - t;
    assert (u * p + t * q) / 100.0 * m == (u * p) / 100.0 * m + (t * q) / 100.0 * m;
    assert (u * p) / 100.0 * m == u * (p / 100.0 * m);
    assert (t * q) / 100.0 * m == t * (q / 100.0 * m);
  }

  lemma MixBetween(a: real, b: real, t: real, lo: real, hi: real)
    requires 0.0 <= t <= 1.0 && lo <= a <= hi && lo <= b <= hi
    ensures lo <= Mix(t, a, b) <= hi
  {
    ProductNonnegative(1.0 - t, a - lo);
    ProductNonnegative(t, b - lo);
    ProductNonnegative(1.0 - t, hi - a);
    ProductNonnegative(t, hi - b);
    assert (1.0 - t) * (a - lo) + t * (b - lo) == (1.0 - t) * a + t * b - lo;
    assert (1.0 - t) * (hi - a) + t * (hi - b) == hi - ((1.0 - t) * a + t * b);
  }

  lemma MixLine(y: real, slope: real, a: real, b: real, k: real, t: real)
    ensures Line(y, slope, Mix(t, a, b) - k) == Mix(t, Line(y, slope, a - k), Line(y, slope, b - k))
  {
    var u := 1.0 - t;
    assert u * a + t * b - k == u * (a - k) + t * (b - k);
    assert slope * (u * (a - k) + t * (b - k)) == u * (slope * (a - k)) + t * (slope * (b - k));
  }

  // The median of an even number of samples is the mean of the two in the middle.
  lemma EvenMedian(data: seq<real>, m: nat)
    requires 0 < m && |data| == 2 * m
    ensures Percentile(data, 50.0) == (data[m - 1] + data[m]) / 2.0
  {
    assert Index(50.0, |data|) == (m - 1) as real + 0.5;
    PercentileOnSegment(data, m - 1, 50.0);
    assert (data[m] - data[m - 1]) * 0.5 == (data[m] - data[m - 1]) / 2.0;
  }

  lemma OddMedian(data: seq<real>, m: nat)
    requires 0 < m && |data| == 2 * m + 1
    ensures Percentile(data, 50.0) == data[m]
  {
    assert Index(50.0, |data|) == m as real;
    PercentileOnSegment(data, m, 50.0);
    assert (data[m + 1] - data[m]) * 0.0 == 0.0;
  }

  // ---------- what the moments and the rounding are ----------

  function Recentred(raw: real, centre: real, sum: real, n: real): real {
    raw - 2.0 * centre * sum + n * (centre * centre)
  }

  lemma {:induction false} SquaresExpand(s: seq<real>, centre: real)
    ensures Squares(s, centre) == Recentred(Squares(s, 0.0), centre, Sum(s), |s| as real)
    decreases |s|
  {
    if s != [] {
      var front, x := s[..|s| - 1], s[|s| - 1];
      SquaresExpand(front, centre);
      SquareExpand(x, centre);
      assert 2.0 * centre * (Sum(front) + x) == 2.0 * centre * Sum(front) + 2.0 * centre * x;
      assert |s| as real * (centre * centre) == (|s| - 1) as real * (centre * centre) + centre * centre;
    }
  }

  lemma SquareExpand(x: real, centre: real)
    ensures Square(x - centre) == Square(x - 0.0) - 2.0 * centre * x + centre * centre
  {
  }

  function Over(a: real, n: real): real
    requires n != 0.0
  {
    a / n
  }

  function MeanOfSquares(s: seq<real>): real
    requires s != []
  {
    Squares(s, 0.0) / |s| as real
  }

  lemma VarianceIsQuotient(s: seq<real>)
    requires s != []
    ensures Variance(s) == Over(Squares(s, Mean(s)), |s| as real)
  {
    hide Squares, Mean;
  }

  lemma MeanOfSquaresIsQuotient(s: seq<real>)
    requires s != []
    ensures MeanOfSquares(s) == Over(Squares(s, 0.0), |s| as real)
  {
    hide Squares;
  }

  lemma MeanTimesCount(s: seq<real>)
    requires s != []
    ensures Times(Mean(s), |s| as real) == Sum(s)
  {
    hide Mean, Sum;
    MeanTimes(s);
  }

  function Times(a: real, b: real): real { a * b }

  // The variance is the mean of the squares less the square of the mean.
  lemma VarianceIsMeanOfSquares(s: seq<real>)
    requires s != []
    ensures Variance(s) == MeanOfSquares(s) - Square(Mean(s))
  {
    hide *;
    SquaresExpand(s, Mean(s));
    VarianceIsQuotient(s);
    MeanOfSquaresIsQuotient(s);
    MeanTimesCount(s);
    MeanSquareAlgebra(Squares(s, Mean(s)), Squares(s, 0.0), Sum(s), Mean(s), |s| as real);
  }

  lemma MeanSquareAlgebra(about: real, raw: real, sum: real, m: real, n: real)
    requires 0.0 < n && Times(m, n) == sum && about == Recentred(raw, m, sum, n)
    ensures Over(about, n) == Over(raw, n) - Square(m)
  {
    assert 2.0 * m * (m * n) == 2.0 * (n * (m * m));
    QuotientTimes(about, n);
    QuotientTimes(raw, n);
    var d := raw / n - m * m - about / n;
    assert d * n == raw / n * n - m * m * n - about / n * n;
    if d > 0.0 {
      ProductPositive(d, n);
    } else if d < 0.0 {
      ProductPositive(-d, n);
    }
  }

  // Rounding goes to a nearest integer, and of two to the one further from zero.
  lemma RoundIsNearest(x: real)
    ensures -0.5 <= Round(x) as real - x <= 0.5
    ensures Round(x) as real - x == 0.5 ==> x >= 0.0
    ensures x - Round(x) as real == 0.5 ==> x <= 0.0
  {
  }

  lemma HundredthsIsNear(x: real)
    ensures -0.005 <= Hundredths(x) - x <= 0.005 && Hundredths(x) * 100.0 == Round(x * 100.0) as real
  {
    RoundIsNearest(x * 100.0);
    hide Round;
  }
}
