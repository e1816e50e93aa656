// The latency tester: the statistics of one target, the counters that its pings share,
// and the ranking of several targets.
module LatencyTester {
  import opened Options
  import opened LatencyStats

  // Conversion to an integer, toward zero.
  function Trunc(x: real): int {
    if 0.0 <= x then x.Floor else -((-x).Floor)
  }

  // Microseconds to a duration in nanoseconds.
  function Micros(x: real): int { Trunc(x) * 1000 }

  // Durations in nanoseconds; the standard deviation by its square. Jitter of a single
  // sample is a quotient by zero, which has no value here.
  datatype Stats = Stats(min: int, max: int, avg: int, median: int, p95: int, p99: int,
                         variance: real, jitter: Option<int>, loss: real, samples: nat, lost: nat)

  function Loss(lost: nat, total: nat): real
    requires 0 < total
  {
    Hundredths(lost as real / total as real * 100.0)
  }

  // The statistics of sorted samples.
  function Summary(t: seq<real>, lost: nat, total: nat): Stats
    requires t != [] && 0 < total
  {
    Stats(Micros(t[0]), Micros(t[|t| - 1]), Micros(Mean(t)),
          Micros(Percentile(t, 50.0)), Micros(Percentile(t, 95.0)), Micros(Percentile(t, 99.0)),
          Variance(t), if |t| == 1 then None else Some(Micros(Variation(t) / (|t| - 1) as real)),
          Loss(lost, total), total, lost)
  }

  function StatsOf(samples: seq<real>, lost: nat, total: nat): Stats
    requires samples != [] && 0 < total
  {
    SortSorts(samples);
    Summary(Sort(samples), lost, total)
  }

  // ---------- computing them ----------

  // The library sort, known only by its result.
  method SortFloats(a: array<real>)
    modifies a
    ensures a[..] == Sort(old(a[..]))
  {
    var t := Sort(a[..]);
    SortSorts(a[..]);
    forall i | 0 <= i < a.Length {
      a[i] := t[i];
    }
  }

  lemma TakeMore(s: seq<real>, i: nat)
    requires i < |s|
    ensures s[..i + 1][..i] == s[..i] && |s[..i + 1]| == i + 1 && s[..i + 1][i] == s[i]
  {
  }

  method SumAndSquares(a: array<real>) returns (avg: real, varianceSum: real)
    requires 0 < a.Length
    ensures avg == Mean(a[..]) && varianceSum == Squares(a[..], avg)
  {
    var sum := 0.0;
    for i := 0 to a.Length
      invariant sum == Sum(a[..][..i])
    {
      TakeMore(a[..], i);
      sum := sum + a[i];
    }
    assert a[..][..a.Length] == a[..];
    avg := sum / a.Length as real;
    varianceSum := 0.0;
    for i := 0 to a.Length
      invariant varianceSum == Squares(a[..][..i], avg)
    {
      TakeMore(a[..], i);
      var diff := a[i] - avg;
      varianceSum := varianceSum + Square(diff);
    }
  }

  method JitterSum(a: array<real>) returns (jitterSum: real)
    requires 0 < a.Length
    ensures jitterSum == Variation(a[..])
  {
    jitterSum := 0.0;
    for i := 1 to a.Length
      invariant jitterSum == Variation(a[..][..i])
    {
      TakeMore(a[..], i);
      assert a[..][..i + 1][i - 1] == a[i - 1];
      jitterSum := jitterSum + Abs(a[i] - a[i - 1]);
    }
    assert a[..][..a.Length] == a[..];
  }

  // computeStats: sort in place, then three accumulating loops and three percentiles.
  method ComputeStats(results: array<real>, success: nat, lost: nat, totalSamples: nat) returns (stats: Stats)
    requires 0 < success == results.Length && 0 < totalSamples
    modifies results
    ensures results[..] == Sort(old(results[..]))
    ensures stats == StatsOf(old(results[..]), lost, totalSamples)
  {
    SortFloats(results);
    var avg, varianceSum := SumAndSquares(results);
    var jitterSum := JitterSum(results);
    var n := results.Length;
    stats := Stats(Micros(results[0]), Micros(results[n - 1]), Micros(avg),
                   Micros(Percentile(results[..], 50.0)), Micros(Percentile(results[..], 95.0)),
                   Micros(Percentile(results[..], 99.0)), varianceSum / success as real,
                   if n == 1 then None else Some(Micros(jitterSum / (n - 1) as real)),
                   Loss(lost, totalSamples), totalSamples, lost);
  }

  // ---------- laws of the reported figures ----------

  lemma TruncMonotone(x: real, y: real)
    requires x <= y
    ensures Trunc(x) <= Trunc(y)
  {
  }

  // Arrival order does not matter, only the multiset of latencies.
  lemma StatsIgnoreOrder(a: seq<real>, b: seq<real>, lost: nat, total: nat)
    requires a != [] && b != [] && 0 < total && multiset(a) == multiset(b)
    ensures StatsOf(a, lost, total) == StatsOf(b, lost, total)
  {
    SortIgnoresOrder(a, b);
  }

  // The reported durations are in order, after truncation too.
  lemma StatsOrdered(samples: seq<real>, lost: nat, total: nat)
    requires samples != [] && 0 < total
    ensures var r := StatsOf(samples, lost, total);
            r.min <= r.median <= r.p95 <= r.p99 <= r.max && r.min <= r.avg <= r.max
  {
    var t := Sort(samples);
    SortSorts(samples);
    PercentileWithin(t, 50.0);
    PercentileMonotone(t, 50.0, 95.0);
    PercentileMonotone(t, 95.0, 99.0);
    PercentileWithin(t, 99.0);
    assert forall i :: 0 <= i < |t| ==> t[0] <= t[i] <= t[|t| - 1];
    MeanBetween(t, t[0], t[|t| - 1]);
    TruncMonotone(t[0], Percentile(t, 50.0));
    TruncMonotone(Percentile(t, 50.0), Percentile(t, 95.0));
    TruncMonotone(Percentile(t, 95.0), Percentile(t, 99.0));
    TruncMonotone(Percentile(t, 99.0), t[|t| - 1]);
    TruncMonotone(t[0], Mean(t));
    TruncMonotone(Mean(t), t[|t| - 1]);
  }

  lemma StatsJitter(samples: seq<real>, lost: nat, total: nat)
    requires 2 <= |samples| && 0 < total
    ensures var t := Sort(samples);
            |t| == |samples| && Sorted(t) &&
            StatsOf(samples, lost, total).jitter == Some(Micros(Variation(t) / (|t| - 1) as real))
  {
    SortSorts(samples);
  }

  // Reported jitter depends on the extremes and the count alone, because the samples
  // are sorted first.
  lemma StatsJitterTelescopes(samples: seq<real>, lost: nat, total: nat)
    requires 2 <= |samples| && 0 < total
    ensures var r, t := StatsOf(samples, lost, total), Sort(samples);
            |t| == |samples| && r.jitter == Some(Micros((t[|t| - 1] - t[0]) / (|t| - 1) as real))
  {
    hide *;
    StatsJitter(samples, lost, total);
    SortedVariation(Sort(samples));
  }

  lemma StatsVariance(samples: seq<real>, lost: nat, total: nat)
    requires samples != [] && 0 < total
    ensures Sort(samples) != [] && StatsOf(samples, lost, total).variance == Variance(Sort(samples))
  {
    SortSorts(samples);
  }

  lemma SortExtremes(samples: seq<real>)
    requires Sort(samples) != []
    ensures var t := Sort(samples); forall i :: 0 <= i < |t| ==> t[0] <= t[i] <= t[|t| - 1]
  {
    SortSorts(samples);
  }

  // The reported variance is bounded by the distances of the mean from both extremes.
  lemma StatsVarianceBounded(samples: seq<real>, lost: nat, total: nat)
    requires samples != [] && 0 < total
    ensures Sort(samples) != []
    ensures var t := Sort(samples);
            StatsOf(samples, lost, total).variance <= (t[|t| - 1] - Mean(t)) * (Mean(t) - t[0])
  {
    hide *;
    StatsVariance(samples, lost, total);
    SortExtremes(samples);
    var t := Sort(samples);
    VarianceBound(t, t[0], t[|t| - 1]);
  }

  // Reported durations are nanoseconds cut to whole microseconds toward zero.
  lemma MicrosCutsTowardZero(x: real)
    ensures 0.0 <= x ==> Micros(x) as real <= x * 1000.0 < Micros(x) as real + 1000.0
    ensures x <= 0.0 ==> Micros(x) as real - 1000.0 < x * 1000.0 <= Micros(x) as real
    ensures Micros(x) % 1000 == 0
  {
  }

  lemma OneMoment(x: real)
    ensures Mean([x]) == x && Variance([x]) == 0.0
  {
    assert [x][..0] == [];
    assert Sum([x]) == x;
    assert x / 1.0 == x;
    assert Squares([x], x) == Square(0.0) == 0.0;
  }

  // A single sample is every figure but jitter, which it does not have.
  lemma OneSample(us: nat, lost: nat, total: nat)
    requires 0 < total
    ensures var r, ns := StatsOf([us as real], lost, total), us * 1000;
            r.min == r.max == r.avg == r.median == r.p95 == r.p99 == ns && r.variance == 0.0 && r.jitter == None
  {
    var t := [us as real];
    assert t[..0] == [] && Sort(t) == t;
    OneMoment(us as real);
    PercentileWithin(t, 50.0);
    PercentileWithin(t, 95.0);
    PercentileWithin(t, 99.0);
  }

  lemma StatsPercentiles(samples: seq<real>, lost: nat, total: nat)
    requires samples != [] && 0 < total
    ensures |Sort(samples)| == |samples|
    ensures var t, r := Sort(samples), StatsOf(samples, lost, total);
            r.median == Micros(Percentile(t, 50.0)) && r.p95 == Micros(Percentile(t, 95.0)) &&
            r.p99 == Micros(Percentile(t, 99.0))
  {
    SortSorts(samples);
    hide Percentile, Micros, Sort, Mean, Variance, Variation, Loss;
  }

  // The reported median is the middle sample, or the mean of the two in the middle.
  lemma MedianOfSamples(samples: seq<real>, lost: nat, total: nat, m: nat)
    requires 0 < total && 0 < m && (|samples| == 2 * m || |samples| == 2 * m + 1)
    ensures |Sort(samples)| == |samples|
    ensures var t := Sort(samples);
            StatsOf(samples, lost, total).median ==
            Micros(if |samples| == 2 * m then (t[m - 1] + t[m]) / 2.0 else t[m])
  {
    hide *;
    StatsPercentiles(samples, lost, total);
    if |samples| == 2 * m {
      EvenMedian(Sort(samples), m);
    } else {
      OddMedian(Sort(samples), m);
    }
  }

  // The reported percentiles lie on the line between their two neighbours.
  lemma TailOfSamples(samples: seq<real>, lost: nat, total: nat, j: nat, k: nat)
    requires 0 < total && j + 1 < |samples| && k + 1 < |samples|
    requires j as real <= Index(95.0, |samples|) <= (j + 1) as real
    requires k as real <= Index(99.0, |samples|) <= (k + 1) as real
    ensures |Sort(samples)| == |samples|
    ensures var t, r, n := Sort(samples), StatsOf(samples, lost, total), |samples|;
            r.p95 == Micros(Line(t[j], t[j + 1] - t[j], Index(95.0, n) - j as real)) &&
            r.p99 == Micros(Line(t[k], t[k + 1] - t[k], Index(99.0, n) - k as real))
  {
    hide *;
    StatsPercentiles(samples, lost, total);
    PercentileIsLine(Sort(samples), j, 95.0);
    PercentileIsLine(Sort(samples), k, 99.0);
  }

  // The reported loss is within half a hundredth of the percentage lost, and exact at
  // both ends.
  lemma LossIsThePercentage(lost: nat, total: nat)
    requires 0 < total
    ensures var percent := lost as real / total as real * 100.0; -0.005 <= Loss(lost, total) - percent <= 0.005
    ensures lost == 0 ==> Loss(lost, total) == 0.0
    ensures lost == total ==> Loss(lost, total) == 100.0
  {
    HundredthsIsNear(lost as real / total as real * 100.0);
    if lost == total {
      SelfQuotient(total as real);
    } else if lost == 0 {
      assert 0.0 / total as real == 0.0;
    }
  }

  // ---------- the pings of one target ----------

  // How one ping came out: lost, or connected after so many microseconds.
  datatype Ping = Lost | Took(us: nat)

  function Latencies(pings: seq<Ping>): (r: seq<real>)
    ensures |r| <= |pings|
  {
    if pings == [] then []
    else Latencies(pings[..|pings| - 1]) +
         (match pings[|pings| - 1] case Took(us) => [us as real] case Lost => [])
  }

  lemma {:induction false} LatenciesConcat(a: seq<Ping>, b: seq<Ping>)
    ensures Latencies(a + b) == Latencies(a) + Latencies(b)
    decreases |b|
  {
    if b == [] {
      assert a + b == a;
    } else {
      assert (a + b)[..|a + b| - 1] == a + b[..|b| - 1];
      LatenciesConcat(a, b[..|b| - 1]);
    }
  }

  lemma LatenciesPick(pings: seq<Ping>, i: nat)
    requires i < |pings|
    ensures var rest := pings[..i] + pings[i + 1..];
            multiset(pings) == multiset(rest) + multiset{pings[i]} &&
            multiset(Latencies(pings)) == multiset(Latencies(rest)) + multiset(Latencies([pings[i]]))
  {
    assert pings == pings[..i] + ([pings[i]] + pings[i + 1..]);
    LatenciesConcat(pings[..i], [pings[i]] + pings[i + 1..]);
    LatenciesConcat([pings[i]], pings[i + 1..]);
    LatenciesConcat(pings[..i], pings[i + 1..]);
  }

  lemma {:induction false} LatenciesIgnoreOrder(a: seq<Ping>, b: seq<Ping>)
    requires multiset(a) == multiset(b)
    ensures multiset(Latencies(a)) == multiset(Latencies(b))
    decreases |a|
  {
    assert |multiset(a)| == |a| && |multiset(b)| == |b|;
    if a != [] {
      var n := |a| - 1;
      assert a[n] in multiset(b);
      var i :| 0 <= i < |b| && b[i] == a[n];
      LatenciesPick(a, n);
      LatenciesPick(b, i);
      assert a[..n] + a[n + 1..] == a[..n];
      SameRest(multiset(a[..n]), multiset(b[..i] + b[i + 1..]), a[n]);
      LatenciesIgnoreOrder(a[..n], b[..i] + b[i + 1..]);
    }
  }

  // What a target's benchmark reports, once all its pings have come back.
  function Report(pings: seq<Ping>, samples: nat): Stats
    requires 0 < samples
  {
    var ls := Latencies(pings);
    if ls == [] then Stats(0, 0, 0, 0, 0, 0, 0.0, Some(0), 100.0, samples, samples)
    else StatsOf(ls, |pings| - |ls|, samples)
  }

  lemma ReportOfSome(pings: seq<Ping>, samples: nat)
    requires Latencies(pings) != [] && 0 < samples
    ensures Report(pings, samples) == StatsOf(Latencies(pings), |pings| - |Latencies(pings)|, samples)
  {
  }

  // A target's report depends on the multiset of outcomes, not on goroutine order.
  lemma ReportIgnoresOrder(a: seq<Ping>, b: seq<Ping>, samples: nat)
    requires multiset(a) == multiset(b) && 0 < samples
    ensures Report(a, samples) == Report(b, samples)
  {
    LatenciesIgnoreOrder(a, b);
    assert |a| == |multiset(a)| == |b|;
    assert |Latencies(a)| == |multiset(Latencies(a))| == |Latencies(b)|;
    if Latencies(a) != [] {
      StatsIgnoreOrder(Latencies(a), Latencies(b), |a| - |Latencies(a)|, samples);
    }
  }

  // The counters that one target's goroutines share behind a mutex.
  class Tally {
    var results: seq<real>
    var success: nat
    var lost: nat
    var inFlight: nat           // the wait group
    ghost var launched: nat
    ghost var pings: seq<Ping>  // outcomes in the order they came in

    ghost predicate Valid()
      reads this
    {
      results == Latencies(pings) && success == |results| && success + lost == |pings| &&
      launched == success + lost + inFlight
    }

    constructor ()
      ensures Valid() && launched == 0 && pings == []
    {
      results, success, lost, inFlight := [], 0, 0, 0;
      launched, pings := 0, [];
    }

    method Launch()
      requires Valid()
      modifies this
      ensures Valid() && launched == old(launched) + 1 && pings == old(pings)
    {
      inFlight, launched := inFlight + 1, launched + 1;
    }

    // A goroutine's locked section, and its wg.Done.
    method Record(p: Ping)
      requires Valid() && 0 < inFlight
      modifies this
      ensures Valid() && launched == old(launched) && pings == old(pings) + [p]
    {
      assert (pings + [p])[..|pings|] == pings;
      if p.Lost? {
        lost := lost + 1;
      } else {
        results := results + [p.us as real];
        success := success + 1;
      }
      pings, inFlight := pings + [p], inFlight - 1;
    }

    // After wg.Wait: every ping is in, and the report is a function of their multiset.
    method Finish(samples: nat) returns (stats: Stats)
      requires Valid() && inFlight == 0 && launched == samples && 0 < samples
      ensures |pings| == samples && stats == Report(pings, samples)
    {
      if success == 0 {
        return Stats(0, 0, 0, 0, 0, 0, 0.0, Some(0), 100.0, samples, samples);
      }
      var rs := results;
      var a := new real[|rs|](i requires 0 <= i < |rs| => rs[i]);
      assert a[..] == rs;
      ReportOfSome(pings, samples);
      stats := ComputeStats(a, success, lost, samples);
    }
  }

  // Up to k of the pings in flight come in.
  method Arrive(tally: Tally, outcomes: seq<Ping>, k: nat)
    requires tally.Valid() && tally.launched <= |outcomes| && tally.pings <= outcomes
    modifies tally
    ensures tally.Valid() && tally.launched == old(tally.launched) && tally.pings <= outcomes
    ensures tally.inFlight == if old(tally.inFlight) <= k then 0 else old(tally.inFlight) - k
  {
    var m := 0;
    while m < k && 0 < tally.inFlight
      invariant tally.Valid() && tally.launched == old(tally.launched) && tally.pings <= outcomes
      invariant old(tally.inFlight) == tally.inFlight + m && m <= k
      decreases tally.inFlight
    {
      tally.Record(outcomes[tally.success + tally.lost]);
      m := m + 1;
    }
  }

  // BenchmarkTarget: `outcomes` are the pings in the order they complete, and after each
  // launch `due` says how many of them come in before the next one. Cancellation during
  // the k-th pause waits for the pings already launched and gives no statistics.
  method BenchmarkTarget(samples: int, sampleSize: nat, outcomes: seq<Ping>, due: seq<nat>, cancelled: Option<nat>)
    returns (stats: Option<Stats>)
    requires 0 < sampleSize
    requires var n := if samples <= 0 then sampleSize else samples; |outcomes| == n && |due| == n
    ensures cancelled.Some? && cancelled.value < |outcomes| ==> stats == None
    ensures cancelled.None? || cancelled.value >= |outcomes| ==> stats == Some(Report(outcomes, |outcomes|))
  {
    var n: nat := if samples <= 0 then sampleSize else samples;
    var tally := new Tally();
    for i := 0 to n
      invariant tally.Valid() && tally.launched == i && fresh(tally)
      invariant tally.pings <= outcomes
      invariant cancelled.Some? ==> i <= cancelled.value || n <= cancelled.value
    {
      tally.Launch();
      Arrive(tally, outcomes, due[i]);
      if cancelled == Some(i) {
        Arrive(tally, outcomes, n);
        return None;
      }
    }
    Arrive(tally, outcomes, n);
    assert tally.pings == outcomes;
    var s := tally.Finish(n);
    stats := Some(s);
  }
}
