// Several targets: their ranking by average, the fastest one, and the aggregates that
// the benchmark suite computes over the ranked list.
module BenchmarkSuite {
  import opened Options
  import opened LatencyStats
  import LatencyTester

  datatype Target = Target(name: nat, stats: LatencyTester.Stats, reachable: bool)

  // One target's result: reachable when not every sample was lost.
  function ResultOf(name: nat, pings: seq<LatencyTester.Ping>): Target
    requires pings != []
  {
    var stats := LatencyTester.Report(pings, |pings|);
    Target(name, stats, stats.lost < stats.samples)
  }

  // A target is reachable when some ping connected; otherwise its average is zero.
  lemma UnreachableAveragesZero(name: nat, pings: seq<LatencyTester.Ping>)
    requires pings != []
    ensures var r := ResultOf(name, pings);
            (r.reachable <==> LatencyTester.Latencies(pings) != []) &&
            (!r.reachable ==> r.stats.avg == 0) && (r.reachable ==> 0 <= r.stats.avg)
  {
    var ls := LatencyTester.Latencies(pings);
    if ls != [] {
      LatencyTester.ReportOfSome(pings, |pings|);
      NonnegativeAverage(pings);
    }
  }

  lemma {:induction false} LatenciesNonnegative(pings: seq<LatencyTester.Ping>)
    ensures forall i :: 0 <= i < |LatencyTester.Latencies(pings)| ==> 0.0 <= LatencyTester.Latencies(pings)[i]
    decreases |pings|
  {
    if pings != [] {
      LatenciesNonnegative(pings[..|pings| - 1]);
    }
  }

  lemma NonnegativeAverage(pings: seq<LatencyTester.Ping>)
    requires pings != [] && LatencyTester.Latencies(pings) != []
    ensures 0 <= LatencyTester.Report(pings, |pings|).avg
  {
    var ls := LatencyTester.Latencies(pings);
    LatenciesNonnegative(pings);
    LatencyTester.StatsOrdered(ls, |pings| - |ls|, |pings|);
    SortSorts(ls);
    assert Sort(ls)[0] in multiset(ls);
    LatencyTester.TruncMonotone(0.0, Sort(ls)[0]);
  }

  // ---------- ranking ----------

  ghost predicate Ranked(rs: seq<Target>) {
    forall i, j :: 0 <= i < j < |rs| ==> rs[i].stats.avg <= rs[j].stats.avg
  }

  lemma PlacedMembers(rs: seq<Target>, r: Target, k: nat)
    requires k <= |rs|
    ensures multiset(rs[..k] + [r] + rs[k..]) == multiset(rs) + multiset{r}
  {
    assert rs == rs[..k] + rs[k..];
  }

  lemma PlacedRanked(rs: seq<Target>, r: Target, k: nat)
    requires Ranked(rs) && k <= |rs|
    requires 0 < k ==> rs[k - 1].stats.avg <= r.stats.avg
    requires k < |rs| ==> r.stats.avg <= rs[k].stats.avg
    ensures Ranked(rs[..k] + [r] + rs[k..])
  {
    var out := rs[..k] + [r] + rs[k..];
    forall i, j | 0 <= i < j < |out| ensures out[i].stats.avg <= out[j].stats.avg {
      assert i < k ==> out[i] == rs[i] && rs[i].stats.avg <= rs[k - 1].stats.avg;
      assert k < j ==> out[j] == rs[j - 1] && rs[k].stats.avg <= rs[j - 1].stats.avg;
      assert j < k ==> out[j] == rs[j];
      assert k < i ==> out[i] == rs[i - 1];
    }
  }

  // Insertion from the back; with equal averages any order would do.
  method Place(rs: seq<Target>, r: Target) returns (out: seq<Target>)
    requires Ranked(rs)
    ensures Ranked(out) && multiset(out) == multiset(rs) + multiset{r}
  {
    var k := |rs|;
    while 0 < k && r.stats.avg < rs[k - 1].stats.avg
      invariant 0 <= k <= |rs| && (k < |rs| ==> r.stats.avg <= rs[k].stats.avg)
    {
      k := k - 1;
    }
    PlacedRanked(rs, r, k);
    PlacedMembers(rs, r, k);
    out := rs[..k] + [r] + rs[k..];
  }

  function Finished(jobs: seq<Option<Target>>): seq<Target> {
    if jobs == [] then []
    else Finished(jobs[..|jobs| - 1]) + (match jobs[|jobs| - 1] case Some(r) => [r] case None => [])
  }

  // Every job that ended well is there, as often as it came, and nothing else.
  lemma {:induction false} FinishedExactly(jobs: seq<Option<Target>>, t: Target)
    ensures multiset(Finished(jobs))[t] == multiset(jobs)[Some(t)]
    decreases |jobs|
  {
    if jobs != [] {
      FinishedExactly(jobs[..|jobs| - 1], t);
      LastJob(jobs, t);
    }
  }

  lemma LastJob(jobs: seq<Option<Target>>, t: Target)
    requires jobs != []
    ensures var front, more := jobs[..|jobs| - 1], if jobs[|jobs| - 1] == Some(t) then 1 else 0;
            multiset(Finished(jobs))[t] == multiset(Finished(front))[t] + more &&
            multiset(jobs)[Some(t)] == multiset(front)[Some(t)] + more
  {
    assert jobs == jobs[..|jobs| - 1] + [jobs[|jobs| - 1]];
  }

  lemma FinishedAll(jobs: seq<Option<Target>>)
    ensures forall t: Target :: multiset(Finished(jobs))[t] == multiset(jobs)[Some(t)]
    ensures forall t: Target :: t in Finished(jobs) <==> Some(t) in jobs
  {
    forall t: Target
      ensures multiset(Finished(jobs))[t] == multiset(jobs)[Some(t)] && (t in Finished(jobs) <==> Some(t) in jobs)
    {
      FinishedExactly(jobs, t);
      hide Finished;
      assert t in Finished(jobs) <==> t in multiset(Finished(jobs));
      assert Some(t) in jobs <==> Some(t) in multiset(jobs);
    }
  }

  // Collect the jobs' results, dropping those that ended in an error, and rank them.
  method BenchmarkTargets(jobs: seq<Option<Target>>) returns (results: seq<Target>)
    ensures Ranked(results) && multiset(results) == multiset(Finished(jobs))
    ensures forall t: Target :: multiset(results)[t] == multiset(jobs)[Some(t)]
  {
    FinishedAll(jobs);
    results := [];
    for i := 0 to |jobs|
      invariant Ranked(results) && multiset(results) == multiset(Finished(jobs[..i]))
    {
      assert jobs[..i + 1][..i] == jobs[..i];
      if jobs[i].Some? {
        results := Place(results, jobs[i].value);
      }
    }
    assert jobs[..|jobs|] == jobs;
  }

  lemma SameMembers(a: seq<Target>, b: seq<Target>)
    requires multiset(a) == multiset(b)
    ensures forall t :: t in a <==> t in b
  {
    forall t ensures t in a <==> t in b {
      assert t in a <==> t in multiset(a);
      assert t in b <==> t in multiset(b);
    }
  }

  // The first reachable entry of the ranking is a fastest reachable target.
  method FindFastestTarget(jobs: seq<Option<Target>>) returns (r: Option<Target>)
    ensures r.None? <==> forall t :: Some(t) in jobs ==> !t.reachable
    ensures r.Some? ==> r in jobs && r.value.reachable &&
                        forall t :: Some(t) in jobs && t.reachable ==> r.value.stats.avg <= t.stats.avg
  {
    FinishedAll(jobs);
    hide Finished, Ranked;
    var results := BenchmarkTargets(jobs);
    SameMembers(Finished(jobs), results);
    for i := 0 to |results|
      invariant forall k :: 0 <= k < i ==> !results[k].reachable
    {
      if results[i].reachable {
        return Some(results[i]);
      }
    }
    r := None;
  }

  // ---------- the suite's aggregates ----------

  // An average in milliseconds, by whole microseconds.
  function Lat(r: Target): real {
    (r.stats.avg / 1000) as real / 1000.0
  }

  // An average of us whole microseconds and a rest below one is us thousandths of a
  // millisecond.
  lemma LatUnit(r: Target, us: int, rest: nat)
    requires r.stats.avg == us * 1000 + rest && rest < 1000
    ensures Lat(r) * 1000.0 == us as real
  {
    WholeThousands(us, rest);
  }

  lemma WholeThousands(us: int, rest: nat)
    requires rest < 1000
    ensures (us * 1000 + rest) / 1000 == us
  {
  }

  // The averages of the reachable targets, in ranking order.
  function Reached(rs: seq<Target>): seq<real> {
    if rs == [] then []
    else Reached(rs[..|rs| - 1]) + (if rs[|rs| - 1].reachable then [Lat(rs[|rs| - 1])] else [])
  }

  predicate PairAt(rs: seq<Target>, i: nat)
    requires 0 < i < |rs|
  {
    rs[i].reachable && rs[i - 1].reachable
  }

  // Sum and number of the neighbouring pairs that RunAll counts.
  function PairSum(rs: seq<Target>): real {
    if |rs| < 2 then 0.0
    else PairSum(rs[..|rs| - 1]) +
         (if PairAt(rs, |rs| - 1) then Abs(Lat(rs[|rs| - 1]) - Lat(rs[|rs| - 2])) else 0.0)
  }

  function PairCount(rs: seq<Target>): nat {
    if |rs| < 2 then 0
    else PairCount(rs[..|rs| - 1]) + (if PairAt(rs, |rs| - 1) then 1 else 0)
  }

  lemma ReachedStep(rs: seq<Target>, i: nat)
    requires i < |rs|
    ensures Reached(rs[..i + 1]) == Reached(rs[..i]) + (if rs[i].reachable then [Lat(rs[i])] else [])
  {
    assert rs[..i + 1][..i] == rs[..i];
  }

  lemma SumSnoc(ls: seq<real>, x: real)
    ensures Sum(ls + [x]) == Sum(ls) + x
  {
    assert (ls + [x])[..|ls|] == ls;
  }

  lemma LatsRanked(rs: seq<Target>)
    requires Ranked(rs) && forall i :: 0 <= i < |rs| ==> 0 <= rs[i].stats.avg
    ensures forall i :: 0 <= i < |rs| ==> 0.0 <= Lat(rs[i])
    ensures forall i, j :: 0 <= i <= j < |rs| ==> Lat(rs[i]) <= Lat(rs[j])
  {
    forall i, j | 0 <= i <= j < |rs| ensures 0.0 <= Lat(rs[i]) <= Lat(rs[j]) {
      assert rs[i].stats.avg <= rs[j].stats.avg;
      assert rs[i].stats.avg / 1000 <= rs[j].stats.avg / 1000;
    }
    forall i | 0 <= i < |rs| ensures 0.0 <= Lat(rs[i]) {
      assert i <= i;
    }
  }

  // RunAll's first loop over the ranked results, before rounding.
  method AverageLoop(results: seq<Target>) returns (total: real, count: nat, minLat: real, maxLat: real)
    requires Ranked(results) && forall i :: 0 <= i < |results| ==> 0 <= results[i].stats.avg
    ensures var ls := Reached(results);
            count == |ls| && total == Sum(ls) && (count > 0 ==> minLat == ls[0] && maxLat == ls[count - 1])
  {
    total, count, minLat, maxLat := 0.0, 0, 0.0, 0.0;
    ghost var ls := [];
    LatsRanked(results);
    assert ls == Reached(results[..0]) && Sum(ls) == 0.0;
    hide Lat, Ranked, Reached, Sum;
    for i := 0 to |results|
      invariant ls == Reached(results[..i]) && count == |ls| && total == Sum(ls)
      invariant if count == 0 then maxLat == 0.0 else minLat == ls[0] <= maxLat == ls[count - 1]
      invariant forall k :: i <= k < |results| ==> maxLat <= Lat(results[k])
    {
      ReachedStep(results, i);
      if results[i].reachable {
        var lat := Lat(results[i]);
        SumSnoc(ls, lat);
        ls := ls + [lat];
        total, count := total + lat, count + 1;
        if count == 1 || lat < minLat {
          minLat := lat;
        }
        if lat > maxLat {
          maxLat := lat;
        }
      }
    }
    assert results[..|results|] == results;
  }

  // RunAll's second loop.
  method PairLoop(results: seq<Target>) returns (jitterSum: real, jitterCount: nat)
    ensures jitterSum == PairSum(results) && jitterCount == PairCount(results)
  {
    jitterSum, jitterCount := 0.0, 0;
    var i := 1;
    while i < |results|
      invariant |results| < 1 || 1 <= i <= |results|
      invariant 1 <= i <= |results| ==>
        jitterSum == PairSum(results[..i]) && jitterCount == PairCount(results[..i])
      invariant |results| == 0 ==> jitterSum == 0.0 && jitterCount == 0
    {
      assert results[..i + 1][..i] == results[..i];
      if results[i].reachable && results[i - 1].reachable {
        jitterSum := jitterSum + Abs(Lat(results[i]) - Lat(results[i - 1]));
        jitterCount := jitterCount + 1;
      }
      i := i + 1;
    }
    assert |results| > 0 ==> results[..|results|] == results;
  }

  // No unreachable target sits between two reachable ones.
  ghost predicate Contiguous(rs: seq<Target>) {
    forall i, j, k :: 0 <= i < j < k < |rs| && rs[i].reachable && rs[k].reachable ==> rs[j].reachable
  }

  // When every reachable average is positive, the ranking puts the unreachable ones,
  // whose average is zero, in front.
  lemma PositiveAveragesAreContiguous(rs: seq<Target>)
    requires Ranked(rs)
    requires forall i :: 0 <= i < |rs| ==> if rs[i].reachable then 0 < rs[i].stats.avg else rs[i].stats.avg == 0
    ensures Contiguous(rs)
  {
    forall i, j, k | 0 <= i < j < k < |rs| && rs[i].reachable && rs[k].reachable ensures rs[j].reachable {
      assert rs[i].stats.avg <= rs[j].stats.avg;
    }
  }

  lemma {:induction false} ReachedEmptyIff(rs: seq<Target>)
    ensures Reached(rs) == [] <==> forall i :: 0 <= i < |rs| ==> !rs[i].reachable
    decreases |rs|
  {
    if rs != [] {
      ReachedEmptyIff(rs[..|rs| - 1]);
    }
  }

  // One more target at the end.
  lemma ContiguousSnoc(rs: seq<Target>)
    requires rs != []
    ensures var n := |rs| - 1; var front := rs[..n];
            Contiguous(rs) <==>
            Contiguous(front) && (rs[n].reachable && Reached(front) != [] ==> PairAt(rs, n))
  {
    var n := |rs| - 1;
    var front := rs[..n];
    ReachedEmptyIff(front);
    if Contiguous(front) && rs[n].reachable && Reached(front) != [] {
      var i :| 0 <= i < n && front[i].reachable;
      if PairAt(rs, n) {
        forall a, b, c | 0 <= a < b < c < |rs| && rs[a].reachable && rs[c].reachable ensures rs[b].reachable {
          assert c < n ==> front[a].reachable && front[c].reachable && front[b].reachable;
          assert c == n && b < n - 1 ==> front[a].reachable && front[n - 1].reachable && front[b].reachable;
        }
      } else {
        assert rs[i].reachable && !rs[n - 1].reachable && i < n - 1;
      }
    }
    if Contiguous(rs) {
      forall a, b, c | 0 <= a < b < c < n && front[a].reachable && front[c].reachable ensures front[b].reachable {
        assert rs[a].reachable && rs[c].reachable && rs[b].reachable;
      }
    }
  }

  // The pairs number one fewer than the reachable averages exactly when no unreachable
  // target sits in between; then they add up to the averages' variation.
  lemma {:induction false} PairsOneFewerIff(rs: seq<Target>)
    ensures PairCount(rs) <= |Reached(rs)| && (Reached(rs) != [] ==> PairCount(rs) < |Reached(rs)|)
    ensures Reached(rs) != [] ==> (PairCount(rs) == |Reached(rs)| - 1 <==> Contiguous(rs))
    ensures Contiguous(rs) ==> PairSum(rs) == Variation(Reached(rs))
    ensures rs != [] && rs[|rs| - 1].reachable ==>
      Reached(rs) != [] && Reached(rs)[|Reached(rs)| - 1] == Lat(rs[|rs| - 1])
    decreases |rs|
  {
    if rs != [] {
      var n := |rs| - 1;
      var front := rs[..n];
      PairsOneFewerIff(front);
      ReachedEmptyIff(front);
      ContiguousSnoc(rs);
      assert Reached(rs) == Reached(front) + (if rs[n].reachable then [Lat(rs[n])] else []);
      if rs[n].reachable {
        assert Reached(rs)[..|Reached(front)|] == Reached(front);
        assert PairCount(rs) == PairCount(front) + if n > 0 && PairAt(rs, n) then 1 else 0;
      } else {
        assert Reached(rs) == Reached(front);
        assert PairCount(rs) == PairCount(front) && PairSum(rs) == PairSum(front);
      }
    }
  }

  lemma {:induction false} ReachedSorted(rs: seq<Target>)
    requires Ranked(rs)
    ensures Sorted(Reached(rs))
    ensures rs != [] ==> forall i :: 0 <= i < |Reached(rs)| ==> Reached(rs)[i] <= Lat(rs[|rs| - 1])
    decreases |rs|
  {
    if rs != [] {
      var front := rs[..|rs| - 1];
      ReachedSorted(front);
      if front != [] {
        assert rs[|rs| - 2].stats.avg <= rs[|rs| - 1].stats.avg;
        assert Lat(rs[|rs| - 2]) <= Lat(rs[|rs| - 1]);
      }
    }
  }

  // The suite's jitter, before rounding, divides by one fewer than the reachable averages
  // exactly when no unreachable target sits between two of them, and is then their spread
  // over that number.
  lemma SuiteJitterTelescopesIff(rs: seq<Target>)
    requires Ranked(rs) && 2 <= |Reached(rs)|
    ensures var ls := Reached(rs);
            (PairCount(rs) == |ls| - 1 <==> Contiguous(rs)) &&
            (Contiguous(rs) ==> PairSum(rs) == ls[|ls| - 1] - ls[0])
  {
    PairsOneFewerIff(rs);
    ReachedSorted(rs);
    SortedVariation(Reached(rs));
  }

  // In particular when every reachable average is positive.
  lemma SuiteJitterTelescopes(rs: seq<Target>)
    requires Ranked(rs) && 2 <= |Reached(rs)|
    requires forall i :: 0 <= i < |rs| ==> if rs[i].reachable then 0 < rs[i].stats.avg else rs[i].stats.avg == 0
    ensures var ls := Reached(rs);
            PairCount(rs) == |ls| - 1 && PairSum(rs) == ls[|ls| - 1] - ls[0]
  {
    PositiveAveragesAreContiguous(rs);
    SuiteJitterTelescopesIff(rs);
  }

  // ---------- the quick benchmark ----------

  // Differences to the previous reachable average, counted only if that was positive.
  function QuickVariation(ls: seq<real>): real {
    if |ls| < 2 then 0.0
    else QuickVariation(ls[..|ls| - 1]) + (if ls[|ls| - 2] > 0.0 then Abs(ls[|ls| - 1] - ls[|ls| - 2]) else 0.0)
  }

  lemma QuickSnoc(ls: seq<real>, x: real)
    ensures QuickVariation(ls + [x]) ==
            QuickVariation(ls) + (if ls != [] && ls[|ls| - 1] > 0.0 then Abs(x - ls[|ls| - 1]) else 0.0)
  {
    assert (ls + [x])[..|ls|] == ls;
  }

  // QuickBenchmark's loop.
  method QuickLoop(results: seq<Target>) returns (total: real, count: nat, jitterSum: real)
    ensures var ls := Reached(results);
            count == |ls| && total == Sum(ls) && jitterSum == QuickVariation(ls)
  {
    total, count, jitterSum := 0.0, 0, 0.0;
    var prev := 0.0;
    ghost var ls := [];
    assert ls == Reached(results[..0]) && Sum(ls) == 0.0 && QuickVariation(ls) == 0.0;
    hide Lat, Reached, Sum, QuickVariation, Abs;
    for i := 0 to |results|
      invariant ls == Reached(results[..i]) && count == |ls| && total == Sum(ls)
      invariant jitterSum == QuickVariation(ls) && prev == if count == 0 then 0.0 else ls[count - 1]
    {
      ReachedStep(results, i);
      if results[i].reachable {
        var lat := Lat(results[i]);
        SumSnoc(ls, lat);
        QuickSnoc(ls, lat);
        ls := ls + [lat];
        total, count := total + lat, count + 1;
        if prev > 0.0 {
          jitterSum := jitterSum + Abs(lat - prev);
        }
        prev := lat;
      }
    }
    assert results[..|results|] == results;
  }

  // On ranked averages the quick figure starts from the first positive one.
  lemma {:induction false} QuickVariationValue(ls: seq<real>)
    requires Sorted(ls) && ls != [] && 0.0 <= ls[0]
    ensures 0.0 < ls[0] ==> QuickVariation(ls) == ls[|ls| - 1] - ls[0]
    ensures ls[0] == 0.0 < ls[|ls| - 1] ==> QuickVariation(ls) < ls[|ls| - 1]
    ensures ls[|ls| - 1] == 0.0 ==> QuickVariation(ls) == 0.0
    decreases |ls|
  {
    if 2 <= |ls| {
      QuickVariationValue(ls[..|ls| - 1]);
    }
  }

  // It agrees with the suite's figure except when the fastest average is zero and some
  // average is not: then the step up from zero is lost.
  lemma QuickJitterExactIff(ls: seq<real>)
    requires Sorted(ls) && ls != [] && 0.0 <= ls[0]
    ensures QuickVariation(ls) == Variation(ls) <==> !(ls[0] == 0.0 && 0.0 < ls[|ls| - 1])
  {
    QuickVariationValue(ls);
    SortedVariation(ls);
  }
}
