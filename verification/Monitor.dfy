// The metrics monitor: four sliding windows, the extremes of the latency window, copies
// of the windows handed out in metrics, and the subscribers.
module Monitor {
  import opened GoSlice
  import opened Options
  import opened Subscribers
  import LatencyStats

  datatype Point = Point(timestamp: int, value: real, series: string)

  datatype Metrics = Metrics(
    latency: real, latencyMax: real, latencyMin: real, jitter: real, packetLoss: real, dnsSpeed: real,
    upSpeed: real, downSpeed: real, connections: int, throughputIn: real, throughputOut: real,
    score: real, timestamp: int, history: Slice<Point>, jitterHistory: Slice<Point>)

  // One call of Update, with the time it read.
  datatype Input = Input(latency: real, jitter: real, packetLoss: real, dnsSpeed: real, now: int)

  // ---------- the score ----------

  function Max(a: real, b: real): real { if a < b then b else a }

  function Min(a: real, b: real): real { if a < b then a else b }

  function LatencyScore(latency: real): real {
    if latency > 150.0 then Max(0.0, 50.0 - (latency - 150.0) / 10.0) else Max(0.0, 100.0 - latency / 3.0)
  }

  function RawScore(latency: real, jitter: real, loss: real, up: real, down: real): real {
    LatencyScore(latency) * 0.35 + Max(0.0, 100.0 - jitter * 3.0) * 0.15 + Max(0.0, 100.0 - loss * 10.0) * 0.25 +
    Min(100.0, down / 0.3) * 0.15 + Min(100.0, up / 0.1) * 0.10
  }

  function ComputeScore(latency: real, jitter: real, loss: real, up: real, down: real): real {
    LatencyStats.Hundredths(RawScore(latency, jitter, loss, up, down))
  }

  lemma LatencyScoreAntitone(l: real, l': real)
    requires l <= l'
    ensures LatencyScore(l') <= LatencyScore(l)
    ensures 0.0 <= l ==> 0.0 <= LatencyScore(l) <= 100.0
  {
  }

  // The other parts of the score, each from its own measurement.
  lemma PartsMonotone(x: real, x': real, k: real, u: real, u': real, c: real)
    requires x <= x' && u' <= u && 0.0 < k && 0.0 < c
    ensures Max(0.0, 100.0 - x' * k) <= Max(0.0, 100.0 - x * k)
    ensures Min(100.0, u' / c) <= Min(100.0, u / c)
  {
    assert (x' - x) * k >= 0.0;
    assert u / c - u' / c == (u - u') / c >= 0.0;
  }

  lemma RawScoreMonotone(l: real, j: real, p: real, u: real, d: real, l': real, j': real, p': real, u': real, d': real)
    requires l <= l' && j <= j' && p <= p' && u' <= u && d' <= d
    ensures RawScore(l', j', p', u', d') <= RawScore(l, j, p, u, d)
  {
    LatencyScoreAntitone(l, l');
    PartsMonotone(j, j', 3.0, d, d', 0.3);
    PartsMonotone(p, p', 10.0, u, u', 0.1);
  }

  lemma RawScoreBounds(l: real, j: real, p: real, u: real, d: real)
    requires 0.0 <= l && 0.0 <= j && 0.0 <= p && 0.0 <= u && 0.0 <= d
    ensures 0.0 <= RawScore(l, j, p, u, d) <= 100.0
  {
    LatencyScoreAntitone(l, l);
  }

  lemma RoundMonotone(x: real, y: real)
    requires x <= y
    ensures LatencyStats.Round(x) <= LatencyStats.Round(y)
  {
  }

  lemma RoundBounds(x: real)
    ensures 0.0 <= x ==> 0 <= LatencyStats.Round(x)
    ensures x <= 10000.0 ==> LatencyStats.Round(x) <= 10000
  {
  }

  lemma HundredthsMonotone(x: real, y: real)
    requires x <= y
    ensures LatencyStats.Hundredths(x) <= LatencyStats.Hundredths(y)
    ensures 0.0 <= x ==> 0.0 <= LatencyStats.Hundredths(x)
    ensures y <= 100.0 ==> LatencyStats.Hundredths(y) <= 100.0
  {
    hide LatencyStats.Round;
    RoundMonotone(x * 100.0, y * 100.0);
    RoundBounds(x * 100.0);
    RoundBounds(y * 100.0);
  }

  lemma ScoreIsRounded(l: real, j: real, p: real, u: real, d: real)
    ensures ComputeScore(l, j, p, u, d) == LatencyStats.Hundredths(RawScore(l, j, p, u, d))
  {
  }

  // A connection that is no worse in any respect never scores lower, across the break at
  // 150 ms and after rounding.
  lemma ScoreMonotone(l: real, j: real, p: real, u: real, d: real, l': real, j': real, p': real, u': real, d': real)
    requires l <= l' && j <= j' && p <= p' && u' <= u && d' <= d
    ensures ComputeScore(l', j', p', u', d') <= ComputeScore(l, j, p, u, d)
  {
    hide *;
    RawScoreMonotone(l, j, p, u, d, l', j', p', u', d');
    HundredthsMonotone(RawScore(l', j', p', u', d'), RawScore(l, j, p, u, d));
    ScoreIsRounded(l, j, p, u, d);
    ScoreIsRounded(l', j', p', u', d');
  }

  // Nonnegative measurements score between 0 and 100.
  lemma ScoreBounds(l: real, j: real, p: real, u: real, d: real)
    requires 0.0 <= l && 0.0 <= j && 0.0 <= p && 0.0 <= u && 0.0 <= d
    ensures 0.0 <= ComputeScore(l, j, p, u, d) <= 100.0
  {
    hide *;
    RawScoreBounds(l, j, p, u, d);
    HundredthsMonotone(RawScore(l, j, p, u, d), RawScore(l, j, p, u, d));
    ScoreIsRounded(l, j, p, u, d);
  }

  lemma LatencyScoreValues(l: real)
    ensures l <= 150.0 ==> LatencyScore(l) * 3.0 == 300.0 - l
    ensures 150.0 < l <= 650.0 ==> LatencyScore(l) * 10.0 == 650.0 - l
    ensures 650.0 <= l ==> LatencyScore(l) == 0.0
  {
  }

  // What the parts weigh: from a perfect connection, latency alone can take 35 points (17.5
  // of them up to 150 ms), jitter 15, loss 25, and a missing download or upload 15 and 10;
  // each in proportion up to its limit.
  lemma ScoreWeights(x: real)
    requires 0.0 <= x <= 1.0
    ensures RawScore(0.0, 0.0, 0.0, 10.0, 30.0) == 100.0
    ensures RawScore(150.0 * x, 0.0, 0.0, 10.0, 30.0) == 100.0 - 17.5 * x
    ensures x > 0.0 ==> RawScore(150.0 + 500.0 * x, 0.0, 0.0, 10.0, 30.0) == 82.5 - 17.5 * x
    ensures RawScore(0.0, 100.0 / 3.0 * x, 0.0, 10.0, 30.0) == 100.0 - 15.0 * x
    ensures RawScore(0.0, 0.0, 10.0 * x, 10.0, 30.0) == 100.0 - 25.0 * x
    ensures RawScore(0.0, 0.0, 0.0, 10.0, 30.0 * x) == 85.0 + 15.0 * x
    ensures RawScore(0.0, 0.0, 0.0, 10.0 * x, 30.0) == 90.0 + 10.0 * x
  {
    LatencyScoreValues(150.0 * x);
    LatencyScoreValues(150.0 + 500.0 * x);
  }

  // ---------- jitter ----------

  function RoundedMean(total: real, count: nat): real
    requires 0 < count
  {
    LatencyStats.Hundredths(total / count as real)
  }

  function JitterOfSamples(samples: seq<real>): real {
    if |samples| < 2 then 0.0 else RoundedMean(LatencyStats.Variation(samples), |samples| - 1)
  }

  method CalculateJitter(samples: seq<real>) returns (jitter: real)
    ensures jitter == JitterOfSamples(samples)
  {
    if |samples| < 2 {
      return 0.0;
    }
    var sum := 0.0;
    for i := 1 to |samples|
      invariant sum == LatencyStats.Variation(samples[..i])
    {
      assert samples[..i + 1][..i] == samples[..i];
      var diff := LatencyStats.Abs(samples[i] - samples[i - 1]);
      sum := sum + diff;
    }
    assert samples[..|samples|] == samples;
    jitter := RoundedMean(sum, |samples| - 1);
  }

  lemma QuotientMonotone(a: real, b: real, n: real)
    requires a <= b && 0.0 < n
    ensures a / n <= b / n
  {
  }

  lemma RoundedMeanMonotone(a: real, b: real, count: nat)
    requires a <= b && 0 < count
    ensures RoundedMean(a, count) <= RoundedMean(b, count)
  {
    hide LatencyStats.Hundredths;
    QuotientMonotone(a, b, count as real);
    HundredthsMonotone(a / count as real, b / count as real);
  }

  // The figure is within half a hundredth of the mean neighbouring difference.
  lemma JitterIsTheMeanDifference(samples: seq<real>)
    requires 2 <= |samples|
    ensures var mean := LatencyStats.Variation(samples) / (|samples| - 1) as real;
            -0.005 <= JitterOfSamples(samples) - mean <= 0.005
  {
    hide LatencyStats.Variation, LatencyStats.Hundredths;
    LatencyStats.HundredthsIsNear(LatencyStats.Variation(samples) / (|samples| - 1) as real);
  }

  // Handing over ranked samples, as the monitoring loop does, gives the least jitter that
  // any order of the same samples could give.
  lemma RankedJitterIsLeast(samples: seq<real>)
    ensures JitterOfSamples(LatencyStats.Sort(samples)) <= JitterOfSamples(samples)
  {
    hide LatencyStats.Sort, LatencyStats.Variation, RoundedMean;
    LatencyStats.SortSorts(samples);
    assert |LatencyStats.Sort(samples)| == |samples|;
    if 2 <= |samples| {
      LatencyStats.SortingMinimisesVariation(samples);
      RoundedMeanMonotone(LatencyStats.Variation(LatencyStats.Sort(samples)), LatencyStats.Variation(samples),
                          |samples| - 1);
    }
  }

  // ---------- the windows ----------

  function LatencyPoint(i: Input): Point { Point(i.now, i.latency, "ping") }

  function JitterPoint(i: Input): Point { Point(i.now, i.jitter, "jitter") }

  function LatencyOf(i: Input): real { i.latency }

  function JitterOf(i: Input): real { i.jitter }

  function Map<A, B>(f: A -> B, s: seq<A>): (r: seq<B>)
    ensures |r| == |s| && forall i :: 0 <= i < |s| ==> r[i] == f(s[i])
  {
    if s == [] then [] else Map(f, s[..|s| - 1]) + [f(s[|s| - 1])]
  }

  lemma MapSnoc<A, B>(f: A -> B, s: seq<A>, x: A)
    ensures Map(f, s + [x]) == Map(f, s) + [f(x)]
  {
    assert (s + [x])[..|s|] == s;
  }

  lemma LastNAt<T>(s: seq<T>, n: nat)
    ensures var r := LastN(s, n);
            |r| == (if |s| <= n then |s| else n) && forall k :: 0 <= k < |r| ==> r[k] == s[|s| - |r| + k]
  {
  }

  lemma LastMapped<A, B>(f: A -> B, s: seq<A>, n: nat)
    ensures var r := LastN(Map(f, s), n);
            |r| == (if |s| <= n then |s| else n) && forall k :: 0 <= k < |r| ==> r[k] == f(s[|s| - |r| + k])
  {
    LastNAt(Map(f, s), n);
    hide Map, LastN;
  }

  // The latency chart shows the last n inputs: each one's latency, at its time.
  ghost predicate LatencyChart(chart: seq<Point>, fed: seq<Input>, n: nat) {
    |chart| == (if |fed| <= n then |fed| else n) &&
    forall k :: 0 <= k < |chart| ==>
      var i := fed[|fed| - |chart| + k];
      chart[k].value == i.latency && chart[k].timestamp == i.now && chart[k].series == "ping"
  }

  ghost predicate JitterChart(chart: seq<Point>, fed: seq<Input>, n: nat) {
    |chart| == (if |fed| <= n then |fed| else n) &&
    forall k :: 0 <= k < |chart| ==>
      var i := fed[|fed| - |chart| + k];
      chart[k].value == i.jitter && chart[k].timestamp == i.now && chart[k].series == "jitter"
  }

  lemma LatencyChartByInput(fed: seq<Input>, n: nat)
    ensures LatencyChart(LastN(Map(LatencyPoint, fed), n), fed, n)
  {
    LastMapped(LatencyPoint, fed, n);
    hide LastN, Map;
  }

  lemma JitterChartByInput(fed: seq<Input>, n: nat)
    ensures JitterChart(LastN(Map(JitterPoint, fed), n), fed, n)
  {
    LastMapped(JitterPoint, fed, n);
    hide LastN, Map;
  }

  ghost predicate LastLatencies(l: seq<real>, fed: seq<Input>, n: nat) {
    |l| == (if |fed| <= n then |fed| else n) && forall k :: 0 <= k < |l| ==> l[k] == fed[|fed| - |l| + k].latency
  }

  ghost predicate LastJitters(j: seq<real>, fed: seq<Input>, n: nat) {
    |j| == (if |fed| <= n then |fed| else n) && forall k :: 0 <= k < |j| ==> j[k] == fed[|fed| - |j| + k].jitter
  }

  lemma PlainByInput(fed: seq<Input>, n: nat)
    ensures LastLatencies(LastN(Map(LatencyOf, fed), n), fed, n)
    ensures LastJitters(LastN(Map(JitterOf, fed), n), fed, n)
  {
    hide LastN, Map;
    LastMapped(LatencyOf, fed, n);
    LastMapped(JitterOf, fed, n);
  }

  ghost predicate Extremes(lo: real, hi: real, s: seq<real>) {
    lo in s && hi in s && forall i :: 0 <= i < |s| ==> lo <= s[i] <= hi
  }

  // The min/max loop of Update.
  method MinMax(s: Slice<real>) returns (min: real, max: real)
    requires s.Ok() && 0 < s.len
    ensures Extremes(min, max, s.Elems())
  {
    ghost var e := s.Elems();
    min, max := s.arr[s.off], s.arr[s.off];
    assert min == e[0];
    for i := 0 to s.len
      invariant min in e && max in e && forall k :: 0 <= k < i ==> min <= e[k] <= max
      invariant min <= max
    {
      var v := s.arr[s.off + i];
      assert v == e[i];
      if v < min {
        min := v;
      }
      if v > max {
        max := v;
      }
    }
  }

  // Two empty windows with arrays of their own.
  method NewWindows<T>(max: nat) returns (a: Window<T>, b: Window<T>)
    requires 0 < max
    ensures a.Valid() && b.Valid() && a.max == b.max == max && a.log == b.log == []
    ensures a != b && fresh(a) && fresh(b) && fresh(a.arrays) && fresh(b.arrays) && a.arrays !! b.arrays
  {
    a := new Window<T>(max);
    b := new Window<T>(max);
  }

  // A subscriber's past: how many messages had been sent when it subscribed, and what has
  // happened at its channel since.
  datatype Past = Past(from: nat, events: seq<Event<Metrics>>)

  // Channel c is where its past leads, and was offered every message since its start.
  ghost predicate Follows(c: Channel<Metrics>, p: Past, sent: seq<Metrics>) {
    p.from <= |sent| && c == Run(p.events) && Offers(p.events) == sent[p.from..]
  }

  ghost predicate SubscribersOk(subscribers: seq<Channel<Metrics>>, pasts: seq<Past>, sent: seq<Metrics>) {
    |pasts| == |subscribers| && forall k :: 0 <= k < |subscribers| ==> Follows(subscribers[k], pasts[k], sent)
  }

  lemma FollowsNothing(sent: seq<Metrics>)
    ensures Follows(Empty(), Past(|sent|, []), sent)
  {
  }

  lemma FollowsOffer(c: Channel<Metrics>, p: Past, sent: seq<Metrics>, m: Metrics)
    requires Follows(c, p, sent)
    ensures Follows(Send(c, m), p.(events := p.events + [Offer(m)]), sent + [m])
  {
    var es := p.events + [Offer(m)];
    assert es[..|es| - 1] == p.events;
    assert (sent + [m])[p.from..] == sent[p.from..] + [m];
  }

  lemma FollowsReceive(c: Channel<Metrics>, p: Past, sent: seq<Metrics>)
    requires Follows(c, p, sent)
    ensures Follows(Step(c, Receive), p.(events := p.events + [Receive]), sent)
  {
    var es := p.events + [Receive];
    assert es[..|es| - 1] == p.events;
  }

  // Every update sent one message, with its own figures.
  ghost predicate MessagesOk(sent: seq<Metrics>, inputs: seq<Input>) {
    |sent| == |inputs| &&
    forall j :: 0 <= j < |sent| ==> sent[j].latency == inputs[j].latency && sent[j].timestamp == inputs[j].now
  }

  ghost predicate Extends<K, V>(a: map<K, V>, b: map<K, V>) {
    forall k :: k in a ==> k in b && b[k] == a[k]
  }

  lemma ExtendsChain<K, V>(a: map<K, V>, b: map<K, V>, c: map<K, V>)
    requires Extends(a, b) && Extends(b, c)
    ensures Extends(a, c)
  {
  }

  lemma ExtendsUpdate<K, V>(a: map<K, V>, k: K, v: V)
    requires k in a ==> a[k] == v
    ensures Extends(a, a[k := v])
  {
  }

  // What is on record for the slices of both charts.
  datatype Ledger = Ledger(latency: map<Slice<Point>, seq<Point>>, jitter: map<Slice<Point>, seq<Point>>)
  {
    ghost predicate ExtendedBy(later: Ledger) {
      Extends(latency, later.latency) && Extends(jitter, later.jitter)
    }

    // The slices of m are on record as windows of n show them when `fed` has been fed.
    ghost predicate Shows(m: Metrics, fed: seq<Input>, n: nat) {
      m.history in latency && latency[m.history] == LastN(Map(LatencyPoint, fed), n) &&
      m.jitterHistory in jitter && jitter[m.jitterHistory] == LastN(Map(JitterPoint, fed), n)
    }

    // Every poll among the first j calls is on record as of its own moment.
    ghost predicate ShowsPolls(polls: map<nat, Metrics>, before: seq<Input>, calls: seq<Call>, j: nat, n: nat)
      requires j <= |calls|
    {
      (forall k: nat :: k in polls <==> k < j && calls[k].Poll?) &&
      forall k: nat :: k in polls ==> Shows(polls[k], before + Fed(calls[..k]), n)
    }
  }

  lemma LedgerChain(a: Ledger, b: Ledger, c: Ledger)
    requires a.ExtendedBy(b) && b.ExtendedBy(c)
    ensures a.ExtendedBy(c)
  {
    ExtendsChain(a.latency, b.latency, c.latency);
    ExtendsChain(a.jitter, b.jitter, c.jitter);
  }

  lemma StillShows(a: Ledger, b: Ledger, m: Metrics, fed: seq<Input>, n: nat)
    requires a.ExtendedBy(b) && a.Shows(m, fed, n)
    ensures b.Shows(m, fed, n)
  {
    hide LastN, Map;
  }

  // One more call, whose poll, if it is one, is on record.
  lemma ShowsOneMore(a: Ledger, b: Ledger, polls: map<nat, Metrics>, m: Metrics,
                     before: seq<Input>, calls: seq<Call>, j: nat, n: nat)
    requires j < |calls| && a.ShowsPolls(polls, before, calls, j, n) && a.ExtendedBy(b)
    requires calls[j].Poll? ==> b.Shows(m, before + Fed(calls[..j]), n)
    ensures b.ShowsPolls(if calls[j].Poll? then polls[j := m] else polls, before, calls, j + 1, n)
  {
    hide Ledger.Shows, Ledger.ExtendedBy, Fed;
    forall k: nat | k in polls ensures b.Shows(polls[k], before + Fed(calls[..k]), n) {
      StillShows(a, b, polls[k], before + Fed(calls[..k]), n);
    }
  }

  // A call on the monitor.
  datatype Call =
    | Feed(i: Input)
    | Poll
    | Join
    | TakeFrom(subscriber: nat)
    | Speeds(down: real, up: real)
    | Throughput(incoming: real, outgoing: real)
    | Connections(count: int)

  // The inputs of the updates among some calls.
  function Fed(calls: seq<Call>): seq<Input> {
    if calls == [] then []
    else Fed(calls[..|calls| - 1]) + (if calls[|calls| - 1].Feed? then [calls[|calls| - 1].i] else [])
  }

  lemma FedStep(before: seq<Input>, calls: seq<Call>, j: nat)
    requires j < |calls|
    ensures before + Fed(calls[..j + 1]) ==
            if calls[j].Feed? then before + Fed(calls[..j]) + [calls[j].i] else before + Fed(calls[..j])
  {
    assert calls[..j + 1][..j] == calls[..j];
  }

  class Monitor {
    var metrics: Metrics
    const history: Window<Point>
    const jitterPoints: Window<Point>
    const latencyHistory: Window<real>
    const jitterHistory: Window<real>
    var subscribers: seq<Channel<Metrics>>
    const maxHistory: nat
    ghost var inputs: seq<Input>
    ghost var sent: seq<Metrics>
    ghost var pasts: seq<Past>

    ghost predicate Apart()
      reads history, jitterPoints, latencyHistory, jitterHistory
    {
      history != jitterPoints && latencyHistory != jitterHistory &&
      history.arrays !! jitterPoints.arrays && latencyHistory.arrays !! jitterHistory.arrays
    }

    ghost predicate WindowsValid()
      reads history, jitterPoints, latencyHistory, jitterHistory
      reads history.arrays, jitterPoints.arrays, latencyHistory.arrays, jitterHistory.arrays
    {
      history.Valid() && jitterPoints.Valid() && latencyHistory.Valid() && jitterHistory.Valid() &&
      history.max == jitterPoints.max == latencyHistory.max == jitterHistory.max == maxHistory && Apart()
    }

    // The windows have been fed the inputs and nothing else.
    ghost predicate LogsOk()
      reads this`inputs, history`log, jitterPoints`log, latencyHistory`log, jitterHistory`log
    {
      history.log == Map(LatencyPoint, inputs) && jitterPoints.log == Map(JitterPoint, inputs) &&
      latencyHistory.log == Map(LatencyOf, inputs) && jitterHistory.log == Map(JitterOf, inputs)
    }

    // Every window holds the last maxHistory inputs, in order, and the reported extremes
    // are those of the latency window.
    ghost predicate Valid()
      reads this, history, jitterPoints, latencyHistory, jitterHistory
      reads history.arrays, jitterPoints.arrays, latencyHistory.arrays, jitterHistory.arrays
    {
      WindowsValid() && LogsOk() &&
      SubscribersOk(subscribers, pasts, sent) && MessagesOk(sent, inputs) &&
      (inputs != [] ==> Extremes(metrics.latencyMin, metrics.latencyMax, latencyHistory.s.Elems()))
    }

    constructor (maxHistory: int, now: int)
      ensures Valid() && inputs == [] && subscribers == []
      ensures this.maxHistory == if maxHistory <= 0 then 120 else maxHistory
      ensures fresh(history) && fresh(jitterPoints) && fresh(latencyHistory) && fresh(jitterHistory)
      ensures fresh(history.arrays) && fresh(jitterPoints.arrays)
      ensures fresh(latencyHistory.arrays) && fresh(jitterHistory.arrays)
    {
      var max: nat := if maxHistory <= 0 then 120 else maxHistory;
      this.maxHistory := max;
      var h, j := NewWindows<Point>(max);
      var l, k := NewWindows<real>(max);
      history, jitterPoints, latencyHistory, jitterHistory := h, j, l, k;
      metrics := Metrics(0.0, 0.0, 0.0, 0.0, 0.0, 0.0, 0.0, 0.0, 0, 0.0, 0.0, 0.0, now, h.s, j.s);
      subscribers, inputs, sent, pasts := [], [], [], [];
    }

    // Append to one chart history and trim it. Copies handed out keep their contents,
    // although they share the arrays.
    method PushLatencyPoint(i: Input)
      requires WindowsValid()
      modifies history, history.s.arr
      ensures WindowsValid() && history.log == old(history.log) + [LatencyPoint(i)]
      ensures fresh(history.arrays - old(history.arrays))
      ensures history.issued == old(history.issued)
      ensures forall v :: v in history.issued ==> v.Elems() == old(v.Elems())
      ensures forall v :: v in jitterPoints.issued ==> v.Elems() == old(v.Elems())
    {
      history.Push(LatencyPoint(i));
    }

    method PushJitterPoint(i: Input)
      requires WindowsValid()
      modifies jitterPoints, jitterPoints.s.arr
      ensures WindowsValid() && jitterPoints.log == old(jitterPoints.log) + [JitterPoint(i)]
      ensures fresh(jitterPoints.arrays - old(jitterPoints.arrays))
      ensures jitterPoints.issued == old(jitterPoints.issued)
      ensures forall v :: v in history.issued ==> v.Elems() == old(v.Elems())
      ensures forall v :: v in jitterPoints.issued ==> v.Elems() == old(v.Elems())
    {
      jitterPoints.Push(JitterPoint(i));
    }

    // Both of them.
    method PushPoints(i: Input)
      requires WindowsValid()
      modifies history, history.s.arr, jitterPoints, jitterPoints.s.arr
      ensures WindowsValid()
      ensures fresh(history.arrays - old(history.arrays))
      ensures fresh(jitterPoints.arrays - old(jitterPoints.arrays))
      ensures history.log == old(history.log) + [LatencyPoint(i)]
      ensures jitterPoints.log == old(jitterPoints.log) + [JitterPoint(i)]
      ensures history.issued == old(history.issued) && jitterPoints.issued == old(jitterPoints.issued)
      ensures forall v :: v in old(history.issued) ==> v.Elems() == old(v.Elems())
      ensures forall v :: v in old(jitterPoints.issued) ==> v.Elems() == old(v.Elems())
    {
      assert history != jitterPoints;
      hide Window.Valid, Slice.Elems;
      PushLatencyPoint(i);
      PushJitterPoint(i);
    }

    // The same for the two plain histories.
    method PushValues(i: Input)
      requires WindowsValid()
      modifies latencyHistory, latencyHistory.s.arr, jitterHistory, jitterHistory.s.arr
      ensures WindowsValid()
      ensures fresh(latencyHistory.arrays - old(latencyHistory.arrays))
      ensures fresh(jitterHistory.arrays - old(jitterHistory.arrays))
      ensures latencyHistory.log == old(latencyHistory.log) + [i.latency]
      ensures jitterHistory.log == old(jitterHistory.log) + [i.jitter]
      ensures history.issued == old(history.issued) && jitterPoints.issued == old(jitterPoints.issued)
      ensures forall v :: v in history.issued ==> v.Elems() == old(v.Elems())
      ensures forall v :: v in jitterPoints.issued ==> v.Elems() == old(v.Elems())
    {
      hide Window.IssuedOk, LastN;
      latencyHistory.Push(i.latency);
      jitterHistory.Push(i.jitter);
    }

    // All four histories.
    method PushAll(i: Input)
      requires WindowsValid()
      modifies history, history.s.arr, jitterPoints, jitterPoints.s.arr
      modifies latencyHistory, latencyHistory.s.arr, jitterHistory, jitterHistory.s.arr
      ensures WindowsValid()
      ensures fresh(history.arrays - old(history.arrays)) && fresh(jitterPoints.arrays - old(jitterPoints.arrays))
      ensures fresh(latencyHistory.arrays - old(latencyHistory.arrays))
      ensures fresh(jitterHistory.arrays - old(jitterHistory.arrays))
      ensures history.log == old(history.log) + [LatencyPoint(i)]
      ensures jitterPoints.log == old(jitterPoints.log) + [JitterPoint(i)]
      ensures latencyHistory.log == old(latencyHistory.log) + [i.latency]
      ensures jitterHistory.log == old(jitterHistory.log) + [i.jitter]
      ensures history.issued == old(history.issued) && jitterPoints.issued == old(jitterPoints.issued)
      ensures forall v :: v in history.issued ==> v.Elems() == old(v.Elems())
      ensures forall v :: v in jitterPoints.issued ==> v.Elems() == old(v.Elems())
    {
      hide WindowsValid, Slice.Elems;
      PushPoints(i);
      PushValues(i);
    }

    // A copy of the metrics with both chart histories attached.
    method Snapshot() returns (m: Metrics)
      requires WindowsValid()
      modifies history`issued, jitterPoints`issued
      ensures WindowsValid() && m == metrics.(history := history.s, jitterHistory := jitterPoints.s)
      ensures history.issued == old(history.issued)[m.history := history.s.Elems()]
      ensures jitterPoints.issued == old(jitterPoints.issued)[m.jitterHistory := jitterPoints.s.Elems()]
    {
      hide Window.Valid;
      var h := history.Share();
      var j := jitterPoints.Share();
      m := metrics.(history := h, jitterHistory := j);
    }

    // Offer a message to every subscriber in turn.
    method Notify(m: Metrics)
      requires SubscribersOk(subscribers, pasts, sent)
      modifies this`subscribers, this`pasts, this`sent
      ensures SubscribersOk(subscribers, pasts, sent) && sent == old(sent) + [m]
      ensures |subscribers| == |old(subscribers)| && |pasts| == |old(pasts)|
      ensures forall k :: 0 <= k < |subscribers| ==> subscribers[k] == Send(old(subscribers)[k], m)
      ensures forall k :: 0 <= k < |pasts| ==>
        pasts[k] == old(pasts)[k].(events := old(pasts)[k].events + [Offer(m)])
    {
      hide Follows, Send;
      var subs := subscribers;
      for i := 0 to |subs|
        invariant |subscribers| == |subs| && pasts == old(pasts) && sent == old(sent)
        invariant forall k :: 0 <= k < i ==> subscribers[k] == Send(subs[k], m)
        invariant forall k :: i <= k < |subs| ==> subscribers[k] == subs[k]
      {
        subscribers := subscribers[i := Send(subscribers[i], m)];
      }
      ghost var was := pasts;
      pasts := seq(|was|, k requires 0 <= k < |was| => was[k].(events := was[k].events + [Offer(m)]));
      forall k | 0 <= k < |subs| ensures Follows(subscribers[k], pasts[k], sent + [m]) {
        FollowsOffer(subs[k], was[k], sent, m);
      }
      sent := sent + [m];
    }

    // The histories take the input.
    method Record(i: Input)
      requires WindowsValid() && LogsOk()
      modifies this`inputs
      modifies history, history.s.arr, jitterPoints, jitterPoints.s.arr
      modifies latencyHistory, latencyHistory.s.arr, jitterHistory, jitterHistory.s.arr
      ensures WindowsValid() && LogsOk() && inputs == old(inputs) + [i]
      ensures fresh(history.arrays - old(history.arrays)) && fresh(jitterPoints.arrays - old(jitterPoints.arrays))
      ensures fresh(latencyHistory.arrays - old(latencyHistory.arrays))
      ensures fresh(jitterHistory.arrays - old(jitterHistory.arrays))
      ensures history.issued == old(history.issued) && jitterPoints.issued == old(jitterPoints.issued)
      ensures forall v :: v in history.issued ==> v.Elems() == old(v.Elems())
      ensures forall v :: v in jitterPoints.issued ==> v.Elems() == old(v.Elems())
    {
      hide WindowsValid, Map;
      MapSnoc(LatencyPoint, inputs, i);
      MapSnoc(JitterPoint, inputs, i);
      MapSnoc(LatencyOf, inputs, i);
      MapSnoc(JitterOf, inputs, i);
      PushAll(i);
      inputs := inputs + [i];
    }

    // The extremes of the latency window, and the score.
    method Rescore(i: Input)
      requires WindowsValid() && LogsOk() && inputs != []
      modifies this`metrics
      ensures WindowsValid() && LogsOk() && Extremes(metrics.latencyMin, metrics.latencyMax, latencyHistory.s.Elems())
      ensures metrics == old(metrics).(latencyMin := metrics.latencyMin, latencyMax := metrics.latencyMax,
                score := ComputeScore(i.latency, i.jitter, i.packetLoss, old(metrics).upSpeed, old(metrics).downSpeed))
    {
      assert |latencyHistory.s.Elems()| > 0;
      var min, max := MinMax(latencyHistory.s);
      metrics := metrics.(latencyMin := min, latencyMax := max,
                   score := ComputeScore(i.latency, i.jitter, i.packetLoss, metrics.upSpeed, metrics.downSpeed));
    }

    // Update up to the message: the new values, the four histories, extremes and score.
    method Advance(i: Input)
      requires WindowsValid() && LogsOk()
      modifies this`metrics, this`inputs
      modifies history, history.s.arr, jitterPoints, jitterPoints.s.arr
      modifies latencyHistory, latencyHistory.s.arr, jitterHistory, jitterHistory.s.arr
      ensures WindowsValid() && LogsOk() && inputs == old(inputs) + [i]
      ensures Extremes(metrics.latencyMin, metrics.latencyMax, latencyHistory.s.Elems())
      ensures fresh(history.arrays - old(history.arrays)) && fresh(jitterPoints.arrays - old(jitterPoints.arrays))
      ensures fresh(latencyHistory.arrays - old(latencyHistory.arrays))
      ensures fresh(jitterHistory.arrays - old(jitterHistory.arrays))
      ensures history.issued == old(history.issued) && jitterPoints.issued == old(jitterPoints.issued)
      ensures forall v :: v in history.issued ==> v.Elems() == old(v.Elems())
      ensures forall v :: v in jitterPoints.issued ==> v.Elems() == old(v.Elems())
      ensures metrics == old(metrics).(latency := i.latency, jitter := i.jitter, packetLoss := i.packetLoss,
                dnsSpeed := i.dnsSpeed, timestamp := i.now,
                latencyMin := metrics.latencyMin, latencyMax := metrics.latencyMax,
                score := ComputeScore(i.latency, i.jitter, i.packetLoss, old(metrics).upSpeed, old(metrics).downSpeed))
    {
      hide WindowsValid, LogsOk, Extremes, ComputeScore;
      Record(i);
      metrics := metrics.(latency := i.latency, jitter := i.jitter, packetLoss := i.packetLoss,
                          dnsSpeed := i.dnsSpeed, timestamp := i.now);
      Rescore(i);
    }

    // The last part: a message with both charts, offered to every subscriber.
    method Publish() returns (ghost message: Metrics)
      requires WindowsValid() && LogsOk() && SubscribersOk(subscribers, pasts, sent)
      modifies this`subscribers, this`pasts, this`sent, history`issued, jitterPoints`issued
      ensures WindowsValid() && LogsOk() && SubscribersOk(subscribers, pasts, sent)
      ensures message == metrics.(history := history.s, jitterHistory := jitterPoints.s)
      ensures sent == old(sent) + [message]
      ensures history.issued == old(history.issued)[message.history := history.s.Elems()]
      ensures jitterPoints.issued == old(jitterPoints.issued)[message.jitterHistory := jitterPoints.s.Elems()]
      ensures |subscribers| == |old(subscribers)|
      ensures forall k :: 0 <= k < |subscribers| ==> subscribers[k] == Send(old(subscribers)[k], message)
    {
      hide WindowsValid, Map, SubscribersOk, Send;
      var m := Snapshot();
      Notify(m);
      message := m;
    }

    method Update(i: Input) returns (ghost message: Metrics)
      requires Valid()
      modifies this`metrics, this`subscribers, this`inputs, this`pasts, this`sent
      modifies history, history.s.arr, jitterPoints, jitterPoints.s.arr
      modifies latencyHistory, latencyHistory.s.arr, jitterHistory, jitterHistory.s.arr
      ensures Valid() && inputs == old(inputs) + [i] && sent == old(sent) + [message]
      ensures forall v :: v in old(history.issued) ==> v in history.issued && v.Elems() == old(v.Elems())
      ensures forall v :: v in old(jitterPoints.issued) ==> v in jitterPoints.issued && v.Elems() == old(v.Elems())
      ensures fresh(history.arrays - old(history.arrays)) && fresh(jitterPoints.arrays - old(jitterPoints.arrays))
      ensures fresh(latencyHistory.arrays - old(latencyHistory.arrays))
      ensures fresh(jitterHistory.arrays - old(jitterHistory.arrays))
      ensures message == metrics.(history := history.s, jitterHistory := jitterPoints.s)
      ensures message.history in history.issued && message.jitterHistory in jitterPoints.issued
      ensures |subscribers| == |old(subscribers)|
      ensures forall k :: 0 <= k < |subscribers| ==> subscribers[k] == Send(old(subscribers)[k], message)
      ensures metrics == old(metrics).(latency := i.latency, jitter := i.jitter, packetLoss := i.packetLoss,
                dnsSpeed := i.dnsSpeed, timestamp := i.now,
                latencyMin := metrics.latencyMin, latencyMax := metrics.latencyMax,
                score := ComputeScore(i.latency, i.jitter, i.packetLoss, old(metrics).upSpeed, old(metrics).downSpeed))
    {
      hide WindowsValid, LogsOk, SubscribersOk, Send, Extremes, ComputeScore;
      Advance(i);
      message := Publish();
    }

    method GetMetrics() returns (m: Metrics)
      requires Valid()
      modifies history`issued, jitterPoints`issued
      ensures Valid() && m == metrics.(history := history.s, jitterHistory := jitterPoints.s)
      ensures history.issued == old(history.issued)[m.history := m.history.Elems()]
      ensures jitterPoints.issued == old(jitterPoints.issued)[m.jitterHistory := m.jitterHistory.Elems()]
      ensures m.history.Elems() == LastN(Map(LatencyPoint, inputs), maxHistory)
      ensures m.jitterHistory.Elems() == LastN(Map(JitterPoint, inputs), maxHistory)
      ensures LatencyChart(m.history.Elems(), inputs, maxHistory)
      ensures JitterChart(m.jitterHistory.Elems(), inputs, maxHistory)
    {
      LatencyChartByInput(inputs, maxHistory);
      JitterChartByInput(inputs, maxHistory);
      hide LatencyChart, JitterChart;
      assert history.s.Elems() == LastN(history.log, maxHistory);
      assert jitterPoints.s.Elems() == LastN(jitterPoints.log, maxHistory);
      hide WindowsValid, Map, LastN, SubscribersOk, MessagesOk, Extremes, Slice.Elems;
      m := Snapshot();
    }

    method Subscribe() returns (k: nat)
      requires Valid()
      modifies this`subscribers, this`pasts
      ensures Valid() && k == |old(subscribers)| && subscribers == old(subscribers) + [Empty()]
      ensures pasts == old(pasts) + [Past(|sent|, [])]
    {
      hide WindowsValid, LogsOk, Extremes, Follows;
      FollowsNothing(sent);
      k := |subscribers|;
      subscribers := subscribers + [Empty()];
      pasts := pasts + [Past(|sent|, [])];
    }

    // Subscriber k receives the oldest message waiting for it; None is where it would block.
    method ReceiveFrom(k: nat) returns (got: Option<Metrics>)
      requires Valid() && k < |subscribers|
      modifies this`subscribers, this`pasts
      ensures Valid() && |subscribers| == |old(subscribers)|
      ensures forall j :: 0 <= j < |subscribers| && j != k ==> subscribers[j] == old(subscribers)[j]
      ensures var was, now := old(subscribers)[k], subscribers[k];
              if was.buffer == [] then got == None && now == was
              else got == Some(was.buffer[0]) && now.buffer == was.buffer[1..] &&
                   now.received == was.received + [was.buffer[0]] && now.offered == was.offered
      ensures pasts == old(pasts)[k := old(pasts)[k].(events := old(pasts)[k].events + [Receive])]
    {
      hide WindowsValid, LogsOk, Extremes, Follows;
      FollowsReceive(subscribers[k], pasts[k], sent);
      got := if subscribers[k].buffer == [] then None else Some(subscribers[k].buffer[0]);
      subscribers := subscribers[k := Step(subscribers[k], Receive)];
      pasts := pasts[k := pasts[k].(events := pasts[k].events + [Receive])];
    }

    // What a subscriber has received plus what waits for it is an ordered subsequence of
    // the messages of the updates since it subscribed, and is all of them exactly when none
    // of them found sixteen waiting. It has received one message for each receive that
    // found something, from the front.
    lemma SubscriberGetsUpdates(k: nat)
      requires Valid() && k < |subscribers|
      ensures k < |pasts| && pasts[k].from <= |sent|
      ensures var c, es, since := subscribers[k], pasts[k].events, sent[pasts[k].from..];
              Offers(es) == since && c.Delivered() == Kept(es) && Subsequence(Kept(es), since) &&
              |c.received| == Fruitful(es) && c.received == c.Delivered()[..Fruitful(es)] &&
              (c.Delivered() == since <==> forall j :: 0 <= j < |es| ==> !FullAt(es, j))
    {
      assert Follows(subscribers[k], pasts[k], sent);
      DeliveryIsOrderedAndExactIff(pasts[k].events);
    }

    method UpdateSpeeds(down: real, up: real)
      requires Valid()
      modifies this`metrics
      ensures Valid() && metrics == old(metrics).(downSpeed := down, upSpeed := up)
    {
      hide WindowsValid, LogsOk, Extremes, SubscribersOk;
      metrics := metrics.(downSpeed := down, upSpeed := up);
    }

    method UpdateThroughput(incoming: real, outgoing: real)
      requires Valid()
      modifies this`metrics
      ensures Valid() && metrics == old(metrics).(throughputIn := incoming, throughputOut := outgoing)
    {
      hide WindowsValid, LogsOk, Extremes, SubscribersOk;
      metrics := metrics.(throughputIn := incoming, throughputOut := outgoing);
    }

    method SetConnections(count: int)
      requires Valid()
      modifies this`metrics
      ensures Valid() && metrics == old(metrics).(connections := count)
    {
      hide WindowsValid, LogsOk, Extremes, SubscribersOk;
      metrics := metrics.(connections := count);
    }

    // The windows' current arrays are among those they have had.
    lemma ArraysHeld()
      requires Valid()
      ensures history.s.arr in history.arrays && jitterPoints.s.arr in jitterPoints.arrays
      ensures latencyHistory.s.arr in latencyHistory.arrays && jitterHistory.s.arr in jitterHistory.arrays
    {
    }

    lemma PlainElems()
      requires Valid()
      ensures latencyHistory.s.Elems() == LastN(Map(LatencyOf, inputs), maxHistory)
      ensures jitterHistory.s.Elems() == LastN(Map(JitterOf, inputs), maxHistory)
    {
    }

    // The two plain histories hold the last inputs' latencies and jitters.
    lemma PlainHistories()
      requires Valid()
      ensures LastLatencies(latencyHistory.s.Elems(), inputs, maxHistory)
      ensures LastJitters(jitterHistory.s.Elems(), inputs, maxHistory)
    {
      PlainElems();
      hide Valid, LastN, Map, Slice.Elems, LastLatencies, LastJitters;
      PlainByInput(inputs, maxHistory);
    }

    // What is on record for an issued slice is what it shows.
    lemma IssuedShow()
      requires WindowsValid()
      ensures forall v :: v in history.issued ==> v.Ok() && v.Elems() == history.issued[v]
      ensures forall v :: v in jitterPoints.issued ==> v.Ok() && v.Elems() == jitterPoints.issued[v]
    {
    }

    ghost function OnRecord(): Ledger
      reads history`issued, jitterPoints`issued
    {
      Ledger(history.issued, jitterPoints.issued)
    }

    method FeedOne(i: Input)
      requires Valid()
      modifies this`metrics, this`subscribers, this`inputs, this`pasts, this`sent
      modifies history, history.s.arr, jitterPoints, jitterPoints.s.arr
      modifies latencyHistory, latencyHistory.s.arr, jitterHistory, jitterHistory.s.arr
      ensures Valid() && inputs == old(inputs) + [i] && old(OnRecord()).ExtendedBy(OnRecord())
      ensures fresh(history.arrays - old(history.arrays)) && fresh(jitterPoints.arrays - old(jitterPoints.arrays))
      ensures fresh(latencyHistory.arrays - old(latencyHistory.arrays))
      ensures fresh(jitterHistory.arrays - old(jitterHistory.arrays))
    {
      hide WindowsValid, LogsOk, SubscribersOk, MessagesOk, Extremes, Slice.Elems, Send, ComputeScore;
      IssuedShow();
      ghost var message := Update(i);
      IssuedShow();
    }

    // A poll puts on record what is on record already, if it is.
    lemma PollExtends()
      requires Valid()
      ensures Extends(history.issued, history.issued[history.s := LastN(Map(LatencyPoint, inputs), maxHistory)])
      ensures Extends(jitterPoints.issued,
                      jitterPoints.issued[jitterPoints.s := LastN(Map(JitterPoint, inputs), maxHistory)])
    {
      IssuedShow();
      ExtendsUpdate(history.issued, history.s, LastN(Map(LatencyPoint, inputs), maxHistory));
      ExtendsUpdate(jitterPoints.issued, jitterPoints.s, LastN(Map(JitterPoint, inputs), maxHistory));
    }

    method PollOne() returns (m: Metrics)
      requires Valid()
      modifies history`issued, jitterPoints`issued
      ensures Valid() && old(OnRecord()).ExtendedBy(OnRecord()) && OnRecord().Shows(m, inputs, maxHistory)
    {
      hide Valid, Extends, Slice.Elems, Map, LastN;
      PollExtends();
      m := GetMetrics();
    }

    // One call.
    method Serve(call: Call) returns (polled: Metrics)
      requires Valid()
      modifies this`metrics, this`subscribers, this`inputs, this`pasts, this`sent
      modifies history, history.s.arr, jitterPoints, jitterPoints.s.arr
      modifies latencyHistory, latencyHistory.s.arr, jitterHistory, jitterHistory.s.arr
      ensures Valid() && inputs == if call.Feed? then old(inputs) + [call.i] else old(inputs)
      ensures old(OnRecord()).ExtendedBy(OnRecord())
      ensures fresh(history.arrays - old(history.arrays)) && fresh(jitterPoints.arrays - old(jitterPoints.arrays))
      ensures fresh(latencyHistory.arrays - old(latencyHistory.arrays))
      ensures fresh(jitterHistory.arrays - old(jitterHistory.arrays))
      ensures call.Poll? ==> OnRecord().Shows(polled, inputs, maxHistory)
      ensures call.Join? ==> subscribers == old(subscribers) + [Empty()]
      ensures call.TakeFrom? && call.subscriber < |old(subscribers)| &&
              old(subscribers)[call.subscriber].buffer != [] ==>
        |subscribers| == |old(subscribers)| &&
        subscribers[call.subscriber].received ==
          old(subscribers)[call.subscriber].received + [old(subscribers)[call.subscriber].buffer[0]]
      ensures call.Speeds? ==> metrics == old(metrics).(downSpeed := call.down, upSpeed := call.up)
      ensures call.Throughput? ==>
        metrics == old(metrics).(throughputIn := call.incoming, throughputOut := call.outgoing)
      ensures call.Connections? ==> metrics == old(metrics).(connections := call.count)
    {
      hide Valid, WindowsValid, Ledger.Shows, Step;
      polled := metrics;
      match call
      case Feed(i) => FeedOne(i);
      case Poll => polled := PollOne();
      case Join => var k := Subscribe();
      case TakeFrom(k) => if k < |subscribers| { var got := ReceiveFrom(k); }
      case Speeds(down, up) => UpdateSpeeds(down, up);
      case Throughput(incoming, outgoing) => UpdateThroughput(incoming, outgoing);
      case Connections(count) => SetConnections(count);
    }

    // Call number j of a run that found the inputs `before`.
    method ServeNext(calls: seq<Call>, j: nat, polls: map<nat, Metrics>, ghost before: seq<Input>)
      returns (polls': map<nat, Metrics>)
      requires Valid() && j < |calls| && inputs == before + Fed(calls[..j])
      requires OnRecord().ShowsPolls(polls, before, calls, j, maxHistory)
      modifies this`metrics, this`subscribers, this`inputs, this`pasts, this`sent
      modifies history, history.s.arr, jitterPoints, jitterPoints.s.arr
      modifies latencyHistory, latencyHistory.s.arr, jitterHistory, jitterHistory.s.arr
      ensures Valid() && inputs == before + Fed(calls[..j + 1]) && old(OnRecord()).ExtendedBy(OnRecord())
      ensures OnRecord().ShowsPolls(polls', before, calls, j + 1, maxHistory)
      ensures fresh(history.arrays - old(history.arrays)) && fresh(jitterPoints.arrays - old(jitterPoints.arrays))
      ensures fresh(latencyHistory.arrays - old(latencyHistory.arrays))
      ensures fresh(jitterHistory.arrays - old(jitterHistory.arrays))
    {
      hide Valid, Fed, Ledger.Shows, Ledger.ShowsPolls, Ledger.ExtendedBy;
      FedStep(before, calls, j);
      var polled := Serve(calls[j]);
      ShowsOneMore(old(OnRecord()), OnRecord(), polls, polled, before, calls, j, maxHistory);
      polls' := if calls[j].Poll? then polls[j := polled] else polls;
    }

    lemma NothingServed(calls: seq<Call>)
      ensures inputs == inputs + Fed(calls[..0]) && calls[..|calls|] == calls
      ensures OnRecord().ExtendedBy(OnRecord())
      ensures OnRecord().ShowsPolls(map[], inputs, calls, 0, maxHistory)
    {
    }

    // Any run of calls, by the record of what was handed out.
    method ServeAll(calls: seq<Call>) returns (polls: map<nat, Metrics>)
      requires Valid()
      modifies this`metrics, this`subscribers, this`inputs, this`pasts, this`sent
      modifies history, jitterPoints, latencyHistory, jitterHistory
      modifies history.arrays, jitterPoints.arrays, latencyHistory.arrays, jitterHistory.arrays
      ensures Valid() && inputs == old(inputs) + Fed(calls) && old(OnRecord()).ExtendedBy(OnRecord())
      ensures OnRecord().ShowsPolls(polls, old(inputs), calls, |calls|, maxHistory)
    {
      polls := map[];
      NothingServed(calls);
      hide Valid, Fed, Ledger.ShowsPolls, Ledger.ExtendedBy;
      for j := 0 to |calls|
        invariant Valid() && inputs == old(inputs) + Fed(calls[..j]) && old(OnRecord()).ExtendedBy(OnRecord())
        invariant fresh(history.arrays - old(history.arrays)) && fresh(jitterPoints.arrays - old(jitterPoints.arrays))
        invariant fresh(latencyHistory.arrays - old(latencyHistory.arrays))
        invariant fresh(jitterHistory.arrays - old(jitterHistory.arrays))
        invariant OnRecord().ShowsPolls(polls, old(inputs), calls, j, maxHistory)
      {
        ArraysHeld();
        ghost var was := OnRecord();
        polls := ServeNext(calls, j, polls, old(inputs));
        LedgerChain(old(OnRecord()), was, OnRecord());
      }
    }

    // So at the end of any run every slice that was ever handed out, before the run or by
    // a poll in it, still shows what it showed then: the last maxHistory inputs of that
    // moment, in order, however often the arrays were appended to or replaced since.
    method Drive(calls: seq<Call>) returns (polls: map<nat, Metrics>)
      requires Valid()
      modifies this`metrics, this`subscribers, this`inputs, this`pasts, this`sent
      modifies history, jitterPoints, latencyHistory, jitterHistory
      modifies history.arrays, jitterPoints.arrays, latencyHistory.arrays, jitterHistory.arrays
      ensures Valid() && inputs == old(inputs) + Fed(calls)
      ensures forall v :: v in old(history.issued) ==> v in history.issued && v.Elems() == old(v.Elems())
      ensures forall v :: v in old(jitterPoints.issued) ==> v in jitterPoints.issued && v.Elems() == old(v.Elems())
      ensures forall j: nat :: j in polls <==> j < |calls| && calls[j].Poll?
      ensures forall j: nat :: j in polls ==>
        var m, fed := polls[j], old(inputs) + Fed(calls[..j]);
        m.history.Ok() && m.history.Elems() == LastN(Map(LatencyPoint, fed), maxHistory) &&
        m.jitterHistory.Ok() && m.jitterHistory.Elems() == LastN(Map(JitterPoint, fed), maxHistory)
    {
      IssuedShow();
      hide WindowsValid, LogsOk, SubscribersOk, MessagesOk, Extremes, Slice.Elems, Map, LastN, Fed;
      polls := ServeAll(calls);
      IssuedShow();
    }
  }
  // In particular for a monitor from its creation on.
  method DriveFromNew(maxHistory: int, now: int, calls: seq<Call>) returns (mon: Monitor, polls: map<nat, Metrics>)
    ensures mon.Valid() && mon.inputs == Fed(calls)
    ensures mon.maxHistory == if maxHistory <= 0 then 120 else maxHistory
    ensures forall j: nat :: j in polls <==> j < |calls| && calls[j].Poll?
    ensures forall j: nat :: j in polls ==>
      var m, fed := polls[j], Fed(calls[..j]);
      m.history.Ok() && m.history.Elems() == LastN(Map(LatencyPoint, fed), mon.maxHistory) &&
      m.jitterHistory.Ok() && m.jitterHistory.Elems() == LastN(Map(JitterPoint, fed), mon.maxHistory)
  {
    mon := new Monitor(maxHistory, now);
    hide Monitor.Valid, Fed, Slice.Elems, Map, LastN;
    polls := mon.Drive(calls);
    assert forall s: seq<Input> :: [] + s == s;
  }
}
