// The proxy's byte counters and the throughput windows that GetStats measures between
// polls at least one second apart.
module ProxyStats {

  // One measurement: the rate reported, in megabits a second, and how long it covers.
  datatype Measurement = Measurement(rate: real, elapsed: real)

  class Meter {
    var bytes: nat             // one direction's byte counter
    var lastBytes: nat
    var lastMeasTime: real     // in seconds
    var throughput: real
    ghost var start: real
    ghost var windows: seq<Measurement>

    // The measured windows account for every byte up to the last measurement, and they
    // are disjoint in time and at least a second long.
    ghost predicate Valid()
      reads this
    {
      lastBytes <= bytes && Volume(windows) == (lastBytes as real) * 8.0 &&
      lastMeasTime == start + Span(windows) && Span(windows) >= |windows| as real &&
      throughput == if windows == [] then 0.0 else windows[|windows| - 1].rate
    }

    constructor (now: real)
      ensures Valid() && windows == [] && bytes == 0
    {
      bytes, lastBytes, lastMeasTime, throughput, start, windows := 0, 0, now, 0.0, now, [];
    }

    method Transfer(n: nat)
      requires Valid()
      modifies this`bytes
      ensures Valid() && bytes == old(bytes) + n
    {
      bytes := bytes + n;
    }

    // A poll within a second of the last measurement repeats it; a later one measures.
    method GetStats(now: real) returns (rate: real)
      requires Valid() && lastMeasTime <= now
      modifies this`lastBytes, this`lastMeasTime, this`throughput, this`windows
      ensures Valid() && rate == throughput
      ensures if now - old(lastMeasTime) < 1.0 then windows == old(windows)
              else lastBytes == bytes && windows == old(windows) + [Measurement(rate, now - old(lastMeasTime))]
    {
      var elapsed := now - lastMeasTime;
      if elapsed >= 1.0 {
        throughput := ((bytes - lastBytes) as real * 8.0) / (elapsed * 1000000.0);
        RateTimesElapsed((bytes - lastBytes) as real * 8.0, elapsed);
        Snoc(windows, Measurement(throughput, elapsed));
        windows := windows + [Measurement(throughput, elapsed)];
        lastBytes, lastMeasTime := bytes, now;
      }
      rate := throughput;
    }
  }

  // Bits carried by the measured windows.
  function Volume(ws: seq<Measurement>): real {
    if ws == [] then 0.0 else Volume(ws[..|ws| - 1]) + Bits(ws[|ws| - 1])
  }

  function Bits(w: Measurement): real { w.rate * (w.elapsed * 1000000.0) }

  function Span(ws: seq<Measurement>): real {
    if ws == [] then 0.0 else Span(ws[..|ws| - 1]) + ws[|ws| - 1].elapsed
  }

  lemma Snoc(ws: seq<Measurement>, w: Measurement)
    ensures Volume(ws + [w]) == Volume(ws) + Bits(w) && Span(ws + [w]) == Span(ws) + w.elapsed
  {
    assert (ws + [w])[..|ws|] == ws;
  }

  lemma RateTimesElapsed(bits: real, elapsed: real)
    requires 1.0 <= elapsed
    ensures Bits(Measurement(bits / (elapsed * 1000000.0), elapsed)) == bits
  {
    Quotient(bits, elapsed * 1000000.0);
  }

  lemma Quotient(a: real, n: real)
    requires 0.0 < n
    ensures a / n * n == a
  {
  }
}
