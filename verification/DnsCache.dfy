// The DNS cache: a map with expiry times, emptied to below half when it is full, checked
// against the log of everything stored and flushed.
module DnsCache {
  import opened Options

  type Host = nat
  type Answer = seq<nat>

  datatype Entry = Entry(ips: Answer, expiresAt: int)

  datatype Record = Stored(host: Host, ips: Answer, at: int) | Flushed

  datatype State = State(entries: map<Host, Entry>, log: seq<Record>)

  // The two write-locked sections. A store names the entries that its eviction loop
  // deleted; map iteration order is arbitrary, so any admissible set may be deleted.
  datatype Event = Store(host: Host, ips: Answer, now: int, victims: set<Host>) | Flush

  const INIT: State := State(map[], [])

  // The most recent store for a host since the last flush.
  function Latest(log: seq<Record>, host: Host): Option<(Answer, int)> {
    if log == [] then None
    else
      match log[|log| - 1]
      case Flushed => None
      case Stored(h, ips, at) => if h == host then Some((ips, at)) else Latest(log[..|log| - 1], host)
  }

  // What the eviction loop may have deleted: nothing below the limit; otherwise one entry
  // at a time, until fewer than half the limit or none are left.
  predicate Evictable(entries: map<Host, Entry>, victims: set<Host>, maxCache: nat) {
    victims <= entries.Keys &&
    if |entries| < maxCache then victims == {}
    else
      (entries != map[] ==> victims != {}) &&
      (victims == entries.Keys || |entries - victims| < maxCache / 2) &&
      (|victims| <= 1 || maxCache / 2 <= |entries - victims| + 1)
  }

  predicate Evicts(s: State, e: Event, maxCache: nat) { e.Store? && maxCache <= |s.entries| }

  predicate Enabled(s: State, e: Event, maxCache: nat) {
    e.Store? ==> Evictable(s.entries, e.victims, maxCache)
  }

  function Apply(s: State, e: Event, ttl: int): State {
    match e
    case Store(host, ips, now, victims) =>
      State((s.entries - victims)[host := Entry(ips, now + ttl)], s.log + [Stored(host, ips, now)])
    case Flush => State(map[], s.log + [Flushed])
  }

  // The read-locked check.
  function Lookup(s: State, host: Host, now: int): Option<Answer> {
    if host in s.entries && now < s.entries[host].expiresAt then Some(s.entries[host].ips) else None
  }

  predicate IsRun(es: seq<Event>, ttl: int, maxCache: nat)
    decreases |es|
  {
    es == [] || (IsRun(es[..|es| - 1], ttl, maxCache) && Enabled(After(es[..|es| - 1], ttl), es[|es| - 1], maxCache))
  }

  function After(es: seq<Event>, ttl: int): State
    decreases |es|
  {
    if es == [] then INIT else Apply(After(es[..|es| - 1], ttl), es[|es| - 1], ttl)
  }

  lemma {:induction false} RunPrefix(es: seq<Event>, k: nat, ttl: int, maxCache: nat)
    requires IsRun(es, ttl, maxCache) && k <= |es|
    ensures IsRun(es[..k], ttl, maxCache)
    decreases |es|
  {
    if k == |es| {
      assert es[..k] == es;
    } else {
      assert es[..k] == es[..|es| - 1][..k];
      RunPrefix(es[..|es| - 1], k, ttl, maxCache);
    }
  }

  // ---------- agreement with the log ----------

  ghost predicate Agrees(s: State, ttl: int) {
    forall h :: h in s.entries ==> Latest(s.log, h) == Some((s.entries[h].ips, s.entries[h].expiresAt - ttl))
  }

  lemma StepAgrees(s: State, e: Event, ttl: int)
    requires Agrees(s, ttl)
    ensures Agrees(Apply(s, e, ttl), ttl)
  {
    var s' := Apply(s, e, ttl);
    assert s'.log[..|s.log|] == s.log;
  }

  lemma {:induction false} RunAgrees(es: seq<Event>, ttl: int)
    ensures Agrees(After(es, ttl), ttl)
    decreases |es|
  {
    if es != [] {
      RunAgrees(es[..|es| - 1], ttl);
      StepAgrees(After(es[..|es| - 1], ttl), es[|es| - 1], ttl);
    }
  }

  // On every run, a hit is the most recent answer stored for that host since the last
  // flush, and younger than the TTL.
  lemma HitIsLatestAndFresh(es: seq<Event>, ttl: int, host: Host, now: int)
    requires Lookup(After(es, ttl), host, now).Some?
    ensures var latest := Latest(After(es, ttl).log, host);
            latest.Some? && Lookup(After(es, ttl), host, now) == Some(latest.value.0) && now - latest.value.1 < ttl
  {
    RunAgrees(es, ttl);
  }

  // ---------- exactly which lookups hit ----------

  // What a host's entry is by the events alone: its last store, unless a flush or an
  // eviction of the host came after it.
  function Live(es: seq<Event>, host: Host): Option<(Answer, int)> {
    if es == [] then None
    else
      match es[|es| - 1]
      case Flush => None
      case Store(h, ips, now, victims) =>
        if h == host then Some((ips, now)) else if host in victims then None else Live(es[..|es| - 1], host)
  }

  lemma {:induction false} EntriesAreLive(es: seq<Event>, ttl: int, host: Host)
    ensures var s, live := After(es, ttl), Live(es, host);
            (host in s.entries <==> live.Some?) &&
            (live.Some? ==> s.entries[host] == Entry(live.value.0, live.value.1 + ttl))
    decreases |es|
  {
    if es != [] {
      EntriesAreLive(es[..|es| - 1], ttl, host);
    }
  }

  // A lookup hits exactly when the host has a store since the last flush that no eviction
  // has deleted and that is younger than the TTL, and it gives that store's answer.
  lemma LookupHitsIff(es: seq<Event>, ttl: int, host: Host, now: int)
    ensures Lookup(After(es, ttl), host, now) ==
            match Live(es, host)
            case None => None
            case Some(stored) => if now - stored.1 < ttl then Some(stored.0) else None
  {
    EntriesAreLive(es, ttl, host);
  }

  // ---------- the size ----------

  lemma SizeWithout(entries: map<Host, Entry>, victims: set<Host>)
    requires victims <= entries.Keys
    ensures |entries - victims| == |entries| - |victims|
  {
    assert (entries - victims).Keys == entries.Keys - victims;
    assert |(entries - victims).Keys| == |entries.Keys| - |victims|;
  }

  lemma SizeWith(entries: map<Host, Entry>, host: Host, entry: Entry)
    ensures |entries[host := entry]| == if host in entries then |entries| else |entries| + 1
  {
    assert entries[host := entry].Keys == entries.Keys + {host};
    assert host in entries ==> entries[host := entry].Keys == entries.Keys;
    assert |entries[host := entry].Keys| == if host in entries then |entries.Keys| else |entries.Keys| + 1;
  }

  lemma StepSize(s: State, e: Event, ttl: int, maxCache: nat)
    requires 1 <= maxCache && Enabled(s, e, maxCache) && |s.entries| <= maxCache
    ensures |Apply(s, e, ttl).entries| <= maxCache
    ensures |Apply(s, e, ttl).entries| <= |s.entries| + if e.Store? then 1 else 0
    ensures Evicts(s, e, maxCache) && 2 <= maxCache ==> |Apply(s, e, ttl).entries| <= maxCache / 2
  {
    if e.Store? {
      SizeWithout(s.entries, e.victims);
      SizeWith(s.entries - e.victims, e.host, Entry(e.ips, e.now + ttl));
      if Evicts(s, e, maxCache) {
        assert s.entries != map[];
        assert |e.victims| >= 1;
      }
    }
  }

  lemma {:induction false} SizeBounded(es: seq<Event>, ttl: int, maxCache: nat)
    requires 1 <= maxCache && IsRun(es, ttl, maxCache)
    ensures |After(es, ttl).entries| <= maxCache
    decreases |es|
  {
    if es != [] {
      SizeBounded(es[..|es| - 1], ttl, maxCache);
      StepSize(After(es[..|es| - 1], ttl), es[|es| - 1], ttl, maxCache);
    }
  }

  // With limit zero the very first store overshoots.
  lemma ZeroLimitOvershoots(ttl: int) returns (es: seq<Event>)
    ensures IsRun(es, ttl, 0) && |After(es, ttl).entries| == 1
  {
    var e := Store(0, [], 0, {});
    es := [e];
    assert es[..0] == [] && After(es[..0], ttl) == INIT && IsRun(es[..0], ttl, 0);
    assert INIT.entries - {} == INIT.entries;
    assert Evictable(INIT.entries, {}, 0);
    assert After(es, ttl) == Apply(INIT, e, ttl);
  }

  // The cache keeps within its limit on every run exactly when the limit is positive.
  lemma SizeBoundedIff(ttl: int, maxCache: nat)
    ensures 1 <= maxCache <==> forall es :: IsRun(es, ttl, maxCache) ==> |After(es, ttl).entries| <= maxCache
  {
    hide *;
    if 1 <= maxCache {
      forall es | IsRun(es, ttl, maxCache) ensures |After(es, ttl).entries| <= maxCache {
        SizeBounded(es, ttl, maxCache);
      }
    } else {
      var es := ZeroLimitOvershoots(ttl);
      assert IsRun(es, ttl, maxCache) && |After(es, ttl).entries| > maxCache;
    }
  }

  // ---------- the spacing of evictions ----------

  function Stores(es: seq<Event>): nat {
    if es == [] then 0 else Stores(es[..|es| - 1]) + (if es[|es| - 1].Store? then 1 else 0)
  }

  // After an eviction the cache refills by at most one entry a store.
  lemma {:induction false} RefillsSlowly(es: seq<Event>, i: nat, ttl: int, maxCache: nat)
    requires 2 <= maxCache && IsRun(es, ttl, maxCache) && i < |es|
    requires Evicts(After(es[..i], ttl), es[i], maxCache)
    ensures |After(es, ttl).entries| <= maxCache / 2 + Stores(es[i + 1..])
    decreases |es|
  {
    hide Evictable, Evicts, Apply, Stores;
    var n := |es| - 1;
    var before := After(es[..n], ttl);
    SizeBounded(es[..n], ttl, maxCache);
    StepSize(before, es[n], ttl, maxCache);
    if i < n {
      assert es[..n][..i] == es[..i];
      RefillsSlowly(es[..n], i, ttl, maxCache);
      StoresTail(es, i);
    } else {
      NoStores(es[i + 1..]);
    }
  }

  lemma NoStores(es: seq<Event>)
    requires |es| == 0
    ensures Stores(es) == 0
  {
  }

  lemma StoresTail(es: seq<Event>, i: nat)
    requires i < |es| - 1
    ensures Stores(es[i + 1..]) == Stores(es[..|es| - 1][i + 1..]) + if es[|es| - 1].Store? then 1 else 0
  {
    var tail := es[i + 1..];
    assert tail[..|tail| - 1] == es[..|es| - 1][i + 1..] && tail[|tail| - 1] == es[|es| - 1];
  }

  // Between two evictions there are at least ceil(maxCache / 2) stores.
  lemma EvictionsSpaced(es: seq<Event>, i: nat, j: nat, ttl: int, maxCache: nat)
    requires 2 <= maxCache && IsRun(es, ttl, maxCache) && i < j < |es|
    requires Evicts(After(es[..i], ttl), es[i], maxCache) && Evicts(After(es[..j], ttl), es[j], maxCache)
    ensures (maxCache + 1) / 2 <= Stores(es[i + 1..j])
  {
    RunPrefix(es, j, ttl, maxCache);
    assert es[..j][..i] == es[..i] && es[..j][i] == es[i] && es[..j][i + 1..] == es[i + 1..j];
    RefillsSlowly(es[..j], i, ttl, maxCache);
  }

  lemma NoVictims(entries: map<Host, Entry>, maxCache: nat)
    ensures entries - {} == entries
    ensures |entries| < maxCache ==> Evictable(entries, {}, maxCache)
  {
  }

  lemma EnoughVictims(entries: map<Host, Entry>, victims: set<Host>, maxCache: nat)
    requires maxCache <= |entries| && victims <= entries.Keys
    requires victims == {} ==> entries.Keys == {}
    requires victims == entries.Keys || |entries - victims| < maxCache / 2
    requires |victims| <= 1 || maxCache / 2 <= |entries - victims| + 1
    ensures Evictable(entries, victims, maxCache)
  {
    assert entries.Keys == {} ==> entries == map[];
  }

  lemma OneMoreVictim(entries: map<Host, Entry>, victims: set<Host>, k: Host)
    requires victims <= entries.Keys && k in entries.Keys - victims
    ensures (entries - victims) - {k} == entries - (victims + {k})
    ensures |entries - (victims + {k})| == |entries - victims| - 1 && |victims + {k}| == |victims| + 1
    ensures (entries.Keys - victims) - {k} == entries.Keys - (victims + {k})
  {
    SizeWithout(entries, victims);
    SizeWithout(entries, victims + {k});
  }

  // One eviction that spares `older` and deletes `newer`.
  lemma EvictSparing(entries: map<Host, Entry>, older: Host, newer: Host, maxCache: nat) returns (victims: set<Host>)
    requires older in entries && newer in entries && older != newer && 4 <= maxCache <= |entries|
    ensures Evictable(entries, victims, maxCache) && newer in victims && older !in victims
  {
    victims := {newer};
    while maxCache / 2 <= |entries - victims|
      invariant newer in victims && older !in victims && victims <= entries.Keys
      invariant |victims| <= 1 || maxCache / 2 <= |entries - victims| + 1
      decreases |entries - victims|
    {
      SizeWithout(entries, victims);
      SparedIsNotAll(entries.Keys - victims, older);
      var k :| k in entries.Keys - victims - {older};
      OneMoreVictim(entries, victims, k);
      victims := victims + {k};
    }
    EnoughVictims(entries, victims, maxCache);
  }

  lemma SparedIsNotAll(keys: set<Host>, spared: Host)
    requires 2 <= |keys|
    ensures exists k :: k in keys - {spared}
  {
    if keys - {spared} == {} {
      assert keys <= {spared};
      SubsetSize(keys, {spared});
      assert false;
    } else {
      var k :| k in keys - {spared};
    }
  }

  lemma SubsetSize(a: set<Host>, b: set<Host>)
    requires a <= b
    ensures |a| <= |b|
  {
    assert b == a + (b - a);
    assert |b| == |a| + |b - a|;
  }

  lemma SurvivorNeedsRoom(entries: map<Host, Entry>, victims: set<Host>, older: Host, maxCache: nat)
    requires Evictable(entries, victims, maxCache) && maxCache <= |entries| && older in entries && older !in victims
    ensures 4 <= maxCache
  {
    SizeWithout(entries, victims);
    SubsetSize({older}, (entries - victims).Keys);
  }

  // An eviction from a full cache may delete a newer entry and keep an older one exactly
  // when the limit is at least four; below that every eviction deletes everything.
  lemma NewerMayGoFirstIff(entries: map<Host, Entry>, older: Host, newer: Host, maxCache: nat)
    requires older in entries && newer in entries && older != newer && |entries| == maxCache
    ensures (exists victims :: Evictable(entries, victims, maxCache) && newer in victims && older !in victims) <==>
            4 <= maxCache
  {
    if 4 <= maxCache {
      var victims := EvictSparing(entries, older, newer, maxCache);
      assert Evictable(entries, victims, maxCache) && newer in victims && older !in victims;
    } else if victims :| Evictable(entries, victims, maxCache) && newer in victims && older !in victims {
      SurvivorNeedsRoom(entries, victims, older, maxCache);
      assert false;
    }
  }

  lemma StoreSnoc(es: seq<Event>, e: Event, ttl: int, maxCache: nat)
    requires IsRun(es, ttl, maxCache) && Enabled(After(es, ttl), e, maxCache)
    ensures IsRun(es + [e], ttl, maxCache) && After(es + [e], ttl) == Apply(After(es, ttl), e, ttl)
  {
    assert (es + [e])[..|es|] == es;
  }

  // Hosts 0 to k - 1 are cached, each stored at the time of its own number.
  ghost predicate Filled(s: State, k: nat) {
    |s.entries| == k == |s.log| && (forall h: Host :: h in s.entries <==> h < k) &&
    forall h :: 0 <= h < k ==> s.log[h] == Stored(h, [], h)
  }

  lemma FillStep(s: State, k: nat, ttl: int, maxCache: nat)
    requires Filled(s, k) && k < maxCache
    ensures Enabled(s, Store(k, [], k, {}), maxCache) && Filled(Apply(s, Store(k, [], k, {}), ttl), k + 1)
  {
    NoVictims(s.entries, maxCache);
    SizeWith(s.entries, k, Entry([], k + ttl));
  }

  lemma FillCache(k: nat, ttl: int, maxCache: nat) returns (es: seq<Event>)
    requires k <= maxCache
    ensures IsRun(es, ttl, maxCache) && Filled(After(es, ttl), k)
  {
    es := [];
    assert After(es, ttl) == INIT;
    for i := 0 to k
      invariant IsRun(es, ttl, maxCache) && Filled(After(es, ttl), i)
    {
      FillStep(After(es, ttl), i, ttl, maxCache);
      StoreSnoc(es, Store(i, [], i, {}), ttl, maxCache);
      es := es + [Store(i, [], i, {})];
    }
  }

  // A run in which host 0 is stored at time 0 and host 1 at time 1, and the one eviction
  // keeps host 0 and deletes host 1: the oldest entries are not what is cleared.
  lemma OldestMaySurvive(ttl: int, maxCache: nat) returns (es: seq<Event>)
    requires 4 <= maxCache
    ensures IsRun(es, ttl, maxCache) && 2 <= |After(es, ttl).log|
    ensures After(es, ttl).log[0] == Stored(0, [], 0) && After(es, ttl).log[1] == Stored(1, [], 1)
    ensures 0 in After(es, ttl).entries && 1 !in After(es, ttl).entries
  {
    es := FillCache(maxCache, ttl, maxCache);
    var s := After(es, ttl);
    var victims := EvictSparing(s.entries, 0, 1, maxCache);
    var e := Store(maxCache, [], maxCache, victims);
    StoreSnoc(es, e, ttl, maxCache);
    es := es + [e];
  }

  // ---------- the optimizer ----------

  lemma StoreKeeps(s: State, e: Event, ttl: int, maxCache: nat)
    requires Agrees(s, ttl) && (1 <= maxCache ==> |s.entries| <= maxCache) && Enabled(s, e, maxCache)
    ensures Agrees(Apply(s, e, ttl), ttl) && (1 <= maxCache ==> |Apply(s, e, ttl).entries| <= maxCache)
  {
    hide *;
    StepAgrees(s, e, ttl);
    if 1 <= maxCache {
      StepSize(s, e, ttl, maxCache);
    }
  }

  class Optimizer {
    var cache: map<Host, Entry>
    const cacheTTL: int
    const maxCache: nat
    ghost var log: seq<Record>

    ghost function StateOf(): State
      reads this
    {
      State(cache, log)
    }

    ghost predicate Valid()
      reads this
    {
      Agrees(StateOf(), cacheTTL) && (1 <= maxCache ==> |cache| <= maxCache)
    }

    constructor (cacheTTL: int, maxCache: nat)
      ensures Valid() && StateOf() == INIT && this.cacheTTL == cacheTTL && this.maxCache == maxCache
    {
      this.cacheTTL, this.maxCache, cache, log := cacheTTL, maxCache, map[], [];
    }

    method CheckCache(host: Host, now: int) returns (hit: Option<Answer>)
      requires Valid()
      ensures hit == Lookup(StateOf(), host, now)
      ensures hit.Some? ==> var latest := Latest(log, host);
                            latest.Some? && hit.value == latest.value.0 && now - latest.value.1 < cacheTTL
    {
      hit := if host in cache && now < cache[host].expiresAt then Some(cache[host].ips) else None;
    }

    // The eviction loop: delete entries in map order until fewer than half are left.
    method Evict() returns (victims: set<Host>)
      requires maxCache <= |cache|
      modifies this`cache
      ensures cache == old(cache) - victims && Evictable(old(cache), victims, maxCache)
    {
      hide Evictable;
      victims := {};
      var rest := cache.Keys;
      while rest != {}
        invariant victims <= old(cache).Keys && rest == old(cache).Keys - victims
        invariant victims == {} || maxCache / 2 <= |cache|
        invariant cache == old(cache) - victims
        decreases |rest|
      {
        var k :| k in rest;
        OneMoreVictim(old(cache), victims, k);
        cache, victims, rest := cache - {k}, victims + {k}, rest - {k};
        if |cache| < maxCache / 2 {
          break;
        }
      }
      EnoughVictims(old(cache), victims, maxCache);
    }

    // Evict if the cache is full.
    method MakeRoom() returns (victims: set<Host>)
      modifies this`cache
      ensures cache == old(cache) - victims && Evictable(old(cache), victims, maxCache)
    {
      hide Evictable;
      NoVictims(cache, maxCache);
      victims := {};
      if |cache| >= maxCache {
        victims := Evict();
      }
    }

    // The write-locked section after a successful lookup.
    method StoreResult(host: Host, ips: Answer, now: int) returns (ghost victims: set<Host>)
      requires Valid()
      modifies this`cache, this`log
      ensures Valid() && Enabled(old(StateOf()), Store(host, ips, now, victims), maxCache)
      ensures StateOf() == Apply(old(StateOf()), Store(host, ips, now, victims), cacheTTL)
    {
      hide Agrees, Evictable, Evicts;
      var v := MakeRoom();
      victims := v;
      ghost var e := Store(host, ips, now, victims);
      StoreKeeps(old(StateOf()), e, cacheTTL, maxCache);
      cache := cache[host := Entry(ips, now + cacheTTL)];
      log := log + [Stored(host, ips, now)];
    }

    // ResolveWith, where the network's answer and the two clock readings are given: a
    // hit returns the cached answer and stores nothing, a failed lookup stores nothing.
    method ResolveWith(host: Host, checkedAt: int, answer: Option<Answer>, storedAt: int)
      returns (r: Option<Answer>, ghost victims: set<Host>)
      requires Valid()
      modifies this`cache, this`log
      ensures Valid()
      ensures r == match old(Lookup(StateOf(), host, checkedAt)) case Some(ips) => Some(ips) case None => answer
      ensures StateOf() ==
        if old(Lookup(StateOf(), host, checkedAt)).Some? || answer.None? then old(StateOf())
        else Apply(old(StateOf()), Store(host, answer.value, storedAt, victims), cacheTTL)
    {
      victims := {};
      r := CheckCache(host, checkedAt);
      if r.None? && answer.Some? {
        victims := StoreResult(host, answer.value, storedAt);
        r := answer;
      }
    }

    method FlushCache()
      requires Valid()
      modifies this`cache, this`log
      ensures Valid() && StateOf() == Apply(old(StateOf()), Flush, cacheTTL)
    {
      cache, log := map[], log + [Flushed];
    }

    method GetCacheSize() returns (n: nat)
      requires Valid()
      ensures n == |StateOf().entries| && (1 <= maxCache ==> n <= maxCache)
    {
      n := |cache|;
    }
  }
}
