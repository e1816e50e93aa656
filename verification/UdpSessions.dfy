// The UDP proxy's session table as a transition system: packet handlers, relay
// goroutines and the cleanup sweep interleave at their atomic actions (one lock
// section, one socket call or one atomic counter update each).
module UdpSessions {

  // A client address in the text form the proxy uses as the map key.
  type Key = nat

  // One dialled target connection. The proxy makes exactly one session record per
  // connection, so a connection also names its session.
  type Conn = nat

  // A goroutine.
  type Tid = nat

  // Two minutes, in nanoseconds.
  const SESSION_TTL := 120_000_000_000

  datatype HandlerPc =
    | Lookup                                 // about to read the map
    | Hit(conn: Conn)                        // found a session, about to write to it
    | HitTeardown(conn: Conn)                // that write failed, about to close the session
    | Miss                                   // found nothing, about to choose a target and dial
    | Dialed(conn: Conn)                     // about to write the first datagram
    | Abort(conn: Conn)                      // that write failed, about to close the connection
    | Filled(conn: Conn)                     // about to insert the session
    | CountPacket(conn: Conn, first: bool)   // about to add to PacketsOut
    | CountBytes(conn: Conn, first: bool)    // about to add to BytesOut
    | Touch(conn: Conn)                      // about to set LastUsed
    | Spawn(conn: Conn)                      // about to start the relay

  datatype RelayPc =
    | Reading
    | Forward(size: nat)
    | CountPacketIn(size: nat)
    | CountBytesIn(size: nat)
    | TouchRelay
    | RelayTeardown

  datatype Thread =
    | Handler(key: Key, size: nat, hpc: HandlerPc)
    | Relay(key: Key, conn: Conn, rpc: RelayPc)

  datatype Datagram = Datagram(client: Key, conn: Conn, size: nat)

  // Who deletes a session: a goroutine working for one connection, or the sweep.
  datatype Remover = ByHandler(conn: Conn) | ByRelay(conn: Conn) | BySweep

  datatype Removal = Removal(remover: Remover, victim: Conn)

  datatype Table = Table(
    sessions: map<Key, Conn>,
    clientOf: map<Conn, Key>,      // every connection ever dialled, with the client it serves
    lastUsed: map<Conn, int>,
    closeLog: seq<Conn>,           // every Close call, in order
    overwritten: set<Conn>,        // sessions that a later insert replaced
    removals: seq<Removal>,        // every delete from the map, in order
    created: nat,                  // the Sessions counter
    packetsOut: nat, bytesOut: nat, packetsIn: nat, bytesIn: nat,
    toTarget: seq<Datagram>,       // datagrams written to target connections
    toClient: seq<Datagram>)       // datagrams written back to clients

  datatype State = State(table: Table, threads: map<Tid, Thread>)

  // One atomic action; the arguments carry everything the environment decides.
  datatype Event =
    | Arrive(t: Tid, key: Key, size: nat)
    | DoLookup(t: Tid)
    | WriteHit(t: Tid, ok: bool)
    | TearHit(t: Tid)
    | NoTarget(t: Tid)
    | Dial(t: Tid, conn: Conn)
    | WriteFirst(t: Tid, ok: bool)
    | CloseAborted(t: Tid)
    | Insert(t: Tid, now: int)
    | AddPacket(t: Tid)
    | AddBytes(t: Tid)
    | TouchSession(t: Tid, now: int)
    | SpawnRelay(t: Tid, relay: Tid)
    | RelayRead(t: Tid, size: nat)
    | RelayReadErr(t: Tid)
    | RelayWrite(t: Tid, ok: bool)
    | RelayAddPacket(t: Tid)
    | RelayAddBytes(t: Tid)
    | RelayTouch(t: Tid, now: int)
    | RelayTear(t: Tid)
    | Sweep(order: seq<Key>, now: int)

  function Init(): State {
    State(Table(map[], map[], map[], [], {}, [], 0, 0, 0, 0, 0, [], []), map[])
  }

  // ---------- the lock sections, as functions on the table ----------

  predicate Mapped(tb: Table, c: Conn) {
    c in tb.clientOf && tb.clientOf[c] in tb.sessions && tb.sessions[tb.clientOf[c]] == c
  }

  function Remove(tb: Table, key: Key, remover: Remover): Table
    requires key in tb.sessions
  {
    tb.(sessions := tb.sessions - {key},
        closeLog := tb.closeLog + [tb.sessions[key]],
        removals := tb.removals + [Removal(remover, tb.sessions[key])])
  }

  // `guard` selects the variant that checks the session's identity first; the
  // proxy itself runs with `guard == false`.
  function CloseSession(guard: bool, tb: Table, key: Key, remover: Remover): Table
    requires !remover.BySweep?
  {
    if key in tb.sessions && (guard ==> tb.sessions[key] == remover.conn) then Remove(tb, key, remover) else tb
  }

  function InsertSession(tb: Table, key: Key, c: Conn, now: int): Table {
    tb.(sessions := tb.sessions[key := c],
        lastUsed := tb.lastUsed[c := now],
        overwritten := if key in tb.sessions then tb.overwritten + {tb.sessions[key]} else tb.overwritten,
        created := tb.created + 1)
  }

  function SetLastUsed(tb: Table, c: Conn, now: int): Table {
    tb.(lastUsed := tb.lastUsed[c := now])
  }

  predicate Stale(tb: Table, key: Key, now: int) {
    key in tb.sessions && tb.sessions[key] in tb.lastUsed &&
    now - tb.lastUsed[tb.sessions[key]] > SESSION_TTL
  }

  function SweepKey(tb: Table, key: Key, now: int): Table {
    if Stale(tb, key, now) then Remove(tb, key, BySweep) else tb
  }

  function SweepKeys(tb: Table, order: seq<Key>, now: int): Table
    decreases |order|
  {
    if order == [] then tb else SweepKey(SweepKeys(tb, order[..|order| - 1], now), order[|order| - 1], now)
  }

  predicate NoDup<T(==)>(s: seq<T>) {
    forall i, j :: 0 <= i < j < |s| ==> s[i] != s[j]
  }

  // ---------- the transition relation ----------

  predicate HandlerAt(s: State, t: Tid) { t in s.threads && s.threads[t].Handler? }

  predicate RelayAt(s: State, t: Tid) { t in s.threads && s.threads[t].Relay? }

  predicate Enabled(s: State, e: Event) {
    match e
    case Arrive(t, _, _) => t !in s.threads
    case DoLookup(t) => HandlerAt(s, t) && s.threads[t].hpc.Lookup?
    // A write or read on a closed connection always fails.
    case WriteHit(t, ok) => HandlerAt(s, t) && s.threads[t].hpc.Hit? &&
                            (ok ==> s.threads[t].hpc.conn !in s.table.closeLog)
    case TearHit(t) => HandlerAt(s, t) && s.threads[t].hpc.HitTeardown?
    case NoTarget(t) => HandlerAt(s, t) && s.threads[t].hpc.Miss?
    case Dial(t, c) => HandlerAt(s, t) && s.threads[t].hpc.Miss? && c !in s.table.clientOf
    case WriteFirst(t, ok) => HandlerAt(s, t) && s.threads[t].hpc.Dialed? &&
                              (ok ==> s.threads[t].hpc.conn !in s.table.closeLog)
    case CloseAborted(t) => HandlerAt(s, t) && s.threads[t].hpc.Abort?
    case Insert(t, _) => HandlerAt(s, t) && s.threads[t].hpc.Filled?
    case AddPacket(t) => HandlerAt(s, t) && s.threads[t].hpc.CountPacket?
    case AddBytes(t) => HandlerAt(s, t) && s.threads[t].hpc.CountBytes?
    case TouchSession(t, _) => HandlerAt(s, t) && s.threads[t].hpc.Touch?
    case SpawnRelay(t, r) => HandlerAt(s, t) && s.threads[t].hpc.Spawn? && r !in s.threads
    case RelayRead(t, _) => RelayAt(s, t) && s.threads[t].rpc.Reading? &&
                            s.threads[t].conn !in s.table.closeLog
    case RelayReadErr(t) => RelayAt(s, t) && s.threads[t].rpc.Reading?
    case RelayWrite(t, _) => RelayAt(s, t) && s.threads[t].rpc.Forward?
    case RelayAddPacket(t) => RelayAt(s, t) && s.threads[t].rpc.CountPacketIn?
    case RelayAddBytes(t) => RelayAt(s, t) && s.threads[t].rpc.CountBytesIn?
    case RelayTouch(t, _) => RelayAt(s, t) && s.threads[t].rpc.TouchRelay?
    case RelayTear(t) => RelayAt(s, t) && s.threads[t].rpc.RelayTeardown?
    // The sweep visits every key once, in whatever order the map yields them.
    case Sweep(order, _) => NoDup(order) && (set k | k in order) == s.table.sessions.Keys
  }

  function Goto(s: State, t: Tid, pc: HandlerPc): State
    requires HandlerAt(s, t)
  {
    s.(threads := s.threads[t := s.threads[t].(hpc := pc)])
  }

  function GotoRelay(s: State, t: Tid, pc: RelayPc): State
    requires RelayAt(s, t)
  {
    s.(threads := s.threads[t := s.threads[t].(rpc := pc)])
  }

  function Exit(s: State, t: Tid): State {
    s.(threads := s.threads - {t})
  }

  function LogOut(tb: Table, d: Datagram): Table { tb.(toTarget := tb.toTarget + [d]) }

  function LogIn(tb: Table, d: Datagram): Table { tb.(toClient := tb.toClient + [d]) }

  function Apply(guard: bool, s: State, e: Event): State
    requires Enabled(s, e)
  {
    var tb := s.table;
    match e
    case Arrive(t, key, size) => s.(threads := s.threads[t := Handler(key, size, Lookup)])
    case DoLookup(t) =>
      var key := s.threads[t].key;
      Goto(s, t, if key in tb.sessions then Hit(tb.sessions[key]) else Miss)
    case WriteHit(t, ok) =>
      var th := s.threads[t];
      if ok then Goto(s, t, CountPacket(th.hpc.conn, false))
                 .(table := LogOut(tb, Datagram(th.key, th.hpc.conn, th.size)))
      else Goto(s, t, HitTeardown(th.hpc.conn))
    case TearHit(t) =>
      Exit(s, t).(table := CloseSession(guard, tb, s.threads[t].key, ByHandler(s.threads[t].hpc.conn)))
    case NoTarget(t) => Exit(s, t)
    case Dial(t, c) => Goto(s, t, Dialed(c)).(table := tb.(clientOf := tb.clientOf[c := s.threads[t].key]))
    case WriteFirst(t, ok) =>
      var th := s.threads[t];
      if ok then Goto(s, t, Filled(th.hpc.conn)).(table := LogOut(tb, Datagram(th.key, th.hpc.conn, th.size)))
      else Goto(s, t, Abort(th.hpc.conn))
    case CloseAborted(t) => Exit(s, t).(table := tb.(closeLog := tb.closeLog + [s.threads[t].hpc.conn]))
    case Insert(t, now) =>
      var c := s.threads[t].hpc.conn;
      Goto(s, t, CountPacket(c, true)).(table := InsertSession(tb, s.threads[t].key, c, now))
    case AddPacket(t) =>
      var pc := s.threads[t].hpc;
      Goto(s, t, CountBytes(pc.conn, pc.first)).(table := tb.(packetsOut := tb.packetsOut + 1))
    case AddBytes(t) =>
      var th := s.threads[t];
      Goto(s, t, if th.hpc.first then Spawn(th.hpc.conn) else Touch(th.hpc.conn))
        .(table := tb.(bytesOut := tb.bytesOut + th.size))
    case TouchSession(t, now) =>
      Exit(s, t).(table := SetLastUsed(tb, s.threads[t].hpc.conn, now))
    case SpawnRelay(t, r) =>
      s.(threads := (s.threads - {t})[r := Relay(s.threads[t].key, s.threads[t].hpc.conn, Reading)])
    case RelayRead(t, size) => GotoRelay(s, t, Forward(size))
    case RelayReadErr(t) => GotoRelay(s, t, RelayTeardown)
    case RelayWrite(t, ok) =>
      var th := s.threads[t];
      if ok then GotoRelay(s, t, CountPacketIn(th.rpc.size))
                 .(table := LogIn(tb, Datagram(th.key, th.conn, th.rpc.size)))
      else GotoRelay(s, t, RelayTeardown)
    case RelayAddPacket(t) =>
      GotoRelay(s, t, CountBytesIn(s.threads[t].rpc.size)).(table := tb.(packetsIn := tb.packetsIn + 1))
    case RelayAddBytes(t) =>
      GotoRelay(s, t, TouchRelay).(table := tb.(bytesIn := tb.bytesIn + s.threads[t].rpc.size))
    case RelayTouch(t, now) =>
      GotoRelay(s, t, Reading).(table := SetLastUsed(tb, s.threads[t].conn, now))
    case RelayTear(t) =>
      Exit(s, t).(table := CloseSession(guard, tb, s.threads[t].key, ByRelay(s.threads[t].conn)))
    case Sweep(order, now) => s.(table := SweepKeys(tb, order, now))
  }

  predicate IsRun(guard: bool, s: State, es: seq<Event>)
    decreases |es|
  {
    es == [] || (Enabled(s, es[0]) && IsRun(guard, Apply(guard, s, es[0]), es[1..]))
  }

  function Exec(guard: bool, s: State, es: seq<Event>): State
    requires IsRun(guard, s, es)
    decreases |es|
  {
    if es == [] then s else Exec(guard, Apply(guard, s, es[0]), es[1..])
  }

  // ---------- the invariant ----------

  // Sessions sit under their own client's key and are open.
  ghost predicate KeysOk(tb: Table) {
    forall k :: k in tb.sessions ==>
      tb.sessions[k] in tb.clientOf && tb.clientOf[tb.sessions[k]] == k &&
      tb.sessions[k] !in tb.closeLog && tb.sessions[k] in tb.lastUsed
  }

  ghost predicate ClosesOk(tb: Table) {
    NoDup(tb.closeLog) && forall c :: c in tb.closeLog ==> c in tb.clientOf
  }

  ghost predicate OverwrittenOk(tb: Table) {
    forall c :: c in tb.overwritten ==> c in tb.clientOf && c !in tb.closeLog && !Mapped(tb, c)
  }

  ghost predicate CountOk(tb: Table) {
    tb.created == |tb.sessions| + |tb.removals| + |tb.overwritten|
  }

  ghost predicate DatagramsOk(tb: Table) {
    (forall d :: d in tb.toTarget ==> d.conn in tb.clientOf && tb.clientOf[d.conn] == d.client) &&
    (forall d :: d in tb.toClient ==> d.conn in tb.clientOf && tb.clientOf[d.conn] == d.client)
  }

  ghost predicate TableOk(tb: Table) {
    KeysOk(tb) && ClosesOk(tb) && OverwrittenOk(tb) && CountOk(tb) && DatagramsOk(tb)
  }

  // A handler that dialled c and has not yet inserted or closed it.
  predicate PreInsert(th: Thread, c: Conn) {
    th.Handler? && (th.hpc == Dialed(c) || th.hpc == Abort(c) || th.hpc == Filled(c))
  }

  // c's relay, or the handler that inserted c and is on its way to start it.
  predicate Serves(th: Thread, c: Conn) {
    match th
    case Handler(_, _, pc) => pc == CountPacket(c, true) || pc == CountBytes(c, true) || pc == Spawn(c)
    case Relay(_, conn, _) => conn == c
  }

  predicate Holds(th: Thread, c: Conn) { PreInsert(th, c) || Serves(th, c) }

  predicate Owns(tb: Table, key: Key, c: Conn) { c in tb.clientOf && tb.clientOf[c] == key }

  ghost predicate ThreadOk(tb: Table, th: Thread) {
    match th
    case Handler(key, _, pc) =>
      (!pc.Lookup? && !pc.Miss? ==> Owns(tb, key, pc.conn)) &&
      (pc.Dialed? || pc.Abort? || pc.Filled? ==>
        pc.conn !in tb.closeLog && !Mapped(tb, pc.conn) && pc.conn !in tb.overwritten)
    case Relay(key, c, _) => Owns(tb, key, c)
  }

  ghost predicate ThreadsOk(s: State) {
    forall t :: t in s.threads ==> ThreadOk(s.table, s.threads[t])
  }

  ghost predicate HoldersUnique(threads: map<Tid, Thread>) {
    forall t, u, c :: t in threads && u in threads && Holds(threads[t], c) && Holds(threads[u], c) ==> t == u
  }

  ghost predicate Served(threads: map<Tid, Thread>, c: Conn) {
    exists t :: t in threads && Serves(threads[t], c)
  }

  ghost predicate InFlight(threads: map<Tid, Thread>, c: Conn) {
    exists t :: t in threads && PreInsert(threads[t], c)
  }

  ghost predicate AllServed(s: State) {
    forall k :: k in s.table.sessions ==> Served(s.threads, s.table.sessions[k])
  }

  // Every open connection is mapped, overwritten or held by its creating handler.
  ghost predicate Accounted(s: State) {
    forall c :: c in s.table.clientOf && c !in s.table.closeLog && !Mapped(s.table, c) && c !in s.table.overwritten
      ==> InFlight(s.threads, c)
  }

  ghost predicate Inv(s: State) {
    TableOk(s.table) && ThreadsOk(s) && HoldersUnique(s.threads) && AllServed(s) && Accounted(s)
  }

  // The part of a table that the invariant looks at, apart from logs and counters.
  predicate SameSessions(a: Table, b: Table) {
    a.sessions == b.sessions && a.clientOf == b.clientOf && a.closeLog == b.closeLog &&
    a.overwritten == b.overwritten && a.removals == b.removals && a.created == b.created
  }

  // Events that only move one goroutine along and touch logs, counters or LastUsed.
  predicate Local(e: Event) {
    !e.Dial? && !e.CloseAborted? && !e.Insert? && !e.TearHit? && !e.RelayTear? && !e.Sweep?
  }

  // ---------- goroutines coming, going and moving on ----------

  function Replace(threads: map<Tid, Thread>, t: Tid, u: Tid, th: Thread): map<Tid, Thread> {
    (threads - {t})[u := th]
  }

  lemma UniqueAfterReplace(threads: map<Tid, Thread>, t: Tid, u: Tid, th: Thread)
    requires HoldersUnique(threads) && t in threads && (u == t || u !in threads)
    requires forall c :: Holds(th, c) ==> Holds(threads[t], c)
    ensures HoldersUnique(Replace(threads, t, u, th))
  {
    var threads' := Replace(threads, t, u, th);
    forall a, b, c | a in threads' && b in threads' && Holds(threads'[a], c) && Holds(threads'[b], c)
      ensures a == b
    {
      var a0, b0 := if a == u then t else a, if b == u then t else b;
      assert Holds(threads[a0], c) && Holds(threads[b0], c);
    }
  }

  lemma ServedAfterReplace(threads: map<Tid, Thread>, t: Tid, u: Tid, th: Thread, c: Conn)
    requires t in threads && (u == t || u !in threads)
    requires Served(threads, c) && (Serves(threads[t], c) ==> Serves(th, c))
    ensures Served(Replace(threads, t, u, th), c)
  {
    var v :| v in threads && Serves(threads[v], c);
    var w := if v == t then u else v;
    assert w in Replace(threads, t, u, th) && Serves(Replace(threads, t, u, th)[w], c);
  }

  lemma InFlightAfterReplace(threads: map<Tid, Thread>, t: Tid, u: Tid, th: Thread, c: Conn)
    requires t in threads && (u == t || u !in threads)
    requires InFlight(threads, c) && (PreInsert(threads[t], c) ==> PreInsert(th, c))
    ensures InFlight(Replace(threads, t, u, th), c)
  {
    var v :| v in threads && PreInsert(threads[v], c);
    var w := if v == t then u else v;
    assert w in Replace(threads, t, u, th) && PreInsert(Replace(threads, t, u, th)[w], c);
  }

  lemma ServedAfterExit(threads: map<Tid, Thread>, t: Tid, c: Conn)
    requires t in threads && Served(threads, c) && !Serves(threads[t], c)
    ensures Served(threads - {t}, c)
  {
    var v :| v in threads && Serves(threads[v], c);
    assert v in threads - {t} && Serves((threads - {t})[v], c);
  }

  lemma InFlightAfterExit(threads: map<Tid, Thread>, t: Tid, c: Conn)
    requires t in threads && InFlight(threads, c) && !PreInsert(threads[t], c)
    ensures InFlight(threads - {t}, c)
  {
    var v :| v in threads && PreInsert(threads[v], c);
    assert v in threads - {t} && PreInsert((threads - {t})[v], c);
  }

  // A goroutine moves on, or hands over to another, holding what it held before.
  lemma Move(s: State, s': State, t: Tid, u: Tid, th: Thread)
    requires Inv(s) && TableOk(s'.table) && SameSessions(s.table, s'.table)
    requires t in s.threads && (u == t || u !in s.threads) && s'.threads == Replace(s.threads, t, u, th)
    requires ThreadOk(s.table, th)
    requires forall c :: PreInsert(th, c) <==> PreInsert(s.threads[t], c)
    requires forall c :: Serves(th, c) <==> Serves(s.threads[t], c)
    ensures Inv(s')
  {
    UniqueAfterReplace(s.threads, t, u, th);
    forall c | Served(s.threads, c) ensures Served(s'.threads, c) { ServedAfterReplace(s.threads, t, u, th, c); }
    forall c | InFlight(s.threads, c) ensures InFlight(s'.threads, c) { InFlightAfterReplace(s.threads, t, u, th, c); }
    forall v | v in s'.threads ensures ThreadOk(s'.table, s'.threads[v]) {
      assert v != u ==> ThreadOk(s.table, s.threads[v]);
    }
  }

  lemma Leave(s: State, s': State, t: Tid)
    requires Inv(s) && TableOk(s'.table) && SameSessions(s.table, s'.table)
    requires t in s.threads && s'.threads == s.threads - {t}
    requires forall c :: !PreInsert(s.threads[t], c) && (Serves(s.threads[t], c) ==> !Mapped(s.table, c))
    ensures Inv(s')
  {
    forall c | Served(s.threads, c) && Mapped(s.table, c) ensures Served(s'.threads, c) {
      assert !Serves(s.threads[t], c);
      ServedAfterExit(s.threads, t, c);
    }
    forall c | InFlight(s.threads, c) ensures InFlight(s'.threads, c) {
      assert !PreInsert(s.threads[t], c);
      InFlightAfterExit(s.threads, t, c);
    }
    forall v | v in s'.threads ensures ThreadOk(s'.table, s'.threads[v]) {
      assert ThreadOk(s.table, s.threads[v]);
    }
  }

  lemma ArriveStep(s: State, t: Tid, key: Key, size: nat)
    requires Inv(s) && t !in s.threads
    ensures Inv(s.(threads := s.threads[t := Handler(key, size, Lookup)]))
  {
    var threads' := s.threads[t := Handler(key, size, Lookup)];
    forall c | Served(s.threads, c) ensures Served(threads', c) {
      var v :| v in s.threads && Serves(s.threads[v], c);
      assert v in threads' && Serves(threads'[v], c);
    }
    forall c | InFlight(s.threads, c) ensures InFlight(threads', c) {
      var v :| v in s.threads && PreInsert(s.threads[v], c);
      assert v in threads' && PreInsert(threads'[v], c);
    }
  }

  lemma LocalTable(guard: bool, s: State, e: Event)
    requires Inv(s) && Enabled(s, e) && Local(e)
    ensures TableOk(Apply(guard, s, e).table) && SameSessions(s.table, Apply(guard, s, e).table)
  {
    if (e.WriteHit? || e.WriteFirst? || e.RelayWrite?) && e.ok {
      assert ThreadOk(s.table, s.threads[e.t]);
    }
  }

  // The goroutine that carries on after a local event.
  function Successor(e: Event): Tid
    requires Local(e)
  {
    if e.SpawnRelay? then e.relay else e.t
  }

  // Goroutine t becomes u and u holds exactly what t held.
  ghost predicate MovesOn(s: State, s': State, t: Tid, u: Tid) {
    t in s.threads && (u == t || u !in s.threads) && u in s'.threads &&
    s'.threads == Replace(s.threads, t, u, s'.threads[u]) &&
    ThreadOk(s.table, s'.threads[u]) &&
    (forall c :: PreInsert(s'.threads[u], c) <==> PreInsert(s.threads[t], c)) &&
    (forall c :: Serves(s'.threads[u], c) <==> Serves(s.threads[t], c))
  }

  lemma GotoMoves(s: State, t: Tid, pc: HandlerPc, tb: Table)
    requires Inv(s) && HandlerAt(s, t)
    requires ThreadOk(s.table, s.threads[t].(hpc := pc))
    requires forall c :: PreInsert(s.threads[t].(hpc := pc), c) <==> PreInsert(s.threads[t], c)
    requires forall c :: Serves(s.threads[t].(hpc := pc), c) <==> Serves(s.threads[t], c)
    ensures MovesOn(s, Goto(s, t, pc).(table := tb), t, t)
  {
  }

  lemma GotoRelayMoves(s: State, t: Tid, pc: RelayPc, tb: Table)
    requires Inv(s) && RelayAt(s, t)
    ensures MovesOn(s, GotoRelay(s, t, pc).(table := tb), t, t)
  {
    assert ThreadOk(s.table, s.threads[t]);
  }

  lemma HandlerMove(guard: bool, s: State, e: Event)
    requires Inv(s) && Enabled(s, e) && Local(e) && !e.Arrive? && !e.NoTarget? && !e.TouchSession? && !e.SpawnRelay?
    requires HandlerAt(s, e.t)
    ensures MovesOn(s, Apply(guard, s, e), e.t, e.t)
  {
    hide ClosesOk, OverwrittenOk, CountOk, DatagramsOk, HoldersUnique, AllServed, Accounted, MovesOn;
    var s' := Apply(guard, s, e);
    assert ThreadOk(s.table, s.threads[e.t]);
    GotoMoves(s, e.t, s'.threads[e.t].hpc, s'.table);
  }

  lemma RelayMove(guard: bool, s: State, e: Event)
    requires Inv(s) && Enabled(s, e) && Local(e) && !e.Arrive? && RelayAt(s, e.t)
    ensures MovesOn(s, Apply(guard, s, e), e.t, e.t)
  {
    var s' := Apply(guard, s, e);
    GotoRelayMoves(s, e.t, s'.threads[e.t].rpc, s'.table);
  }

  lemma LocalMove(guard: bool, s: State, e: Event)
    requires Inv(s) && Enabled(s, e) && Local(e) && !e.Arrive? && !e.NoTarget? && !e.TouchSession?
    ensures MovesOn(s, Apply(guard, s, e), e.t, Successor(e))
  {
    if e.SpawnRelay? {
      assert ThreadOk(s.table, s.threads[e.t]);
    } else if s.threads[e.t].Handler? {
      HandlerMove(guard, s, e);
    } else {
      RelayMove(guard, s, e);
    }
  }

  lemma LocalStep(guard: bool, s: State, e: Event)
    requires Inv(s) && Enabled(s, e) && Local(e)
    ensures Inv(Apply(guard, s, e))
  {
    LocalTable(guard, s, e);
    if e.Arrive? {
      ArriveStep(s, e.t, e.key, e.size);
    } else if e.NoTarget? || e.TouchSession? {
      Leave(s, Apply(guard, s, e), e.t);
    } else {
      LocalMove(guard, s, e);
      Move(s, Apply(guard, s, e), e.t, Successor(e), Apply(guard, s, e).threads[Successor(e)]);
    }
  }

  // ---------- steps that change the session map ----------

  lemma RemoveOk(tb: Table, key: Key, remover: Remover)
    requires TableOk(tb) && key in tb.sessions
    ensures TableOk(Remove(tb, key, remover))
    ensures forall c :: Mapped(Remove(tb, key, remover), c) <==> Mapped(tb, c) && c != tb.sessions[key]
  {
    var tb' := Remove(tb, key, remover);
    assert tb'.sessions.Keys == tb.sessions.Keys - {key};
    assert Mapped(tb, tb.sessions[key]);
    assert |tb'.sessions.Keys| == |tb.sessions.Keys| - 1;
  }

  lemma RemoveStep(s: State, key: Key, remover: Remover)
    requires Inv(s) && key in s.table.sessions
    ensures Inv(s.(table := Remove(s.table, key, remover)))
  {
    var s' := s.(table := Remove(s.table, key, remover));
    RemoveOk(s.table, key, remover);
    assert Mapped(s.table, s.table.sessions[key]);
    forall t | t in s.threads ensures ThreadOk(s'.table, s.threads[t]) {
      assert ThreadOk(s.table, s.threads[t]);
    }
  }

  lemma CloseSessionStep(guard: bool, s: State, key: Key, remover: Remover)
    requires Inv(s) && !remover.BySweep?
    ensures Inv(s.(table := CloseSession(guard, s.table, key, remover)))
  {
    if CloseSession(guard, s.table, key, remover) != s.table {
      RemoveStep(s, key, remover);
    } else {
      assert s.(table := CloseSession(guard, s.table, key, remover)) == s;
    }
  }

  // After its teardown a goroutine's own session is not mapped, whichever way it went.
  lemma TornDown(guard: bool, tb: Table, key: Key, remover: Remover)
    requires KeysOk(tb) && !remover.BySweep? && Owns(tb, key, remover.conn)
    ensures !Mapped(CloseSession(guard, tb, key, remover), remover.conn)
  {
  }

  lemma TearStep(guard: bool, s: State, e: Event)
    requires Inv(s) && Enabled(s, e) && (e.TearHit? || e.RelayTear?)
    ensures Inv(Apply(guard, s, e))
  {
    hide CloseSession, Mapped, AllServed, Accounted, HoldersUnique;
    var th := s.threads[e.t];
    assert ThreadOk(s.table, th);
    var remover := if e.TearHit? then ByHandler(th.hpc.conn) else ByRelay(th.conn);
    var mid := s.(table := CloseSession(guard, s.table, th.key, remover));
    CloseSessionStep(guard, s, th.key, remover);
    TornDown(guard, s.table, th.key, remover);
    Leave(mid, Apply(guard, s, e), e.t);
  }

  lemma SweepStep(s: State, order: seq<Key>, now: int)
    requires Inv(s)
    ensures Inv(s.(table := SweepKeys(s.table, order, now)))
    decreases |order|
  {
    if order == [] {
      assert s.(table := SweepKeys(s.table, order, now)) == s;
    } else {
      var mid := s.(table := SweepKeys(s.table, order[..|order| - 1], now));
      var key := order[|order| - 1];
      SweepStep(s, order[..|order| - 1], now);
      if Stale(mid.table, key, now) {
        RemoveStep(mid, key, BySweep);
      }
      assert s.(table := SweepKeys(s.table, order, now)) == mid.(table := SweepKey(mid.table, key, now));
    }
  }

  lemma DialThreads(s: State, t: Tid, conn: Conn, tb': Table)
    requires Inv(s) && HandlerAt(s, t) && s.threads[t].hpc.Miss? && conn !in s.table.clientOf
    requires tb' == s.table.(clientOf := s.table.clientOf[conn := s.threads[t].key])
    ensures ThreadsOk(Goto(s, t, Dialed(conn)).(table := tb'))
    ensures HoldersUnique(Goto(s, t, Dialed(conn)).threads)
  {
    hide AllServed, Accounted, DatagramsOk, CountOk;
    var threads' := Goto(s, t, Dialed(conn)).threads;
    forall v | v in s.threads ensures ThreadOk(tb', threads'[v]) && !Holds(s.threads[v], conn) {
      assert ThreadOk(s.table, s.threads[v]);
    }
    forall a, b, c | a in threads' && b in threads' && Holds(threads'[a], c) && Holds(threads'[b], c)
      ensures a == b
    {
      assert a != t ==> Holds(s.threads[a], c);
      assert b != t ==> Holds(s.threads[b], c);
      assert a == t ==> c == conn;
      assert b == t ==> c == conn;
    }
  }

  lemma DialStep(guard: bool, s: State, t: Tid, conn: Conn)
    requires Inv(s) && Enabled(s, Dial(t, conn))
    ensures Inv(Apply(guard, s, Dial(t, conn)))
  {
    var s' := Apply(guard, s, Dial(t, conn));
    var th' := s'.threads[t];
    assert s'.threads == Replace(s.threads, t, t, th');
    DialThreads(s, t, conn, s'.table);
    forall c | Served(s.threads, c) ensures Served(s'.threads, c) { ServedAfterReplace(s.threads, t, t, th', c); }
    forall c | InFlight(s.threads, c) ensures InFlight(s'.threads, c) { InFlightAfterReplace(s.threads, t, t, th', c); }
    assert PreInsert(th', conn);
  }

  lemma CloseAbortedThreads(guard: bool, s: State, t: Tid)
    requires Inv(s) && Enabled(s, CloseAborted(t))
    ensures ThreadsOk(Apply(guard, s, CloseAborted(t)))
  {
    hide AllServed, Accounted, TableOk, Served, InFlight;
    var s' := Apply(guard, s, CloseAborted(t));
    var conn := s.threads[t].hpc.conn;
    assert Holds(s.threads[t], conn);
    forall v | v in s'.threads ensures ThreadOk(s'.table, s'.threads[v]) {
      assert ThreadOk(s.table, s.threads[v]);
      assert !Holds(s.threads[v], conn);
    }
  }

  lemma CloseAbortedTable(tb: Table, conn: Conn)
    requires TableOk(tb) && conn in tb.clientOf && conn !in tb.closeLog && !Mapped(tb, conn) && conn !in tb.overwritten
    ensures TableOk(tb.(closeLog := tb.closeLog + [conn]))
  {
    hide CountOk, DatagramsOk;
    assert CountOk(tb) && DatagramsOk(tb);
    var tb' := tb.(closeLog := tb.closeLog + [conn]);
    SameCounts(tb, tb');
    assert forall c :: Mapped(tb', c) <==> Mapped(tb, c);
    assert forall k :: k in tb.sessions ==> Mapped(tb, tb.sessions[k]);
  }

  lemma SameCounts(a: Table, b: Table)
    requires CountOk(a) && DatagramsOk(a)
    requires b == a.(closeLog := b.closeLog)
    ensures CountOk(b) && DatagramsOk(b)
  {
  }

  lemma CloseAbortedStep(guard: bool, s: State, t: Tid)
    requires Inv(s) && Enabled(s, CloseAborted(t))
    ensures Inv(Apply(guard, s, CloseAborted(t)))
  {
    var s' := Apply(guard, s, CloseAborted(t));
    var conn := s.threads[t].hpc.conn;
    assert PreInsert(s.threads[t], conn) && ThreadOk(s.table, s.threads[t]);
    CloseAbortedTable(s.table, conn);
    hide TableOk;
    assert forall c :: Mapped(s'.table, c) <==> Mapped(s.table, c);
    forall c | Served(s.threads, c) ensures Served(s'.threads, c) { ServedAfterExit(s.threads, t, c); }
    forall c | InFlight(s.threads, c) && c != conn ensures InFlight(s'.threads, c) {
      InFlightAfterExit(s.threads, t, c);
    }
    CloseAbortedThreads(guard, s, t);
  }

  // What an insert may be handed: a connection dialled for this key and used nowhere yet.
  ghost predicate Insertable(tb: Table, key: Key, conn: Conn) {
    Owns(tb, key, conn) && conn !in tb.closeLog && !Mapped(tb, conn) && conn !in tb.overwritten
  }

  lemma InsertMaps(tb: Table, key: Key, conn: Conn, now: int)
    requires TableOk(tb) && Insertable(tb, key, conn)
    ensures KeysOk(InsertSession(tb, key, conn, now))
    ensures forall c :: Mapped(InsertSession(tb, key, conn, now), c) <==>
      c == conn || (Mapped(tb, c) && tb.clientOf[c] != key)
  {
  }

  lemma InsertCounts(tb: Table, key: Key, conn: Conn, now: int)
    requires TableOk(tb) && Insertable(tb, key, conn)
    ensures CountOk(InsertSession(tb, key, conn, now))
  {
    var tb' := InsertSession(tb, key, conn, now);
    if key in tb.sessions {
      assert Mapped(tb, tb.sessions[key]);
      assert tb'.sessions.Keys == tb.sessions.Keys;
      assert |tb'.sessions.Keys| == |tb.sessions.Keys|;
    } else {
      assert tb'.sessions.Keys == tb.sessions.Keys + {key};
      assert |tb'.sessions.Keys| == |tb.sessions.Keys| + 1;
    }
  }

  lemma InsertOk(tb: Table, key: Key, conn: Conn, now: int)
    requires TableOk(tb) && Insertable(tb, key, conn)
    ensures TableOk(InsertSession(tb, key, conn, now))
  {
    InsertMaps(tb, key, conn, now);
    InsertCounts(tb, key, conn, now);
    assert key in tb.sessions ==> Mapped(tb, tb.sessions[key]);
  }

  lemma InsertThreads(s: State, t: Tid, conn: Conn, now: int, threads': map<Tid, Thread>)
    requires Inv(s) && HandlerAt(s, t) && s.threads[t].hpc == Filled(conn)
    requires threads' == Replace(s.threads, t, t, s.threads[t].(hpc := CountPacket(conn, true)))
    ensures ThreadsOk(State(InsertSession(s.table, s.threads[t].key, conn, now), threads'))
    ensures HoldersUnique(threads')
  {
    var key := s.threads[t].key;
    assert Holds(s.threads[t], conn) && ThreadOk(s.table, s.threads[t]);
    InsertMaps(s.table, key, conn, now);
    UniqueAfterReplace(s.threads, t, t, threads'[t]);
    assert key in s.table.sessions ==> Mapped(s.table, s.table.sessions[key]);
    forall v | v in threads' ensures ThreadOk(InsertSession(s.table, key, conn, now), threads'[v]) {
      assert ThreadOk(s.table, s.threads[v]);
      assert v != t ==> !Holds(s.threads[v], conn);
    }
  }

  lemma InsertStep(guard: bool, s: State, t: Tid, now: int)
    requires Inv(s) && Enabled(s, Insert(t, now))
    ensures Inv(Apply(guard, s, Insert(t, now)))
  {
    hide TableOk, HoldersUnique;
    var s' := Apply(guard, s, Insert(t, now));
    var key, conn, th' := s.threads[t].key, s.threads[t].hpc.conn, s'.threads[t];
    assert ThreadOk(s.table, s.threads[t]);
    InsertOk(s.table, key, conn, now);
    InsertMaps(s.table, key, conn, now);
    assert s'.threads == Replace(s.threads, t, t, th');
    InsertThreads(s, t, conn, now, s'.threads);
    assert Serves(th', conn);
    forall c | Served(s.threads, c) ensures Served(s'.threads, c) { ServedAfterReplace(s.threads, t, t, th', c); }
    forall c | InFlight(s.threads, c) && c != conn ensures InFlight(s'.threads, c) {
      InFlightAfterReplace(s.threads, t, t, th', c);
    }
  }

  // Every atomic action of every interleaving keeps the invariant, in the proxy
  // itself and in the variant with the identity check.
  lemma StepKeepsInv(guard: bool, s: State, e: Event)
    requires Inv(s) && Enabled(s, e)
    ensures Inv(Apply(guard, s, e))
  {
    match e
    case Dial(t, conn) => DialStep(guard, s, t, conn);
    case CloseAborted(t) => CloseAbortedStep(guard, s, t);
    case Insert(t, now) => InsertStep(guard, s, t, now);
    case TearHit(_) => TearStep(guard, s, e);
    case RelayTear(_) => TearStep(guard, s, e);
    case Sweep(order, now) => SweepStep(s, order, now);
    case _ => LocalStep(guard, s, e);
  }

  lemma {:induction false} RunKeepsInv(guard: bool, s: State, es: seq<Event>)
    requires Inv(s) && IsRun(guard, s, es)
    ensures Inv(Exec(guard, s, es))
    decreases |es|
  {
    if es != [] {
      StepKeepsInv(guard, s, es[0]);
      RunKeepsInv(guard, Apply(guard, s, es[0]), es[1..]);
    }
  }
}
