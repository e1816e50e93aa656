// The UDP server's mutable state: the session map, the shared session records that
// handlers and relays keep pointers to, and the lock sections that change them.
module UdpServer {
  import opened UdpSessions

  class Session {
    const client: Key
    const conn: Conn
    var lastUsed: int

    constructor (client: Key, conn: Conn, now: int)
      ensures this.client == client && this.conn == conn && lastUsed == now
    {
      this.client, this.conn, lastUsed := client, conn, now;
    }
  }

  lemma SweepSnoc(tb: Table, order: seq<Key>, key: Key, now: int)
    ensures SweepKeys(tb, order + [key], now) == SweepKey(SweepKeys(tb, order, now), key, now)
  {
    assert (order + [key])[..|order|] == order;
  }

  lemma VisitedSnoc(order: seq<Key>, key: Key, all: set<Key>, rest: set<Key>)
    requires NoDup(order) && (set k | k in order) == all - rest && key in rest && rest <= all
    ensures NoDup(order + [key]) && (set k | k in order + [key]) == all - (rest - {key})
  {
    assert forall k :: k in order ==> k in (set x | x in order);
    assert forall k :: k in order + [key] <==> k in order || k == key;
    assert (set k | k in order + [key]) == (set k | k in order) + {key};
    assert all - (rest - {key}) == (all - rest) + {key};
  }

  function ConnsOf(sessions: map<Key, Session>): map<Key, Conn> {
    map k | k in sessions :: sessions[k].conn
  }

  ghost function LastUses(records: map<Conn, Session>): map<Conn, int>
    reads records.Values
  {
    map c | c in records :: records[c].lastUsed
  }

  lemma ConnsOfSet(sessions: map<Key, Session>, key: Key, session: Session)
    ensures ConnsOf(sessions[key := session]) == ConnsOf(sessions)[key := session.conn]
  {
  }

  lemma LastUsesSet(records: map<Conn, Session>, session: Session)
    ensures LastUses(records[session.conn := session]) == LastUses(records)[session.conn := session.lastUsed]
  {
  }

  class Server {
    var sessions: map<Key, Session>
    var created: nat
    var packetsOut: nat
    var bytesOut: nat
    var packetsIn: nat
    var bytesIn: nat

    ghost var records: map<Conn, Session>   // every record ever inserted
    ghost var clientOf: map<Conn, Key>
    ghost var closeLog: seq<Conn>
    ghost var overwritten: set<Conn>
    ghost var removals: seq<Removal>
    ghost var toTarget: seq<Datagram>
    ghost var toClient: seq<Datagram>

    ghost predicate Valid()
      reads this
    {
      (forall c :: c in records ==> records[c].conn == c) &&
      (forall k :: k in sessions ==> sessions[k].conn in records && records[sessions[k].conn] == sessions[k])
    }

    ghost function TableOf(): Table
      reads this, records.Values
    {
      Table(ConnsOf(sessions), clientOf, LastUses(records),
            closeLog, overwritten, removals, created, packetsOut, bytesOut, packetsIn, bytesIn, toTarget, toClient)
    }

    constructor ()
      ensures Valid() && TableOf() == Init().table && sessions == map[] && records == map[]
    {
      sessions, created, packetsOut, bytesOut, packetsIn, bytesIn := map[], 0, 0, 0, 0, 0;
      records, clientOf, closeLog, overwritten, removals, toTarget, toClient := map[], map[], [], {}, [], [], [];
      new;
      assert TableOf().sessions == map[] && TableOf().lastUsed == map[];
    }

    // The read-locked lookup at the start of a handler.
    method Find(key: Key) returns (session: Session?)
      requires Valid()
      ensures session == null <==> key !in TableOf().sessions
      ensures session != null ==> session.conn == TableOf().sessions[key] && session in records.Values
    {
      session := null;
      if key in sessions {
        session := sessions[key];
        assert records[session.conn] == session;
      }
    }

    // A handler's insert. An earlier session under the key is replaced, not closed.
    method Insert(key: Key, session: Session)
      requires Valid() && session.conn !in records
      modifies this
      ensures Valid() && sessions == old(sessions)[key := session]
      ensures records == old(records)[session.conn := session]
      ensures TableOf() == InsertSession(old(TableOf()), key, session.conn, session.lastUsed)
    {
      ConnsOfSet(sessions, key, session);
      LastUsesSet(records, session);
      if key in sessions {
        overwritten := overwritten + {sessions[key].conn};
      }
      sessions := sessions[key := session];
      records := records[session.conn := session];
      created := created + 1;
    }

    // Close the connection under the key and delete the entry.
    method Delete(key: Key, ghost remover: Remover)
      requires Valid() && key in sessions
      modifies this
      ensures Valid() && records == old(records) && sessions == old(sessions) - {key}
      ensures TableOf() == Remove(old(TableOf()), key, remover)
    {
      closeLog := closeLog + [sessions[key].conn];
      removals := removals + [Removal(remover, sessions[key].conn)];
      sessions := sessions - {key};
      assert TableOf().sessions == Remove(old(TableOf()), key, remover).sessions;
    }

    // Teardown by key, as relays and failed writes do it.
    method Teardown(key: Key, ghost remover: Remover)
      requires Valid() && !remover.BySweep?
      modifies this
      ensures Valid() && records == old(records)
      ensures TableOf() == CloseSession(false, old(TableOf()), key, remover)
    {
      if key in sessions {
        Delete(key, remover);
      }
    }

    // A goroutine sets LastUsed through the pointer it holds; the map sees it, because
    // the record is shared.
    method TouchRecord(session: Session, now: int)
      requires Valid() && session in records.Values
      modifies session`lastUsed
      ensures Valid()
      ensures TableOf() == SetLastUsed(old(TableOf()), session.conn, now)
    {
      session.lastUsed := now;
      assert session.conn in records && records[session.conn] == session;
      assert TableOf().lastUsed == old(TableOf()).lastUsed[session.conn := now];
    }

    // The cleanup loop's body for one key.
    method Visit(key: Key, now: int)
      requires Valid() && key in sessions
      modifies this
      ensures Valid() && records == old(records) && old(sessions).Keys - {key} <= sessions.Keys
      ensures TableOf() == SweepKey(old(TableOf()), key, now)
    {
      assert records[sessions[key].conn] == sessions[key];
      if now - sessions[key].lastUsed > SESSION_TTL {
        Delete(key, BySweep);
      }
    }

    // One tick of the cleanup loop: visit every key once, in the map's own order.
    method CleanupSweep(now: int) returns (ghost order: seq<Key>)
      requires Valid()
      modifies this
      ensures Valid() && NoDup(order) && (set k | k in order) == old(sessions).Keys
      ensures TableOf() == SweepKeys(old(TableOf()), order, now)
    {
      var rest := sessions.Keys;
      order := [];
      ghost var was := TableOf();
      while rest != {}
        invariant Valid() && rest <= sessions.Keys && records == old(records)
        invariant NoDup(order) && (set k | k in order) == old(sessions).Keys - rest && rest <= old(sessions).Keys
        invariant TableOf() == SweepKeys(was, order, now)
        decreases |rest|
      {
        var key :| key in rest;
        SweepSnoc(was, order, key, now);
        VisitedSnoc(order, key, old(sessions).Keys, rest);
        Visit(key, now);
        order := order + [key];
        rest := rest - {key};
      }
    }

    // ConnsActive as GetStats reports it.
    method ConnsActive() returns (n: nat)
      requires Valid()
      ensures n == |TableOf().sessions|
    {
      n := |sessions|;
      assert TableOf().sessions.Keys == sessions.Keys;
      assert |TableOf().sessions.Keys| == |sessions.Keys|;
    }
  }
}
