// What the UDP session table guarantees on every run, and where the guarantees end.
module UdpTheorems {
  import opened Options
  import opened UdpSessions

  ghost predicate Reachable(guard: bool, s: State) {
    exists es :: IsRun(guard, Init(), es) && Exec(guard, Init(), es) == s
  }

  lemma ReachableInv(guard: bool, s: State)
    requires Reachable(guard, s)
    ensures Inv(s)
  {
    var es :| IsRun(guard, Init(), es) && Exec(guard, Init(), es) == s;
    RunKeepsInv(guard, Init(), es);
  }

  // ---------- safety ----------

  // Sessions are open and sit under their own client's address, nothing is closed
  // twice, and no datagram travels on another client's connection.
  lemma SessionTableSafety(guard: bool, s: State)
    requires Reachable(guard, s)
    ensures forall k :: k in s.table.sessions ==>
      var c := s.table.sessions[k];
      c in s.table.clientOf && s.table.clientOf[c] == k && c !in s.table.closeLog
    ensures forall j, k :: j in s.table.sessions && k in s.table.sessions && j != k ==>
      s.table.sessions[j] != s.table.sessions[k]
    ensures NoDup(s.table.closeLog)
    ensures forall d :: d in s.table.toTarget + s.table.toClient ==>
      d.conn in s.table.clientOf && s.table.clientOf[d.conn] == d.client
  {
    ReachableInv(guard, s);
  }

  ghost predicate OnlyReader(s: State, t: Tid, c: Conn)
    requires t in s.threads
  {
    Serves(s.threads[t], c) && forall u :: u in s.threads && Serves(s.threads[u], c) ==> u == t
  }

  // Every mapped session has exactly one reader: its relay, or the creating handler
  // between the insert and the spawn. Racing inserts and stale teardowns included.
  lemma MappedSessionHasOneReader(guard: bool, s: State, k: Key)
    requires Reachable(guard, s) && k in s.table.sessions
    ensures exists t :: t in s.threads && OnlyReader(s, t, s.table.sessions[k])
  {
    ReachableInv(guard, s);
    var c := s.table.sessions[k];
    var t :| t in s.threads && Serves(s.threads[t], c);
    forall u | u in s.threads && Serves(s.threads[u], c) ensures u == t {
      assert Holds(s.threads[u], c) && Holds(s.threads[t], c);
    }
    assert OnlyReader(s, t, c);
  }

  // ---------- conservation and leaks ----------

  // The Sessions counter splits into mapped, removed and overwritten sessions, and the
  // overwritten ones are exactly the open connections that are not mapped and whose
  // creating handler is past its insert.
  lemma SessionsConserved(guard: bool, s: State)
    requires Reachable(guard, s)
    ensures s.table.created == |s.table.sessions| + |s.table.removals| + |s.table.overwritten|
    ensures forall c :: c in s.table.overwritten <==>
      c in s.table.clientOf && c !in s.table.closeLog && !Mapped(s.table, c) && !InFlight(s.threads, c)
  {
    ReachableInv(guard, s);
    assert forall t :: t in s.threads ==> ThreadOk(s.table, s.threads[t]);
  }

  lemma SweepKeepsOverwritten(tb: Table, order: seq<Key>, now: int)
    ensures SweepKeys(tb, order, now).overwritten == tb.overwritten
    decreases |order|
  {
  }

  // No path of the proxy's code closes an overwritten connection, whatever happens
  // afterwards: teardown goes through the map, and the map no longer leads to it. Its
  // relay may still be running.
  lemma {:induction false} OverwrittenLeaksForever(guard: bool, s: State, es: seq<Event>, c: Conn)
    requires Inv(s) && IsRun(guard, s, es) && c in s.table.overwritten
    ensures c in Exec(guard, s, es).table.overwritten && c !in Exec(guard, s, es).table.closeLog
    decreases |es|
  {
    if es != [] {
      var e := es[0];
      if e.Sweep? {
        SweepKeepsOverwritten(s.table, e.order, e.now);
      }
      StepKeepsInv(guard, s, e);
      OverwrittenLeaksForever(guard, Apply(guard, s, e), es[1..], c);
    }
  }

  // ---------- serialised schedules ----------

  // A handler that has missed and may still insert.
  predicate InWindow(th: Thread) {
    th.Handler? && (th.hpc.Miss? || th.hpc.Dialed? || th.hpc.Filled?)
  }

  predicate SameWindow(a: Thread, b: Thread) {
    InWindow(a) && InWindow(b) && a.key == b.key
  }

  ghost predicate Serial(s: State) {
    forall t, u :: t in s.threads && u in s.threads && SameWindow(s.threads[t], s.threads[u]) ==> t == u
  }

  ghost predicate SerialRun(guard: bool, s: State, es: seq<Event>)
    requires IsRun(guard, s, es)
    decreases |es|
  {
    Serial(s) && (es != [] ==> SerialRun(guard, Apply(guard, s, es[0]), es[1..]))
  }

  ghost predicate WindowsUnmapped(s: State) {
    s.table.overwritten == {} &&
    forall t :: t in s.threads && InWindow(s.threads[t]) ==> s.threads[t].key !in s.table.sessions
  }

  lemma SweepShrinks(tb: Table, order: seq<Key>, now: int)
    ensures SweepKeys(tb, order, now).sessions.Keys <= tb.sessions.Keys
    decreases |order|
  {
  }

  lemma SerialStep(guard: bool, s: State, e: Event)
    requires WindowsUnmapped(s) && Serial(s) && Enabled(s, e)
    ensures WindowsUnmapped(Apply(guard, s, e))
  {
    var s' := Apply(guard, s, e);
    if e.Sweep? {
      SweepShrinks(s.table, e.order, e.now);
      SweepKeepsOverwritten(s.table, e.order, e.now);
    } else if e.Insert? {
      assert forall t :: t in s.threads && SameWindow(s.threads[t], s.threads[e.t]) ==> t == e.t;
    } else {
      assert s'.table.sessions.Keys <= s.table.sessions.Keys;
    }
    forall t | t in s'.threads && InWindow(s'.threads[t]) ensures s'.threads[t].key !in s'.table.sessions {
      if !e.DoLookup? || e.t != t {
        assert t in s.threads && InWindow(s.threads[t]);
      }
    }
  }

  // If two handlers of one client are never both between lookup and insert, nothing is
  // overwritten and every open connection is mapped or held by its creating handler.
  lemma {:induction false} SerialRunsLeakNothing(guard: bool, s: State, es: seq<Event>)
    requires Inv(s) && WindowsUnmapped(s) && IsRun(guard, s, es) && SerialRun(guard, s, es)
    ensures Exec(guard, s, es).table.overwritten == {}
    ensures var s' := Exec(guard, s, es);
            forall c :: c in s'.table.clientOf && c !in s'.table.closeLog ==>
              Mapped(s'.table, c) || InFlight(s'.threads, c)
    decreases |es|
  {
    if es == [] {
    } else {
      StepKeepsInv(guard, s, es[0]);
      SerialStep(guard, s, es[0]);
      SerialRunsLeakNothing(guard, Apply(guard, s, es[0]), es[1..]);
    }
  }

  // ---------- exactly which runs leak ----------

  ghost predicate Replaces(s: State, e: Event)
    requires Enabled(s, e)
  {
    e.Insert? && s.threads[e.t].key in s.table.sessions
  }

  // Every insert of the run finds its key unmapped.
  ghost predicate NeverReplaces(guard: bool, s: State, es: seq<Event>)
    requires IsRun(guard, s, es)
    decreases |es|
  {
    es != [] ==> !Replaces(s, es[0]) && NeverReplaces(guard, Apply(guard, s, es[0]), es[1..])
  }

  lemma OverwritesStep(guard: bool, s: State, e: Event)
    requires Enabled(s, e)
    ensures s.table.overwritten <= Apply(guard, s, e).table.overwritten
    ensures if Replaces(s, e) then Apply(guard, s, e).table.overwritten != {}
            else Apply(guard, s, e).table.overwritten == s.table.overwritten
  {
    if e.Sweep? {
      SweepKeepsOverwritten(s.table, e.order, e.now);
    } else if Replaces(s, e) {
      assert s.table.sessions[s.threads[e.t].key] in Apply(guard, s, e).table.overwritten;
    }
  }

  lemma {:induction false} OverwrittenGrows(guard: bool, s: State, es: seq<Event>)
    requires IsRun(guard, s, es)
    ensures s.table.overwritten <= Exec(guard, s, es).table.overwritten
    decreases |es|
  {
    if es != [] {
      OverwritesStep(guard, s, es[0]);
      OverwrittenGrows(guard, Apply(guard, s, es[0]), es[1..]);
    }
  }

  lemma {:induction false} NothingOverwrittenIff(guard: bool, s: State, es: seq<Event>)
    requires s.table.overwritten == {} && IsRun(guard, s, es)
    ensures Exec(guard, s, es).table.overwritten == {} <==> NeverReplaces(guard, s, es)
    decreases |es|
  {
    if es != [] {
      var s' := Apply(guard, s, es[0]);
      OverwritesStep(guard, s, es[0]);
      if Replaces(s, es[0]) {
        OverwrittenGrows(guard, s', es[1..]);
      } else {
        NothingOverwrittenIff(guard, s', es[1..]);
      }
    }
  }

  ghost predicate NoOrphans(s: State) {
    forall c :: c in s.table.clientOf && c !in s.table.closeLog ==> Mapped(s.table, c) || InFlight(s.threads, c)
  }

  lemma NoOrphansIffNothingOverwritten(s: State)
    requires Inv(s)
    ensures NoOrphans(s) <==> s.table.overwritten == {}
  {
    assert forall t :: t in s.threads ==> ThreadOk(s.table, s.threads[t]);
    if c :| c in s.table.overwritten {
      assert !Mapped(s.table, c) && !InFlight(s.threads, c);
    }
  }

  // A run leaves no open connection unmapped behind its creating handler exactly when
  // every insert in it finds its key unmapped.
  lemma RunLeaksNothingIff(guard: bool, s: State, es: seq<Event>)
    requires Inv(s) && s.table.overwritten == {} && IsRun(guard, s, es)
    ensures NoOrphans(Exec(guard, s, es)) <==> NeverReplaces(guard, s, es)
  {
    RunKeepsInv(guard, s, es);
    NothingOverwrittenIff(guard, s, es);
    NoOrphansIffNothingOverwritten(Exec(guard, s, es));
  }

  // ---------- the sweep ----------

  lemma {:induction false} SweepPrefix(tb: Table, order: seq<Key>, now: int)
    ensures var tb' := SweepKeys(tb, order, now);
            tb'.lastUsed == tb.lastUsed &&
            forall k :: k in tb'.sessions <==> k in tb.sessions && !(k in order && Stale(tb, k, now))
    ensures forall k :: k in SweepKeys(tb, order, now).sessions ==>
              SweepKeys(tb, order, now).sessions[k] == tb.sessions[k]
    decreases |order|
  {
    if order != [] {
      var front, key := order[..|order| - 1], order[|order| - 1];
      SweepPrefix(tb, front, now);
      assert forall k :: k in order <==> k in front || k == key;
    }
  }

  // A sweep deletes exactly the sessions idle for longer than the TTL, in whatever order
  // it visits them; sessions that are used in time stay as they are.
  lemma SweepDeletesExactlyTheStale(s: State, order: seq<Key>, now: int, k: Key)
    requires Enabled(s, Sweep(order, now)) && k in s.table.sessions && s.table.sessions[k] in s.table.lastUsed
    ensures var s' := Apply(false, s, Sweep(order, now));
            (k in s'.table.sessions <==> now - s.table.lastUsed[s.table.sessions[k]] <= SESSION_TTL) &&
            (k in s'.table.sessions ==> s'.table.sessions[k] == s.table.sessions[k])
  {
    SweepPrefix(s.table, order, now);
    assert k in (set x | x in order);
  }

  // ---------- when a session was last used ----------

  // The events that set LastUsed for connection c.
  predicate Uses(s: State, e: Event, c: Conn)
    requires Enabled(s, e)
  {
    match e
    case Insert(t, _) => s.threads[t].hpc.conn == c
    case TouchSession(t, _) => s.threads[t].hpc.conn == c
    case RelayTouch(t, _) => s.threads[t].conn == c
    case _ => false
  }

  // The time of the last event of a run that used c, or `before` if there is none.
  ghost function LastUse(guard: bool, s: State, es: seq<Event>, c: Conn, before: Option<int>): Option<int>
    requires IsRun(guard, s, es)
    decreases |es|
  {
    if es == [] then before
    else LastUse(guard, Apply(guard, s, es[0]), es[1..], c, if Uses(s, es[0], c) then Some(es[0].now) else before)
  }

  function Recorded(tb: Table, c: Conn): Option<int> {
    if c in tb.lastUsed then Some(tb.lastUsed[c]) else None
  }

  lemma UseStep(guard: bool, s: State, e: Event, c: Conn)
    requires Enabled(s, e)
    ensures Recorded(Apply(guard, s, e).table, c) == if Uses(s, e, c) then Some(e.now) else Recorded(s.table, c)
  {
    if e.Sweep? {
      SweepPrefix(s.table, e.order, e.now);
    }
  }

  // On every run LastUsed is the time of the last insert, packet or reply of the session.
  lemma {:induction false} LastUsedIsLastUse(guard: bool, s: State, es: seq<Event>, c: Conn)
    requires IsRun(guard, s, es)
    ensures Recorded(Exec(guard, s, es).table, c) == LastUse(guard, s, es, c, Recorded(s.table, c))
    decreases |es|
  {
    if es != [] {
      UseStep(guard, s, es[0], c);
      LastUsedIsLastUse(guard, Apply(guard, s, es[0]), es[1..], c);
    }
  }

  // So a sweep after any run deletes exactly the sessions whose last use in that run is
  // more than two minutes ago.
  lemma SweepDeletesExactlyTheIdle(es: seq<Event>, order: seq<Key>, now: int, k: Key)
    requires IsRun(false, Init(), es)
    requires var s := Exec(false, Init(), es); Enabled(s, Sweep(order, now)) && k in s.table.sessions
    ensures var s := Exec(false, Init(), es);
            var c, s' := s.table.sessions[k], Apply(false, s, Sweep(order, now));
            var last := LastUse(false, Init(), es, c, None);
            last.Some? && (k in s'.table.sessions <==> now - last.value <= 120_000_000_000) &&
            (k in s'.table.sessions ==> s'.table.sessions[k] == c) &&
            (k !in s'.table.sessions ==> c in s'.table.closeLog)
  {
    var s := Exec(false, Init(), es);
    RunKeepsInv(false, Init(), es);
    LastUsedIsLastUse(false, Init(), es, s.table.sessions[k]);
    SweepDeletesExactlyTheStale(s, order, now, k);
    SweepCloses(s.table, order, now);
    assert k in (set x | x in order);
  }

  // ---------- stale teardown ----------

  // c is gone from the map: it was removed and closed, or overwritten and leaked.
  predicate Departed(tb: Table, c: Conn) {
    c in tb.clientOf && !Mapped(tb, c) && (c in tb.closeLog || c in tb.overwritten)
  }

  // The proxy's teardown goes by key alone. A relay's last act closes a session other
  // than its own exactly when its own is gone and a successor sits under the key.
  lemma StaleTeardownIff(s: State, t: Tid, d: Conn)
    requires Reachable(false, s) && Enabled(s, RelayTear(t))
    ensures var th := s.threads[t]; var after := Apply(false, s, RelayTear(t)).table;
            (d != th.conn && d !in s.table.closeLog && d in after.closeLog) <==>
            (Departed(s.table, th.conn) && th.key in s.table.sessions && s.table.sessions[th.key] == d)
  {
    ReachableInv(false, s);
    var th := s.threads[t];
    assert ThreadOk(s.table, th) && Holds(th, th.conn);
    assert forall u :: u in s.threads && PreInsert(s.threads[u], th.conn) ==> Holds(s.threads[u], th.conn);
  }

  // The same for a handler whose write failed on the session it had looked up.
  lemma StaleHandlerTeardownIff(s: State, t: Tid, d: Conn)
    requires Reachable(false, s) && Enabled(s, TearHit(t))
    ensures var th := s.threads[t]; var after := Apply(false, s, TearHit(t)).table;
            (d != th.hpc.conn && d !in s.table.closeLog && d in after.closeLog) <==>
            (!Mapped(s.table, th.hpc.conn) && th.key in s.table.sessions && s.table.sessions[th.key] == d)
  {
    ReachableInv(false, s);
    assert ThreadOk(s.table, s.threads[t]);
  }

  // ---------- when a session survives, and what an identity check would buy ----------

  predicate MapsTo(tb: Table, k: Key, c: Conn) { k in tb.sessions && tb.sessions[k] == c }

  // What ends session d under key k, last used at time `used`: a teardown, an insert for
  // the same client, or a sweep more than two minutes later. The proxy's teardown is by any
  // relay or handler of the client; with an identity check it is by d's own.
  predicate Ends(guard: bool, s: State, e: Event, k: Key, d: Conn, used: int)
    requires Enabled(s, e)
  {
    match e
    case RelayTear(t) => if guard then s.threads[t].conn == d else s.threads[t].key == k
    case TearHit(t) => if guard then s.threads[t].hpc.conn == d else s.threads[t].key == k
    case Insert(t, _) => s.threads[t].key == k
    case Sweep(_, now) => now - used > 120_000_000_000
    case _ => false
  }

  ghost predicate NothingEnds(guard: bool, s: State, es: seq<Event>, k: Key, d: Conn, used: int)
    requires IsRun(guard, s, es)
    decreases |es|
  {
    es != [] ==>
      !Ends(guard, s, es[0], k, d, used) &&
      NothingEnds(guard, Apply(guard, s, es[0]), es[1..], k, d, if Uses(s, es[0], d) then es[0].now else used)
  }

  lemma {:induction false} SweepCloses(tb: Table, order: seq<Key>, now: int)
    ensures var tb' := SweepKeys(tb, order, now);
            tb'.clientOf == tb.clientOf && tb.closeLog <= tb'.closeLog && tb'.overwritten == tb.overwritten
    ensures forall k :: k in order && Stale(tb, k, now) ==> tb.sessions[k] in SweepKeys(tb, order, now).closeLog
    decreases |order|
  {
    if order != [] {
      var front := order[..|order| - 1];
      SweepCloses(tb, front, now);
      SweepPrefix(tb, front, now);
      assert forall k :: k in order <==> k in front || k == order[|order| - 1];
    }
  }

  lemma SweepEnds(s: State, order: seq<Key>, now: int, k: Key, d: Conn)
    requires Inv(s) && Enabled(s, Sweep(order, now)) && MapsTo(s.table, k, d)
    ensures var tb' := SweepKeys(s.table, order, now);
            if Stale(s.table, k, now) then d in tb'.closeLog else MapsTo(tb', k, d)
  {
    SweepCloses(s.table, order, now);
    SweepPrefix(s.table, order, now);
    assert k in (set x | x in order);
  }

  // A step ends a session if and only if it is one of those.
  lemma StepEnds(guard: bool, s: State, e: Event, k: Key, d: Conn, used: int)
    requires Inv(s) && Enabled(s, e) && MapsTo(s.table, k, d) && Recorded(s.table, d) == Some(used)
    ensures var tb' := Apply(guard, s, e).table;
            if Ends(guard, s, e, k, d, used) then d in tb'.closeLog || d in tb'.overwritten else MapsTo(tb', k, d)
  {
    match e
    case Sweep(order, now) => SweepEnds(s, order, now, k, d);
    case RelayTear(t) => assert ThreadOk(s.table, s.threads[t]);
    case TearHit(t) => assert ThreadOk(s.table, s.threads[t]);
    case _ =>
  }

  lemma DepartedStep(guard: bool, s: State, e: Event, d: Conn)
    requires Enabled(s, e) && (d in s.table.closeLog || d in s.table.overwritten)
    ensures d in Apply(guard, s, e).table.closeLog || d in Apply(guard, s, e).table.overwritten
  {
    if e.Sweep? {
      SweepCloses(s.table, e.order, e.now);
    }
  }

  lemma {:induction false} DepartedForever(guard: bool, s: State, es: seq<Event>, k: Key, d: Conn)
    requires Inv(s) && IsRun(guard, s, es) && (d in s.table.closeLog || d in s.table.overwritten)
    ensures !MapsTo(Exec(guard, s, es).table, k, d)
    decreases |es|
  {
    if es != [] {
      StepKeepsInv(guard, s, es[0]);
      DepartedStep(guard, s, es[0], d);
      DepartedForever(guard, Apply(guard, s, es[0]), es[1..], k, d);
    }
  }

  // A session is still mapped at the end of a run exactly when no step of the run ended
  // it, where idleness counts from its last use. As the code is, any goroutine of the same
  // client may end it; with an identity check, other connections' goroutines cannot touch
  // it.
  lemma {:induction false} SessionSurvivesIff(guard: bool, s: State, es: seq<Event>, k: Key, d: Conn, used: int)
    requires Inv(s) && MapsTo(s.table, k, d) && Recorded(s.table, d) == Some(used) && IsRun(guard, s, es)
    ensures MapsTo(Exec(guard, s, es).table, k, d) <==> NothingEnds(guard, s, es, k, d, used)
    decreases |es|
  {
    if es != [] {
      var s' := Apply(guard, s, es[0]);
      StepEnds(guard, s, es[0], k, d, used);
      UseStep(guard, s, es[0], d);
      StepKeepsInv(guard, s, es[0]);
      if Ends(guard, s, es[0], k, d, used) {
        DepartedForever(guard, s', es[1..], k, d);
      } else {
        SessionSurvivesIff(guard, s', es[1..], k, d, if Uses(s, es[0], d) then es[0].now else used);
      }
    }
  }

  // ---------- a packet's way ----------

  lemma {:induction false} Snoc(guard: bool, s: State, es: seq<Event>, e: Event)
    requires IsRun(guard, s, es) && Enabled(Exec(guard, s, es), e)
    ensures IsRun(guard, s, es + [e])
    ensures Exec(guard, s, es + [e]) == Apply(guard, Exec(guard, s, es), e)
    decreases |es|
  {
    if es == [] {
      assert ([] + [e])[1..] == [];
    } else {
      assert (es + [e])[1..] == es[1..] + [e];
      Snoc(guard, Apply(guard, s, es[0]), es[1..], e);
    }
  }

  lemma Extend(guard: bool, s: State, es: seq<Event>, at: State, e: Event) returns (es': seq<Event>, at': State)
    requires IsRun(guard, s, es) && at == Exec(guard, s, es) && Enabled(at, e)
    ensures es' == es + [e] && IsRun(guard, s, es') && at' == Exec(guard, s, es') == Apply(guard, at, e)
  {
    Snoc(guard, s, es, e);
    es', at' := es + [e], Apply(guard, at, e);
  }

  lemma PacketWritten(guard: bool, s: State, t: Tid, k: Key, size: nat) returns (es: seq<Event>, s': State)
    requires t !in s.threads && k in s.table.sessions && s.table.sessions[k] !in s.table.closeLog
    ensures es == [Arrive(t, k, size), DoLookup(t), WriteHit(t, true)]
    ensures IsRun(guard, s, es) && s' == Exec(guard, s, es)
    ensures var c := s.table.sessions[k];
            s' == State(LogOut(s.table, Datagram(k, c, size)), s.threads[t := Handler(k, size, CountPacket(c, false))])
  {
    es, s' := [], s;
    assert IsRun(guard, s, es) && s' == Exec(guard, s, es);
    hide IsRun, Exec;
    es, s' := Extend(guard, s, es, s', Arrive(t, k, size));
    es, s' := Extend(guard, s, es, s', DoLookup(t));
    es, s' := Extend(guard, s, es, s', WriteHit(t, true));
  }

  // A packet of a client that has a session goes out on it, is counted, and refreshes it.
  lemma PacketOnSession(guard: bool, s: State, t: Tid, k: Key, size: nat, now: int) returns (es: seq<Event>, s': State)
    requires t !in s.threads && k in s.table.sessions && s.table.sessions[k] !in s.table.closeLog
    ensures es == [Arrive(t, k, size), DoLookup(t), WriteHit(t, true), AddPacket(t), AddBytes(t), TouchSession(t, now)]
    ensures IsRun(guard, s, es) && s' == Exec(guard, s, es) && s'.threads == s.threads
    ensures var c := s.table.sessions[k];
            s'.table == s.table.(toTarget := s.table.toTarget + [Datagram(k, c, size)],
                                 packetsOut := s.table.packetsOut + 1, bytesOut := s.table.bytesOut + size,
                                 lastUsed := s.table.lastUsed[c := now])
  {
    es, s' := PacketWritten(guard, s, t, k, size);
    hide IsRun, Exec;
    es, s' := Extend(guard, s, es, s', AddPacket(t));
    es, s' := Extend(guard, s, es, s', AddBytes(t));
    es, s' := Extend(guard, s, es, s', TouchSession(t, now));
  }

  lemma ReplyWritten(guard: bool, s: State, t: Tid, size: nat) returns (es: seq<Event>, s': State)
    requires RelayAt(s, t) && s.threads[t].rpc == Reading && s.threads[t].conn !in s.table.closeLog
    ensures es == [RelayRead(t, size), RelayWrite(t, true)]
    ensures IsRun(guard, s, es) && s' == Exec(guard, s, es)
    ensures var th := s.threads[t];
            s' == State(LogIn(s.table, Datagram(th.key, th.conn, size)),
                        s.threads[t := th.(rpc := CountPacketIn(size))])
  {
    es, s' := [], s;
    assert IsRun(guard, s, es) && s' == Exec(guard, s, es);
    hide IsRun, Exec;
    es, s' := Extend(guard, s, es, s', RelayRead(t, size));
    es, s' := Extend(guard, s, es, s', RelayWrite(t, true));
  }

  // A reply goes back to the client of the relay's session, is counted, and refreshes it.
  lemma ReplyRelayed(guard: bool, s: State, t: Tid, size: nat, now: int) returns (es: seq<Event>, s': State)
    requires RelayAt(s, t) && s.threads[t].rpc == Reading && s.threads[t].conn !in s.table.closeLog
    ensures es == [RelayRead(t, size), RelayWrite(t, true), RelayAddPacket(t), RelayAddBytes(t), RelayTouch(t, now)]
    ensures IsRun(guard, s, es) && s' == Exec(guard, s, es) && s'.threads == s.threads
    ensures var th := s.threads[t];
            s'.table == s.table.(toClient := s.table.toClient + [Datagram(th.key, th.conn, size)],
                                 packetsIn := s.table.packetsIn + 1, bytesIn := s.table.bytesIn + size,
                                 lastUsed := s.table.lastUsed[th.conn := now])
  {
    es, s' := ReplyWritten(guard, s, t, size);
    hide IsRun, Exec;
    es, s' := Extend(guard, s, es, s', RelayAddPacket(t));
    es, s' := Extend(guard, s, es, s', RelayAddBytes(t));
    es, s' := Extend(guard, s, es, s', RelayTouch(t, now));
  }

  // After a failed read or write a relay can only tear down, and then it is gone.
  lemma RelayEndsOnError(guard: bool, s: State, e: Event, next: Event)
    requires Enabled(s, e) && (e.RelayReadErr? || (e.RelayWrite? && !e.ok))
    requires Enabled(Apply(guard, s, e), next) && !next.Sweep? && next.t == e.t
    ensures next == RelayTear(e.t) && Apply(guard, Apply(guard, s, e), next).threads == s.threads - {e.t}
    ensures Apply(guard, s, e).table == s.table
  {
  }

  // ---------- runs that go wrong ----------

  lemma ReachableStep(guard: bool, s: State, e: Event)
    requires Reachable(guard, s) && Enabled(s, e)
    ensures Reachable(guard, Apply(guard, s, e))
  {
    var es :| IsRun(guard, Init(), es) && Exec(guard, Init(), es) == s;
    Snoc(guard, Init(), es, e);
  }

  // A client's first packet, up to the point where the handler is about to insert.
  lemma FillHandler(s: State, t: Tid, k: Key, c: Conn) returns (s': State)
    requires Reachable(false, s) && t !in s.threads
    requires k !in s.table.sessions && c !in s.table.clientOf && c !in s.table.closeLog
    ensures Reachable(false, s')
    ensures s'.threads == s.threads[t := Handler(k, 1, Filled(c))]
    ensures s'.table == s.table.(clientOf := s.table.clientOf[c := k],
                                 toTarget := s.table.toTarget + [Datagram(k, c, 1)])
  {
    s' := s;
    ReachableStep(false, s', Arrive(t, k, 1)); s' := Apply(false, s', Arrive(t, k, 1));
    ReachableStep(false, s', DoLookup(t)); s' := Apply(false, s', DoLookup(t));
    ReachableStep(false, s', Dial(t, c)); s' := Apply(false, s', Dial(t, c));
    ReachableStep(false, s', WriteFirst(t, true)); s' := Apply(false, s', WriteFirst(t, true));
  }

  // The insert and the two counter updates.
  lemma CountFirstPacket(s: State, t: Tid, k: Key, c: Conn, now: int) returns (s': State)
    requires Reachable(false, s) && t in s.threads && s.threads[t] == Handler(k, 1, Filled(c))
    ensures Reachable(false, s') && s'.threads == s.threads[t := Handler(k, 1, Spawn(c))]
    ensures s'.table == InsertSession(s.table, k, c, now).(
              packetsOut := s.table.packetsOut + 1, bytesOut := s.table.bytesOut + 1)
  {
    hide Reachable;
    s' := s;
    ReachableStep(false, s', Insert(t, now)); s' := Apply(false, s', Insert(t, now));
    ReachableStep(false, s', AddPacket(t)); s' := Apply(false, s', AddPacket(t));
    ReachableStep(false, s', AddBytes(t)); s' := Apply(false, s', AddBytes(t));
  }

  // The rest of it, up to the running relay.
  lemma FinishFirstPacket(s: State, t: Tid, k: Key, c: Conn, r: Tid, now: int) returns (s': State)
    requires Reachable(false, s) && t in s.threads && s.threads[t] == Handler(k, 1, Filled(c)) && r !in s.threads
    ensures Reachable(false, s')
    ensures s'.threads == (s.threads - {t})[r := Relay(k, c, Reading)]
    ensures s'.table == InsertSession(s.table, k, c, now).(
              packetsOut := s.table.packetsOut + 1, bytesOut := s.table.bytesOut + 1)
  {
    hide Reachable, InsertSession;
    s' := CountFirstPacket(s, t, k, c, now);
    ReachableStep(false, s', SpawnRelay(t, r)); s' := Apply(false, s', SpawnRelay(t, r));
  }

  // The server starts in a state that meets every starting condition used here.
  lemma InitReachable(guard: bool)
    ensures Reachable(guard, Init())
    ensures Inv(Init()) && WindowsUnmapped(Init()) && Serial(Init())
    ensures CountersBalance(Init())
  {
    assert IsRun(guard, Init(), []) && Exec(guard, Init(), []) == Init();
  }

  lemma SweepOnly(tb: Table, k: Key, now: int)
    requires Stale(tb, k, now)
    ensures SweepKeys(tb, [k], now) == Remove(tb, k, BySweep)
  {
    assert [k][..0] == [];
    assert SweepKeys(tb, [k][..0], now) == tb;
  }

  lemma SweepTheOnlySession(s: State, now: int) returns (s': State)
    requires Reachable(false, s) && s.table.sessions == map[1 := 100] && Stale(s.table, 1, now)
    ensures Reachable(false, s') && s'.threads == s.threads
    ensures s'.table == Remove(s.table, 1, BySweep) && s'.table.sessions == map[]
  {
    hide Reachable, SweepKeys;
    var sweep := Sweep([1], now);
    assert 1 in [1] && (set k | k in [1]) == s.table.sessions.Keys;
    SweepOnly(s.table, 1, now);
    ReachableStep(false, s, sweep);
    s' := Apply(false, s, sweep);
  }

  // A session is swept while its relay still waits for data.
  lemma SweptUnderRelay() returns (s: State)
    ensures Reachable(false, s) && s.threads == map[10 := Relay(1, 100, Reading)]
    ensures s.table.sessions == map[] && s.table.clientOf == map[100 := 1] && s.table.closeLog == [100]
  {
    hide Reachable, SweepKeys;
    InitReachable(false);
    s := FillHandler(Init(), 0, 1, 100);
    s := FinishFirstPacket(s, 0, 1, 100, 10, 0);
    s := SweepTheOnlySession(s, SESSION_TTL + 1);
    assert s.threads == map[10 := Relay(1, 100, Reading)];
  }

  // Sweep, new packet, old relay's error: the old relay closes its successor.
  // With the check this step would not have ended it.
  lemma StaleTeardownHappens() returns (before: State, e: Event, s: State)
    ensures Reachable(false, s) && Removal(ByRelay(100), 101) in s.table.removals
    ensures s.table.closeLog == [100, 101] && s.table.sessions == map[]
    ensures Reachable(false, before) && Enabled(before, e) && s == Apply(false, before, e)
    ensures MapsTo(before.table, 1, 101) && forall used :: !Ends(true, before, e, 1, 101, used)
  {
    hide Reachable;
    s := SweptUnderRelay();
    s := FillHandler(s, 1, 1, 101);
    s := FinishFirstPacket(s, 1, 1, 101, 11, SESSION_TTL + 2);
    ReachableStep(false, s, RelayReadErr(10)); s := Apply(false, s, RelayReadErr(10));
    before, e := s, RelayTear(10);
    ReachableStep(false, s, e); s := Apply(false, s, e);
    assert s.table.removals[|s.table.removals| - 1] == Removal(ByRelay(100), 101);
  }

  // A handler has looked its session up, and a sweep removes the session before the write.
  lemma SweptUnderHandler() returns (s: State)
    ensures Reachable(false, s)
    ensures s.threads == map[3 := Handler(1, 1, Hit(100)), 10 := Relay(1, 100, Reading)]
    ensures s.table.sessions == map[] && s.table.clientOf == map[100 := 1] && s.table.closeLog == [100]
  {
    hide Reachable, SweepKeys;
    InitReachable(false);
    s := FillHandler(Init(), 0, 1, 100);
    s := FinishFirstPacket(s, 0, 1, 100, 10, 0);
    ReachableStep(false, s, Arrive(3, 1, 1)); s := Apply(false, s, Arrive(3, 1, 1));
    ReachableStep(false, s, DoLookup(3)); s := Apply(false, s, DoLookup(3));
    assert s.threads == map[3 := Handler(1, 1, Hit(100)), 10 := Relay(1, 100, Reading)];
    s := SweepTheOnlySession(s, SESSION_TTL + 1);
  }

  // Lookup, sweep, another packet's new session, failed write: the handler's teardown
  // closes the new session.
  lemma StaleHandlerTeardownHappens() returns (before: State, e: Event, s: State)
    ensures Reachable(false, s) && Removal(ByHandler(100), 101) in s.table.removals
    ensures s.table.closeLog == [100, 101] && s.table.sessions == map[]
    ensures Reachable(false, before) && Enabled(before, e) && s == Apply(false, before, e)
    ensures MapsTo(before.table, 1, 101) && forall used :: !Ends(true, before, e, 1, 101, used)
  {
    hide Reachable;
    s := SweptUnderHandler();
    s := FillHandler(s, 1, 1, 101);
    s := FinishFirstPacket(s, 1, 1, 101, 11, SESSION_TTL + 2);
    ReachableStep(false, s, WriteHit(3, false)); s := Apply(false, s, WriteHit(3, false));
    before, e := s, TearHit(3);
    ReachableStep(false, s, e); s := Apply(false, s, e);
    assert s.table.removals[|s.table.removals| - 1] == Removal(ByHandler(100), 101);
  }

  // Two handlers of one client both miss: the first session is overwritten while it is
  // open. OverwrittenLeaksForever says that no path of this code closes it.
  lemma OverwriteHappens() returns (s: State)
    ensures Reachable(false, s) && s.table.overwritten == {100}
    ensures s.table.sessions == map[1 := 101] && s.table.closeLog == []
  {
    hide Reachable;
    InitReachable(false);
    s := FillHandler(Init(), 0, 1, 100);
    s := FillHandler(s, 2, 1, 101);
    ReachableStep(false, s, Insert(0, 0)); s := Apply(false, s, Insert(0, 0));
    ReachableStep(false, s, Insert(2, 0)); s := Apply(false, s, Insert(2, 0));
  }

  // ---------- the traffic counters ----------

  function TotalSize(ds: seq<Datagram>): nat {
    if ds == [] then 0 else TotalSize(ds[..|ds| - 1]) + ds[|ds| - 1].size
  }

  // What a goroutine has transferred and not yet added to each counter.
  function OwesPacketOut(th: Thread): nat {
    if th.Handler? && (th.hpc.Filled? || th.hpc.CountPacket?) then 1 else 0
  }

  function OwesBytesOut(th: Thread): nat {
    if th.Handler? && (th.hpc.Filled? || th.hpc.CountPacket? || th.hpc.CountBytes?) then th.size else 0
  }

  function OwesPacketIn(th: Thread): nat {
    if th.Relay? && th.rpc.CountPacketIn? then 1 else 0
  }

  function OwesBytesIn(th: Thread): nat {
    if th.Relay? && (th.rpc.CountPacketIn? || th.rpc.CountBytesIn?) then th.rpc.size else 0
  }

  ghost function Owed(threads: map<Tid, Thread>, owes: Thread -> nat): nat
    decreases |threads|
  {
    if threads == map[] then 0 else
      var t :| t in threads;
      assert |(threads - {t}).Keys| == |threads.Keys| - 1;
      owes(threads[t]) + Owed(threads - {t}, owes)
  }

  lemma {:induction false} OwedWithout(threads: map<Tid, Thread>, owes: Thread -> nat, t: Tid)
    requires t in threads
    ensures Owed(threads, owes) == owes(threads[t]) + Owed(threads - {t}, owes)
    decreases |threads|
  {
    var u :| u in threads && Owed(threads, owes) == owes(threads[u]) + Owed(threads - {u}, owes);
    if u != t {
      assert |(threads - {u}).Keys| == |threads.Keys| - 1;
      assert |(threads - {t}).Keys| == |threads.Keys| - 1;
      OwedWithout(threads - {u}, owes, t);
      OwedWithout(threads - {t}, owes, u);
      assert threads - {u} - {t} == threads - {t} - {u};
    }
  }

  lemma OwedSet(threads: map<Tid, Thread>, owes: Thread -> nat, t: Tid, th: Thread)
    ensures Owed(threads[t := th], owes) == owes(th) + Owed(threads - {t}, owes)
  {
    OwedWithout(threads[t := th], owes, t);
    assert threads[t := th] - {t} == threads - {t};
  }

  ghost predicate CountersBalance(s: State) {
    s.table.packetsOut + Owed(s.threads, OwesPacketOut) == |s.table.toTarget| &&
    s.table.bytesOut + Owed(s.threads, OwesBytesOut) == TotalSize(s.table.toTarget) &&
    s.table.packetsIn + Owed(s.threads, OwesPacketIn) == |s.table.toClient| &&
    s.table.bytesIn + Owed(s.threads, OwesBytesIn) == TotalSize(s.table.toClient)
  }

  lemma SweepKeepsTraffic(tb: Table, order: seq<Key>, now: int)
    ensures var tb' := SweepKeys(tb, order, now);
            tb'.packetsOut == tb.packetsOut && tb'.bytesOut == tb.bytesOut && tb'.toTarget == tb.toTarget &&
            tb'.packetsIn == tb.packetsIn && tb'.bytesIn == tb.bytesIn && tb'.toClient == tb.toClient
    decreases |order|
  {
  }

  lemma TotalSizeSnoc(ds: seq<Datagram>, d: Datagram)
    ensures TotalSize(ds + [d]) == TotalSize(ds) + d.size
  {
    assert (ds + [d])[..|ds|] == ds;
  }

  // What the acting goroutine owes after the step; nothing once it has exited.
  function OwedByActor(s': State, e: Event, owes: Thread -> nat): nat
    requires !e.Sweep?
  {
    var u := if e.SpawnRelay? then e.relay else e.t;
    if u in s'.threads then owes(s'.threads[u]) else 0
  }

  lemma OwedStep(guard: bool, s: State, e: Event, owes: Thread -> nat)
    requires Enabled(s, e) && !e.Sweep? && !e.Arrive?
    ensures Owed(s.threads, owes) - owes(s.threads[e.t]) ==
            Owed(Apply(guard, s, e).threads, owes) - OwedByActor(Apply(guard, s, e), e, owes)
  {
    var s' := Apply(guard, s, e);
    OwedWithout(s.threads, owes, e.t);
    if e.SpawnRelay? {
      OwedSet(s.threads - {e.t}, owes, e.relay, s'.threads[e.relay]);
      assert s.threads - {e.t} - {e.relay} == s.threads - {e.t};
    } else if e.t in s'.threads {
      OwedSet(s.threads, owes, e.t, s'.threads[e.t]);
      assert s'.threads == s.threads[e.t := s'.threads[e.t]];
    }
  }

  lemma ArriveOwes(s: State, t: Tid, key: Key, size: nat, owes: Thread -> nat)
    requires t !in s.threads
    ensures Owed(s.threads[t := Handler(key, size, Lookup)], owes) ==
            Owed(s.threads, owes) + owes(Handler(key, size, Lookup))
  {
    OwedSet(s.threads, owes, t, Handler(key, size, Lookup));
    assert s.threads - {t} == s.threads;
  }

  lemma PacketsOutStep(guard: bool, s: State, e: Event)
    requires Enabled(s, e) && !e.Sweep? && !e.Arrive?
    ensures var tb, tb' := s.table, Apply(guard, s, e).table;
            tb'.packetsOut - tb.packetsOut ==
            |tb'.toTarget| - |tb.toTarget| + OwesPacketOut(s.threads[e.t]) -
            OwedByActor(Apply(guard, s, e), e, OwesPacketOut)
  {
  }

  // The bytes that an event hands to a target.
  function SizeOut(s: State, e: Event): nat
    requires Enabled(s, e)
  {
    if (e.WriteHit? || e.WriteFirst?) && e.ok then s.threads[e.t].size else 0
  }

  lemma TotalSizeOutStep(guard: bool, s: State, e: Event)
    requires Enabled(s, e) && !e.Sweep?
    ensures TotalSize(Apply(guard, s, e).table.toTarget) == TotalSize(s.table.toTarget) + SizeOut(s, e)
  {
    if (e.WriteHit? || e.WriteFirst?) && e.ok {
      var th := s.threads[e.t];
      TotalSizeSnoc(s.table.toTarget, Datagram(th.key, th.hpc.conn, th.size));
    } else {
      assert Apply(guard, s, e).table.toTarget == s.table.toTarget;
    }
  }

  lemma BytesOutStep(guard: bool, s: State, e: Event)
    requires Enabled(s, e) && !e.Sweep? && !e.Arrive?
    ensures Apply(guard, s, e).table.bytesOut - s.table.bytesOut ==
            SizeOut(s, e) + OwesBytesOut(s.threads[e.t]) - OwedByActor(Apply(guard, s, e), e, OwesBytesOut)
  {
  }

  lemma PacketsInStep(guard: bool, s: State, e: Event)
    requires Enabled(s, e) && !e.Sweep? && !e.Arrive?
    ensures var tb, tb' := s.table, Apply(guard, s, e).table;
            tb'.packetsIn - tb.packetsIn ==
            |tb'.toClient| - |tb.toClient| + OwesPacketIn(s.threads[e.t]) -
            OwedByActor(Apply(guard, s, e), e, OwesPacketIn)
  {
  }

  // The bytes that an event hands to a client.
  function SizeIn(s: State, e: Event): nat
    requires Enabled(s, e)
  {
    if e.RelayWrite? && e.ok then s.threads[e.t].rpc.size else 0
  }

  lemma TotalSizeInStep(guard: bool, s: State, e: Event)
    requires Enabled(s, e) && !e.Sweep?
    ensures TotalSize(Apply(guard, s, e).table.toClient) == TotalSize(s.table.toClient) + SizeIn(s, e)
  {
    if e.RelayWrite? && e.ok {
      var th := s.threads[e.t];
      TotalSizeSnoc(s.table.toClient, Datagram(th.key, th.conn, th.rpc.size));
    } else {
      assert Apply(guard, s, e).table.toClient == s.table.toClient;
    }
  }

  lemma BytesInStep(guard: bool, s: State, e: Event)
    requires Enabled(s, e) && !e.Sweep? && !e.Arrive?
    ensures Apply(guard, s, e).table.bytesIn - s.table.bytesIn ==
            SizeIn(s, e) + OwesBytesIn(s.threads[e.t]) - OwedByActor(Apply(guard, s, e), e, OwesBytesIn)
  {
  }

  lemma CountersStep(guard: bool, s: State, e: Event)
    requires CountersBalance(s) && Enabled(s, e)
    ensures CountersBalance(Apply(guard, s, e))
  {
    if e.Sweep? {
      SweepKeepsTraffic(s.table, e.order, e.now);
    } else if e.Arrive? {
      ArriveOwes(s, e.t, e.key, e.size, OwesPacketOut);
      ArriveOwes(s, e.t, e.key, e.size, OwesBytesOut);
      ArriveOwes(s, e.t, e.key, e.size, OwesPacketIn);
      ArriveOwes(s, e.t, e.key, e.size, OwesBytesIn);
    } else {
      OwedStep(guard, s, e, OwesPacketOut);
      OwedStep(guard, s, e, OwesBytesOut);
      OwedStep(guard, s, e, OwesPacketIn);
      OwedStep(guard, s, e, OwesBytesIn);
      PacketsOutStep(guard, s, e);
      BytesOutStep(guard, s, e);
      TotalSizeOutStep(guard, s, e);
      PacketsInStep(guard, s, e);
      BytesInStep(guard, s, e);
      TotalSizeInStep(guard, s, e);
    }
  }

  // On every run, each counter plus what goroutines still owe it equals what was sent.
  lemma {:induction false} CountersConserved(guard: bool, s: State, es: seq<Event>)
    requires CountersBalance(s) && IsRun(guard, s, es)
    ensures CountersBalance(Exec(guard, s, es))
    decreases |es|
  {
    if es != [] {
      CountersStep(guard, s, es[0]);
      CountersConserved(guard, Apply(guard, s, es[0]), es[1..]);
    }
  }
}
