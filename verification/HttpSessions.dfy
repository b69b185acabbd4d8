/** The HTTP session registry: `transports`, `lastSeen`, the re-entrant close cascade and the session gauge.

    The SDK is taken as: closing a server closes its transport, and closing a transport fires the transport's
    `onclose` handler and then the server's, however often it was closed before. */
module HttpSessions {

  /** One session's server and transport. `bodyRuns` and `ends` count how often the guarded `onclose` body and
      `recordSessionEnd` ran; `ending` says that an awaited cleanup has still to record the end. */
  datatype Session = Session(registered: bool, closing: bool, cleaned: bool, ending: bool, bodyRuns: nat, ends: nat)

  /** `transports` holds the session ids in insertion order. */
  datatype Registry = Registry(
    transports: seq<string>,
    lastSeen: map<string, int>,
    sessions: map<string, Session>,
    gauge: int)

  function Without(ids: seq<string>, id: string): (rest: seq<string>)
    ensures forall x :: x in rest <==> x in ids && x != id
    ensures Distinct(ids) ==> Distinct(rest)
  {
    if ids == [] then []
    else
      var tail := Without(ids[1..], id);
      assert Distinct(ids) ==> Distinct(ids[1..]) && ids[0] !in ids[1..];
      if ids[0] == id then tail else [ids[0]] + tail
  }

  predicate Distinct(ids: seq<string>) {
    forall i, j :: 0 <= i < j < |ids| ==> ids[i] != ids[j]
  }

  // ---- Steps -----------------------------------------------------------------------------------------------

  function Created(r: Registry, id: string): Registry {
    r.(sessions := r.sessions[id := Session(false, false, false, false, 0, 0)], gauge := r.gauge + 1)
  }

  function Initialized(r: Registry, id: string, now: int): Registry
    requires id in r.sessions
  {
    r.(transports := if id in r.transports then r.transports else r.transports + [id],
       lastSeen := r.lastSeen[id := now],
       sessions := r.sessions[id := r.sessions[id].(registered := true)])
  }

  function Touched(r: Registry, id: string, now: int): Registry {
    if id in r.transports then r.(lastSeen := r.lastSeen[id := now]) else r
  }

  /** What one close, with everything it re-enters, leaves: the session is closing and its cleanup has begun. */
  function Closed(r: Registry, id: string): Registry
    requires id in r.sessions
  {
    var s := r.sessions[id];
    var first := !s.closing;
    r.(transports := if first && s.registered then Without(r.transports, id) else r.transports,
       lastSeen := if first && s.registered then r.lastSeen - {id} else r.lastSeen,
       sessions := r.sessions[id := s.(closing := true, bodyRuns := if first then s.bodyRuns + 1 else s.bodyRuns,
                                       cleaned := true, ending := s.ending || !s.cleaned)])
  }

  function Ended(r: Registry, id: string): Registry
    requires id in r.sessions
  {
    r.(gauge := r.gauge - 1, sessions := r.sessions[id := r.sessions[id].(ending := false, ends := r.sessions[id].ends + 1)])
  }

  predicate Idle(r: Registry, id: string, now: int, ttl: int) {
    now - (if id in r.lastSeen then r.lastSeen[id] else 0) > ttl
  }

  function IdleIds(r: Registry, ids: seq<string>, now: int, ttl: int): (evicted: seq<string>)
    ensures forall x :: x in evicted <==> x in ids && Idle(r, x, now, ttl)
    ensures Distinct(ids) ==> Distinct(evicted)
  {
    if ids == [] then []
    else
      var rest := IdleIds(r, ids[..|ids| - 1], now, ttl);
      var last := ids[|ids| - 1];
      assert forall x :: x in ids <==> x in ids[..|ids| - 1] || x == last;
      if Idle(r, last, now, ttl) then rest + [last] else rest
  }

  /** The idle ids come in the order of insertion. */
  lemma {:induction false} IdleInOrder(r: Registry, a: seq<string>, b: seq<string>, now: int, ttl: int)
    ensures IdleIds(r, a + b, now, ttl) == IdleIds(r, a, now, ttl) + IdleIds(r, b, now, ttl)
  {
    hide Idle;
    if b == [] {
      assert a + b == a;
    } else {
      assert (a + b)[..|a + b| - 1] == a + b[..|b| - 1];
      IdleInOrder(r, a, b[..|b| - 1], now, ttl);
    }
  }

  function ClosedAll(r: Registry, ids: seq<string>): (v: Registry)
    requires forall x :: x in ids ==> x in r.sessions
    ensures v.sessions.Keys == r.sessions.Keys
  {
    if ids == [] then r
    else
      var last := ids[|ids| - 1];
      var v := ClosedAll(r, ids[..|ids| - 1]);
      Closed(v, last)
  }

  /** A reap closes the idle transports it collected first. */
  function Reaped(r: Registry, now: int, ttl: int): Registry
    requires forall x :: x in r.transports ==> x in r.sessions
  {
    ClosedAll(r, IdleIds(r, r.transports, now, ttl))
  }

  // ---- The registry of the program -------------------------------------------------------------------------

  class McpHttpServer {
    var transports: seq<string>
    var lastSeen: map<string, int>
    var sessions: map<string, Session>
    var gauge: int

    function View(): Registry
      reads this
    {
      Registry(transports, lastSeen, sessions, gauge)
    }

    /** `createHttpSessionServer`: the gauge goes up before the handshake. */
    method CreateSession(id: string)
      requires id !in sessions
      modifies this
      ensures View() == Created(old(View()), id)
    {
      gauge := gauge + 1;
      sessions := sessions[id := Session(false, false, false, false, 0, 0)];
    }

    method OnSessionInitialized(id: string, now: int)
      requires id in sessions
      modifies this
      ensures View() == Initialized(old(View()), id, now)
      ensures id in transports && id in lastSeen && lastSeen[id] == now
      ensures forall x :: x != id ==> (x in lastSeen <==> x in old(lastSeen))
      ensures forall x :: x != id && x in lastSeen ==> lastSeen[x] == old(lastSeen)[x]
    {
      sessions := sessions[id := sessions[id].(registered := true)];
      if id !in transports {
        transports := transports + [id];
      }
      lastSeen := lastSeen[id := now];
    }

    method HandleRequest(id: string, now: int)
      modifies this
      ensures View() == Touched(old(View()), id, now)
      ensures id in transports ==> id in lastSeen && lastSeen[id] == now
      ensures transports == old(transports) && forall x :: x != id && x in lastSeen ==> x in old(lastSeen) && lastSeen[x] == old(lastSeen)[x]
    {
      if id in transports {
        lastSeen := lastSeen[id := now];
      }
    }

    /** `transport.close()`. The cascade below it terminates because `closing` is set before it re-enters. */
    method CloseTransport(id: string)
      requires id in sessions
      modifies this
      ensures View() == Closed(old(View()), id)
      decreases if sessions[id].closing then 0 else 1, 2
    {
      OnTransportClose(id);
      OnServerClose(id);
    }

    /** The registry after the transport's handler: the body ran if it had not, and then closed the server. */
    method OnTransportClose(id: string)
      requires id in sessions
      modifies this
      ensures old(sessions[id].closing) ==> View() == old(View())
      ensures !old(sessions[id].closing) ==> View() == Closed(old(View()), id)
      decreases if sessions[id].closing then 0 else 1, 1
    {
      if sessions[id].closing { return; }
      sessions := sessions[id := sessions[id].(closing := true, bodyRuns := sessions[id].bodyRuns + 1)];
      if sessions[id].registered {
        transports := Without(transports, id);
        lastSeen := lastSeen - {id};
      }
      CloseServer(id);
    }

    /** `mcpServer.close()` closes the transport, which fires the handler above again. */
    method CloseServer(id: string)
      requires id in sessions
      modifies this
      ensures View() == Closed(old(View()), id)
      decreases if sessions[id].closing then 0 else 1, 3
    {
      CloseTransport(id);
    }

    /** `server.onclose` runs `cleanupSession`, whose `cleaned` guard lets only the first call through. */
    method OnServerClose(id: string)
      requires id in sessions
      modifies this
      ensures View() == old(View()).(sessions := old(sessions)[id := old(sessions)[id].(
                          cleaned := true, ending := old(sessions)[id].ending || !old(sessions)[id].cleaned)])
    {
      if sessions[id].cleaned {
        assert sessions[id := sessions[id].(cleaned := true, ending := sessions[id].ending)] == sessions;
        return;
      }
      sessions := sessions[id := sessions[id].(cleaned := true, ending := true)];
    }

    /** The awaited cleanup is over; its `finally` records the end of the session. */
    method RecordSessionEnd(id: string)
      requires id in sessions
      modifies this
      ensures View() == Ended(old(View()), id)
    {
      gauge := gauge - 1;
      sessions := sessions[id := sessions[id].(ending := false, ends := sessions[id].ends + 1)];
    }

    method CloseAll(ids: seq<string>)
      requires forall x :: x in ids ==> x in sessions
      modifies this
      ensures View() == ClosedAll(old(View()), ids)
    {
      for i := 0 to |ids|
        invariant sessions.Keys == old(sessions.Keys)
        invariant View() == ClosedAll(old(View()), ids[..i])
      {
        assert ids[..i + 1][..i] == ids[..i];
        CloseTransport(ids[i]);
      }
      assert ids[..|ids|] == ids;
    }

    /** Collects first and closes afterwards, so the map is never changed while it is iterated. */
    method ReapIdleSessions(now: int, ttl: int) returns (evicted: seq<string>)
      requires forall x :: x in transports ==> x in sessions
      modifies this
      ensures evicted == IdleIds(old(View()), old(transports), now, ttl)
      ensures View() == Reaped(old(View()), now, ttl)
    {
      evicted := [];
      for i := 0 to |transports|
        invariant View() == old(View())
        invariant evicted == IdleIds(View(), transports[..i], now, ttl)
      {
        assert transports[..i + 1][..i] == transports[..i];
        var id := transports[i];
        if now - (if id in lastSeen then lastSeen[id] else 0) > ttl {
          evicted := evicted + [id];
        }
      }
      assert transports[..|transports|] == transports;
      CloseAll(evicted);
    }

    /** `stopMcpHttpServer`, after the listener is closed: every transport closes, then the map is cleared. */
    method Stop()
      requires forall x :: x in transports ==> x in sessions
      modifies this
      ensures View() == Stopped(old(View()))
    {
      CloseAll(transports);
      transports := [];
    }
  }

  function Stopped(r: Registry): Registry
    requires forall x :: x in r.transports ==> x in r.sessions
  {
    ClosedAll(r, r.transports).(transports := [])
  }

  // ---- Invariant over every run ----------------------------------------------------------------------------

  /** Each guarded body runs exactly once per closed session, and each end is recorded once per finished cleanup. */
  ghost predicate SessionInv(s: Session) {
    && s.bodyRuns == (if s.closing then 1 else 0)
    && s.ends == (if s.cleaned && !s.ending then 1 else 0)
    && (s.cleaned <==> s.closing)
    && (s.ending ==> s.cleaned)
  }

  /** Sessions whose end is not recorded. */
  function Open(r: Registry): set<string> {
    set id | id in r.sessions && r.sessions[id].ends == 0
  }

  ghost predicate RegistryInv(r: Registry) {
    && Distinct(r.transports)
    && (forall id :: id in r.transports <==> id in r.lastSeen)
    && (forall id :: id in r.transports <==> id in r.sessions && r.sessions[id].registered && !r.sessions[id].closing)
    && (forall id :: id in r.sessions ==> SessionInv(r.sessions[id]))
    && r.gauge == |Open(r)|
  }

  datatype Event =
    | Create(id: string)
    | Initialize(id: string, now: int)
    | Request(id: string, now: int)
    | Close(id: string)
    | CleanupDone(id: string)
    | ReapTick(now: int, ttl: int)
    | Shutdown

  /** An event that cannot happen changes nothing: ids are fresh, `initialize` happens once, cleanup ends once. */
  function Step(r: Registry, e: Event): Registry
    requires forall x :: x in r.transports ==> x in r.sessions
  {
    match e
    case Create(id) => if id in r.sessions then r else Created(r, id)
    case Initialize(id, now) =>
      if id in r.sessions && !r.sessions[id].registered && !r.sessions[id].closing then Initialized(r, id, now) else r
    case Request(id, now) => Touched(r, id, now)
    case Close(id) => if id in r.sessions then Closed(r, id) else r
    case CleanupDone(id) => if id in r.sessions && r.sessions[id].ending then Ended(r, id) else r
    case ReapTick(now, ttl) => Reaped(r, now, ttl)
    case Shutdown => Stopped(r)
  }

  lemma CreatedKeepsInv(r: Registry, id: string)
    requires RegistryInv(r) && id !in r.sessions
    ensures RegistryInv(Created(r, id))
  {
    assert Open(Created(r, id)) == Open(r) + {id};
  }

  lemma InitializedKeepsInv(r: Registry, id: string, now: int)
    requires RegistryInv(r) && id in r.sessions && !r.sessions[id].registered && !r.sessions[id].closing
    ensures RegistryInv(Initialized(r, id, now))
  {
    assert Open(Initialized(r, id, now)) == Open(r);
  }

  lemma ClosedKeepsInv(r: Registry, id: string)
    requires RegistryInv(r) && id in r.sessions
    ensures RegistryInv(Closed(r, id))
  {
    assert Open(Closed(r, id)) == Open(r);
  }

  lemma EndedKeepsInv(r: Registry, id: string)
    requires RegistryInv(r) && id in r.sessions && r.sessions[id].ending
    ensures RegistryInv(Ended(r, id))
  {
    assert Open(Ended(r, id)) == Open(r) - {id};
  }

  /** One more close after several. */
  lemma ClosedOneMore(r: Registry, v: Registry, before: seq<string>, id: string)
    requires RegistryInv(v) && id in r.sessions && v.sessions.Keys == r.sessions.Keys
    requires forall x :: x in before ==> x in r.sessions
    requires forall x :: x in r.sessions ==>
               v.sessions[x] == if x in before then Closed(r, x).sessions[x] else r.sessions[x]
    ensures forall x :: x in r.sessions ==>
              Closed(v, id).sessions[x] == if x in before || x == id then Closed(r, x).sessions[x] else r.sessions[x]
  {
    hide Without;
    assert SessionInv(v.sessions[id]);
  }

  /** Closing several registered sessions removes exactly those, although every close changes the maps. */
  lemma {:induction false} ClosedAllEffect(r: Registry, ids: seq<string>)
    requires RegistryInv(r) && forall x :: x in ids ==> x in r.sessions
    ensures var v := ClosedAll(r, ids);
            && RegistryInv(v)
            && (forall x :: x in v.transports <==> x in r.transports && x !in ids)
            && (forall x :: x in v.lastSeen ==> x in r.lastSeen && v.lastSeen[x] == r.lastSeen[x])
            && (forall x :: x in r.sessions ==>
                  v.sessions[x] == if x in ids then Closed(r, x).sessions[x] else r.sessions[x])
            && v.gauge == r.gauge
  {
    hide RegistryInv, Closed, ClosedAll;
    if ids == [] {
      NoneClosed(r);
    } else {
      var n := |ids| - 1;
      var before := ids[..n];
      ClosedAllEffect(r, before);
      var v := ClosedAll(r, before);
      assert ids == before + [ids[n]];
      assert forall x :: x in ids <==> x in before || x == ids[n];
      LastClosed(r, ids);
      ClosedKeepsInv(v, ids[n]);
      ClosedOneMore(r, v, before, ids[n]);
      ClosedOne(v, ids[n]);
    }
  }

  lemma NoneClosed(r: Registry)
    ensures ClosedAll(r, []) == r
  {
  }

  lemma LastClosed(r: Registry, ids: seq<string>)
    requires ids != [] && forall x :: x in ids ==> x in r.sessions
    ensures ClosedAll(r, ids) == Closed(ClosedAll(r, ids[..|ids| - 1]), ids[|ids| - 1])
  {
    hide Closed;
  }

  lemma ClosedOne(r: Registry, id: string)
    requires RegistryInv(r) && id in r.sessions
    ensures var v := Closed(r, id);
            && (forall x :: x in v.transports <==> x in r.transports && x != id)
            && (forall x :: x in v.lastSeen ==> x in r.lastSeen && v.lastSeen[x] == r.lastSeen[x])
            && v.gauge == r.gauge
  {
  }
}
