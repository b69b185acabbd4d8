/** What the session registry guarantees over whole runs: exactly-once teardown, an exact gauge, and idle eviction. */
module HttpRuns {
  import opened HttpSessions

  lemma {:induction false} StepKeepsInv(r: Registry, e: Event)
    requires RegistryInv(r)
    ensures RegistryInv(Step(r, e))
  {
    match e
    case Create(id) => if id !in r.sessions { CreatedKeepsInv(r, id); }
    case Initialize(id, now) =>
      if id in r.sessions && !r.sessions[id].registered && !r.sessions[id].closing { InitializedKeepsInv(r, id, now); }
    case Request(id, now) => TouchedKeepsInv(r, id, now);
    case Close(id) => if id in r.sessions { ClosedKeepsInv(r, id); }
    case CleanupDone(id) => if id in r.sessions && r.sessions[id].ending { EndedKeepsInv(r, id); }
    case ReapTick(now, ttl) => ClosedAllEffect(r, IdleIds(r, r.transports, now, ttl));
    case Shutdown => StoppedKeepsInv(r);
  }

  lemma TouchedKeepsInv(r: Registry, id: string, now: int)
    requires RegistryInv(r)
    ensures RegistryInv(Touched(r, id, now))
  {
    assert Open(Touched(r, id, now)) == Open(r);
  }

  lemma HasElement(ids: seq<string>)
    requires ids != []
    ensures exists id :: id in ids
  {
    assert ids[0] in ids;
  }

  lemma StoppedKeepsInv(r: Registry)
    requires RegistryInv(r)
    ensures RegistryInv(Stopped(r))
    ensures ClosedAll(r, r.transports).transports == []
  {
    var v := ClosedAll(r, r.transports);
    ClosedAllEffect(r, r.transports);
    if v.transports != [] { HasElement(v.transports); }
  }

  ghost function Run(r: Registry, es: seq<Event>): Registry
    requires RegistryInv(r)
    decreases |es|
  {
    if es == [] then r
    else
      StepKeepsInv(r, es[0]);
      Run(Step(r, es[0]), es[1..])
  }

  const EMPTY := Registry([], map[], map[], 0)

  /** In every run: the two maps have the same keys, each `onclose` body and each `recordSessionEnd` ran at most once
      and exactly once for a closed and finished session, and the gauge counts the sessions not ended. */
  lemma {:induction false} RunKeepsInv(r: Registry, es: seq<Event>)
    requires RegistryInv(r)
    ensures RegistryInv(Run(r, es))
    decreases |es|
  {
    if es != [] {
      StepKeepsInv(r, es[0]);
      RunKeepsInv(Step(r, es[0]), es[1..]);
    }
  }

  lemma ExactlyOnceTeardown(es: seq<Event>, id: string)
    ensures RegistryInv(EMPTY)
    ensures var v := Run(EMPTY, es);
            && v.gauge == |Open(v)|
            && (id in v.sessions ==> v.sessions[id].bodyRuns <= 1 && v.sessions[id].ends <= 1)
            && (id in v.sessions && v.sessions[id].closing && !v.sessions[id].ending ==>
                  v.sessions[id].bodyRuns == 1 && v.sessions[id].ends == 1)
            && (forall x :: x in v.transports <==> x in v.lastSeen)
  {
    assert Open(EMPTY) == {};
    RunKeepsInv(EMPTY, es);
  }

  /** A reap returns and removes exactly the sessions idle for longer than the ttl, and leaves the others' times. */
  lemma ReapIsExact(r: Registry, now: int, ttl: int)
    requires RegistryInv(r)
    ensures var v := Reaped(r, now, ttl);
            && RegistryInv(v)
            && (forall x :: x in v.transports <==> x in r.transports && now - r.lastSeen[x] <= ttl)
            && (forall x :: x in v.transports ==> v.lastSeen[x] == r.lastSeen[x])
            && (forall x :: x in r.transports && now - r.lastSeen[x] > ttl ==>
                  v.sessions[x].closing && v.sessions[x].cleaned && v.sessions[x].bodyRuns == 1)
  {
    var idle := IdleIds(r, r.transports, now, ttl);
    ClosedAllEffect(r, idle);
    hide ClosedAll, IdleIds, Closed, Distinct;
    forall x | x in idle
      ensures x in Reaped(r, now, ttl).sessions
      ensures var s := Reaped(r, now, ttl).sessions[x]; s.closing && s.cleaned && s.bodyRuns == 1
    {
      FirstClose(r, x);
    }
  }

  lemma FirstClose(r: Registry, id: string)
    requires RegistryInv(r) && id in r.transports
    ensures var s := Closed(r, id).sessions[id]; s.closing && s.cleaned && s.bodyRuns == 1
  {
    assert SessionInv(r.sessions[id]);
  }

  // ---- Time ------------------------------------------------------------------------------------------------

  /** The event is not about session `id`, and is no shutdown. */
  predicate Foreign(e: Event, id: string) {
    match e
    case Create(x) => x != id
    case Initialize(x, _) => x != id
    case Request(x, _) => x != id
    case Close(x) => x != id
    case CleanupDone(x) => x != id
    case ReapTick(_, _) => true
    case Shutdown => false
  }

  /** Other sessions' events, with reaps of this ttl at moments from `since` to `until`. */
  ghost predicate QuietFor(es: seq<Event>, id: string, since: int, until: int, ttl: int) {
    forall i :: 0 <= i < |es| ==>
      Foreign(es[i], id) && (es[i].ReapTick? ==> es[i].ttl == ttl && since <= es[i].now <= until)
  }

  lemma ForeignStep(r: Registry, e: Event, id: string)
    requires RegistryInv(r) && id in r.transports && Foreign(e, id)
    requires e.ReapTick? ==> e.now - r.lastSeen[id] <= e.ttl
    ensures id in Step(r, e).transports && id in Step(r, e).lastSeen && Step(r, e).lastSeen[id] == r.lastSeen[id]
  {
    StepKeepsInv(r, e);
    if e.ReapTick? { ReapIsExact(r, e.now, e.ttl); }
  }

  lemma {:induction false} SurvivesQuiet(r: Registry, es: seq<Event>, id: string, until: int, ttl: int)
    requires RegistryInv(r) && id in r.transports
    requires QuietFor(es, id, r.lastSeen[id], until, ttl) && until - r.lastSeen[id] <= ttl
    ensures id in Run(r, es).transports && id in Run(r, es).lastSeen && Run(r, es).lastSeen[id] == r.lastSeen[id]
    decreases |es|
  {
    if es != [] {
      StepKeepsInv(r, es[0]);
      ForeignStep(r, es[0], id);
      SurvivesQuiet(Step(r, es[0]), es[1..], id, until, ttl);
    }
  }

  /** A session is alive from its handshake on, whatever the clock showed then: other sessions' events and reaps within
      the ttl leave it registered. */
  lemma NewSessionSurvives(r: Registry, id: string, now: int, es: seq<Event>, until: int, ttl: int)
    requires RegistryInv(r) && id in r.sessions && !r.sessions[id].registered && !r.sessions[id].closing
    requires QuietFor(es, id, now, until, ttl) && until - now <= ttl
    ensures var v := Step(r, Initialize(id, now));
            RegistryInv(v) && id in Run(v, es).transports && id in Run(v, es).lastSeen && Run(v, es).lastSeen[id] == now
  {
    StepKeepsInv(r, Initialize(id, now));
    SurvivesQuiet(Step(r, Initialize(id, now)), es, id, until, ttl);
  }

  /** A request counts from the moment it is made, even if a reap comes only a ttl later. */
  lemma TouchedSessionLives(r: Registry, id: string, now: int, es: seq<Event>, until: int, ttl: int)
    requires RegistryInv(r) && id in r.transports && QuietFor(es, id, now, until, ttl) && until - now <= ttl
    ensures var v := Step(r, Request(id, now));
            RegistryInv(v) && id in Run(v, es).transports && id in Run(v, es).lastSeen && Run(v, es).lastSeen[id] == now
  {
    StepKeepsInv(r, Request(id, now));
    SurvivesQuiet(Step(r, Request(id, now)), es, id, until, ttl);
  }

  /** A stretch of other events followed by a request of the session. */
  datatype Stretch = Stretch(quiet: seq<Event>, touchAt: int)

  function Flatten(stretches: seq<Stretch>, id: string): seq<Event> {
    if stretches == [] then []
    else stretches[0].quiet + [Request(id, stretches[0].touchAt)] + Flatten(stretches[1..], id)
  }

  ghost predicate TouchedOften(stretches: seq<Stretch>, id: string, since: int, ttl: int)
    decreases |stretches|
  {
    stretches != [] ==>
      && QuietFor(stretches[0].quiet, id, since, stretches[0].touchAt, ttl)
      && since <= stretches[0].touchAt <= since + ttl
      && TouchedOften(stretches[1..], id, stretches[0].touchAt, ttl)
  }

  lemma {:induction false} RunConcat(r: Registry, a: seq<Event>, b: seq<Event>)
    requires RegistryInv(r)
    ensures RegistryInv(Run(r, a)) && Run(r, a + b) == Run(Run(r, a), b)
    decreases |a|
  {
    RunKeepsInv(r, a);
    if a == [] {
      assert a + b == b;
    } else {
      StepKeepsInv(r, a[0]);
      assert (a + b)[1..] == a[1..] + b;
      RunConcat(Step(r, a[0]), a[1..], b);
    }
  }

  /** A session touched at gaps of at most the ttl is never reaped, whatever the other sessions do. */
  lemma {:induction false} TouchedSessionSurvives(r: Registry, stretches: seq<Stretch>, id: string, ttl: int)
    requires RegistryInv(r) && id in r.transports && TouchedOften(stretches, id, r.lastSeen[id], ttl)
    ensures id in Run(r, Flatten(stretches, id)).transports
    decreases |stretches|
  {
    if stretches != [] {
      var quiet, touch := stretches[0].quiet, [Request(id, stretches[0].touchAt)];
      RunConcat(r, quiet, touch + Flatten(stretches[1..], id));
      assert quiet + (touch + Flatten(stretches[1..], id)) == Flatten(stretches, id);
      SurvivesQuiet(r, quiet, id, stretches[0].touchAt, ttl);
      var r1 := Run(r, quiet);
      RunConcat(r1, touch, Flatten(stretches[1..], id));
      assert touch[1..] == [] && Run(r1, touch) == Touched(r1, id, stretches[0].touchAt);
      TouchedSessionSurvives(Run(r1, touch), stretches[1..], id, ttl);
    }
  }

  /** A session gone from the registry stays gone: its id is never handed out again. */
  lemma {:induction false} GoneStaysGone(r: Registry, es: seq<Event>, id: string)
    requires RegistryInv(r) && id in r.sessions && r.sessions[id].closing
    ensures RegistryInv(Run(r, es)) && id !in Run(r, es).transports
    decreases |es|
  {
    RunKeepsInv(r, es);
    if es != [] {
      StepKeepsInv(r, es[0]);
      ClosingStays(r, es[0], id);
      GoneStaysGone(Step(r, es[0]), es[1..], id);
    }
  }

  lemma ClosingStays(r: Registry, e: Event, id: string)
    requires RegistryInv(r) && id in r.sessions && r.sessions[id].closing
    ensures id in Step(r, e).sessions && Step(r, e).sessions[id].closing
  {
    if e.ReapTick? { ClosedAllEffect(r, IdleIds(r, r.transports, e.now, e.ttl)); }
    if e.Shutdown? { ClosedAllEffect(r, r.transports); }
  }

  /** From `since` to `until` the reaper ticks at least once in every span of one interval. */
  ghost predicate TicksEvery(es: seq<Event>, interval: int, ttl: int, since: int, until: int) {
    forall start, end :: since <= start && end == start + interval && end <= until ==> TickIn(es, start, end, ttl)
  }

  ghost predicate TickIn(es: seq<Event>, after: int, until: int, ttl: int) {
    exists i :: 0 <= i < |es| && es[i].ReapTick? && es[i].ttl == ttl && after < es[i].now <= until
  }

  /** One step seen from a session that is not touched: it is gone for good, or as it was. */
  lemma UntouchedStep(r: Registry, e: Event, id: string)
    requires RegistryInv(r) && id in r.transports && Foreign(e, id)
    ensures var v := Step(r, e);
            && RegistryInv(v)
            && (id !in v.transports ==> e.ReapTick? && id in v.sessions && v.sessions[id].closing)
            && (id in v.transports ==> id in v.lastSeen && v.lastSeen[id] == r.lastSeen[id])
            && (e.ReapTick? && e.now - r.lastSeen[id] > e.ttl ==> id !in v.transports)
  {
    StepKeepsInv(r, e);
    if e.ReapTick? {
      ReapIsExact(r, e.now, e.ttl);
    }
  }

  lemma {:induction false} IdleReaped(r: Registry, es: seq<Event>, id: string, i: nat)
    requires RegistryInv(r) && id in r.transports && i < |es|
    requires forall j :: 0 <= j <= i ==> Foreign(es[j], id)
    requires es[i].ReapTick? && es[i].now - r.lastSeen[id] > es[i].ttl
    ensures id !in Run(r, es).transports
    decreases |es|
  {
    var v := Step(r, es[0]);
    UntouchedStep(r, es[0], id);
    hide Step, Foreign, RegistryInv;
    if id !in v.transports {
      GoneStaysGone(v, es[1..], id);
    } else {
      assert i != 0;
      IdleReaped(v, es[1..], id, i - 1);
    }
  }

  /** A session with no request is gone within the ttl plus one reap interval of its last one. */
  lemma IdleSessionGone(r: Registry, es: seq<Event>, id: string, ttl: int, interval: int)
    requires RegistryInv(r) && id in r.transports && ttl >= 0 && interval > 0
    requires forall j :: 0 <= j < |es| ==> Foreign(es[j], id)
    requires TicksEvery(es, interval, ttl, r.lastSeen[id], r.lastSeen[id] + ttl + interval)
    ensures id !in Run(r, es).transports
  {
    var limit := r.lastSeen[id] + ttl;
    assert TickIn(es, limit, limit + interval, ttl);
    var i :| 0 <= i < |es| && es[i].ReapTick? && es[i].ttl == ttl && limit < es[i].now <= limit + interval;
    IdleReaped(r, es, id, i);
  }

  /** The reaper's timer: a tick at the end of each of `n` intervals after `since`. */
  function TimerTicks(since: int, interval: int, ttl: int, n: nat): (es: seq<Event>)
    ensures |es| == n && forall i :: 0 <= i < n ==> es[i] == ReapTick(since + (i + 1) * interval, ttl)
  {
    seq(n, i requires 0 <= i < n => ReapTick(since + (i + 1) * interval, ttl))
  }

  /** An interval timer ticks in every span of its interval. */
  lemma TimerTicksEvery(since: int, interval: int, ttl: int, n: nat)
    requires interval > 0
    ensures TicksEvery(TimerTicks(since, interval, ttl, n), interval, ttl, since, since + n * interval)
  {
    var es := TimerTicks(since, interval, ttl, n);
    forall start, end | since <= start && end == start + interval && end <= since + n * interval
      ensures TickIn(es, start, end, ttl)
    {
      var i := (start - since) / interval;
      TickOfSpan(start - since, interval, n);
      assert es[i] == ReapTick(since + (i + 1) * interval, ttl);
    }
  }

  lemma TickOfSpan(offset: int, interval: int, n: nat)
    requires interval > 0 && offset >= 0 && offset + interval <= n * interval
    ensures var i := offset / interval; 0 <= i < n && offset < (i + 1) * interval <= offset + interval
  {
    var i := offset / interval;
    assert offset == i * interval + offset % interval;
    assert i >= n ==> i * interval >= n * interval;
  }

  /** So the interval timer alone clears every registered session that stays silent: from its last request on, as many
      ticks as cover the ttl and one interval. */
  lemma SilentSessionCleared(r: Registry, id: string, ttl: int, interval: int, n: nat)
    requires RegistryInv(r) && id in r.transports && ttl >= 0 && interval > 0 && n * interval >= ttl + interval
    ensures id !in Run(r, TimerTicks(r.lastSeen[id], interval, ttl, n)).transports
  {
    var since := r.lastSeen[id];
    var es := TimerTicks(since, interval, ttl, n);
    TimerTicksEvery(since, interval, ttl, n);
    assert TicksEvery(es, interval, ttl, since, since + ttl + interval);
    IdleSessionGone(r, es, id, ttl, interval);
  }

  /** The defaults of the program, on a session that was created and initialized at any moment: no tick up to ten minutes
      later takes it, and eleven ticks clear it. */
  lemma DefaultReaperClears(id: string, start: int)
    ensures var r := Step(Step(EMPTY, Create(id)), Initialize(id, start));
            && RegistryInv(r) && id in r.transports
            && id in Run(r, TimerTicks(start, 60_000, 600_000, 10)).transports
            && id !in Run(r, TimerTicks(start, 60_000, 600_000, 11)).transports
  {
    assert Open(EMPTY) == {};
    StepKeepsInv(EMPTY, Create(id));
    var r1 := Step(EMPTY, Create(id));
    NewSessionSurvives(r1, id, start, TimerTicks(start, 60_000, 600_000, 10), start + 600_000, 600_000);
    var r2 := Step(r1, Initialize(id, start));
    assert r2.lastSeen[id] == start;
    SilentSessionCleared(r2, id, 600_000, 60_000, 11);
  }

  // ---- Shutdown --------------------------------------------------------------------------------------------

  /** Sessions whose handshake never registered a transport. */
  function NeverRegistered(r: Registry): set<string> {
    set id | id in r.sessions && !r.sessions[id].registered && !r.sessions[id].closing
  }

  ghost predicate OnlyCleanups(es: seq<Event>) {
    forall i :: 0 <= i < |es| ==> es[i].CleanupDone?
  }

  lemma {:induction false} CleanupsKeepNeverRegistered(r: Registry, es: seq<Event>)
    requires RegistryInv(r) && OnlyCleanups(es)
    ensures RegistryInv(Run(r, es)) && NeverRegistered(Run(r, es)) == NeverRegistered(r)
    ensures Run(r, es).sessions.Keys == r.sessions.Keys && Run(r, es).transports == r.transports
    decreases |es|
  {
    RunKeepsInv(r, es);
    if es != [] {
      StepKeepsInv(r, es[0]);
      assert NeverRegistered(Step(r, es[0])) == NeverRegistered(r);
      CleanupsKeepNeverRegistered(Step(r, es[0]), es[1..]);
    }
  }

  /** The exact reach of a shutdown: once every cleanup it started is over, the gauge equals the number of sessions
      that were started but never registered, because only registered transports are closed. */
  lemma ShutdownLeavesNeverRegistered(r: Registry, es: seq<Event>)
    requires RegistryInv(r) && OnlyCleanups(es)
    requires RegistryInv(Stopped(r)) ==> forall id :: id in Run(Stopped(r), es).sessions ==> !Run(Stopped(r), es).sessions[id].ending
    ensures RegistryInv(Stopped(r)) && Run(Stopped(r), es).transports == []
    ensures Run(Stopped(r), es).gauge == |NeverRegistered(r)|
  {
    StoppedKeepsInv(r);
    ClosedAllEffect(r, r.transports);
    var v := Stopped(r);
    assert NeverRegistered(v) == NeverRegistered(r);
    CleanupsKeepNeverRegistered(v, es);
    assert Open(Run(v, es)) == NeverRegistered(v);
  }
}
