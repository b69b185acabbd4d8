/** The budget of timed survival is exact: without it there is a timely run in which a live session's row is reaped. */
module SessionExpiry {
  import opened Wrappers
  import opened SessionClient
  import opened SessionProtocol
  import opened SessionLiveness
  import opened SessionSurvival
  import opened HeartbeatTiming
  import opened SessionTiming
  import opened SessionDeadline

  // ---- The states of the slowest run -----------------------------------------------------------------------------------

  /** A session with project `p` and a self repository; nothing but its heartbeat is going on. */
  function SlowClient(armed: bool, beats: map<int, BeatFrame>, next: int, outbox: seq<Call>, connected: bool): Client {
    Client(Some("p"), Some("/p"), false, None, None, None, true, connected, false, armed, Idle, beats, next, NotStarted,
           outbox)
  }

  /** Its row was last beaten at 0. */
  function SlowWorld(c: Client, replies: map<Owner, Reply>, now: int, started: bool): World {
    World(c, replies, map["p" := 0], now, started, {}, map[])
  }

  /** Between ticks: the timer is armed. */
  function Resting(now: int, due: int, id: int, nextMs: int, start: int, served: map<Owner, int>, f: nat, up: bool): Timed {
    Timed(SlowWorld(SlowClient(true, map[], id, [], up), map[], now, true), due, start, nextMs, served, f, 0)
  }

  /** A tick in flight, its beat in the queue, or served and answered with `replies`. */
  function InTick(now: int, due: int, id: int, outbox: seq<Call>, replies: map<Owner, Reply>, start: int,
                  served: map<Owner, int>, f: nat, up: bool): Timed {
    var beats := map[id := BeatFrame(true, Beating("p"))];
    Timed(SlowWorld(SlowClient(false, beats, id + 1, outbox, up), replies, now, true), due, start, HEARTBEAT_INTERVAL_MS,
          served, f, 0)
  }

  function BeatCall(id: int): Call {
    Call(OfBeat(id), Beat("p"))
  }

  const ANY_OUTCOME := RegisterOutcome(true, true, false, None)

  // ---- One failing tick ----------------------------------------------------------------------------------------------------

  lemma Fires(due: int, id: int, nextMs: int, start: int, served: map<Owner, int>, f: nat, up: bool, k: nat,
              latency: nat, windowMs: int)
    requires f <= k
    ensures var t := Resting(due, due, id, nextMs, start, served, f, up);
            && TimedStep(t, TimerFires, windowMs) == InTick(due, due, id, [BeatCall(id)], map[], due, served, f, up)
            && Timely(t, TimerFires, "p", latency, k, windowMs)
  {
    assert [] + [BeatCall(id)] == [BeatCall(id)];
    assert map[][id := BeatFrame(true, Beating("p"))] == map[id := BeatFrame(true, Beating("p"))];
  }

  lemma TickWaits(due: int, id: int, served: map<Owner, int>, f: nat, up: bool, k: nat, latency: nat, windowMs: int)
    requires f <= k
    ensures var t := InTick(due, due, id, [BeatCall(id)], map[], due, served, f, up);
            && TimedStep(t, Wait(latency), windowMs)
               == InTick(due + latency, due, id, [BeatCall(id)], map[], due, served, f, up)
            && Timely(t, Wait(latency), "p", latency, k, windowMs)
  {
  }

  lemma BeatLost(now: int, due: int, id: int, served: map<Owner, int>, f: nat, up: bool, k: nat, latency: nat,
                 windowMs: int)
    requires f <= k
    ensures var t, e := InTick(now, due, id, [BeatCall(id)], map[], due, served, f, up), Serve(CallLost, ANY_OUTCOME);
            && TimedStep(t, e, windowMs)
               == InTick(now, due, id, [], map[OfBeat(id) := Failed], due, served[OfBeat(id) := now], f, up)
            && Timely(t, e, "p", latency, k, windowMs)
  {
    assert [BeatCall(id)][1..] == [];
    assert map[][OfBeat(id) := Failed] == map[OfBeat(id) := Failed];
  }

  lemma TickFails(now: int, due: int, id: int, served: map<Owner, int>, f: nat, up: bool, k: nat, latency: nat,
                  windowMs: int)
    requires f < k
    ensures var t := InTick(now, due, id, [], map[OfBeat(id) := Failed], due, served, f, up);
            && TimedStep(t, BeatResumes(id), windowMs)
               == Resting(now, now + HEARTBEAT_INTERVAL_MS, id + 1, HEARTBEAT_INTERVAL_MS, due, served, f + 1, false)
            && Timely(t, BeatResumes(id), "p", latency, k, windowMs)
  {
    assert map[id := BeatFrame(true, Beating("p"))] - {id} == map[];
    assert map[OfBeat(id) := Failed] - {OfBeat(id)} == map[];
  }

  lemma RestWaits(now: int, ms: nat, id: int, nextMs: int, start: int, served: map<Owner, int>, f: nat, up: bool,
                  k: nat, latency: nat, windowMs: int)
    requires f <= k
    ensures var t := Resting(now, now + ms, id, nextMs, start, served, f, up);
            && TimedStep(t, Wait(ms), windowMs) == Resting(now + ms, now + ms, id, nextMs, start, served, f, up)
            && Timely(t, Wait(ms), "p", latency, k, windowMs)
  {
  }

  function FailingTick(id: int, latency: nat): seq<Event> {
    [TimerFires, Wait(latency), Serve(CallLost, ANY_OUTCOME), BeatResumes(id), Wait(HEARTBEAT_INTERVAL_MS)]
  }

  lemma FailingTickRuns(due: int, id: int, nextMs: int, start: int, served: map<Owner, int>, f: nat, up: bool, k: nat,
                        latency: nat, windowMs: int)
    requires f < k
    ensures var t, es := Resting(due, due, id, nextMs, start, served, f, up), FailingTick(id, latency);
            var next := due + latency + HEARTBEAT_INTERVAL_MS;
            && TimedRun(t, es, windowMs)
               == Resting(next, next, id + 1, HEARTBEAT_INTERVAL_MS, due, served[OfBeat(id) := due + latency], f + 1, false)
            && AllTimely(t, es, "p", latency, k, windowMs)
  {
    hide TimedStep, Timely, Resting, InTick;
    var es, now := FailingTick(id, latency), due + latency;
    Fires(due, id, nextMs, start, served, f, up, k, latency, windowMs);
    TickWaits(due, id, served, f, up, k, latency, windowMs);
    BeatLost(now, due, id, served, f, up, k, latency, windowMs);
    TickFails(now, due, id, served[OfBeat(id) := now], f, up, k, latency, windowMs);
    RestWaits(now, HEARTBEAT_INTERVAL_MS, id + 1, HEARTBEAT_INTERVAL_MS, due, served[OfBeat(id) := now], f + 1, false,
              k, latency, windowMs);
    FiveSteps(Resting(due, due, id, nextMs, start, served, f, up), es, "p", latency, k, windowMs);
  }

  lemma FiveSteps(t: Timed, es: seq<Event>, p: string, latency: nat, k: nat, windowMs: int)
    requires |es| == 5
    requires var t1 := TimedStep(t, es[0], windowMs);
             var t2 := TimedStep(t1, es[1], windowMs);
             var t3 := TimedStep(t2, es[2], windowMs);
             var t4 := TimedStep(t3, es[3], windowMs);
             && Timely(t, es[0], p, latency, k, windowMs) && Timely(t1, es[1], p, latency, k, windowMs)
             && Timely(t2, es[2], p, latency, k, windowMs) && Timely(t3, es[3], p, latency, k, windowMs)
             && Timely(t4, es[4], p, latency, k, windowMs)
    ensures AllTimely(t, es, p, latency, k, windowMs)
    ensures var t1 := TimedStep(t, es[0], windowMs);
            var t2 := TimedStep(t1, es[1], windowMs);
            var t3 := TimedStep(t2, es[2], windowMs);
            var t4 := TimedStep(t3, es[3], windowMs);
            TimedRun(t, es, windowMs) == TimedStep(t4, es[4], windowMs)
  {
    hide TimedStep, Timely;
    assert es[1..][1..] == es[2..] && es[2..][1..] == es[3..] && es[3..][1..] == es[4..] && es[4..][1..] == [];
    var t1 := TimedStep(t, es[0], windowMs);
    var t2 := TimedStep(t1, es[1], windowMs);
    var t3 := TimedStep(t2, es[2], windowMs);
    var t4 := TimedStep(t3, es[3], windowMs);
    OneStep(t4, es[4..], p, latency, k, windowMs);
    OneStep(t3, es[3..], p, latency, k, windowMs);
    OneStep(t2, es[2..], p, latency, k, windowMs);
    OneStep(t1, es[1..], p, latency, k, windowMs);
    OneStep(t, es, p, latency, k, windowMs);
  }

  lemma OneStep(t: Timed, es: seq<Event>, p: string, latency: nat, k: nat, windowMs: int)
    requires es != []
    ensures TimedRun(t, es, windowMs) == TimedRun(TimedStep(t, es[0], windowMs), es[1..], windowMs)
    ensures AllTimely(t, es, p, latency, k, windowMs) <==>
            Timely(t, es[0], p, latency, k, windowMs)
            && AllTimely(TimedStep(t, es[0], windowMs), es[1..], p, latency, k, windowMs)
    ensures |es| == 1 ==> TimedRun(TimedStep(t, es[0], windowMs), es[1..], windowMs) == TimedStep(t, es[0], windowMs)
    ensures |es| == 1 ==> AllTimely(TimedStep(t, es[0], windowMs), es[1..], p, latency, k, windowMs)
  {
    hide TimedStep, Timely;
  }

  lemma {:induction false} TimelyConcat(t: Timed, a: seq<Event>, b: seq<Event>, p: string, latency: nat, k: nat,
                                        windowMs: int)
    requires AllTimely(t, a, p, latency, k, windowMs) && AllTimely(TimedRun(t, a, windowMs), b, p, latency, k, windowMs)
    ensures AllTimely(t, a + b, p, latency, k, windowMs)
    ensures TimedRun(t, a + b, windowMs) == TimedRun(TimedRun(t, a, windowMs), b, windowMs)
    decreases |a|
  {
    hide TimedStep, Timely;
    if a == [] {
      assert a + b == b;
    } else {
      assert (a + b)[1..] == a[1..] + b && (a + b)[0] == a[0];
      TimelyConcat(TimedStep(t, a[0], windowMs), a[1..], b, p, latency, k, windowMs);
    }
  }

  // ---- All failing ticks -----------------------------------------------------------------------------------------------------

  function FailingTicks(id: int, n: nat, latency: nat): seq<Event>
    decreases n
  {
    if n == 0 then [] else FailingTick(id, latency) + FailingTicks(id + 1, n - 1, latency)
  }

  /** The state between ticks, whatever the clock remembers of the last one. */
  ghost predicate RestsAt(t: Timed, due: int, id: int, f: nat) {
    exists nextMs, start, served, up :: t == Resting(due, due, id, nextMs, start, served, f, up)
  }

  lemma {:induction false} FailingTicksRun(t: Timed, due: int, id: int, f: nat, n: nat, latency: nat, k: nat, windowMs: int)
    requires RestsAt(t, due, id, f) && f + n <= k
    ensures var es := FailingTicks(id, n, latency);
            && AllTimely(t, es, "p", latency, k, windowMs)
            && RestsAt(TimedRun(t, es, windowMs), due + Delayed(n, latency), id + n, f + n)
    decreases n
  {
    hide TimedStep, Timely, Resting, Delayed;
    if n == 0 {
      DelayedSteps(0, latency);
    } else {
      var nextMs, start, served, up :| t == Resting(due, due, id, nextMs, start, served, f, up);
      FailingTickRuns(due, id, nextMs, start, served, f, up, k, latency, windowMs);
      var tick, rest := FailingTick(id, latency), FailingTicks(id + 1, n - 1, latency);
      var t1, due1 := TimedRun(t, tick, windowMs), due + latency + HEARTBEAT_INTERVAL_MS;
      assert RestsAt(t1, due1, id + 1, f + 1);
      FailingTicksRun(t1, due1, id + 1, f + 1, n - 1, latency, k, windowMs);
      TimelyConcat(t, tick, rest, "p", latency, k, windowMs);
      DelayedSteps(n - 1, latency);
    }
  }

  // ---- The first tick --------------------------------------------------------------------------------------------------------

  /** Registered at 0, about to start. */
  function Launching(): Timed {
    Timed(SlowWorld(SlowClient(false, map[], 0, [], true), map[], 0, false), 0, 0, 0, map[], 0, 0)
  }

  lemma LaunchingLaunches(latency: nat, windowMs: int)
    ensures Launch(Launching(), "p", latency, windowMs)
  {
    var w := Launching().world;
    InitHasInv(w);
    assert TimerFrames(w.client) == {};
    hide Inv;
  }

  function SelfStage(now: int, nextMs: int): Timed {
    Timed(SlowWorld(SlowClient(false, map[0 := BeatFrame(true, SelfBeating)], 1, [], true), map[], now, true), 0, 0, nextMs,
          map[OfBeat(0) := 0], 0, 0)
  }

  function FirstTick(latency: nat, delay: nat): seq<Event> {
    [Serve(Delivered, ANY_OUTCOME), BeatResumes(0), Wait(latency), SelfRepoBeatEnds(0), Wait(delay)]
  }

  lemma Starts(windowMs: int)
    ensures TimedStep(Launching(), StartHeartbeat, windowMs) == InTick(0, 0, 0, [BeatCall(0)], map[], 0, map[], 0, true)
  {
    assert [] + [BeatCall(0)] == [BeatCall(0)];
    assert map[][0 := BeatFrame(true, Beating("p"))] == map[0 := BeatFrame(true, Beating("p"))];
  }

  lemma FirstBeatServed(k: nat, latency: nat, windowMs: int)
    ensures var t, e := InTick(0, 0, 0, [BeatCall(0)], map[], 0, map[], 0, true), Serve(Delivered, ANY_OUTCOME);
            && TimedStep(t, e, windowMs)
               == InTick(0, 0, 0, [], map[OfBeat(0) := Acknowledged], 0, map[OfBeat(0) := 0], 0, true)
            && Timely(t, e, "p", latency, k, windowMs)
  {
    assert [BeatCall(0)][1..] == [];
    assert map["p" := 0]["p" := 0] == map["p" := 0];
    assert map[][OfBeat(0) := Acknowledged] == map[OfBeat(0) := Acknowledged];
    assert map[][OfBeat(0) := 0] == map[OfBeat(0) := 0];
  }

  lemma FirstBeatAnswered(k: nat, latency: nat, windowMs: int)
    requires windowMs > 0
    ensures var t := InTick(0, 0, 0, [], map[OfBeat(0) := Acknowledged], 0, map[OfBeat(0) := 0], 0, true);
            && TimedStep(t, BeatResumes(0), windowMs) == SelfStage(0, CadenceFor(windowMs as real))
            && Timely(t, BeatResumes(0), "p", latency, k, windowMs)
  {
    hide CadenceFor;
    DeadlineArrives(0 + windowMs, 0);
    assert map[OfBeat(0) := Acknowledged] - {OfBeat(0)} == map[];
    var beats := map[0 := BeatFrame(true, Beating("p"))];
    assert beats[0 := beats[0].(stage := SelfBeating)] == map[0 := BeatFrame(true, SelfBeating)];
  }

  lemma SelfStageWaits(k: nat, latency: nat, nextMs: int, windowMs: int)
    ensures TimedStep(SelfStage(0, nextMs), Wait(latency), windowMs) == SelfStage(latency, nextMs)
    ensures Timely(SelfStage(0, nextMs), Wait(latency), "p", latency, k, windowMs)
  {
  }

  lemma SelfStageEnds(now: int, k: nat, latency: nat, nextMs: int, windowMs: int)
    ensures TimedStep(SelfStage(now, nextMs), SelfRepoBeatEnds(0), windowMs)
         == Resting(now, now + nextMs, 1, nextMs, 0, map[OfBeat(0) := 0], 0, true)
    ensures Timely(SelfStage(now, nextMs), SelfRepoBeatEnds(0), "p", latency, k, windowMs)
  {
    assert map[0 := BeatFrame(true, SelfBeating)] - {0} == map[];
  }

  lemma FirstTickRuns(k: nat, latency: nat, windowMs: int)
    requires windowMs > 0
    ensures var t, delay := TimedStep(Launching(), StartHeartbeat, windowMs), CadenceFor(windowMs as real);
            && AllTimely(t, FirstTick(latency, delay), "p", latency, k, windowMs)
            && RestsAt(TimedRun(t, FirstTick(latency, delay), windowMs), latency + delay, 1, 0)
  {
    hide TimedStep, Timely, Resting, InTick, SelfStage, CadenceFor, Launching;
    var t, delay := TimedStep(Launching(), StartHeartbeat, windowMs), CadenceFor(windowMs as real);
    Starts(windowMs);
    FirstBeatServed(k, latency, windowMs);
    FirstBeatAnswered(k, latency, windowMs);
    SelfStageWaits(k, latency, delay, windowMs);
    SelfStageEnds(latency, k, latency, delay, windowMs);
    RestWaits(latency, delay, 1, delay, 0, map[OfBeat(0) := 0], 0, true, k, latency, windowMs);
    FiveSteps(t, FirstTick(latency, delay), "p", latency, k, windowMs);
  }

  // ---- The last tick ---------------------------------------------------------------------------------------------------------

  function LastTick(latency: nat, windowMs: int): seq<Event> {
    [TimerFires, Wait(latency), Reap(windowMs)]
  }

  lemma RowReaped(now: int, due: int, id: int, served: map<Owner, int>, f: nat, up: bool, k: nat, latency: nat, windowMs: int)
    requires f <= k && now > windowMs
    ensures var t := InTick(now, due, id, [BeatCall(id)], map[], due, served, f, up);
            && "p" !in TimedStep(t, Reap(windowMs), windowMs).world.rows
            && Timely(t, Reap(windowMs), "p", latency, k, windowMs)
  {
  }

  lemma LastTickReaps(t: Timed, due: int, id: int, f: nat, k: nat, latency: nat, windowMs: int)
    requires RestsAt(t, due, id, f) && f <= k && due + latency > windowMs
    ensures AllTimely(t, LastTick(latency, windowMs), "p", latency, k, windowMs)
    ensures "p" !in TimedRun(t, LastTick(latency, windowMs), windowMs).world.rows
  {
    hide TimedStep, Timely, Resting, InTick;
    var nextMs, start, served, up :| t == Resting(due, due, id, nextMs, start, served, f, up);
    var es := LastTick(latency, windowMs);
    Fires(due, id, nextMs, start, served, f, up, k, latency, windowMs);
    TickWaits(due, id, served, f, up, k, latency, windowMs);
    RowReaped(due + latency, due, id, served, f, up, k, latency, windowMs);
    assert es[1..][1..] == es[2..] && es[2..][1..] == [];
    var t1 := TimedStep(t, es[0], windowMs);
    var t2 := TimedStep(t1, es[1], windowMs);
    OneStep(t2, es[2..], "p", latency, k, windowMs);
    OneStep(t1, es[1..], "p", latency, k, windowMs);
    OneStep(t, es, "p", latency, k, windowMs);
  }

  // ---- The exact budget --------------------------------------------------------------------------------------------------------

  /** In every timely run from the start of the loop the project's row is there at the end. */
  ghost predicate AlwaysSurvives(latency: nat, k: nat, windowMs: int) {
    forall t, es, p :: Launch(t, p, latency, windowMs)
                       && AllTimely(TimedStep(t, StartHeartbeat, windowMs), es, p, latency, k, windowMs)
      ==> p in TimedRun(TimedStep(t, StartHeartbeat, windowMs), es, windowMs).world.rows
  }

  /** The slowest run: one answered tick, `k` lost ones, and one whose beat is still under way. */
  function SlowestRun(k: nat, latency: nat, windowMs: int): seq<Event> {
    FirstTick(latency, CadenceFor(windowMs as real)) + (FailingTicks(1, k, latency) + LastTick(latency, windowMs))
  }

  lemma SlowestRunReaps(k: nat, latency: nat, windowMs: int)
    requires windowMs > 0 && !Budget(latency, k, windowMs)
    ensures var t, es := TimedStep(Launching(), StartHeartbeat, windowMs), SlowestRun(k, latency, windowMs);
            && AllTimely(t, es, "p", latency, k, windowMs) && "p" !in TimedRun(t, es, windowMs).world.rows
  {
    var delay := CadenceFor(windowMs as real);
    hide TimedStep, Timely, Launching, RestsAt, CadenceFor, Delayed, FailingTicks, FirstTick, LastTick;
    var t, first, failing, last :=
      TimedStep(Launching(), StartHeartbeat, windowMs), FirstTick(latency, delay), FailingTicks(1, k, latency),
      LastTick(latency, windowMs);
    FirstTickRuns(k, latency, windowMs);
    var t1 := TimedRun(t, first, windowMs);
    FailingTicksRun(t1, latency + delay, 1, 0, k, latency, k, windowMs);
    var t2 := TimedRun(t1, failing, windowMs);
    LastTickReaps(t2, latency + delay + Delayed(k, latency), 1 + k, k, k, latency, windowMs);
    TimelyConcat(t1, failing, last, "p", latency, k, windowMs);
    TimelyConcat(t, first, failing + last, "p", latency, k, windowMs);
  }

  /** A live session survives every timely run exactly when twice the latency, the cadence of a full window and `k`
      missed ticks fit into the window: the design's two thirds must also cover the service of the beat that arrives. */
  lemma SurvivesIffBudget(latency: nat, k: nat, windowMs: int)
    requires windowMs > 0
    ensures AlwaysSurvives(latency, k, windowMs) <==> Budget(latency, k, windowMs)
  {
    hide TimedStep, Budget;
    if Budget(latency, k, windowMs) {
      forall t, es, p | Launch(t, p, latency, windowMs)
                        && AllTimely(TimedStep(t, StartHeartbeat, windowMs), es, p, latency, k, windowMs)
        ensures p in TimedRun(TimedStep(t, StartHeartbeat, windowMs), es, windowMs).world.rows
      {
        SurvivesTimed(t, es, p, latency, k, windowMs);
      }
    } else {
      LaunchingLaunches(latency, windowMs);
      SlowestRunReaps(k, latency, windowMs);
    }
  }

  lemma SurvivesTimed(t: Timed, es: seq<Event>, p: string, latency: nat, k: nat, windowMs: int)
    requires Launch(t, p, latency, windowMs) && Budget(latency, k, windowMs)
    requires AllTimely(TimedStep(t, StartHeartbeat, windowMs), es, p, latency, k, windowMs)
    ensures p in TimedRun(TimedStep(t, StartHeartbeat, windowMs), es, windowMs).world.rows
  {
    var u := TimedStep(t, StartHeartbeat, windowMs);
    LaunchedOnSchedule(t, p, latency, k, windowMs);
    ScheduledRowSurvives(u, es, p, latency, k, windowMs);
    hide TimedStep, Inv, ChainInv, ClockOnSchedule, ReleaseIn;
  }

  /** The margin of two thirds counted up to the departure of the beat only, as the comments count it, is not enough:
      with no missed beat at all, a window of 15 s and calls of 10 s, a row is reaped while its beat is under way. */
  lemma DepartureMarginIsNotEnough()
    ensures 3 * (10_000 + 0 * (HEARTBEAT_INTERVAL_MS + 10_000)) <= 2 * 15_000
    ensures !AlwaysSurvives(10_000, 0, 15_000)
  {
    SurvivesIffBudget(10_000, 0, 15_000);
    hide AlwaysSurvives;
    assert CadenceFor(15_000.0) >= 0;
  }

  /** Under the daemon's default window one missed beat is survived up to 10 s of latency, two at none. */
  lemma DefaultWindowSurvival(latency: nat)
    ensures AlwaysSurvives(latency, 0, 90_000) <==> latency <= 30_000
    ensures AlwaysSurvives(latency, 1, 90_000) <==> latency <= 10_000
    ensures AlwaysSurvives(latency, 2, 90_000) <==> latency == 0
  {
    assert CadenceFor(90_000.0) == 30_000 by { assert (90_000.0 / 3.0).Floor == 30_000; }
    SurvivesIffBudget(latency, 0, 90_000);
    SurvivesIffBudget(latency, 1, 90_000);
    SurvivesIffBudget(latency, 2, 90_000);
    hide AlwaysSurvives, CadenceFor;
  }
}
