/** A session whose ticks are timely keeps its row: timed survival over whole runs, and the exact budget. */
module SessionDeadline {
  import opened Wrappers
  import opened SessionClient
  import opened SessionProtocol
  import opened SessionLiveness
  import opened SessionSurvival
  import opened HeartbeatTiming
  import opened SessionTiming

  // ---- The delay a tick returns ------------------------------------------------------------------------------------

  lemma CadenceGrows(remaining: real, window: real)
    requires remaining <= window
    ensures CadenceFor(remaining) <= CadenceFor(window)
  {
    assert (remaining / 3.0).Floor <= (window / 3.0).Floor;
  }

  /** A tick within its latency is answered while its deadline is open, and sleeps at most the full window's cadence. */
  lemma AnsweredDelay(servedAt: int, nowMs: int, windowMs: int, latency: nat, k: nat)
    requires Budget(latency, k, windowMs) && servedAt <= nowMs <= servedAt + latency
    ensures 0 <= NextHeartbeatDelayMs(Some(DeadlineAt(servedAt + windowMs)), nowMs) <= CadenceFor(windowMs as real)
  {
    DeadlineArrives(servedAt + windowMs, nowMs);
    CadenceGrows((servedAt + windowMs - nowMs) as real, windowMs as real);
    hide CadenceFor, Delayed;
    assert latency < windowMs;
  }

  /** Whatever the response, the tick ends in time for the next one. */
  lemma AnswerKeepsSchedule(t: Timed, id: int, p: string, latency: nat, k: nat, windowMs: int)
    requires id in t.world.client.beats && t.world.client.beats[id].stage.Beating? && OfBeat(id) in t.world.replies
    requires TickOnSchedule(t, id, p, latency, windowMs) && Budget(latency, k, windowMs)
    requires p in t.world.rows && t.heard <= t.world.rows[p]
    ensures var a := TickAnswered(t, id, t.world.replies[OfBeat(id)], windowMs);
            && a.nextMs >= 0 && t.tickStart + latency + a.nextMs <= Latest(a, latency, windowMs)
            && a.world == t.world && a.tickStart == t.tickStart && a.due == t.due && a.served == t.served
            && a.heard <= t.world.rows[p]
  {
    var reply, servedAt := t.world.replies[OfBeat(id)], t.served[OfBeat(id)];
    DelayedSteps(t.failures, latency);
    if reply == Acknowledged {
      AnsweredDelay(servedAt, t.world.now, windowMs, latency, k);
    }
    hide CadenceFor, Delayed, NextHeartbeatDelayMs, Budget;
  }

  // ---- Each event keeps the clock on schedule ------------------------------------------------------------------------

  lemma ReplyIsAwaited(w: World, id: int)
    requires Inv(w) && OfBeat(id) in w.replies
    ensures id in w.client.beats && !w.client.beats[id].stage.SelfBeating?
  {
    assert Awaits(w.client, OfBeat(id));
  }

  lemma FiredShape(c: Client, p: string)
    requires c.projectId == Some(p)
    ensures var v := FireTimer(c);
            !v.timerArmed && v.beats == c.beats[c.nextBeat := BeatFrame(true, Beating(p))]
  {
  }

  lemma TimerFiresOnSchedule(t: Timed, p: string, latency: nat, k: nat, windowMs: int)
    requires OnSchedule(t, p, latency, k, windowMs) && t.world.client.timerArmed && t.world.now == t.due
    ensures ClockOnSchedule(TimedStep(t, TimerFires, windowMs), p, latency, windowMs)
  {
    var w, u := t.world, TimedStep(t, TimerFires, windowMs);
    var c := w.client;
    ChainHasOne(w);
    FiredShape(c, p);
    NextIsNew(w);
    hide Inv, ChainInv, Delayed, CadenceFor, FireTimer, ReleaseIn;
    assert Latest(u, latency, windowMs) == Latest(t, latency, windowMs);
    forall id | id in u.world.client.beats && u.world.client.beats[id].onTimer
      ensures TickOnSchedule(u, id, p, latency, windowMs)
    {
      assert id != c.nextBeat ==> Ticking(c);
    }
  }

  lemma NextIsNew(w: World)
    requires Inv(w) && ChainInv(w)
    ensures w.client.nextBeat !in w.client.beats && OfBeat(w.client.nextBeat) !in w.replies
  {
    hide Chain;
    if OfBeat(w.client.nextBeat) in w.replies {
      ReplyIsAwaited(w, w.client.nextBeat);
    }
  }

  lemma WaitOnSchedule(t: Timed, ms: nat, p: string, latency: nat, k: nat, windowMs: int)
    requires OnSchedule(t, p, latency, k, windowMs) && Timely(t, Wait(ms), p, latency, k, windowMs)
    ensures ClockOnSchedule(TimedStep(t, Wait(ms), windowMs), p, latency, windowMs)
  {
    var u := TimedStep(t, Wait(ms), windowMs);
    hide Inv, ChainInv, Delayed, CadenceFor, ReleaseIn;
    assert u == t.(world := t.world.(now := t.world.now + ms));
    forall id | id in u.world.client.beats && u.world.client.beats[id].onTimer
      ensures TickOnSchedule(u, id, p, latency, windowMs)
    {
      assert Ticking(t.world.client);
      assert TickOnSchedule(t, id, p, latency, windowMs);
    }
  }

  /** The daemon serves a call: the tick's own beat finds the row and is acknowledged unless it is lost. */
  lemma ServeOnSchedule(t: Timed, delivery: Delivery, outcome: RegisterOutcome, p: string, latency: nat, k: nat,
                        windowMs: int)
    requires OnSchedule(t, p, latency, k, windowMs) && t.world.client.outbox != []
    ensures ClockOnSchedule(TimedStep(t, Serve(delivery, outcome), windowMs), p, latency, windowMs)
  {
    var w, u := t.world, TimedStep(t, Serve(delivery, outcome), windowMs);
    assert u.world == ServeHead(w, delivery, outcome);
    ServeSpares(w, delivery, outcome, p);
    ServedClock(t, delivery, outcome, windowMs);
    forall id | id in u.world.client.beats && u.world.client.beats[id].onTimer
      ensures TickOnSchedule(u, id, p, latency, windowMs)
    {
      assert TickOnSchedule(t, id, p, latency, windowMs);
      if w.client.beats[id].stage.Beating? && OfBeat(id) in u.world.replies {
        if w.client.outbox[0].owner == OfBeat(id) {
          HeadIsBeat(w, id, p);
          OwnBeatServed(t, u, delivery, outcome, id, p);
        } else {
          OtherServed(t, u, delivery, outcome, id, p);
        }
      }
      hide Inv, ChainInv, Delayed, CadenceFor, ReleaseIn, AnswerOnSchedule, Step;
    }
  }

  lemma ServedClock(t: Timed, delivery: Delivery, outcome: RegisterOutcome, windowMs: int)
    requires t.world.client.outbox != []
    ensures var u, w := TimedStep(t, Serve(delivery, outcome), windowMs), t.world;
            && u == t.(world := ServeHead(w, delivery, outcome), served := t.served[w.client.outbox[0].owner := w.now])
            && u.world.client.beats == w.client.beats && u.world.client.timerArmed == w.client.timerArmed
            && u.world.now == w.now
  {
  }

  lemma HeadIsBeat(w: World, id: int, p: string)
    requires Inv(w) && w.client.outbox != [] && w.client.outbox[0].owner == OfBeat(id)
    requires id in w.client.beats && w.client.beats[id].stage == Beating(p)
    ensures w.client.outbox[0].rpc == Beat(p)
  {
    assert Matches(w.client, w.client.outbox[0]);
  }

  lemma OwnBeatServed(t: Timed, u: Timed, delivery: Delivery, outcome: RegisterOutcome, id: int, p: string)
    requires t.world.client.outbox != [] && t.world.client.outbox[0] == Call(OfBeat(id), Beat(p)) && p in t.world.rows
    requires u == t.(world := ServeHead(t.world, delivery, outcome), served := t.served[OfBeat(id) := t.world.now])
    requires t.tickStart <= t.world.now
    ensures AnswerOnSchedule(u, id, p)
  {
  }

  lemma OtherServed(t: Timed, u: Timed, delivery: Delivery, outcome: RegisterOutcome, id: int, p: string)
    requires t.world.client.outbox != [] && t.world.client.outbox[0].owner != OfBeat(id)
    requires u.world == ServeHead(t.world, delivery, outcome) && u.tickStart == t.tickStart
    requires u.served == t.served[t.world.client.outbox[0].owner := t.world.now]
    requires OfBeat(id) in t.world.replies && AnswerOnSchedule(t, id, p)
    requires p in t.world.rows ==> p in u.world.rows && t.world.rows[p] <= u.world.rows[p]
    ensures AnswerOnSchedule(u, id, p)
  {
  }

  // ---- Ticks that go on or end -----------------------------------------------------------------------------------------

  /** A frame of the timer moves past its beat or ends, `a` being the clock with what the tick will return. */
  lemma TickMovesOn(t: Timed, a: Timed, u: Timed, id: int, p: string, latency: nat, windowMs: int)
    requires ChainInv(t.world) && t.world.started && !t.world.client.cleaned
    requires id in t.world.client.beats && t.world.client.beats[id].onTimer
    requires TimerFollows(t.world.client, u.world.client, id) && u.world.now == t.world.now
    requires id in u.world.client.beats ==> !u.world.client.beats[id].stage.Beating?
    requires forall j :: j in u.world.client.beats && j != id ==>
               j in t.world.client.beats && u.world.client.beats[j] == t.world.client.beats[j]
    requires u == a.(world := u.world, due := u.due)
    requires u.world.client.timerArmed ==> u.due == t.world.now + a.nextMs
    requires t.tickStart <= t.world.now <= t.tickStart + latency && a.tickStart == t.tickStart
    requires a.nextMs >= 0 && t.tickStart + latency + a.nextMs <= Latest(a, latency, windowMs)
    ensures ClockOnSchedule(u, p, latency, windowMs)
  {
    ChainHasOne(t.world);
    hide ChainInv, Delayed, CadenceFor, AnswerOnSchedule;
    assert id in TimerFrames(t.world.client);
    assert Ticking(t.world.client);
    assert Latest(u, latency, windowMs) == Latest(a, latency, windowMs);
    forall j | j in u.world.client.beats && u.world.client.beats[j].onTimer
      ensures TickOnSchedule(u, j, p, latency, windowMs)
    {
      assert j != id ==> j in TimerFrames(t.world.client);
    }
  }

  /** The clock after the timer's frame resumes. */
  lemma ResumedClock(t: Timed, id: int, windowMs: int)
    requires id in t.world.client.beats && OfBeat(id) in t.world.replies && t.world.client.beats[id].onTimer
    requires !t.world.client.timerArmed
    ensures var w, u, a := t.world, TimedStep(t, BeatResumes(id), windowMs), Clocked(t, BeatResumes(id), windowMs);
            && u == a.(world := u.world, due := u.due) && u.world.now == w.now
            && u.world.client == ResumeBeat(w.client, id, w.replies[OfBeat(id)])
            && (u.world.client.timerArmed ==> u.due == w.now + a.nextMs)
            && a == (if w.client.beats[id].stage.Beating? then TickAnswered(t, id, w.replies[OfBeat(id)], windowMs) else t)
  {
    hide ResumeBeat, TickAnswered;
  }

  lemma TickResumesOnSchedule(t: Timed, id: int, p: string, latency: nat, k: nat, windowMs: int)
    requires OnSchedule(t, p, latency, k, windowMs) && Budget(latency, k, windowMs)
    requires id in t.world.client.beats && OfBeat(id) in t.world.replies && t.world.client.beats[id].onTimer
    ensures ClockOnSchedule(TimedStep(t, BeatResumes(id), windowMs), p, latency, windowMs)
    ensures TimedStep(t, BeatResumes(id), windowMs).heard <= t.world.rows[p]
  {
    var w, u, a := t.world, TimedStep(t, BeatResumes(id), windowMs), Clocked(t, BeatResumes(id), windowMs);
    ReplyIsAwaited(w, id);
    InvFacts(w);
    ChainHasOne(w);
    assert Ticking(w.client);
    ResumeTimer(w.client, id, w.replies[OfBeat(id)]);
    ResumeBeatShape(w.client, id, w.replies[OfBeat(id)]);
    ResumedClock(t, id, windowMs);
    assert TickOnSchedule(t, id, p, latency, windowMs);
    hide Inv, ChainInv, Delayed, CadenceFor, ResumeBeat, Clocked, TickAnswered, AnswerOnSchedule, Step, ReleaseIn, Budget;
    hide TimerFollows;
    if w.client.beats[id].stage.Beating? {
      AnswerKeepsSchedule(t, id, p, latency, k, windowMs);
    }
    TickMovesOn(t, a, u, id, p, latency, windowMs);
  }

  lemma SelfRepoClock(t: Timed, id: int, windowMs: int)
    requires id in t.world.client.beats && t.world.client.beats[id].stage.SelfBeating?
    ensures var w, u := t.world, TimedStep(t, SelfRepoBeatEnds(id), windowMs);
            && u == t.(world := u.world, due := u.due) && u.world.now == w.now
            && u.world.client == FinishBeat(w.client, id)
            && (u.world.client.timerArmed && !w.client.timerArmed ==> u.due == w.now + t.nextMs)
  {
  }

  lemma SelfRepoEndsOnSchedule(t: Timed, id: int, p: string, latency: nat, k: nat, windowMs: int)
    requires OnSchedule(t, p, latency, k, windowMs)
    requires id in t.world.client.beats && t.world.client.beats[id].onTimer && t.world.client.beats[id].stage.SelfBeating?
    ensures ClockOnSchedule(TimedStep(t, SelfRepoBeatEnds(id), windowMs), p, latency, windowMs)
  {
    var w, u := t.world, TimedStep(t, SelfRepoBeatEnds(id), windowMs);
    ChainHasOne(w);
    assert Ticking(w.client);
    AfterBeatTimer(w.client, w.client, id);
    SelfRepoClock(t, id, windowMs);
    assert TickOnSchedule(t, id, p, latency, windowMs);
    hide Inv, ChainInv, Delayed, CadenceFor, Step, ReleaseIn, TimerFollows, TimedStep;
    TickMovesOn(t, t, u, id, p, latency, windowMs);
  }

  // ---- Whole runs --------------------------------------------------------------------------------------------------------

  lemma QuietOnSchedule(t: Timed, e: Event, p: string, latency: nat, k: nat, windowMs: int)
    requires OnSchedule(t, p, latency, k, windowMs) && QuietEvent(t.world, e)
    requires var v := Step(t.world, e); p in v.rows && t.world.rows[p] <= v.rows[p]
    ensures ClockOnSchedule(TimedStep(t, e, windowMs), p, latency, windowMs)
  {
    QuietStepKeepsTicks(t.world, e);
    QuietStepKeepsClock(t, e, windowMs);
    hide Inv, ChainInv, Step, ReleaseIn, Clocked;
    QuietKeepsSchedule(t, TimedStep(t, e, windowMs), p, latency, windowMs);
  }

  lemma StepKeepsClock(t: Timed, e: Event, p: string, latency: nat, k: nat, windowMs: int)
    requires OnSchedule(t, p, latency, k, windowMs) && Budget(latency, k, windowMs)
    requires Timely(t, e, p, latency, k, windowMs)
    requires var v := Step(t.world, e); p in v.rows && t.world.rows[p] <= v.rows[p]
    ensures ClockOnSchedule(TimedStep(t, e, windowMs), p, latency, windowMs)
  {
    var w := t.world;
    if QuietEvent(w, e) {
      QuietOnSchedule(t, e, p, latency, k, windowMs);
    } else {
      hide OnSchedule, ClockOnSchedule, TimedStep, Step, Budget;
      match e
      case TimerFires => TimerFiresOnSchedule(t, p, latency, k, windowMs);
      case Wait(ms) => WaitOnSchedule(t, ms, p, latency, k, windowMs);
      case Serve(delivery, outcome) => ServeOnSchedule(t, delivery, outcome, p, latency, k, windowMs);
      case BeatResumes(id) => TickResumesOnSchedule(t, id, p, latency, k, windowMs);
      case SelfRepoBeatEnds(id) => SelfRepoEndsOnSchedule(t, id, p, latency, k, windowMs);
      case StartHeartbeat => IsStarted(t, p, latency, k, windowMs);
    }
  }

  lemma IsStarted(t: Timed, p: string, latency: nat, k: nat, windowMs: int)
    requires OnSchedule(t, p, latency, k, windowMs)
    ensures QuietEvent(t.world, StartHeartbeat)
  {
  }

  lemma StepKeepsHeard(t: Timed, e: Event, p: string, latency: nat, k: nat, windowMs: int)
    requires OnSchedule(t, p, latency, k, windowMs) && Budget(latency, k, windowMs)
    ensures TimedStep(t, e, windowMs).heard <= t.world.rows[p]
  {
    var w := t.world;
    if e.BeatResumes? && e.id in w.client.beats && OfBeat(e.id) in w.replies && w.client.beats[e.id].onTimer {
      TickResumesOnSchedule(t, e.id, p, latency, k, windowMs);
    }
    hide Inv, ChainInv, Step, ClockOnSchedule, Budget, ReleaseIn;
  }

  lemma StepOnSchedule(t: Timed, e: Event, p: string, latency: nat, k: nat, windowMs: int)
    requires OnSchedule(t, p, latency, k, windowMs) && Budget(latency, k, windowMs)
    requires Timely(t, e, p, latency, k, windowMs)
    ensures OnSchedule(TimedStep(t, e, windowMs), p, latency, k, windowMs)
    ensures Spares(t.world, e, p)
  {
    ScheduleSpares(t, e, p, latency, k, windowMs);
    StepSpares(t.world, e, p);
    StepKeepsInv(t.world, e);
    StepKeepsChainInv(t.world, e);
    StepFlags(t.world, e);
    StepKeepsClock(t, e, p, latency, k, windowMs);
    StepKeepsHeard(t, e, p, latency, k, windowMs);
    hide Inv, ChainInv, Step, ClockOnSchedule, Budget, Clocked, ReleaseIn, Spares;
  }

  /** In every timely run no reap comes too late for the row: it survives, and was never up for reaping. */
  lemma {:induction false} ScheduledRowSurvives(t: Timed, es: seq<Event>, p: string, latency: nat, k: nat, windowMs: int)
    requires OnSchedule(t, p, latency, k, windowMs) && Budget(latency, k, windowMs)
    requires AllTimely(t, es, p, latency, k, windowMs)
    ensures AllSpare(t.world, es, p)
    ensures OnSchedule(TimedRun(t, es, windowMs), p, latency, k, windowMs)
    decreases |es|
  {
    hide OnSchedule, Budget, Timely, Spares;
    if es != [] {
      StepOnSchedule(t, es[0], p, latency, k, windowMs);
      ScheduledRowSurvives(TimedStep(t, es[0], windowMs), es[1..], p, latency, k, windowMs);
    }
    hide TimedStep;
  }

  // ---- From the start of the loop ------------------------------------------------------------------------------------------

  /** The heartbeat loop is about to start, the project having been registered no longer ago than a tick may take and
      sleep. */
  ghost predicate Launch(t: Timed, p: string, latency: nat, windowMs: int) {
    var w := t.world;
    && Inv(w) && ChainInv(w) && !w.started && !w.client.cleaned && Live(w, p)
    && w.now <= w.rows[p] + latency + CadenceFor(windowMs as real) && t.heard == w.rows[p] && t.failures == 0
  }

  lemma LaunchedOnSchedule(t: Timed, p: string, latency: nat, k: nat, windowMs: int)
    requires Launch(t, p, latency, windowMs)
    ensures OnSchedule(TimedStep(t, StartHeartbeat, windowMs), p, latency, k, windowMs)
  {
    var w, u := t.world, TimedStep(t, StartHeartbeat, windowMs);
    StepKeepsInv(w, StartHeartbeat);
    StepKeepsChainInv(w, StartHeartbeat);
    StepFlags(w, StartHeartbeat);
    StepSpares(w, StartHeartbeat, p);
    StartShape(w, p);
    DelayedSteps(0, latency);
    hide Inv, ChainInv, Delayed, CadenceFor, ReleaseIn;
    forall id | id in u.world.client.beats && u.world.client.beats[id].onTimer
      ensures TickOnSchedule(u, id, p, latency, windowMs)
    {
    }
  }

  /** The start: one tick in flight, its beat not served. */
  lemma StartShape(w: World, p: string)
    requires Inv(w) && ChainInv(w) && !w.started && w.client.projectId == Some(p)
    ensures var v := Step(w, StartHeartbeat);
            && !v.client.timerArmed && v.client.projectId == Some(p) && v.rows == w.rows && v.now == w.now
            && v.client.beats == w.client.beats[w.client.nextBeat := BeatFrame(true, Beating(p))]
            && v.replies == w.replies
    ensures OfBeat(w.client.nextBeat) !in w.replies
    ensures forall id :: id in w.client.beats ==> !w.client.beats[id].onTimer
    ensures Spares(w, StartHeartbeat, p)
  {
    NextIsNew(w);
    assert TimerFrames(w.client) == {};
    forall id | id in w.client.beats
      ensures !w.client.beats[id].onTimer
    {
      assert id !in TimerFrames(w.client);
    }
    hide Inv;
  }

  /** From the start of the loop on, in every run in which the timer fires when it is due, each tick takes at most
      `latency`, at most `k` of its beats fail in a row, the reaper's timeout is the daemon's window, and the session
      stays with its project: no reap removes the project's row. */
  lemma TimelyRowSurvives(t: Timed, es: seq<Event>, p: string, latency: nat, k: nat, windowMs: int)
    requires Launch(t, p, latency, windowMs) && Budget(latency, k, windowMs)
    requires AllTimely(TimedStep(t, StartHeartbeat, windowMs), es, p, latency, k, windowMs)
    ensures AllSpare(t.world, [StartHeartbeat] + es, p)
    ensures p in Run(t.world, [StartHeartbeat] + es).rows
  {
    var t1, all := TimedStep(t, StartHeartbeat, windowMs), [StartHeartbeat] + es;
    LaunchedOnSchedule(t, p, latency, k, windowMs);
    ScheduledRowSurvives(t1, es, p, latency, k, windowMs);
    StartShape(t.world, p);
    assert all[1..] == es;
    hide TimedStep, Step, Inv, Spares, OnSchedule, Budget;
    assert t1.world == Step(t.world, StartHeartbeat) by { WorldSteps(t, StartHeartbeat, windowMs); }
    assert AllSpare(t.world, all, p);
    LiveRowSurvives(t.world, all, p);
  }

  lemma WorldSteps(t: Timed, e: Event, windowMs: int)
    ensures TimedStep(t, e, windowMs).world == Step(t.world, e)
  {
    hide Step, Clocked;
  }

  /** The design's margin is enough once the service of the beat is counted: twice the latency and `k` missed ticks
      within two thirds of a window of at least 15 s. */
  lemma MarginMeetsBudget(latency: nat, k: nat, windowMs: int)
    requires windowMs >= 15_000
    requires 3 * (2 * latency + k * (HEARTBEAT_INTERVAL_MS + latency)) <= 2 * windowMs
    ensures Budget(latency, k, windowMs)
  {
    var c := CadenceFor(windowMs as real);
    assert c as real <= windowMs as real / 3.0;
    assert 3 * c <= windowMs;
    assert Delayed(k, latency) == k * (HEARTBEAT_INTERVAL_MS + latency);
  }
}
