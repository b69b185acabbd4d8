/** The session protocol with time: when the timer is due, when a tick began, what deadline its response carried.

    The World of the protocol is kept as it is; a timed state adds what the client and the daemon know of the clock. */
module SessionTiming {
  import opened Wrappers
  import opened SessionClient
  import opened SessionProtocol
  import opened SessionLiveness
  import opened SessionSurvival
  import opened HeartbeatTiming

  /** `due` is when the armed timer fires; `tickStart` and `nextMs` belong to the tick in flight, `nextMs` being the delay
      it will return; `served` says when the daemon served a call. `failures` and `heard` are history: the timer's beats
      that failed since the last answered one, and when the daemon served that one. */
  datatype Timed = Timed(
    world: World,
    due: int,
    tickStart: int,
    nextMs: int,
    served: map<Owner, int>,
    failures: nat,
    heard: int)

  /** The daemon's deadline as it travels: whole seconds and nanoseconds. */
  function DeadlineAt(ms: int): Deadline {
    Deadline(Some(ms / 1000), (ms % 1000) * 1_000_000)
  }

  lemma DeadlineArrives(ms: int, nowMs: int)
    ensures RemainingMs(DeadlineAt(ms), nowMs) == (ms - nowMs) as real
  {
    var s, n := ms / 1000, ms % 1000;
    assert ms == s * 1000 + n;
    assert (n * 1_000_000) as real == n as real * 1_000_000.0;
  }

  // ---- Steps -----------------------------------------------------------------------------------------------------

  function TickBegins(t: Timed): Timed {
    t.(tickStart := t.world.now, nextMs := HEARTBEAT_INTERVAL_MS)
  }

  /** The tick takes the response of its beat: a deadline sets the delay, a failure falls back to the full interval. */
  function TickAnswered(t: Timed, id: int, reply: Reply, windowMs: int): Timed {
    if (reply == Acknowledged || reply == NoSession) && OfBeat(id) in t.served then
      t.(nextMs := NextHeartbeatDelayMs(Some(DeadlineAt(t.served[OfBeat(id)] + windowMs)), t.world.now),
         failures := 0, heard := t.served[OfBeat(id)])
    else t.(nextMs := HEARTBEAT_INTERVAL_MS, failures := t.failures + 1)
  }

  /** The clock's part of a step, before the timer may be armed. */
  function Clocked(t: Timed, e: Event, windowMs: int): Timed {
    var w := t.world;
    match e
    case StartHeartbeat => if w.started then t else TickBegins(t)
    case TimerFires => if w.client.timerArmed then TickBegins(t) else t
    case Serve(_, _) => if w.client.outbox != [] then t.(served := t.served[w.client.outbox[0].owner := w.now]) else t
    case BeatResumes(id) =>
      if && id in w.client.beats && OfBeat(id) in w.replies
         && w.client.beats[id].onTimer && w.client.beats[id].stage.Beating?
      then TickAnswered(t, id, w.replies[OfBeat(id)], windowMs)
      else t
    case _ => t
  }

  /** `windowMs` is the daemon's timeout. A tick that ends arms the timer with the delay it returns. */
  function TimedStep(t: Timed, e: Event, windowMs: int): Timed {
    var v, c := Step(t.world, e), Clocked(t, e, windowMs);
    var armed := v.client.timerArmed && (e.TimerFires? || !t.world.client.timerArmed);
    c.(world := v, due := if armed then t.world.now + c.nextMs else t.due)
  }

  function TimedRun(t: Timed, es: seq<Event>, windowMs: int): Timed
    decreases |es|
  {
    if es == [] then t else TimedRun(TimedStep(t, es[0], windowMs), es[1..], windowMs)
  }

  lemma {:induction false} TimedRunIsRun(t: Timed, es: seq<Event>, windowMs: int)
    ensures TimedRun(t, es, windowMs).world == Run(t.world, es)
    decreases |es|
  {
    hide Step, Clocked;
    if es != [] {
      TimedRunIsRun(TimedStep(t, es[0], windowMs), es[1..], windowMs);
    }
  }

  // ---- Timely runs -----------------------------------------------------------------------------------------------

  /** A timer tick is in flight. */
  ghost predicate Ticking(c: Client) {
    exists id :: id in c.beats && c.beats[id].onTimer
  }

  /** The timer fires when it is due, a tick is over within `latency`, the reaper's timeout is the window, no more than
      `k` beats of the timer fail in a row, and the session stays with `p`. */
  ghost predicate Timely(t: Timed, e: Event, p: string, latency: nat, k: nat, windowMs: int) {
    var c := t.world.client;
    && (e.TimerFires? && c.timerArmed ==> t.world.now == t.due)
    && (e.Wait? ==>
          && (c.timerArmed ==> t.world.now + e.ms <= t.due)
          && (Ticking(c) ==> t.world.now + e.ms <= t.tickStart + latency))
    && (e.Reap? ==> e.timeoutMs == windowMs)
    && TimedStep(t, e, windowMs).failures <= k
    && !e.CleanupStarts? && !e.ForgetRows? && Step(t.world, e).client.projectId == Some(p)
  }

  ghost predicate AllTimely(t: Timed, es: seq<Event>, p: string, latency: nat, k: nat, windowMs: int)
    decreases |es|
  {
    es == [] || (Timely(t, es[0], p, latency, k, windowMs)
                 && AllTimely(TimedStep(t, es[0], windowMs), es[1..], p, latency, k, windowMs))
  }

  // ---- The schedule ----------------------------------------------------------------------------------------------

  /** What `f` failed beats in a row take at most. */
  function Delayed(f: nat, latency: nat): nat {
    f * (HEARTBEAT_INTERVAL_MS + latency)
  }

  lemma DelayedSteps(f: nat, latency: nat)
    ensures Delayed(f + 1, latency) == Delayed(f, latency) + HEARTBEAT_INTERVAL_MS + latency
    ensures Delayed(0, latency) == 0
  {
  }

  lemma DelayedGrows(f: nat, k: nat, latency: nat)
    requires f <= k
    ensures Delayed(f, latency) <= Delayed(k, latency)
  {
  }

  /** The latest moment at which the next tick begins. */
  function Latest(t: Timed, latency: nat, windowMs: int): int {
    t.heard + latency + CadenceFor(windowMs as real) + Delayed(t.failures, latency)
  }

  /** The tick of frame `id` is within its latency; before its answer it began in time, afterwards the next one will. */
  ghost predicate TickOnSchedule(t: Timed, id: int, p: string, latency: nat, windowMs: int)
    requires id in t.world.client.beats
  {
    var w, frame := t.world, t.world.client.beats[id];
    && t.tickStart <= w.now <= t.tickStart + latency
    && if frame.stage.Beating? then
         && frame.stage.project == p && t.tickStart <= Latest(t, latency, windowMs)
         && (OfBeat(id) in w.replies ==> AnswerOnSchedule(t, id, p))
       else t.nextMs >= 0 && t.tickStart + latency + t.nextMs <= Latest(t, latency, windowMs)
  }

  ghost predicate AnswerOnSchedule(t: Timed, id: int, p: string)
    requires OfBeat(id) in t.world.replies
  {
    && OfBeat(id) in t.served && t.tickStart <= t.served[OfBeat(id)] <= t.world.now
    && t.world.replies[OfBeat(id)] != NoSession
    && (t.world.replies[OfBeat(id)] == Acknowledged ==> p in t.world.rows && t.served[OfBeat(id)] <= t.world.rows[p])
  }

  ghost predicate ClockOnSchedule(t: Timed, p: string, latency: nat, windowMs: int) {
    var c := t.world.client;
    && (c.timerArmed ==> t.world.now <= t.due <= Latest(t, latency, windowMs))
    && (forall id :: id in c.beats && c.beats[id].onTimer ==> TickOnSchedule(t, id, p, latency, windowMs))
  }

  /** The session is with `p`, its heartbeat runs, its row is live, and the clock is on schedule. */
  ghost predicate OnSchedule(t: Timed, p: string, latency: nat, k: nat, windowMs: int) {
    var w := t.world;
    && Inv(w) && ChainInv(w) && w.started && !w.client.cleaned && Live(w, p)
    && t.heard <= w.rows[p] && t.failures <= k
    && ClockOnSchedule(t, p, latency, windowMs)
  }

  /** A row that is beaten on schedule outlasts every reap: the slowest tick is served within the window. */
  ghost predicate Budget(latency: nat, k: nat, windowMs: int) {
    2 * latency + CadenceFor(windowMs as real) + Delayed(k, latency) <= windowMs
  }

  lemma ChainHasOne(w: World)
    requires ChainInv(w) && w.started && !w.client.cleaned
    ensures w.client.timerArmed <==> !Ticking(w.client)
    ensures forall i, j :: i in TimerFrames(w.client) && j in TimerFrames(w.client) ==> i == j
  {
    var frames := TimerFrames(w.client);
    forall i, j | i in frames && j in frames
      ensures i == j
    {
      if i != j {
        SetOfTwo(frames, i, j);
      }
    }
    if Ticking(w.client) {
      var id :| id in w.client.beats && w.client.beats[id].onTimer;
      assert id in frames;
      assert frames != {};
    } else {
      assert frames == {};
    }
  }

  lemma SetOfTwo(s: set<int>, i: int, j: int)
    requires i in s && j in s && i != j
    ensures |s| >= 2
  {
    assert |s - {i}| == |s| - 1;
    assert j in s - {i};
  }

  /** On schedule, at every moment the row was beaten less than a window ago. */
  lemma ScheduleSpares(t: Timed, e: Event, p: string, latency: nat, k: nat, windowMs: int)
    requires OnSchedule(t, p, latency, k, windowMs) && Budget(latency, k, windowMs) && Timely(t, e, p, latency, k, windowMs)
    ensures t.world.now - t.world.rows[p] <= windowMs && Spares(t.world, e, p)
  {
    var w := t.world;
    ChainHasOne(w);
    DelayedGrows(t.failures, k, latency);
    hide Inv, ChainInv, Delayed, Step, CadenceFor;
    if !w.client.timerArmed {
      var id :| id in w.client.beats && w.client.beats[id].onTimer;
      assert TickOnSchedule(t, id, p, latency, windowMs);
    }
  }

  // ---- Steps that leave the ticks alone ------------------------------------------------------------------------------

  /** The timer, the frames it started and their responses are the same. */
  ghost predicate SameTicks(w: World, v: World) {
    && v.client.timerArmed == w.client.timerArmed
    && (forall id :: id in v.client.beats && v.client.beats[id].onTimer ==>
          && id in w.client.beats && w.client.beats[id] == v.client.beats[id]
          && (OfBeat(id) in v.replies ==> OfBeat(id) in w.replies && v.replies[OfBeat(id)] == w.replies[OfBeat(id)]))
  }

  /** The clock's fields other than `served` are the same, and so is `served` for responses at hand. */
  ghost predicate SameClock(t: Timed, u: Timed) {
    && u.due == t.due && u.tickStart == t.tickStart && u.nextMs == t.nextMs && u.failures == t.failures
    && u.heard == t.heard && u.world.now == t.world.now
    && (forall o :: o in u.world.replies && o in t.served ==> o in u.served && u.served[o] == t.served[o])
  }

  lemma QuietKeepsSchedule(t: Timed, u: Timed, p: string, latency: nat, windowMs: int)
    requires ClockOnSchedule(t, p, latency, windowMs) && SameTicks(t.world, u.world) && SameClock(t, u)
    requires p in t.world.rows ==> p in u.world.rows && t.world.rows[p] <= u.world.rows[p]
    ensures ClockOnSchedule(u, p, latency, windowMs)
  {
    hide CadenceFor, Delayed;
    assert Latest(u, latency, windowMs) == Latest(t, latency, windowMs);
    forall id | id in u.world.client.beats && u.world.client.beats[id].onTimer
      ensures TickOnSchedule(u, id, p, latency, windowMs)
    {
      assert TickOnSchedule(t, id, p, latency, windowMs);
    }
  }

  /** Steps that neither fire nor arm the timer, resume or end one of its frames, serve a call, or pass time. */
  ghost predicate QuietEvent(w: World, e: Event) {
    match e
    case StartHeartbeat => w.started
    case TimerFires => !w.client.timerArmed
    case BeatResumes(id) =>
      !(id in w.client.beats && OfBeat(id) in w.replies && w.client.beats[id].onTimer)
    case SelfRepoBeatEnds(id) =>
      !(id in w.client.beats && w.client.beats[id].onTimer && w.client.beats[id].stage.SelfBeating?)
    case Serve(_, _) => w.client.outbox == []
    case Wait(_) => false
    case CleanupStarts => false
    case _ => true
  }

  lemma ToolCallTicks(c: Client, cwd: string, suspicious: bool, git: Option<bool>)
    requires c.nextBeat !in c.beats
    ensures var v := ToolCall(c, cwd, suspicious, git);
            && v.timerArmed == c.timerArmed
            && forall id :: id in v.beats && v.beats[id].onTimer ==> id in c.beats && v.beats[id] == c.beats[id]
  {
    ToolCallTouches(c, cwd, suspicious, git);
    hide ToolCall;
  }

  lemma OtherBeatTicks(c: Client, id: int, reply: Reply)
    requires Awaits(c, OfBeat(id)) && !c.beats[id].onTimer
    ensures var v := ResumeBeat(c, id, reply);
            && v.timerArmed == c.timerArmed
            && forall j :: j in v.beats && v.beats[j].onTimer ==> j in c.beats && v.beats[j] == c.beats[j]
  {
    ResumeBeatShape(c, id, reply);
    ResumeTimer(c, id, reply);
    hide ResumeBeat;
  }

  /** A frame that ends arms the timer if the timer started it; one that goes on keeps its mark. */
  ghost predicate TimerFollows(c: Client, v: Client, id: int)
    requires id in c.beats
  {
    if id in v.beats then v.timerArmed == c.timerArmed && v.beats[id].onTimer == c.beats[id].onTimer
    else v.timerArmed == (c.timerArmed || c.beats[id].onTimer)
  }

  lemma AfterBeatTimer(c: Client, c1: Client, id: int)
    requires id in c.beats && c1.beats == c.beats && c1.timerArmed == c.timerArmed
    ensures TimerFollows(c, AfterProjectBeat(c1, id), id) && TimerFollows(c, FinishBeat(c1, id), id)
    ensures id !in FinishBeat(c1, id).beats
    ensures id in AfterProjectBeat(c1, id).beats ==> AfterProjectBeat(c1, id).beats[id].stage.SelfBeating?
  {
  }

  lemma ReRegisteringTimer(c: Client, id: int)
    requires id in c.beats && c.beats[id].stage.Beating? && CanRegister(c.(daemonConnected := true))
    ensures TimerFollows(c, ResumeBeat(c, id, NoSession), id)
    ensures var v := ResumeBeat(c, id, NoSession); id in v.beats && v.beats[id].stage.ReRegistering?
  {
  }

  lemma ResumeTimer(c: Client, id: int, reply: Reply)
    requires id in c.beats && !c.beats[id].stage.SelfBeating?
    ensures var v := ResumeBeat(c, id, reply);
            && TimerFollows(c, v, id)
            && (id in v.beats ==> !v.beats[id].stage.Beating?)
            && (c.beats[id].stage.Beating? && reply != Acknowledged && reply != NoSession ==> id !in v.beats)
  {
    hide AfterProjectBeat, FinishBeat, Send, TimerFollows;
    AfterBeatTimer(c, c.(daemonConnected := true), id);
    AfterBeatTimer(c, c.(daemonConnected := false), id);
    AfterBeatTimer(c, ApplyRegistration(c, reply), id);
    if c.beats[id].stage.Beating? && reply == NoSession && CanRegister(c.(daemonConnected := true)) {
      hide ResumeBeat;
      ReRegisteringTimer(c, id);
    }
  }

  lemma OtherSelfRepoTicks(c: Client, id: int)
    requires id in c.beats && (!c.beats[id].onTimer || !c.beats[id].stage.SelfBeating?)
    ensures var v := SelfRepoDone(c, id);
            && v.timerArmed == c.timerArmed
            && forall j :: j in v.beats && v.beats[j].onTimer ==> j in c.beats && v.beats[j] == c.beats[j]
  {
  }

  lemma QuietStepKeepsTicks(w: World, e: Event)
    requires Inv(w) && ChainInv(w) && QuietEvent(w, e)
    ensures SameTicks(w, Step(w, e))
  {
    InvFacts(w);
    hide Inv, ToolCall, ResumeBeat, SelfRepoDone, Chain, BeginBeat, FireTimer;
    var c := w.client;
    match e
    case ToolCallArrives(cwd, suspicious, git) => ToolCallTicks(c, cwd, suspicious, git);
    case BeatResumes(id) =>
      if id in c.beats && OfBeat(id) in w.replies { OtherBeatTicks(c, id, w.replies[OfBeat(id)]); }
    case SelfRepoBeatEnds(id) =>
      if id in c.beats { OtherSelfRepoTicks(c, id); }
    case StartHeartbeat =>
    case TimerFires =>
    case Serve(_, _) =>
    case _ => OtherEventsKeepChain(w, e); OtherReplies(w, e); hide Step;
  }

  lemma OtherReplies(w: World, e: Event)
    requires e.ProjectLookedUp? || e.ActivationResumes? || e.CleanupResumes? || e.Reap? || e.ForgetRows?
    ensures forall o :: o in Step(w, e).replies ==> o in w.replies && Step(w, e).replies[o] == w.replies[o]
  {
    hide ProjectResolved, ResumeActivation, ResumeCleanup;
  }

  lemma QuietStepKeepsClock(t: Timed, e: Event, windowMs: int)
    requires Inv(t.world) && ChainInv(t.world) && QuietEvent(t.world, e)
    ensures SameClock(t, TimedStep(t, e, windowMs))
  {
    QuietStepKeepsTicks(t.world, e);
    if !e.Serve? { RowsOfQuietStep(t.world, e); }
    QuietNow(t.world, e);
    hide Inv, ChainInv, Step;
  }

  lemma QuietNow(w: World, e: Event)
    requires QuietEvent(w, e)
    ensures Step(w, e).now == w.now
  {
    hide BeginBeat, ToolCall, ResumeBeat, ProjectResolved, ResumeActivation, FireTimer, SelfRepoDone, ResumeCleanup;
  }
}
