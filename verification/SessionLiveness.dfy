/** The heartbeat chain, the single activation, stale rows under faults, and what a cleanup leaves behind. */
module SessionLiveness {
  import opened Wrappers
  import opened SessionClient
  import opened SessionProtocol
  import opened SessionTheorems

  // ---- One heartbeat chain ---------------------------------------------------------------------------------

  /** Heartbeat frames the timer started that are still in flight. */
  function TimerFrames(c: Client): set<int> {
    set id | id in c.beats && c.beats[id].onTimer
  }

  /** Armed timers plus timer ticks in flight. */
  function Chain(c: Client): nat {
    (if c.timerArmed then 1 else 0) + |TimerFrames(c)|
  }

  lemma FinishKeepsChain(c: Client, id: int)
    requires id in c.beats && Chain(c) <= 1
    ensures Chain(FinishBeat(c, id)) == Chain(c)
  {
    var c' := FinishBeat(c, id);
    if c.beats[id].onTimer {
      assert TimerFrames(c') == TimerFrames(c) - {id};
    } else {
      assert TimerFrames(c') == TimerFrames(c);
    }
  }

  lemma StageKeepsChain(c: Client, id: int, stage: BeatStage)
    requires id in c.beats
    ensures Chain(c.(beats := c.beats[id := c.beats[id].(stage := stage)])) == Chain(c)
  {
    assert TimerFrames(c.(beats := c.beats[id := c.beats[id].(stage := stage)])) == TimerFrames(c);
  }

  lemma AfterProjectBeatKeepsChain(c: Client, id: int)
    requires id in c.beats && Chain(c) <= 1
    ensures Chain(AfterProjectBeat(c, id)) == Chain(c)
  {
    StageKeepsChain(c, id, SelfBeating);
    FinishKeepsChain(c, id);
  }

  lemma NewFrameChain(c: Client, onTimer: bool, stage: BeatStage)
    requires c.nextBeat !in c.beats
    ensures Chain(c.(beats := c.beats[c.nextBeat := BeatFrame(onTimer, stage)], nextBeat := c.nextBeat + 1))
         == Chain(c) + if onTimer then 1 else 0
  {
    var c' := c.(beats := c.beats[c.nextBeat := BeatFrame(onTimer, stage)]);
    assert TimerFrames(c') == if onTimer then TimerFrames(c) + {c.nextBeat} else TimerFrames(c);
  }

  lemma BeginBeatChain(c: Client, onTimer: bool)
    requires c.nextBeat !in c.beats && Chain(c) + (if onTimer then 1 else 0) <= 1
    ensures Chain(BeginBeat(c, onTimer)) == Chain(c) + if onTimer then 1 else 0
  {
    if c.projectId.Some? {
      NewFrameChain(c, onTimer, Beating(c.projectId.value));
      var c1 := c.(beats := c.beats[c.nextBeat := BeatFrame(onTimer, Beating(c.projectId.value))], nextBeat := c.nextBeat + 1);
      assert BeginBeat(c, onTimer).beats == c1.beats;
    } else {
      NewFrameChain(c, onTimer, SelfBeating);
      var c1 := c.(beats := c.beats[c.nextBeat := BeatFrame(onTimer, SelfBeating)], nextBeat := c.nextBeat + 1);
      AfterProjectBeatKeepsChain(c1, c.nextBeat);
    }
  }

  lemma SameBeatsSameChain(c: Client, c': Client)
    requires c'.beats == c.beats && c'.timerArmed == c.timerArmed
    ensures Chain(c') == Chain(c)
  {
  }

  lemma ResumeBeatKeepsChain(c: Client, id: int, reply: Reply)
    requires id in c.beats && Chain(c) <= 1
    ensures Chain(ResumeBeat(c, id, reply)) == Chain(c)
  {
    var c' := ResumeBeat(c, id, reply);
    match c.beats[id].stage
    case Beating(_) =>
      var c1 := c.(daemonConnected := true);
      SameBeatsSameChain(c, c1);
      if reply == NoSession && CanRegister(c1) {
        StageKeepsChain(c, id, ReRegistering);
        SameBeatsSameChain(c.(beats := c.beats[id := c.beats[id].(stage := ReRegistering)]), c');
      } else if reply == Acknowledged || reply == NoSession {
        AfterProjectBeatKeepsChain(c1, id);
      } else {
        SameBeatsSameChain(c, c.(daemonConnected := false));
        FinishKeepsChain(c.(daemonConnected := false), id);
      }
    case ReRegistering =>
      SameBeatsSameChain(c, ApplyRegistration(c, reply));
      AfterProjectBeatKeepsChain(ApplyRegistration(c, reply), id);
    case SelfBeating =>
  }

  /** The number of chains before the loop starts, while it runs, and after a cleanup. */
  ghost predicate ChainInv(w: World) {
    && w.client.nextBeat !in w.client.beats
    && (!w.started ==> Chain(w.client) == 0)
    && (w.started && !w.client.cleaned ==> Chain(w.client) == 1)
    && Chain(w.client) <= 1
  }

  /** Only the start and a cleanup that finds the timer armed change the number of chains. */
  function ChainAfter(w: World, e: Event): nat {
    if e.StartHeartbeat? && !w.started then 1
    else if e.CleanupStarts? && !w.client.cleaned && w.client.timerArmed then 0
    else Chain(w.client)
  }

  lemma FireTimerKeepsChain(c: Client)
    requires c.nextBeat !in c.beats && c.timerArmed && Chain(c) <= 1
    ensures Chain(FireTimer(c)) == Chain(c)
  {
    var c1 := c.(timerArmed := false);
    assert TimerFrames(c1) == TimerFrames(c);
    BeginBeatChain(c1, true);
  }

  lemma ToolCallKeepsChain(c: Client, cwd: string, suspicious: bool, git: Option<bool>)
    requires c.nextBeat !in c.beats && Chain(c) <= 1
    ensures Chain(ToolCall(c, cwd, suspicious, git)) == Chain(c)
  {
    BeginBeatChain(c, false);
    ToolCallTouches(c, cwd, suspicious, git);
    hide BeginBeat, ToolCall;
    SameBeatsSameChain(BeginBeat(c, false), ToolCall(c, cwd, suspicious, git));
  }

  /** After its heartbeat a tool call touches no heartbeat state. */
  lemma ToolCallTouches(c: Client, cwd: string, suspicious: bool, git: Option<bool>)
    ensures SameChainFields(BeginBeat(c, false), ToolCall(c, cwd, suspicious, git))
  {
    hide BeginBeat;
  }

  lemma StepChain(w: World, e: Event)
    requires Inv(w) && ChainInv(w)
    ensures Chain(Step(w, e).client) == ChainAfter(w, e)
  {
    var c, v := w.client, Step(w, e);
    hide Inv;
    match e
    case StartHeartbeat => if v != w { BeginBeatChain(c, true); }
    case TimerFires => if c.timerArmed { FireTimerKeepsChain(c); }
    case ToolCallArrives(cwd, suspicious, git) => ToolCallKeepsChain(c, cwd, suspicious, git);
    case BeatResumes(id) => if v != w { ResumeBeatKeepsChain(c, id, w.replies[OfBeat(id)]); }
    case SelfRepoBeatEnds(id) => if id in c.beats { FinishKeepsChain(c, id); }
    case CleanupStarts => assert TimerFrames(v.client) == TimerFrames(c);
    case _ => OtherEventsKeepChain(w, e);
  }

  /** The fields that only heartbeats and cleanup touch. */
  ghost predicate SameChainFields(c: Client, c': Client) {
    c'.beats == c.beats && c'.nextBeat == c.nextBeat && c'.timerArmed == c.timerArmed && c'.cleaned == c.cleaned
  }

  lemma SwitchKeepsChainFields(c: Client, cwd: string, info: ProjectInfo, gitWorktree: bool)
    ensures SameChainFields(c, SwitchProject(c, cwd, info, gitWorktree))
  {
    var swapped := Swap(c, info, gitWorktree);
    assert SameChainFields(c, swapped);
    assert SameChainFields(swapped, RegisterForActivation(swapped, cwd));
  }

  lemma LookUpKeepsChainFields(c: Client, info: Option<ProjectInfo>, gitWorktree: bool)
    requires c.activation.Resolving?
    ensures SameChainFields(c, ProjectResolved(c, info, gitWorktree))
  {
    if info.Some? && c.projectId != Some(info.value.projectId) {
      SwitchKeepsChainFields(c, c.activation.cwd, info.value, gitWorktree);
      hide SwitchProject;
    }
  }

  lemma ResumeActivationKeepsChainFields(c: Client, reply: Reply)
    ensures SameChainFields(c, ResumeActivation(c, reply))
  {
    if c.activation.Releasing? {
      assert SameChainFields(c, RegisterForActivation(c, c.activation.cwd));
    } else if c.activation.Activating? {
      assert SameChainFields(c, ApplyRegistration(c, reply));
    }
  }

  lemma OtherEventsKeepChain(w: World, e: Event)
    requires e.ProjectLookedUp? || e.ActivationResumes? || e.CleanupResumes? || e.Serve? || e.Reap? || e.ForgetRows? || e.Wait?
    ensures SameChainFields(w.client, Step(w, e).client)
    ensures Chain(Step(w, e).client) == Chain(w.client)
  {
    hide Chain;
    var v := Step(w, e);
    if e.ProjectLookedUp? && w.client.activation.Resolving? {
      LookUpKeepsChainFields(w.client, e.info, e.gitWorktree);
    }
    if e.ActivationResumes? && OfActivation in w.replies {
      ResumeActivationKeepsChainFields(w.client, w.replies[OfActivation]);
    }
    hide ProjectResolved, ResumeActivation;
    SameBeatsSameChain(w.client, v.client);
  }

  /** Heartbeats leave the `cleaned` flag alone. */
  lemma BeatsKeepCleaned(c: Client, id: int, reply: Reply, onTimer: bool)
    ensures BeginBeat(c, onTimer).cleaned == c.cleaned
    ensures id in c.beats ==> ResumeBeat(c, id, reply).cleaned == c.cleaned && SelfRepoDone(c, id).cleaned == c.cleaned
  {
    assert BeginBeat(c, onTimer).cleaned == c.cleaned;
    if id in c.beats {
      ResumeKeepsCleaned(c, id, reply);
    }
    hide BeginBeat, ResumeBeat;
  }

  lemma ResumeKeepsCleaned(c: Client, id: int, reply: Reply)
    requires id in c.beats
    ensures ResumeBeat(c, id, reply).cleaned == c.cleaned
  {
    assert AfterProjectBeat(c.(daemonConnected := true), id).cleaned == c.cleaned;
    assert AfterProjectBeat(ApplyRegistration(c, reply), id).cleaned == c.cleaned;
  }

  lemma BeginningBeatFlags(w: World, e: Event)
    requires e.StartHeartbeat? || e.TimerFires? || e.ToolCallArrives?
    ensures Step(w, e).started <==> w.started || e.StartHeartbeat?
    ensures Step(w, e).client.cleaned <==> w.client.cleaned
  {
    hide BeginBeat;
    var c := w.client;
    BeatsKeepCleaned(c, 0, Failed, true);
    BeatsKeepCleaned(c, 0, Failed, false);
    BeatsKeepCleaned(c.(timerArmed := false), 0, Failed, true);
  }

  lemma ResumingBeatFlags(w: World, e: Event)
    requires e.BeatResumes? || e.SelfRepoBeatEnds?
    ensures Step(w, e).started <==> w.started
    ensures Step(w, e).client.cleaned <==> w.client.cleaned
  {
    hide BeginBeat, ResumeBeat, SelfRepoDone;
    BeatsKeepCleaned(w.client, e.id, if OfBeat(e.id) in w.replies then w.replies[OfBeat(e.id)] else Failed, false);
  }

  lemma OtherFlags(w: World, e: Event)
    requires !e.StartHeartbeat? && !e.TimerFires? && !e.ToolCallArrives? && !e.BeatResumes? && !e.SelfRepoBeatEnds?
    ensures Step(w, e).started <==> w.started
    ensures Step(w, e).client.cleaned <==> w.client.cleaned || e.CleanupStarts?
  {
    hide ProjectResolved, ResumeActivation;
    if !e.CleanupStarts? {
      OtherEventsKeepChain(w, e);
    }
  }

  lemma StepFlags(w: World, e: Event)
    ensures Step(w, e).started <==> w.started || e.StartHeartbeat?
    ensures Step(w, e).client.cleaned <==> w.client.cleaned || e.CleanupStarts?
  {
    hide Step;
    if e.StartHeartbeat? || e.TimerFires? || e.ToolCallArrives? {
      BeginningBeatFlags(w, e);
    } else if e.BeatResumes? || e.SelfRepoBeatEnds? {
      ResumingBeatFlags(w, e);
    } else {
      OtherFlags(w, e);
    }
  }

  lemma StepKeepsChainInv(w: World, e: Event)
    requires Inv(w) && ChainInv(w)
    ensures ChainInv(Step(w, e))
  {
    StepChain(w, e);
    StepKeepsInv(w, e);
    StepFlags(w, e);
    InvFacts(Step(w, e));
    hide Inv, Chain, Step;
  }

  lemma {:induction false} RunKeepsChainInv(w: World, es: seq<Event>)
    requires Inv(w) && ChainInv(w)
    ensures ChainInv(Run(w, es))
    decreases |es|
  {
    hide Inv, ChainInv;
    if es != [] {
      StepKeepsInv(w, es[0]);
      StepKeepsChainInv(w, es[0]);
      RunKeepsChainInv(Step(w, es[0]), es[1..]);
    }
  }

  /** Whatever calls fail, from the start of the loop until cleanup exactly one timer is armed or in flight. */
  lemma HeartbeatNeverStops(w: World, es: seq<Event>)
    requires Init(w)
    ensures var v := Run(w, es); v.started && !v.client.cleaned ==> Chain(v.client) == 1
  {
    InitHasInv(w);
    assert TimerFrames(w.client) == {};
    RunKeepsChainInv(w, es);
  }

  lemma {:induction false} ChainAfterCleanup(w: World, es: seq<Event>)
    requires Inv(w) && ChainInv(w) && w.client.cleaned
    ensures Chain(Run(w, es).client)
         == if !w.started && StartHeartbeat in es then 1 else Chain(w.client)
    decreases |es|
  {
    if es != [] {
      StepChain(w, es[0]);
      StepFlags(w, es[0]);
      StepKeepsInv(w, es[0]);
      StepKeepsChainInv(w, es[0]);
      hide Inv, Chain, Step;
      assert StartHeartbeat in es <==> es[0] == StartHeartbeat || StartHeartbeat in es[1..];
      ChainAfterCleanup(Step(w, es[0]), es[1..]);
    }
  }

  /** What a cleanup does to the heartbeat, at any moment of any run and in every continuation. After the start it ends
      the chain exactly when it finds the timer armed: a tick in flight re-arms the timer and goes on beating. Before
      the start it stops nothing: a start that comes later leaves a chain that no cleanup ends any more. */
  lemma CleanupStopsChainIffTimerArmed(w: World, es: seq<Event>, more: seq<Event>)
    requires Init(w)
    requires !Run(w, es).client.cleaned
    ensures var v := Run(w, es);
            Chain(Run(Step(v, CleanupStarts), more).client) ==
            if v.started then (if v.client.timerArmed then 0 else 1)
            else (if StartHeartbeat in more then 1 else 0)
  {
    var v := Run(w, es);
    InitHasInv(w);
    assert TimerFrames(w.client) == {};
    RunKeepsChainInv(w, es);
    RunKeepsInv(w, es);
    StepChain(v, CleanupStarts);
    StepKeepsInv(v, CleanupStarts);
    StepKeepsChainInv(v, CleanupStarts);
    StepFlags(v, CleanupStarts);
    assert v.started ==> Chain(v.client) == 1;
    hide Inv, Chain, Step, Run;
    ChainAfterCleanup(Step(v, CleanupStarts), more);
  }

  /** Both cases occur: right after the start of a session with a project the tick is in flight and the timer is not
      armed, and a cleanup then leaves the chain beating. */
  lemma TickInFlightSurvivesCleanup(w: World, more: seq<Event>)
    requires Init(w) && w.client.projectId.Some?
    ensures var v := Run(w, [StartHeartbeat]);
            && v.started && !v.client.cleaned && !v.client.timerArmed
            && Chain(Run(Step(v, CleanupStarts), more).client) == 1
  {
    assert [StartHeartbeat][1..] == [];
    assert Run(w, [StartHeartbeat]) == Step(w, StartHeartbeat) by { RunOne(w, [StartHeartbeat]); }
    CleanupStopsChainIffTimerArmed(w, [StartHeartbeat], more);
  }

  // ---- One activation --------------------------------------------------------------------------------------

  /** At most one activation frame is live and `activatingCwd` says so; while none holds the session's project, the
      activated directory resolved to exactly the project the session points at. */
  lemma OneActivation(w: World, es: seq<Event>)
    requires Init(w)
    ensures var c := Run(w, es).client;
            && (c.activatingCwd.Some? <==> c.activation != Idle)
            && (c.activatingCwd.Some? ==> c.activatingCwd.value == c.activation.cwd)
            && (c.activation == Idle && c.activatedForCwd.Some? ==>
                  && c.activatedForCwd.value in Run(w, es).resolved
                  && c.projectId == Some(Run(w, es).resolved[c.activatedForCwd.value]))
  {
    InitHasInv(w);
    RunKeepsInv(w, es);
  }

  // ---- Stale rows ------------------------------------------------------------------------------------------

  /** A call in the queue that would refresh or create the row of `p`. */
  ghost predicate RefreshIn(q: seq<Call>, p: string) {
    exists i :: 0 <= i < |q| && !q[i].rpc.Deprioritize? && q[i].rpc.project == p
  }

  /** A client segment issues at most one call: a release of the project it found current, or a refresh of the project
      it leaves current. */
  ghost predicate IssuesForCurrent(c: Client, c': Client) {
    || c'.outbox == c.outbox
    || exists call :: c'.outbox == c.outbox + [call]
                      && (if call.rpc.Deprioritize? then c.projectId else c'.projectId) == Some(call.rpc.project)
  }

  lemma BeginBeatIssues(c: Client, onTimer: bool)
    ensures IssuesForCurrent(c, BeginBeat(c, onTimer)) && BeginBeat(c, onTimer).projectId == c.projectId
  {
    if c.projectId.Some? {
      assert BeginBeat(c, onTimer).outbox == c.outbox + [Call(OfBeat(c.nextBeat), Beat(c.projectId.value))];
    }
  }

  lemma ToolCallIssues(c: Client, cwd: string, suspicious: bool, git: Option<bool>)
    ensures IssuesForCurrent(c, ToolCall(c, cwd, suspicious, git))
  {
    BeginBeatIssues(c, false);
    hide BeginBeat;
    var c1 := BeginBeat(c, false);
    assert ToolCall(c, cwd, suspicious, git).outbox == c1.outbox;
    assert ToolCall(c, cwd, suspicious, git).projectId == c1.projectId;
  }

  lemma SwitchIssuesForCurrent(c: Client, cwd: string, info: ProjectInfo, gitWorktree: bool)
    ensures IssuesForCurrent(c, SwitchProject(c, cwd, info, gitWorktree))
  {
    var c' := SwitchProject(c, cwd, info, gitWorktree);
    if c.projectId.Some? {
      assert c'.outbox == c.outbox + [Call(OfActivation, Deprioritize(c.projectId.value, PathScoped(c)))];
    } else {
      assert c'.outbox == c.outbox + [Call(OfActivation, Register(info.projectId))];
    }
  }

  lemma LookUpIssues(c: Client, info: Option<ProjectInfo>, gitWorktree: bool)
    requires c.activation.Resolving?
    ensures IssuesForCurrent(c, ProjectResolved(c, info, gitWorktree))
  {
    if info.Some? && c.projectId != Some(info.value.projectId) {
      SwitchIssuesForCurrent(c, c.activation.cwd, info.value, gitWorktree);
      hide SwitchProject;
    }
  }

  lemma ResumeActivationIssues(c: Client, reply: Reply)
    ensures IssuesForCurrent(c, ResumeActivation(c, reply))
  {
    if c.activation.Releasing? && CanRegister(c) {
      assert ResumeActivation(c, reply).outbox == c.outbox + [Call(OfActivation, Register(c.projectId.value))];
    }
  }

  lemma CleanupIssues(c: Client)
    ensures IssuesForCurrent(c, Cleanup(c))
  {
    if !c.cleaned && c.projectId.Some? && c.daemonConnected {
      assert Cleanup(c).outbox == c.outbox + [Call(OfCleanup, Deprioritize(c.projectId.value, PathScoped(c)))];
    }
  }

  lemma StartIssues(w: World)
    ensures IssuesForCurrent(w.client, Step(w, StartHeartbeat).client)
  {
    hide BeginBeat;
    BeginBeatIssues(w.client, true);
  }

  lemma TimerIssues(w: World)
    ensures IssuesForCurrent(w.client, Step(w, TimerFires).client)
  {
    hide BeginBeat;
    BeginBeatIssues(w.client.(timerArmed := false), true);
  }

  lemma ResumeBeatIssues(w: World, id: int)
    requires Inv(w)
    ensures IssuesForCurrent(w.client, Step(w, BeatResumes(id)).client)
  {
    InvFacts(w);
    hide Inv, ResumeBeat;
    if id in w.client.beats && OfBeat(id) in w.replies {
      ResumeBeatShape(w.client, id, w.replies[OfBeat(id)]);
    }
  }

  /** Apart from the daemon taking the oldest call, every step issues refreshes for the then-current project only. */
  lemma StepIssuesForCurrent(w: World, e: Event)
    requires Inv(w) && !e.Serve?
    ensures IssuesForCurrent(w.client, Step(w, e).client)
  {
    hide Inv, BeginBeat, ToolCall, ResumeBeat, ProjectResolved, ResumeActivation, Cleanup, IssuesForCurrent;
    var c := w.client;
    match e
    case StartHeartbeat => hide Step; StartIssues(w);
    case TimerFires => hide Step; TimerIssues(w);
    case BeatResumes(id) => hide Step; ResumeBeatIssues(w, id);
    case ToolCallArrives(cwd, suspicious, git) => ToolCallIssues(c, cwd, suspicious, git);
    case ProjectLookedUp(info, gitWorktree) =>
      NothingIssued(c, c);
      if c.activation.Resolving? { LookUpIssues(c, info, gitWorktree); }
    case ActivationResumes =>
      NothingIssued(c, c);
      if OfActivation in w.replies { ResumeActivationIssues(c, w.replies[OfActivation]); }
    case CleanupStarts => CleanupIssues(c);
    case _ => NothingIssued(c, Step(w, e).client);
  }

  lemma NothingIssued(c: Client, c': Client)
    requires c'.outbox == c.outbox && c'.projectId == c.projectId
    ensures IssuesForCurrent(c, c')
  {
  }

  lemma IssuedBehind(c: Client, c': Client)
    requires IssuesForCurrent(c, c')
    ensures c.outbox <= c'.outbox
  {
  }

  lemma NoRefreshAdded(w: World, e: Event, p: string)
    requires Inv(w) && !RefreshIn(w.client.outbox, p) && Step(w, e).client.projectId != Some(p)
    ensures !RefreshIn(Step(w, e).client.outbox, p)
  {
    var q, q' := w.client.outbox, Step(w, e).client.outbox;
    if e.Serve? {
      assert q' == if q == [] then q else q[1..];
    } else {
      StepIssuesForCurrent(w, e);
      hide Step, Inv;
      forall i | 0 <= i < |q'| && !q'[i].rpc.Deprioritize? ensures q'[i].rpc.project != p {
        assert i < |q| ==> q[i] == q'[i];
      }
    }
  }

  /** With no refresh of `p` queued, no step creates or refreshes its row. */
  lemma RowNotRefreshed(w: World, e: Event, p: string)
    requires !RefreshIn(w.client.outbox, p)
    ensures p in Step(w, e).rows ==> p in w.rows && Step(w, e).rows[p] == w.rows[p]
  {
    if e.Serve? && w.client.outbox != [] {
      var head := w.client.outbox[0];
      assert head.rpc.Deprioritize? || head.rpc.project != p;
    }
  }

  /** The session points elsewhere in every state of the run. */
  ghost predicate NeverCurrent(w: World, es: seq<Event>, p: string)
    decreases |es|
  {
    w.client.projectId != Some(p) && (es != [] ==> NeverCurrent(Step(w, es[0]), es[1..], p))
  }

  /** A project the session left: until a switch back, whatever is lost, no beat and no re-register touches its row. */
  lemma {:induction false} StaleRowUntouched(w: World, es: seq<Event>, p: string)
    requires Inv(w) && NeverCurrent(w, es, p) && !RefreshIn(w.client.outbox, p)
    ensures var v := Run(w, es); p in v.rows ==> p in w.rows && v.rows[p] == w.rows[p]
    decreases |es|
  {
    if es != [] {
      StepKeepsInv(w, es[0]);
      assert NeverCurrent(Step(w, es[0]), es[1..], p);
      NoRefreshAdded(w, es[0], p);
      RowNotRefreshed(w, es[0], p);
      hide Inv, Step;
      StaleRowUntouched(Step(w, es[0]), es[1..], p);
    }
  }

  /** From position `n` of the queue on, nothing refreshes the row of `p`. */
  ghost predicate NoRefreshFrom(q: seq<Call>, n: int, p: string) {
    forall i :: 0 <= i < |q| && n <= i ==> q[i].rpc.Deprioritize? || q[i].rpc.project != p
  }

  function Serves(es: seq<Event>): nat
    decreases |es|
  {
    if es == [] then 0 else (if es[0].Serve? then 1 else 0) + Serves(es[1..])
  }

  lemma DrainServed(q: seq<Call>, n: int, p: string)
    requires NoRefreshFrom(q, n, p)
    ensures NoRefreshFrom(if q == [] then q else q[1..], n - 1, p)
  {
    var tail := if q == [] then q else q[1..];
    assert forall i, j :: 0 <= i < |tail| && j == i + 1 ==> tail[i] == q[j];
  }

  lemma DrainIssued(c: Client, c': Client, n: int, p: string)
    requires IssuesForCurrent(c, c') && c'.projectId != Some(p) && NoRefreshFrom(c.outbox, n, p)
    ensures NoRefreshFrom(c'.outbox, n, p)
  {
    var q, q' := c.outbox, c'.outbox;
    forall i | 0 <= i < |q'| && n <= i ensures q'[i].rpc.Deprioritize? || q'[i].rpc.project != p {
      assert i < |q| ==> q[i] == q'[i];
    }
  }

  lemma StepDrains(w: World, e: Event, n: int, p: string)
    requires Inv(w) && Step(w, e).client.projectId != Some(p) && NoRefreshFrom(w.client.outbox, n, p)
    ensures NoRefreshFrom(Step(w, e).client.outbox, if e.Serve? then n - 1 else n, p)
  {
    hide Inv, NoRefreshFrom, IssuesForCurrent;
    if e.Serve? {
      DrainServed(w.client.outbox, n, p);
    } else {
      hide Step;
      StepIssuesForCurrent(w, e);
      DrainIssued(w.client, Step(w, e).client, n, p);
    }
  }

  lemma DrainedHasNoRefresh(q: seq<Call>, n: int, p: string)
    requires NoRefreshFrom(q, n, p) && n <= 0
    ensures !RefreshIn(q, p)
  {
  }

  /** What was already queued for the old project when the session left it is all that can still refresh its row:
      once the daemon has served that much of the queue, no refresh is left. */
  lemma {:induction false} RefreshesDrain(w: World, es: seq<Event>, n: int, p: string)
    requires Inv(w) && NeverCurrent(w, es, p) && NoRefreshFrom(w.client.outbox, n, p)
    ensures NoRefreshFrom(Run(w, es).client.outbox, n - Serves(es), p)
    ensures n <= Serves(es) ==> !RefreshIn(Run(w, es).client.outbox, p)
    decreases |es|
  {
    hide Inv, Step, NoRefreshFrom, RefreshIn;
    if es != [] {
      var v := Step(w, es[0]);
      StepKeepsInv(w, es[0]);
      assert v.client.projectId != Some(p);
      StepDrains(w, es[0], n, p);
      RefreshesDrain(v, es[1..], if es[0].Serve? then n - 1 else n, p);
    }
    if n <= Serves(es) {
      DrainedHasNoRefresh(Run(w, es).client.outbox, n - Serves(es), p);
    }
  }

  /** So the reaper removes it within one timeout of its last beat, even if its release was lost. */
  lemma StaleRowReaped(w: World, es: seq<Event>, p: string, timeoutMs: int)
    requires Inv(w) && NeverCurrent(w, es, p) && !RefreshIn(w.client.outbox, p)
    requires p in w.rows ==> Run(w, es).now - w.rows[p] > timeoutMs
    ensures p !in Step(Run(w, es), Reap(timeoutMs)).rows
  {
    StaleRowUntouched(w, es, p);
  }

  /** Apart from calls the daemon serves, only the reaper and a loss of all rows change the rows. */
  lemma RowsOfQuietStep(w: World, e: Event)
    requires !e.Serve?
    ensures Step(w, e).now >= w.now
    ensures !e.Reap? && !e.ForgetRows? ==> Step(w, e).rows == w.rows
    ensures e.Reap? ==> Step(w, e).rows == ReapRows(w.rows, w.now, e.timeoutMs)
  {
    hide BeginBeat, ToolCall, ResumeBeat, ProjectResolved, ResumeActivation, Cleanup, FireTimer, SelfRepoDone;
  }

  // ---- Self-healing ----------------------------------------------------------------------------------------

  function HealingRound(id: int, outcome: RegisterOutcome): seq<Event> {
    [TimerFires, Serve(Delivered, outcome), BeatResumes(id), Serve(Delivered, outcome)]
  }

  lemma TimerBeats(w: World)
    requires w.client.outbox == [] && w.client.timerArmed && CanRegister(w.client)
    ensures var id, p := w.client.nextBeat, w.client.projectId.value;
            var v := Step(w, TimerFires);
            && v.client.outbox == [Call(OfBeat(id), Beat(p))] && CanRegister(v.client) && v.client.projectId == Some(p)
            && id in v.client.beats && v.client.beats[id].stage == Beating(p)
            && v.rows == w.rows && v.replies == w.replies && v.now == w.now
  {
  }

  lemma ServeBeat(w: World, id: int, p: string, outcome: RegisterOutcome)
    requires w.client.outbox == [Call(OfBeat(id), Beat(p))]
    ensures var v := Step(w, Serve(Delivered, outcome));
            && v.client == w.client.(outbox := []) && v.now == w.now
            && v.replies == w.replies[OfBeat(id) := if p in w.rows then Acknowledged else NoSession]
            && v.rows == (if p in w.rows then w.rows[p := w.now] else w.rows)
  {
  }

  lemma UnknownBeatReRegisters(w: World, id: int, p: string)
    requires w.client.outbox == [] && CanRegister(w.client) && w.client.projectId == Some(p)
    requires id in w.client.beats && w.client.beats[id].stage == Beating(p)
    requires OfBeat(id) in w.replies && w.replies[OfBeat(id)] == NoSession
    ensures var v := Step(w, BeatResumes(id));
            && v.client.outbox == [Call(OfBeat(id), Register(p))] && v.client.daemonConnected
            && v.rows == w.rows && v.now == w.now
  {
  }

  lemma AckedBeatIssuesNothing(w: World, id: int, outcome: RegisterOutcome)
    requires w.client.outbox == [] && id in w.client.beats && w.client.beats[id].stage.Beating?
    requires OfBeat(id) in w.replies && w.replies[OfBeat(id)] == Acknowledged
    ensures var v := Step(Step(w, BeatResumes(id)), Serve(Delivered, outcome));
            v.rows == w.rows && v.client.outbox == []
  {
    AcknowledgedBeatEnds(w, id);
  }

  /** One heartbeat round without a fault re-creates the current project's row however it was lost, or refreshes it. */
  lemma HeartbeatHeals(w: World, outcome: RegisterOutcome)
    requires w.client.outbox == [] && w.client.timerArmed && CanRegister(w.client) && outcome.upsert
    ensures var v := Run(w, HealingRound(w.client.nextBeat, outcome));
            && w.client.projectId.value in v.rows && v.rows[w.client.projectId.value] == w.now
            && v.client.outbox == []
  {
    var id, p := w.client.nextBeat, w.client.projectId.value;
    var es := HealingRound(id, outcome);
    TimerBeats(w);
    hide Step, CanRegister, Run;
    var w1 := Step(w, es[0]);
    ServeBeat(w1, id, p, outcome);
    var w2 := Step(w1, es[1]);
    assert CanRegister(w2.client) by { CanRegisterCarries(w1.client, w2.client); }
    if p in w.rows {
      AckedBeatIssuesNothing(w2, id, outcome);
    } else {
      UnknownBeatReRegisters(w2, id, p);
      ServeRegister(Step(w2, es[2]), OfBeat(id), p, outcome);
    }
    RunFour(w, es);
  }

  lemma RunFour(w: World, es: seq<Event>)
    requires |es| == 4
    ensures Run(w, es) == Step(Step(Step(Step(w, es[0]), es[1]), es[2]), es[3])
  {
    hide Step;
    assert es[1..][1..] == es[2..] && es[2..][1..] == es[3..] && es[3..][1..] == [];
    RunOne(w, es);
    RunOne(Step(w, es[0]), es[1..]);
    RunOne(Step(Step(w, es[0]), es[1]), es[2..]);
    RunOne(Step(Step(Step(w, es[0]), es[1]), es[2]), es[3..]);
  }

  // ---- Cleanup ---------------------------------------------------------------------------------------------

  /** Nothing of the session is left to act: no timer, no frame, no call, no response. */
  ghost predicate Dead(w: World) {
    && w.started && w.client.cleaned && !w.client.timerArmed && w.client.beats == map[] && w.client.activation == Idle
    && w.client.outbox == [] && w.replies == map[]
  }

  ghost predicate NoToolCalls(es: seq<Event>) {
    forall i :: 0 <= i < |es| ==> !es[i].ToolCallArrives?
  }

  lemma {:induction false} DeadStaysDead(w: World, es: seq<Event>)
    requires Dead(w) && NoToolCalls(es)
    ensures Dead(Run(w, es)) && forall p :: p in Run(w, es).rows ==> p in w.rows
    decreases |es|
  {
    if es != [] {
      var v := Step(w, es[0]);
      assert Dead(v) && forall p :: p in v.rows ==> p in w.rows;
      hide Step, Dead;
      DeadStaysDead(v, es[1..]);
    }
  }

  /** A cleanup that finds no heartbeat and no activation in flight, whose release is delivered, kills the session for
      good; its row is gone exactly when the daemon was connected and the session was no known worktree. */
  lemma CleanupIsFinal(w: World, outcome: RegisterOutcome, more: seq<Event>)
    requires Inv(w) && w.started && !w.client.cleaned && w.client.timerArmed && w.client.beats == map[]
    requires w.client.activation == Idle
    requires w.client.projectId.Some? && w.client.projectId.value in w.rows && NoToolCalls(more)
    ensures var v := Run(w, [CleanupStarts, Serve(Delivered, outcome), CleanupResumes]);
            && Dead(v)
            && (w.client.projectId.value !in v.rows <==> w.client.daemonConnected && !PathScoped(w.client))
            && Dead(Run(v, more)) && forall p :: p in Run(v, more).rows ==> p in v.rows
  {
    var p := w.client.projectId.value;
    var es := [CleanupStarts, Serve(Delivered, outcome), CleanupResumes];
    var w1 := Step(w, es[0]);
    var w2 := Step(w1, es[1]);
    var w3 := Step(w2, es[2]);
    CleanupDrains(w, outcome);
    RunThree(w, es);
    DeadStaysDead(w3, more);
  }

  lemma RunThree(w: World, es: seq<Event>)
    requires |es| == 3
    ensures Run(w, es) == Step(Step(Step(w, es[0]), es[1]), es[2])
  {
    hide Step;
    assert es[1..][1..] == es[2..] && es[2..][1..] == [];
    RunOne(w, es);
    RunOne(Step(w, es[0]), es[1..]);
    RunOne(Step(Step(w, es[0]), es[1]), es[2..]);
  }

  lemma CleanupDrains(w: World, outcome: RegisterOutcome)
    requires Inv(w) && w.started && !w.client.cleaned && w.client.timerArmed && w.client.beats == map[]
    requires w.client.activation == Idle
    requires w.client.projectId.Some? && w.client.projectId.value in w.rows
    ensures var v := Step(Step(Step(w, CleanupStarts), Serve(Delivered, outcome)), CleanupResumes);
            && Dead(v)
            && (w.client.projectId.value !in v.rows <==> w.client.daemonConnected && !PathScoped(w.client))
  {
    var p := w.client.projectId.value;
    assert forall o :: !Awaits(w.client, o);
    SettledIsDrained(w);
    hide Inv;
    var w1 := Step(w, CleanupStarts);
    if w.client.daemonConnected {
      assert w1.client.outbox == [Call(OfCleanup, Deprioritize(p, PathScoped(w.client)))];
      var w2 := Step(w1, Serve(Delivered, outcome));
      assert w2.replies == map[OfCleanup := Released];
      assert w2.client == w1.client.(outbox := []);
      assert w2.replies - {OfCleanup} == map[];
    }
  }
}
