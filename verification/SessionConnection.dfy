/** When a session looks its project up, and what the connection flag decides. */
module SessionConnection {
  import opened Wrappers
  import opened SessionClient
  import opened SessionProtocol

  // ---- What heartbeats leave alone -----------------------------------------------------------------------------

  /** Project, activation and teardown are the same. */
  ghost predicate SameRecord(c: Client, d: Client) {
    && d.projectId == c.projectId && d.projectPath == c.projectPath && d.activation == c.activation
    && d.activatingCwd == c.activatingCwd && d.activatedForCwd == c.activatedForCwd && d.teardown == c.teardown
  }

  lemma AfterBeatRecord(c: Client, id: int)
    requires id in c.beats
    ensures SameRecord(c, AfterProjectBeat(c, id)) && SameRecord(c, FinishBeat(c, id))
    ensures AfterProjectBeat(c, id).daemonConnected == FinishBeat(c, id).daemonConnected == c.daemonConnected
    ensures AfterProjectBeat(c, id).isWorktree == c.isWorktree && AfterProjectBeat(c, id).outbox == c.outbox
  {
  }

  lemma BeginBeatRecord(c: Client, onTimer: bool)
    ensures var d := BeginBeat(c, onTimer);
            && SameRecord(c, d) && d.daemonConnected == c.daemonConnected && d.isWorktree == c.isWorktree
            && d.outbox == c.outbox + (if c.projectId.Some? then [Call(OfBeat(c.nextBeat), Beat(c.projectId.value))] else [])
  {
    hide AfterProjectBeat, SameRecord;
    if c.projectId.None? {
      var c1 := c.(nextBeat := c.nextBeat + 1, beats := c.beats[c.nextBeat := BeatFrame(onTimer, SelfBeating)]);
      AfterBeatRecord(c1, c.nextBeat);
      SameRecordThrough(c, c1, BeginBeat(c, onTimer));
    } else {
      SameRecordBySend(c, onTimer);
    }
  }

  lemma SameRecordBySend(c: Client, onTimer: bool)
    requires c.projectId.Some?
    ensures SameRecord(c, BeginBeat(c, onTimer))
  {
  }

  lemma SameRecordThrough(c: Client, c1: Client, d: Client)
    requires c1.projectId == c.projectId && c1.projectPath == c.projectPath && c1.activation == c.activation
    requires c1.activatingCwd == c.activatingCwd && c1.activatedForCwd == c.activatedForCwd && c1.teardown == c.teardown
    requires SameRecord(c1, d)
    ensures SameRecord(c, d)
  {
  }

  lemma ApplyRecord(c: Client, reply: Reply)
    ensures var d := ApplyRegistration(c, reply);
            SameRecord(c, d) && d.daemonConnected == c.daemonConnected && d.beats == c.beats
  {
  }

  lemma ReRegisterRecord(c: Client, id: int)
    requires id in c.beats && c.beats[id].stage.Beating? && CanRegister(c.(daemonConnected := true))
    ensures SameRecord(c, ResumeBeat(c, id, NoSession)) && ResumeBeat(c, id, NoSession).daemonConnected
  {
  }

  lemma ProjectBeatRecord(c: Client, id: int, reply: Reply)
    requires id in c.beats && c.beats[id].stage.Beating?
    requires !(reply == NoSession && CanRegister(c.(daemonConnected := true)))
    ensures var connected := reply == Acknowledged || reply == NoSession;
            ResumeBeat(c, id, reply) == if connected then AfterProjectBeat(c.(daemonConnected := true), id)
                                        else FinishBeat(c.(daemonConnected := false), id)
  {
    hide AfterProjectBeat, FinishBeat;
  }

  /** A resumed heartbeat changes the connection flag, with a project beat's response, and nothing of the record. */
  lemma ResumeRecord(c: Client, id: int, reply: Reply)
    requires id in c.beats
    ensures SameRecord(c, ResumeBeat(c, id, reply))
    ensures ResumeBeat(c, id, reply).daemonConnected
         == if c.beats[id].stage.Beating? then reply == Acknowledged || reply == NoSession else c.daemonConnected
  {
    hide AfterProjectBeat, FinishBeat, ApplyRegistration;
    match c.beats[id].stage
    case Beating(_) =>
      hide ResumeBeat;
      if reply == NoSession && CanRegister(c.(daemonConnected := true)) {
        ReRegisterRecord(c, id);
      } else {
        ProjectBeatRecord(c, id, reply);
        AfterBeatRecord(c.(daemonConnected := true), id);
        AfterBeatRecord(c.(daemonConnected := false), id);
      }
    case ReRegistering =>
      ApplyRecord(c, reply);
      AfterBeatRecord(ApplyRegistration(c, reply), id);
    case SelfBeating =>
  }

  lemma SelfRepoRecord(c: Client, id: int)
    requires id in c.beats
    ensures SameRecord(c, SelfRepoDone(c, id)) && SelfRepoDone(c, id).daemonConnected == c.daemonConnected
  {
  }

  // ---- The connection flag -------------------------------------------------------------------------------------

  /** The event hands a project beat its response. */
  ghost predicate AnswersBeat(w: World, e: Event) {
    && e.BeatResumes? && e.id in w.client.beats && w.client.beats[e.id].stage.Beating? && OfBeat(e.id) in w.replies
  }

  lemma ActivationConnection(c: Client, reply: Reply)
    ensures ResumeActivation(c, reply).daemonConnected == c.daemonConnected
  {
  }

  lemma LookUpConnection(c: Client, info: Option<ProjectInfo>, gitWorktree: bool)
    requires c.activation.Resolving?
    ensures ProjectResolved(c, info, gitWorktree).daemonConnected == c.daemonConnected
  {
  }

  /** The flag is what the last answered beat said: connected when the daemon answered it, known row or not. */
  lemma ConnectionFollowsBeats(w: World, e: Event)
    ensures Step(w, e).client.daemonConnected
         == if AnswersBeat(w, e) then w.replies[OfBeat(e.id)] == Acknowledged || w.replies[OfBeat(e.id)] == NoSession
            else w.client.daemonConnected
  {
    hide ResumeBeat, BeginBeat, ResumeActivation, ProjectResolved, SelfRepoDone;
    var c := w.client;
    match e
    case StartHeartbeat => BeginBeatRecord(c, true);
    case TimerFires => BeginBeatRecord(c.(timerArmed := false), true);
    case ToolCallArrives(_, _, _) => BeginBeatRecord(c, false);
    case ProjectLookedUp(info, gitWorktree) =>
      if c.activation.Resolving? { LookUpConnection(c, info, gitWorktree); }
    case ActivationResumes =>
      if OfActivation in w.replies { ActivationConnection(c, w.replies[OfActivation]); }
    case BeatResumes(id) =>
      if id in c.beats && OfBeat(id) in w.replies { ResumeRecord(c, id, w.replies[OfBeat(id)]); }
    case SelfRepoBeatEnds(id) => if id in c.beats { SelfRepoRecord(c, id); }
    case _ =>
  }

  // ---- When a look-up starts -----------------------------------------------------------------------------------

  /** The tool call asks for a look-up that no guard refuses. */
  predicate Opens(w: World, e: Event) {
    && e.ToolCallArrives? && e.cwd != "" && !e.suspicious && w.client.daemonConnected
    && w.client.activatedForCwd != Some(e.cwd) && w.client.activation == Idle
  }

  lemma ToolCallOpens(c: Client, cwd: string, suspicious: bool, git: Option<bool>)
    requires c.activatingCwd.Some? <==> c.activation != Idle
    ensures var d := ToolCall(c, cwd, suspicious, git);
            && d.activation == (if && cwd != "" && !suspicious && c.daemonConnected && c.activatedForCwd != Some(cwd)
                                   && c.activation == Idle
                                then Resolving(cwd) else c.activation)
            && d.projectId == c.projectId && d.projectPath == c.projectPath && d.activatedForCwd == c.activatedForCwd
            && d.isWorktree == (if git.Some? && c.projectPath.Some? then git.value else c.isWorktree)
            && d.outbox == c.outbox + (if c.projectId.Some? then [Call(OfBeat(c.nextBeat), Beat(c.projectId.value))] else [])
            && d.teardown == c.teardown
  {
    hide BeginBeat;
    BeginBeatRecord(c, false);
  }

  /** A tool call beats the current project, takes over a known git state, and starts a look-up exactly when no guard
      refuses it. */
  lemma ToolCallDoes(w: World, cwd: string, suspicious: bool, git: Option<bool>)
    requires Inv(w)
    ensures var e := ToolCallArrives(cwd, suspicious, git);
            var c, v := w.client, Step(w, e);
            && v.client.activation == (if Opens(w, e) then Resolving(cwd) else c.activation)
            && v.client.projectId == c.projectId && v.client.projectPath == c.projectPath
            && v.client.isWorktree == (if git.Some? && c.projectPath.Some? then git.value else c.isWorktree)
            && v.client.outbox
               == c.outbox + (if c.projectId.Some? then [Call(OfBeat(c.nextBeat), Beat(c.projectId.value))] else [])
  {
    ToolCallOpens(w.client, cwd, suspicious, git);
  }

  /** No tool call of the run asks for a look-up that is granted. */
  ghost predicate NoneOpens(w: World, es: seq<Event>)
    decreases |es|
  {
    es == [] || (!Opens(w, es[0]) && NoneOpens(Step(w, es[0]), es[1..]))
  }

  lemma ClosedStepKeepsProject(w: World, e: Event)
    requires Inv(w) && w.client.activation == Idle && !Opens(w, e)
    ensures var d := Step(w, e).client;
            d.projectId == w.client.projectId && d.projectPath == w.client.projectPath && d.activation == Idle
  {
    hide ResumeBeat, BeginBeat, ToolCall, Inv, Opens, SelfRepoDone;
    var c := w.client;
    match e
    case StartHeartbeat => BeginBeatRecord(c, true);
    case TimerFires => BeginBeatRecord(c.(timerArmed := false), true);
    case ToolCallArrives(cwd, suspicious, git) => ToolCallDoes(w, cwd, suspicious, git);
    case BeatResumes(id) =>
      if id in c.beats && OfBeat(id) in w.replies { ResumeRecord(c, id, w.replies[OfBeat(id)]); }
    case SelfRepoBeatEnds(id) => if id in c.beats { SelfRepoRecord(c, id); }
    case _ =>
  }

  /** Without a granted look-up a session never changes its project, whatever else happens. */
  lemma {:induction false} ProjectStays(w: World, es: seq<Event>)
    requires Inv(w) && w.client.activation == Idle && NoneOpens(w, es)
    ensures var d := Run(w, es).client;
            d.projectId == w.client.projectId && d.projectPath == w.client.projectPath && d.activation == Idle
    decreases |es|
  {
    hide Inv, Step, Opens;
    if es != [] {
      StepKeepsInv(w, es[0]);
      ClosedStepKeepsProject(w, es[0]);
      ProjectStays(Step(w, es[0]), es[1..]);
    }
  }

  /** No beat of the run is answered. */
  ghost predicate NoBeatAnswered(w: World, es: seq<Event>)
    decreases |es|
  {
    es == [] || (!(AnswersBeat(w, es[0]) && Step(w, es[0]).client.daemonConnected) && NoBeatAnswered(Step(w, es[0]), es[1..]))
  }

  lemma DisconnectedStep(w: World, e: Event)
    requires !w.client.daemonConnected && w.client.activation == Idle
    ensures Step(w, e).client.teardown.ReleasingLast? ==> w.client.teardown.ReleasingLast?
    ensures !Opens(w, e)
  {
    hide ResumeBeat, BeginBeat, SelfRepoDone;
    var c := w.client;
    match e
    case StartHeartbeat => BeginBeatRecord(c, true);
    case TimerFires => BeginBeatRecord(c.(timerArmed := false), true);
    case ToolCallArrives(_, _, _) => BeginBeatRecord(c, false);
    case BeatResumes(id) =>
      if id in c.beats && OfBeat(id) in w.replies { ResumeRecord(c, id, w.replies[OfBeat(id)]); }
    case SelfRepoBeatEnds(id) => if id in c.beats { SelfRepoRecord(c, id); }
    case _ =>
  }

  /** From a failed beat on, until the daemon answers one again, the session neither changes its project nor releases it
      in a cleanup. */
  lemma {:induction false} DisconnectedStays(w: World, es: seq<Event>)
    requires Inv(w) && !w.client.daemonConnected && w.client.activation == Idle && NoBeatAnswered(w, es)
    ensures var d := Run(w, es).client;
            && !d.daemonConnected && d.projectId == w.client.projectId && d.activation == Idle
            && (d.teardown.ReleasingLast? ==> w.client.teardown.ReleasingLast?)
    decreases |es|
  {
    hide Inv, Step, Opens;
    if es != [] {
      StepKeepsInv(w, es[0]);
      ConnectionFollowsBeats(w, es[0]);
      DisconnectedStep(w, es[0]);
      ClosedStepKeepsProject(w, es[0]);
      DisconnectedStays(Step(w, es[0]), es[1..]);
    }
  }

  // ---- How a look-up ends --------------------------------------------------------------------------------------

  /** A directory without a project ends the look-up and is looked up again by the next tool call from it. */
  lemma FailedLookUpIsRetried(w: World, gitWorktree: bool, git: Option<bool>)
    requires Inv(w) && w.client.activation.Resolving? && w.client.daemonConnected && w.client.activation.cwd != ""
    ensures var v := LookUp(w, None, gitWorktree);
            && v.client == w.client.(activation := Idle, activatingCwd := None)
            && Step(v, ToolCallArrives(w.client.activation.cwd, false, git)).client.activation == w.client.activation
  {
    var v := LookUp(w, None, gitWorktree);
    LookUpKeepsInv(w, None, gitWorktree);
    ToolCallDoes(v, w.client.activation.cwd, false, git);
  }

  /** A directory of the current project ends the look-up and is not looked up again while it is remembered. */
  lemma SameProjectIsRemembered(w: World, info: ProjectInfo, gitWorktree: bool, suspicious: bool, git: Option<bool>)
    requires Inv(w) && w.client.activation.Resolving? && w.client.projectId == Some(info.projectId)
    ensures var v, cwd := LookUp(w, Some(info), gitWorktree), w.client.activation.cwd;
            && v.client == w.client.(activation := Idle, activatingCwd := None, activatedForCwd := Some(cwd))
            && Step(v, ToolCallArrives(cwd, suspicious, git)).client.activation == Idle
  {
    var v := LookUp(w, Some(info), gitWorktree);
    LookUpKeepsInv(w, Some(info), gitWorktree);
    ToolCallDoes(v, w.client.activation.cwd, suspicious, git);
  }

  /** A response takes the activation one step on: after the release the new project is registered, after the register
      its directory is remembered and the activation is over. */
  lemma ActivationAdvances(w: World)
    requires Inv(w) && OfActivation in w.replies
    ensures var c, d := w.client, Step(w, ActivationResumes).client;
            && c.projectId.Some? && d.projectId == c.projectId
            && (c.activation.Releasing? ==>
                  && d.activation == Activating(c.activation.cwd)
                  && d.outbox == c.outbox + [Call(OfActivation, Register(c.projectId.value))])
            && (!c.activation.Releasing? ==>
                  && c.activation.Activating? && d.activation == Idle && d.activatingCwd == None
                  && d.activatedForCwd == Some(c.activation.cwd) && d.outbox == c.outbox)
  {
    InvFacts(w);
  }

  /** A heartbeat goes on to the self-repository exactly when the session has one and the daemon answered, and is over
      otherwise; a timer tick that is over has armed the timer. */
  lemma AnsweredBeatGoesOn(w: World, id: int)
    requires AnswersBeat(w, BeatResumes(id)) && w.replies[OfBeat(id)] != NoSession
    ensures var c, d := w.client, Step(w, BeatResumes(id)).client;
            if w.replies[OfBeat(id)] == Acknowledged && c.selfRepo then
              d.beats == c.beats[id := c.beats[id].(stage := SelfBeating)] && d.timerArmed == c.timerArmed
            else d.beats == c.beats - {id} && d.timerArmed == (c.timerArmed || c.beats[id].onTimer)
  {
  }

  lemma SelfRepoBeatIsLast(w: World, id: int)
    requires id in w.client.beats && w.client.beats[id].stage == SelfBeating
    ensures var c, d := w.client, Step(w, SelfRepoBeatEnds(id)).client;
            d.beats == c.beats - {id} && d.timerArmed == (c.timerArmed || c.beats[id].onTimer)
  {
  }
}
