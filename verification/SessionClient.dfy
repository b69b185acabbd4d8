/** One MCP session's client half: the session record, its suspended async frames, and the calls it has issued.

    Between two awaits JavaScript runs without interruption, so each function here is one such segment of
    `ensureClientProjectActive`, `sendHeartbeat`, `startHeartbeat` or `cleanup`. A frame that awaits is kept as a
    value saying where it will resume. `SessionLifecycle` below performs the same segments by assigning fields. */
module SessionClient {
  import opened Wrappers

  datatype Rpc =
    | Register(project: string)
    | Beat(project: string)
    | Deprioritize(project: string, pathScoped: bool)

  /** The frame that awaits a call's response. */
  datatype Owner = OfActivation | OfBeat(id: int) | OfCleanup

  datatype Call = Call(owner: Owner, rpc: Rpc)

  datatype Reply =
    | Failed
    | Acknowledged
    | NoSession
    | Released
    | Registration(accepted: bool, isWorktree: bool, watchPath: Option<string>)

  /** Where the activation frame is suspended. */
  datatype Activation =
    | Idle
    | Resolving(cwd: string)
    | Releasing(cwd: string, previous: string)
    | Activating(cwd: string)

  datatype BeatStage = Beating(project: string) | ReRegistering | SelfBeating

  /** A suspended `sendHeartbeat`; `onTimer` marks the ones the self-rescheduling timer started. */
  datatype BeatFrame = BeatFrame(onTimer: bool, stage: BeatStage)

  datatype Teardown = NotStarted | ReleasingLast(project: string) | Finished

  datatype ProjectInfo = ProjectInfo(projectId: string, projectPath: string)

  datatype Client = Client(
    projectId: Option<string>,
    projectPath: Option<string>,
    isWorktree: bool,
    watchPath: Option<string>,
    activatedForCwd: Option<string>,
    activatingCwd: Option<string>,
    selfRepo: bool,
    daemonConnected: bool,
    cleaned: bool,
    timerArmed: bool,
    activation: Activation,
    beats: map<int, BeatFrame>,
    nextBeat: int,
    teardown: Teardown,
    outbox: seq<Call>)

  /** A deprioritize names a watch path exactly in this case; the daemon then leaves the session row alone. */
  predicate PathScoped(c: Client) {
    c.isWorktree && c.watchPath.Some? && c.watchPath.value != ""
  }

  function Send(c: Client, owner: Owner, rpc: Rpc): Client {
    c.(outbox := c.outbox + [Call(owner, rpc)])
  }

  // ---- registerProject -------------------------------------------------------------------------------------

  /** `registerProject` issues a call. Without a project id it would auto-register, which only bootstrap does. */
  predicate CanRegister(c: Client) {
    c.projectPath.Some? && c.projectId.Some?
  }

  function ApplyRegistration(c: Client, reply: Reply): Client {
    if reply.Registration? && reply.accepted && reply.isWorktree then
      c.(isWorktree := true,
         watchPath := if reply.watchPath.Some? then reply.watchPath else c.projectPath)
    else c
  }

  // ---- sendHeartbeat and its timer -------------------------------------------------------------------------

  /** The frame ends; a timer tick always re-arms the timer, even after cleanup. */
  function FinishBeat(c: Client, id: int): Client
    requires id in c.beats
  {
    c.(timerArmed := c.timerArmed || c.beats[id].onTimer, beats := c.beats - {id})
  }

  function AfterProjectBeat(c: Client, id: int): Client
    requires id in c.beats
  {
    if c.selfRepo then c.(beats := c.beats[id := c.beats[id].(stage := SelfBeating)]) else FinishBeat(c, id)
  }

  function BeginBeat(c: Client, onTimer: bool): Client {
    var id := c.nextBeat;
    if c.projectId.Some? then
      var frame := BeatFrame(onTimer, Beating(c.projectId.value));
      Send(c.(nextBeat := id + 1, beats := c.beats[id := frame]), OfBeat(id), Beat(c.projectId.value))
    else
      AfterProjectBeat(c.(nextBeat := id + 1, beats := c.beats[id := BeatFrame(onTimer, SelfBeating)]), id)
  }

  function ResumeBeat(c: Client, id: int, reply: Reply): Client
    requires id in c.beats
  {
    match c.beats[id].stage
    case Beating(_) =>
      if reply == Acknowledged then AfterProjectBeat(c.(daemonConnected := true), id)
      else if reply == NoSession then
        var c1 := c.(daemonConnected := true);
        if CanRegister(c1) then
          Send(c1.(beats := c1.beats[id := c1.beats[id].(stage := ReRegistering)]), OfBeat(id), Register(c1.projectId.value))
        else AfterProjectBeat(c1, id)
      else FinishBeat(c.(daemonConnected := false), id)
    case ReRegistering => AfterProjectBeat(ApplyRegistration(c, reply), id)
    case SelfBeating => c
  }

  function SelfRepoDone(c: Client, id: int): Client
    requires id in c.beats
  {
    if c.beats[id].stage == SelfBeating then FinishBeat(c, id) else c
  }

  function FireTimer(c: Client): Client {
    BeginBeat(c.(timerArmed := false), true)
  }

  // ---- ensureClientProjectActive ---------------------------------------------------------------------------

  function BeginActivation(c: Client, cwd: string, suspicious: bool): Client {
    if cwd == "" || !c.daemonConnected || c.activatedForCwd == Some(cwd) || c.activatingCwd.Some? || suspicious then c
    else c.(activatingCwd := Some(cwd), activation := Resolving(cwd))
  }

  function EndActivation(c: Client): Client {
    c.(activatingCwd := None, activation := Idle)
  }

  function RegisterForActivation(c: Client, cwd: string): Client {
    if CanRegister(c) then Send(c.(activation := Activating(cwd)), OfActivation, Register(c.projectId.value))
    else EndActivation(c.(activatedForCwd := Some(cwd)))
  }

  /** The session points at the new project before anything about the old one is sent. */
  function Swap(c: Client, info: ProjectInfo, gitWorktree: bool): Client {
    c.(projectId := Some(info.projectId), projectPath := Some(info.projectPath), watchPath := None, isWorktree := gitWorktree)
  }

  /** The outgoing project is captured first, then the swap happens, then the old project is released. */
  function SwitchProject(c: Client, cwd: string, info: ProjectInfo, gitWorktree: bool): Client {
    var swapped := Swap(c, info, gitWorktree);
    if c.projectId.Some? then
      Send(swapped.(activation := Releasing(cwd, c.projectId.value)), OfActivation,
           Deprioritize(c.projectId.value, PathScoped(c)))
    else RegisterForActivation(swapped, cwd)
  }

  function ProjectResolved(c: Client, info: Option<ProjectInfo>, gitWorktree: bool): Client
    requires c.activation.Resolving?
  {
    var cwd := c.activation.cwd;
    if info.None? then EndActivation(c)
    else if c.projectId == Some(info.value.projectId) then EndActivation(c.(activatedForCwd := Some(cwd)))
    else SwitchProject(c, cwd, info.value, gitWorktree)
  }

  function ResumeActivation(c: Client, reply: Reply): Client {
    match c.activation
    case Releasing(cwd, _) => RegisterForActivation(c, cwd)
    case Activating(cwd) => EndActivation(ApplyRegistration(c, reply).(activatedForCwd := Some(cwd)))
    case _ => c
  }

  /** A non-static tool call: a heartbeat, a refresh of the cached git state, then the lazy activation. */
  function ToolCall(c: Client, cwd: string, suspicious: bool, git: Option<bool>): Client {
    var c1 := BeginBeat(c, false);
    var c2 := if git.Some? && c1.projectPath.Some? then c1.(isWorktree := git.value) else c1;
    BeginActivation(c2, cwd, suspicious)
  }

  // ---- cleanup ---------------------------------------------------------------------------------------------

  function Cleanup(c: Client): Client {
    if c.cleaned then c
    else
      var c1 := c.(cleaned := true, timerArmed := false);
      if c1.projectId.Some? && c1.daemonConnected then
        Send(c1.(teardown := ReleasingLast(c1.projectId.value)), OfCleanup,
             Deprioritize(c1.projectId.value, PathScoped(c1)))
      else c1.(teardown := Finished)
  }

  function ResumeCleanup(c: Client): Client {
    if c.teardown.ReleasingLast? then c.(teardown := Finished) else c
  }

  /** The session record of the program: the same segments, performed by assigning its fields. */
  class SessionLifecycle {
    var projectId: Option<string>
    var projectPath: Option<string>
    var isWorktree: bool
    var watchPath: Option<string>
    var activatedForCwd: Option<string>
    var activatingCwd: Option<string>
    var selfRepo: bool
    var daemonConnected: bool
    var cleaned: bool
    var timerArmed: bool
    var activation: Activation
    var beats: map<int, BeatFrame>
    var nextBeat: int
    var teardown: Teardown
    var outbox: seq<Call>

    function View(): Client
      reads this
    {
      Client(projectId, projectPath, isWorktree, watchPath, activatedForCwd, activatingCwd, selfRepo, daemonConnected,
             cleaned, timerArmed, activation, beats, nextBeat, teardown, outbox)
    }

    /** The session still points at the project it pointed at, with the same directory and teardown. */
    predicate SameProject(before: Client)
      reads this
    {
      projectId == before.projectId && projectPath == before.projectPath && teardown == before.teardown
    }

    /** No tick is lost: it is still in flight, or the timer is armed. */
    predicate TickKept(before: Client, id: int)
      reads this
    {
      id in before.beats && before.beats[id].onTimer ==> timerArmed || (id in beats && beats[id].onTimer)
    }

    method SendHeartbeat(onTimer: bool)
      modifies this
      ensures View() == BeginBeat(old(View()), onTimer)
      ensures SameProject(old(View()))
      ensures outbox == old(outbox) + if projectId.Some? then [Call(OfBeat(old(nextBeat)), Beat(projectId.value))] else []
      ensures onTimer ==> timerArmed || (old(nextBeat) in beats && beats[old(nextBeat)].onTimer)
    {
      var id := nextBeat;
      nextBeat := nextBeat + 1;
      if projectId.Some? {
        beats := beats[id := BeatFrame(onTimer, Beating(projectId.value))];
        outbox := outbox + [Call(OfBeat(id), Beat(projectId.value))];
      } else {
        beats := beats[id := BeatFrame(onTimer, SelfBeating)];
        ContinueWithSelfRepo(id);
      }
    }

    method ContinueWithSelfRepo(id: int)
      requires id in beats
      modifies this
      ensures View() == AfterProjectBeat(old(View()), id)
      ensures SameProject(old(View()))
      ensures outbox == old(outbox) && TickKept(old(View()), id)
    {
      if selfRepo {
        beats := beats[id := beats[id].(stage := SelfBeating)];
      } else {
        ScheduleNext(id);
      }
    }

    method ScheduleNext(id: int)
      requires id in beats
      modifies this
      ensures View() == FinishBeat(old(View()), id)
      ensures SameProject(old(View()))
      ensures outbox == old(outbox) && TickKept(old(View()), id)
    {
      if beats[id].onTimer {
        timerArmed := true;
      }
      beats := beats - {id};
    }

    method HeartbeatResponse(id: int, reply: Reply)
      requires id in beats
      modifies this
      ensures View() == ResumeBeat(old(View()), id, reply)
      ensures SameProject(old(View()))
      ensures TickKept(old(View()), id)
      ensures outbox == old(outbox) || (projectId.Some? && outbox == old(outbox) + [Call(OfBeat(id), Register(projectId.value))])
    {
      hide AfterProjectBeat, FinishBeat, ApplyRegistration;
      match beats[id].stage
      case Beating(_) =>
        if reply == Acknowledged || reply == NoSession {
          daemonConnected := true;
          if reply == NoSession && projectPath.Some? && projectId.Some? {
            beats := beats[id := beats[id].(stage := ReRegistering)];
            outbox := outbox + [Call(OfBeat(id), Register(projectId.value))];
          } else {
            ContinueWithSelfRepo(id);
          }
        } else {
          daemonConnected := false;
          ScheduleNext(id);
        }
      case ReRegistering =>
        ApplyRegistrationResponse(reply);
        ContinueWithSelfRepo(id);
      case SelfBeating =>
    }

    method ApplyRegistrationResponse(reply: Reply)
      modifies this
      ensures View() == ApplyRegistration(old(View()), reply)
      ensures beats == old(beats)
      ensures SameProject(old(View()))
      ensures outbox == old(outbox)
    {
      if reply.Registration? && reply.accepted && reply.isWorktree {
        isWorktree := true;
        watchPath := if reply.watchPath.Some? then reply.watchPath else projectPath;
      }
    }

    method RunTick()
      modifies this
      ensures View() == FireTimer(old(View()))
      ensures SameProject(old(View()))
      ensures timerArmed || (old(nextBeat) in beats && beats[old(nextBeat)].onTimer)
    {
      timerArmed := false;
      SendHeartbeat(true);
    }

    method EnsureClientProjectActive(cwd: string, suspicious: bool)
      modifies this
      ensures View() == BeginActivation(old(View()), cwd, suspicious)
      ensures SameProject(old(View()))
      ensures outbox == old(outbox)
    {
      if cwd == "" || !daemonConnected { return; }
      if activatedForCwd == Some(cwd) { return; }
      if activatingCwd.Some? { return; }
      if suspicious { return; }
      activatingCwd := Some(cwd);
      activation := Resolving(cwd);
    }

    method ActivationResolved(info: Option<ProjectInfo>, gitWorktree: bool)
      requires activation.Resolving?
      modifies this
      ensures View() == ProjectResolved(old(View()), info, gitWorktree)
      ensures info.None? || old(projectId) == Some(info.value.projectId) ==>
                View() == old(View()).(activation := Idle, activatingCwd := None,
                                       activatedForCwd := if info.None? then old(activatedForCwd) else Some(old(activation).cwd))
      ensures !SameProject(old(View())) ==>
                && info.Some? && projectId == Some(info.value.projectId) && old(projectId) != projectId
                && projectPath == Some(info.value.projectPath) && watchPath == None && isWorktree == gitWorktree
      ensures !SameProject(old(View())) && old(projectId).Some? ==>
                outbox == old(outbox)
                       + [Call(OfActivation, Deprioritize(old(projectId).value, PathScoped(old(View()))))]
      ensures SameProject(old(View())) ==> outbox == old(outbox)
    {
      var cwd := activation.cwd;
      if info.None? {
        SettleActivation();
        return;
      }
      if projectId == Some(info.value.projectId) {
        activatedForCwd := Some(cwd);
        SettleActivation();
        return;
      }
      SwitchTo(cwd, info.value, gitWorktree);
    }

    method SwapTo(info: ProjectInfo, gitWorktree: bool)
      modifies this
      ensures View() == Swap(old(View()), info, gitWorktree)
    {
      projectId, projectPath := Some(info.projectId), Some(info.projectPath);
      watchPath, isWorktree := None, gitWorktree;
    }

    method SwitchTo(cwd: string, info: ProjectInfo, gitWorktree: bool)
      modifies this
      ensures View() == SwitchProject(old(View()), cwd, info, gitWorktree)
      ensures projectId == Some(info.projectId) && projectPath == Some(info.projectPath)
      ensures watchPath == None && isWorktree == gitWorktree
    {
      hide RegisterForActivation;
      var previous, scoped := projectId, isWorktree && watchPath.Some? && watchPath.value != "";
      SwapTo(info, gitWorktree);
      if previous.Some? {
        activation := Releasing(cwd, previous.value);
        outbox := outbox + [Call(OfActivation, Deprioritize(previous.value, scoped))];
      } else {
        RegisterActivated(cwd);
      }
    }

    method RegisterActivated(cwd: string)
      modifies this
      ensures View() == RegisterForActivation(old(View()), cwd)
      ensures watchPath == old(watchPath) && isWorktree == old(isWorktree)
      ensures SameProject(old(View()))
      ensures outbox == old(outbox) || (projectId.Some? && outbox == old(outbox) + [Call(OfActivation, Register(projectId.value))])
    {
      if projectPath.Some? && projectId.Some? {
        activation := Activating(cwd);
        outbox := outbox + [Call(OfActivation, Register(projectId.value))];
      } else {
        activatedForCwd := Some(cwd);
        SettleActivation();
      }
    }

    method ActivationResponse(reply: Reply)
      modifies this
      ensures View() == ResumeActivation(old(View()), reply)
      ensures SameProject(old(View()))
      ensures outbox == old(outbox) || (projectId.Some? && outbox == old(outbox) + [Call(OfActivation, Register(projectId.value))])
    {
      match activation
      case Releasing(cwd, _) =>
        RegisterActivated(cwd);
      case Activating(cwd) =>
        ApplyRegistrationResponse(reply);
        activatedForCwd := Some(cwd);
        SettleActivation();
      case _ =>
    }

    method SettleActivation()
      modifies this
      ensures View() == EndActivation(old(View()))
      ensures SameProject(old(View()))
      ensures outbox == old(outbox)
    {
      activatingCwd := None;
      activation := Idle;
    }

    method DispatchToolCall(cwd: string, suspicious: bool, git: Option<bool>)
      modifies this
      ensures View() == ToolCall(old(View()), cwd, suspicious, git)
      ensures SameProject(old(View()))
    {
      SendHeartbeat(false);
      if git.Some? && projectPath.Some? {
        isWorktree := git.value;
      }
      EnsureClientProjectActive(cwd, suspicious);
    }

    method CleanupSession()
      modifies this
      ensures View() == Cleanup(old(View()))
      ensures cleaned && projectId == old(projectId)
      ensures old(cleaned) ==> View() == old(View())
      ensures !old(cleaned) ==> !timerArmed
      ensures outbox == old(outbox)
           || (projectId.Some? && daemonConnected
               && outbox == old(outbox) + [Call(OfCleanup, Deprioritize(projectId.value, PathScoped(old(View()))))])
    {
      if cleaned { return; }
      cleaned := true;
      timerArmed := false;
      if projectId.Some? && daemonConnected {
        teardown := ReleasingLast(projectId.value);
        outbox := outbox + [Call(OfCleanup, Deprioritize(projectId.value, PathScoped(View())))];
      } else {
        teardown := Finished;
      }
    }
  }
}
