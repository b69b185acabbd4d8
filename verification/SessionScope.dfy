/** The scope of releases after a switch: a session's releases name a watch path only once the daemon has registered
    its current project as a worktree. */
module SessionScope {
  import opened Wrappers
  import opened SessionClient
  import opened SessionProtocol
  import opened SessionConnection

  /** The reply sets a watch path when it is applied. */
  predicate NamesWorktree(reply: Reply) {
    reply.Registration? && reply.accepted && reply.isWorktree
  }

  /** No watch path is known, and no reply at hand brings one. */
  ghost predicate Unscoped(w: World) {
    w.client.watchPath == None && forall o :: o in w.replies ==> !NamesWorktree(w.replies[o])
  }

  /** The daemon accepts no registration as a worktree. */
  predicate NoWorktree(e: Event) {
    e.Serve? && e.delivery == Delivered ==> !(e.outcome.accepted && e.outcome.isWorktree)
  }

  ghost predicate NoWorktrees(es: seq<Event>) {
    forall i :: 0 <= i < |es| ==> NoWorktree(es[i])
  }

  /** Every path-scoped release in `q` is one of `known`. */
  ghost predicate ScopedKnown(q: seq<Call>, known: seq<Call>) {
    forall i :: 0 <= i < |q| && q[i].rpc.Deprioritize? && q[i].rpc.pathScoped ==> q[i] in known
  }

  /** A client segment that learns of no watch path and issues no path-scoped release. */
  ghost predicate StaysUnscoped(c: Client, c': Client) {
    && c'.watchPath == c.watchPath && c.outbox <= c'.outbox
    && forall i :: |c.outbox| <= i < |c'.outbox| ==> !(c'.outbox[i].rpc.Deprioritize? && c'.outbox[i].rpc.pathScoped)
  }

  lemma BeatStaysUnscoped(c: Client, onTimer: bool)
    ensures StaysUnscoped(c, BeginBeat(c, onTimer))
  {
  }

  lemma ToolCallStaysUnscoped(c: Client, cwd: string, suspicious: bool, git: Option<bool>)
    ensures StaysUnscoped(c, ToolCall(c, cwd, suspicious, git))
  {
    hide BeginBeat;
    BeatStaysUnscoped(c, false);
  }

  lemma ResumedBeatStaysUnscoped(c: Client, id: int, reply: Reply)
    requires id in c.beats && !NamesWorktree(reply)
    ensures StaysUnscoped(c, ResumeBeat(c, id, reply))
  {
  }

  lemma ActivationStaysUnscoped(c: Client, reply: Reply)
    requires !NamesWorktree(reply)
    ensures StaysUnscoped(c, ResumeActivation(c, reply))
  {
  }

  lemma CleanupStaysUnscoped(c: Client)
    requires c.watchPath == None
    ensures StaysUnscoped(c, Cleanup(c))
  {
  }

  /** A switch sets the record to the new project and issues one call: the old one's release, if there is one. */
  lemma SwitchIssues(c: Client, cwd: string, info: ProjectInfo, gitWorktree: bool)
    ensures var d := SwitchProject(c, cwd, info, gitWorktree);
            && d.projectId == Some(info.projectId) && d.projectPath == Some(info.projectPath)
            && d.isWorktree == gitWorktree && d.watchPath == None
            && exists call :: d.outbox == c.outbox + [call]
                 && if c.projectId.Some? then call.rpc == Deprioritize(c.projectId.value, PathScoped(c))
                    else call.rpc.Register?
  {
    var d := SwitchProject(c, cwd, info, gitWorktree);
    if c.projectId.Some? {
      assert d.outbox == c.outbox + [Call(OfActivation, Deprioritize(c.projectId.value, PathScoped(c)))];
    } else {
      assert d.outbox == c.outbox + [Call(OfActivation, Register(info.projectId))];
    }
  }

  lemma LookUpStaysUnscoped(c: Client, info: Option<ProjectInfo>, gitWorktree: bool)
    requires c.activation.Resolving? && c.watchPath == None
    ensures StaysUnscoped(c, ProjectResolved(c, info, gitWorktree))
  {
    hide SwitchProject;
    if info.Some? && c.projectId != Some(info.value.projectId) {
      SwitchIssues(c, c.activation.cwd, info.value, gitWorktree);
    }
  }

  lemma KnownAfterSegment(c: Client, c': Client, known: seq<Call>)
    requires StaysUnscoped(c, c') && ScopedKnown(c.outbox, known)
    ensures ScopedKnown(c'.outbox, known)
  {
    assert forall i :: 0 <= i < |c.outbox| ==> c'.outbox[i] == c.outbox[i];
  }

  lemma RepliesOnlyTaken(w: World, e: Event)
    requires !e.Serve?
    ensures forall o :: o in Step(w, e).replies ==> o in w.replies && Step(w, e).replies[o] == w.replies[o]
  {
    hide BeginBeat, ToolCall, ResumeBeat, ResumeActivation, Cleanup, ProjectResolved, SelfRepoDone, ResumeCleanup;
  }

  lemma SameStaysUnscoped(c: Client, c': Client)
    requires c'.watchPath == c.watchPath && c'.outbox == c.outbox
    ensures StaysUnscoped(c, c')
  {
  }

  lemma FrameEndsUnscoped(c: Client, id: int)
    requires id in c.beats
    ensures StaysUnscoped(c, SelfRepoDone(c, id))
  {
  }

  lemma SegmentStaysUnscoped(w: World, e: Event)
    requires Unscoped(w) && !e.Serve?
    ensures StaysUnscoped(w.client, Step(w, e).client)
  {
    var c := w.client;
    SameStaysUnscoped(c, c);
    hide BeginBeat, ToolCall, ResumeBeat, ResumeActivation, Cleanup, ProjectResolved, SelfRepoDone, ResumeCleanup;
    hide StaysUnscoped;
    match e
    case StartHeartbeat => BeatStaysUnscoped(c, true);
    case TimerFires => TimerStaysUnscoped(c);
    case ToolCallArrives(cwd, suspicious, git) => ToolCallStaysUnscoped(c, cwd, suspicious, git);
    case ProjectLookedUp(info, gitWorktree) =>
      if c.activation.Resolving? { LookUpStaysUnscoped(c, info, gitWorktree); }
    case ActivationResumes =>
      if OfActivation in w.replies { ActivationStaysUnscoped(c, w.replies[OfActivation]); }
    case BeatResumes(id) =>
      if id in c.beats && OfBeat(id) in w.replies { ResumedBeatStaysUnscoped(c, id, w.replies[OfBeat(id)]); }
    case SelfRepoBeatEnds(id) => if id in c.beats { FrameEndsUnscoped(c, id); }
    case CleanupStarts => CleanupStaysUnscoped(c);
    case CleanupResumes => CleanupEndStaysUnscoped(c);
    case _ =>
  }

  lemma TimerStaysUnscoped(c: Client)
    ensures StaysUnscoped(c, FireTimer(c))
  {
    hide BeginBeat;
    BeatStaysUnscoped(c.(timerArmed := false), true);
  }

  lemma CleanupEndStaysUnscoped(c: Client)
    ensures StaysUnscoped(c, ResumeCleanup(c))
  {
  }

  lemma StepStaysUnscoped(w: World, e: Event, known: seq<Call>)
    requires Unscoped(w) && ScopedKnown(w.client.outbox, known) && NoWorktree(e)
    ensures Unscoped(Step(w, e)) && ScopedKnown(Step(w, e).client.outbox, known)
  {
    if e.Serve? {
      var q := w.client.outbox;
      assert q != [] ==> forall i, j :: 0 <= i < |q| - 1 && j == i + 1 ==> q[1..][i] == q[j];
    } else {
      SegmentStaysUnscoped(w, e);
      RepliesOnlyTaken(w, e);
      hide Step;
      KnownAfterSegment(w.client, Step(w, e).client, known);
    }
  }

  lemma {:induction false} RunStaysUnscoped(w: World, es: seq<Event>, known: seq<Call>)
    requires Unscoped(w) && ScopedKnown(w.client.outbox, known) && NoWorktrees(es)
    ensures Unscoped(Run(w, es)) && ScopedKnown(Run(w, es).client.outbox, known)
    decreases |es|
  {
    hide Step, Unscoped, ScopedKnown, NoWorktree;
    if es != [] {
      StepStaysUnscoped(w, es[0], known);
      RunStaysUnscoped(Step(w, es[0]), es[1..], known);
    }
  }

  /** The look-up changes the session's project, while no worktree registration is at hand. */
  ghost predicate Switches(w: World, info: ProjectInfo) {
    && w.client.activation.Resolving? && w.client.projectId != Some(info.projectId)
    && forall o :: o in w.replies ==> !NamesWorktree(w.replies[o])
  }

  /** A switch forgets the scope of the project it leaves: until a registration is accepted as a worktree, the session
      has no watch path and the only path-scoped releases are those of before and the one of the project left. */
  lemma ScopeIsForgotten(w: World, info: ProjectInfo, gitWorktree: bool, es: seq<Event>)
    requires Switches(w, info) && NoWorktrees(es)
    ensures var v := LookUp(w, Some(info), gitWorktree);
            && v.client.projectId == Some(info.projectId) && v.client.projectPath == Some(info.projectPath)
            && v.client.isWorktree == gitWorktree
            && Run(v, es).client.watchPath == None
            && forall i :: 0 <= i < |Run(v, es).client.outbox| ==>
                 var call := Run(v, es).client.outbox[i];
                 call.rpc.Deprioritize? && call.rpc.pathScoped ==>
                   call in w.client.outbox || Some(call.rpc.project) == w.client.projectId
  {
    var v := LookUp(w, Some(info), gitWorktree);
    LookUpClears(w, info, gitWorktree);
    hide Step, LookUp;
    RunStaysUnscoped(v, es, v.client.outbox);
  }

  lemma LookUpClears(w: World, info: ProjectInfo, gitWorktree: bool)
    requires Switches(w, info)
    ensures var v := LookUp(w, Some(info), gitWorktree);
            && Unscoped(v) && ScopedKnown(v.client.outbox, v.client.outbox)
            && v.client.projectId == Some(info.projectId) && v.client.projectPath == Some(info.projectPath)
            && v.client.isWorktree == gitWorktree
            && forall i :: 0 <= i < |v.client.outbox| && v.client.outbox[i].rpc.Deprioritize? ==>
                 v.client.outbox[i] in w.client.outbox || Some(v.client.outbox[i].rpc.project) == w.client.projectId
  {
    hide SwitchProject;
    SwitchIssues(w.client, w.client.activation.cwd, info, gitWorktree);
  }

  /** So the release of the new project, whatever issues it, removes its row when the daemon serves it. */
  lemma NewProjectIsReleased(w: World, info: ProjectInfo, gitWorktree: bool, es: seq<Event>, delivery: Delivery,
                             outcome: RegisterOutcome)
    requires Switches(w, info) && NoWorktrees(es) && delivery != CallLost
    requires forall i :: 0 <= i < |w.client.outbox| ==>
               !(w.client.outbox[i].rpc == Deprioritize(info.projectId, true))
    requires var q := Run(LookUp(w, Some(info), gitWorktree), es).client.outbox;
             q != [] && q[0].rpc.Deprioritize? && q[0].rpc.project == info.projectId
    ensures info.projectId
         !in Step(Run(LookUp(w, Some(info), gitWorktree), es), Serve(delivery, outcome)).rows
  {
    ScopeIsForgotten(w, info, gitWorktree, es);
    hide Run, LookUp;
    var u := Run(LookUp(w, Some(info), gitWorktree), es);
    var call := u.client.outbox[0];
    assert call.rpc == Deprioritize(info.projectId, call.rpc.pathScoped);
  }

  /** In particular the cleanup of a connected session that is still with the new project. */
  lemma CleanupReleasesNewProject(w: World, info: ProjectInfo, gitWorktree: bool, es: seq<Event>)
    requires Switches(w, info) && NoWorktrees(es)
    requires var c := Run(LookUp(w, Some(info), gitWorktree), es).client;
             c.projectId == Some(info.projectId) && c.daemonConnected && !c.cleaned
    ensures var u := Run(LookUp(w, Some(info), gitWorktree), es);
            Step(u, CleanupStarts).client.outbox
            == u.client.outbox + [Call(OfCleanup, Deprioritize(info.projectId, false))]
  {
    ScopeIsForgotten(w, info, gitWorktree, es);
    hide Run, LookUp;
  }

  // ---- Worktrees -----------------------------------------------------------------------------------------------

  /** The response that the event hands to `registerProject`, if it does. */
  ghost function RegistrationAt(w: World, e: Event): Option<Reply> {
    match e
    case ActivationResumes =>
      if w.client.activation.Activating? && OfActivation in w.replies then Some(w.replies[OfActivation]) else None
    case BeatResumes(id) =>
      if id in w.client.beats && w.client.beats[id].stage.ReRegistering? && OfBeat(id) in w.replies
      then Some(w.replies[OfBeat(id)]) else None
    case _ => None
  }

  predicate SwitchesAt(w: World, e: Event) {
    && e.ProjectLookedUp? && w.client.activation.Resolving? && e.info.Some?
    && w.client.projectId != Some(e.info.value.projectId)
  }

  lemma BeatKeepsScope(c: Client, onTimer: bool)
    ensures BeginBeat(c, onTimer).watchPath == c.watchPath && BeginBeat(c, onTimer).isWorktree == c.isWorktree
  {
  }

  lemma ResumedBeatScope(c: Client, id: int, reply: Reply)
    requires id in c.beats
    ensures var d := ResumeBeat(c, id, reply);
            if c.beats[id].stage.ReRegistering? && NamesWorktree(reply)
            then d.isWorktree && d.watchPath == (if reply.watchPath.Some? then reply.watchPath else c.projectPath)
            else d.isWorktree == c.isWorktree && d.watchPath == c.watchPath
  {
  }

  lemma ActivationScope(c: Client, reply: Reply)
    ensures var d := ResumeActivation(c, reply);
            if c.activation.Activating? && NamesWorktree(reply)
            then d.isWorktree && d.watchPath == (if reply.watchPath.Some? then reply.watchPath else c.projectPath)
            else d.isWorktree == c.isWorktree && d.watchPath == c.watchPath
  {
  }

  lemma LookUpScope(c: Client, info: Option<ProjectInfo>, gitWorktree: bool)
    requires c.activation.Resolving?
    ensures var d := ProjectResolved(c, info, gitWorktree);
            if info.Some? && c.projectId != Some(info.value.projectId)
            then d.isWorktree == gitWorktree && d.watchPath == None
            else d.isWorktree == c.isWorktree && d.watchPath == c.watchPath
  {
    hide SwitchProject;
    if info.Some? {
      SwitchIssues(c, c.activation.cwd, info.value, gitWorktree);
    }
  }

  lemma QuietScope(w: World, e: Event)
    requires !e.ToolCallArrives? && !e.ProjectLookedUp? && !e.ActivationResumes? && !e.BeatResumes?
    ensures Step(w, e).client.watchPath == w.client.watchPath && Step(w, e).client.isWorktree == w.client.isWorktree
  {
    hide BeginBeat;
    match e
    case StartHeartbeat => BeatKeepsScope(w.client, true);
    case TimerFires => BeatKeepsScope(w.client.(timerArmed := false), true);
    case _ =>
  }

  lemma ToolCallScope(c: Client, cwd: string, suspicious: bool, git: Option<bool>)
    ensures var d := ToolCall(c, cwd, suspicious, git);
            && d.watchPath == c.watchPath
            && d.isWorktree == (if git.Some? && c.projectPath.Some? then git.value else c.isWorktree)
  {
    hide BeginBeat;
    BeatKeepsScope(c, false);
    BeginBeatRecord(c, false);
  }

  /** The scope of a session's releases: an accepted worktree registration sets it, to the watch path it names or else
      the project's own path; a switch resets it; a tool call refreshes the worktree flag; nothing else touches it. */
  lemma ScopeFollows(w: World, e: Event)
    ensures var c, d, reply := w.client, Step(w, e).client, RegistrationAt(w, e);
            if reply.Some? && NamesWorktree(reply.value) then
              d.isWorktree && d.watchPath == (if reply.value.watchPath.Some? then reply.value.watchPath else c.projectPath)
            else if SwitchesAt(w, e) then d.isWorktree == e.gitWorktree && d.watchPath == None
            else
              && d.watchPath == c.watchPath
              && d.isWorktree == (if e.ToolCallArrives? && e.git.Some? && c.projectPath.Some? then e.git.value else c.isWorktree)
  {
    hide ResumeBeat, ToolCall, ResumeActivation, ProjectResolved, NamesWorktree;
    var c := w.client;
    match e
    case ToolCallArrives(cwd, suspicious, git) => ToolCallScope(c, cwd, suspicious, git);
    case ProjectLookedUp(info, gitWorktree) =>
      if c.activation.Resolving? { LookUpScope(c, info, gitWorktree); }
    case ActivationResumes =>
      if OfActivation in w.replies { ActivationScope(c, w.replies[OfActivation]); }
    case BeatResumes(id) =>
      if id in c.beats && OfBeat(id) in w.replies { ResumedBeatScope(c, id, w.replies[OfBeat(id)]); }
    case _ =>
      hide Step;
      QuietScope(w, e);
  }

  /** A worktree whose watch path is known and not empty. */
  predicate KnownWorktree(c: Client) {
    c.isWorktree && c.watchPath.Some? && c.watchPath.value != ""
  }

  /** The event does not switch projects, does not find git's worktree state gone, and brings no empty watch path. */
  ghost predicate KeepsWorktree(w: World, e: Event) {
    && !SwitchesAt(w, e)
    && (e.ToolCallArrives? && e.git.Some? ==> e.git.value)
    && (RegistrationAt(w, e).Some? && NamesWorktree(RegistrationAt(w, e).value) ==>
          KnownWorktree(Step(w, e).client))
  }

  ghost predicate AllKeepWorktree(w: World, es: seq<Event>)
    decreases |es|
  {
    es == [] || (KeepsWorktree(w, es[0]) && AllKeepWorktree(Step(w, es[0]), es[1..]))
  }

  /** While a known worktree stays with its project, its cleanup asks the daemon to leave the row. */
  lemma {:induction false} WorktreeCleanupIsScoped(w: World, es: seq<Event>)
    requires KnownWorktree(w.client) && AllKeepWorktree(w, es)
    ensures var u := Run(w, es);
            && KnownWorktree(u.client)
            && (u.client.projectId.Some? && u.client.daemonConnected && !u.client.cleaned ==>
                  Step(u, CleanupStarts).client.outbox
                  == u.client.outbox + [Call(OfCleanup, Deprioritize(u.client.projectId.value, true))])
    decreases |es|
  {
    if es != [] {
      ScopeFollows(w, es[0]);
      hide Step, RegistrationAt, SwitchesAt;
      WorktreeCleanupIsScoped(Step(w, es[0]), es[1..]);
    }
  }
}
