/** The leak-free project switch over whole runs, and a run that shows its limit. */
module SessionTheorems {
  import opened Wrappers
  import opened SessionClient
  import opened SessionProtocol

  // ---- Leak-free project switch ----------------------------------------------------------------------------

  /** The activation frame captured `p` as its outgoing project and the daemon has not applied the release yet. */
  ghost predicate SwitchReleasing(c: Client, p: string) {
    c.activation.Releasing? && c.activation.previous == p && Pending(c.outbox, OfActivation)
  }

  ghost predicate CleanupReleasing(c: Client, p: string) {
    c.teardown == ReleasingLast(p) && Pending(c.outbox, OfCleanup)
  }

  /** Whatever was lost on the way, a row names the current project, a release in flight, or a stranded project. */
  lemma RowsAccountedFor(w: World, es: seq<Event>)
    requires Init(w)
    ensures var v := Run(w, es);
            forall p :: p in v.rows ==>
              v.client.projectId == Some(p) || SwitchReleasing(v.client, p) || CleanupReleasing(v.client, p) || p in v.stranded
  {
    InitHasInv(w);
    RunKeepsInv(w, es);
    var v := Run(w, es);
    var q := v.client.outbox;
    forall p | p in v.rows && v.client.projectId != Some(p) && p !in v.stranded
      ensures SwitchReleasing(v.client, p) || CleanupReleasing(v.client, p)
    {
      assert ReleaseIn(q, p);
      var i :| 0 <= i < |q| && q[i].rpc.Deprioritize? && q[i].rpc.project == p;
      assert Matches(v.client, q[i]);
      assert Pending(q, q[i].owner);
    }
  }

  /** The event does not lose a release, and applies none that names a watch path. */
  ghost predicate ReleaseReachesRow(w: World, e: Event) {
    e.Serve? && w.client.outbox != [] && w.client.outbox[0].rpc.Deprioritize? ==>
      e.delivery != CallLost && !w.client.outbox[0].rpc.pathScoped
  }

  ghost predicate ReleasesReachRows(w: World, es: seq<Event>)
    decreases |es|
  {
    es == [] || (ReleaseReachesRow(w, es[0]) && ReleasesReachRows(Step(w, es[0]), es[1..]))
  }

  lemma {:induction false} NothingStranded(w: World, es: seq<Event>)
    requires w.stranded == {} && ReleasesReachRows(w, es)
    ensures Run(w, es).stranded == {}
    decreases |es|
  {
    if es != [] {
      NothingStranded(Step(w, es[0]), es[1..]);
    }
  }

  /** In every interleaving of activation, heartbeat and cleanup frames, each row held under this session names the
      current project or one whose release is in flight; once no frame waits, only the current project is left. */
  lemma LeakFreeSwitch(w: World, es: seq<Event>)
    requires Init(w) && ReleasesReachRows(w, es)
    ensures var v := Run(w, es);
            forall p :: p in v.rows ==>
              v.client.projectId == Some(p) || SwitchReleasing(v.client, p) || CleanupReleasing(v.client, p)
    ensures var v := Run(w, es);
            (forall o :: !Awaits(v.client, o)) ==> forall p :: p in v.rows ==> v.client.projectId == Some(p)
  {
    RowsAccountedFor(w, es);
    NothingStranded(w, es);
    var v := Run(w, es);
    if forall o :: !Awaits(v.client, o) {
      assert !Awaits(v.client, OfActivation) && !Awaits(v.client, OfCleanup);
    }
  }

  /** No frame waits, none is being started, and the daemon was reachable. */
  ghost predicate Settled(w: World) {
    && (forall o :: !Awaits(w.client, o))
    && w.client.activation == Idle
    && w.client.daemonConnected
    && w.client.projectId.Some?
  }

  lemma HeadIsAwaited(w: World)
    requires Inv(w) && w.client.outbox != []
    ensures Awaits(w.client, w.client.outbox[0].owner)
  {
    assert Matches(w.client, w.client.outbox[0]);
  }

  lemma SettledIsDrained(w: World)
    requires Inv(w) && forall o :: !Awaits(w.client, o)
    ensures w.client.outbox == [] && w.replies == map[]
  {
    var c := w.client;
    if c.outbox != [] {
      HeadIsAwaited(w);
    }
    forall o ensures o !in w.replies {
      assert !Awaits(c, o);
    }
  }

  function SwitchEvents(cwd: string, info: ProjectInfo, id: int, outcome: RegisterOutcome): seq<Event> {
    [ToolCallArrives(cwd, false, None), ProjectLookedUp(Some(info), false), Serve(Delivered, outcome),
     Serve(Delivered, outcome), ActivationResumes, Serve(Delivered, outcome), ActivationResumes, BeatResumes(id)]
  }

  /** A tool call of a session with a project: one beat for that project, then the activation begins. */
  lemma ToolCallBeats(c: Client, cwd: string)
    requires c.projectId.Some? && c.activatingCwd.None? && c.daemonConnected && cwd != "" && c.activatedForCwd != Some(cwd)
    ensures var p := c.projectId.value;
            var frame := BeatFrame(false, Beating(p));
            ToolCall(c, cwd, false, None) ==
            c.(nextBeat := c.nextBeat + 1, beats := c.beats[c.nextBeat := frame],
               outbox := c.outbox + [Call(OfBeat(c.nextBeat), Beat(p))],
               activatingCwd := Some(cwd), activation := Resolving(cwd))
  {
  }

  /** The tool call's segment and the look-up: a beat for the old project, then its release, nothing else. */
  lemma SwitchIssues(c: Client, cwd: string, info: ProjectInfo)
    requires c.projectId.Some? && c.projectId != Some(info.projectId) && c.outbox == [] && c.activatingCwd.None?
    requires c.daemonConnected && cwd != "" && c.activatedForCwd != Some(cwd)
    ensures var id, p := c.nextBeat, c.projectId.value;
            var c1 := ToolCall(c, cwd, false, None);
            && c1.activation == Resolving(cwd)
            && var c2 := ProjectResolved(c1, Some(info), false);
            && c2.outbox == [Call(OfBeat(id), Beat(p)), Call(OfActivation, Deprioritize(p, PathScoped(c)))]
            && c2.activation == Releasing(cwd, p)
            && c2.projectId == Some(info.projectId) && c2.projectPath == Some(info.projectPath)
            && id in c2.beats && c2.beats[id] == BeatFrame(false, Beating(p))
  {
    ToolCallBeats(c, cwd);
    hide ToolCall;
  }

  lemma ServeBeatThenRelease(w: World, id: int, p: string, scoped: bool, outcome: RegisterOutcome)
    requires w.client.outbox == [Call(OfBeat(id), Beat(p)), Call(OfActivation, Deprioritize(p, scoped))]
    requires w.replies == map[] && p in w.rows
    ensures var v := Step(Step(w, Serve(Delivered, outcome)), Serve(Delivered, outcome));
            && v.client == w.client.(outbox := []) && v.now == w.now
            && v.replies == map[OfBeat(id) := Acknowledged, OfActivation := Released]
            && v.rows == (if scoped then w.rows[p := w.now] else w.rows - {p})
  {
    var w1 := Step(w, Serve(Delivered, outcome));
    assert w1.client == w.client.(outbox := [Call(OfActivation, Deprioritize(p, scoped))]);
    assert w1.replies == map[OfBeat(id) := Acknowledged] && w1.rows == w.rows[p := w.now];
    assert w.rows[p := w.now] - {p} == w.rows - {p};
  }

  lemma ReleasedRegisters(w: World, cwd: string, left: string)
    requires w.client.outbox == [] && w.client.activation == Releasing(cwd, left) && CanRegister(w.client)
    requires OfActivation in w.replies
    ensures var call := Call(OfActivation, Register(w.client.projectId.value));
            Step(w, ActivationResumes) == w.(client := w.client.(activation := Activating(cwd), outbox := [call]),
                                             replies := w.replies - {OfActivation})
  {
  }

  lemma ServeRegister(w: World, owner: Owner, p: string, outcome: RegisterOutcome)
    requires w.client.outbox == [Call(owner, Register(p))] && outcome.upsert
    ensures var v := Step(w, Serve(Delivered, outcome));
            && v.client == w.client.(outbox := []) && v.rows == w.rows[p := w.now] && v.now == w.now
            && v.replies == w.replies[owner := Registration(outcome.accepted, outcome.isWorktree, outcome.watchPath)]
  {
  }

  lemma ActivatedEnds(w: World, cwd: string)
    requires w.client.outbox == [] && w.client.activation == Activating(cwd) && OfActivation in w.replies
    ensures var v := Step(w, ActivationResumes);
            && v.rows == w.rows && v.replies == w.replies - {OfActivation}
            && SameFrames(w.client, v.client) && v.client.activatedForCwd == Some(cwd)
  {
  }

  /** The released activation registers the new project and ends. */
  lemma ActivationRegisters(w: World, cwd: string, left: string, outcome: RegisterOutcome)
    requires w.client.outbox == [] && w.client.activation == Releasing(cwd, left) && CanRegister(w.client)
    requires OfActivation in w.replies && outcome.upsert
    ensures var v := Step(Step(Step(w, ActivationResumes), Serve(Delivered, outcome)), ActivationResumes);
            && v.rows == w.rows[w.client.projectId.value := w.now] && v.replies == w.replies - {OfActivation}
            && SameFrames(w.client, v.client) && v.client.activatedForCwd == Some(cwd)
  {
    ReleasedRegisters(w, cwd, left);
    hide Step;
    var p := w.client.projectId.value;
    var w1 := Step(w, ActivationResumes);
    ServeRegister(w1, OfActivation, p, outcome);
    var w2 := Step(w1, Serve(Delivered, outcome));
    ActivatedEnds(w2, cwd);
    var w3 := Step(w2, ActivationResumes);
    assert w3.replies == w.replies - {OfActivation};
  }

  /** The activation ended; the heartbeat frames and the session's project are as before. */
  ghost predicate SameFrames(c: Client, c': Client) {
    c'.projectId == c.projectId && c'.beats == c.beats && c'.activation == Idle && c'.outbox == []
  }

  lemma AcknowledgedBeatEnds(w: World, id: int)
    requires id in w.client.beats && w.client.beats[id].stage.Beating?
    requires OfBeat(id) in w.replies && w.replies[OfBeat(id)] == Acknowledged
    ensures var v := Step(w, BeatResumes(id));
            && v.rows == w.rows && v.replies == w.replies - {OfBeat(id)} && OnlyBeatMoved(w.client, v.client, id)
            && v.client.outbox == w.client.outbox && !Awaits(v.client, OfBeat(id))
  {
    SelfRepoShape(w.client, w.client.(daemonConnected := true), id);
    assert Step(w, BeatResumes(id)).client == AfterProjectBeat(w.client.(daemonConnected := true), id);
  }

  lemma RunOne(w: World, es: seq<Event>)
    requires es != []
    ensures Run(w, es) == Run(Step(w, es[0]), es[1..])
  {
  }

  lemma SwitchBegins(w: World, cwd: string, info: ProjectInfo)
    requires Inv(w) && Settled(w) && w.client.projectId.value in w.rows && w.client.projectId != Some(info.projectId)
    requires cwd != "" && w.client.activatedForCwd != Some(cwd)
    ensures var id, p := w.client.nextBeat, w.client.projectId.value;
            var v := Step(Step(w, ToolCallArrives(cwd, false, None)), ProjectLookedUp(Some(info), false));
            && v.client.outbox == [Call(OfBeat(id), Beat(p)), Call(OfActivation, Deprioritize(p, PathScoped(w.client)))]
            && v.client.activation == Releasing(cwd, p) && CanRegister(v.client)
            && v.client.projectId == Some(info.projectId)
            && id in v.client.beats && v.client.beats[id] == BeatFrame(false, Beating(p))
            && v.rows == w.rows && v.replies == map[] && v.now == w.now
  {
    InvFacts(w);
    SettledIsDrained(w);
    hide Inv;
    SwitchIssues(w.client, cwd, info);
    hide ToolCall, ProjectResolved;
  }

  /** The daemon applies the beat and the release. */
  lemma SwitchIsServed(w: World, cwd: string, info: ProjectInfo, outcome: RegisterOutcome)
    requires Inv(w) && Settled(w) && w.client.projectId.value in w.rows && w.client.projectId != Some(info.projectId)
    requires cwd != "" && w.client.activatedForCwd != Some(cwd)
    ensures var id, p, serve := w.client.nextBeat, w.client.projectId.value, Serve(Delivered, outcome);
            var w2 := Step(Step(w, ToolCallArrives(cwd, false, None)), ProjectLookedUp(Some(info), false));
            var v := Step(Step(w2, serve), serve);
            && v.client.outbox == [] && v.client.activation == Releasing(cwd, p) && CanRegister(v.client)
            && v.client.projectId == Some(info.projectId)
            && id in v.client.beats && v.client.beats[id] == BeatFrame(false, Beating(p))
            && v.rows == (if PathScoped(w.client) then w.rows[p := w.now] else w.rows - {p})
            && v.replies == map[OfBeat(id) := Acknowledged, OfActivation := Released]
  {
    var id, p, serve := w.client.nextBeat, w.client.projectId.value, Serve(Delivered, outcome);
    hide Inv, Settled, Step, PathScoped, CanRegister;
    SwitchBegins(w, cwd, info);
    var w2 := Step(Step(w, ToolCallArrives(cwd, false, None)), ProjectLookedUp(Some(info), false));
    ServeBeatThenRelease(w2, id, p, PathScoped(w.client), outcome);
    CanRegisterCarries(w2.client, Step(Step(w2, serve), serve).client);
  }

  /** The exact limit of the claim. After a switch in which no call is lost, the old project's row is gone exactly
      when the outgoing session was not a worktree with a known watch path. */
  lemma SwitchReleasesRowIffNotPathScoped(w: World, cwd: string, info: ProjectInfo, outcome: RegisterOutcome)
    requires Inv(w) && Settled(w) && w.client.projectId.value in w.rows && w.client.projectId != Some(info.projectId)
    requires cwd != "" && w.client.activatedForCwd != Some(cwd) && outcome.upsert
    ensures var v := Run(w, SwitchEvents(cwd, info, w.client.nextBeat, outcome));
            && (w.client.projectId.value in v.rows <==> PathScoped(w.client))
            && info.projectId in v.rows
            && v.client.projectId == Some(info.projectId) && v.client.activatedForCwd == Some(cwd)
            && v.client.activation == Idle && v.client.outbox == []
  {
    var id, p := w.client.nextBeat, w.client.projectId.value;
    var es := SwitchEvents(cwd, info, id, outcome);
    hide Inv, Settled, Step, Run, PathScoped, CanRegister, Awaits;
    SwitchIsServed(w, cwd, info, outcome);
    var w4 := Step(Step(Step(Step(w, es[0]), es[1]), es[2]), es[3]);
    ActivationRegisters(w4, cwd, p, outcome);
    var w7 := Step(Step(Step(w4, es[4]), es[5]), es[6]);
    AcknowledgedBeatEnds(w7, id);
    SwitchRun(w, es);
  }

  lemma CanRegisterCarries(c: Client, c': Client)
    requires CanRegister(c) && c'.projectId == c.projectId && c'.projectPath == c.projectPath
    ensures CanRegister(c')
  {
  }

  lemma SwitchRun(w: World, es: seq<Event>)
    requires |es| == 8
    ensures Run(w, es) ==
            Step(Step(Step(Step(Step(Step(Step(Step(w, es[0]), es[1]), es[2]), es[3]), es[4]), es[5]), es[6]), es[7])
  {
    hide Step;
    var w4 := Step(Step(Step(Step(w, es[0]), es[1]), es[2]), es[3]);
    var w8 := Step(Step(Step(Step(w4, es[4]), es[5]), es[6]), es[7]);
    assert Run(w, es) == w8 by {
      assert es[1..][1..] == es[2..] && es[2..][1..] == es[3..] && es[3..][1..] == es[4..] && es[4..][1..] == es[5..];
      assert es[5..][1..] == es[6..] && es[6..][1..] == es[7..] && es[7..][1..] == [];
      RunOne(w, es);
      RunOne(Step(w, es[0]), es[1..]);
      RunOne(Step(Step(w, es[0]), es[1]), es[2..]);
      RunOne(Step(Step(Step(w, es[0]), es[1]), es[2]), es[3..]);
      RunOne(w4, es[4..]);
      RunOne(Step(w4, es[4]), es[5..]);
      RunOne(Step(Step(w4, es[4]), es[5]), es[6..]);
      RunOne(Step(Step(Step(w4, es[4]), es[5]), es[6]), es[7..]);
    }
  }

  /** A session that bootstrapped in a worktree, its one row, and nothing outstanding. */
  function WorktreeSession(): World {
    var c := Client(Some("a"), Some("/a"), true, Some("/a"), None, None, false, true, false, false, Idle, map[], 0,
                    NotStarted, []);
    World(c, map[], map["a" := 0], 0, false, {}, map[])
  }

  lemma WorktreeSessionStarts()
    ensures var w := WorktreeSession();
            && Init(w) && Inv(w) && Settled(w) && PathScoped(w.client)
            && w.client.projectId == Some("a") && "a" in w.rows && w.client.activatedForCwd == None
  {
    InitHasInv(WorktreeSession());
    hide Inv;
  }

  /** Without the proviso the claim is false: a session that bootstrapped in a worktree switches with no call lost,
      every frame ends, and the row of the project it left is still there. */
  lemma WorktreeSwitchStrandsRow() returns (w: World, es: seq<Event>)
    ensures Init(w) && w.client.projectId == Some("a") && PathScoped(w.client)
    ensures forall i :: 0 <= i < |es| && es[i].Serve? ==> es[i].delivery == Delivered
    ensures var v := Run(w, es); v.client.projectId == Some("b") && v.client.outbox == [] && "a" in v.rows && "b" in v.rows
  {
    hide WorktreeSession, Init, Inv, Settled, PathScoped, Run;
    w := WorktreeSession();
    WorktreeSessionStarts();
    var info, outcome := ProjectInfo("b", "/b"), RegisterOutcome(true, true, false, None);
    es := SwitchEvents("/b", info, w.client.nextBeat, outcome);
    SwitchReleasesRowIffNotPathScoped(w, "/b", info, outcome);
  }
}
