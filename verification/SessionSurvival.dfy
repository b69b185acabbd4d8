/** Survival of a live session's row: as long as the session stays with its project, only a reap that comes too late
    after the last served beat can remove the row. */
module SessionSurvival {
  import opened Wrappers
  import opened SessionClient
  import opened SessionProtocol
  import opened SessionLiveness

  /** A client segment that releases nothing. */
  ghost predicate IssuesNoRelease(c: Client, c': Client) {
    || c'.outbox == c.outbox
    || exists call :: c'.outbox == c.outbox + [call] && !call.rpc.Deprioritize?
  }

  lemma BeginBeatReleasesNothing(c: Client, onTimer: bool)
    ensures IssuesNoRelease(c, BeginBeat(c, onTimer))
  {
    if c.projectId.Some? {
      assert BeginBeat(c, onTimer).outbox == c.outbox + [Call(OfBeat(c.nextBeat), Beat(c.projectId.value))];
    }
  }

  lemma ToolCallReleasesNothing(c: Client, cwd: string, suspicious: bool, git: Option<bool>)
    ensures IssuesNoRelease(c, ToolCall(c, cwd, suspicious, git))
  {
    hide BeginBeat, IssuesNoRelease;
    BeginBeatReleasesNothing(c, false);
    assert ToolCall(c, cwd, suspicious, git).outbox == BeginBeat(c, false).outbox;
    SameOutbox(c, BeginBeat(c, false), ToolCall(c, cwd, suspicious, git));
  }

  lemma SameOutbox(c: Client, c1: Client, c2: Client)
    requires IssuesNoRelease(c, c1) && c2.outbox == c1.outbox
    ensures IssuesNoRelease(c, c2)
  {
  }

  lemma ResumeActivationReleasesNothing(c: Client, reply: Reply)
    ensures IssuesNoRelease(c, ResumeActivation(c, reply))
  {
    if c.activation.Releasing? && CanRegister(c) {
      assert ResumeActivation(c, reply).outbox == c.outbox + [Call(OfActivation, Register(c.projectId.value))];
    }
  }

  /** A look-up releases something only when it changes the project. */
  lemma LookUpReleasesNothing(c: Client, info: Option<ProjectInfo>, gitWorktree: bool)
    requires c.activation.Resolving? && c.projectId.Some? && ProjectResolved(c, info, gitWorktree).projectId == c.projectId
    ensures ProjectResolved(c, info, gitWorktree).outbox == c.outbox
  {
  }

  lemma TimerReleasesNothing(w: World, e: Event)
    requires e.StartHeartbeat? || e.TimerFires?
    ensures IssuesNoRelease(w.client, Step(w, e).client)
  {
    hide BeginBeat;
    BeginBeatReleasesNothing(w.client, true);
    BeginBeatReleasesNothing(w.client.(timerArmed := false), true);
  }

  lemma ResumeBeatReleasesNothing(w: World, id: int)
    requires Inv(w)
    ensures IssuesNoRelease(w.client, Step(w, BeatResumes(id)).client)
  {
    InvFacts(w);
    hide Inv, ResumeBeat;
    if id in w.client.beats && OfBeat(id) in w.replies {
      ResumeBeatShape(w.client, id, w.replies[OfBeat(id)]);
    }
  }

  lemma SelfRepoBeatReleasesNothing(w: World, id: int)
    ensures Step(w, SelfRepoBeatEnds(id)).client.outbox == w.client.outbox
  {
  }

  /** While the project stays, only a cleanup issues a release. */
  lemma StepReleasesNothing(w: World, e: Event, p: string)
    requires Inv(w) && !e.Serve? && !e.CleanupStarts?
    requires w.client.projectId == Some(p) && Step(w, e).client.projectId == Some(p)
    ensures IssuesNoRelease(w.client, Step(w, e).client)
  {
    var c := w.client;
    hide Inv, ProjectResolved, ResumeActivation, IssuesNoRelease, ToolCall;
    match e
    case StartHeartbeat => hide Step; TimerReleasesNothing(w, e);
    case TimerFires => hide Step; TimerReleasesNothing(w, e);
    case ToolCallArrives(cwd, suspicious, git) => ToolCallReleasesNothing(c, cwd, suspicious, git);
    case BeatResumes(id) => hide Step; ResumeBeatReleasesNothing(w, id);
    case SelfRepoBeatEnds(id) =>
      hide Step;
      SelfRepoBeatReleasesNothing(w, id);
      NothingReleased(c, Step(w, e).client);
    case ProjectLookedUp(info, gitWorktree) =>
      if c.activation.Resolving? { LookUpReleasesNothing(c, info, gitWorktree); }
      NothingReleased(c, Step(w, e).client);
    case ActivationResumes =>
      NothingReleased(c, c);
      if OfActivation in w.replies { ResumeActivationReleasesNothing(c, w.replies[OfActivation]); }
    case CleanupResumes => NothingReleased(c, Step(w, e).client);
    case Reap(_) => NothingReleased(c, c);
    case ForgetRows => NothingReleased(c, c);
    case Wait(_) => NothingReleased(c, c);
  }

  lemma NothingReleased(c: Client, c': Client)
    requires c'.outbox == c.outbox
    ensures IssuesNoRelease(c, c')
  {
  }

  lemma NoReleaseAppended(c: Client, c': Client, p: string)
    requires IssuesNoRelease(c, c') && !ReleaseIn(c.outbox, p)
    ensures !ReleaseIn(c'.outbox, p)
  {
    if c'.outbox != c.outbox {
      var call :| c'.outbox == c.outbox + [call] && !call.rpc.Deprioritize?;
      ReleaseInAppend(c.outbox, [call], p);
    }
  }

  lemma NoReleaseInTail(q: seq<Call>, p: string)
    requires q != [] && !ReleaseIn(q, p)
    ensures !ReleaseIn(q[1..], p) && !(q[0].rpc.Deprioritize? && q[0].rpc.project == p)
  {
    var head := [q[0]];
    assert q == head + q[1..];
    ReleaseInAppend(head, q[1..], p);
    assert head[0] == q[0];
    assert q[0].rpc.Deprioritize? && q[0].rpc.project == p ==> ReleaseIn(head, p);
  }

  /** The session's row, not yet beaten later than now, and no release of it under way. */
  ghost predicate Live(w: World, p: string) {
    w.client.projectId == Some(p) && p in w.rows && w.rows[p] <= w.now && !ReleaseIn(w.client.outbox, p)
  }

  /** The event neither ends the session nor makes the daemon forget, leaves the project, or reaps later than the timeout
      after the row's last served beat. Runs whose ticks are timely meet this (`SessionDeadline`). */
  ghost predicate Spares(w: World, e: Event, p: string) {
    && !e.CleanupStarts? && !e.ForgetRows? && Step(w, e).client.projectId == Some(p)
    && (e.Reap? && p in w.rows ==> w.now - w.rows[p] <= e.timeoutMs)
  }

  lemma ServeSpares(w: World, delivery: Delivery, outcome: RegisterOutcome, p: string)
    requires Live(w, p) && w.client.outbox != []
    ensures var v := ServeHead(w, delivery, outcome); Live(v, p) && v.rows[p] >= w.rows[p]
  {
    hide ReleaseIn;
    NoReleaseInTail(w.client.outbox, p);
  }

  lemma StepSpares(w: World, e: Event, p: string)
    requires Inv(w) && Live(w, p) && Spares(w, e, p)
    ensures Live(Step(w, e), p) && Step(w, e).rows[p] >= w.rows[p]
  {
    hide Inv, ReleaseIn;
    if e.Serve? {
      if w.client.outbox != [] { ServeSpares(w, e.delivery, e.outcome, p); }
    } else {
      StepReleasesNothing(w, e, p);
      NoReleaseAppended(w.client, Step(w, e).client, p);
      RowsOfQuietStep(w, e);
      hide Step;
      assert e.Reap? ==> w.rows[p] >= w.now - e.timeoutMs;
    }
  }

  ghost predicate AllSpare(w: World, es: seq<Event>, p: string)
    decreases |es|
  {
    es == [] || (Spares(w, es[0], p) && AllSpare(Step(w, es[0]), es[1..], p))
  }

  /** In every interleaving, with calls lost or answered late, a session that stays with its project keeps its row as
      long as no reap comes later than its timeout after the last served beat; nothing else removes it. */
  lemma {:induction false} LiveRowSurvives(w: World, es: seq<Event>, p: string)
    requires Inv(w) && Live(w, p) && AllSpare(w, es, p)
    ensures Live(Run(w, es), p) && Run(w, es).rows[p] >= w.rows[p]
    decreases |es|
  {
    hide Inv, Live, Spares, Step;
    if es != [] {
      StepKeepsInv(w, es[0]);
      StepSpares(w, es[0], p);
      LiveRowSurvives(Step(w, es[0]), es[1..], p);
    }
  }
}
