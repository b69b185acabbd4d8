/** The session client against the daemon: every interleaving of its frames, of call delivery and of the reaper.

    The daemon is the set of rows held under this session's id, each with the time of its last beat. It serves the
    session's calls in the order they were issued; a call may be lost, and so may its response. */
module SessionProtocol {
  import opened Wrappers
  import opened SessionClient

  /** `rows` maps a project to the last beat of this session's row. `stranded` and `resolved` are history: projects
      whose release did not reach their row, and what each working directory last resolved to. */
  datatype World = World(
    client: Client,
    replies: map<Owner, Reply>,
    rows: map<string, int>,
    now: int,
    started: bool,
    stranded: set<string>,
    resolved: map<string, string>)

  datatype Delivery = Delivered | ReplyLost | CallLost

  /** The daemon's choice for a register: it may know the project (a row is upserted) or not. */
  datatype RegisterOutcome = RegisterOutcome(upsert: bool, accepted: bool, isWorktree: bool, watchPath: Option<string>)

  datatype Event =
    | StartHeartbeat
    | TimerFires
    | ToolCallArrives(cwd: string, suspicious: bool, git: Option<bool>)
    | ProjectLookedUp(info: Option<ProjectInfo>, gitWorktree: bool)
    | ActivationResumes
    | BeatResumes(id: int)
    | SelfRepoBeatEnds(id: int)
    | CleanupStarts
    | CleanupResumes
    | Serve(delivery: Delivery, outcome: RegisterOutcome)
    | Reap(timeoutMs: int)
    | ForgetRows
    | Wait(ms: nat)

  // ---- Steps -----------------------------------------------------------------------------------------------

  function RowsAfter(w: World, rpc: Rpc, delivery: Delivery, outcome: RegisterOutcome): map<string, int> {
    if delivery == CallLost then w.rows
    else
      match rpc
      case Register(p) => if outcome.upsert then w.rows[p := w.now] else w.rows
      case Beat(p) => if p in w.rows then w.rows[p := w.now] else w.rows
      case Deprioritize(p, scoped) => if scoped then w.rows else w.rows - {p}
  }

  function ReplyTo(w: World, rpc: Rpc, delivery: Delivery, outcome: RegisterOutcome): Reply {
    if delivery != Delivered then Failed
    else
      match rpc
      case Register(_) => Registration(outcome.accepted, outcome.isWorktree, outcome.watchPath)
      case Beat(p) => if p in w.rows then Acknowledged else NoSession
      case Deprioritize(_, _) => Released
  }

  function StrandedAfter(w: World, rpc: Rpc, delivery: Delivery): set<string> {
    if !rpc.Deprioritize? then w.stranded
    else if delivery == CallLost || rpc.pathScoped then w.stranded + {rpc.project}
    else w.stranded - {rpc.project}
  }

  function ServeHead(w: World, delivery: Delivery, outcome: RegisterOutcome): World
    requires w.client.outbox != []
  {
    var call := w.client.outbox[0];
    w.(client := w.client.(outbox := w.client.outbox[1..]),
       replies := w.replies[call.owner := ReplyTo(w, call.rpc, delivery, outcome)],
       rows := RowsAfter(w, call.rpc, delivery, outcome),
       stranded := StrandedAfter(w, call.rpc, delivery))
  }

  /** The reaper deletes every row whose last beat is older than the timeout. */
  function ReapRows(rows: map<string, int>, now: int, timeoutMs: int): map<string, int> {
    map p | p in rows && rows[p] >= now - timeoutMs :: rows[p]
  }

  function LookUp(w: World, info: Option<ProjectInfo>, gitWorktree: bool): World
    requires w.client.activation.Resolving?
  {
    var cwd := w.client.activation.cwd;
    w.(client := ProjectResolved(w.client, info, gitWorktree),
       resolved := if info.Some? then w.resolved[cwd := info.value.projectId] else w.resolved)
  }

  /** An event that is not possible in `w` changes nothing. */
  function Step(w: World, e: Event): World {
    var c := w.client;
    match e
    case StartHeartbeat =>
      if w.started then w else w.(started := true, client := BeginBeat(c, true))
    case TimerFires =>
      if c.timerArmed then w.(client := FireTimer(c)) else w
    case ToolCallArrives(cwd, suspicious, git) =>
      w.(client := ToolCall(c, cwd, suspicious, git))
    case ProjectLookedUp(info, gitWorktree) =>
      if c.activation.Resolving? then LookUp(w, info, gitWorktree) else w
    case ActivationResumes =>
      if OfActivation in w.replies then
        w.(client := ResumeActivation(c, w.replies[OfActivation]), replies := w.replies - {OfActivation})
      else w
    case BeatResumes(id) =>
      if id in c.beats && OfBeat(id) in w.replies then
        w.(client := ResumeBeat(c, id, w.replies[OfBeat(id)]), replies := w.replies - {OfBeat(id)})
      else w
    case SelfRepoBeatEnds(id) =>
      if id in c.beats then w.(client := SelfRepoDone(c, id)) else w
    case CleanupStarts =>
      w.(client := Cleanup(c))
    case CleanupResumes =>
      if OfCleanup in w.replies then w.(client := ResumeCleanup(c), replies := w.replies - {OfCleanup}) else w
    case Serve(delivery, outcome) =>
      if c.outbox != [] then ServeHead(w, delivery, outcome) else w
    case Reap(timeoutMs) =>
      w.(rows := ReapRows(w.rows, w.now, timeoutMs))
    case ForgetRows =>
      w.(rows := map[])
    case Wait(ms) =>
      w.(now := w.now + ms)
  }

  /** A run, earliest event first. */
  function Run(w: World, es: seq<Event>): World
    decreases |es|
  {
    if es == [] then w else Run(Step(w, es[0]), es[1..])
  }

  /** Bootstrap has settled and the heartbeat loop has not started. */
  ghost predicate Init(w: World) {
    var c := w.client;
    && (c.projectId.Some? ==> c.projectPath.Some?)
    && c.activatedForCwd == None && c.activatingCwd == None && c.activation == Idle
    && !c.cleaned && !c.timerArmed && c.beats == map[] && c.teardown == NotStarted && c.outbox == []
    && w.replies == map[] && !w.started && w.stranded == {} && w.resolved == map[]
    && (forall p :: p in w.rows ==> c.projectId == Some(p))
  }

  // ---- The invariant ---------------------------------------------------------------------------------------

  /** `owner` is a suspended frame waiting for a response. */
  ghost predicate Awaits(c: Client, owner: Owner) {
    match owner
    case OfActivation => c.activation.Releasing? || c.activation.Activating?
    case OfBeat(id) => id in c.beats && !c.beats[id].stage.SelfBeating?
    case OfCleanup => c.teardown.ReleasingLast?
  }

  /** The call is the one its frame is waiting for. */
  ghost predicate Matches(c: Client, call: Call) {
    && Awaits(c, call.owner)
    && match call.owner
       case OfActivation =>
         if c.activation.Releasing? then call.rpc.Deprioritize? && call.rpc.project == c.activation.previous
         else call.rpc.Register? && c.projectId == Some(call.rpc.project)
       case OfBeat(id) =>
         if c.beats[id].stage.Beating? then call.rpc == Beat(c.beats[id].stage.project) else call.rpc.Register?
       case OfCleanup => call.rpc.Deprioritize? && call.rpc.project == c.teardown.project
  }

  ghost predicate Pending(q: seq<Call>, owner: Owner) {
    exists i :: 0 <= i < |q| && q[i].owner == owner
  }

  ghost predicate CallsMatch(c: Client) {
    forall i :: 0 <= i < |c.outbox| ==> Matches(c, c.outbox[i])
  }

  ghost predicate OwnersDistinct(q: seq<Call>) {
    forall i, j :: 0 <= i < j < |q| ==> q[i].owner != q[j].owner
  }

  /** Every waiting frame has exactly one call in flight or one response at hand, and nothing else is outstanding. */
  ghost predicate Correlated(w: World) {
    && CallsMatch(w.client)
    && OwnersDistinct(w.client.outbox)
    && (forall o :: o in w.replies ==> Awaits(w.client, o) && !Pending(w.client.outbox, o))
    && (forall o :: Awaits(w.client, o) ==> o in w.replies || Pending(w.client.outbox, o))
  }

  /** A release of `p` is still on its way to the daemon. */
  ghost predicate ReleaseIn(q: seq<Call>, p: string) {
    exists i :: 0 <= i < |q| && q[i].rpc.Deprioritize? && q[i].rpc.project == p
  }

  /** A register for any project but the current one has a release of that project behind it. */
  ghost predicate RegistersCovered(q: seq<Call>, current: Option<string>) {
    forall i :: 0 <= i < |q| && q[i].rpc.Register? && current != Some(q[i].rpc.project)
      ==> ReleaseIn(q[i + 1..], q[i].rpc.project)
  }

  ghost predicate RowsCovered(w: World) {
    forall p :: p in w.rows && w.client.projectId != Some(p) ==> p in w.stranded || ReleaseIn(w.client.outbox, p)
  }

  ghost predicate RecordConsistent(w: World) {
    var c := w.client;
    && (c.projectId.Some? ==> c.projectPath.Some?)
    && (c.projectId.None? ==> !c.activation.Releasing? && !c.activation.Activating?
                              && forall id :: id in c.beats ==> c.beats[id].stage.SelfBeating?)
    && (c.activatingCwd.Some? <==> c.activation != Idle)
    && (c.activatingCwd.Some? ==> c.activatingCwd.value == c.activation.cwd)
    && (forall id :: id in c.beats ==> id < c.nextBeat)
    && (c.teardown == NotStarted <==> !c.cleaned)
    && (c.activation.Resolving? ==> c.activatedForCwd != Some(c.activation.cwd))
    && (c.activation.Releasing? || c.activation.Activating? ==>
          c.activation.cwd in w.resolved && c.projectId == Some(w.resolved[c.activation.cwd]))
    && (c.activation.Idle? || c.activation.Resolving? ==> ActivatedIsResolved(w))
  }

  ghost predicate ActivatedIsResolved(w: World) {
    w.client.activatedForCwd.Some? ==>
      w.client.activatedForCwd.value in w.resolved
      && w.client.projectId == Some(w.resolved[w.client.activatedForCwd.value])
  }

  ghost predicate Inv(w: World) {
    && Correlated(w)
    && RegistersCovered(w.client.outbox, w.client.projectId)
    && RowsCovered(w)
    && RecordConsistent(w)
  }

  // ---- Queue facts -----------------------------------------------------------------------------------------

  lemma ReleaseInAppend(q: seq<Call>, more: seq<Call>, p: string)
    ensures ReleaseIn(q + more, p) <==> ReleaseIn(q, p) || ReleaseIn(more, p)
  {
    var all := q + more;
    if ReleaseIn(q, p) {
      var i :| 0 <= i < |q| && q[i].rpc.Deprioritize? && q[i].rpc.project == p;
      assert all[i] == q[i];
    }
    if ReleaseIn(more, p) {
      var i :| 0 <= i < |more| && more[i].rpc.Deprioritize? && more[i].rpc.project == p;
      assert all[|q| + i] == more[i];
    }
  }

  lemma PendingAppend(q: seq<Call>, call: Call, owner: Owner)
    ensures Pending(q + [call], owner) <==> Pending(q, owner) || call.owner == owner
  {
    var all := q + [call];
    if Pending(q, owner) {
      var i :| 0 <= i < |q| && q[i].owner == owner;
      assert all[i].owner == owner;
    }
    assert all[|q|] == call;
  }

  lemma PendingTail(q: seq<Call>, owner: Owner)
    requires q != [] && OwnersDistinct(q)
    ensures Pending(q[1..], owner) <==> Pending(q, owner) && owner != q[0].owner
  {
    if Pending(q, owner) && owner != q[0].owner {
      var i :| 0 <= i < |q| && q[i].owner == owner;
      assert q[1..][i - 1].owner == owner;
    }
    if Pending(q[1..], owner) {
      var i :| 0 <= i < |q[1..]| && q[1..][i].owner == owner;
      assert q[i + 1].owner == owner;
    }
  }

  /** Registers stay covered when a register for the current project is issued. */
  lemma CoveredAppend(q: seq<Call>, call: Call, current: Option<string>)
    requires RegistersCovered(q, current)
    requires call.rpc.Register? ==> current == Some(call.rpc.project)
    ensures RegistersCovered(q + [call], current)
  {
    var all := q + [call];
    forall i | 0 <= i < |all| && all[i].rpc.Register? && current != Some(all[i].rpc.project)
      ensures ReleaseIn(all[i + 1..], all[i].rpc.project)
    {
      assert all[i] == q[i];
      assert all[i + 1..] == q[i + 1..] + [call];
      ReleaseInAppend(q[i + 1..], [call], all[i].rpc.project);
    }
  }

  /** The switch: the current project changes together with the issue of the left one's release. */
  lemma CoveredSwitch(q: seq<Call>, left: string, scoped: bool, current: Option<string>)
    requires RegistersCovered(q, Some(left))
    ensures RegistersCovered(q + [Call(OfActivation, Deprioritize(left, scoped))], current)
  {
    var release := Call(OfActivation, Deprioritize(left, scoped));
    var all := q + [release];
    forall i | 0 <= i < |all| && all[i].rpc.Register? && current != Some(all[i].rpc.project)
      ensures ReleaseIn(all[i + 1..], all[i].rpc.project)
    {
      assert all[i] == q[i];
      assert all[i + 1..] == q[i + 1..] + [release];
      ReleaseInAppend(q[i + 1..], [release], all[i].rpc.project);
      assert [release][0].rpc.Deprioritize?;
    }
  }

  lemma CoveredTail(q: seq<Call>, current: Option<string>)
    requires q != [] && RegistersCovered(q, current)
    ensures RegistersCovered(q[1..], current)
  {
    var tail := q[1..];
    forall i | 0 <= i < |tail| && tail[i].rpc.Register? && current != Some(tail[i].rpc.project)
      ensures ReleaseIn(tail[i + 1..], tail[i].rpc.project)
    {
      assert q[i + 1] == tail[i];
      assert q[i + 1 + 1..] == tail[i + 1..];
    }
  }

  // ---- Every event keeps the invariant ---------------------------------------------------------------------

  lemma ServeKeepsCorrelated(w: World, delivery: Delivery, outcome: RegisterOutcome)
    requires Correlated(w) && w.client.outbox != []
    ensures Correlated(ServeHead(w, delivery, outcome))
  {
    var c, q := w.client, w.client.outbox;
    var c' := c.(outbox := q[1..]);
    var w' := ServeHead(w, delivery, outcome);
    forall o ensures Awaits(c', o) == Awaits(c, o) {}
    forall o ensures Pending(q[1..], o) <==> Pending(q, o) && o != q[0].owner {
      PendingTail(q, o);
    }
    assert Matches(c, q[0]);
    forall i | 0 <= i < |q| - 1 ensures Matches(c', c'.outbox[i]) {
      assert Matches(c, q[i + 1]);
    }
    assert Pending(q, q[0].owner);
  }

  lemma ServeKeepsRows(w: World, delivery: Delivery, outcome: RegisterOutcome)
    requires RegistersCovered(w.client.outbox, w.client.projectId) && RowsCovered(w) && w.client.outbox != []
    ensures RowsCovered(ServeHead(w, delivery, outcome))
  {
    var q := w.client.outbox;
    var w' := ServeHead(w, delivery, outcome);
    forall p | p in w'.rows && w'.client.projectId != Some(p)
      ensures p in w'.stranded || ReleaseIn(q[1..], p)
    {
      ReleaseInAppend([q[0]], q[1..], p);
      assert q == [q[0]] + q[1..];
      assert ReleaseIn([q[0]], p) ==> q[0].rpc.Deprioritize? && q[0].rpc.project == p;
      if p !in w.rows {
        assert q[0].rpc == Register(p);
        assert q[0 + 1..] == q[1..];
      }
    }
  }

  lemma ServeKeepsInv(w: World, delivery: Delivery, outcome: RegisterOutcome)
    requires Inv(w) && w.client.outbox != []
    ensures Inv(ServeHead(w, delivery, outcome))
  {
    ServeKeepsCorrelated(w, delivery, outcome);
    ServeKeepsRows(w, delivery, outcome);
    CoveredTail(w.client.outbox, w.client.projectId);
  }

  /** A frame that was not waiting issues one call. */
  lemma SendKeepsCorrelated(w: World, w': World, owner: Owner, rpc: Rpc)
    requires Correlated(w) && !Awaits(w.client, owner)
    requires w'.replies == w.replies && w'.client.outbox == w.client.outbox + [Call(owner, rpc)]
    requires Matches(w'.client, Call(owner, rpc))
    requires forall o :: o != owner ==> Awaits(w'.client, o) == Awaits(w.client, o)
    requires forall i :: 0 <= i < |w.client.outbox| ==> Matches(w'.client, w.client.outbox[i])
    ensures Correlated(w')
  {
    var q, call := w.client.outbox, Call(owner, rpc);
    forall o ensures Pending(q + [call], o) <==> Pending(q, o) || o == owner {
      PendingAppend(q, call, o);
    }
    assert !Pending(q, owner) by {
      forall i | 0 <= i < |q| ensures q[i].owner != owner {
        assert Matches(w.client, q[i]);
      }
    }
    forall i | 0 <= i < |q + [call]| ensures Matches(w'.client, (q + [call])[i]) {}
    forall i, j | 0 <= i < j < |q + [call]| ensures (q + [call])[i].owner != (q + [call])[j].owner {
      if j == |q| { assert Pending(q, q[i].owner); }
    }
  }

  /** A frame takes its response and stops waiting. */
  lemma ResumeKeepsCorrelated(w: World, w': World, owner: Owner)
    requires Correlated(w) && owner in w.replies
    requires w'.replies == w.replies - {owner} && w'.client.outbox == w.client.outbox
    requires !Awaits(w'.client, owner)
    requires forall o :: o != owner ==> Awaits(w'.client, o) == Awaits(w.client, o)
    requires forall i :: 0 <= i < |w.client.outbox| && w.client.outbox[i].owner != owner
               ==> Matches(w'.client, w.client.outbox[i])
    ensures Correlated(w')
  {
    var q := w.client.outbox;
    forall i | 0 <= i < |q| ensures Matches(w'.client, q[i]) {
      assert Pending(q, q[i].owner);
    }
  }

  /** No frame starts or stops waiting. */
  lemma QuietKeepsCorrelated(w: World, w': World)
    requires Correlated(w) && w'.replies == w.replies && w'.client.outbox == w.client.outbox
    requires forall o :: Awaits(w'.client, o) == Awaits(w.client, o)
    requires forall i :: 0 <= i < |w.client.outbox| ==> Matches(w'.client, w.client.outbox[i])
    ensures Correlated(w')
  {
  }

  /** The daemon's rows stay covered when a frame issues a call that is no register of a foreign project. */
  lemma SendKeepsCovered(w: World, w': World, call: Call)
    requires RegistersCovered(w.client.outbox, w.client.projectId) && RowsCovered(w)
    requires w'.client.projectId == w.client.projectId && w'.rows == w.rows && w'.stranded == w.stranded
    requires w'.client.outbox == w.client.outbox + [call]
    requires call.rpc.Register? ==> w.client.projectId == Some(call.rpc.project)
    ensures RegistersCovered(w'.client.outbox, w'.client.projectId) && RowsCovered(w')
  {
    CoveredAppend(w.client.outbox, call, w.client.projectId);
    forall p ensures ReleaseIn(w.client.outbox, p) ==> ReleaseIn(w'.client.outbox, p) {
      ReleaseInAppend(w.client.outbox, [call], p);
    }
  }

  lemma SettingsKeepInv(w: World, timerArmed: bool, connected: bool, isWorktree: bool, watchPath: Option<string>)
    requires Inv(w)
    ensures Inv(w.(client := w.client.(timerArmed := timerArmed, daemonConnected := connected, isWorktree := isWorktree,
                                       watchPath := watchPath)))
  {
    var w' := w.(client := w.client.(timerArmed := timerArmed, daemonConnected := connected, isWorktree := isWorktree,
                                     watchPath := watchPath));
    forall o ensures Awaits(w'.client, o) == Awaits(w.client, o) {}
    forall i | 0 <= i < |w.client.outbox| ensures Matches(w'.client, w.client.outbox[i]) {
      assert Matches(w.client, w.client.outbox[i]);
    }
    QuietKeepsCorrelated(w, w');
  }

  /** Adding or dropping a frame that waits for no call of this session. */
  lemma IdleFrameKeepsInv(w: World, beats: map<int, BeatFrame>, nextBeat: int)
    requires Inv(w) && w.client.nextBeat <= nextBeat
    requires forall id :: id in beats ==> id < nextBeat
    requires forall id :: Awaits(w.client.(beats := beats), OfBeat(id)) == Awaits(w.client, OfBeat(id))
    requires forall id :: Awaits(w.client, OfBeat(id)) ==> id in beats && beats[id] == w.client.beats[id]
    ensures Inv(w.(client := w.client.(beats := beats, nextBeat := nextBeat)))
  {
    var w' := w.(client := w.client.(beats := beats, nextBeat := nextBeat));
    forall o ensures Awaits(w'.client, o) == Awaits(w.client, o) {
      if o.OfBeat? { assert Awaits(w.client.(beats := beats), o) == Awaits(w.client, o); }
    }
    forall i | 0 <= i < |w.client.outbox| ensures Matches(w'.client, w.client.outbox[i]) {
      assert Matches(w.client, w.client.outbox[i]);
    }
    QuietKeepsCorrelated(w, w');
    forall id | id in beats && w.client.projectId.None? ensures beats[id].stage.SelfBeating? {
      assert Awaits(w'.client, OfBeat(id)) == Awaits(w.client, OfBeat(id));
    }
  }

  lemma FinishKeepsInv(w: World, id: int)
    requires Inv(w) && id in w.client.beats && w.client.beats[id].stage.SelfBeating?
    ensures Inv(w.(client := FinishBeat(w.client, id)))
  {
    var c := w.client;
    IdleFrameKeepsInv(w, c.beats - {id}, c.nextBeat);
    var w1 := w.(client := c.(beats := c.beats - {id}));
    SettingsKeepInv(w1, c.timerArmed || c.beats[id].onTimer, c.daemonConnected, c.isWorktree, c.watchPath);
  }

  lemma SelfRepoStageKeepsInv(w: World, id: int)
    requires Inv(w) && id in w.client.beats && w.client.beats[id].stage.SelfBeating?
    ensures Inv(w.(client := AfterProjectBeat(w.client, id)))
  {
    var c := w.client;
    if c.selfRepo {
      assert c.beats[id := c.beats[id].(stage := SelfBeating)] == c.beats;
    } else {
      FinishKeepsInv(w, id);
    }
  }

  /** An idle heartbeat frame issues its next call. */
  lemma BeatSendsKeepsInv(w: World, id: int, stage: BeatStage, rpc: Rpc)
    requires Inv(w) && id in w.client.beats && w.client.beats[id].stage.SelfBeating? && w.client.projectId.Some?
    requires || (stage == Beating(w.client.projectId.value) && rpc == Beat(w.client.projectId.value))
             || (stage == ReRegistering && rpc == Register(w.client.projectId.value))
    ensures Inv(w.(client := Send(w.client.(beats := w.client.beats[id := w.client.beats[id].(stage := stage)]), OfBeat(id), rpc)))
  {
    var c := w.client;
    var w' := w.(client := Send(c.(beats := c.beats[id := c.beats[id].(stage := stage)]), OfBeat(id), rpc));
    forall o | o != OfBeat(id) ensures Awaits(w'.client, o) == Awaits(c, o) {}
    forall i | 0 <= i < |c.outbox| ensures Matches(w'.client, c.outbox[i]) {
      assert Matches(c, c.outbox[i]);
    }
    SendKeepsCorrelated(w, w', OfBeat(id), rpc);
    SendKeepsCovered(w, w', Call(OfBeat(id), rpc));
  }

  lemma InvFacts(w: World)
    requires Inv(w)
    ensures w.client.nextBeat !in w.client.beats
    ensures forall id :: id in w.client.beats ==> id < w.client.nextBeat
    ensures forall o :: o in w.replies ==> Awaits(w.client, o)
    ensures w.client.projectId.Some? ==> w.client.projectPath.Some?
    ensures w.client.activatingCwd.Some? <==> w.client.activation != Idle
  {
  }

  lemma BeginBeatKeepsInv(w: World, onTimer: bool)
    requires Inv(w)
    ensures Inv(w.(client := BeginBeat(w.client, onTimer)))
  {
    hide Inv;
    InvFacts(w);
    var c := w.client;
    var id := c.nextBeat;
    var beats := c.beats[id := BeatFrame(onTimer, SelfBeating)];
    IdleFrameKeepsInv(w, beats, id + 1);
    var w1 := w.(client := c.(beats := beats, nextBeat := id + 1));
    if c.projectId.Some? {
      var p := c.projectId.value;
      BeatSendsKeepsInv(w1, id, Beating(p), Beat(p));
      assert w1.client.beats[id := w1.client.beats[id].(stage := Beating(p))] == c.beats[id := BeatFrame(onTimer, Beating(p))];
    } else {
      SelfRepoStageKeepsInv(w1, id);
    }
  }

  /** The two clients agree on everything but one heartbeat frame, the connection and git flags, and the outbox. */
  ghost predicate OnlyBeatMoved(c: Client, c': Client, id: int) {
    && c'.projectId == c.projectId && c'.projectPath == c.projectPath
    && c'.activatedForCwd == c.activatedForCwd && c'.activatingCwd == c.activatingCwd && c'.activation == c.activation
    && c'.cleaned == c.cleaned && c'.teardown == c.teardown && c'.nextBeat == c.nextBeat
    && (forall j :: j in c'.beats ==> j in c.beats && (j != id ==> c'.beats[j] == c.beats[j]))
    && (forall j :: j in c.beats && j != id ==> j in c'.beats)
  }

  lemma BeatMoveFacts(c: Client, c': Client, id: int)
    requires OnlyBeatMoved(c, c', id)
    ensures forall o :: o != OfBeat(id) ==> Awaits(c', o) == Awaits(c, o)
    ensures forall call: Call :: call.owner != OfBeat(id) && Matches(c, call) ==> Matches(c', call)
  {
  }

  /** The frame took its response and waits no more. */
  lemma BeatGoesIdle(w: World, w': World, id: int)
    requires Inv(w) && OfBeat(id) in w.replies && OnlyBeatMoved(w.client, w'.client, id)
    requires w' == w.(client := w'.client, replies := w.replies - {OfBeat(id)})
    requires w'.client.outbox == w.client.outbox && !Awaits(w'.client, OfBeat(id))
    ensures Inv(w')
  {
    BeatMoveFacts(w.client, w'.client, id);
    ResumeKeepsCorrelated(w, w', OfBeat(id));
  }

  /** The frame took its response and re-registers the current project. */
  lemma BeatReRegisters(w: World, w': World, id: int)
    requires Inv(w) && OfBeat(id) in w.replies && OnlyBeatMoved(w.client, w'.client, id)
    requires w' == w.(client := w'.client, replies := w.replies - {OfBeat(id)})
    requires id in w'.client.beats && w'.client.beats[id].stage == ReRegistering && w.client.projectId.Some?
    requires w'.client.outbox == w.client.outbox + [Call(OfBeat(id), Register(w.client.projectId.value))]
    ensures Inv(w')
  {
    var rpc := Register(w.client.projectId.value);
    var w1 := w'.(client := w'.client.(outbox := w.client.outbox, beats := w'.client.beats - {id}));
    BeatGoesIdle(w, w1, id);
    BeatMoveFacts(w1.client, w'.client.(beats := w1.client.beats), id);
    ReRegisterCorrelated(w1, w', id, rpc);
    SendKeepsCovered(w1, w', Call(OfBeat(id), rpc));
  }

  lemma ReRegisterCorrelated(w: World, w': World, id: int, rpc: Rpc)
    requires Correlated(w) && id !in w.client.beats && rpc.Register? && w'.replies == w.replies
    requires id in w'.client.beats && w'.client.beats[id].stage == ReRegistering
    requires w'.client == w.client.(beats := w'.client.beats, outbox := w.client.outbox + [Call(OfBeat(id), rpc)])
    requires w.client.beats == w'.client.beats - {id}
    ensures Correlated(w')
  {
    forall o | o != OfBeat(id) ensures Awaits(w'.client, o) == Awaits(w.client, o) {}
    forall i | 0 <= i < |w.client.outbox| ensures Matches(w'.client, w.client.outbox[i]) {
      assert Matches(w.client, w.client.outbox[i]);
    }
    SendKeepsCorrelated(w, w', OfBeat(id), rpc);
  }

  ghost predicate SameRecord(c: Client, c': Client) {
    && c'.projectId == c.projectId && c'.projectPath == c.projectPath
    && c'.activatedForCwd == c.activatedForCwd && c'.activatingCwd == c.activatingCwd && c'.activation == c.activation
    && c'.cleaned == c.cleaned && c'.teardown == c.teardown && c'.nextBeat == c.nextBeat && c'.selfRepo == c.selfRepo
    && c'.beats == c.beats && c'.outbox == c.outbox
  }

  lemma FinishShape(c: Client, c1: Client, id: int)
    requires id in c.beats && SameRecord(c, c1)
    ensures OnlyBeatMoved(c, FinishBeat(c1, id), id) && FinishBeat(c1, id).outbox == c.outbox
    ensures id !in FinishBeat(c1, id).beats
  {
  }

  lemma SelfRepoShape(c: Client, c1: Client, id: int)
    requires id in c.beats && SameRecord(c, c1)
    ensures OnlyBeatMoved(c, AfterProjectBeat(c1, id), id) && AfterProjectBeat(c1, id).outbox == c.outbox
    ensures !Awaits(AfterProjectBeat(c1, id), OfBeat(id))
  {
    FinishShape(c, c1, id);
  }

  /** What a resumed heartbeat does: at most one new call, a register of the project current at that moment. */
  ghost predicate ResumeShape(c: Client, c': Client, id: int) {
    && OnlyBeatMoved(c, c', id)
    && ( || (c'.outbox == c.outbox && !Awaits(c', OfBeat(id)))
         || (&& id in c'.beats && c'.beats[id].stage == ReRegistering && c.projectId.Some?
             && c'.outbox == c.outbox + [Call(OfBeat(id), Register(c.projectId.value))]))
  }

  lemma ProjectBeatShape(c: Client, id: int, reply: Reply)
    requires id in c.beats && c.beats[id].stage.Beating?
    ensures ResumeShape(c, ResumeBeat(c, id, reply), id)
  {
    var c1 := c.(daemonConnected := true);
    if reply == NoSession && CanRegister(c1) {
      var c' := ResumeBeat(c, id, reply);
      assert c'.beats == c.beats[id := c.beats[id].(stage := ReRegistering)];
    } else if reply == NoSession || reply == Acknowledged {
      assert ResumeBeat(c, id, reply) == AfterProjectBeat(c1, id);
      SelfRepoShape(c, c1, id);
    } else {
      FinishShape(c, c.(daemonConnected := false), id);
    }
  }

  lemma ResumeBeatShape(c: Client, id: int, reply: Reply)
    requires Awaits(c, OfBeat(id))
    ensures ResumeShape(c, ResumeBeat(c, id, reply), id)
  {
    if c.beats[id].stage.Beating? {
      ProjectBeatShape(c, id, reply);
    } else {
      SelfRepoShape(c, ApplyRegistration(c, reply), id);
    }
  }

  lemma BeatResumesKeepsInv(w: World, id: int)
    requires Inv(w) && id in w.client.beats && OfBeat(id) in w.replies
    ensures Inv(Step(w, BeatResumes(id)))
  {
    hide Inv;
    InvFacts(w);
    var c' := ResumeBeat(w.client, id, w.replies[OfBeat(id)]);
    ResumeBeatShape(w.client, id, w.replies[OfBeat(id)]);
    var w' := w.(client := c', replies := w.replies - {OfBeat(id)});
    assert Step(w, BeatResumes(id)) == w';
    hide ResumeBeat, Step;
    if c'.outbox == w.client.outbox && !Awaits(c', OfBeat(id)) {
      BeatGoesIdle(w, w', id);
    } else {
      BeatReRegisters(w, w', id);
    }
  }

  lemma BeginActivationKeepsInv(w: World, cwd: string, suspicious: bool)
    requires Inv(w)
    ensures Inv(w.(client := BeginActivation(w.client, cwd, suspicious)))
  {
    var w' := w.(client := BeginActivation(w.client, cwd, suspicious));
    if w' != w {
      ActivationQuiet(w, w');
    }
  }

  /** The activation frame moves between two states in which it waits for no call. */
  lemma ActivationQuiet(w: World, w': World)
    requires Correlated(w)
    requires w'.client == w.client.(activation := w'.client.activation, activatingCwd := w'.client.activatingCwd,
                                    activatedForCwd := w'.client.activatedForCwd)
    requires w'.replies == w.replies
    requires !Awaits(w.client, OfActivation) && !Awaits(w'.client, OfActivation)
    ensures Correlated(w')
  {
    forall o ensures Awaits(w'.client, o) == Awaits(w.client, o) {}
    forall i | 0 <= i < |w.client.outbox| ensures Matches(w'.client, w.client.outbox[i]) {
      assert Matches(w.client, w.client.outbox[i]);
    }
    QuietKeepsCorrelated(w, w');
  }

  /** The client points at a new project and the activation frame issues its first call. */
  lemma SwitchCorrelated(w: World, w': World, rpc: Rpc)
    requires Correlated(w) && !Awaits(w.client, OfActivation) && w'.replies == w.replies
    requires w'.client.beats == w.client.beats && w'.client.teardown == w.client.teardown
    requires w'.client.outbox == w.client.outbox + [Call(OfActivation, rpc)]
    requires Matches(w'.client, Call(OfActivation, rpc))
    ensures Correlated(w')
  {
    forall o | o != OfActivation ensures Awaits(w'.client, o) == Awaits(w.client, o) {}
    forall i | 0 <= i < |w.client.outbox| ensures Matches(w'.client, w.client.outbox[i]) {
      assert Matches(w.client, w.client.outbox[i]);
    }
    SendKeepsCorrelated(w, w', OfActivation, rpc);
  }

  /** The heart of the leak-free switch: swap first, then release the outgoing project. */
  lemma SwitchCovered(w: World, w': World, left: string, scoped: bool)
    requires RegistersCovered(w.client.outbox, w.client.projectId) && RowsCovered(w) && w.client.projectId == Some(left)
    requires w'.client.outbox == w.client.outbox + [Call(OfActivation, Deprioritize(left, scoped))]
    requires w'.rows == w.rows && w'.stranded == w.stranded
    ensures RegistersCovered(w'.client.outbox, w'.client.projectId) && RowsCovered(w')
  {
    var release := Call(OfActivation, Deprioritize(left, scoped));
    CoveredSwitch(w.client.outbox, left, scoped, w'.client.projectId);
    forall p | p in w'.rows && w'.client.projectId != Some(p) ensures p in w'.stranded || ReleaseIn(w'.client.outbox, p) {
      ReleaseInAppend(w.client.outbox, [release], p);
      assert [release][0] == release;
    }
  }

  lemma SwitchKeepsInv(w: World, info: ProjectInfo, gitWorktree: bool)
    requires Inv(w) && w.client.activation.Resolving? && w.client.projectId.Some?
    requires w.client.projectId != Some(info.projectId)
    ensures Inv(LookUp(w, Some(info), gitWorktree))
  {
    var c, w' := w.client, LookUp(w, Some(info), gitWorktree);
    var rpc := Deprioritize(c.projectId.value, PathScoped(c));
    assert w'.client.outbox == c.outbox + [Call(OfActivation, rpc)];
    SwitchCorrelated(w, w', rpc);
    SwitchCovered(w, w', c.projectId.value, PathScoped(c));
  }

  lemma FirstActivationIssues(c: Client, info: ProjectInfo, gitWorktree: bool)
    requires c.activation.Resolving? && c.projectId.None?
    ensures var v := ProjectResolved(c, Some(info), gitWorktree);
            && v.outbox == c.outbox + [Call(OfActivation, Register(info.projectId))]
            && v.activation == Activating(c.activation.cwd) && v.activatingCwd == c.activatingCwd
            && v.activatedForCwd == c.activatedForCwd
            && v.projectId == Some(info.projectId) && v.projectPath == Some(info.projectPath)
            && v.beats == c.beats && v.nextBeat == c.nextBeat && v.teardown == c.teardown && v.cleaned == c.cleaned
  {
  }

  /** Without an outgoing project nothing is released: the rows and the queue speak of no other project. */
  lemma FirstActivationCovered(w: World, w': World, p: string)
    requires RegistersCovered(w.client.outbox, None) && RowsCovered(w) && w.client.projectId.None?
    requires w'.client.projectId == Some(p) && w'.rows == w.rows && w'.stranded == w.stranded
    requires w'.client.outbox == w.client.outbox + [Call(OfActivation, Register(p))]
    ensures RegistersCovered(w'.client.outbox, w'.client.projectId) && RowsCovered(w')
  {
    var w1 := w.(client := w.client.(projectId := Some(p)));
    assert RegistersCovered(w1.client.outbox, w1.client.projectId);
    SendKeepsCovered(w1, w', Call(OfActivation, Register(p)));
  }

  lemma FirstActivationKeepsInv(w: World, info: ProjectInfo, gitWorktree: bool)
    requires Inv(w) && w.client.activation.Resolving? && w.client.projectId.None?
    ensures Inv(LookUp(w, Some(info), gitWorktree))
  {
    var c, w' := w.client, LookUp(w, Some(info), gitWorktree);
    FirstActivationIssues(c, info, gitWorktree);
    hide ProjectResolved;
    SwitchCorrelated(w, w', Register(info.projectId));
    FirstActivationCovered(w, w', info.projectId);
    hide Correlated, RegistersCovered, RowsCovered;
  }

  lemma LookUpWithoutSwitch(w: World, info: Option<ProjectInfo>, gitWorktree: bool)
    requires Inv(w) && w.client.activation.Resolving?
    requires info.None? || w.client.projectId == Some(info.value.projectId)
    ensures Inv(LookUp(w, info, gitWorktree))
  {
    ActivationQuiet(w, LookUp(w, info, gitWorktree));
    hide Correlated, RegistersCovered, ReleaseIn;
  }

  lemma LookUpKeepsInv(w: World, info: Option<ProjectInfo>, gitWorktree: bool)
    requires Inv(w) && w.client.activation.Resolving?
    ensures Inv(LookUp(w, info, gitWorktree))
  {
    hide Inv, LookUp;
    var c := w.client;
    if info.None? || c.projectId == Some(info.value.projectId) {
      LookUpWithoutSwitch(w, info, gitWorktree);
    } else if c.projectId.Some? {
      SwitchKeepsInv(w, info.value, gitWorktree);
    } else {
      FirstActivationKeepsInv(w, info.value, gitWorktree);
    }
  }

  /** The activation frame takes its response; afterwards it waits no more. */
  lemma ActivationTakesReply(w: World, w': World)
    requires Correlated(w) && OfActivation in w.replies && w'.replies == w.replies - {OfActivation}
    requires w'.client.beats == w.client.beats && w'.client.teardown == w.client.teardown
    requires w'.client.outbox == w.client.outbox && !Awaits(w'.client, OfActivation)
    ensures Correlated(w')
  {
    forall o | o != OfActivation ensures Awaits(w'.client, o) == Awaits(w.client, o) {}
    forall i | 0 <= i < |w.client.outbox| && w.client.outbox[i].owner != OfActivation
      ensures Matches(w'.client, w.client.outbox[i])
    {
      assert Matches(w.client, w.client.outbox[i]);
    }
    ResumeKeepsCorrelated(w, w', OfActivation);
  }

  lemma ReleasedResumes(w: World)
    requires Inv(w) && OfActivation in w.replies && w.client.activation.Releasing?
    ensures Inv(Step(w, ActivationResumes))
  {
    var c, w' := w.client, Step(w, ActivationResumes);
    var call := Call(OfActivation, Register(c.projectId.value));
    var w1 := w.(client := c.(activation := Idle), replies := w.replies - {OfActivation});
    ActivationTakesReply(w, w1);
    assert w'.client == Send(c.(activation := Activating(c.activation.cwd)), OfActivation, call.rpc);
    SwitchCorrelated(w1, w', call.rpc);
    SendKeepsCovered(w, w', call);
  }

  lemma ActivatedShape(c: Client, reply: Reply)
    requires c.activation.Activating?
    ensures var v := ResumeActivation(c, reply);
            && v.activation == Idle && v.activatingCwd == None && v.activatedForCwd == Some(c.activation.cwd)
            && v.projectId == c.projectId && v.projectPath == c.projectPath && v.beats == c.beats
            && v.nextBeat == c.nextBeat && v.teardown == c.teardown && v.cleaned == c.cleaned && v.outbox == c.outbox
  {
  }

  lemma ActivatedResumes(w: World)
    requires Inv(w) && OfActivation in w.replies && w.client.activation.Activating?
    ensures Inv(Step(w, ActivationResumes))
  {
    var w' := Step(w, ActivationResumes);
    ActivatedShape(w.client, w.replies[OfActivation]);
    hide ResumeActivation;
    ActivationTakesReply(w, w');
    hide Correlated, RegistersCovered;
  }

  // ---- Cleanup ---------------------------------------------------------------------------------------------

  lemma CleanupKeepsInv(w: World)
    requires Inv(w)
    ensures Inv(Step(w, CleanupStarts))
  {
    var c, w' := w.client, Step(w, CleanupStarts);
    if w' != w {
      forall o | o != OfCleanup ensures Awaits(w'.client, o) == Awaits(c, o) {}
      forall i | 0 <= i < |c.outbox| ensures Matches(w'.client, c.outbox[i]) {
        assert Matches(c, c.outbox[i]);
      }
      if c.projectId.Some? && c.daemonConnected {
        var rpc := Deprioritize(c.projectId.value, PathScoped(c));
        SendKeepsCorrelated(w, w', OfCleanup, rpc);
        SendKeepsCovered(w, w', Call(OfCleanup, rpc));
      } else {
        QuietKeepsCorrelated(w, w');
      }
    }
  }

  lemma CleanupResumesKeepsInv(w: World)
    requires Inv(w)
    ensures Inv(Step(w, CleanupResumes))
  {
    var c, w' := w.client, Step(w, CleanupResumes);
    if OfCleanup in w.replies {
      assert Awaits(c, OfCleanup);
      forall o | o != OfCleanup ensures Awaits(w'.client, o) == Awaits(c, o) {}
      forall i | 0 <= i < |c.outbox| && c.outbox[i].owner != OfCleanup ensures Matches(w'.client, c.outbox[i]) {
        assert Matches(c, c.outbox[i]);
      }
      ResumeKeepsCorrelated(w, w', OfCleanup);
    }
  }

  lemma TimedEventsKeepInv(w: World, e: Event)
    requires Inv(w) && (e.Reap? || e.ForgetRows? || e.Wait?)
    ensures Inv(Step(w, e))
  {
    var w' := Step(w, e);
    QuietKeepsCorrelated(w, w');
  }

  lemma ToolCallParts(c: Client, cwd: string, suspicious: bool, git: Option<bool>)
    ensures var c1 := BeginBeat(c, false);
            var worktree := if git.Some? && c1.projectPath.Some? then git.value else c1.isWorktree;
            ToolCall(c, cwd, suspicious, git) == BeginActivation(c1.(isWorktree := worktree), cwd, suspicious)
  {
    hide BeginBeat, BeginActivation;
  }

  lemma WorktreeKeepsInv(w: World, isWorktree: bool)
    requires Inv(w)
    ensures Inv(w.(client := w.client.(isWorktree := isWorktree)))
  {
    hide Inv;
    var c := w.client;
    SettingsKeepInv(w, c.timerArmed, c.daemonConnected, isWorktree, c.watchPath);
  }

  lemma ToolCallKeepsInv(w: World, cwd: string, suspicious: bool, git: Option<bool>)
    requires Inv(w)
    ensures Inv(w.(client := ToolCall(w.client, cwd, suspicious, git)))
  {
    hide Inv, BeginBeat, BeginActivation;
    var c1 := BeginBeat(w.client, false);
    BeginBeatKeepsInv(w, false);
    var w1 := w.(client := c1);
    var worktree := if git.Some? && c1.projectPath.Some? then git.value else c1.isWorktree;
    WorktreeKeepsInv(w1, worktree);
    var c2 := c1.(isWorktree := worktree);
    BeginActivationKeepsInv(w.(client := c2), cwd, suspicious);
    ToolCallParts(w.client, cwd, suspicious, git);
  }

  lemma TimerKeepsInv(w: World)
    requires Inv(w) && w.client.timerArmed
    ensures Inv(w.(client := FireTimer(w.client)))
  {
    hide Inv, BeginBeat;
    var c := w.client;
    SettingsKeepInv(w, false, c.daemonConnected, c.isWorktree, c.watchPath);
    BeginBeatKeepsInv(w.(client := c.(timerArmed := false)), true);
  }

  lemma ClientEventsKeepInv(w: World, e: Event)
    requires Inv(w) && (e.StartHeartbeat? || e.TimerFires? || e.ToolCallArrives? || e.SelfRepoBeatEnds?)
    ensures Inv(Step(w, e))
  {
    hide Inv, BeginBeat, ToolCall, FireTimer;
    var c := w.client;
    match e
    case StartHeartbeat =>
      BeginBeatKeepsInv(w, true);
      StartedKeepsInv(w.(client := BeginBeat(c, true)));
    case TimerFires =>
      if c.timerArmed { TimerKeepsInv(w); }
    case ToolCallArrives(cwd, suspicious, git) =>
      ToolCallKeepsInv(w, cwd, suspicious, git);
    case SelfRepoBeatEnds(id) =>
      if id in c.beats && c.beats[id].stage.SelfBeating? { FinishKeepsInv(w, id); }
  }

  lemma StartedKeepsInv(w: World)
    requires Inv(w)
    ensures Inv(w.(started := true))
  {
    QuietKeepsCorrelated(w, w.(started := true));
  }

  lemma StepKeepsInv(w: World, e: Event)
    requires Inv(w)
    ensures Inv(Step(w, e))
  {
    InvFacts(w);
    hide Inv;
    match e
    case ProjectLookedUp(info, gitWorktree) =>
      if w.client.activation.Resolving? { LookUpKeepsInv(w, info, gitWorktree); }
    case ActivationResumes =>
      if OfActivation in w.replies {
        assert Awaits(w.client, OfActivation);
        if w.client.activation.Releasing? { ReleasedResumes(w); } else { ActivatedResumes(w); }
      }
    case BeatResumes(id) =>
      if id in w.client.beats && OfBeat(id) in w.replies { BeatResumesKeepsInv(w, id); }
    case CleanupStarts => CleanupKeepsInv(w);
    case CleanupResumes => CleanupResumesKeepsInv(w);
    case Serve(delivery, outcome) =>
      if w.client.outbox != [] { ServeKeepsInv(w, delivery, outcome); }
    case Reap(_) => TimedEventsKeepInv(w, e);
    case ForgetRows => TimedEventsKeepInv(w, e);
    case Wait(_) => TimedEventsKeepInv(w, e);
    case _ => ClientEventsKeepInv(w, e);
  }

  lemma InitHasInv(w: World)
    requires Init(w)
    ensures Inv(w)
  {
  }

  /** Every state of every run satisfies the invariant. */
  lemma {:induction false} RunKeepsInv(w: World, es: seq<Event>)
    requires Inv(w)
    ensures Inv(Run(w, es))
    decreases |es|
  {
    hide Inv;
    if es != [] {
      StepKeepsInv(w, es[0]);
      RunKeepsInv(Step(w, es[0]), es[1..]);
    }
  }
}
