/** A heartbeat whose own calls get through restores the row of the session's project, whatever interleaves. */
module SessionHealing {
  import opened Wrappers
  import opened SessionClient
  import opened SessionProtocol
  import opened SessionLiveness
  import opened SessionSurvival

  /** The row of `p` was beaten or registered at `since` or later. */
  ghost predicate Fresh(w: World, p: string, since: int) {
    p in w.rows && since <= w.rows[p] <= w.now
  }

  /** How far heartbeat `id` is: its beat and its re-register name `p`, and once it is past them the row is fresh. */
  ghost predicate Progress(w: World, id: int, p: string, since: int) {
    if id !in w.client.beats || w.client.beats[id].stage.SelfBeating? then Fresh(w, p, since)
    else if w.client.beats[id].stage.Beating? then
      && w.client.beats[id].stage.project == p
      && (OfBeat(id) in w.replies ==>
            w.replies[OfBeat(id)] == NoSession || (w.replies[OfBeat(id)] == Acknowledged && Fresh(w, p, since)))
    else
      && (OfBeat(id) in w.replies ==> Fresh(w, p, since))
      && RegistersOf(w.client.outbox, id, p)
  }

  ghost predicate RegistersOf(q: seq<Call>, id: int, p: string) {
    forall i :: 0 <= i < |q| && q[i].owner == OfBeat(id) ==> q[i].rpc == Register(p)
  }

  /** The session is with `p`, no release of it is under way, and heartbeat `id` was started. */
  ghost predicate Healing(w: World, id: int, p: string, since: int) {
    && w.client.projectId == Some(p) && !ReleaseIn(w.client.outbox, p) && since <= w.now && id < w.client.nextBeat
    && Progress(w, id, p, since)
  }

  /** The event leaves the session with `p`, reaps no row beaten since then, and serves the heartbeat's own calls: its
      beat is answered, its register takes effect. Everything else may be lost or come in any order. */
  ghost predicate Helps(w: World, e: Event, id: int, p: string, since: int) {
    && !e.CleanupStarts? && !e.ForgetRows? && Step(w, e).client.projectId == Some(p)
    && (e.Reap? ==> w.now - since <= e.timeoutMs)
    && (e.Serve? && w.client.outbox != [] && w.client.outbox[0].owner == OfBeat(id) ==>
          e.delivery == Delivered && e.outcome.upsert)
  }

  lemma FreshKept(w: World, e: Event, id: int, p: string, since: int)
    requires Inv(w) && w.client.projectId == Some(p) && !ReleaseIn(w.client.outbox, p) && Fresh(w, p, since)
    requires Helps(w, e, id, p, since)
    ensures Fresh(Step(w, e), p, since)
  {
    hide Inv, ReleaseIn, Step;
    assert Live(w, p) && Spares(w, e, p);
    StepSpares(w, e, p);
  }

  lemma ReleasesStayAway(w: World, e: Event, id: int, p: string, since: int)
    requires Inv(w) && w.client.projectId == Some(p) && !ReleaseIn(w.client.outbox, p) && Helps(w, e, id, p, since)
    ensures !ReleaseIn(Step(w, e).client.outbox, p)
  {
    hide Inv, ReleaseIn;
    if e.Serve? {
      if w.client.outbox != [] { NoReleaseInTail(w.client.outbox, p); }
    } else {
      StepReleasesNothing(w, e, p);
      hide Step;
      NoReleaseAppended(w.client, Step(w, e).client, p);
    }
  }

  // ---- Serving -----------------------------------------------------------------------------------------------------

  /** The daemon takes one of the heartbeat's own calls. */
  lemma OwnCallServed(w: World, delivery: Delivery, outcome: RegisterOutcome, id: int, p: string, since: int)
    requires Inv(w) && Healing(w, id, p, since) && w.client.outbox != [] && w.client.outbox[0].owner == OfBeat(id)
    requires delivery == Delivered && outcome.upsert
    ensures Progress(ServeHead(w, delivery, outcome), id, p, since)
  {
    InvFacts(w);
    HeadMatches(w);
    hide Inv, ReleaseIn;
    var q := w.client.outbox;
    assert forall i, j :: 0 <= i < |q| - 1 && j == i + 1 ==> q[1..][i] == q[j];
  }

  lemma HeadMatches(w: World)
    requires Inv(w) && w.client.outbox != []
    ensures Matches(w.client, w.client.outbox[0])
  {
  }

  lemma OtherCallServed(w: World, delivery: Delivery, outcome: RegisterOutcome, id: int, p: string, since: int)
    requires Healing(w, id, p, since) && w.client.outbox != [] && w.client.outbox[0].owner != OfBeat(id)
    requires Fresh(w, p, since) ==> Fresh(ServeHead(w, delivery, outcome), p, since)
    ensures Progress(ServeHead(w, delivery, outcome), id, p, since)
  {
    hide ReleaseIn, Fresh;
    var q := w.client.outbox;
    assert forall i, j :: 0 <= i < |q| - 1 && j == i + 1 ==> q[1..][i] == q[j];
  }

  // ---- Client steps ----------------------------------------------------------------------------------------------------

  /** The heartbeat itself resumes. */
  lemma OwnBeatResumes(w: World, id: int, p: string, since: int)
    requires Inv(w) && Healing(w, id, p, since) && id in w.client.beats && OfBeat(id) in w.replies
    ensures Progress(Step(w, BeatResumes(id)), id, p, since)
  {
    InvFacts(w);
    RepliesMatch(w, id);
    hide Inv, ReleaseIn;
    var c := w.client;
    if c.beats[id].stage.Beating? && w.replies[OfBeat(id)] == NoSession {
      var v := Step(w, BeatResumes(id));
      NoCallOf(w, id);
      assert v.client.outbox == c.outbox + [Call(OfBeat(id), Register(p))];
      RegistersAppended(c.outbox, id, p);
    } else {
      OwnBeatEnds(c, id, w.replies[OfBeat(id)]);
    }
  }

  lemma RepliesMatch(w: World, id: int)
    requires Inv(w) && OfBeat(id) in w.replies
    ensures Awaits(w.client, OfBeat(id))
    ensures w.client.projectId.Some? ==> CanRegister(w.client)
  {
    InvFacts(w);
  }

  /** A frame with a response at hand has no call in the queue. */
  lemma NoCallOf(w: World, id: int)
    requires Inv(w) && OfBeat(id) in w.replies
    ensures forall i :: 0 <= i < |w.client.outbox| ==> w.client.outbox[i].owner != OfBeat(id)
  {
    assert !Pending(w.client.outbox, OfBeat(id));
  }

  lemma RegistersAppended(q: seq<Call>, id: int, p: string)
    requires forall i :: 0 <= i < |q| ==> q[i].owner != OfBeat(id)
    ensures RegistersOf(q + [Call(OfBeat(id), Register(p))], id, p)
  {
  }

  lemma OwnBeatEnds(c: Client, id: int, reply: Reply)
    requires id in c.beats && (c.beats[id].stage.Beating? ==> reply == Acknowledged)
    ensures id !in ResumeBeat(c, id, reply).beats || ResumeBeat(c, id, reply).beats[id].stage.SelfBeating?
  {
  }

  /** Another step of the client: the heartbeat's frame, its response and its calls stay. */
  ghost predicate SameBeat(w: World, v: World, id: int) {
    && (id in w.client.beats ==> id in v.client.beats && v.client.beats[id] == w.client.beats[id])
    && (id !in w.client.beats && id < w.client.nextBeat ==> id !in v.client.beats)
    && (OfBeat(id) in v.replies <==> OfBeat(id) in w.replies)
    && (OfBeat(id) in w.replies ==> v.replies[OfBeat(id)] == w.replies[OfBeat(id)])
  }

  lemma OtherStepKeepsProgress(w: World, v: World, id: int, p: string, since: int)
    requires Inv(w) && Inv(v) && Healing(w, id, p, since) && SameBeat(w, v, id) && w.client.outbox <= v.client.outbox
    requires Fresh(w, p, since) ==> Fresh(v, p, since)
    ensures Progress(v, id, p, since)
  {
    if id in w.client.beats && w.client.beats[id].stage.ReRegistering? {
      NoSecondCall(w, v, id, p);
    }
    hide Inv, ReleaseIn, Fresh, RegistersOf;
  }

  /** A frame that waits issues no second call. */
  lemma NoSecondCall(w: World, v: World, id: int, p: string)
    requires Inv(w) && Inv(v) && SameBeat(w, v, id) && w.client.outbox <= v.client.outbox
    requires id in w.client.beats && w.client.beats[id].stage.ReRegistering? && RegistersOf(w.client.outbox, id, p)
    ensures RegistersOf(v.client.outbox, id, p)
  {
    var q, q' := w.client.outbox, v.client.outbox;
    assert Awaits(w.client, OfBeat(id));
    forall i | 0 <= i < |q'| && q'[i].owner == OfBeat(id)
      ensures q'[i].rpc == Register(p)
    {
      assert Pending(q', OfBeat(id));
      assert OfBeat(id) !in v.replies;
      assert Pending(q, OfBeat(id));
      var j :| 0 <= j < |q| && q[j].owner == OfBeat(id);
      assert q'[j] == q[j];
      assert i == j;
    }
  }

  lemma NewBeatKeepsBeat(c: Client, onTimer: bool, id: int)
    requires id < c.nextBeat && c.projectId.Some?
    ensures id in c.beats ==> id in BeginBeat(c, onTimer).beats && BeginBeat(c, onTimer).beats[id] == c.beats[id]
    ensures id !in c.beats ==> id !in BeginBeat(c, onTimer).beats
    ensures BeginBeat(c, onTimer).nextBeat == c.nextBeat + 1
  {
  }

  lemma BeginningKeepsBeat(w: World, e: Event, id: int)
    requires e.StartHeartbeat? || e.TimerFires? || e.ToolCallArrives?
    requires id < w.client.nextBeat && w.client.projectId.Some?
    ensures SameBeat(w, Step(w, e), id) && Step(w, e).client.nextBeat >= w.client.nextBeat
  {
    hide BeginBeat;
    NewBeatKeepsBeat(w.client, true, id);
    NewBeatKeepsBeat(w.client, false, id);
    NewBeatKeepsBeat(w.client.(timerArmed := false), true, id);
  }

  lemma ResumingKeepsBeat(w: World, j: int, id: int)
    requires Inv(w) && j != id
    ensures SameBeat(w, Step(w, BeatResumes(j)), id) && Step(w, BeatResumes(j)).client.nextBeat == w.client.nextBeat
  {
    InvFacts(w);
    hide Inv, ResumeBeat;
    if j in w.client.beats && OfBeat(j) in w.replies {
      ResumeBeatShape(w.client, j, w.replies[OfBeat(j)]);
    }
  }

  lemma SelfRepoKeepsBeat(w: World, j: int, id: int)
    requires j != id || id !in w.client.beats || !w.client.beats[id].stage.SelfBeating?
    ensures SameBeat(w, Step(w, SelfRepoBeatEnds(j)), id)
    ensures Step(w, SelfRepoBeatEnds(j)).client.nextBeat == w.client.nextBeat
  {
  }

  lemma OthersKeepBeat(w: World, e: Event, id: int)
    requires Inv(w) && id < w.client.nextBeat && w.client.projectId.Some? && !e.Serve? && !e.CleanupStarts?
    requires e != BeatResumes(id)
    requires e == SelfRepoBeatEnds(id) ==> id !in w.client.beats || !w.client.beats[id].stage.SelfBeating?
    ensures SameBeat(w, Step(w, e), id) && Step(w, e).client.nextBeat >= w.client.nextBeat
  {
    hide Inv;
    if e.StartHeartbeat? || e.TimerFires? || e.ToolCallArrives? {
      hide Step;
      BeginningKeepsBeat(w, e, id);
    } else if e.BeatResumes? {
      hide Step;
      ResumingKeepsBeat(w, e.id, id);
    } else if e.SelfRepoBeatEnds? {
      hide Step;
      SelfRepoKeepsBeat(w, e.id, id);
    } else {
      OtherEventsKeepChain(w, e);
      hide ProjectResolved, ResumeActivation, ResumeCleanup;
    }
  }

  // ---- The heartbeat heals -------------------------------------------------------------------------------------------

  lemma StepHeals(w: World, e: Event, id: int, p: string, since: int)
    requires Inv(w) && Healing(w, id, p, since) && Helps(w, e, id, p, since)
    ensures Healing(Step(w, e), id, p, since)
  {
    var v := Step(w, e);
    StepKeepsInv(w, e);
    ReleasesStayAway(w, e, id, p, since);
    TimeMovesOn(w, e);
    if Fresh(w, p, since) { FreshKept(w, e, id, p, since); }
    hide Inv, ReleaseIn, Fresh, Progress;
    if e.Serve? {
      if w.client.outbox != [] {
        if w.client.outbox[0].owner == OfBeat(id) {
          OwnCallServed(w, e.delivery, e.outcome, id, p, since);
        } else {
          OtherCallServed(w, e.delivery, e.outcome, id, p, since);
        }
      }
    } else {
      ClientStepHeals(w, e, id, p, since);
    }
  }

  lemma TimeMovesOn(w: World, e: Event)
    ensures Step(w, e).now >= w.now
  {
    if !e.Serve? { RowsOfQuietStep(w, e); hide Step; }
  }

  lemma ClientStepHeals(w: World, e: Event, id: int, p: string, since: int)
    requires Inv(w) && Inv(Step(w, e)) && Healing(w, id, p, since) && Helps(w, e, id, p, since) && !e.Serve?
    requires Fresh(w, p, since) ==> Fresh(Step(w, e), p, since)
    ensures Progress(Step(w, e), id, p, since) && id < Step(w, e).client.nextBeat
  {
    var c := w.client;
    if e == BeatResumes(id) && id in c.beats && OfBeat(id) in w.replies {
      OwnBeatResumes(w, id, p, since);
      NextBeatOfResume(w, id);
    } else if e == SelfRepoBeatEnds(id) && id in c.beats && c.beats[id].stage.SelfBeating? {
      SelfRepoEnds(w, id);
    } else if e == BeatResumes(id) {
      assert Step(w, e) == w;
    } else {
      StepIssuesForCurrent(w, e);
      IssuedBehind(c, Step(w, e).client);
      OthersKeepBeat(w, e, id);
      hide Inv, Step, ReleaseIn, Fresh, Progress;
      OtherStepKeepsProgress(w, Step(w, e), id, p, since);
    }
  }

  lemma NextBeatOfResume(w: World, id: int)
    requires Inv(w)
    ensures Step(w, BeatResumes(id)).client.nextBeat == w.client.nextBeat
  {
    InvFacts(w);
    hide Inv, ResumeBeat;
    if id in w.client.beats && OfBeat(id) in w.replies {
      ResumeBeatShape(w.client, id, w.replies[OfBeat(id)]);
    }
  }

  lemma SelfRepoEnds(w: World, id: int)
    requires id in w.client.beats && w.client.beats[id].stage.SelfBeating?
    ensures var v := Step(w, SelfRepoBeatEnds(id));
            id !in v.client.beats && v.client.nextBeat == w.client.nextBeat && v.rows == w.rows && v.now == w.now
  {
  }

  ghost predicate AllHelp(w: World, es: seq<Event>, id: int, p: string, since: int)
    decreases |es|
  {
    es == [] || (Helps(w, es[0], id, p, since) && AllHelp(Step(w, es[0]), es[1..], id, p, since))
  }

  lemma {:induction false} RunHeals(w: World, es: seq<Event>, id: int, p: string, since: int)
    requires Inv(w) && Healing(w, id, p, since) && AllHelp(w, es, id, p, since)
    ensures Healing(Run(w, es), id, p, since)
    decreases |es|
  {
    hide Inv, Healing, Helps, Step;
    if es != [] {
      StepKeepsInv(w, es[0]);
      StepHeals(w, es[0], id, p, since);
      RunHeals(Step(w, es[0]), es[1..], id, p, since);
    }
  }

  /** A heartbeat that has just begun for the session's project: whatever interleaves from then on, and whatever other
      calls are lost, if its own beat is answered and its re-register takes effect, then once it is past them the
      project has a row that was beaten or registered after it began, even if there was none. */
  lemma HeartbeatHealsInAnyInterleaving(w: World, es: seq<Event>, id: int, p: string)
    requires Inv(w) && w.client.projectId == Some(p) && !ReleaseIn(w.client.outbox, p)
    requires id in w.client.beats && w.client.beats[id].stage == Beating(p) && OfBeat(id) !in w.replies
    requires AllHelp(w, es, id, p, w.now)
    ensures var v := Run(w, es);
            id !in v.client.beats || v.client.beats[id].stage.SelfBeating? ==> p in v.rows && v.rows[p] >= w.now
  {
    InvFacts(w);
    BeatIsOld(w, id);
    hide Inv, ReleaseIn, Run;
    RunHeals(w, es, id, p, w.now);
  }

  lemma BeatIsOld(w: World, id: int)
    requires Inv(w) && id in w.client.beats
    ensures id < w.client.nextBeat
  {
  }
}
