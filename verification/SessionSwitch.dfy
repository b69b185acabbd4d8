/** The fate of the row a session leaves behind when it switches projects, over every continuation. */
module SessionSwitch {
  import opened Wrappers
  import opened SessionClient
  import opened SessionProtocol
  import opened SessionLiveness

  /** From position `n` of the queue on, no call names `p`. */
  ghost predicate NoCallFrom(q: seq<Call>, n: int, p: string) {
    forall i :: 0 <= i < |q| && n <= i ==> q[i].rpc.project != p
  }

  lemma NoCallServed(q: seq<Call>, n: int, p: string)
    requires q != [] && NoCallFrom(q, n, p)
    ensures NoCallFrom(q[1..], n - 1, p)
  {
    assert forall i, j :: 0 <= i < |q| - 1 && j == i + 1 ==> q[1..][i] == q[j];
  }

  lemma NoCallIssued(c: Client, c': Client, n: int, p: string)
    requires IssuesForCurrent(c, c') && c.projectId != Some(p) && c'.projectId != Some(p) && NoCallFrom(c.outbox, n, p)
    ensures NoCallFrom(c'.outbox, n, p)
  {
    var q, q' := c.outbox, c'.outbox;
    forall i | 0 <= i < |q'| && n <= i ensures q'[i].rpc.project != p {
      assert i < |q| ==> q[i] == q'[i];
    }
  }

  lemma StepKeepsNoCall(w: World, e: Event, n: int, p: string)
    requires Inv(w) && w.client.projectId != Some(p) && Step(w, e).client.projectId != Some(p)
    requires NoCallFrom(w.client.outbox, n, p)
    ensures NoCallFrom(Step(w, e).client.outbox, if e.Serve? && w.client.outbox != [] then n - 1 else n, p)
  {
    hide Inv, NoCallFrom, IssuesForCurrent;
    if e.Serve? {
      if w.client.outbox != [] { NoCallServed(w.client.outbox, n, p); }
    } else {
      hide Step;
      StepIssuesForCurrent(w, e);
      NoCallIssued(w.client, Step(w, e).client, n, p);
    }
  }

  // ---- Before the release is served ------------------------------------------------------------------------------

  /** `call` waits at position `k` of the queue, and nothing behind it names `p`. */
  ghost predicate Waiting(w: World, call: Call, k: nat, p: string) {
    k < |w.client.outbox| && w.client.outbox[k] == call && NoCallFrom(w.client.outbox, k + 1, p)
  }

  lemma PositionKept(w: World, e: Event, k: nat)
    requires Inv(w) && k < |w.client.outbox| && (e.Serve? ==> k > 0)
    ensures var q, q', k' := w.client.outbox, Step(w, e).client.outbox, if e.Serve? then k - 1 else k;
            k' < |q'| && q'[k'] == q[k]
  {
    hide Inv, IssuesForCurrent;
    if !e.Serve? {
      hide Step;
      StepIssuesForCurrent(w, e);
      IssuedBehind(w.client, Step(w, e).client);
    }
  }

  lemma StepKeepsWaiting(w: World, e: Event, call: Call, k: nat, p: string)
    requires Inv(w) && Waiting(w, call, k, p) && (e.Serve? ==> k > 0)
    requires w.client.projectId != Some(p) && Step(w, e).client.projectId != Some(p)
    ensures Waiting(Step(w, e), call, if e.Serve? then k - 1 else k, p)
  {
    hide Inv, NoCallFrom, Step;
    PositionKept(w, e, k);
    StepKeepsNoCall(w, e, k + 1, p);
  }

  /** Served in order: after as many serves as calls were ahead, the call is at the head. */
  lemma {:induction false} WaitsItsTurn(w: World, es: seq<Event>, call: Call, k: nat, p: string)
    requires Inv(w) && Waiting(w, call, k, p) && NeverCurrent(w, es, p) && Serves(es) <= k
    ensures Inv(Run(w, es)) && Waiting(Run(w, es), call, k - Serves(es), p)
    ensures Run(w, es).client.projectId != Some(p)
    decreases |es|
  {
    hide Inv, Waiting, Step;
    if es != [] {
      var v := Step(w, es[0]);
      StepKeepsInv(w, es[0]);
      StepKeepsWaiting(w, es[0], call, k, p);
      WaitsItsTurn(v, es[1..], call, if es[0].Serve? then k - 1 else k, p);
    }
  }

  // ---- After the release is served --------------------------------------------------------------------------------

  /** Without a reap or a loss of all rows. */
  ghost predicate RowsUndisturbed(es: seq<Event>) {
    forall i :: 0 <= i < |es| ==> !es[i].Reap? && !es[i].ForgetRows?
  }

  /** With no call naming `p` left, its row is neither made nor removed. */
  lemma StepKeepsRow(w: World, e: Event, p: string)
    requires Inv(w) && NoCallFrom(w.client.outbox, 0, p) && !e.Reap? && !e.ForgetRows?
    requires w.client.projectId != Some(p) && Step(w, e).client.projectId != Some(p)
    ensures p in Step(w, e).rows <==> p in w.rows
    ensures NoCallFrom(Step(w, e).client.outbox, 0, p)
  {
    StepKeepsNoCall(w, e, 0, p);
    hide Inv;
    if e.Serve? {
      assert w.client.outbox != [] ==> w.client.outbox[0].rpc.project != p;
    } else {
      hide Step;
      RowsOfQuietStep(w, e);
    }
  }

  lemma {:induction false} RunKeepsRow(w: World, es: seq<Event>, p: string)
    requires Inv(w) && NoCallFrom(w.client.outbox, 0, p) && NeverCurrent(w, es, p) && RowsUndisturbed(es)
    ensures p in Run(w, es).rows <==> p in w.rows
    decreases |es|
  {
    hide Inv, NoCallFrom, Step;
    if es != [] {
      StepKeepsInv(w, es[0]);
      StepKeepsRow(w, es[0], p);
      RunKeepsRow(Step(w, es[0]), es[1..], p);
    }
  }

  // ---- The exact limit ---------------------------------------------------------------------------------------------

  /** The look-up that leaves `p`. */
  ghost predicate Leaves(w: World, info: ProjectInfo, p: string) {
    Inv(w) && w.client.activation.Resolving? && w.client.projectId == Some(p) && info.projectId != p
  }

  function ReleaseOf(c: Client, p: string): Call {
    Call(OfActivation, Deprioritize(p, PathScoped(c)))
  }

  lemma LeavingQueuesRelease(w: World, info: ProjectInfo, gitWorktree: bool, p: string)
    requires Leaves(w, info, p)
    ensures var v := LookUp(w, Some(info), gitWorktree);
            && Inv(v) && v.client.projectId == Some(info.projectId)
            && Waiting(v, ReleaseOf(w.client, p), |w.client.outbox|, p)
            && v.client.outbox == w.client.outbox + [ReleaseOf(w.client, p)] && v.rows == w.rows && v.now == w.now
  {
    LookUpKeepsInv(w, Some(info), gitWorktree);
    hide Inv;
  }

  /** The exact limit of the leak-free switch, in every continuation. The session leaves `p`; `before` are any events in
      which it does not return to `p` and up to which all calls ahead of the release are served; then the daemon serves
      the release and does not lose it; `after` are any further events without a return, a reap or a loss of all rows.
      Then the row of `p` is there exactly when it was there before the release was served and the session was a
      worktree with a known watch path when it left. */
  lemma LeftRowStaysIffPathScoped(w: World, info: ProjectInfo, gitWorktree: bool, p: string, before: seq<Event>,
                                  delivery: Delivery, outcome: RegisterOutcome, after: seq<Event>)
    requires Leaves(w, info, p) && delivery != CallLost && Serves(before) == |w.client.outbox|
    requires NeverCurrent(LookUp(w, Some(info), gitWorktree), before, p)
    requires var served := Step(Run(LookUp(w, Some(info), gitWorktree), before), Serve(delivery, outcome));
             NeverCurrent(served, after, p) && RowsUndisturbed(after)
    ensures var atRelease := Run(LookUp(w, Some(info), gitWorktree), before);
            var end := Run(Step(atRelease, Serve(delivery, outcome)), after);
            p in end.rows <==>
              p in atRelease.rows && w.client.isWorktree && w.client.watchPath.Some? && w.client.watchPath.value != ""
  {
    var v := LookUp(w, Some(info), gitWorktree);
    LeavingQueuesRelease(w, info, gitWorktree, p);
    hide Leaves, LookUp;
    assert v.client.projectId != Some(p);
    WaitsItsTurn(v, before, ReleaseOf(w.client, p), |w.client.outbox|, p);
    var atRelease := Run(v, before);
    var e := Serve(delivery, outcome);
    ReleaseServed(atRelease, e, ReleaseOf(w.client, p), p);
    StepKeepsInv(atRelease, e);
    hide Inv, Step, Run;
    RunKeepsRow(Step(atRelease, e), after, p);
  }

  lemma ReleaseServed(w: World, e: Event, call: Call, p: string)
    requires Waiting(w, call, 0, p) && e.Serve? && e.delivery != CallLost && call.rpc.Deprioritize? && call.rpc.project == p
    ensures p in Step(w, e).rows <==> p in w.rows && call.rpc.pathScoped
    ensures NoCallFrom(Step(w, e).client.outbox, 0, p) && Step(w, e).client.projectId == w.client.projectId
  {
    NoCallServed(w.client.outbox, 1, p);
  }

  // ---- While the calls ahead of the release are served ----------------------------------------------------------------

  /** No release of `p` is queued before position `n`. */
  ghost predicate NoReleaseBefore(q: seq<Call>, n: int, p: string) {
    forall i :: 0 <= i < |q| && i < n ==> !(q[i].rpc.Deprioritize? && q[i].rpc.project == p)
  }

  lemma NoReleaseServed(q: seq<Call>, n: int, p: string)
    requires q != [] && n > 0 && NoReleaseBefore(q, n, p)
    ensures NoReleaseBefore(q[1..], n - 1, p) && !(q[0].rpc.Deprioritize? && q[0].rpc.project == p)
  {
    assert forall i, j :: 0 <= i < |q| - 1 && j == i + 1 ==> q[1..][i] == q[j];
  }

  lemma NoReleaseIssuedBefore(q: seq<Call>, q': seq<Call>, n: int, p: string)
    requires NoReleaseBefore(q, n, p) && q <= q' && n <= |q|
    ensures NoReleaseBefore(q', n, p)
  {
    assert forall i :: 0 <= i < |q| ==> q'[i] == q[i];
  }

  lemma RowUntilRelease(w: World, e: Event, call: Call, k: nat, p: string)
    requires Inv(w) && Waiting(w, call, k, p) && (e.Serve? ==> k > 0) && NoReleaseBefore(w.client.outbox, k, p)
    requires !e.Reap? && !e.ForgetRows? && p in w.rows
    ensures p in Step(w, e).rows
    ensures NoReleaseBefore(Step(w, e).client.outbox, if e.Serve? then k - 1 else k, p)
  {
    hide Inv, IssuesForCurrent, NoReleaseBefore;
    if e.Serve? {
      NoReleaseServed(w.client.outbox, k, p);
    } else {
      hide Step;
      RowsOfQuietStep(w, e);
      StepIssuesForCurrent(w, e);
      IssuedBehind(w.client, Step(w, e).client);
      NoReleaseIssuedBefore(w.client.outbox, Step(w, e).client.outbox, k, p);
    }
  }

  lemma {:induction false} RowUntilItsTurn(w: World, es: seq<Event>, call: Call, k: nat, p: string)
    requires Inv(w) && Waiting(w, call, k, p) && NeverCurrent(w, es, p) && Serves(es) <= k
    requires NoReleaseBefore(w.client.outbox, k, p) && RowsUndisturbed(es) && p in w.rows
    ensures p in Run(w, es).rows
    decreases |es|
  {
    hide Inv, Waiting, Step, NoReleaseBefore;
    if es != [] {
      StepKeepsInv(w, es[0]);
      StepKeepsWaiting(w, es[0], call, k, p);
      RowUntilRelease(w, es[0], call, k, p);
      RowUntilItsTurn(Step(w, es[0]), es[1..], call, if es[0].Serve? then k - 1 else k, p);
    }
  }

  /** In particular, from a session that holds its row and has no earlier release of it under way: whatever interleaves
      and whatever else is lost, the row is left behind exactly when the session was a worktree with a watch path. */
  lemma SwitchLeaksIffPathScoped(w: World, info: ProjectInfo, gitWorktree: bool, p: string, before: seq<Event>,
                                 delivery: Delivery, outcome: RegisterOutcome, after: seq<Event>)
    requires Leaves(w, info, p) && p in w.rows && !ReleaseIn(w.client.outbox, p)
    requires delivery != CallLost && Serves(before) == |w.client.outbox|
    requires NeverCurrent(LookUp(w, Some(info), gitWorktree), before, p) && RowsUndisturbed(before)
    requires var served := Step(Run(LookUp(w, Some(info), gitWorktree), before), Serve(delivery, outcome));
             NeverCurrent(served, after, p) && RowsUndisturbed(after)
    ensures var atRelease := Run(LookUp(w, Some(info), gitWorktree), before);
            p in Run(Step(atRelease, Serve(delivery, outcome)), after).rows <==>
              w.client.isWorktree && w.client.watchPath.Some? && w.client.watchPath.value != ""
  {
    var v, k := LookUp(w, Some(info), gitWorktree), |w.client.outbox|;
    LeavingQueuesRelease(w, info, gitWorktree, p);
    assert NoReleaseBefore(v.client.outbox, k, p);
    LeftRowStaysIffPathScoped(w, info, gitWorktree, p, before, delivery, outcome, after);
    hide Leaves, LookUp, Step, Run, NoReleaseBefore, ReleaseIn;
    RowUntilItsTurn(v, before, ReleaseOf(w.client, p), k, p);
  }

  // ---- Extinction of the row when the release is lost ----------------------------------------------------------------

  lemma QueuedAtSwitch(w: World, info: ProjectInfo, gitWorktree: bool, p: string)
    requires Leaves(w, info, p)
    ensures NoRefreshFrom(LookUp(w, Some(info), gitWorktree).client.outbox, |w.client.outbox|, p)
  {
    LeavingQueuesRelease(w, info, gitWorktree, p);
  }

  /** From the switch on, even if the release is lost: once the daemon has served what was queued for `p` when the
      session left it, the row ends with the first reap that finds its last beat a timeout ago. */
  lemma LeftRowGoesExtinct(w: World, info: ProjectInfo, gitWorktree: bool, p: string, before: seq<Event>,
                           after: seq<Event>, timeoutMs: int)
    requires Leaves(w, info, p) && Serves(before) >= |w.client.outbox|
    requires NeverCurrent(LookUp(w, Some(info), gitWorktree), before, p)
    requires var drained := Run(LookUp(w, Some(info), gitWorktree), before);
             && NeverCurrent(drained, after, p)
             && (p in drained.rows ==> Run(drained, after).now - drained.rows[p] > timeoutMs)
    ensures var drained := Run(LookUp(w, Some(info), gitWorktree), before);
            p !in Step(Run(drained, after), Reap(timeoutMs)).rows
  {
    var v := LookUp(w, Some(info), gitWorktree);
    LeavingQueuesRelease(w, info, gitWorktree, p);
    QueuedAtSwitch(w, info, gitWorktree, p);
    hide Leaves, LookUp, Step;
    RefreshesDrain(v, before, |w.client.outbox|, p);
    RunKeepsInv(v, before);
    StaleRowReaped(Run(v, before), after, p, timeoutMs);
  }
}
