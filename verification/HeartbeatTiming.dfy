/** The heartbeat cadence against the daemon's deadline: how many beats may fail before a live session is reaped. */
module HeartbeatTiming {
  import opened Wrappers

  const HEARTBEAT_INTERVAL_MS := 30_000
  const MIN_HEARTBEAT_MS := 5_000

  /** `next_heartbeat_by`; `seconds` is absent when the field did not arrive as a number. */
  datatype Deadline = Deadline(seconds: Option<int>, nanos: int)

  function RemainingMs(deadline: Deadline, nowMs: int): real
    requires deadline.seconds.Some?
  {
    deadline.seconds.value as real * 1000.0 + deadline.nanos as real / 1_000_000.0 - nowMs as real
  }

  /** A third of a window that is still open. */
  function CadenceFor(remaining: real): (ms: int)
    ensures MIN_HEARTBEAT_MS <= ms <= HEARTBEAT_INTERVAL_MS
    ensures remaining >= 15_000.0 ==> ms as real <= remaining / 3.0
    ensures 15_000.0 <= remaining <= 90_000.0 ==> ms as real > remaining / 3.0 - 1.0
  {
    var target := (remaining / 3.0).Floor;
    var floored := if target > MIN_HEARTBEAT_MS then target else MIN_HEARTBEAT_MS;
    if floored < HEARTBEAT_INTERVAL_MS then floored else HEARTBEAT_INTERVAL_MS
  }

  /** Every delay lies in the clamp, and one taken from a deadline at least 15 s away leaves two thirds of it. */
  function NextHeartbeatDelayMs(nextHeartbeatBy: Option<Deadline>, nowMs: int): (ms: int)
    ensures MIN_HEARTBEAT_MS <= ms <= HEARTBEAT_INTERVAL_MS
    ensures forall deadline :: nextHeartbeatBy == Some(deadline) && deadline.seconds.Some? ==>
              RemainingMs(deadline, nowMs) >= 15_000.0 ==>
                RemainingMs(deadline, nowMs + ms) >= 2.0 * RemainingMs(deadline, nowMs) / 3.0
    ensures nextHeartbeatBy.None? ==> ms == HEARTBEAT_INTERVAL_MS
    ensures forall deadline :: nextHeartbeatBy == Some(deadline) ==>
              deadline.seconds.None? || RemainingMs(deadline, nowMs) <= 0.0 ==> ms == HEARTBEAT_INTERVAL_MS
  {
    if nextHeartbeatBy.Some? && nextHeartbeatBy.value.seconds.Some? then
      var remaining := RemainingMs(nextHeartbeatBy.value, nowMs);
      if remaining > 0.0 then CadenceFor(remaining) else HEARTBEAT_INTERVAL_MS
    else HEARTBEAT_INTERVAL_MS
  }

  /** When the beat after these failed ones leaves, counted from the receipt of a response: the answered tick spends
      `rest` more ms in calls and sleeps `delay`; every failed tick spends its share and sleeps the full interval. */
  function LeavesAfter(rest: nat, delay: nat, failed: seq<nat>): nat {
    if failed == [] then rest + delay
    else LeavesAfter(rest, delay, failed[..|failed| - 1]) + failed[|failed| - 1] + HEARTBEAT_INTERVAL_MS
  }

  /** No tick spends more than `latency` ms in its calls. */
  ghost predicate Within(rest: nat, failed: seq<nat>, latency: nat) {
    rest <= latency && forall i :: 0 <= i < |failed| ==> failed[i] <= latency
  }

  /** Whatever the ticks do within their latency, the beat after `k` failures leaves inside the window. */
  ghost predicate AlwaysInTime(window: real, latency: nat, k: nat) {
    forall rest: nat, failed: seq<nat> :: Within(rest, failed, latency) && |failed| == k
      ==> LeavesAfter(rest, CadenceFor(window), failed) as real <= window
  }

  function WorstCase(delay: nat, latency: nat, k: nat): nat {
    if k == 0 then latency + delay else WorstCase(delay, latency, k - 1) + latency + HEARTBEAT_INTERVAL_MS
  }

  lemma {:induction false} LeavesByWorstCase(rest: nat, delay: nat, failed: seq<nat>, latency: nat)
    requires Within(rest, failed, latency)
    ensures LeavesAfter(rest, delay, failed) <= WorstCase(delay, latency, |failed|)
  {
    if failed != [] {
      LeavesByWorstCase(rest, delay, failed[..|failed| - 1], latency);
    }
  }

  lemma {:induction false} WorstCaseHappens(delay: nat, latency: nat, k: nat) returns (failed: seq<nat>)
    ensures |failed| == k && Within(latency, failed, latency)
    ensures LeavesAfter(latency, delay, failed) == WorstCase(delay, latency, k)
  {
    if k == 0 {
      failed := [];
    } else {
      var shorter := WorstCaseHappens(delay, latency, k - 1);
      failed := shorter + [latency];
      assert failed[..|failed| - 1] == shorter;
    }
  }

  lemma {:induction false} WorstCaseClosed(delay: nat, latency: nat, k: nat)
    ensures WorstCase(delay, latency, k) == latency + delay + k * (HEARTBEAT_INTERVAL_MS + latency)
  {
    if k > 0 {
      WorstCaseClosed(delay, latency, k - 1);
    }
  }

  /** The exact budget: the beat after `k` failures is in time for every schedule iff the slowest one is. */
  lemma InTimeIff(window: real, latency: nat, k: nat)
    ensures AlwaysInTime(window, latency, k)
       <==> (latency + CadenceFor(window) + k * (HEARTBEAT_INTERVAL_MS + latency)) as real <= window
  {
    var delay := CadenceFor(window);
    WorstCaseClosed(delay, latency, k);
    forall rest: nat, failed: seq<nat> | Within(rest, failed, latency) && |failed| == k
      ensures LeavesAfter(rest, delay, failed) <= WorstCase(delay, latency, k)
    {
      LeavesByWorstCase(rest, delay, failed, latency);
    }
    var failed := WorstCaseHappens(delay, latency, k);
  }

  /** The design's margin: a third of the window for the sleep leaves two thirds for missed beats. */
  lemma HeartbeatBeatsReaper(window: real, latency: nat, k: nat)
    requires window >= 15_000.0
    requires (latency + k * (HEARTBEAT_INTERVAL_MS + latency)) as real <= 2.0 * window / 3.0
    ensures AlwaysInTime(window, latency, k)
  {
    InTimeIff(window, latency, k);
    assert CadenceFor(window) as real <= window / 3.0;
  }

  /** Under the daemon's default 90 s window one missed beat is survived up to 15 s of latency, two only at none. */
  lemma DefaultWindowBudget(latency: nat)
    ensures AlwaysInTime(90_000.0, latency, 1) <==> latency <= 15_000
    ensures AlwaysInTime(90_000.0, latency, 2) <==> latency == 0
  {
    assert CadenceFor(90_000.0) == 30_000 by { assert (90_000.0 / 3.0).Floor == 30_000; }
    InTimeIff(90_000.0, latency, 1);
    InTimeIff(90_000.0, latency, 2);
  }
}
