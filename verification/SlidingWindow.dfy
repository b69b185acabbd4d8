/** The per-key sliding-window limiter, which prunes its buckets, against the full history of acceptances. */
module SlidingWindow {

  /** The timestamps after `threshold`, in order. */
  function Live(times: seq<int>, threshold: int): seq<int> {
    if times == [] then []
    else
      var live, last := Live(times[..|times| - 1], threshold), times[|times| - 1];
      if last > threshold then live + [last] else live
  }

  function Bucket(buckets: map<string, seq<int>>, key: string): seq<int> {
    if key in buckets then buckets[key] else []
  }

  /** One request: prune the bucket, then accept if fewer than `limit` timestamps are left. */
  function AllowStep(buckets: map<string, seq<int>>, limit: int, windowMs: int, key: string, now: int)
    : (map<string, seq<int>>, bool)
  {
    var live := Live(Bucket(buckets, key), now - windowMs);
    if |live| >= limit then (buckets[key := live], false) else (buckets[key := live + [now]], true)
  }

  class SlidingWindowLimiter {
    var buckets: map<string, seq<int>>
    const limit: int
    const windowMs: int

    constructor (limit: int, windowMs: int)
      ensures this.limit == limit && this.windowMs == windowMs && buckets == map[]
    {
      this.limit := limit;
      this.windowMs := windowMs;
      buckets := map[];
    }

    method Allow(key: string, now: int) returns (allowed: bool)
      modifies this
      ensures (buckets, allowed) == AllowStep(old(buckets), limit, windowMs, key, now)
    {
      var threshold := now - windowMs;
      var bucket := if key in buckets then buckets[key] else [];
      var live := Live(bucket, threshold);
      if |live| >= limit {
        buckets := buckets[key := live];
        return false;
      }
      live := live + [now];
      buckets := buckets[key := live];
      allowed := true;
    }
  }

  // ---- Whole runs ------------------------------------------------------------------------------------------

  datatype Request = Request(key: string, now: int)

  /** The clock never goes back. */
  ghost predicate Monotone(reqs: seq<Request>) {
    forall i, j :: 0 <= i <= j < |reqs| ==> reqs[i].now <= reqs[j].now
  }

  /** The limiter's buckets and answers after a run of requests. */
  function Run(reqs: seq<Request>, limit: int, windowMs: int): (r: (map<string, seq<int>>, seq<bool>))
    ensures |r.1| == |reqs|
  {
    if reqs == [] then (map[], [])
    else
      var n := |reqs| - 1;
      var before := Run(reqs[..n], limit, windowMs);
      var step := AllowStep(before.0, limit, windowMs, reqs[n].key, reqs[n].now);
      (step.0, before.1 + [step.1])
  }

  /** Every timestamp ever accepted for a key. */
  function Accepted(reqs: seq<Request>, answers: seq<bool>, key: string): seq<int>
    requires |reqs| == |answers|
  {
    if reqs == [] then []
    else
      var n := |reqs| - 1;
      var earlier := Accepted(reqs[..n], answers[..n], key);
      if answers[n] && reqs[n].key == key then earlier + [reqs[n].now] else earlier
  }

  /** The rule the limiter stands for, decided on the full acceptance history. */
  function Decide(reqs: seq<Request>, limit: int, windowMs: int): (answers: seq<bool>)
    ensures |answers| == |reqs|
  {
    if reqs == [] then []
    else
      var n := |reqs| - 1;
      var earlier := Decide(reqs[..n], limit, windowMs);
      earlier + [|Live(Accepted(reqs[..n], earlier, reqs[n].key), reqs[n].now - windowMs)| < limit]
  }

  lemma {:induction false} LiveOfLive(times: seq<int>, low: int, high: int)
    requires low <= high
    ensures Live(Live(times, low), high) == Live(times, high)
  {
    if times != [] {
      var init, last := times[..|times| - 1], times[|times| - 1];
      LiveOfLive(init, low, high);
      if last > low {
        assert (Live(init, low) + [last])[..|Live(init, low)|] == Live(init, low);
      }
    }
  }

  lemma LiveAppend(times: seq<int>, t: int, threshold: int)
    ensures Live(times + [t], threshold) == Live(times, threshold) + if t > threshold then [t] else []
  {
    assert (times + [t])[..|times|] == times;
  }

  /** What pruning forgot is older than any window that can still be asked about. */
  ghost predicate BucketsFaithful(reqs: seq<Request>, buckets: map<string, seq<int>>, answers: seq<bool>, since: int)
    requires |reqs| == |answers|
  {
    forall key, threshold :: threshold >= since ==>
      Live(Bucket(buckets, key), threshold) == Live(Accepted(reqs, answers, key), threshold)
  }

  lemma AcceptedStep(reqs: seq<Request>, answers: seq<bool>, r: Request, answer: bool, key: string)
    requires |reqs| == |answers|
    ensures Accepted(reqs + [r], answers + [answer], key)
         == if answer && r.key == key then Accepted(reqs, answers, key) + [r.now] else Accepted(reqs, answers, key)
  {
    assert (reqs + [r])[..|reqs|] == reqs && (answers + [answer])[..|reqs|] == answers;
  }

  lemma StepFaithful(reqs: seq<Request>, before: map<string, seq<int>>, answers: seq<bool>, r: Request, limit: int, windowMs: int)
    requires |reqs| == |answers| && BucketsFaithful(reqs, before, answers, r.now - windowMs)
    ensures var step := AllowStep(before, limit, windowMs, r.key, r.now);
            BucketsFaithful(reqs + [r], step.0, answers + [step.1], r.now - windowMs)
  {
    hide Live, Accepted;
    var step := AllowStep(before, limit, windowMs, r.key, r.now);
    var live := Live(Bucket(before, r.key), r.now - windowMs);
    forall key, threshold | threshold >= r.now - windowMs
      ensures Live(Bucket(step.0, key), threshold) == Live(Accepted(reqs + [r], answers + [step.1], key), threshold)
    {
      AcceptedStep(reqs, answers, r, step.1, key);
      if key == r.key {
        LiveOfLive(Bucket(before, key), r.now - windowMs, threshold);
        LiveAppend(live, r.now, threshold);
        LiveAppend(Accepted(reqs, answers, key), r.now, threshold);
      }
    }
  }

  /** The pruned buckets answer every request exactly as the full acceptance history would. */
  lemma {:induction false} PruningIsInvisible(reqs: seq<Request>, limit: int, windowMs: int)
    requires Monotone(reqs)
    ensures Run(reqs, limit, windowMs).1 == Decide(reqs, limit, windowMs)
    ensures reqs != [] ==>
              BucketsFaithful(reqs, Run(reqs, limit, windowMs).0, Run(reqs, limit, windowMs).1, reqs[|reqs| - 1].now - windowMs)
  {
    if reqs != [] {
      var n := |reqs| - 1;
      var init, r := reqs[..n], reqs[n];
      PruningIsInvisible(init, limit, windowMs);
      var before := Run(init, limit, windowMs);
      assert BucketsFaithful(init, before.0, before.1, r.now - windowMs) by {
        if init != [] { assert init[n - 1].now <= r.now; }
      }
      StepFaithful(init, before.0, before.1, r, limit, windowMs);
      assert init + [r] == reqs;
    }
  }

  // ---- The promise -----------------------------------------------------------------------------------------

  /** The timestamps in the window that ends at `at`, its end included. */
  function InWindow(times: seq<int>, at: int, windowMs: int): seq<int> {
    if times == [] then []
    else
      var inside, last := InWindow(times[..|times| - 1], at, windowMs), times[|times| - 1];
      if at - windowMs < last <= at then inside + [last] else inside
  }

  lemma {:induction false} WindowIsLive(times: seq<int>, at: int, windowMs: int)
    requires forall i :: 0 <= i < |times| ==> times[i] <= at
    ensures InWindow(times, at, windowMs) == Live(times, at - windowMs)
  {
    if times != [] { WindowIsLive(times[..|times| - 1], at, windowMs); }
  }

  lemma {:induction false} LiveShrinks(times: seq<int>, low: int, high: int)
    requires low <= high
    ensures |Live(times, high)| <= |Live(times, low)|
  {
    if times != [] { LiveShrinks(times[..|times| - 1], low, high); }
  }

  lemma {:induction false} AcceptedBefore(reqs: seq<Request>, answers: seq<bool>, key: string, now: int)
    requires |reqs| == |answers| && forall i :: 0 <= i < |reqs| ==> reqs[i].now <= now
    ensures forall i :: 0 <= i < |Accepted(reqs, answers, key)| ==> Accepted(reqs, answers, key)[i] <= now
  {
    if reqs != [] { AcceptedBefore(reqs[..|reqs| - 1], answers[..|reqs| - 1], key, now); }
  }

  lemma WindowAppend(times: seq<int>, t: int, at: int, windowMs: int)
    ensures InWindow(times + [t], at, windowMs)
         == InWindow(times, at, windowMs) + if at - windowMs < t <= at then [t] else []
  {
    assert (times + [t])[..|times|] == times;
  }

  /** The last decision, on the acceptances before it. */
  lemma LastDecision(reqs: seq<Request>, limit: int, windowMs: int)
    requires Monotone(reqs) && reqs != []
    ensures var n := |reqs| - 1;
            var init, answers := reqs[..n], Run(reqs, limit, windowMs).1;
            && answers[..n] == Run(init, limit, windowMs).1
            && (answers[n] <==> |Live(Accepted(init, answers[..n], reqs[n].key), reqs[n].now - windowMs)| < limit)
            && (answers[n] ==>
                  Accepted(reqs, answers, reqs[n].key) == Accepted(init, answers[..n], reqs[n].key) + [reqs[n].now])
  {
    hide Live, AllowStep;
    var n := |reqs| - 1;
    PruningIsInvisible(reqs, limit, windowMs);
    PruningIsInvisible(reqs[..n], limit, windowMs);
    assert Decide(reqs, limit, windowMs)[..n] == Decide(reqs[..n], limit, windowMs);
  }

  lemma OtherKeyUnchanged(reqs: seq<Request>, answers: seq<bool>, key: string)
    requires |reqs| == |answers| && reqs != []
    requires !answers[|reqs| - 1] || reqs[|reqs| - 1].key != key
    ensures Accepted(reqs, answers, key) == Accepted(reqs[..|reqs| - 1], answers[..|reqs| - 1], key)
  {
  }

  /** Accepting at `now` leaves room in every window that contains `now`. */
  lemma RoomForOneMore(times: seq<int>, now: int, at: int, windowMs: int, limit: nat)
    requires forall i :: 0 <= i < |times| ==> times[i] <= now
    requires |InWindow(times, at, windowMs)| <= limit
    requires |Live(times, now - windowMs)| < limit
    ensures |InWindow(times + [now], at, windowMs)| <= limit
  {
    hide Live, InWindow;
    WindowAppend(times, now, at, windowMs);
    if at - windowMs < now <= at {
      WindowIsLive(times, at, windowMs);
      LiveShrinks(times, now - windowMs, at - windowMs);
    }
  }

  /** Over every run and for every key, no window of the configured length holds more than `limit` acceptances. */
  lemma {:induction false} AtMostLimitPerWindow(reqs: seq<Request>, limit: nat, windowMs: int, key: string, at: int)
    requires Monotone(reqs)
    ensures |InWindow(Accepted(reqs, Run(reqs, limit, windowMs).1, key), at, windowMs)| <= limit
  {
    hide Live, Run;
    var answers := Run(reqs, limit, windowMs).1;
    if reqs == [] {
      assert Accepted(reqs, answers, key) == [];
    } else {
      hide InWindow, Accepted;
      var n := |reqs| - 1;
      var init, r := reqs[..n], reqs[n];
      AtMostLimitPerWindow(init, limit, windowMs, key, at);
      LastDecision(reqs, limit, windowMs);
      if answers[n] && r.key == key {
        AcceptedBefore(init, answers[..n], key, r.now);
        RoomForOneMore(Accepted(init, answers[..n], key), r.now, at, windowMs, limit);
      } else {
        OtherKeyUnchanged(reqs, answers, key);
      }
    }
  }

  /** A request is turned away exactly when `limit` acceptances of its key lie in the window that ends with it. */
  lemma RejectedIffWindowFull(reqs: seq<Request>, limit: int, windowMs: int)
    requires Monotone(reqs) && reqs != []
    ensures var n := |reqs| - 1;
            var answers := Run(reqs, limit, windowMs).1;
            !answers[n] <==>
              |InWindow(Accepted(reqs[..n], answers[..n], reqs[n].key), reqs[n].now, windowMs)| >= limit
  {
    hide Live, Run, InWindow, Accepted;
    var n := |reqs| - 1;
    var answers := Run(reqs, limit, windowMs).1;
    LastDecision(reqs, limit, windowMs);
    AcceptedBefore(reqs[..n], answers[..n], reqs[n].key, reqs[n].now);
    WindowIsLive(Accepted(reqs[..n], answers[..n], reqs[n].key), reqs[n].now, windowMs);
  }
}
