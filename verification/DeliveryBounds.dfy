/**
 Counting over the threads of the delivery protocol: with any granularity of Replay, a delivery is posted
 at most n times per run and has one run for its emission and one per successful replay.
 */
module DeliveryBounds {
  import opened Deliveries
  import opened Dispatching
  import opened Protocol
  import opened Wrappers

  function Total(threads: seq<Thread>, weight: Thread -> nat): nat {
    if threads == [] then 0
    else Total(threads[..|threads| - 1], weight) + weight(threads[|threads| - 1])
  }

  lemma {:induction false} TotalPut(threads: seq<Thread>, weight: Thread -> nat, t: nat, th: Thread)
    requires t < |threads|
    ensures Total(threads[t := th], weight) + weight(threads[t]) == Total(threads, weight) + weight(th)
    ensures Total(threads, weight) >= weight(threads[t])
  {
    var last := |threads| - 1;
    if t == last {
      assert threads[t := th][..last] == threads[..last];
    } else {
      assert threads[t := th][..last] == threads[..last][t := th];
      TotalPut(threads[..last], weight, t, th);
    }
  }

  lemma TotalSpawn(threads: seq<Thread>, weight: Thread -> nat, th: Thread)
    ensures Total(threads + [th], weight) == Total(threads, weight) + weight(th)
  {
    assert (threads + [th])[..|threads|] == threads;
  }

  /** Two threads that both weigh something make a total of at least two. */
  lemma {:induction false} TotalPair(threads: seq<Thread>, weight: Thread -> nat, t: nat, u: nat)
    requires t < u < |threads| && weight(threads[t]) > 0 && weight(threads[u]) > 0
    ensures Total(threads, weight) >= 2
  {
    var last := |threads| - 1;
    if u == last {
      TotalPut(threads[..last], weight, t, threads[t]);
    } else {
      TotalPair(threads[..last], weight, t, u);
    }
  }

  lemma {:induction false} TotalScaled(threads: seq<Thread>, weight: Thread -> nat, weight': Thread -> nat, n: nat)
    requires forall t :: 0 <= t < |threads| ==> weight(threads[t]) <= n * weight'(threads[t])
    ensures Total(threads, weight) <= n * Total(threads, weight')
  {
    if threads == [] {
    } else {
      TotalScaled(threads[..|threads| - 1], weight, weight', n);
    }
  }

  // ---------------------------------------------------------------- POSTs per delivery

  function Posts(log: seq<Post>, d: string): nat {
    if log == [] then 0
    else Posts(log[..|log| - 1], d) + (if log[|log| - 1].job.id == d then 1 else 0)
  }

  /** The POSTs that a thread has made for delivery d. */
  function Made(d: string): Thread -> nat {
    (th: Thread) => if th.Running? && th.job.id == d then th.posted else 0
  }

  /** A run of d, or a thread about to start one. */
  function Claim(d: string): Thread -> nat {
    (th: Thread) =>
      match th
      case Emitting(_, _, _, created) => if created == Some(d) then 1 else 0
      case Replaying(id, _, phase) => if id == d && phase == Armed then 1 else 0
      case Running(job, _, _) => if job.id == d then 1 else 0
  }

  ghost predicate Bounded(s: State, d: string) {
    && Posts(s.log, d) == Total(s.threads, Made(d))
    && Total(s.threads, Claim(d)) <= (if d in s.issued then 1 else 0) + s.replays[d]
  }

  /** What the thread that a step moves on weighed before it. */
  ghost function Was(s: State, step: Step, weight: Thread -> nat): nat
    requires Acts(step) ==> step.t < |s.threads|
  {
    if Acts(step) then weight(s.threads[step.t]) else 0
  }

  /** What the thread that a step moves on, and the one that it starts, weigh after it. */
  ghost function Now(s: State, s': State, step: Step, weight: Thread -> nat): nat
    requires |s.threads| <= |s'.threads| && (Acts(step) ==> step.t < |s.threads|)
  {
    (if Acts(step) then weight(s'.threads[step.t]) else 0)
    + (if |s'.threads| > |s.threads| then weight(s'.threads[|s.threads|]) else 0)
  }

  /** A step changes a total by what its threads weigh. */
  lemma TotalAfter(c: Config, s: State, step: Step, weight: Thread -> nat)
    requires s.table.Valid() && Enabled(c, s, step)
    ensures Acts(step) ==> step.t < |s.threads|
    ensures Total(s.threads, weight) >= Was(s, step, weight)
    ensures var s' := Apply(c, s, step);
            && |s.threads| <= |s'.threads|
            && Total(s'.threads, weight) + Was(s, step, weight) == Total(s.threads, weight) + Now(s, s', step, weight)
  {
    ThreadsChange(c, s, step);
    TotalOf(s, Apply(c, s, step), step, weight);
  }

  lemma TotalOf(s: State, s': State, step: Step, weight: Thread -> nat)
    requires |s.threads| <= |s'.threads| <= |s.threads| + 1
    requires Acts(step) ==> step.t < |s.threads|
    requires s'.threads[..|s.threads|] == if Acts(step) then s.threads[step.t := s'.threads[step.t]] else s.threads
    ensures Total(s.threads, weight) >= Was(s, step, weight)
    ensures Total(s'.threads, weight) + Was(s, step, weight) == Total(s.threads, weight) + Now(s, s', step, weight)
  {
    var n := |s.threads|;
    if Acts(step) {
      TotalPut(s.threads, weight, step.t, s'.threads[step.t]);
    }
    if |s'.threads| > n {
      assert s'.threads == s'.threads[..n] + [s'.threads[n]];
      TotalSpawn(s'.threads[..n], weight, s'.threads[n]);
    } else {
      assert s'.threads == s'.threads[..n];
    }
  }

  predicate PostsFor(s: State, step: Step, d: string) {
    step.PostAttempt? && step.t < |s.threads| && s.threads[step.t].Running? && s.threads[step.t].job.id == d
  }

  lemma MadeChange(c: Config, s: State, step: Step, d: string)
    requires s.table.Valid() && Enabled(c, s, step) && (Acts(step) ==> step.t < |s.threads|)
    ensures |s.threads| <= |Apply(c, s, step).threads|
    ensures Now(s, Apply(c, s, step), step, Made(d)) == Was(s, step, Made(d)) + (if PostsFor(s, step, d) then 1 else 0)
  {
  }

  lemma PostsChange(c: Config, s: State, step: Step, d: string)
    requires s.table.Valid() && Enabled(c, s, step)
    ensures Posts(Apply(c, s, step).log, d) == Posts(s.log, d) + (if PostsFor(s, step, d) then 1 else 0)
  {
    if step.PostAttempt? {
      assert Apply(c, s, step).log[..|s.log|] == s.log;
    }
  }

  /** A replay of d that has read its record resets it. */
  ghost predicate Rearms(s: State, step: Step, d: string) {
    && step.Rearm? && !step.fault && step.t < |s.threads| && s.threads[step.t].Replaying?
    && s.threads[step.t].id == d
  }

  /** So does one that reads it in the same step. */
  ghost predicate Resets(s: State, step: Step, d: string) {
    Rearms(s, step, d) || (step.CheckAndRearm? && !step.fault && step.id == d)
  }

  /** The step gives d its one emission, or one more successful replay. */
  ghost predicate Grants(s: State, step: Step, d: string) {
    (step.CreateRecord? && step.id == d) || Resets(s, step, d)
  }

  predicate Emits(step: Step) {
    step.BeginEmit? || step.CreateRecord? || step.StartDelivery?
  }

  lemma ClaimsOfEmission(c: Config, s: State, step: Step, d: string)
    requires Emits(step)
    requires s.table.Valid() && Enabled(c, s, step) && (Acts(step) ==> step.t < |s.threads|)
    ensures |s.threads| <= |Apply(c, s, step).threads|
    ensures Now(s, Apply(c, s, step), step, Claim(d)) <= Was(s, step, Claim(d)) + (if Grants(s, step, d) then 1 else 0)
  {
  }

  lemma ClaimsOfOthers(c: Config, s: State, step: Step, d: string)
    requires !Emits(step)
    requires s.table.Valid() && Enabled(c, s, step) && (Acts(step) ==> step.t < |s.threads|)
    ensures |s.threads| <= |Apply(c, s, step).threads|
    ensures Now(s, Apply(c, s, step), step, Claim(d)) <= Was(s, step, Claim(d)) + (if Grants(s, step, d) then 1 else 0)
  {
  }

  lemma ClaimsChange(c: Config, s: State, step: Step, d: string)
    requires s.table.Valid() && Enabled(c, s, step) && (Acts(step) ==> step.t < |s.threads|)
    ensures |s.threads| <= |Apply(c, s, step).threads|
    ensures Now(s, Apply(c, s, step), step, Claim(d)) <= Was(s, step, Claim(d)) + (if Grants(s, step, d) then 1 else 0)
  {
    if Emits(step) {
      ClaimsOfEmission(c, s, step, d);
    } else {
      ClaimsOfOthers(c, s, step, d);
    }
  }

  lemma RightsChange(c: Config, s: State, step: Step, d: string)
    requires s.table.Valid() && Enabled(c, s, step)
    ensures var s' := Apply(c, s, step);
            (if d in s'.issued then 1 else 0) + s'.replays[d]
              == (if d in s.issued then 1 else 0) + s.replays[d] + (if Grants(s, step, d) then 1 else 0)
  {
  }

  lemma BoundedKeeps(c: Config, s: State, step: Step, d: string)
    requires s.table.Valid() && Enabled(c, s, step) && Bounded(s, d)
    ensures Bounded(Apply(c, s, step), d)
  {
    TotalAfter(c, s, step, Made(d));
    TotalAfter(c, s, step, Claim(d));
    MadeChange(c, s, step, d);
    PostsChange(c, s, step, d);
    ClaimsChange(c, s, step, d);
    RightsChange(c, s, step, d);
  }

  lemma {:induction false} BoundsKeep(c: Config, s: State, steps: seq<Step>, d: string)
    requires s.table.Valid() && Runs(c, s, steps) && Bounded(s, d)
    ensures Bounded(Exec(c, s, steps), d)
    decreases |steps|
  {
    if steps == [] {
    } else {
      BoundedKeeps(c, s, steps[0], d);
      BoundsKeep(c, Apply(c, s, steps[0]), steps[1..], d);
    }
  }

  /** However replays, deliveries, lost writes and deaths interleave, a delivery is posted at most n
      times for its emission and n times for each successful replay. */
  lemma PostsAreBounded(c: Config, steps: seq<Step>, s: State, d: string)
    requires c.Valid() && Runs(c, INITIAL, steps) && s == Exec(c, INITIAL, steps)
    ensures Posts(s.log, d) <= c.attempts * (1 + s.replays[d])
  {
    ReachableBounds(c, steps, s, d);
    BoundOf(c, s, d);
  }

  lemma ReachableBounds(c: Config, steps: seq<Step>, s: State, d: string)
    requires c.Valid() && Runs(c, INITIAL, steps) && s == Exec(c, INITIAL, steps)
    ensures ThreadsTrue(c, s) && Bounded(s, d)
  {
    ReachableThreads(c, steps);
    BoundsKeep(c, INITIAL, steps, d);
  }

  lemma BoundOf(c: Config, s: State, d: string)
    requires ThreadsTrue(c, s) && Bounded(s, d)
    ensures Posts(s.log, d) <= c.attempts * (1 + s.replays[d])
  {
    forall t | 0 <= t < |s.threads| ensures Made(d)(s.threads[t]) <= c.attempts * Claim(d)(s.threads[t]) {
      MadeIsBounded(c, s, t, d);
    }
    TotalScaled(s.threads, Made(d), Claim(d), c.attempts);
    Times(c.attempts, Total(s.threads, Claim(d)), 1 + s.replays[d]);
  }

  lemma MadeIsBounded(c: Config, s: State, t: nat, d: string)
    requires t < |s.threads| && ThreadTrue(c, s, t, s.threads[t])
    ensures Made(d)(s.threads[t]) <= c.attempts * Claim(d)(s.threads[t])
  {
  }

  lemma Times(n: nat, a: nat, b: nat)
    requires a <= b
    ensures n * a <= n * b
  {
  }
}
