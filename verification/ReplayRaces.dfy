/**
 What the delivery protocol keeps of a delivery's replays. Replay reads a record and resets it in two store
 calls, and by the time of the reset the record may no longer be the dead letter that was read. Such a reset
 is stale; it is crowded when the delivery then has a live thread. A delivery has at most one live thread,
 and a closed record none, along a run exactly when no reset of it is crowded; besides, each successful replay
 answers a dead-letter verdict of its own exactly when none is stale. None is either when the two calls are
 one step; runs of the two calls show one that is stale only, and one that is crowded.
 */
module ReplayRaces {
  import opened Deliveries
  import opened DeliveryBounds
  import opened Dispatching
  import opened Envelope
  import opened Protocol
  import opened SoloRuns
  import opened Wrappers

  /** A thread that may yet write the record of d, or start one that may. */
  function Live(d: string): Thread -> nat {
    (th: Thread) =>
      match th
      case Emitting(_, _, _, created) => if created == Some(d) then 1 else 0
      case Replaying(id, _, phase) => if id == d && phase == Armed then 1 else 0
      case Running(job, _, pc) => if job.id == d && pc != Finished then 1 else 0
  }

  predicate Closed(s: State, d: string) {
    d in s.table.rows && (s.table.rows[d].status == Delivered || s.table.rows[d].status == DeadLetter)
  }

  /** The successful replays of d are as many as its dead_letter verdicts, less one while it is a dead letter. */
  ghost predicate Answered(s: State, d: string) {
    s.replays[d] + (if IsDead(s, d) then 1 else 0) == s.verdicts[d]
  }

  /** At most one thread can write the record of d, and none before it is issued or while it is closed. */
  ghost predicate Safe(s: State, d: string) {
    && Total(s.threads, Live(d)) <= 1
    && (d !in s.issued || Closed(s, d) ==> Total(s.threads, Live(d)) == 0)
  }

  ghost predicate Strong(s: State, d: string) {
    Safe(s, d) && Answered(s, d)
  }

  /** The step resets the record of d although it is not a dead letter, or no longer. */
  ghost predicate Stale(s: State, step: Step, d: string) {
    Rearms(s, step, d) && !IsDead(s, d)
  }

  /** The step resets the record of d although a thread is live that can write it. */
  ghost predicate Crowded(s: State, step: Step, d: string) {
    Rearms(s, step, d) && Total(s.threads, Live(d)) > 0
  }

  /** A record is closed by a verdict of one of its own deliveries, and by nothing else. */
  lemma ClosedBy(c: Config, s: State, step: Step, d: string)
    requires s.table.Valid() && ActorTrue(c, s, step) && Enabled(c, s, step)
    requires Closed(Apply(c, s, step), d)
    ensures || (Closed(s, d) && Apply(c, s, step).table.rows[d] == s.table.rows[d])
            || (step.Persist? && s.threads[step.t].job.id == d && s.threads[step.t].pc.write.status != Failed)
  {
    if d in s.table.rows {
      RowChange(c, s, step, d);
    }
  }

  /** Only a delivery of d itself can write the record of d, and it is live when it does. */
  lemma WriterIsLive(s: State, t: nat, d: string)
    requires t < |s.threads| && s.threads[t].Running? && s.threads[t].pc.Writing? && s.threads[t].job.id == d
    ensures Total(s.threads, Live(d)) >= 1
  {
    TotalPut(s.threads, Live(d), t, s.threads[t]);
  }

  /** Liveness for d appears only where d is created or re-armed; every other step passes it on or drops it. */
  lemma LivenessAppears(c: Config, s: State, step: Step, d: string)
    requires s.table.Valid() && Enabled(c, s, step)
    requires Acts(step) ==> step.t < |s.threads|
    ensures var s' := Apply(c, s, step);
            && |s.threads| <= |s'.threads|
            && Now(s, s', step, Live(d)) <= Was(s, step, Live(d)) + (if Grants(s, step, d) then 1 else 0)
  {
  }

  lemma LiveKeeps(c: Config, s: State, step: Step, d: string)
    requires s.table.Valid() && Enabled(c, s, step) && !Crowded(s, step, d)
    requires d in s.table.rows ==> d in s.issued
    requires Safe(s, d)
    ensures var s' := Apply(c, s, step);
            && Total(s'.threads, Live(d)) <= 1
            && (d !in s'.issued ==> Total(s'.threads, Live(d)) == 0 || Rearms(s, step, d))
  {
    TotalAfter(c, s, step, Live(d));
    LivenessAppears(c, s, step, d);
  }

  /** A verdict is its delivery's last act. */
  lemma VerdictEnds(c: Config, s: State, step: Step, d: string)
    requires s.table.Valid() && Enabled(c, s, step) && step.Persist?
    requires s.threads[step.t].job.id == d && s.threads[step.t].pc.write.status != Failed
    requires Total(s.threads, Live(d)) <= 1
    ensures Total(Apply(c, s, step).threads, Live(d)) == 0
  {
    TotalAfter(c, s, step, Live(d));
  }

  lemma ClosedKeeps(c: Config, s: State, step: Step, d: string)
    requires s.table.Valid() && ActorTrue(c, s, step) && Enabled(c, s, step)
    requires d in s.table.rows ==> d in s.issued
    requires Safe(s, d) && Closed(Apply(c, s, step), d)
    ensures Total(Apply(c, s, step).threads, Live(d)) == 0
  {
    ClosedBy(c, s, step, d);
    if step.Persist? && s.threads[step.t].job.id == d && s.threads[step.t].pc.write.status != Failed {
      VerdictEnds(c, s, step, d);
    } else {
      if Resets(s, step, d) {
        ResetReopens(c, s, step, d);
      }
      TotalAfter(c, s, step, Live(d));
      LivenessAppears(c, s, step, d);
    }
  }

  lemma ResetReopens(c: Config, s: State, step: Step, d: string)
    requires s.table.Valid() && Enabled(c, s, step) && Resets(s, step, d)
    ensures !Closed(Apply(c, s, step), d)
  {
  }

  lemma VerdictsKeep(c: Config, s: State, step: Step, d: string)
    requires s.table.Valid() && ActorTrue(c, s, step) && Enabled(c, s, step) && !Stale(s, step, d)
    requires IsDead(s, d) ==> Total(s.threads, Live(d)) == 0
    requires Answered(s, d)
    ensures Answered(Apply(c, s, step), d)
  {
    if step.Persist? && s.threads[step.t].job.id == d {
      OwnVerdict(c, s, step, d);
    } else if Resets(s, step, d) {
      ResetAnswers(c, s, step, d);
    } else {
      RestAnswers(c, s, step, d);
    }
  }

  lemma ResetAnswers(c: Config, s: State, step: Step, d: string)
    requires s.table.Valid() && ActorTrue(c, s, step) && Enabled(c, s, step) && !Stale(s, step, d)
    requires Answered(s, d) && Resets(s, step, d)
    ensures Answered(Apply(c, s, step), d)
  {
    ResetReopens(c, s, step, d);
  }

  lemma RestAnswers(c: Config, s: State, step: Step, d: string)
    requires s.table.Valid() && ActorTrue(c, s, step) && Enabled(c, s, step)
    requires Answered(s, d) && !Resets(s, step, d) && !(step.Persist? && s.threads[step.t].job.id == d)
    ensures Answered(Apply(c, s, step), d)
  {
    CountsStay(c, s, step, d);
    DeadStays(c, s, step, d);
  }

  lemma CountsStay(c: Config, s: State, step: Step, d: string)
    requires s.table.Valid() && Enabled(c, s, step)
    requires !Resets(s, step, d) && !(step.Persist? && s.threads[step.t].job.id == d)
    ensures Apply(c, s, step).replays[d] == s.replays[d] && Apply(c, s, step).verdicts[d] == s.verdicts[d]
  {
  }

  lemma DeadStays(c: Config, s: State, step: Step, d: string)
    requires s.table.Valid() && ActorTrue(c, s, step) && Enabled(c, s, step)
    requires !Resets(s, step, d) && !(step.Persist? && s.threads[step.t].job.id == d)
    ensures IsDead(Apply(c, s, step), d) <==> IsDead(s, d)
  {
    if d in s.table.rows {
      RowChange(c, s, step, d);
    }
  }

  /** A status write of d makes it a dead letter exactly when it is a verdict, for it was not one before. */
  lemma OwnVerdict(c: Config, s: State, step: Step, d: string)
    requires s.table.Valid() && Enabled(c, s, step) && step.Persist? && s.threads[step.t].job.id == d
    requires IsDead(s, d) ==> Total(s.threads, Live(d)) == 0
    ensures var s' := Apply(c, s, step);
            && s'.replays == s.replays && !IsDead(s, d)
            && s'.verdicts[d] == s.verdicts[d] + (if IsDead(s', d) then 1 else 0)
  {
    WriterIsLive(s, step.t, d);
  }

  lemma SafeKeeps(c: Config, s: State, step: Step, d: string)
    requires c.Valid() && Inv(c, s) && Safe(s, d) && Enabled(c, s, step) && !Crowded(s, step, d)
    ensures Safe(Apply(c, s, step), d)
  {
    ActorIsTrue(c, s, step);
    if Rearms(s, step, d) {
      assert ThreadTrue(c, s, step.t, s.threads[step.t]);
    }
    LiveKeeps(c, s, step, d);
    if Closed(Apply(c, s, step), d) {
      ClosedKeeps(c, s, step, d);
    }
  }

  /** A crowded reset adds a live thread to the one there is. */
  lemma CrowdedBreaks(c: Config, s: State, step: Step, d: string)
    requires s.table.Valid() && Enabled(c, s, step) && Crowded(s, step, d)
    ensures Total(Apply(c, s, step).threads, Live(d)) > 1
  {
    TotalAfter(c, s, step, Live(d));
  }

  /** A dead letter has no live thread, so what is crowded is stale. */
  lemma CrowdedIsStale(s: State, step: Step, d: string)
    requires Safe(s, d) && Crowded(s, step, d)
    ensures Stale(s, step, d)
  {
  }

  lemma StrongKeeps(c: Config, s: State, step: Step, d: string)
    requires c.Valid() && Inv(c, s) && Strong(s, d) && Enabled(c, s, step) && !Stale(s, step, d)
    ensures Strong(Apply(c, s, step), d)
  {
    if Crowded(s, step, d) {
      CrowdedIsStale(s, step, d);
    }
    SafeKeeps(c, s, step, d);
    ActorIsTrue(c, s, step);
    VerdictsKeep(c, s, step, d);
  }

  /** A stale reset is a replay that answers no verdict. */
  lemma StaleBreaks(c: Config, s: State, step: Step, d: string)
    requires s.table.Valid() && Answered(s, d) && Enabled(c, s, step) && Stale(s, step, d)
    ensures !Answered(Apply(c, s, step), d)
  {
  }

  // ---------------------------------------------------------------- exactly when it is safe along a run

  ghost predicate AlwaysSafe(c: Config, s: State, steps: seq<Step>, d: string)
    requires s.table.Valid() && Runs(c, s, steps)
    decreases |steps|
  {
    Safe(s, d) && (steps == [] || AlwaysSafe(c, Apply(c, s, steps[0]), steps[1..], d))
  }

  /** No reset of d in the run finds a live thread of d. */
  ghost predicate NoneCrowded(c: Config, s: State, steps: seq<Step>, d: string)
    requires s.table.Valid() && Runs(c, s, steps)
    decreases |steps|
  {
    steps == [] || (!Crowded(s, steps[0], d) && NoneCrowded(c, Apply(c, s, steps[0]), steps[1..], d))
  }

  lemma FirstStepSafe(c: Config, s: State, step: Step, d: string)
    requires c.Valid() && Inv(c, s) && Safe(s, d) && Enabled(c, s, step)
    ensures Inv(c, Apply(c, s, step))
    ensures Safe(Apply(c, s, step), d) <==> !Crowded(s, step, d)
  {
    StepKeeps(c, s, step);
    if Crowded(s, step, d) {
      CrowdedBreaks(c, s, step, d);
    } else {
      SafeKeeps(c, s, step, d);
    }
  }

  /** With either granularity of Replay, every state of a run is safe exactly when no reset in it is crowded. */
  lemma {:induction false} SafeIff(c: Config, s: State, steps: seq<Step>, d: string)
    requires c.Valid() && Inv(c, s) && Safe(s, d) && Runs(c, s, steps)
    ensures AlwaysSafe(c, s, steps, d) <==> NoneCrowded(c, s, steps, d)
    decreases |steps|
  {
    if steps == [] {
    } else {
      var s1 := Apply(c, s, steps[0]);
      FirstStepSafe(c, s, steps[0], d);
      if Crowded(s, steps[0], d) {
        assert !AlwaysSafe(c, s1, steps[1..], d);
      } else {
        SafeIff(c, s1, steps[1..], d);
      }
    }
  }

  lemma {:induction false} SafeAtEnd(c: Config, s: State, steps: seq<Step>, d: string)
    requires c.Valid() && Inv(c, s) && Safe(s, d) && Runs(c, s, steps) && NoneCrowded(c, s, steps, d)
    ensures Safe(Exec(c, s, steps), d)
    decreases |steps|
  {
    if steps == [] {
    } else {
      FirstStepSafe(c, s, steps[0], d);
      SafeAtEnd(c, Apply(c, s, steps[0]), steps[1..], d);
    }
  }

  /** When no reset of d was crowded: no two threads can write its record, and none can once it is delivered
      or dead_letter. */
  lemma OneLiveThread(c: Config, steps: seq<Step>, d: string, t: nat, u: nat)
    requires c.Valid() && Runs(c, INITIAL, steps) && NoneCrowded(c, INITIAL, steps, d)
    requires t < |Exec(c, INITIAL, steps).threads| && u < |Exec(c, INITIAL, steps).threads|
    ensures var s := Exec(c, INITIAL, steps);
            && (t != u ==> Live(d)(s.threads[t]) == 0 || Live(d)(s.threads[u]) == 0)
            && (Closed(s, d) ==> Live(d)(s.threads[t]) == 0)
  {
    SafeAtEnd(c, INITIAL, steps, d);
    var s := Exec(c, INITIAL, steps);
    TotalPut(s.threads, Live(d), t, s.threads[t]);
    if t != u && Live(d)(s.threads[t]) > 0 && Live(d)(s.threads[u]) > 0 {
      TotalPair(s.threads, Live(d), if t < u then t else u, if t < u then u else t);
    }
  }

  // ---------------------------------------------------------------- exactly when replays answer verdicts

  ghost predicate AlwaysStrong(c: Config, s: State, steps: seq<Step>, d: string)
    requires s.table.Valid() && Runs(c, s, steps)
    decreases |steps|
  {
    Strong(s, d) && (steps == [] || AlwaysStrong(c, Apply(c, s, steps[0]), steps[1..], d))
  }

  ghost predicate AlwaysAnswered(c: Config, s: State, steps: seq<Step>, d: string)
    requires s.table.Valid() && Runs(c, s, steps)
    decreases |steps|
  {
    Answered(s, d) && (steps == [] || AlwaysAnswered(c, Apply(c, s, steps[0]), steps[1..], d))
  }

  /** No reset of d in the run finds something other than a dead letter. */
  ghost predicate NoneStale(c: Config, s: State, steps: seq<Step>, d: string)
    requires s.table.Valid() && Runs(c, s, steps)
    decreases |steps|
  {
    steps == [] || (!Stale(s, steps[0], d) && NoneStale(c, Apply(c, s, steps[0]), steps[1..], d))
  }

  lemma FirstStepStrong(c: Config, s: State, step: Step, d: string)
    requires c.Valid() && Inv(c, s) && Strong(s, d) && Enabled(c, s, step)
    ensures Inv(c, Apply(c, s, step))
    ensures Stale(s, step, d) ==> !Answered(Apply(c, s, step), d)
    ensures !Stale(s, step, d) ==> Strong(Apply(c, s, step), d) && !Crowded(s, step, d)
  {
    StepKeeps(c, s, step);
    if Stale(s, step, d) {
      StaleBreaks(c, s, step, d);
    } else {
      StrongKeeps(c, s, step, d);
    }
  }

  /** With either granularity of Replay, the successful replays match the verdicts in every state of a run
      exactly when no reset in it is stale; the run is then safe as well. */
  lemma {:induction false} StrongIff(c: Config, s: State, steps: seq<Step>, d: string)
    requires c.Valid() && Inv(c, s) && Strong(s, d) && Runs(c, s, steps)
    ensures AlwaysAnswered(c, s, steps, d) <==> NoneStale(c, s, steps, d)
    ensures AlwaysStrong(c, s, steps, d) <==> NoneStale(c, s, steps, d)
    ensures NoneStale(c, s, steps, d) ==> NoneCrowded(c, s, steps, d)
    decreases |steps|
  {
    if steps == [] {
    } else {
      var s1 := Apply(c, s, steps[0]);
      FirstStepStrong(c, s, steps[0], d);
      if Stale(s, steps[0], d) {
        assert !AlwaysAnswered(c, s1, steps[1..], d) && !AlwaysStrong(c, s1, steps[1..], d);
      } else {
        StrongIff(c, s1, steps[1..], d);
      }
    }
  }

  lemma {:induction false} StrongAtEnd(c: Config, s: State, steps: seq<Step>, d: string)
    requires c.Valid() && Inv(c, s) && Strong(s, d) && Runs(c, s, steps) && NoneStale(c, s, steps, d)
    ensures Strong(Exec(c, s, steps), d)
    decreases |steps|
  {
    if steps == [] {
    } else {
      FirstStepStrong(c, s, steps[0], d);
      StrongAtEnd(c, Apply(c, s, steps[0]), steps[1..], d);
    }
  }

  /** When check and reset are one step, no reset is stale, or crowded. */
  lemma {:induction false} IndivisibleIsNeverStale(c: Config, s: State, steps: seq<Step>, d: string)
    requires c.indivisible && s.table.Valid() && Runs(c, s, steps)
    ensures NoneStale(c, s, steps, d) && NoneCrowded(c, s, steps, d)
    decreases |steps|
  {
    if steps == [] {
    } else {
      IndivisibleIsNeverStale(c, Apply(c, s, steps[0]), steps[1..], d);
    }
  }

  // ---------------------------------------------------------------- exactly when a delivered record stays

  predicate IsDelivered(s: State, d: string) {
    d in s.table.rows && s.table.rows[d].status == Delivered
  }

  /** In every state of the run the record of d is this one. */
  ghost predicate StaysAs(c: Config, s: State, steps: seq<Step>, d: string, row: Record)
    requires s.table.Valid() && Runs(c, s, steps)
    decreases |steps|
  {
    && d in s.table.rows && s.table.rows[d] == row
    && (steps == [] || StaysAs(c, Apply(c, s, steps[0]), steps[1..], d, row))
  }

  lemma DeliveredStep(c: Config, s: State, step: Step, d: string)
    requires s.table.Valid() && ActorTrue(c, s, step) && Enabled(c, s, step)
    requires IsDelivered(s, d) && Total(s.threads, Live(d)) == 0
    ensures d in Apply(c, s, step).table.rows
    ensures Apply(c, s, step).table.rows[d] == s.table.rows[d] <==> !Stale(s, step, d)
  {
    RowChange(c, s, step, d);
    if step.Persist? && s.threads[step.t].job.id == d {
      WriterIsLive(s, step.t, d);
    }
  }

  /** From any state in which a record is delivered and has no live thread, it is the same record in every
      later state exactly when no later reset of it is stale. */
  lemma {:induction false} DeliveredStaysIff(c: Config, s: State, steps: seq<Step>, d: string, row: Record)
    requires c.Valid() && Inv(c, s) && Safe(s, d) && Runs(c, s, steps)
    requires IsDelivered(s, d) && s.table.rows[d] == row
    ensures StaysAs(c, s, steps, d, row) <==> NoneStale(c, s, steps, d)
    decreases |steps|
  {
    if steps == [] {
    } else {
      ActorIsTrue(c, s, steps[0]);
      DeliveredStep(c, s, steps[0], d);
      FirstStepSafe(c, s, steps[0], d);
      if !Stale(s, steps[0], d) {
        DeliveredStaysIff(c, Apply(c, s, steps[0]), steps[1..], d, row);
      }
    }
  }

  /** So it is for a record delivered in a run without a crowded reset. */
  lemma DeliveredForeverIff(c: Config, before: seq<Step>, after: seq<Step>, d: string)
    requires c.Valid() && Runs(c, INITIAL, before) && Runs(c, Exec(c, INITIAL, before), after)
    requires NoneCrowded(c, INITIAL, before, d) && IsDelivered(Exec(c, INITIAL, before), d)
    ensures var s := Exec(c, INITIAL, before);
            StaysAs(c, s, after, d, s.table.rows[d]) <==> NoneStale(c, s, after, d)
  {
    Reachable(c, before);
    SafeAtEnd(c, INITIAL, before, d);
    var s := Exec(c, INITIAL, before);
    DeliveredStaysIff(c, s, after, d, s.table.rows[d]);
  }

  // ---------------------------------------------------------------- two store calls are not enough

  /** A run to `m` and a run from there make one run. */
  lemma {:induction false} Concat(c: Config, s: State, a: seq<Step>, m: State, b: seq<Step>)
    requires s.table.Valid() && Runs(c, s, a) && m == Exec(c, s, a) && Runs(c, m, b)
    ensures Runs(c, s, a + b) && Exec(c, s, a + b) == Exec(c, m, b)
    decreases |a|
  {
    if a == [] {
      assert a + b == b;
    } else {
      var s1 := AfterFirst(c, s, a, m);
      Concat(c, s1, a[1..], m, b);
      Prepend(c, s, a[0], a[1..] + b);
      HeadAndTail(a, b);
    }
  }

  lemma HeadAndTail<T>(a: seq<T>, b: seq<T>)
    requires a != []
    ensures [a[0]] + (a[1..] + b) == a + b
  {
  }

  lemma AfterFirst(c: Config, s: State, steps: seq<Step>, m: State) returns (s1: State)
    requires s.table.Valid() && steps != [] && Runs(c, s, steps) && m == Exec(c, s, steps)
    ensures Enabled(c, s, steps[0]) && s1 == Apply(c, s, steps[0])
    ensures s1.table.Valid() && Runs(c, s1, steps[1..]) && m == Exec(c, s1, steps[1..])
  {
    s1 := Apply(c, s, steps[0]);
  }

  lemma Take(c: Config, steps: seq<Step>, step: Step) returns (longer: seq<Step>)
    requires Runs(c, INITIAL, steps) && Enabled(c, Exec(c, INITIAL, steps), step)
    ensures longer == steps + [step] && Runs(c, INITIAL, longer)
    ensures Exec(c, INITIAL, longer) == Apply(c, Exec(c, INITIAL, steps), step)
  {
    longer := steps + [step];
    Prepend(c, Exec(c, INITIAL, steps), step, []);
    assert [step] + [] == [step];
    Concat(c, INITIAL, steps, Exec(c, INITIAL, steps), [step]);
  }

  /** What a POST and its status write do, one after the other. */
  lemma PostThenPersist(c: Config, s: State, t: nat, outcome: Outcome)
    requires s.table.Valid() && Enabled(c, s, PostAttempt(t, outcome)) && s.threads[t].job.id in s.table.rows
    ensures var s1, w := Apply(c, s, PostAttempt(t, outcome)), WriteFor(s.threads[t].posted + 1, outcome);
            && s1.threads == s.threads[t := Running(s.threads[t].job, s.threads[t].posted + 1, Writing(w))]
            && Enabled(c, s1, Persist(t, false))
            && var s2 := Apply(c, s1, Persist(t, false));
               && s2.threads == s.threads[t := Running(s.threads[t].job, s.threads[t].posted + 1, AfterWrite(c, w))]
               && s2.table == Update(s.table, s.threads[t].job.id, w.status, w.attempts, w.error)
               && s2.replays == s.replays && s2.verdicts == s.verdicts
  {
  }

  predicate NoRearm(steps: seq<Step>) {
    forall i :: 0 <= i < |steps| ==> !steps[i].Rearm?
  }

  lemma {:induction false} NoRearmNoneStale(c: Config, s: State, steps: seq<Step>, d: string)
    requires s.table.Valid() && Runs(c, s, steps) && NoRearm(steps)
    ensures NoneStale(c, s, steps, d)
    decreases |steps|
  {
    if steps == [] {
    } else {
      assert NoRearm(steps[1..]);
      NoRearmNoneStale(c, Apply(c, s, steps[0]), steps[1..], d);
    }
  }

  lemma Shorter<T>(steps: seq<T>, step: T, longer: seq<T>)
    requires steps != [] && longer == steps + [step]
    ensures longer[0] == steps[0] && longer[1..] == steps[1..] + [step]
  {
  }

  /** A run with one more step has a stale reset when it had one or that step is. */
  lemma {:induction false} StaleMore(c: Config, s: State, steps: seq<Step>, m: State, step: Step, longer: seq<Step>,
                                   d: string)
    requires s.table.Valid() && longer == steps + [step] && Runs(c, s, longer)
    requires Runs(c, s, steps) && m == Exec(c, s, steps)
    ensures NoneStale(c, s, longer, d) <==> NoneStale(c, s, steps, d) && !Stale(m, step, d)
    decreases |steps|
  {
    if steps == [] {
      assert longer[1..] == [];
    } else {
      var s1 := AfterFirst(c, s, steps, m);
      Shorter(steps, step, longer);
      StaleMore(c, s1, steps[1..], m, step, longer[1..], d);
    }
  }

  /** So for crowded ones. */
  lemma {:induction false} CrowdedMore(c: Config, s: State, steps: seq<Step>, m: State, step: Step, longer: seq<Step>,
                                   d: string)
    requires s.table.Valid() && longer == steps + [step] && Runs(c, s, longer)
    requires Runs(c, s, steps) && m == Exec(c, s, steps)
    ensures NoneCrowded(c, s, longer, d) <==> NoneCrowded(c, s, steps, d) && !Crowded(m, step, d)
    decreases |steps|
  {
    if steps == [] {
      assert longer[1..] == [];
    } else {
      var s1 := AfterFirst(c, s, steps, m);
      Shorter(steps, step, longer);
      CrowdedMore(c, s1, steps[1..], m, step, longer[1..], d);
    }
  }

  lemma {:induction false} SoloHasNoRearm(d: Delivery, k: nat)
    requires k < d.c.attempts
    ensures NoRearm(SoloSteps(d, k))
    decreases d.c.attempts - k
  {
    if !d.net(k).Accepted? && k + 1 < d.c.attempts {
      SoloHasNoRearm(d, k + 1);
    }
  }

  /** A run that begins to emit one event to one URL. */
  lemma BegunRun(c: Config, src: Source, url: string) returns (steps: seq<Step>)
    requires c.sign(src).Some?
    ensures Runs(c, INITIAL, steps) && NoRearm(steps)
    ensures var s := Exec(c, INITIAL, steps);
            && s.threads == [Emitting(c.sign(src).value, [url], 0, None)] && s.table == EMPTY && s.issued == map[]
            && s.replays == multiset{}
  {
    steps := Take(c, [], BeginEmit(src, [url]));
  }

  /** Its record is created. */
  lemma CreatedRun(c: Config, src: Source) returns (steps: seq<Step>)
    requires c.sign(src).Some?
    ensures Runs(c, INITIAL, steps) && NoRearm(steps)
    ensures var s := Exec(c, INITIAL, steps);
            && s.threads == [Emitting(c.sign(src).value, ["u"], 0, Some("d"))]
            && s.replays == multiset{} && "d" in s.table.rows
  {
    steps := BegunRun(c, src, "u");
    CreatedState(c, Exec(c, INITIAL, steps), c.sign(src).value);
    steps := Take(c, steps, CreateRecord(0, "d", false));
  }

  lemma CreatedState(c: Config, s: State, letter: Letter)
    requires s.threads == [Emitting(letter, ["u"], 0, None)] && s.table == EMPTY && s.issued == map[]
    ensures Enabled(c, s, CreateRecord(0, "d", false))
    ensures var s' := Apply(c, s, CreateRecord(0, "d", false));
            && s'.threads == [Emitting(letter, ["u"], 0, Some("d"))]
            && s'.replays == s.replays && "d" in s'.table.rows
  {
  }

  /** Its delivery is started. */
  lemma EmittedRun(c: Config, src: Source) returns (steps: seq<Step>, job: Job)
    requires c.sign(src).Some?
    ensures Runs(c, INITIAL, steps) && NoRearm(steps) && job.id == "d"
    ensures var s := Exec(c, INITIAL, steps);
            && |s.threads| == 2 && s.threads[1] == Running(job, 0, Posting)
            && s.replays == multiset{} && "d" in s.table.rows
  {
    steps := CreatedRun(c, src);
    job := Job("d", Parcel(c.sign(src).value, "u"));
    steps := Take(c, steps, StartDelivery(0));
  }

  lemma {:induction false} WritesKeepRows(t: Table, id: string, ws: seq<Write>, faults: nat -> bool)
    ensures ApplyWrites(t, id, ws, faults).rows.Keys == t.rows.Keys
  {
    if ws == [] {
    } else {
      WritesKeepRows(t, id, ws[..|ws| - 1], faults);
    }
  }

  /** A delivery all of whose attempts are rejected and none of whose writes is lost ends as a dead letter. */
  lemma RejectedSolo(d: Delivery, s: State, error: string) returns (s': State)
    requires AtAttempt(d, s, 0) && d.was == s.table && d.job.id in s.table.rows
    requires d.net == ((i: nat) => Rejected(error)) && d.faults == ((i: nat) => false)
    ensures Runs(d.c, s, SoloSteps(d, 0)) && s' == Exec(d.c, s, SoloSteps(d, 0))
    ensures |s'.threads| == |s.threads| && s'.replays == s.replays && IsDead(s', d.job.id)
  {
    SoloRunIsDeliver(d, s, 0);
    s' := Exec(d.c, s, SoloSteps(d, 0));
    DeliverClosesOnce(d.net, d.c.attempts);
    LastWriteStays(d.was, d.job.id, DeliverWrites(d.net, d.c.attempts), d.faults);
  }

  /** The last of several writes gives the row its status. */
  lemma LastWriteStays(t: Table, id: string, ws: seq<Write>, faults: nat -> bool)
    requires ws != [] && id in t.rows && !faults(|ws| - 1)
    ensures id in ApplyWrites(t, id, ws, faults).rows
    ensures ApplyWrites(t, id, ws, faults).rows[id].status == ws[|ws| - 1].status
  {
    WritesKeepRows(t, id, ws[..|ws| - 1], faults);
  }

  /** A run of one delivery, all of whose attempts are rejected. */
  lemma DeadLetterRun(c: Config, src: Source) returns (steps: seq<Step>)
    requires c.Valid() && c.sign(src).Some?
    ensures Runs(c, INITIAL, steps) && NoRearm(steps)
    ensures var s := Exec(c, INITIAL, steps); |s.threads| == 2 && s.replays == multiset{} && IsDead(s, "d")
  {
    var emitted, job := EmittedRun(c, src);
    var solo := RejectedFrom(c, Exec(c, INITIAL, emitted), 1, job);
    steps := emitted + solo;
    Concat(c, INITIAL, emitted, Exec(c, INITIAL, emitted), solo);
  }

  lemma RejectedFrom(c: Config, s: State, t: nat, job: Job) returns (solo: seq<Step>)
    requires c.Valid() && s.table.Valid() && t < |s.threads| && s.threads[t] == Running(job, 0, Posting)
    requires job.id in s.table.rows
    ensures Runs(c, s, solo) && NoRearm(solo)
    ensures var s' := Exec(c, s, solo); |s'.threads| == |s.threads| && s'.replays == s.replays && IsDead(s', job.id)
  {
    var d := Delivery(c, t, job, (i: nat) => Rejected("x"), (i: nat) => false, s.table);
    var s' := RejectedSolo(d, s, "x");
    SoloHasNoRearm(d, 0);
    solo := SoloSteps(d, 0);
  }

  /** Its one verdict is as yet unanswered, since no reset in the run was stale. */
  lemma OneVerdict(c: Config, src: Source) returns (steps: seq<Step>)
    requires c.Valid() && c.sign(src).Some?
    ensures Runs(c, INITIAL, steps) && NoRearm(steps)
    ensures var s := Exec(c, INITIAL, steps);
            |s.threads| == 2 && IsDead(s, "d") && s.replays["d"] == 0 && s.verdicts["d"] == 1
  {
    steps := DeadLetterRun(c, src);
    NoRearmNoneStale(c, INITIAL, steps, "d");
    StrongAtEnd(c, INITIAL, steps, "d");
  }

  /** One replay sees the dead letter. */
  lemma OneChecked(c: Config, src: Source) returns (steps: seq<Step>, row: Record)
    requires c.Valid() && !c.indivisible && c.sign(src).Some?
    ensures Runs(c, INITIAL, steps) && NoRearm(steps)
    ensures var s := Exec(c, INITIAL, steps);
            && |s.threads| == 3 && s.threads[2] == Replaying("d", row, Checked)
            && s.replays["d"] == 0 && s.verdicts["d"] == 1 && IsDead(s, "d") && s.table.rows["d"] == row
  {
    steps := OneVerdict(c, src);
    row := Exec(c, INITIAL, steps).table.rows["d"];
    steps := Take(c, steps, CheckDead("d"));
  }

  /** Two replays see the dead letter before either resets it. */
  lemma TwoChecked(c: Config, src: Source) returns (steps: seq<Step>, row: Record)
    requires c.Valid() && !c.indivisible && c.sign(src).Some?
    ensures Runs(c, INITIAL, steps) && NoRearm(steps)
    ensures var s := Exec(c, INITIAL, steps);
            && |s.threads| == 4 && s.threads[2] == s.threads[3] == Replaying("d", row, Checked)
            && s.replays["d"] == 0 && s.verdicts["d"] == 1 && IsDead(s, "d")
  {
    steps, row := OneChecked(c, src);
    steps := Take(c, steps, CheckDead("d"));
  }

  /** One resets it. */
  lemma OneRearmed(c: Config, src: Source) returns (steps: seq<Step>, row: Record)
    requires c.Valid() && !c.indivisible && c.sign(src).Some?
    ensures Runs(c, INITIAL, steps) && NoneStale(c, INITIAL, steps, "d")
    ensures var s := Exec(c, INITIAL, steps);
            && |s.threads| == 4
            && s.threads[2] == Replaying("d", row, Armed) && s.threads[3] == Replaying("d", row, Checked)
            && s.replays["d"] == 1 && s.verdicts["d"] == 1 && "d" in s.table.rows && !IsDead(s, "d")
  {
    var checked;
    checked, row := TwoChecked(c, src);
    NoRearmNoneStale(c, INITIAL, checked, "d");
    FirstResets(c, Exec(c, INITIAL, checked), row);
    steps := Take(c, checked, Rearm(2, false));
    StaleMore(c, INITIAL, checked, Exec(c, INITIAL, checked), Rearm(2, false), steps, "d");
  }

  lemma FirstResets(c: Config, s: State, row: Record)
    requires !c.indivisible && s.table.Valid() && |s.threads| == 4 && s.replays["d"] == 0 && s.verdicts["d"] == 1
    requires s.threads[2] == s.threads[3] == Replaying("d", row, Checked) && IsDead(s, "d")
    ensures Enabled(c, s, Rearm(2, false)) && !Stale(s, Rearm(2, false), "d")
    ensures var s' := Apply(c, s, Rearm(2, false));
            && |s'.threads| == 4
            && s'.threads[2] == Replaying("d", row, Armed) && s'.threads[3] == Replaying("d", row, Checked)
            && s'.replays["d"] == 1 && s'.verdicts["d"] == 1 && "d" in s'.table.rows && !IsDead(s', "d")
  {
  }

  /** So does the other. */
  lemma TwoRearmed(c: Config, src: Source) returns (steps: seq<Step>, row: Record)
    requires c.Valid() && !c.indivisible && c.sign(src).Some?
    ensures Runs(c, INITIAL, steps)
    ensures var s := Exec(c, INITIAL, steps);
            && |s.threads| == 4 && s.threads[2] == s.threads[3] == Replaying("d", row, Armed)
            && s.replays["d"] == 2 && s.verdicts["d"] == 1 && "d" in s.table.rows
  {
    steps, row := OneRearmed(c, src);
    steps := Take(c, steps, Rearm(3, false));
  }

  /** Both go on: two deliveries of one dead letter are live. */
  lemma TwoLive(c: Config, src: Source) returns (steps: seq<Step>, job: Job)
    requires c.Valid() && !c.indivisible && c.sign(src).Some?
    ensures Runs(c, INITIAL, steps) && job.id == "d"
    ensures var s := Exec(c, INITIAL, steps);
            && |s.threads| == 6 && s.threads[4] == s.threads[5] == Running(job, 0, Posting)
            && s.replays["d"] == 2 && s.verdicts["d"] == 1 && "d" in s.table.rows
  {
    var row;
    steps, row := TwoRearmed(c, src);
    job := Job("d", ParcelOf(row));
    steps := Take(c, steps, StartReplay(2));
    assert Exec(c, INITIAL, steps).threads[4] == Running(job, 0, Posting);
    steps := Take(c, steps, StartReplay(3));
  }

  /** A POST and its status write. */
  function Attempt(t: nat, outcome: Outcome): seq<Step> {
    [PostAttempt(t, outcome), Persist(t, false)]
  }

  lemma AttemptRuns(c: Config, s: State, t: nat, outcome: Outcome)
    requires s.table.Valid() && Enabled(c, s, PostAttempt(t, outcome)) && s.threads[t].job.id in s.table.rows
    ensures Runs(c, s, Attempt(t, outcome))
    ensures var s', id := Exec(c, s, Attempt(t, outcome)), s.threads[t].job.id;
            && |s'.threads| == |s.threads|
            && (forall u :: 0 <= u < |s.threads| && u != t ==> s'.threads[u] == s.threads[u])
            && id in s'.table.rows
            && s'.table.rows[id].status == if outcome.Accepted? then Delivered else Failed
  {
    PostThenPersist(c, s, t, outcome);
    var s1 := Apply(c, s, PostAttempt(t, outcome));
    var s2 := Apply(c, s1, Persist(t, false));
    assert Attempt(t, outcome)[1..] == [Persist(t, false)];
    assert [Persist(t, false)][1..] == [];
    assert Runs(c, s2, []) && Exec(c, s2, []) == s2;
    assert Runs(c, s1, [Persist(t, false)]) && Exec(c, s1, [Persist(t, false)]) == s2;
  }

  /** From `s`, an accepted attempt of thread t and then a rejected one of thread u deliver the record and
      overwrite it. */
  ghost predicate Overwrites(c: Config, s: State, t: nat, u: nat, d: string)
    requires s.table.Valid()
  {
    && Runs(c, s, Attempt(t, Accepted))
    && var s' := Exec(c, s, Attempt(t, Accepted));
       && d in s'.table.rows && s'.table.rows[d].status == Delivered
       && Runs(c, s', Attempt(u, Rejected("y")))
       && var rows := Exec(c, s', Attempt(u, Rejected("y"))).table.rows;
          d in rows && rows[d].status == Failed
  }

  lemma TwoLiveOverwrite(c: Config, s: State, t: nat, u: nat, d: string)
    requires s.table.Valid() && t != u
    requires Enabled(c, s, PostAttempt(t, Accepted)) && Enabled(c, s, PostAttempt(u, Accepted))
    requires s.threads[t].job == s.threads[u].job && s.threads[t].job.id == d && d in s.table.rows
    ensures Overwrites(c, s, t, u, d)
  {
    AttemptRuns(c, s, t, Accepted);
    AttemptRuns(c, Exec(c, s, Attempt(t, Accepted)), u, Rejected("y"));
  }

  /** With the two store calls of the code, whatever the number of attempts, two replays can both see one dead
      letter: the second reset is crowded, two deliveries are live, there are more successful replays than
      verdicts, and once one has been accepted and the record is delivered, the other overwrites it. */
  lemma TwoReplays(c: Config, src: Source) returns (live: seq<Step>, s: State)
    requires c.Valid() && !c.indivisible && c.sign(src).Some?
    ensures Runs(c, INITIAL, live) && s == Exec(c, INITIAL, live)
    ensures !NoneStale(c, INITIAL, live, "d") && !NoneCrowded(c, INITIAL, live, "d")
    ensures |s.threads| == 6 && Live("d")(s.threads[4]) == 1 && Live("d")(s.threads[5]) == 1
    ensures s.replays["d"] == 2 > s.verdicts["d"]
    ensures s.table.Valid() && Overwrites(c, s, 4, 5, "d")
  {
    var job;
    live, job := TwoLive(c, src);
    s := Exec(c, INITIAL, live);
    RunningIsLive(job, "d");
    TwoLiveOverwrite(c, s, 4, 5, "d");
    UnansweredIsStale(c, live, s, "d");
    TwoLiveIsCrowded(c, live, s, 4, 5, "d");
  }

  lemma TwoLiveIsCrowded(c: Config, steps: seq<Step>, s: State, t: nat, u: nat, d: string)
    requires c.Valid() && Runs(c, INITIAL, steps) && s == Exec(c, INITIAL, steps) && t < u < |s.threads|
    requires Live(d)(s.threads[t]) > 0 && Live(d)(s.threads[u]) > 0
    ensures !NoneCrowded(c, INITIAL, steps, d)
  {
    TotalPair(s.threads, Live(d), t, u);
    if NoneCrowded(c, INITIAL, steps, d) {
      SafeAtEnd(c, INITIAL, steps, d);
    }
  }

  lemma RunningIsLive(job: Job, d: string)
    requires job.id == d
    ensures Live(d)(Running(job, 0, Posting)) == 1
  {
  }

  lemma UnansweredIsStale(c: Config, steps: seq<Step>, s: State, d: string)
    requires c.Valid() && Runs(c, INITIAL, steps) && s == Exec(c, INITIAL, steps) && s.replays[d] > s.verdicts[d]
    ensures !NoneStale(c, INITIAL, steps, d)
  {
    if NoneStale(c, INITIAL, steps, d) {
      StrongAtEnd(c, INITIAL, steps, d);
    }
  }

  /** One more step of a run, which is no crowded reset. */
  lemma TakeUncrowded(c: Config, steps: seq<Step>, s: State, step: Step, d: string) returns (longer: seq<Step>)
    requires Runs(c, INITIAL, steps) && s == Exec(c, INITIAL, steps) && Enabled(c, s, step)
    requires NoneCrowded(c, INITIAL, steps, d) && !Crowded(s, step, d)
    ensures Runs(c, INITIAL, longer) && NoneCrowded(c, INITIAL, longer, d)
    ensures Exec(c, INITIAL, longer) == Apply(c, s, step)
    ensures Stale(s, step, d) ==> !NoneStale(c, INITIAL, longer, d)
  {
    longer := Take(c, steps, step);
    CrowdedMore(c, INITIAL, steps, s, step, longer, d);
    StaleMore(c, INITIAL, steps, s, step, longer, d);
  }

  /** A run in which one of two replays has reset the record, with no reset crowded and nothing unsafe. */
  lemma ArmedSafely(c: Config, src: Source) returns (steps: seq<Step>, s: State, row: Record)
    requires c.Valid() && !c.indivisible && c.sign(src).Some?
    ensures Runs(c, INITIAL, steps) && NoneCrowded(c, INITIAL, steps, "d") && s == Exec(c, INITIAL, steps)
    ensures |s.threads| == 4
    ensures s.threads[2] == Replaying("d", row, Armed) && s.threads[3] == Replaying("d", row, Checked)
    ensures "d" in s.table.rows && !IsDead(s, "d") && Safe(s, "d")
  {
    steps, row := OneRearmed(c, src);
    s := Exec(c, INITIAL, steps);
    StrongIff(c, INITIAL, steps, "d");
    StrongAtEnd(c, INITIAL, steps, "d");
  }

  lemma LostIsDead(c: Config, s: State, t: nat, d: string)
    requires s.table.Valid() && t < |s.threads| && Live(d)(s.threads[t]) == 1 && Total(s.threads, Live(d)) <= 1
    ensures var s' := Apply(c, s, Lose(t));
            && Total(s'.threads, Live(d)) == 0 && s'.table == s.table
            && |s'.threads| == |s.threads|
            && forall u :: 0 <= u < |s.threads| && u != t ==> s'.threads[u] == s.threads[u]
  {
    TotalAfter(c, s, Lose(t), Live(d));
  }

  /** A reset can be stale without being crowded: when the first replay's thread died, the second one leaves
      one live thread, and the run is safe throughout, though it answers no verdict. */
  lemma StaleYetSafe(c: Config, src: Source) returns (steps: seq<Step>)
    requires c.Valid() && !c.indivisible && c.sign(src).Some?
    ensures Runs(c, INITIAL, steps)
    ensures AlwaysSafe(c, INITIAL, steps, "d") && !NoneStale(c, INITIAL, steps, "d")
  {
    var armed, s, row := ArmedSafely(c, src);
    var lost := TakeUncrowded(c, armed, s, Lose(2), "d");
    LostIsDead(c, s, 2, "d");
    steps := TakeUncrowded(c, lost, Apply(c, s, Lose(2)), Rearm(3, false), "d");
    SafeIff(c, INITIAL, steps, "d");
  }
}
