/**
 The dispatcher's loops and the threads of the protocol are the same algorithms: a delivery thread that
 runs with nothing in between makes the POSTs and the status writes of the retry loop and leaves the same
 table, and an emitting thread creates the records and starts the deliveries of Emit.
 */
module SoloRuns {
  import opened Deliveries
  import opened Dispatching
  import opened Envelope
  import opened Protocol
  import opened Wrappers

  lemma Prepend(c: Config, s: State, step: Step, rest: seq<Step>)
    requires s.table.Valid() && Enabled(c, s, step) && Runs(c, Apply(c, s, step), rest)
    ensures Runs(c, s, [step] + rest) && Exec(c, s, [step] + rest) == Exec(c, Apply(c, s, step), rest)
  {
    assert ([step] + rest)[1..] == rest;
  }

  // ---------------------------------------------------------------- delivery

  /** A delivery by thread t, the outcomes of its POSTs, its lost writes, and the table it found. */
  datatype Delivery = Delivery(
    c: Config, t: nat, job: Job, net: nat -> Outcome, faults: nat -> bool, was: Table)

  /** The steps of the delivery from attempt k on. */
  ghost function SoloSteps(d: Delivery, k: nat): seq<Step>
    requires k < d.c.attempts
    decreases d.c.attempts - k
  {
    [PostAttempt(d.t, d.net(k)), Persist(d.t, d.faults(k))] +
    (if d.net(k).Accepted? then []
     else if k + 1 < d.c.attempts then SoloSteps(d, k + 1)
     else [Persist(d.t, d.faults(d.c.attempts))])
  }

  /** Its POSTs of attempts k, .., m - 1. */
  function PostsFrom(d: Delivery, k: nat, m: nat): seq<Post>
    decreases m - k
  {
    if k >= m then [] else [Post(d.t, d.job, k, d.net(k))] + PostsFrom(d, k + 1, m)
  }

  /** A delivery about to make attempt k, all earlier ones rejected and written. */
  ghost predicate AtAttempt(d: Delivery, s: State, k: nat) {
    && s.table.Valid() && k < d.c.attempts && d.t < |s.threads| && s.threads[d.t] == Running(d.job, k, Posting)
    && (forall i :: 0 <= i < k ==> d.net(i).Rejected?)
    && s.table == ApplyWrites(d.was, d.job.id, Failures(d.net, k), d.faults)
  }

  /** The parts of the state that deliveries leave alone. */
  ghost predicate SameHistory(s: State, s': State) {
    s'.issued == s.issued && s'.letters == s.letters && s'.replays == s.replays
  }

  /** Attempt k and its status write, one after the other. */
  ghost function AfterAttempt(d: Delivery, s: State, k: nat): (s': State)
    requires AtAttempt(d, s, k)
    ensures s'.table.Valid() && SameHistory(s, s')
    ensures s'.threads == s.threads[d.t := Running(d.job, k + 1, AfterWrite(d.c, WriteFor(k + 1, d.net(k))))]
    ensures s'.log == s.log + [Post(d.t, d.job, k, d.net(k))]
    ensures s'.table == if d.faults(k) then s.table
                        else
                          var w := WriteFor(k + 1, d.net(k));
                          Update(s.table, d.job.id, w.status, w.attempts, w.error)
  {
    Apply(d.c, Apply(d.c, s, PostAttempt(d.t, d.net(k))), Persist(d.t, d.faults(k)))
  }

  lemma AttemptFirst(d: Delivery, s: State, k: nat, rest: seq<Step>)
    requires AtAttempt(d, s, k) && Runs(d.c, AfterAttempt(d, s, k), rest)
    ensures var steps := [PostAttempt(d.t, d.net(k)), Persist(d.t, d.faults(k))] + rest;
            Runs(d.c, s, steps) && Exec(d.c, s, steps) == Exec(d.c, AfterAttempt(d, s, k), rest)
  {
    var post, persist := PostAttempt(d.t, d.net(k)), Persist(d.t, d.faults(k));
    Prepend(d.c, Apply(d.c, s, post), persist, rest);
    Prepend(d.c, s, post, [persist] + rest);
    assert [post, persist] + rest == [post] + ([persist] + rest);
  }

  /** When attempts 0, .., k - 1 are rejected, the first accepted one is at or after k. */
  lemma FirstFrom(net: nat -> Outcome, k: nat, n: nat)
    requires k < n && forall i :: 0 <= i < k ==> net(i).Rejected?
    ensures if net(k).Accepted? then FirstAccepted(net, 0, n) == k else FirstAccepted(net, 0, n) > k
  {
  }

  /** The verdict after the last attempt. */
  lemma LastWrite(c: Config, s: State, t: nat, job: Job, error: string, fault: bool)
    requires s.table.Valid() && t < |s.threads|
    requires s.threads[t] == Running(job, c.attempts, Writing(Write(DeadLetter, c.attempts, error)))
    ensures var steps := [Persist(t, fault)];
            && Runs(c, s, steps)
            && var s' := Exec(c, s, steps);
               && s'.threads == s.threads[t := Running(job, c.attempts, Finished)] && s'.log == s.log
               && SameHistory(s, s')
               && s'.table == if fault then s.table else Update(s.table, job.id, DeadLetter, c.attempts, error)
  {
    var s' := Apply(c, s, Persist(t, fault));
    Prepend(c, s, Persist(t, fault), []);
    assert [Persist(t, fault)] + [] == [Persist(t, fault)];
  }

  /** Between `s` and `s'` the delivery, from attempt k on, did what the retry loop's contract says: it made
      POSTs k, .., m - 1, wrote the table and finished, and nothing else changed. */
  ghost predicate DeliversAs(d: Delivery, s: State, s': State, k: nat, m: nat)
    requires d.c.attempts > 0 && d.t < |s.threads|
  {
    && s'.threads == s.threads[d.t := Running(d.job, m, Finished)]
    && s'.log == s.log + PostsFrom(d, k, m)
    && s'.table == ApplyWrites(d.was, d.job.id, DeliverWrites(d.net, d.c.attempts), d.faults)
    && SameHistory(s, s')
  }

  ghost predicate EndsAsDeliver(d: Delivery, s: State, steps: seq<Step>, k: nat)
    requires d.c.attempts > 0 && s.table.Valid() && d.t < |s.threads|
  {
    Runs(d.c, s, steps) && DeliversAs(d, s, Exec(d.c, s, steps), k, Attempts(d.net, d.c.attempts))
  }

  lemma AcceptedDelivery(net: nat -> Outcome, k: nat, n: nat)
    requires k < n && net(k).Accepted? && forall i :: 0 <= i < k ==> net(i).Rejected?
    ensures DeliverWrites(net, n) == Failures(net, k) + [WriteFor(k + 1, net(k))]
    ensures Attempts(net, n) == k + 1
  {
    FirstFrom(net, k, n);
  }

  lemma OnePost(d: Delivery, k: nat, m: nat)
    requires m == k + 1
    ensures PostsFrom(d, k, m) == [Post(d.t, d.job, k, d.net(k))]
  {
    assert PostsFrom(d, k + 1, m) == [];
  }

  lemma AcceptedEnds(d: Delivery, s: State, k: nat, m: nat)
    requires AtAttempt(d, s, k) && d.net(k).Accepted? && m == k + 1
    ensures Attempts(d.net, d.c.attempts) == m
    ensures DeliversAs(d, s, AfterAttempt(d, s, k), k, m)
  {
    AcceptedDelivery(d.net, k, d.c.attempts);
    WritesGrow(d.was, d.job.id, Failures(d.net, k), WriteFor(k + 1, d.net(k)), d.faults);
    OnePost(d, k, m);
  }

  lemma RejectedMovesOn(d: Delivery, s: State, k: nat, next: nat)
    requires AtAttempt(d, s, k) && d.net(k).Rejected? && next == k + 1
    ensures var s' := AfterAttempt(d, s, k);
            && s'.table == ApplyWrites(d.was, d.job.id, Failures(d.net, next), d.faults)
            && s'.threads[d.t] == Running(d.job, next, AfterWrite(d.c, WriteFor(next, d.net(k))))
  {
    WritesGrow(d.was, d.job.id, Failures(d.net, k), WriteFor(next, d.net(k)), d.faults);
    FailuresGrow(d.net, k);
  }

  lemma AllRejectedDelivery(net: nat -> Outcome, k: nat, n: nat)
    requires n == k + 1 && forall i :: 0 <= i <= k ==> net(i).Rejected?
    ensures DeliverWrites(net, n) == Failures(net, n) + [Write(DeadLetter, n, net(k).error)]
    ensures Attempts(net, n) == n
  {
  }

  lemma LastEnds(d: Delivery, s: State, k: nat, n: nat) returns (s': State)
    requires AtAttempt(d, s, k) && d.net(k).Rejected? && d.c.attempts == n == k + 1
    ensures var last := [Persist(d.t, d.faults(n))];
            Runs(d.c, AfterAttempt(d, s, k), last) && s' == Exec(d.c, AfterAttempt(d, s, k), last)
    ensures Attempts(d.net, n) == n && DeliversAs(d, s, s', k, n)
  {
    var s1 := AfterAttempt(d, s, k);
    RejectedMovesOn(d, s, k, n);
    AllRejectedDelivery(d.net, k, n);
    WritesGrow(d.was, d.job.id, Failures(d.net, n), Write(DeadLetter, n, d.net(k).error), d.faults);
    LastWrite(d.c, s1, d.t, d.job, d.net(k).error, d.faults(n));
    OnePost(d, k, n);
    s' := Exec(d.c, s1, [Persist(d.t, d.faults(n))]);
  }

  lemma DeliveredOn(d: Delivery, s: State, s1: State, s': State, k: nat, next: nat, m: nat)
    requires d.c.attempts > 0 && d.t < |s.threads| && next == k + 1 && next <= m && SameHistory(s, s1)
    requires s1.threads == s.threads[d.t := Running(d.job, next, Posting)]
    requires s1.log == s.log + [Post(d.t, d.job, k, d.net(k))]
    requires DeliversAs(d, s1, s', next, m)
    ensures DeliversAs(d, s, s', k, m)
  {
    var post := Post(d.t, d.job, k, d.net(k));
    assert PostsFrom(d, k, m) == [post] + PostsFrom(d, next, m);
    assert s.log + [post] + PostsFrom(d, next, m) == s.log + ([post] + PostsFrom(d, next, m));
    assert s1.threads[d.t := Running(d.job, m, Finished)] == s.threads[d.t := Running(d.job, m, Finished)];
  }

  lemma AttemptEnds(d: Delivery, s: State, s': State, k: nat, m: nat, rest: seq<Step>)
    requires AtAttempt(d, s, k) && Runs(d.c, AfterAttempt(d, s, k), rest)
    requires s' == Exec(d.c, AfterAttempt(d, s, k), rest)
    requires SoloSteps(d, k) == [PostAttempt(d.t, d.net(k)), Persist(d.t, d.faults(k))] + rest
    requires m == Attempts(d.net, d.c.attempts) && DeliversAs(d, s, s', k, m)
    ensures EndsAsDeliver(d, s, SoloSteps(d, k), k)
  {
    AttemptFirst(d, s, k, rest);
  }

  /** From any state in which a delivery is at attempt k, its thread alone runs to its end as the retry loop
      does: the same POSTs in the same order, the same table. */
  lemma {:induction false} SoloRunIsDeliver(d: Delivery, s: State, k: nat)
    requires AtAttempt(d, s, k)
    ensures EndsAsDeliver(d, s, SoloSteps(d, k), k)
    decreases d.c.attempts - k
  {
    var n, s1 := d.c.attempts, AfterAttempt(d, s, k);
    if d.net(k).Accepted? {
      AcceptedEnds(d, s, k, k + 1);
      AttemptEnds(d, s, s1, k, k + 1, []);
    } else if k + 1 == n {
      var s' := LastEnds(d, s, k, n);
      AttemptEnds(d, s, s', k, n, [Persist(d.t, d.faults(n))]);
    } else {
      RejectedMovesOn(d, s, k, k + 1);
      SoloRunIsDeliver(d, s1, k + 1);
      var s' := Exec(d.c, s1, SoloSteps(d, k + 1));
      FirstFrom(d.net, k, n);
      DeliveredOn(d, s, s1, s', k, k + 1, Attempts(d.net, n));
      AttemptEnds(d, s, s', k, Attempts(d.net, n), SoloSteps(d, k + 1));
    }
  }

  // ---------------------------------------------------------------- replay

  /** Replay at the granularity of the configuration, as thread t; with a lost reset it ends there. */
  ghost function ReplaySteps(c: Config, t: nat, id: string, fault: bool): seq<Step> {
    Reset(c, t, id, fault) + (if fault then [] else [StartReplay(t)])
  }

  ghost function Reset(c: Config, t: nat, id: string, fault: bool): seq<Step> {
    if c.indivisible then [CheckAndRearm(id, fault)] else [CheckDead(id), Rearm(t, fault)]
  }

  /** What a successful check and a reset that may be lost leave. */
  ghost function AfterReset(c: Config, s: State, id: string, fault: bool): (s': State)
    requires s.table.Valid() && IsDead(s, id)
    ensures var row := s.table.rows[id];
            && s'.table == (if fault then s.table else Update(s.table, id, Pending, row.attemptCount, ""))
            && s'.threads == s.threads + [Replaying(id, row, if fault then Over else Armed)] && s'.log == s.log
    ensures s'.table.Valid()
  {
    if c.indivisible then Apply(c, s, CheckAndRearm(id, fault))
    else Apply(c, Apply(c, s, CheckDead(id)), Rearm(|s.threads|, fault))
  }

  lemma ResetRuns(c: Config, s: State, t: nat, id: string, fault: bool, rest: seq<Step>)
    requires s.table.Valid() && IsDead(s, id) && t == |s.threads| && Runs(c, AfterReset(c, s, id, fault), rest)
    ensures Runs(c, s, Reset(c, t, id, fault) + rest)
    ensures Exec(c, s, Reset(c, t, id, fault) + rest) == Exec(c, AfterReset(c, s, id, fault), rest)
  {
    if c.indivisible {
      Prepend(c, s, CheckAndRearm(id, fault), rest);
    } else {
      Prepend(c, Apply(c, s, CheckDead(id)), Rearm(t, fault), rest);
      Prepend(c, s, CheckDead(id), [Rearm(t, fault)] + rest);
      assert [CheckDead(id), Rearm(t, fault)] + rest == [CheckDead(id)] + ([Rearm(t, fault)] + rest);
    }
  }

  lemma StartedReplay(c: Config, s: State, t: nat, id: string, row: Record) returns (s': State)
    requires s.table.Valid() && |s.threads| == t + 1 && s.threads[t] == Replaying(id, row, Armed)
    ensures Runs(c, s, [StartReplay(t)]) && s' == Exec(c, s, [StartReplay(t)])
    ensures s'.table == s.table && s'.log == s.log
    ensures s'.threads == s.threads[..t] + [Replaying(id, row, Over)] + [Running(Job(id, ParcelOf(row)), 0, Posting)]
  {
    s' := Apply(c, s, StartReplay(t));
    Prepend(c, s, StartReplay(t), []);
    assert [StartReplay(t)] + [] == [StartReplay(t)];
  }

  /** Of a dead letter, a replay that runs alone does what the dispatcher's Replay does, whether its check and
      reset are one step or two: pending with the count kept, and one delivery of the stored parcel; or, when
      the reset is lost, nothing. Of anything else it cannot take its first step. */
  lemma SoloRunIsReplay(c: Config, s: State, id: string, fault: bool) returns (s': State)
    requires s.table.Valid() && IsDead(s, id)
    ensures Runs(c, s, ReplaySteps(c, |s.threads|, id, fault))
    ensures s' == Exec(c, s, ReplaySteps(c, |s.threads|, id, fault)) && s'.log == s.log
    ensures var row := s.table.rows[id];
            && s'.table == (if fault then s.table else Update(s.table, id, Pending, row.attemptCount, ""))
            && s'.threads == s.threads + [Replaying(id, row, Over)]
                             + (if fault then [] else [Running(Job(id, ParcelOf(row)), 0, Posting)])
  {
    var t, s1 := |s.threads|, AfterReset(c, s, id, fault);
    if fault {
      s' := s1;
      ResetRuns(c, s, t, id, fault, []);
    } else {
      s' := StartedReplay(c, s1, t, id, s.table.rows[id]);
      ResetRuns(c, s, t, id, fault, [StartReplay(t)]);
    }
  }

  // ---------------------------------------------------------------- emission

  /** Ids that are fresh from position i on. */
  ghost predicate FreshIds(s: State, ids: nat -> string, i: nat, n: nat) {
    && (forall j :: i <= j < n ==> ids(j) != "" && ids(j) !in s.issued)
    && (forall j, k :: i <= j < k < n ==> ids(j) != ids(k))
  }

  /** For each URL from i on: the record is created, the delivery started. */
  function EmitSteps(t: nat, ids: nat -> string, faults: nat -> bool, i: nat, n: nat): seq<Step>
    requires i <= n
    decreases n - i
  {
    if i == n then [] else [CreateRecord(t, ids(i), faults(i)), StartDelivery(t)] + EmitSteps(t, ids, faults, i + 1, n)
  }

  function Starting(jobs: seq<Job>): seq<Thread> {
    seq(|jobs|, i requires 0 <= i < |jobs| => Running(jobs[i], 0, Posting))
  }

  ghost predicate AtUrl(s: State, t: nat, letter: Letter, urls: seq<string>, ids: nat -> string, i: nat) {
    && i <= |urls| && t < |s.threads| && s.threads[t] == Emitting(letter, urls, i, None)
    && FreshIds(s, ids, i, |urls|)
  }

  /** One URL's record is created. */
  lemma OneCreated(c: Config, s: State, t: nat, letter: Letter, urls: seq<string>, i: nat, id: string, fault: bool)
    returns (s1: State)
    requires s.table.Valid() && t < |s.threads| && s.threads[t] == Emitting(letter, urls, i, None) && i < |urls|
    requires id != "" && id !in s.issued
    ensures Enabled(c, s, CreateRecord(t, id, fault)) && s1 == Apply(c, s, CreateRecord(t, id, fault))
    ensures s1.threads == s.threads[t := Emitting(letter, urls, i, Some(id))]
    ensures s1.issued == s.issued[id := Parcel(letter, urls[i])]
    ensures s1.table == if fault then s.table else Create(s.table, RecordFor(Job(id, Parcel(letter, urls[i]))))
  {
    s1 := Apply(c, s, CreateRecord(t, id, fault));
  }

  /** Its delivery is started. */
  lemma OneStarted(c: Config, s: State, t: nat, letter: Letter, urls: seq<string>, i: nat, id: string)
    returns (s1: State)
    requires s.table.Valid() && t < |s.threads| && s.threads[t] == Emitting(letter, urls, i, Some(id)) && i < |urls|
    ensures Enabled(c, s, StartDelivery(t)) && s1 == Apply(c, s, StartDelivery(t))
    ensures s1.threads == s.threads[t := Emitting(letter, urls, i + 1, None)]
                          + [Running(Job(id, Parcel(letter, urls[i])), 0, Posting)]
    ensures s1.issued == s.issued && s1.table == s.table
  {
    s1 := Apply(c, s, StartDelivery(t));
  }

  /** One after the other. */
  lemma OneUrl(c: Config, s: State, t: nat, letter: Letter, urls: seq<string>, ids: nat -> string, i: nat, fault: bool)
    returns (s': State)
    requires s.table.Valid() && AtUrl(s, t, letter, urls, ids, i) && i < |urls|
    ensures s'.table.Valid() && AtUrl(s', t, letter, urls, ids, i + 1)
    ensures var job := Job(ids(i), Parcel(letter, urls[i]));
            && s'.threads == s.threads[t := Emitting(letter, urls, i + 1, None)] + [Running(job, 0, Posting)]
            && s'.table == if fault then s.table else Create(s.table, RecordFor(job))
    ensures Enabled(c, s, CreateRecord(t, ids(i), fault))
    ensures Enabled(c, Apply(c, s, CreateRecord(t, ids(i), fault)), StartDelivery(t))
    ensures s' == Apply(c, Apply(c, s, CreateRecord(t, ids(i), fault)), StartDelivery(t))
  {
    var s1 := OneCreated(c, s, t, letter, urls, i, ids(i), fault);
    s' := OneStarted(c, s1, t, letter, urls, i, ids(i));
  }

  lemma NextRecords(t: Table, jobs: seq<Job>, i: nat, faults: nat -> bool)
    requires t.Valid() && i < |jobs|
    ensures var before := CreateRecords(t, jobs[..i], faults);
            CreateRecords(t, jobs[..i + 1], faults) == if faults(i) then before else Create(before, RecordFor(jobs[i]))
  {
    RecordsGrow(t, jobs[..i], jobs[i], i, faults);
    assert jobs[..i + 1] == jobs[..i] + [jobs[i]];
  }

  lemma RecordsGrow(t: Table, jobs: seq<Job>, job: Job, n: nat, faults: nat -> bool)
    requires t.Valid() && n == |jobs|
    ensures var before := CreateRecords(t, jobs, faults);
            CreateRecords(t, jobs + [job], faults) == if faults(n) then before else Create(before, RecordFor(job))
  {
    assert (jobs + [job])[..n] == jobs;
  }

  lemma StartingGrows(before: seq<Thread>, jobs: seq<Job>, i: nat)
    requires i < |jobs|
    ensures before + [Running(jobs[i], 0, Posting)] + Starting(jobs[i + 1..]) == before + Starting(jobs[i..])
  {
  }

  /** The steps run from `s`, start every delivery from URL i on, and leave this table. */
  ghost predicate EmitsAs(c: Config, s: State, steps: seq<Step>, t: nat, jobs: seq<Job>, i: nat, done: Thread,
                          table: Table)
    requires s.table.Valid()
  {
    && Runs(c, s, steps) && t < |s.threads| && i <= |jobs|
    && var s' := Exec(c, s, steps);
       s'.threads == s.threads[t := done] + Starting(jobs[i..]) && s'.table == table
  }

  lemma UrlFirst(c: Config, s: State, s': State, t: nat, id: string, fault: bool, rest: seq<Step>)
    requires s.table.Valid() && Enabled(c, s, CreateRecord(t, id, fault))
    requires Enabled(c, Apply(c, s, CreateRecord(t, id, fault)), StartDelivery(t))
    requires s' == Apply(c, Apply(c, s, CreateRecord(t, id, fault)), StartDelivery(t)) && Runs(c, s', rest)
    ensures var steps := [CreateRecord(t, id, fault), StartDelivery(t)] + rest;
            Runs(c, s, steps) && Exec(c, s, steps) == Exec(c, s', rest)
  {
    Prepend(c, Apply(c, s, CreateRecord(t, id, fault)), StartDelivery(t), rest);
    Prepend(c, s, CreateRecord(t, id, fault), [StartDelivery(t)] + rest);
    assert [CreateRecord(t, id, fault), StartDelivery(t)] + rest
           == [CreateRecord(t, id, fault)] + ([StartDelivery(t)] + rest);
  }

  lemma EmitsFirst(c: Config, s: State, s': State, t: nat, id: string, fault: bool, rest: seq<Step>, jobs: seq<Job>,
                   i: nat,
                   next: Thread, done: Thread, table: Table)
    requires s.table.Valid() && Enabled(c, s, CreateRecord(t, id, fault))
    requires Enabled(c, Apply(c, s, CreateRecord(t, id, fault)), StartDelivery(t))
    requires s' == Apply(c, Apply(c, s, CreateRecord(t, id, fault)), StartDelivery(t))
    requires i < |jobs| && s'.threads == s.threads[t := next] + [Running(jobs[i], 0, Posting)]
    requires EmitsAs(c, s', rest, t, jobs, i + 1, done, table)
    ensures EmitsAs(c, s, [CreateRecord(t, id, fault), StartDelivery(t)] + rest, t, jobs, i, done, table)
  {
    UrlFirst(c, s, s', t, id, fault, rest);
    ThreadsGrow(s.threads, t, next, done, jobs, i);
  }

  lemma ThreadsGrow(threads: seq<Thread>, t: nat, next: Thread, done: Thread, jobs: seq<Job>, i: nat)
    requires t < |threads| && i < |jobs|
    ensures (threads[t := next] + [Running(jobs[i], 0, Posting)])[t := done] + Starting(jobs[i + 1..])
              == threads[t := done] + Starting(jobs[i..])
  {
    StartingGrows(threads[t := done], jobs, i);
    assert (threads[t := next] + [Running(jobs[i], 0, Posting)])[t := done]
           == threads[t := done] + [Running(jobs[i], 0, Posting)];
  }

  lemma AllEmitted(c: Config, s: State, t: nat, letter: Letter, urls: seq<string>, jobs: seq<Job>)
    requires s.table.Valid() && t < |s.threads| && s.threads[t] == Emitting(letter, urls, |urls|, None)
    ensures EmitsAs(c, s, [], t, jobs, |jobs|, Emitting(letter, urls, |urls|, None), s.table)
  {
    assert s.threads[t := s.threads[t]] + Starting(jobs[|jobs|..]) == s.threads;
  }

  /** From any state in which an emission starts, its thread alone creates the records and starts the
      deliveries that the dispatcher's emission does. */
  lemma {:induction false} SoloRunIsEmit(c: Config, s: State, t: nat, letter: Letter, urls: seq<string>,
                                         ids: nat -> string, faults: nat -> bool, i: nat, was: Table)
    requires s.table.Valid() && was.Valid() && AtUrl(s, t, letter, urls, ids, i)
    requires s.table == CreateRecords(was, JobsFor(letter, urls, ids)[..i], faults)
    ensures var jobs := JobsFor(letter, urls, ids);
            EmitsAs(c, s, EmitSteps(t, ids, faults, i, |urls|), t, jobs, i,
                    Emitting(letter, urls, |urls|, None), CreateRecords(was, jobs, faults))
    decreases |urls| - i
  {
    var n, jobs, done := |urls|, JobsFor(letter, urls, ids), Emitting(letter, urls, |urls|, None);
    if i == n {
      assert jobs[..n] == jobs;
      AllEmitted(c, s, t, letter, urls, jobs);
    } else {
      var s' := OneUrl(c, s, t, letter, urls, ids, i, faults(i));
      NextRecords(was, jobs, i, faults);
      SoloRunIsEmit(c, s', t, letter, urls, ids, faults, i + 1, was);
      EmitsFirst(c, s, s', t, ids(i), faults(i), EmitSteps(t, ids, faults, i + 1, n), jobs, i,
                 Emitting(letter, urls, i + 1, None), done, CreateRecords(was, jobs, faults));
    }
  }
}
