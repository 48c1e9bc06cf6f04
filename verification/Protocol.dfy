/**
 The delivery protocol as an interleaved transition system. Emissions, replays and deliveries are
 threads; every call into the store and every POST is one step; any store write may be lost, and any
 thread may die at any point (the process stops). Replay reads a record and resets it in two store
 calls; a configuration says whether the two are one indivisible step.
 */
module Protocol {
  import opened Deliveries
  import opened Dispatching
  import opened Envelope
  import opened Wrappers

  /** The number of attempts, the signing of letters, and whether Replay is indivisible. */
  datatype Config = Config(attempts: nat, sign: Source -> Option<Letter>, indivisible: bool) {
    ghost predicate Valid() {
      attempts > 0
    }
  }

  /** Where a replay stands: it has seen a dead letter, it has reset the record, or it is over. */
  datatype Phase = Checked | Armed | Over

  /** Where a delivery stands: before its next POST, before a status write, or at its end. */
  datatype Pc = Posting | Writing(write: Write) | Finished

  datatype Thread =
    | Emitting(letter: Letter, urls: seq<string>, next: nat, created: Option<string>)
    | Replaying(id: string, row: Record, phase: Phase)
    | Running(job: Job, posted: nat, pc: Pc)

  /** One POST: by which thread, for which job, which attempt of it (from 0), and its outcome. */
  datatype Post = Post(thread: nat, job: Job, attempt: nat, outcome: Outcome)

  /** `issued`, `letters`, `replays` and `verdicts` are history: the parcel each delivery id was given,
      the letter of each event id, the successful replays and the effective dead_letter writes by id. */
  datatype State = State(
    table: Table, threads: seq<Thread>, log: seq<Post>,
    issued: map<string, Parcel>, letters: map<string, Letter>,
    replays: multiset<string>, verdicts: multiset<string>)

  const INITIAL := State(EMPTY, [], [], map[], map[], multiset{}, multiset{})

  datatype Step =
    | BeginEmit(src: Source, urls: seq<string>)
    | CreateRecord(t: nat, id: string, fault: bool)
    | StartDelivery(t: nat)
    | CheckDead(id: string)
    | Rearm(t: nat, fault: bool)
    | CheckAndRearm(id: string, fault: bool)
    | StartReplay(t: nat)
    | PostAttempt(t: nat, outcome: Outcome)
    | Persist(t: nat, fault: bool)
    | Lose(t: nat)

  // ---------------------------------------------------------------- the transition relation

  predicate IsDead(s: State, id: string) {
    id in s.table.rows && s.table.rows[id].status == DeadLetter
  }

  ghost predicate Enabled(c: Config, s: State, step: Step) {
    match step
    case BeginEmit(src, _) => c.sign(src).Some? && c.sign(src).value.eventId !in s.letters
    case CreateRecord(t, id, _) =>
      && t < |s.threads| && s.threads[t].Emitting? && s.threads[t].created.None?
      && s.threads[t].next < |s.threads[t].urls|
      && id != "" && id !in s.issued
    case StartDelivery(t) =>
      && t < |s.threads| && s.threads[t].Emitting? && s.threads[t].created.Some?
      && s.threads[t].next < |s.threads[t].urls|
    case CheckDead(id) => !c.indivisible && IsDead(s, id)
    case Rearm(t, _) =>
      && !c.indivisible
      && t < |s.threads| && s.threads[t].Replaying? && s.threads[t].phase == Checked
    case CheckAndRearm(id, _) => c.indivisible && IsDead(s, id)
    case StartReplay(t) => t < |s.threads| && s.threads[t].Replaying? && s.threads[t].phase == Armed
    case PostAttempt(t, _) => t < |s.threads| && s.threads[t].Running? && s.threads[t].pc == Posting
    case Persist(t, _) => t < |s.threads| && s.threads[t].Running? && s.threads[t].pc.Writing?
    case Lose(t) => t < |s.threads|
  }

  /** The status write that an attempt's outcome calls for. */
  function WriteFor(attempts: nat, outcome: Outcome): Write {
    match outcome
    case Accepted => Write(Delivered, attempts, "")
    case Rejected(error) => Write(Failed, attempts, error)
  }

  /** After a failed attempt comes the next one, or the verdict when there is none; a verdict ends the run. */
  function AfterWrite(c: Config, w: Write): Pc {
    if w.status != Failed then Finished
    else if w.attempts < c.attempts then Posting
    else Writing(Write(DeadLetter, c.attempts, w.error))
  }

  function Dead(th: Thread): Thread {
    match th
    case Emitting(letter, urls, _, _) => Emitting(letter, urls, |urls|, None)
    case Replaying(id, row, _) => Replaying(id, row, Over)
    case Running(job, posted, _) => Running(job, posted, Finished)
  }

  /** The steps that move an existing thread on. */
  predicate Acts(step: Step) {
    !step.BeginEmit? && !step.CheckDead? && !step.CheckAndRearm?
  }

  /** How a step moves its thread on. */
  ghost function Moved(c: Config, s: State, step: Step): Thread
    requires Enabled(c, s, step) && Acts(step)
  {
    var th := s.threads[step.t];
    match step
    case CreateRecord(_, id, _) => th.(created := Some(id))
    case StartDelivery(_) => th.(next := th.next + 1, created := None)
    case Rearm(_, fault) => th.(phase := if fault then Over else Armed)
    case StartReplay(_) => th.(phase := Over)
    case PostAttempt(_, outcome) => th.(posted := th.posted + 1, pc := Writing(WriteFor(th.posted + 1, outcome)))
    case Persist(_, _) => th.(pc := AfterWrite(c, th.pc.write))
    case Lose(_) => Dead(th)
  }

  /** The thread that a step starts, if any. */
  ghost function Started(c: Config, s: State, step: Step): seq<Thread>
    requires Enabled(c, s, step)
  {
    match step
    case BeginEmit(src, urls) => if urls == [] then [] else [Emitting(c.sign(src).value, urls, 0, None)]
    case StartDelivery(t) =>
      var th := s.threads[t];
      [Running(Job(th.created.value, Parcel(th.letter, th.urls[th.next])), 0, Posting)]
    case CheckDead(id) => [Replaying(id, s.table.rows[id], Checked)]
    case CheckAndRearm(id, fault) => [Replaying(id, s.table.rows[id], if fault then Over else Armed)]
    case StartReplay(t) => [Running(Job(s.threads[t].id, ParcelOf(s.threads[t].row)), 0, Posting)]
    case _ => []
  }

  ghost function ThreadsAfter(c: Config, s: State, step: Step): seq<Thread>
    requires Enabled(c, s, step)
  {
    (if Acts(step) then s.threads[step.t := Moved(c, s, step)] else s.threads) + Started(c, s, step)
  }

  /** The delivery that an emitting thread is about to record. */
  ghost function NextJob(s: State, t: nat, id: string): Job
    requires t < |s.threads| && s.threads[t].Emitting? && s.threads[t].next < |s.threads[t].urls|
  {
    Job(id, Parcel(s.threads[t].letter, s.threads[t].urls[s.threads[t].next]))
  }

  /** A statement whose `fault` is set has no effect. */
  ghost function TableAfter(c: Config, s: State, step: Step): (table: Table)
    requires s.table.Valid() && Enabled(c, s, step)
    ensures table.Valid() && s.table.rows.Keys <= table.rows.Keys
  {
    match step
    case CreateRecord(t, id, fault) =>
      if fault then s.table else Create(s.table, RecordFor(NextJob(s, t, id)))
    case Rearm(t, fault) =>
      if fault then s.table else Update(s.table, s.threads[t].id, Pending, s.threads[t].row.attemptCount, "")
    case CheckAndRearm(id, fault) =>
      if fault then s.table else Update(s.table, id, Pending, s.table.rows[id].attemptCount, "")
    case Persist(t, fault) =>
      var w := s.threads[t].pc.write;
      if fault then s.table else Update(s.table, s.threads[t].job.id, w.status, w.attempts, w.error)
    case _ => s.table
  }

  ghost function LogAfter(c: Config, s: State, step: Step): seq<Post>
    requires Enabled(c, s, step)
  {
    match step
    case PostAttempt(t, outcome) => s.log + [Post(t, s.threads[t].job, s.threads[t].posted, outcome)]
    case _ => s.log
  }

  ghost function IssuedAfter(c: Config, s: State, step: Step): map<string, Parcel>
    requires Enabled(c, s, step)
  {
    match step
    case CreateRecord(t, id, _) => s.issued[id := NextJob(s, t, id).parcel]
    case _ => s.issued
  }

  ghost function LettersAfter(c: Config, s: State, step: Step): map<string, Letter>
    requires Enabled(c, s, step)
  {
    match step
    case BeginEmit(src, urls) =>
      var letter := c.sign(src).value;
      if urls == [] then s.letters else s.letters[letter.eventId := letter]
    case _ => s.letters
  }

  ghost function ReplaysAfter(c: Config, s: State, step: Step): multiset<string>
    requires Enabled(c, s, step)
  {
    match step
    case Rearm(t, fault) => if fault then s.replays else s.replays + multiset{s.threads[t].id}
    case CheckAndRearm(id, fault) => if fault then s.replays else s.replays + multiset{id}
    case _ => s.replays
  }

  ghost function VerdictsAfter(c: Config, s: State, step: Step): multiset<string>
    requires Enabled(c, s, step)
  {
    match step
    case Persist(t, fault) =>
      var id := s.threads[t].job.id;
      if s.threads[t].pc.write.status == DeadLetter && !fault && id in s.table.rows
      then s.verdicts + multiset{id} else s.verdicts
    case _ => s.verdicts
  }

  ghost function Apply(c: Config, s: State, step: Step): (s': State)
    requires s.table.Valid() && Enabled(c, s, step)
    ensures s'.table.Valid()
  {
    State(TableAfter(c, s, step), ThreadsAfter(c, s, step), LogAfter(c, s, step), IssuedAfter(c, s, step),
          LettersAfter(c, s, step), ReplaysAfter(c, s, step), VerdictsAfter(c, s, step))
  }

  /** Every step of the run is enabled where it is taken. */
  ghost predicate Runs(c: Config, s: State, steps: seq<Step>)
    requires s.table.Valid()
    decreases |steps|
  {
    steps == [] || (Enabled(c, s, steps[0]) && Runs(c, Apply(c, s, steps[0]), steps[1..]))
  }

  ghost function Exec(c: Config, s: State, steps: seq<Step>): (s': State)
    requires s.table.Valid() && Runs(c, s, steps)
    ensures s'.table.Valid()
    decreases |steps|
  {
    if steps == [] then s else Exec(c, Apply(c, s, steps[0]), steps[1..])
  }

  // ---------------------------------------------------------------- what every interleaving keeps

  predicate RejectedAt(log: seq<Post>, t: nat, job: Job, attempt: nat, error: string) {
    Post(t, job, attempt, Rejected(error)) in log
  }

  predicate AcceptedAt(log: seq<Post>, t: nat, job: Job, attempt: nat) {
    Post(t, job, attempt, Accepted) in log
  }

  ghost predicate Refused(log: seq<Post>, t: nat, job: Job, attempt: nat) {
    exists error :: RejectedAt(log, t, job, attempt, error)
  }

  /** Thread t made attempts 0, .., k - 1 of the job and all were rejected. */
  ghost predicate AllRejected(log: seq<Post>, t: nat, job: Job, k: nat) {
    forall i: nat :: i < k ==> Refused(log, t, job, i)
  }

  /** Thread t made attempts 0, .., k of the job, all were rejected, the last with this error. */
  ghost predicate GivenUp(log: seq<Post>, t: nat, job: Job, k: nat, error: string) {
    AllRejected(log, t, job, k + 1) && RejectedAt(log, t, job, k, error)
  }

  /** Thread t made attempts 0, .., k of the job, all were rejected but the last, which was accepted. */
  ghost predicate Succeeded(log: seq<Post>, t: nat, job: Job, k: nat) {
    AllRejected(log, t, job, k) && AcceptedAt(log, t, job, k)
  }

  ghost predicate SomeSucceeded(log: seq<Post>, job: Job, attempt: nat) {
    exists t: nat :: Succeeded(log, t, job, attempt)
  }

  ghost predicate SomeGivenUp(log: seq<Post>, job: Job, attempt: nat, error: string) {
    exists t: nat :: GivenUp(log, t, job, attempt, error)
  }

  /** A record's status, attempt count and error tell what one run of the delivery really received. */
  ghost predicate TellsTheTruth(c: Config, log: seq<Post>, row: Record) {
    var job, n := Job(row.deliveryId, ParcelOf(row)), row.attemptCount;
    match row.status
    case Pending => (n == 0 || n == c.attempts) && row.lastError == ""
    case Delivered => 1 <= n <= c.attempts && row.lastError == "" && SomeSucceeded(log, job, n - 1)
    case Failed => 1 <= n <= c.attempts && SomeGivenUp(log, job, n - 1, row.lastError)
    case DeadLetter => 1 <= n == c.attempts && SomeGivenUp(log, job, n - 1, row.lastError)
  }

  /** A pending status write is backed by the thread's own attempts. */
  ghost predicate WriteTrue(c: Config, log: seq<Post>, t: nat, job: Job, posted: nat, w: Write) {
    && 1 <= posted == w.attempts
    && match w.status
       case Pending => false
       case Delivered => w.error == "" && Succeeded(log, t, job, posted - 1)
       case Failed => GivenUp(log, t, job, posted - 1, w.error)
       case DeadLetter => posted == c.attempts && GivenUp(log, t, job, posted - 1, w.error)
  }

  ghost predicate LetterKnown(s: State, l: Letter) {
    l.eventId in s.letters && s.letters[l.eventId] == l
  }

  ghost predicate JobKnown(s: State, job: Job) {
    job.id in s.issued && s.issued[job.id] == job.parcel
  }

  ghost predicate ThreadTrue(c: Config, s: State, t: nat, th: Thread) {
    match th
    case Emitting(letter, urls, next, created) =>
      && LetterKnown(s, letter) && next <= |urls|
      && (created.Some? ==> next < |urls| && JobKnown(s, Job(created.value, Parcel(letter, urls[next]))))
    case Replaying(id, row, phase) =>
      phase != Over ==>
        id in s.table.rows && JobKnown(s, Job(id, ParcelOf(row))) && row.attemptCount == c.attempts
    case Running(job, posted, pc) =>
      && JobKnown(s, job) && posted <= c.attempts
      && (pc.Posting? ==> posted < c.attempts && AllRejected(s.log, t, job, posted))
      && (pc.Writing? ==> WriteTrue(c, s.log, t, job, posted, pc.write))
  }

  /** An accepted attempt is its thread's last. */
  ghost predicate PostTrue(c: Config, s: State, p: Post) {
    && JobKnown(s, p.job)
    && p.thread < |s.threads| && s.threads[p.thread].Running?
    && var th := s.threads[p.thread];
       && th.job == p.job && p.attempt < th.posted
       && (p.outcome.Accepted? ==> p.attempt + 1 == th.posted && !th.pc.Posting?)
       && (p.outcome.Accepted? && th.pc.Writing? ==> th.pc.write.status == Delivered)
  }

  ghost predicate LettersTrue(c: Config, s: State) {
    forall e :: e in s.letters ==> s.letters[e].eventId == e && exists src :: c.sign(src) == Some(s.letters[e])
  }

  ghost predicate IssuesTrue(s: State) {
    forall d :: d in s.issued ==> d != "" && LetterKnown(s, s.issued[d].letter)
  }

  ghost predicate RowsTrue(c: Config, s: State) {
    forall d :: d in s.table.rows ==>
      && s.table.rows[d].deliveryId == d
      && JobKnown(s, Job(d, ParcelOf(s.table.rows[d]))) && TellsTheTruth(c, s.log, s.table.rows[d])
  }

  ghost predicate ThreadsTrue(c: Config, s: State) {
    forall t :: 0 <= t < |s.threads| ==> ThreadTrue(c, s, t, s.threads[t])
  }

  /** A thread's POSTs are numbered upwards and none follows an accepted one. */
  ghost predicate LogTrue(c: Config, s: State) {
    && (forall i :: 0 <= i < |s.log| ==> PostTrue(c, s, s.log[i]))
    && (forall i, j :: 0 <= i < j < |s.log| && s.log[i].thread == s.log[j].thread ==>
          s.log[i].attempt < s.log[j].attempt && s.log[i].outcome.Rejected?)
  }

  ghost predicate Inv(c: Config, s: State) {
    && s.table.Valid() && HintsCountUp(s.table)
    && LettersTrue(c, s) && IssuesTrue(s) && RowsTrue(c, s) && ThreadsTrue(c, s) && LogTrue(c, s)
  }

  // ---------------------------------------------------------------- preservation

  /** History only grows. */
  ghost predicate Extends(s: State, s': State) {
    && (forall e :: e in s.letters ==> e in s'.letters && s'.letters[e] == s.letters[e])
    && (forall d :: d in s.issued ==> d in s'.issued && s'.issued[d] == s.issued[d])
    && (forall p :: p in s.log ==> p in s'.log)
    && s.table.rows.Keys <= s'.table.rows.Keys
  }

  lemma RejectionsExtend(s: State, s': State, t: nat, job: Job, k: nat)
    requires Extends(s, s') && AllRejected(s.log, t, job, k)
    ensures AllRejected(s'.log, t, job, k)
  {
    forall i: nat | i < k ensures Refused(s'.log, t, job, i) {
      assert Refused(s.log, t, job, i);
      var error :| RejectedAt(s.log, t, job, i, error);
      assert RejectedAt(s'.log, t, job, i, error);
    }
  }

  lemma ThreadExtends(c: Config, s: State, s': State, t: nat, th: Thread)
    requires Extends(s, s') && ThreadTrue(c, s, t, th)
    ensures ThreadTrue(c, s', t, th)
  {
    if th.Running? {
      forall k: nat | AllRejected(s.log, t, th.job, k) ensures AllRejected(s'.log, t, th.job, k) {
        RejectionsExtend(s, s', t, th.job, k);
      }
    }
  }

  lemma RowExtends(c: Config, s: State, s': State, row: Record)
    requires Extends(s, s') && TellsTheTruth(c, s.log, row)
    ensures TellsTheTruth(c, s'.log, row)
  {
    var job, n := Job(row.deliveryId, ParcelOf(row)), row.attemptCount;
    match row.status
    case Pending =>
    case Delivered =>
      var t: nat :| Succeeded(s.log, t, job, n - 1);
      RejectionsExtend(s, s', t, job, n - 1);
      assert Succeeded(s'.log, t, job, n - 1);
    case _ =>
      var t: nat :| GivenUp(s.log, t, job, n - 1, row.lastError);
      RejectionsExtend(s, s', t, job, n - 1 + 1);
      assert GivenUp(s'.log, t, job, n - 1, row.lastError);
  }

  lemma StepExtends(c: Config, s: State, step: Step)
    requires s.table.Valid() && Enabled(c, s, step)
    ensures Extends(s, Apply(c, s, step))
    ensures |Apply(c, s, step).threads| >= |s.threads|
  {
  }

  /** A step moves at most one thread on and starts at most one. */
  lemma ThreadsChange(c: Config, s: State, step: Step)
    requires s.table.Valid() && Enabled(c, s, step)
    ensures Acts(step) ==> step.t < |s.threads|
    ensures var s' := Apply(c, s, step);
            && |s.threads| <= |s'.threads| <= |s.threads| + 1
            && s'.threads[..|s.threads|]
                 == if Acts(step) then s.threads[step.t := s'.threads[step.t]] else s.threads
  {
  }

  lemma TableKeeps(c: Config, s: State, step: Step)
    requires s.table.Valid() && HintsCountUp(s.table) && Enabled(c, s, step)
    ensures HintsCountUp(Apply(c, s, step).table)
  {
    match step
    case CreateRecord(t, id, fault) =>
      CreateKeepsCounting(s.table, RecordFor(NextJob(s, t, id)));
    case Rearm(t, _) =>
      UpdateKeepsCounting(s.table, s.threads[t].id, Pending, s.threads[t].row.attemptCount, "");
    case CheckAndRearm(id, _) =>
      UpdateKeepsCounting(s.table, id, Pending, s.table.rows[id].attemptCount, "");
    case Persist(t, _) =>
      var w := s.threads[t].pc.write;
      UpdateKeepsCounting(s.table, s.threads[t].job.id, w.status, w.attempts, w.error);
    case _ =>
  }

  lemma LettersKeep(c: Config, s: State, step: Step)
    requires s.table.Valid() && LettersTrue(c, s) && Enabled(c, s, step)
    ensures LettersTrue(c, Apply(c, s, step))
  {
  }

  lemma IssuesKeep(c: Config, s: State, step: Step)
    requires s.table.Valid() && IssuesTrue(s) && ThreadsTrue(c, s) && Enabled(c, s, step)
    ensures IssuesTrue(Apply(c, s, step))
  {
    if step.CreateRecord? {
      assert ThreadTrue(c, s, step.t, s.threads[step.t]);
    }
  }

  /** Rows change by an insertion, a reset, or a status write backed by the writer's own attempts. */
  lemma RowsKeep(c: Config, s: State, step: Step)
    requires c.Valid() && s.table.Valid() && RowsTrue(c, s) && ThreadsTrue(c, s) && Enabled(c, s, step)
    ensures RowsTrue(c, Apply(c, s, step))
  {
    var s' := Apply(c, s, step);
    StepExtends(c, s, step);
    forall d | d in s'.table.rows
      ensures s'.table.rows[d].deliveryId == d && JobKnown(s', Job(d, ParcelOf(s'.table.rows[d])))
      ensures TellsTheTruth(c, s'.log, s'.table.rows[d])
    {
      if d in s.table.rows {
        RowExtends(c, s, s', s.table.rows[d]);
        ActorIsTrue(c, s, step);
        RowKeeps(c, s, step, d);
      }
    }
  }

  /** The thread that takes the step, if one does, is as the invariant says. */
  ghost predicate ActorTrue(c: Config, s: State, step: Step) {
    match step
    case BeginEmit(_, _) => true
    case CheckDead(id) => true
    case CheckAndRearm(id, _) => id in s.table.rows && s.table.rows[id].attemptCount == c.attempts
    case _ => step.t < |s.threads| && ThreadTrue(c, s, step.t, s.threads[step.t])
  }

  lemma ActorIsTrue(c: Config, s: State, step: Step)
    requires RowsTrue(c, s) && ThreadsTrue(c, s) && Enabled(c, s, step)
    ensures ActorTrue(c, s, step)
  {
    if step.CheckAndRearm? {
      assert TellsTheTruth(c, s.log, s.table.rows[step.id]);
    }
  }

  /** The row that a reset leaves. */
  function Repended(c: Config, row: Record): Record {
    row.(status := Pending, attemptCount := c.attempts, lastError := "")
  }

  function Rewritten(row: Record, w: Write): Record {
    row.(status := w.status, attemptCount := w.attempts, lastError := w.error)
  }

  /** An existing row stays, is reset, or takes the status write of one of its own deliveries. */
  lemma RowChange(c: Config, s: State, step: Step, d: string)
    requires s.table.Valid() && ActorTrue(c, s, step) && Enabled(c, s, step)
    requires d in s.table.rows
    ensures var row', row := Apply(c, s, step).table.rows[d], s.table.rows[d];
            || row' == row
            || (((step.Rearm? && s.threads[step.t].id == d) || (step.CheckAndRearm? && step.id == d))
                && row' == Repended(c, row))
            || (step.Persist? && s.threads[step.t].job.id == d && row' == Rewritten(row, s.threads[step.t].pc.write))
  {
    if step.Rearm? {
      var th := s.threads[step.t];
      assert th.row.attemptCount == c.attempts;
    }
  }

  lemma RowKeeps(c: Config, s: State, step: Step, d: string)
    requires c.Valid() && s.table.Valid() && ActorTrue(c, s, step) && Enabled(c, s, step)
    requires d in s.table.rows && s.table.rows[d].deliveryId == d && JobKnown(s, Job(d, ParcelOf(s.table.rows[d])))
    requires TellsTheTruth(c, Apply(c, s, step).log, s.table.rows[d])
    ensures var s' := Apply(c, s, step);
            && d in s'.table.rows
            && s'.table.rows[d].deliveryId == d
            && ParcelOf(s'.table.rows[d]) == ParcelOf(s.table.rows[d])
            && TellsTheTruth(c, s'.log, s'.table.rows[d])
  {
    RowChange(c, s, step, d);
    if step.Persist? && s.threads[step.t].job.id == d {
      WriteMakesTruth(c, s, step.t, d);
    }
  }

  lemma WriteMakesTruth(c: Config, s: State, t: nat, d: string)
    requires c.Valid() && t < |s.threads| && s.threads[t].Running? && s.threads[t].pc.Writing?
    requires ThreadTrue(c, s, t, s.threads[t]) && s.threads[t].job.id == d
    requires d in s.table.rows && s.table.rows[d].deliveryId == d && JobKnown(s, Job(d, ParcelOf(s.table.rows[d])))
    ensures TellsTheTruth(c, s.log, Rewritten(s.table.rows[d], s.threads[t].pc.write))
  {
    var w, job := s.threads[t].pc.write, s.threads[t].job;
    var row := Rewritten(s.table.rows[d], w);
    assert job == Job(row.deliveryId, ParcelOf(row));
    assert WriteTrue(c, s.log, t, job, s.threads[t].posted, w);
  }

  lemma ThreadsKeep(c: Config, s: State, step: Step)
    requires c.Valid() && s.table.Valid() && RowsTrue(c, s) && LettersTrue(c, s) && ThreadsTrue(c, s)
    requires Enabled(c, s, step)
    ensures ThreadsTrue(c, Apply(c, s, step))
  {
    var s' := Apply(c, s, step);
    StepExtends(c, s, step);
    forall t | 0 <= t < |s'.threads| ensures ThreadTrue(c, s', t, s'.threads[t]) {
      if t < |s.threads| {
        ThreadExtends(c, s, s', t, s.threads[t]);
        ThreadKeeps(c, s, step, t);
      } else {
        NewThreadTrue(c, s, step);
      }
    }
  }

  lemma ThreadKeeps(c: Config, s: State, step: Step, t: nat)
    requires c.Valid() && s.table.Valid() && Enabled(c, s, step)
    requires t < |s.threads| && ThreadTrue(c, s, t, s.threads[t])
    requires ThreadTrue(c, Apply(c, s, step), t, s.threads[t])
    ensures ThreadTrue(c, Apply(c, s, step), t, Apply(c, s, step).threads[t])
  {
    var s' := Apply(c, s, step);
    if s'.threads[t] != s.threads[t] {
      match step
      case PostAttempt(_, outcome) => AttemptBacksWrite(c, s, t, outcome);
      case _ =>
    }
  }

  lemma AttemptBacksWrite(c: Config, s: State, t: nat, outcome: Outcome)
    requires s.table.Valid() && Enabled(c, s, PostAttempt(t, outcome))
    requires ThreadTrue(c, s, t, s.threads[t])
    requires ThreadTrue(c, Apply(c, s, PostAttempt(t, outcome)), t, s.threads[t])
    ensures ThreadTrue(c, Apply(c, s, PostAttempt(t, outcome)), t, Apply(c, s, PostAttempt(t, outcome)).threads[t])
  {
    var s' := Apply(c, s, PostAttempt(t, outcome));
    var th, th' := s.threads[t], s'.threads[t];
    assert s'.log[|s.log|] == Post(t, th.job, th.posted, outcome);
    match outcome
    case Accepted =>
      assert AcceptedAt(s'.log, t, th.job, th.posted);
      assert Succeeded(s'.log, t, th.job, th'.posted - 1);
    case Rejected(error) =>
      assert RejectedAt(s'.log, t, th.job, th.posted, error);
      assert Refused(s'.log, t, th.job, th.posted);
      assert GivenUp(s'.log, t, th.job, th'.posted - 1, error);
  }

  lemma DeadRow(c: Config, s: State, id: string)
    requires RowsTrue(c, s) && IsDead(s, id)
    ensures JobKnown(s, Job(id, ParcelOf(s.table.rows[id]))) && s.table.rows[id].attemptCount == c.attempts
  {
    assert TellsTheTruth(c, s.log, s.table.rows[id]);
  }

  lemma NewThreadTrue(c: Config, s: State, step: Step)
    requires c.Valid() && s.table.Valid() && RowsTrue(c, s) && ThreadsTrue(c, s) && Enabled(c, s, step)
    ensures var s' := Apply(c, s, step);
            |s'.threads| > |s.threads| ==>
              |s'.threads| == |s.threads| + 1 && ThreadTrue(c, s', |s.threads|, s'.threads[|s.threads|])
  {
    match step
    case BeginEmit(_, _) => NewEmissionTrue(c, s, step);
    case StartDelivery(_) => NewRunTrue(c, s, step);
    case StartReplay(_) => NewRunTrue(c, s, step);
    case CheckDead(_) => NewReplayTrue(c, s, step);
    case CheckAndRearm(_, _) => NewReplayTrue(c, s, step);
    case _ =>
  }

  lemma NewEmissionTrue(c: Config, s: State, step: Step)
    requires s.table.Valid() && Enabled(c, s, step) && step.BeginEmit?
    ensures var s' := Apply(c, s, step);
            |s'.threads| > |s.threads| ==>
              |s'.threads| == |s.threads| + 1 && ThreadTrue(c, s', |s.threads|, s'.threads[|s.threads|])
  {
  }

  lemma NewRunTrue(c: Config, s: State, step: Step)
    requires c.Valid() && s.table.Valid() && Enabled(c, s, step) && (step.StartDelivery? || step.StartReplay?)
    requires ThreadTrue(c, s, step.t, s.threads[step.t])
    ensures var s' := Apply(c, s, step);
            |s'.threads| == |s.threads| + 1 && ThreadTrue(c, s', |s.threads|, s'.threads[|s.threads|])
  {
  }

  lemma NewReplayTrue(c: Config, s: State, step: Step)
    requires s.table.Valid() && RowsTrue(c, s) && Enabled(c, s, step) && (step.CheckDead? || step.CheckAndRearm?)
    ensures var s' := Apply(c, s, step);
            |s'.threads| == |s.threads| + 1 && ThreadTrue(c, s', |s.threads|, s'.threads[|s.threads|])
  {
    DeadRow(c, s, step.id);
  }

  lemma PostKeeps(c: Config, s: State, step: Step, p: Post)
    requires s.table.Valid() && ActorTrue(c, s, step) && Enabled(c, s, step)
    requires PostTrue(c, s, p)
    ensures PostTrue(c, Apply(c, s, step), p)
    ensures step.PostAttempt? && p.thread == step.t ==>
              p.attempt < s.threads[step.t].posted && p.outcome.Rejected?
  {
  }

  lemma LogKeeps(c: Config, s: State, step: Step)
    requires s.table.Valid() && ActorTrue(c, s, step) && LogTrue(c, s) && Enabled(c, s, step)
    ensures LogTrue(c, Apply(c, s, step))
  {
    var s' := Apply(c, s, step);
    forall i | 0 <= i < |s.log|
      ensures PostTrue(c, s', s.log[i])
      ensures step.PostAttempt? && s.log[i].thread == step.t ==>
                s.log[i].attempt < s.threads[step.t].posted && s.log[i].outcome.Rejected?
    {
      PostKeeps(c, s, step, s.log[i]);
    }
  }

  lemma StepKeeps(c: Config, s: State, step: Step)
    requires c.Valid() && Inv(c, s) && Enabled(c, s, step)
    ensures Inv(c, Apply(c, s, step))
  {
    TableKeeps(c, s, step);
    LettersKeep(c, s, step);
    IssuesKeep(c, s, step);
    RowsKeep(c, s, step);
    ThreadsKeep(c, s, step);
    ActorIsTrue(c, s, step);
    LogKeeps(c, s, step);
  }

  /** Whatever the granularity of Replay, every reachable state keeps the invariant. */
  lemma {:induction false} RunKeeps(c: Config, s: State, steps: seq<Step>)
    requires c.Valid() && Inv(c, s) && Runs(c, s, steps)
    ensures Inv(c, Exec(c, s, steps))
    decreases |steps|
  {
    if steps == [] {
    } else {
      StepKeeps(c, s, steps[0]);
      RunKeeps(c, Apply(c, s, steps[0]), steps[1..]);
    }
  }

  lemma Reachable(c: Config, steps: seq<Step>)
    requires c.Valid() && Runs(c, INITIAL, steps)
    ensures Inv(c, Exec(c, INITIAL, steps))
  {
    RunKeeps(c, INITIAL, steps);
  }

  lemma ReachableThreads(c: Config, steps: seq<Step>)
    requires c.Valid() && Runs(c, INITIAL, steps)
    ensures ThreadsTrue(c, Exec(c, INITIAL, steps))
  {
    Reachable(c, steps);
  }

  // ---------------------------------------------------------------- what it means for records and receivers

  /** In every reachable state, whatever the granularity of Replay and whatever writes are lost, a record
      tells the truth of one run of its delivery: delivered, that its attempt `attemptCount` was accepted
      after all before it were rejected; failed and dead_letter, that all up to `attemptCount` were rejected,
      the last with `lastError`, and for dead_letter that those were all attempts; pending, that the record
      was never written or was reset after all attempts. */
  lemma RecordsTellTheTruth(c: Config, steps: seq<Step>, d: string)
    requires c.Valid() && Runs(c, INITIAL, steps) && d in Exec(c, INITIAL, steps).table.rows
    ensures var s := Exec(c, INITIAL, steps);
            s.table.rows[d].deliveryId == d && TellsTheTruth(c, s.log, s.table.rows[d])
  {
    Reachable(c, steps);
  }

  /** Every POST of a delivery, whatever run or replay made it, sends what its record holds: the body and
      signature fixed when the event was signed. */
  lemma PostsSendTheRecord(c: Config, steps: seq<Step>, p: Post)
    requires c.Valid() && Runs(c, INITIAL, steps) && p in Exec(c, INITIAL, steps).log
    ensures var s := Exec(c, INITIAL, steps);
            && (exists src :: c.sign(src) == Some(p.job.parcel.letter))
            && p.job.id in s.issued && p.job.parcel == s.issued[p.job.id]
            && (p.job.id in s.table.rows ==>
                  var row := s.table.rows[p.job.id];
                  SentBy(p.job.parcel) == Sent(row.targetUrl, row.payload, row.signature))
  {
    Reachable(c, steps);
    var s := Exec(c, INITIAL, steps);
    assert PostTrue(c, s, p);
    assert LetterKnown(s, s.issued[p.job.id].letter);
    if p.job.id in s.table.rows {
      assert JobKnown(s, Job(p.job.id, ParcelOf(s.table.rows[p.job.id])));
    }
  }

  /** When letters are signed as the dispatcher signs them, every POST passes the receiver's check. */
  lemma EveryPostVerifies(mac: Mac, secret: string, attempts: nat, indivisible: bool, steps: seq<Step>, p: Post)
    requires var c := Config(attempts, (src: Source) => Sign(mac, secret, Unsigned(src)), indivisible);
             c.Valid() && Runs(c, INITIAL, steps) && p in Exec(c, INITIAL, steps).log
    ensures Verifies(mac, secret, SentBy(p.job.parcel).body, SentBy(p.job.parcel).signature)
  {
    var c := Config(attempts, (src: Source) => Sign(mac, secret, Unsigned(src)), indivisible);
    PostsSendTheRecord(c, steps, p);
    var src :| c.sign(src) == Some(p.job.parcel.letter);
    SignedVerifies(mac, secret, src);
  }

  /** Records of one event share its payload, signature, type and aggregate key. */
  lemma RecordsShareTheLetter(c: Config, steps: seq<Step>, d: string, d': string)
    requires c.Valid() && Runs(c, INITIAL, steps)
    requires var rows := Exec(c, INITIAL, steps).table.rows;
             d in rows && d' in rows && rows[d].eventId == rows[d'].eventId
    ensures var rows := Exec(c, INITIAL, steps).table.rows;
            ParcelOf(rows[d]).letter == ParcelOf(rows[d']).letter
  {
    Reachable(c, steps);
    var s := Exec(c, INITIAL, steps);
    assert JobKnown(s, Job(d, ParcelOf(s.table.rows[d]))) && LetterKnown(s, s.issued[d].letter);
    assert JobKnown(s, Job(d', ParcelOf(s.table.rows[d']))) && LetterKnown(s, s.issued[d'].letter);
  }

  /** The hints of every aggregate key are 1..m in creation order, in every reachable state. */
  lemma ReachableHints(c: Config, steps: seq<Step>, key: string)
    requires c.Valid() && Runs(c, INITIAL, steps)
    ensures var t := Exec(c, INITIAL, steps).table;
            CountsUp(Hints(t.order, t.rows, key))
  {
    Reachable(c, steps);
  }
}
