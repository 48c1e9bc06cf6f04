/**
 The webhook dispatcher: Emit signs one event and starts one delivery per URL, Deliver retries
 through the backoff table, Replay re-arms a dead letter. Goroutines that the program starts are
 recorded as jobs; what each does among others is the subject of module Protocol.
 The network, the clock, fresh identifiers and store faults are parameters.
 */
module Dispatching {
  import opened Deliveries
  import opened Envelope
  import opened Wrappers

  /** A letter addressed to one URL, and the delivery that carries it. */
  datatype Parcel = Parcel(letter: Letter, url: string)
  datatype Job = Job(id: string, parcel: Parcel)

  /** The result of a POST: a 2xx status, or the text of the error. */
  datatype Outcome = Accepted | Rejected(error: string)

  /** What a POST puts on the wire. */
  datatype Sent = Sent(url: string, body: string, signature: string)

  /** One status update that a delivery asks of the store. */
  datatype Write = Write(status: Status, attempts: nat, error: string)

  /** Seconds to wait before each attempt. */
  const DEFAULT_BACKOFF: seq<nat> := [0, 1, 5, 30, 120]

  function RecordFor(job: Job): Record {
    var l := job.parcel.letter;
    Record(job.id, l.eventId, l.eventType, job.parcel.url, l.aggregateKey, l.body, l.signature, Pending, 0, "", 0)
  }

  /** The parcel that a stored record carries. */
  function ParcelOf(r: Record): Parcel {
    Parcel(Letter(r.eventId, r.eventType, r.aggregateKey, r.payload, r.signature), r.targetUrl)
  }

  function SentBy(p: Parcel): Sent {
    Sent(p.url, p.letter.body, p.letter.signature)
  }

  function Sum(delays: seq<nat>): nat {
    if delays == [] then 0 else Sum(delays[..|delays| - 1]) + delays[|delays| - 1]
  }

  // ---------------------------------------------------------------- what one delivery does

  /** The first attempt at or after `k` that is accepted, or `n` when none before `n` is. */
  function FirstAccepted(net: nat -> Outcome, k: nat, n: nat): (r: nat)
    requires k <= n
    ensures k <= r <= n
    ensures forall i :: k <= i < r ==> net(i).Rejected?
    ensures r < n ==> net(r).Accepted?
    decreases n - k
  {
    if k == n || net(k).Accepted? then k else FirstAccepted(net, k + 1, n)
  }

  lemma FirstAcceptedIs(net: nat -> Outcome, k: nat, n: nat)
    requires k <= n && (forall i :: 0 <= i < k ==> net(i).Rejected?) && (k < n ==> net(k).Accepted?)
    ensures FirstAccepted(net, 0, n) == k
  {
  }

  /** How many POSTs a delivery makes. */
  function Attempts(net: nat -> Outcome, n: nat): nat {
    var k := FirstAccepted(net, 0, n);
    if k < n then k + 1 else n
  }

  /** failed(1), .., failed(k). */
  function Failures(net: nat -> Outcome, k: nat): seq<Write>
    requires forall i :: 0 <= i < k ==> net(i).Rejected?
  {
    seq(k, i requires 0 <= i < k => Write(Failed, i + 1, net(i).error))
  }

  /** failed(1)..failed(k), delivered(k+1) when attempt k+1 is the first accepted one;
      failed(1)..failed(n), dead_letter(n) when none is. */
  function DeliverWrites(net: nat -> Outcome, n: nat): seq<Write>
    requires n > 0
  {
    var k := FirstAccepted(net, 0, n);
    if k < n then Failures(net, k) + [Write(Delivered, k + 1, "")]
    else Failures(net, n) + [Write(DeadLetter, n, net(n - 1).error)]
  }

  /** The writes reach the store in order; write i is lost when `faults(i)`. */
  function ApplyWrites(t: Table, id: string, ws: seq<Write>, faults: nat -> bool): Table {
    if ws == [] then t else
    var before, w := ApplyWrites(t, id, ws[..|ws| - 1], faults), ws[|ws| - 1];
    if faults(|ws| - 1) then before else Update(before, id, w.status, w.attempts, w.error)
  }

  /** The table after the writes of a delivery; without an id nothing is written. */
  function Written(t: Table, id: string, ws: seq<Write>, faults: nat -> bool): Table {
    if id == "" then t else ApplyWrites(t, id, ws, faults)
  }

  function Persisted(t: Table, id: string, w: Write, fault: bool): Table {
    if id == "" || fault then t else Update(t, id, w.status, w.attempts, w.error)
  }

  lemma WritesGrow(t: Table, id: string, ws: seq<Write>, w: Write, faults: nat -> bool)
    ensures var before := ApplyWrites(t, id, ws, faults);
            ApplyWrites(t, id, ws + [w], faults)
              == if faults(|ws|) then before else Update(before, id, w.status, w.attempts, w.error)
  {
    assert (ws + [w])[..|ws|] == ws;
  }

  lemma WrittenGrows(t: Table, id: string, ws: seq<Write>, w: Write, faults: nat -> bool)
    ensures Written(t, id, ws + [w], faults) == Persisted(Written(t, id, ws, faults), id, w, faults(|ws|))
  {
    WritesGrow(t, id, ws, w, faults);
  }

  /** The failed write of attempt k + 1. */
  lemma FailureWritten(t: Table, id: string, net: nat -> Outcome, k: nat, faults: nat -> bool)
    requires forall i :: 0 <= i <= k ==> net(i).Rejected?
    ensures Written(t, id, Failures(net, k + 1), faults)
              == Persisted(Written(t, id, Failures(net, k), faults), id, Write(Failed, k + 1, net(k).error), faults(k))
  {
    FailuresGrow(net, k);
    WrittenGrows(t, id, Failures(net, k), Write(Failed, k + 1, net(k).error), faults);
  }

  /** The write of the verdict after k rejected attempts: delivered with the next, or dead_letter when there is none. */
  lemma VerdictWritten(t: Table, id: string, net: nat -> Outcome, k: nat, n: nat, faults: nat -> bool)
    requires k <= n && n > 0 && k == FirstAccepted(net, 0, n)
    ensures var w := if k < n then Write(Delivered, k + 1, "") else Write(DeadLetter, n, net(n - 1).error);
            Written(t, id, DeliverWrites(net, n), faults)
              == Persisted(Written(t, id, Failures(net, k), faults), id, w, faults(k))
  {
    var w := if k < n then Write(Delivered, k + 1, "") else Write(DeadLetter, n, net(n - 1).error);
    WrittenGrows(t, id, Failures(net, k), w, faults);
  }

  lemma FailuresGrow(net: nat -> Outcome, k: nat)
    requires forall i :: 0 <= i <= k ==> net(i).Rejected?
    ensures Failures(net, k + 1) == Failures(net, k) + [Write(Failed, k + 1, net(k).error)]
  {
  }

  /** A delivery closes its record exactly once, with its last write: delivered just when some attempt
      was accepted, dead_letter just when all were rejected, and never more than one write per attempt
      and one for the verdict. */
  lemma DeliverClosesOnce(net: nat -> Outcome, n: nat)
    requires n > 0
    ensures var ws := DeliverWrites(net, n);
            && ws != []
            && (forall i :: 0 <= i < |ws| - 1 ==> net(i).Rejected? && ws[i] == Write(Failed, i + 1, net(i).error))
            && (ws[|ws| - 1].status == Delivered ==> ws[|ws| - 1].error == "")
            && (ws[|ws| - 1].status == DeadLetter ==> net(n - 1).Rejected? && ws[|ws| - 1].error == net(n - 1).error)
            && (ws[|ws| - 1].status == Delivered <==> exists i :: 0 <= i < n && net(i).Accepted?)
            && (ws[|ws| - 1].status == DeadLetter <==> forall i :: 0 <= i < n ==> net(i).Rejected?)
            && ws[|ws| - 1].attempts == Attempts(net, n) <= n
  {
    var k := FirstAccepted(net, 0, n);
    if k < n {
      assert net(k).Accepted?;
    }
  }

  /** With the default table, one to five attempts wait 0, 1, 6, 36 and 156 seconds in all. */
  lemma DefaultWait(attempts: nat)
    requires attempts <= |DEFAULT_BACKOFF|
    ensures |DEFAULT_BACKOFF| == 5
    ensures Sum(DEFAULT_BACKOFF[..attempts]) ==
            if attempts <= 1 then 0 else if attempts == 2 then 1 else if attempts == 3 then 6
            else if attempts == 4 then 36 else 156
  {
    SumPrefix(DEFAULT_BACKOFF, 0);
    SumPrefix(DEFAULT_BACKOFF, 1);
    SumPrefix(DEFAULT_BACKOFF, 2);
    SumPrefix(DEFAULT_BACKOFF, 3);
    SumPrefix(DEFAULT_BACKOFF, 4);
    assert DEFAULT_BACKOFF[..0] == [];
  }

  lemma SumPrefix(delays: seq<nat>, k: nat)
    requires k < |delays|
    ensures Sum(delays[..k + 1]) == Sum(delays[..k]) + delays[k]
  {
    assert delays[..k + 1][..k] == delays[..k];
  }

  // ---------------------------------------------------------------- what one emission does

  /** The table after the records of the first `n` URLs have been created, creation i being lost when `faults(i)`. */
  function CreateRecords(t: Table, jobs: seq<Job>, faults: nat -> bool): Table
    requires t.Valid()
    ensures CreateRecords(t, jobs, faults).Valid()
    ensures HintsCountUp(t) ==> HintsCountUp(CreateRecords(t, jobs, faults))
  {
    if jobs == [] then t else
    var before, job := CreateRecords(t, jobs[..|jobs| - 1], faults), jobs[|jobs| - 1];
    assert HintsCountUp(before) ==> HintsCountUp(Create(before, RecordFor(job))) by {
      if HintsCountUp(before) { CreateKeepsCounting(before, RecordFor(job)); }
    }
    if faults(|jobs| - 1) then before else Create(before, RecordFor(job))
  }

  /** One job per URL, all carrying the one letter. */
  function JobsFor(letter: Letter, urls: seq<string>, ids: nat -> string): (jobs: seq<Job>)
    ensures |jobs| == |urls|
    ensures forall i :: 0 <= i < |urls| ==> jobs[i].id == ids(i) && jobs[i].parcel == Parcel(letter, urls[i])
  {
    seq(|urls|, i requires 0 <= i < |urls| => Job(ids(i), Parcel(letter, urls[i])))
  }

  /** The id is new, and given to one URL only. */
  ghost predicate FreshFor(t: Table, ids: nat -> string, n: nat, i: nat) {
    ids(i) !in t.rows && forall j :: 0 <= j < n && j != i ==> ids(j) != ids(i)
  }

  /** Every creation that is not lost leaves a pending record of the letter and its URL, and no other record
      changes. */
  ghost predicate Recorded(was: Table, now: Table, letter: Letter, urls: seq<string>, ids: nat -> string,
                           faults: nat -> bool) {
    && (forall d :: d in was.rows ==> d in now.rows && now.rows[d] == was.rows[d])
    && forall i :: 0 <= i < |urls| && FreshFor(was, ids, |urls|, i) ==>
         (ids(i) in now.rows <==> !faults(i))
         && (!faults(i) ==>
               var hint := now.rows[ids(i)].sequenceHint;
               now.rows[ids(i)] == Record(ids(i), letter.eventId, letter.eventType, urls[i], letter.aggregateKey,
                                          letter.body, letter.signature, Pending, 0, "", hint))
  }

  ghost predicate FreshJob(t: Table, jobs: seq<Job>, i: nat)
    requires i < |jobs|
  {
    jobs[i].id !in t.rows && forall j :: 0 <= j < |jobs| && j != i ==> jobs[j].id != jobs[i].id
  }

  /** The job has its record, as an insertion leaves it. */
  predicate HasRecord(now: Table, job: Job) {
    job.id in now.rows && now.rows[job.id] == Inserted(RecordFor(job), now.rows[job.id].sequenceHint)
  }

  /** From `t`, the creations for these jobs have led to `now`. */
  ghost predicate CreatedFor(t: Table, now: Table, jobs: seq<Job>, faults: nat -> bool) {
    && (forall d :: d in t.rows ==> d in now.rows && now.rows[d] == t.rows[d])
    && (forall d :: d in now.rows ==> d in t.rows || exists i :: 0 <= i < |jobs| && d == jobs[i].id)
    && (forall i :: 0 <= i < |jobs| && FreshJob(t, jobs, i) ==>
          if faults(i) then jobs[i].id !in now.rows else HasRecord(now, jobs[i]))
  }

  lemma OneMoreCreated(t: Table, before: Table, now: Table, earlier: seq<Job>, job: Job, faults: nat -> bool,
                       jobs: seq<Job>)
    requires t.Valid() && before.Valid() && CreatedFor(t, before, earlier, faults) && jobs == earlier + [job]
    requires now == if faults(|earlier|) then before else Create(before, RecordFor(job))
    ensures CreatedFor(t, now, jobs, faults)
  {
    RowsStay(before, now, job, faults(|earlier|));
    KnownIds(t, before, now, earlier, job, jobs);
    forall i | 0 <= i < |jobs| && FreshJob(t, jobs, i)
      ensures if faults(i) then jobs[i].id !in now.rows else HasRecord(now, jobs[i])
    {
      JobCreated(t, before, now, earlier, job, faults, jobs, i);
    }
  }

  lemma RowsStay(before: Table, now: Table, job: Job, fault: bool)
    requires before.Valid() && now == if fault then before else Create(before, RecordFor(job))
    ensures forall d :: d in before.rows ==> d in now.rows && now.rows[d] == before.rows[d]
    ensures now.rows.Keys <= before.rows.Keys + {job.id}
  {
  }

  lemma JobCreated(t: Table, before: Table, now: Table, earlier: seq<Job>, job: Job, faults: nat -> bool,
                   jobs: seq<Job>, i: nat)
    requires before.Valid() && now == if faults(|earlier|) then before else Create(before, RecordFor(job))
    requires jobs == earlier + [job] && i < |jobs| && FreshJob(t, jobs, i)
    requires forall d :: d in before.rows ==> d in t.rows || exists i :: 0 <= i < |earlier| && d == earlier[i].id
    requires i < |earlier| && FreshJob(t, earlier, i) ==>
               if faults(i) then earlier[i].id !in before.rows else HasRecord(before, earlier[i])
    ensures if faults(i) then jobs[i].id !in now.rows else HasRecord(now, jobs[i])
  {
    FreshBefore(t, earlier, job, jobs, i);
    if i == |earlier| {
      LastCreated(t, before, now, earlier, job, faults(i));
    } else {
      EarlierStays(before, now, job, faults(|earlier|), earlier[i]);
    }
  }

  lemma LastCreated(t: Table, before: Table, now: Table, earlier: seq<Job>, job: Job, fault: bool)
    requires before.Valid() && now == if fault then before else Create(before, RecordFor(job))
    requires job.id !in t.rows && forall j :: 0 <= j < |earlier| ==> earlier[j].id != job.id
    requires forall d :: d in before.rows ==> d in t.rows || exists i :: 0 <= i < |earlier| && d == earlier[i].id
    ensures if fault then job.id !in now.rows else HasRecord(now, job)
  {
    assert job.id !in before.rows;
  }

  lemma EarlierStays(before: Table, now: Table, job: Job, fault: bool, other: Job)
    requires before.Valid() && now == if fault then before else Create(before, RecordFor(job))
    requires job.id != other.id
    ensures other.id in now.rows <==> other.id in before.rows
    ensures HasRecord(now, other) <==> HasRecord(before, other)
  {
  }

  lemma KnownIds(t: Table, before: Table, now: Table, earlier: seq<Job>, job: Job, jobs: seq<Job>)
    requires jobs == earlier + [job] && now.rows.Keys <= before.rows.Keys + {job.id}
    requires forall d :: d in before.rows ==> d in t.rows || exists i :: 0 <= i < |earlier| && d == earlier[i].id
    ensures forall d :: d in now.rows ==> d in t.rows || exists i :: 0 <= i < |jobs| && d == jobs[i].id
  {
    forall d | d in now.rows ensures d in t.rows || exists i :: 0 <= i < |jobs| && d == jobs[i].id {
      if d == job.id {
        assert jobs[|earlier|].id == d;
      } else if d !in t.rows {
        var i :| 0 <= i < |earlier| && d == earlier[i].id;
        assert jobs[i].id == d;
      }
    }
  }

  lemma FreshBefore(t: Table, earlier: seq<Job>, job: Job, jobs: seq<Job>, i: nat)
    requires jobs == earlier + [job] && i < |jobs| && FreshJob(t, jobs, i)
    ensures i < |earlier| ==> jobs[i] == earlier[i] && FreshJob(t, earlier, i) && job.id != earlier[i].id
    ensures i == |earlier| ==> jobs[i] == job && forall j :: 0 <= j < |earlier| ==> earlier[j].id != job.id
  {
    assert forall j :: 0 <= j < |earlier| ==> earlier[j] == jobs[j];
    assert jobs[|earlier|] == job;
  }

  lemma {:induction false} RecordsCreated(t: Table, jobs: seq<Job>, faults: nat -> bool)
    requires t.Valid()
    ensures CreatedFor(t, CreateRecords(t, jobs, faults), jobs, faults)
  {
    if jobs == [] {
    } else {
      var earlier, job := jobs[..|jobs| - 1], jobs[|jobs| - 1];
      RecordsCreated(t, earlier, faults);
      OneMoreCreated(t, CreateRecords(t, earlier, faults), CreateRecords(t, jobs, faults), earlier, job, faults, jobs);
    }
  }

  lemma AllRecorded(t: Table, letter: Letter, urls: seq<string>, ids: nat -> string, faults: nat -> bool)
    requires t.Valid()
    ensures Recorded(t, CreateRecords(t, JobsFor(letter, urls, ids), faults), letter, urls, ids, faults)
  {
    var jobs := JobsFor(letter, urls, ids);
    RecordsCreated(t, jobs, faults);
    forall i | 0 <= i < |urls| && FreshFor(t, ids, |urls|, i) ensures FreshJob(t, jobs, i) {
      assert jobs[i].id == ids(i);
    }
  }

  datatype ReplayError = NoStore | Unknown | ReadFailed | NotDeadLetter | ResetFailed

  class Dispatcher {
    const urls: seq<string>
    const secret: string
    const mac: Mac
    const store: SqlStore?
    const backoff: seq<nat>
    /** The deliveries started so far, each in its own goroutine. */
    var started: seq<Job>

    ghost predicate Valid()
      reads this, store
    {
      store != null ==> store.Valid()
    }

    constructor (urls: seq<string>, secret: string, mac: Mac, store: SqlStore?)
      requires store != null ==> store.Valid()
      ensures Valid() && started == []
      ensures this.urls == urls && this.secret == secret && this.mac == mac && this.store == store
      ensures backoff == DEFAULT_BACKOFF
    {
      this.urls, this.secret, this.mac, this.store := urls, secret, mac, store;
      backoff, started := DEFAULT_BACKOFF, [];
    }

    /** Every record created and every delivery started carries the one signed letter of this call. */
    method Emit(src: Source, ids: nat -> string, faults: nat -> bool)
      requires Valid()
      modifies this, store
      ensures Valid()
      ensures urls == [] ==> started == old(started) && (store != null ==> store.View() == old(store.View()))
      ensures urls != [] ==>
        var letter := Sign(mac, secret, Unsigned(src));
        && letter.Some? && LetterFor(mac, secret, src, letter.value)
        && var jobs := JobsFor(letter.value, urls, ids);
           && started == old(started) + jobs
           && (store != null ==>
                 && store.View() == CreateRecords(old(store.View()), jobs, faults)
                 && Recorded(old(store.View()), store.View(), letter.value, urls, ids, faults))
    {
      if |urls| == 0 {
        return;
      }
      SignedVerifies(mac, secret, src);
      var letter := Sign(mac, secret, Unsigned(src)).value;
      SendToAll(letter, ids, faults);
      if store != null {
        AllRecorded(old(store.View()), letter, urls, ids, faults);
      }
    }

    /** For every URL: persist the record, then start the delivery whether or not that worked. */
    method SendToAll(letter: Letter, ids: nat -> string, faults: nat -> bool)
      requires Valid()
      modifies this, store
      ensures Valid()
      ensures started == old(started) + JobsFor(letter, urls, ids)
      ensures store != null ==> store.View() == CreateRecords(old(store.View()), JobsFor(letter, urls, ids), faults)
    {
      ghost var jobs := JobsFor(letter, urls, ids);
      for i := 0 to |urls|
        invariant Valid()
        invariant started == old(started) + jobs[..i]
        invariant store != null ==> store.View() == CreateRecords(old(store.View()), jobs[..i], faults)
      {
        assert jobs[..i + 1][..i] == jobs[..i];
        var job := Job(ids(i), Parcel(letter, urls[i]));
        if store != null {
          var _ := store.CreateDelivery(RecordFor(job), faults(i));
        }
        started := started + [job];
        assert jobs[..i + 1] == jobs[..i] + [job];
      }
      assert jobs[..|urls|] == jobs;
    }

    /** Only a dead letter is re-armed; it goes back to pending keeping its attempt count, and one
        delivery of the stored parcel starts. In every other case nothing changes. */
    method Replay(id: string, readFault: bool, writeFault: bool) returns (r: Result<(), ReplayError>)
      requires Valid()
      modifies this, store
      ensures Valid()
      ensures r == if store == null then Err(NoStore)
                   else if readFault then Err(ReadFailed)
                   else if id !in old(store.rows) then Err(Unknown)
                   else if old(store.rows)[id].status != DeadLetter then Err(NotDeadLetter)
                   else if writeFault then Err(ResetFailed)
                   else Ok(())
      ensures r.Err? ==> started == old(started) && (store != null ==> store.View() == old(store.View()))
      ensures r.Ok? ==>
        && store != null && id in old(store.rows)
        && var row := old(store.rows)[id];
           && started == old(started) + [Job(id, ParcelOf(row))]
           && store.View() == Update(old(store.View()), id, Pending, row.attemptCount, "")
    {
      if store == null {
        return Err(NoStore);
      }
      var got := store.GetDelivery(id, readFault);
      if got.Err? {
        return Err(if got.error == NotFound then Unknown else ReadFailed);
      }
      if got.value.status != DeadLetter {
        return Err(NotDeadLetter);
      }
      var ok := store.UpdateDelivery(id, Pending, got.value.attemptCount, "", writeFault);
      if !ok {
        return Err(ResetFailed);
      }
      started := started + [Job(id, ParcelOf(got.value))];
      return Ok(());
    }

    /** The retry loop. It needs at least one attempt: with none there is no last error to record. */
    method Deliver(job: Job, net: nat -> Outcome, faults: nat -> bool) returns (sent: seq<Sent>, slept: nat)
      requires Valid() && backoff != []
      modifies store
      ensures Valid()
      ensures |sent| == Attempts(net, |backoff|)
      ensures forall i :: 0 <= i < |sent| ==> sent[i] == SentBy(job.parcel)
      ensures slept == Sum(backoff[..|sent|])
      ensures store != null ==>
        store.View() == Written(old(store.View()), job.id, DeliverWrites(net, |backoff|), faults)
    {
      sent, slept := [], 0;
      ghost var was := if store == null then EMPTY else store.View();
      var lastErr: Option<string> := None;
      for attempt := 0 to |backoff|
        invariant Valid()
        invariant forall i :: 0 <= i < attempt ==> net(i).Rejected?
        invariant |sent| == attempt && forall i :: 0 <= i < |sent| ==> sent[i] == SentBy(job.parcel)
        invariant slept == Sum(backoff[..attempt])
        invariant attempt > 0 ==> lastErr == Some(net(attempt - 1).error)
        invariant store != null ==> store.View() == Written(was, job.id, Failures(net, attempt), faults)
      {
        SumPrefix(backoff, attempt);
        slept := slept + backoff[attempt];
        sent := sent + [SentBy(job.parcel)];
        match net(attempt)
        case Accepted =>
          PersistStatus(job.id, Write(Delivered, attempt + 1, ""), faults(attempt));
          FirstAcceptedIs(net, attempt, |backoff|);
          VerdictWritten(was, job.id, net, attempt, |backoff|, faults);
          return;
        case Rejected(error) =>
          lastErr := Some(error);
          PersistStatus(job.id, Write(Failed, attempt + 1, error), faults(attempt));
          FailureWritten(was, job.id, net, attempt, faults);
      }
      PersistStatus(job.id, Write(DeadLetter, |backoff|, lastErr.value), faults(|backoff|));
      FirstAcceptedIs(net, |backoff|, |backoff|);
      VerdictWritten(was, job.id, net, |backoff|, |backoff|, faults);
    }

    /** Errors of the store are logged and dropped. */
    method PersistStatus(id: string, w: Write, fault: bool)
      requires Valid()
      modifies store
      ensures Valid()
      ensures store != null ==> store.View() == Persisted(old(store.View()), id, w, fault)
    {
      if store != null && id != "" {
        var _ := store.UpdateDelivery(id, w.status, w.attempts, w.error, fault);
      }
    }
  }
}
