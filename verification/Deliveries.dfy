/**
 The webhook delivery table: one record per (event, URL), created pending, updated in place,
 with a sequence hint per aggregate key. Two stores implement it: the SQL one, which assigns
 MAX(sequence_hint) + 1, and the in-memory one, which keeps a counter per key.
 */
module Deliveries {
  import opened Wrappers

  datatype Status = Pending | Delivered | Failed | DeadLetter

  datatype Record = Record(
    deliveryId: string, eventId: string, eventType: string, targetUrl: string,
    aggregateKey: string, payload: string, signature: string,
    status: Status, attemptCount: nat, lastError: string, sequenceHint: nat)

  /** The table's rows by primary key, and those keys in the order in which they were inserted. */
  datatype Table = Table(order: seq<string>, rows: map<string, Record>) {
    ghost predicate Valid() {
      && (forall d :: d in order <==> d in rows)
      && (forall i, j :: 0 <= i < j < |order| ==> order[i] != order[j])
      && (forall d :: d in rows ==> rows[d].deliveryId == d)
    }
  }

  const EMPTY := Table([], map[])

  /** The sequence hints of the rows of one aggregate key, in creation order. */
  function Hints(order: seq<string>, rows: map<string, Record>, key: string): seq<nat>
    requires forall d :: d in order ==> d in rows
  {
    if order == [] then [] else
    var last := rows[order[|order| - 1]];
    var earlier := Hints(order[..|order| - 1], rows, key);
    if last.aggregateKey == key then earlier + [last.sequenceHint] else earlier
  }

  /** COALESCE(MAX(hint), 0). */
  function MaxHint(hints: seq<nat>): nat {
    if hints == [] then 0 else
    var last, earlier := hints[|hints| - 1], MaxHint(hints[..|hints| - 1]);
    if last > earlier then last else earlier
  }

  function NextHint(t: Table, key: string): nat
    requires t.Valid()
  {
    MaxHint(Hints(t.order, t.rows, key)) + 1
  }

  /** The row an INSERT stores: pending, no attempts, no error, whatever the caller's record says. */
  function Inserted(r: Record, hint: nat): Record {
    r.(status := Pending, attemptCount := 0, lastError := "", sequenceHint := hint)
  }

  /** INSERT: refused, leaving the table alone, when the primary key is taken. */
  function Create(t: Table, r: Record): (t': Table)
    requires t.Valid()
    ensures t'.Valid() && t'.rows.Keys == t.rows.Keys + {r.deliveryId}
  {
    if r.deliveryId in t.rows then t
    else Table(t.order + [r.deliveryId],
               t.rows[r.deliveryId := Inserted(r, NextHint(t, r.aggregateKey))])
  }

  /** UPDATE .. WHERE delivery_id: a missing row is no error and no change. */
  function Update(t: Table, id: string, status: Status, attempts: nat, error: string): (t': Table)
    ensures t'.rows.Keys == t.rows.Keys
    ensures t.Valid() ==> t'.Valid()
  {
    if id in t.rows
    then t.(rows := t.rows[id := t.rows[id].(status := status, attemptCount := attempts, lastError := error)])
    else t
  }

  // ---------------------------------------------------------------- sequence hints

  /** The hints of a key are 1, 2, .., m. */
  ghost predicate CountsUp(hints: seq<nat>) {
    forall i :: 0 <= i < |hints| ==> hints[i] == i + 1
  }

  ghost predicate HintsCountUp(t: Table)
    requires t.Valid()
  {
    forall key :: CountsUp(Hints(t.order, t.rows, key))
  }

  lemma {:induction false} CountsUpMax(hints: seq<nat>)
    requires CountsUp(hints)
    ensures MaxHint(hints) == |hints|
  {
    if hints == [] {
    } else {
      CountsUpMax(hints[..|hints| - 1]);
    }
  }

  /** Hints read only the aggregate keys and hints of the listed rows. */
  lemma {:induction false} HintsFrame(order: seq<string>, rows: map<string, Record>, rows': map<string, Record>,
                                      key: string)
    requires forall d :: d in order ==> d in rows && d in rows'
    requires forall d :: d in order ==> rows'[d].aggregateKey == rows[d].aggregateKey
    requires forall d :: d in order ==> rows'[d].sequenceHint == rows[d].sequenceHint
    ensures Hints(order, rows', key) == Hints(order, rows, key)
  {
    if order == [] {
    } else {
      HintsFrame(order[..|order| - 1], rows, rows', key);
    }
  }

  /** An insertion extends its own key's hints by the next number and leaves other keys' hints alone. */
  lemma CreateHints(t: Table, r: Record, key: string)
    requires t.Valid() && r.deliveryId !in t.rows
    ensures var t' := Create(t, r);
            Hints(t'.order, t'.rows, key)
              == if key == r.aggregateKey then Hints(t.order, t.rows, key) + [NextHint(t, key)]
                 else Hints(t.order, t.rows, key)
  {
    var t' := Create(t, r);
    assert t'.order[..|t'.order| - 1] == t.order;
    HintsFrame(t.order, t.rows, t'.rows, key);
  }

  lemma CountsUpOneMore(hints: seq<nat>, hints': seq<nat>)
    requires CountsUp(hints) && (hints' == hints || hints' == hints + [MaxHint(hints) + 1])
    ensures CountsUp(hints')
  {
    CountsUpMax(hints);
  }

  lemma NextIsCount(t: Table, key: string)
    requires t.Valid() && HintsCountUp(t)
    ensures NextHint(t, key) == |Hints(t.order, t.rows, key)| + 1
  {
    CountsUpMax(Hints(t.order, t.rows, key));
  }

  lemma CreateKeepsKeyCounting(t: Table, r: Record, key: string)
    requires t.Valid() && r.deliveryId !in t.rows && CountsUp(Hints(t.order, t.rows, key))
    ensures CountsUp(Hints(Create(t, r).order, Create(t, r).rows, key))
  {
    var hints, hints' := Hints(t.order, t.rows, key), Hints(Create(t, r).order, Create(t, r).rows, key);
    CreateHints(t, r, key);
    assert hints' == hints || hints' == hints + [NextHint(t, key)];
    CountsUpOneMore(hints, hints');
  }

  lemma CreateKeepsCounting(t: Table, r: Record)
    requires t.Valid() && HintsCountUp(t)
    ensures HintsCountUp(Create(t, r))
  {
    if r.deliveryId !in t.rows {
      forall key ensures CountsUp(Hints(Create(t, r).order, Create(t, r).rows, key)) {
        CreateKeepsKeyCounting(t, r, key);
      }
    }
  }

  lemma UpdateKeepsCounting(t: Table, id: string, status: Status, attempts: nat, error: string)
    requires t.Valid() && HintsCountUp(t)
    ensures var t' := Update(t, id, status, attempts, error);
            && t'.Valid() && HintsCountUp(t')
            && forall key :: Hints(t'.order, t'.rows, key) == Hints(t.order, t.rows, key)
  {
    var t' := Update(t, id, status, attempts, error);
    forall key ensures Hints(t'.order, t'.rows, key) == Hints(t.order, t.rows, key) {
      HintsFrame(t.order, t.rows, t'.rows, key);
    }
  }

  // ---------------------------------------------------------------- the in-memory store

  /** The in-memory store: records by id and one counter per aggregate key. */
  datatype Memory = Memory(records: map<string, Record>, seqs: map<string, nat>)

  const NO_RECORDS := Memory(map[], map[])

  function Counter(m: Memory, key: string): nat {
    if key in m.seqs then m.seqs[key] else 0
  }

  function MemoryCreate(m: Memory, r: Record): Memory {
    var hint := Counter(m, r.aggregateKey) + 1;
    Memory(m.records[r.deliveryId := r.(sequenceHint := hint)], m.seqs[r.aggregateKey := hint])
  }

  function MemoryUpdate(m: Memory, id: string, status: Status, attempts: nat, error: string): Memory {
    if id in m.records
    then m.(records := m.records[id := m.records[id].(status := status, attemptCount := attempts, lastError := error)])
    else m
  }

  datatype StoreCall =
    | Creating(record: Record)
    | Updating(id: string, status: Status, attempts: nat, error: string)

  /** Records as the dispatcher creates them, each id used for one creation only. */
  ghost predicate FreshCreations(calls: seq<StoreCall>) {
    && (forall i :: 0 <= i < |calls| && calls[i].Creating? ==> calls[i].record == Inserted(calls[i].record, 0))
    && (forall i, j :: 0 <= i < j < |calls| && calls[i].Creating? && calls[j].Creating?
          ==> calls[i].record.deliveryId != calls[j].record.deliveryId)
  }

  function TableAfter(calls: seq<StoreCall>): (t: Table)
    ensures t.Valid() && HintsCountUp(t)
    ensures forall d :: d in t.rows ==>
      exists i :: 0 <= i < |calls| && calls[i].Creating? && calls[i].record.deliveryId == d
  {
    if calls == [] then EMPTY else
    var t, last := TableAfter(calls[..|calls| - 1]), calls[|calls| - 1];
    match last
    case Creating(r) => CreateKeepsCounting(t, r); Create(t, r)
    case Updating(id, status, attempts, error) =>
      UpdateKeepsCounting(t, id, status, attempts, error); Update(t, id, status, attempts, error)
  }

  function MemoryAfter(calls: seq<StoreCall>): Memory {
    if calls == [] then NO_RECORDS else
    var m, last := MemoryAfter(calls[..|calls| - 1]), calls[|calls| - 1];
    match last
    case Creating(r) => MemoryCreate(m, r)
    case Updating(id, status, attempts, error) => MemoryUpdate(m, id, status, attempts, error)
  }

  /** The two stores hold the same rows, and the counter of `key` is the greatest hint of its rows. */
  ghost predicate Agree(t: Table, m: Memory, key: string)
    requires t.Valid()
  {
    && m.records == t.rows
    && var hints := Hints(t.order, t.rows, key);
       Counter(m, key) == |hints| == MaxHint(hints)
  }

  /** One creation of a fresh record keeps the stores in agreement: MAX + 1 is the next count. */
  lemma CreateAgrees(t: Table, m: Memory, r: Record, key: string)
    requires t.Valid() && HintsCountUp(t)
    requires r == Inserted(r, 0) && r.deliveryId !in t.rows
    requires Agree(t, m, key) && Agree(t, m, r.aggregateKey)
    ensures Agree(Create(t, r), MemoryCreate(m, r), key)
  {
    CreateHints(t, r, key);
    AgreeOneMore(Hints(t.order, t.rows, key), Hints(Create(t, r).order, Create(t, r).rows, key));
    SameRecord(t, m, r);
  }

  lemma SameRecord(t: Table, m: Memory, r: Record)
    requires t.Valid() && HintsCountUp(t) && r == Inserted(r, 0) && r.deliveryId !in t.rows
    requires Agree(t, m, r.aggregateKey)
    ensures MemoryCreate(m, r).records == Create(t, r).rows
  {
    NextIsCount(t, r.aggregateKey);
  }

  lemma AgreeOneMore(hints: seq<nat>, hints': seq<nat>)
    requires CountsUp(hints) && (hints' == hints || hints' == hints + [MaxHint(hints) + 1])
    ensures MaxHint(hints) == |hints| && MaxHint(hints') == |hints'|
  {
    CountsUpOneMore(hints, hints');
    CountsUpMax(hints);
    CountsUpMax(hints');
  }

  /** After every sequence of calls the two stores hold the same rows, hints included. */
  lemma {:induction false} StoresAgree(calls: seq<StoreCall>, key: string)
    requires FreshCreations(calls)
    ensures Agree(TableAfter(calls), MemoryAfter(calls), key)
  {
    if calls == [] {
    } else {
      var earlier, last := calls[..|calls| - 1], calls[|calls| - 1];
      assert FreshCreations(earlier);
      StoresAgree(earlier, key);
      var t, m := TableAfter(earlier), MemoryAfter(earlier);
      match last
      case Creating(r) =>
        StoresAgree(earlier, r.aggregateKey);
        assert r.deliveryId !in t.rows;
        CreateAgrees(t, m, r, key);
      case Updating(id, status, attempts, error) =>
        UpdateAgrees(t, m, id, status, attempts, error, key);
    }
  }

  lemma UpdateAgrees(t: Table, m: Memory, id: string, status: Status, attempts: nat, error: string, key: string)
    requires t.Valid() && HintsCountUp(t) && Agree(t, m, key)
    ensures Agree(Update(t, id, status, attempts, error), MemoryUpdate(m, id, status, attempts, error), key)
  {
    UpdateKeepsCounting(t, id, status, attempts, error);
  }

  // ---------------------------------------------------------------- the stores as objects

  datatype StoreError = NotFound | AlreadyExists | Unavailable

  /** The SQL store. `fault` says that the database refuses the statement, which then has no effect. */
  class SqlStore {
    var order: seq<string>
    var rows: map<string, Record>

    ghost function View(): Table
      reads this
    {
      Table(order, rows)
    }

    ghost predicate Valid()
      reads this
    {
      View().Valid() && HintsCountUp(View())
    }

    constructor ()
      ensures Valid() && View() == EMPTY
    {
      order, rows := [], map[];
    }

    method CreateDelivery(r: Record, fault: bool) returns (hint: Result<nat, StoreError>)
      requires Valid()
      modifies this
      ensures Valid()
      ensures hint == if fault then Err(Unavailable)
                      else if r.deliveryId in old(rows) then Err(AlreadyExists)
                      else Ok(|Hints(old(order), old(rows), r.aggregateKey)| + 1)
      ensures View() == if fault then old(View()) else Create(old(View()), r)
    {
      if fault {
        return Err(Unavailable);
      }
      if r.deliveryId in rows {
        return Err(AlreadyExists);
      }
      CreateKeepsCounting(View(), r);
      NextIsCount(View(), r.aggregateKey);
      var next := NextHint(Table(order, rows), r.aggregateKey);
      order, rows := order + [r.deliveryId], rows[r.deliveryId := Inserted(r, next)];
      return Ok(next);
    }

    method UpdateDelivery(id: string, status: Status, attempts: nat, error: string, fault: bool)
      returns (ok: bool)
      requires Valid()
      modifies this
      ensures Valid()
      ensures ok == !fault
      ensures View() == if fault then old(View()) else Update(old(View()), id, status, attempts, error)
    {
      ok := !fault;
      if ok && id in rows {
        UpdateKeepsCounting(View(), id, status, attempts, error);
        rows := rows[id := rows[id].(status := status, attemptCount := attempts, lastError := error)];
      }
    }

    method GetDelivery(id: string, fault: bool) returns (r: Result<Record, StoreError>)
      ensures r == if fault then Err(Unavailable) else if id in rows then Ok(rows[id]) else Err(NotFound)
    {
      if fault {
        return Err(Unavailable);
      }
      return if id in rows then Ok(rows[id]) else Err(NotFound);
    }
  }

  /** The in-memory store, whose update does report a missing record. */
  class MemStore {
    var records: map<string, Record>
    var seqs: map<string, nat>

    ghost function View(): Memory
      reads this
    {
      Memory(records, seqs)
    }

    constructor ()
      ensures View() == NO_RECORDS
    {
      records, seqs := map[], map[];
    }

    method CreateDelivery(r: Record) returns (hint: nat)
      modifies this
      ensures View() == MemoryCreate(old(View()), r)
      ensures hint == Counter(View(), r.aggregateKey) == Counter(old(View()), r.aggregateKey) + 1
    {
      hint := (if r.aggregateKey in seqs then seqs[r.aggregateKey] else 0) + 1;
      seqs := seqs[r.aggregateKey := hint];
      records := records[r.deliveryId := r.(sequenceHint := hint)];
    }

    method UpdateDelivery(id: string, status: Status, attempts: nat, error: string) returns (ok: bool)
      modifies this
      ensures ok == (id in old(records))
      ensures View() == MemoryUpdate(old(View()), id, status, attempts, error)
    {
      ok := id in records;
      if ok {
        records := records[id := records[id].(status := status, attemptCount := attempts, lastError := error)];
      }
    }
  }
}
