/**
 Promotion and rollback of channels, one call after another: what each call does to the tables, and
 what every run of calls keeps. Database faults, the clock and the order of equal texts in a listing
 come with each call.
 */
module Channels {
  import opened Catalog
  import opened Ordering
  import opened Text
  import opened Timestamps
  import opened Versions
  import opened Wrappers

  /** Which of the statements of a promotion fail: finding the artifact, reading the channels row, saving. */
  datatype Faults = Faults(find: bool, read: bool, save: bool)

  const NO_FAULTS := Faults(false, false, false)

  /** A failed read of the channels row counts as no row. */
  function PreviousOf(db: Db, key: ChannelKey, readFault: bool): string {
    if key in db.channels && !readFault then db.channels[key].version else ""
  }

  /** The row that a promotion saves, or why there is none. */
  function Promotion(db: Db, key: ChannelKey, version: string, actor: string, now: Instant, faults: Faults)
    : Result<Pointer, Error>
  {
    var v := NormalizeVersion(version);
    if v.Err? then Err(Error.InvalidVersion)
    else if faults.find then Err(StoreFailed)
    else
      var artifact := ArtifactKey(key.artifactType, key.name, v.value);
      if artifact !in db.artifacts then Err(NotFound)
      else if faults.save then Err(StoreFailed)
      else Ok(Pointer(key, v.value, db.artifacts[artifact].id, PreviousOf(db, key, faults.read), now, actor))
  }

  /** The second row of the listing is promoted, through a normalisation of its version. */
  function RollbackOf(db: Db, key: ChannelKey, actor: string, now: Instant, listing: seq<Pointer>, faults: Faults)
    : Result<Pointer, Error>
  {
    if |listing| < 2 then Err(NoChannelHistory)
    else Promotion(db, key, listing[1].version, actor, now, faults)
  }

  datatype Call =
    | Promoting(key: ChannelKey, version: string, actor: string, now: Instant, faults: Faults)
    | RollingBack(key: ChannelKey, actor: string, now: Instant, listing: seq<Pointer>, faults: Faults)

  ghost predicate Lists(db: Db, key: ChannelKey, listing: seq<Pointer>) {
    Listing(KeyHistory(db.history, key), listing, Stored)
  }

  /** The listing a rollback is given is one the database may return. */
  ghost predicate Legal(db: Db, call: Call) {
    call.RollingBack? ==> Lists(db, call.key, call.listing)
  }

  function ResultOf(db: Db, call: Call): Result<Pointer, Error> {
    match call
    case Promoting(key, version, actor, now, faults) => Promotion(db, key, version, actor, now, faults)
    case RollingBack(key, actor, now, listing, faults) => RollbackOf(db, key, actor, now, listing, faults)
  }

  function Saved(db: Db, r: Result<Pointer, Error>): Db {
    if r.Ok? then SaveRow(db, r.value) else db
  }

  function After(db: Db, call: Call): Db {
    Saved(db, ResultOf(db, call))
  }

  ghost predicate Runs(db: Db, calls: seq<Call>)
    decreases |calls|
  {
    calls == [] || (Legal(db, calls[0]) && Runs(After(db, calls[0]), calls[1..]))
  }

  function AfterAll(db: Db, calls: seq<Call>): Db
    decreases |calls|
  {
    if calls == [] then db else AfterAll(After(db, calls[0]), calls[1..])
  }

  // ---------------------------------------------------------------- pointer, history and artifacts agree

  /** Each channels row is the highest-id history row of its key, and is there just when the key has history. */
  ghost predicate PointersAgree(db: Db) {
    forall key :: PointerAgrees(db, key)
  }

  ghost predicate PointerAgrees(db: Db, key: ChannelKey) {
    var rows := KeyHistory(db.history, key);
    && (key in db.channels <==> rows != [])
    && (rows != [] ==> db.channels[key] == rows[|rows| - 1])
  }

  /** The row names an artifact that exists, by type, name, version and id. */
  ghost predicate NamesArtifact(db: Db, row: Pointer) {
    var artifact := ArtifactKey(row.key.artifactType, row.key.name, row.version);
    artifact in db.artifacts && db.artifacts[artifact].id == row.artifactId
  }

  ghost predicate Referential(db: Db) {
    && (forall k :: k in db.artifacts ==> db.artifacts[k].key == k)
    && (forall i :: 0 <= i < |db.history| ==> NamesArtifact(db, db.history[i]))
    && (forall i {:trigger Normal(db.history[i].version)} :: 0 <= i < |db.history| ==> Normal(db.history[i].version))
  }

  ghost predicate Sound(db: Db) {
    PointersAgree(db) && Referential(db)
  }

  lemma {:induction false} KeyRowsAreRows(history: seq<Pointer>, key: ChannelKey)
    ensures forall i :: 0 <= i < |KeyHistory(history, key)| ==>
              KeyHistory(history, key)[i].key == key && KeyHistory(history, key)[i] in history
  {
    if history == [] {
    } else {
      KeyRowsAreRows(history[..|history| - 1], key);
      assert forall r :: r in history[..|history| - 1] ==> r in history;
    }
  }

  lemma KeyHistoryGrows(history: seq<Pointer>, row: Pointer, key: ChannelKey)
    ensures KeyHistory(history + [row], key)
              == if row.key == key then KeyHistory(history, key) + [row] else KeyHistory(history, key)
  {
    assert (history + [row])[..|history|] == history;
  }

  /** One save keeps pointer and history together for its own key and touches no other. */
  lemma SaveKeepsAgreement(db: Db, row: Pointer)
    requires PointersAgree(db)
    ensures PointersAgree(SaveRow(db, row))
  {
    forall key ensures PointerAgrees(SaveRow(db, row), key) {
      assert PointerAgrees(db, key);
      KeyHistoryGrows(db.history, row, key);
    }
  }

  /** Exactly when a promotion of a version as a caller spells it gives which answer, and the row it saves. */
  lemma PromotionOutcome(db: Db, key: ChannelKey, version: string, actor: string, now: Instant, faults: Faults)
    ensures var r := Promotion(db, key, version, actor, now, faults);
            var v := "v" + DropV(TrimSpace(version));
            var artifact := ArtifactKey(key.artifactType, key.name, v);
            && (r == Err(Error.InvalidVersion) <==> !Grammatical(version))
            && (r == Err(NotFound) <==> Grammatical(version) && !faults.find && artifact !in db.artifacts)
            && (r == Err(StoreFailed) <==>
                  Grammatical(version) && (faults.find || (faults.save && artifact in db.artifacts)))
            && (r.Ok? <==> Grammatical(version) && !faults.find && !faults.save && artifact in db.artifacts)
            && (r.Ok? ==>
                  var previous := if faults.read || key !in db.channels then "" else db.channels[key].version;
                  r.value == Pointer(key, v, db.artifacts[artifact].id, previous, now, actor))
  {
    NormalizeIs(version);
  }

  /** Spellings that agree once trimmed and rid of one leading v promote alike. */
  lemma SpellingsPromoteAlike(db: Db, key: ChannelKey, v: string, w: string, actor: string, now: Instant,
                              faults: Faults)
    requires DropV(TrimSpace(v)) == DropV(TrimSpace(w))
    ensures Promotion(db, key, v, actor, now, faults) == Promotion(db, key, w, actor, now, faults)
  {
    SpellingsAgree(v, w);
  }

  lemma PromotionNamesArtifact(db: Db, key: ChannelKey, version: string, actor: string, now: Instant, faults: Faults)
    requires Promotion(db, key, version, actor, now, faults).Ok?
    ensures var row := Promotion(db, key, version, actor, now, faults).value;
            NamesArtifact(db, row) && Normal(row.version) && row.key == key && row.version != ""
  {
    NormalizeIdempotent(version);
    NormalizedNotEmpty(version);
  }

  lemma CallRow(db: Db, call: Call)
    ensures var r := ResultOf(db, call);
            r.Ok? ==>
              && r.value.key == call.key && r.value.version != ""
              && r.value.previousVersion == PreviousOf(db, call.key, call.faults.read)
  {
    if ResultOf(db, call).Ok? {
      var version := if call.Promoting? then call.version else call.listing[1].version;
      PromotionNamesArtifact(db, call.key, version, call.actor, call.now, call.faults);
    }
  }

  lemma CallKeepsSound(db: Db, call: Call)
    requires Sound(db)
    ensures Sound(After(db, call))
  {
    CallRow(db, call);
    var r := ResultOf(db, call);
    if r.Ok? {
      var version := if call.Promoting? then call.version else call.listing[1].version;
      PromotionNamesArtifact(db, call.key, version, call.actor, call.now, call.faults);
      SaveKeepsAgreement(db, r.value);
      var db' := After(db, call);
      forall i | 0 <= i < |db'.history| ensures NamesArtifact(db', db'.history[i]) {
        if i < |db.history| {
          assert NamesArtifact(db, db.history[i]);
        }
      }
      forall i | 0 <= i < |db'.history| ensures Normal(db'.history[i].version) {
        if i < |db.history| {
          assert Normal(db.history[i].version);
        }
      }
    }
  }

  /** Over every run the pointers agree with the history and every row names an existing artifact. */
  lemma {:induction false} RunKeepsSound(db: Db, calls: seq<Call>)
    requires Sound(db)
    ensures Sound(AfterAll(db, calls))
    decreases |calls|
  {
    if calls == [] {
    } else {
      CallKeepsSound(db, calls[0]);
      RunKeepsSound(After(db, calls[0]), calls[1..]);
    }
  }

  /** A call leaves other keys' pointers and histories alone, and an unsuccessful one leaves everything alone. */
  lemma OtherKeysUntouched(db: Db, call: Call, key: ChannelKey)
    requires key != call.key || ResultOf(db, call).Err?
    ensures KeyHistory(After(db, call).history, key) == KeyHistory(db.history, key)
    ensures key in After(db, call).channels <==> key in db.channels
    ensures key in db.channels ==> After(db, call).channels[key] == db.channels[key]
  {
    CallRow(db, call);
    var r := ResultOf(db, call);
    if r.Ok? {
      KeyHistoryGrows(db.history, r.value, key);
    }
  }

  /** ResolveLatest: the artifact that the channel's current version names. */
  function Resolve(db: Db, key: ChannelKey): Result<Artifact, Error> {
    if key !in db.channels then Err(NotFound) else
    var artifact := ArtifactKey(key.artifactType, key.name, db.channels[key].version);
    if artifact in db.artifacts then Ok(db.artifacts[artifact]) else Err(NotFound)
  }

  lemma LastIsRow(db: Db, key: ChannelKey, i: nat)
    requires Sound(db) && i < |KeyHistory(db.history, key)|
    ensures NamesArtifact(db, KeyHistory(db.history, key)[i]) && KeyHistory(db.history, key)[i].key == key
    ensures Normal(KeyHistory(db.history, key)[i].version)
  {
    KeyRowsAreRows(db.history, key);
    var row := KeyHistory(db.history, key)[i];
    var j :| 0 <= j < |db.history| && db.history[j] == row;
    assert Normal(db.history[j].version);
  }

  /** A promoted channel always resolves, to the very artifact that its channels row names. */
  lemma PromotedResolves(db: Db, key: ChannelKey)
    requires Sound(db)
    ensures Resolve(db, key).Ok? <==> KeyHistory(db.history, key) != []
    ensures Resolve(db, key).Ok? ==>
      && Resolve(db, key).value.id == db.channels[key].artifactId
      && Resolve(db, key).value.key == ArtifactKey(key.artifactType, key.name, db.channels[key].version)
  {
    assert PointerAgrees(db, key);
    var rows := KeyHistory(db.history, key);
    if rows != [] {
      LastIsRow(db, key, |rows| - 1);
    }
  }

  /** Without database faults a rollback succeeds exactly when at least two promotions are recorded,
      whatever order the listing puts them in. */
  lemma RollbackSucceedsIff(db: Db, key: ChannelKey, actor: string, now: Instant, listing: seq<Pointer>)
    requires Sound(db) && Lists(db, key, listing)
    ensures RollbackOf(db, key, actor, now, listing, NO_FAULTS).Ok? <==> |KeyHistory(db.history, key)| >= 2
    ensures |KeyHistory(db.history, key)| >= 2 ==>
      && |listing| >= 2 && key in db.channels
      && RollbackOf(db, key, actor, now, listing, NO_FAULTS).value
           == Pointer(key, listing[1].version, listing[1].artifactId, db.channels[key].version, now, actor)
  {
    var rows := KeyHistory(db.history, key);
    SameLength(listing, rows);
    assert PointerAgrees(db, key);
    if |rows| >= 2 {
      assert listing[1] in multiset(listing);
      assert listing[1] in rows;
      var i :| 0 <= i < |rows| && rows[i] == listing[1];
      LastIsRow(db, key, i);
    }
  }

  // ---------------------------------------------------------------- the chain of versions

  /** Every row's previous version is the version of the key's row before it; the first has none. */
  ghost predicate Chained(rows: seq<Pointer>) {
    forall i :: 0 <= i < |rows| ==> Linked(rows, i)
  }

  predicate Linked(rows: seq<Pointer>, i: nat)
    requires i < |rows|
  {
    rows[i].previousVersion == if i == 0 then "" else rows[i - 1].version
  }

  function Current(db: Db, key: ChannelKey): string {
    if key in db.channels then db.channels[key].version else ""
  }

  lemma VersionsNotEmpty(db: Db, i: nat)
    requires Referential(db) && i < |db.history|
    ensures db.history[i].version != ""
  {
    assert Normal(db.history[i].version);
    NormalizedNotEmpty(db.history[i].version);
  }

  function LastVersion(rows: seq<Pointer>): string {
    if rows == [] then "" else rows[|rows| - 1].version
  }

  /** The current version is the last row's, and is empty only when there is no row. */
  ghost predicate CurrentAgrees(db: Db, key: ChannelKey) {
    var rows := KeyHistory(db.history, key);
    && (key in db.channels <==> rows != [])
    && Current(db, key) == LastVersion(rows)
    && (rows != [] ==> Current(db, key) != "")
  }

  lemma CurrentIsLast(db: Db, key: ChannelKey)
    requires Sound(db)
    ensures CurrentAgrees(db, key)
  {
    forall i | 0 <= i < |db.history| ensures db.history[i].version != "" {
      VersionsNotEmpty(db, i);
    }
    LastNotEmpty(db.history, key);
    assert PointerAgrees(db, key);
    AgreesByPointer(db, key);
  }

  lemma LastNotEmpty(history: seq<Pointer>, key: ChannelKey)
    requires forall i :: 0 <= i < |history| ==> history[i].version != ""
    ensures KeyHistory(history, key) != [] ==> LastVersion(KeyHistory(history, key)) != ""
  {
    KeyRowsAreRows(history, key);
    var rows := KeyHistory(history, key);
    if rows != [] {
      var j :| 0 <= j < |history| && history[j] == rows[|rows| - 1];
    }
  }

  lemma AgreesByPointer(db: Db, key: ChannelKey)
    requires PointerAgrees(db, key)
    requires KeyHistory(db.history, key) != [] ==> LastVersion(KeyHistory(db.history, key)) != ""
    ensures CurrentAgrees(db, key)
  {
  }

  /** The call saves a row although it could not read a pointer that is there. */
  predicate Forgets(db: Db, call: Call) {
    call.faults.read && call.key in db.channels && ResultOf(db, call).Ok?
  }

  /** No call of the run on this key forgets. */
  predicate Clean(db: Db, calls: seq<Call>, key: ChannelKey)
    decreases |calls|
  {
    calls == [] || (!(calls[0].key == key && Forgets(db, calls[0])) && Clean(After(db, calls[0]), calls[1..], key))
  }

  lemma RowsChain(rows: seq<Pointer>, row: Pointer)
    ensures Chained(rows + [row]) <==>
      Chained(rows) && row.previousVersion == LastVersion(rows)
  {
    var rows' := rows + [row];
    assert forall i :: 0 <= i < |rows| ==> (Linked(rows', i) <==> Linked(rows, i));
    assert Chained(rows') ==> Linked(rows', |rows|);
  }

  /** A row extends the chain exactly when it names the current version as the one before. */
  lemma RowChains(db: Db, row: Pointer)
    requires CurrentAgrees(db, row.key)
    ensures Chained(KeyHistory(SaveRow(db, row).history, row.key))
            <==> Chained(KeyHistory(db.history, row.key)) && row.previousVersion == Current(db, row.key)
  {
    KeyHistoryGrows(db.history, row, row.key);
    RowsChain(KeyHistory(db.history, row.key), row);
  }

  lemma SaveChains(db: Db, row: Pointer, readFault: bool)
    requires CurrentAgrees(db, row.key) && row.previousVersion == PreviousOf(db, row.key, readFault)
    ensures Chained(KeyHistory(SaveRow(db, row).history, row.key))
            <==> Chained(KeyHistory(db.history, row.key)) && !(readFault && row.key in db.channels)
  {
    RowChains(db, row);
  }

  lemma CallChains(db: Db, call: Call, key: ChannelKey)
    requires Sound(db)
    ensures Chained(KeyHistory(After(db, call).history, key))
            <==> Chained(KeyHistory(db.history, key)) && !(call.key == key && Forgets(db, call))
  {
    CallRow(db, call);
    if call.key != key || ResultOf(db, call).Err? {
      OtherKeysUntouched(db, call, key);
    } else {
      CurrentIsLast(db, key);
      SaveChains(db, ResultOf(db, call).value, call.faults.read);
    }
  }

  /** After any run of promotions and rollbacks on any keys, a key's history is a chain exactly when it was
      one before and no successful call on the key failed to read its pointer. */
  lemma {:induction false} ChainedIff(db: Db, calls: seq<Call>, key: ChannelKey)
    requires Sound(db)
    ensures Chained(KeyHistory(AfterAll(db, calls).history, key))
            <==> Chained(KeyHistory(db.history, key)) && Clean(db, calls, key)
    decreases |calls|
  {
    if calls == [] {
    } else {
      CallKeepsSound(db, calls[0]);
      CallChains(db, calls[0], key);
      ChainedIff(After(db, calls[0]), calls[1..], key);
    }
  }

  // ---------------------------------------------------------------- the events tell the same story

  /** What the handlers emit after a successful call: the version left behind and the version now active. */
  datatype ChannelEvent = ChannelEvent(key: ChannelKey, fromVersion: string, toVersion: string)

  function EventFor(row: Pointer): ChannelEvent {
    ChannelEvent(row.key, row.previousVersion, row.version)
  }

  function EventsOf(r: Result<Pointer, Error>): seq<ChannelEvent> {
    if r.Ok? then [EventFor(r.value)] else []
  }

  function Events(db: Db, calls: seq<Call>): seq<ChannelEvent>
    decreases |calls|
  {
    if calls == [] then [] else
    EventsOf(ResultOf(db, calls[0])) + Events(After(db, calls[0]), calls[1..])
  }

  /** A consumer that follows one key's events from a known version, and stops at one that does not fit. */
  function Follow(events: seq<ChannelEvent>, key: ChannelKey, current: string): Option<string> {
    if events == [] then Some(current)
    else if events[0].key != key then Follow(events[1..], key, current)
    else if events[0].fromVersion != current then None
    else Follow(events[1..], key, events[0].toVersion)
  }

  /** One call moves the followed version as it moves the channel, unless it forgets. */
  lemma CallFollows(db: Db, call: Call, rest: seq<ChannelEvent>, key: ChannelKey)
    requires Sound(db)
    ensures Follow(EventsOf(ResultOf(db, call)) + rest, key, Current(db, key))
            == if call.key == key && Forgets(db, call) then None else Follow(rest, key, Current(After(db, call), key))
  {
    CallRow(db, call);
    CurrentIsLast(db, key);
    FollowSaved(db, ResultOf(db, call), call.key, call.faults.read, rest, key);
  }

  lemma FollowSaved(db: Db, r: Result<Pointer, Error>, callKey: ChannelKey, readFault: bool,
                    rest: seq<ChannelEvent>, key: ChannelKey)
    requires r.Ok? ==> r.value.key == callKey && r.value.previousVersion == PreviousOf(db, callKey, readFault)
    requires key in db.channels ==> Current(db, key) != ""
    ensures Follow(EventsOf(r) + rest, key, Current(db, key))
            == if callKey == key && readFault && key in db.channels && r.Ok? then None
               else Follow(rest, key, Current(Saved(db, r), key))
  {
    if r.Ok? {
      assert (EventsOf(r) + rest)[1..] == rest;
    } else {
      assert EventsOf(r) + rest == rest;
    }
  }

  /** Following a key's events from its version before the run gives its version after it, and gets to the
      end exactly when no successful call failed to read the channels row. */
  lemma {:induction false} EventsReproducePointer(db: Db, calls: seq<Call>, key: ChannelKey)
    requires Sound(db)
    ensures Follow(Events(db, calls), key, Current(db, key))
            == if Clean(db, calls, key) then Some(Current(AfterAll(db, calls), key)) else None
    decreases |calls|
  {
    if calls == [] {
    } else {
      CallKeepsSound(db, calls[0]);
      EventsReproducePointer(After(db, calls[0]), calls[1..], key);
      CallFollows(db, calls[0], Events(After(db, calls[0]), calls[1..]), key);
    }
  }
}
