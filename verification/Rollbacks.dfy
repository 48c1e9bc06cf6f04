/**
 Rollback against its documentation: it swaps a channel's version with its previous version, so that
 rolling back twice returns to where one was. This holds as long as the history is listed newest first,
 for which module Catalog gives the exact condition on the times.
 */
module Rollbacks {
  import opened Catalog
  import opened Channels
  import opened Identifiers
  import opened Ordering
  import opened Timestamps
  import opened Versions
  import opened Wrappers
  import Uploads

  /** The tables agree, and the key has at least two history rows that form a chain. */
  ghost predicate CanRollBack(db: Db, key: ChannelKey) {
    var rows := KeyHistory(db.history, key);
    Sound(db) && |rows| >= 2 && Chained(rows)
  }

  lemma PointerIsLast(db: Db, key: ChannelKey)
    requires PointerAgrees(db, key)
    requires var rows := KeyHistory(db.history, key); |rows| >= 2 && Linked(rows, |rows| - 1)
    ensures var rows := KeyHistory(db.history, key);
            && key in db.channels && db.channels[key] == rows[|rows| - 1]
            && rows[|rows| - 2].version == db.channels[key].previousVersion
  {
  }

  /** With the history listed newest first, a rollback restores the previous version and makes the
      displaced one the previous: the log-based choice is the documented swap of the pointer. */
  lemma RollbackSwaps(db: Db, key: ChannelKey, actor: string, now: Instant, listing: seq<Pointer>)
    requires CanRollBack(db, key) && Lists(db, key, listing)
    requires Ascending(KeyHistory(db.history, key), Stored)
    ensures var r := RollbackOf(db, key, actor, now, listing, NO_FAULTS);
            && r.Ok? && key in db.channels
            && r.value.key == key && r.value.promotedAt == now
            && r.value.version == db.channels[key].previousVersion
            && r.value.previousVersion == db.channels[key].version
  {
    var rows := KeyHistory(db.history, key);
    ListingIsReverse(rows, listing, Stored);
    assert listing[1] == rows[|rows| - 2];
    RollbackSucceedsIff(db, key, actor, now, listing);
    assert PointerAgrees(db, key) && Linked(rows, |rows| - 1);
    PointerIsLast(db, key);
    CallRow(db, RollingBack(key, actor, now, listing, NO_FAULTS));
  }

  // ---------------------------------------------------------------- k rollbacks

  /** The run rolls the key back without faults and does nothing else to it; other keys are free. */
  predicate OnlyRollsBack(calls: seq<Call>, key: ChannelKey) {
    forall i :: 0 <= i < |calls| && calls[i].key == key ==> calls[i].RollingBack? && calls[i].faults == NO_FAULTS
  }

  function CallsOn(calls: seq<Call>, key: ChannelKey): nat {
    if calls == [] then 0 else (if calls[0].key == key then 1 else 0) + CallsOn(calls[1..], key)
  }

  lemma {:induction false} HistoryGrows(db: Db, calls: seq<Call>, key: ChannelKey)
    ensures KeyHistory(db.history, key) <= KeyHistory(AfterAll(db, calls).history, key)
    decreases |calls|
  {
    if calls == [] {
    } else {
      HistoryGrows(After(db, calls[0]), calls[1..], key);
      var r := ResultOf(db, calls[0]);
      if r.Ok? {
        KeyHistoryGrows(db.history, r.value, key);
      }
    }
  }

  /** One rollback of the key in a run whose texts increase: current and previous change places. */
  lemma RollbackStep(db: Db, call: Call)
    requires CanRollBack(db, call.key) && Legal(db, call) && call.RollingBack? && call.faults == NO_FAULTS
    requires Ascending(KeyHistory(db.history, call.key), Stored)
    ensures var db', key := After(db, call), call.key;
            && CanRollBack(db', key) && key in db.channels && key in db'.channels
            && db'.channels[key].version == db.channels[key].previousVersion
            && db'.channels[key].previousVersion == db.channels[key].version
            && |KeyHistory(db'.history, key)| == |KeyHistory(db.history, key)| + 1
  {
    RollbackSwaps(db, call.key, call.actor, call.now, call.listing);
    CallKeepsSound(db, call);
    CallChains(db, call, call.key);
    KeyHistoryGrows(db.history, ResultOf(db, call).value, call.key);
  }

  lemma OtherStep(db: Db, call: Call, key: ChannelKey)
    requires CanRollBack(db, key) && call.key != key
    ensures var db' := After(db, call);
            && CanRollBack(db', key) && key in db.channels && key in db'.channels
            && db'.channels[key] == db.channels[key]
            && KeyHistory(db'.history, key) == KeyHistory(db.history, key)
  {
    assert PointerAgrees(db, key);
    CallKeepsSound(db, call);
    OtherKeysUntouched(db, call, key);
  }

  /** From `db` to `db'` the key gained k rows and its current and previous version changed places k times. */
  ghost predicate Alternated(db: Db, db': Db, key: ChannelKey, k: nat) {
    && key in db.channels && key in db'.channels
    && |KeyHistory(db'.history, key)| == |KeyHistory(db.history, key)| + k
    && Turned(db.channels[key], db'.channels[key], k)
  }

  predicate Turned(p: Pointer, q: Pointer, k: nat) {
    if k % 2 == 0 then q.version == p.version && q.previousVersion == p.previousVersion
    else q.version == p.previousVersion && q.previousVersion == p.version
  }

  lemma AlternatedOn(db: Db, db1: Db, db': Db, key: ChannelKey, first: nat, k: nat, total: nat)
    requires total == first + k && first <= 1 && Alternated(db, db1, key, first) && Alternated(db1, db', key, k)
    ensures Alternated(db, db', key, total)
  {
  }

  lemma OnlyTail(calls: seq<Call>, key: ChannelKey)
    requires calls != [] && OnlyRollsBack(calls, key)
    ensures OnlyRollsBack(calls[1..], key)
    ensures calls[0].key == key ==> calls[0].RollingBack? && calls[0].faults == NO_FAULTS
  {
    assert forall i :: 0 <= i < |calls[1..]| ==> calls[1..][i] == calls[i + 1];
  }

  lemma AscendingNow(db: Db, calls: seq<Call>, key: ChannelKey)
    requires Ascending(KeyHistory(AfterAll(db, calls).history, key), Stored)
    ensures Ascending(KeyHistory(db.history, key), Stored)
  {
    HistoryGrows(db, calls, key);
    AscendingPrefix(KeyHistory(db.history, key), KeyHistory(AfterAll(db, calls).history, key));
  }

  lemma OneCall(db: Db, call: Call, key: ChannelKey)
    requires CanRollBack(db, key) && Legal(db, call)
    requires call.key == key ==> call.RollingBack? && call.faults == NO_FAULTS
    requires Ascending(KeyHistory(db.history, key), Stored)
    ensures CanRollBack(After(db, call), key)
    ensures Alternated(db, After(db, call), key, if call.key == key then 1 else 0)
  {
    if call.key == key {
      RollbackStep(db, call);
    } else {
      OtherStep(db, call, key);
    }
  }

  /** A run on a key that can be rolled back, which it rolls back only, with increasing texts to the end. */
  ghost predicate RollbackRun(db: Db, calls: seq<Call>, key: ChannelKey) {
    && CanRollBack(db, key) && Runs(db, calls) && OnlyRollsBack(calls, key)
    && Ascending(KeyHistory(AfterAll(db, calls).history, key), Stored)
  }

  lemma FirstCall(db: Db, calls: seq<Call>, key: ChannelKey) returns (db1: Db, first: nat)
    requires calls != [] && RollbackRun(db, calls, key)
    ensures RollbackRun(db1, calls[1..], key) && AfterAll(db, calls) == AfterAll(db1, calls[1..])
    ensures first <= 1 && Alternated(db, db1, key, first) && CallsOn(calls, key) == first + CallsOn(calls[1..], key)
  {
    db1, first := After(db, calls[0]), if calls[0].key == key then 1 else 0;
    AscendingNow(db, calls, key);
    OnlyTail(calls, key);
    OneCall(db, calls[0], key);
  }

  lemma {:induction false} AlternateByText(db: Db, calls: seq<Call>, key: ChannelKey)
    requires RollbackRun(db, calls, key)
    ensures Alternated(db, AfterAll(db, calls), key, CallsOn(calls, key))
    decreases |calls|
  {
    if calls == [] {
      NothingHappens(db, key);
    } else {
      var db1, first := FirstCall(db, calls, key);
      AlternateByText(db1, calls[1..], key);
      AlternatedOn(db, db1, AfterAll(db, calls), key, first, CallsOn(calls[1..], key), CallsOn(calls, key));
    }
  }

  lemma {:induction false} FaultlessIsClean(db: Db, calls: seq<Call>, key: ChannelKey)
    requires OnlyRollsBack(calls, key)
    ensures Clean(db, calls, key)
    decreases |calls|
  {
    if calls == [] {
    } else {
      OnlyTail(calls, key);
      FaultlessIsClean(After(db, calls[0]), calls[1..], key);
    }
  }

  lemma NothingHappens(db: Db, key: ChannelKey)
    requires CanRollBack(db, key)
    ensures Alternated(db, db, key, 0)
  {
    assert PointerAgrees(db, key);
  }

  lemma AscendingPrefix(a: seq<Pointer>, b: seq<Pointer>)
    requires a <= b && Ascending(b, Stored)
    ensures Ascending(a, Stored)
  {
    forall i, j | 0 <= i < j < |a| ensures TextLess(Stored(a[i]), Stored(a[j])) {
      assert a[i] == b[i] && a[j] == b[j];
    }
  }

  /** k rollbacks of a channel at version B with previous version A, among any calls on other keys, add
      exactly k rows and leave it at B for even k and at A for odd k, provided the clock strictly
      increased over the key's history and no two of its times are misordered. */
  lemma RollbacksAlternate(db: Db, calls: seq<Call>, key: ChannelKey)
    requires CanRollBack(db, key) && Runs(db, calls) && OnlyRollsBack(calls, key)
    requires var rows := KeyHistory(AfterAll(db, calls).history, key);
             Increasing(rows) && !SomeMisordered(rows)
    ensures var db', k := AfterAll(db, calls), CallsOn(calls, key);
            && key in db.channels && key in db'.channels
            && |KeyHistory(db'.history, key)| == |KeyHistory(db.history, key)| + k
            && Chained(KeyHistory(db'.history, key))
            && db'.channels[key].version
                 == (if k % 2 == 0 then db.channels[key].version else db.channels[key].previousVersion)
  {
    AscendingIff(KeyHistory(AfterAll(db, calls).history, key));
    FaultlessIsClean(db, calls, key);
    ChainedIff(db, calls, key);
    AlternateByText(db, calls, key);
  }

  // ---------------------------------------------------------------- when the listing is not newest first

  /** Row i is listed before row m: it is later and not misordered with m, or earlier and misordered with m. */
  ghost predicate Ahead(rows: seq<Pointer>, m: nat, i: nat)
    requires m < |rows| && i < |rows|
  {
    if i < m then Misordered(rows[i].promotedAt, rows[m].promotedAt)
    else i > m && !Misordered(rows[m].promotedAt, rows[i].promotedAt)
  }

  /** Exactly one row is listed before row m. */
  ghost predicate ListedSecond(rows: seq<Pointer>, m: nat)
    requires m < |rows|
  {
    exists i :: 0 <= i < |rows| && Ahead(rows, m, i) && forall j :: 0 <= j < |rows| && Ahead(rows, m, j) ==> j == i
  }

  lemma AheadByText(rows: seq<Pointer>, m: nat, i: nat)
    requires Increasing(rows) && m < |rows| && i < |rows|
    ensures TextLess(Stored(rows[m]), Stored(rows[i])) <==> Ahead(rows, m, i)
    ensures i != m ==> Differ(Stored(rows[m]), Stored(rows[i]))
  {
    if i < m {
      RowOrder(rows[i], rows[m]);
    } else if i > m {
      RowOrder(rows[m], rows[i]);
    } else {
      TextTotal(Stored(rows[m]), Stored(rows[m]));
    }
  }

  lemma SecondByTimes(rows: seq<Pointer>, listing: seq<Pointer>, m: nat)
    requires Increasing(rows) && Listing(rows, listing, Stored) && m < |rows| && 2 <= |rows|
    ensures |listing| == |rows| && (listing[1] == rows[m] <==> ListedSecond(rows, m))
  {
    forall i, j | 0 <= i < j < |rows| ensures Differ(Stored(rows[i]), Stored(rows[j])) {
      AheadByText(rows, i, j);
    }
    forall i | 0 <= i < |rows| ensures TextLess(Stored(rows[m]), Stored(rows[i])) <==> Ahead(rows, m, i) {
      AheadByText(rows, m, i);
    }
    SecondIff(rows, listing, Stored, m);
    if i: nat :| OnlyAhead(rows, Stored, m, i) {
      assert Ahead(rows, m, i);
    }
    if ListedSecond(rows, m) {
      var i :| 0 <= i < |rows| && Ahead(rows, m, i) && forall j :: 0 <= j < |rows| && Ahead(rows, m, j) ==> j == i;
      assert OnlyAhead(rows, Stored, m, i);
    }
  }

  /** The row listed second has this version. */
  ghost predicate SecondHasVersion(rows: seq<Pointer>, version: string) {
    exists i :: 0 <= i < |rows| && ListedSecond(rows, i) && rows[i].version == version
  }

  /** Of promoting the row listed second: it is row m just when exactly one row is listed before m, and the
      version promoted is the previous one just when it is so of some row that has that version. */
  ghost predicate GoesBackIff(rows: seq<Pointer>, listing: seq<Pointer>, m: nat, promoted: string, previous: string)
    requires m < |rows| && 2 <= |listing|
  {
    && (listing[1] == rows[m] <==> ListedSecond(rows, m))
    && (promoted == previous <==> SecondHasVersion(rows, previous))
  }

  lemma SecondGoesBack(rows: seq<Pointer>, listing: seq<Pointer>, m: nat, promoted: string, previous: string)
    requires Increasing(rows) && Listing(rows, listing, Stored) && m < |rows| && 2 <= |rows| && 2 <= |listing|
    requires promoted == listing[1].version && previous == rows[m].version
    ensures GoesBackIff(rows, listing, m, promoted, previous)
  {
    SecondByTimes(rows, listing, m);
    var second := Place(rows, listing, 1);
    SecondByTimes(rows, listing, second);
    if i :| 0 <= i < |rows| && ListedSecond(rows, i) && rows[i].version == previous {
      SecondByTimes(rows, listing, i);
    }
  }

  /** For every history made at increasing times: a rollback goes back to row m, the one before the newest, if
      and only if exactly one row is listed before it. It promotes the previous version, as documented, if and
      only if exactly one row is listed before some row of that version. */
  lemma RestoresPreviousIff(db: Db, key: ChannelKey, actor: string, now: Instant, listing: seq<Pointer>, m: nat)
    returns (promoted: string, previous: string)
    requires CanRollBack(db, key) && Lists(db, key, listing) && Increasing(KeyHistory(db.history, key))
    requires m == |KeyHistory(db.history, key)| - 2
    ensures RollbackOf(db, key, actor, now, listing, NO_FAULTS).Ok? && key in db.channels
    ensures promoted == RollbackOf(db, key, actor, now, listing, NO_FAULTS).value.version
    ensures previous == db.channels[key].previousVersion
    ensures |listing| >= 2 && GoesBackIff(KeyHistory(db.history, key), listing, m, promoted, previous)
  {
    promoted := PromotesSecond(db, key, actor, now, listing);
    previous := PreviousIsSecondLast(db, key, m);
    SecondGoesBack(KeyHistory(db.history, key), listing, m, promoted, previous);
  }

  lemma PromotesSecond(db: Db, key: ChannelKey, actor: string, now: Instant, listing: seq<Pointer>)
    returns (promoted: string)
    requires CanRollBack(db, key) && Lists(db, key, listing)
    ensures RollbackOf(db, key, actor, now, listing, NO_FAULTS).Ok?
    ensures |listing| == |KeyHistory(db.history, key)|
    ensures RollbackOf(db, key, actor, now, listing, NO_FAULTS).value.version == promoted == listing[1].version
  {
    SameLength(listing, KeyHistory(db.history, key));
    RollbackSucceedsIff(db, key, actor, now, listing);
    promoted := listing[1].version;
  }

  lemma PreviousIsSecondLast(db: Db, key: ChannelKey, m: nat) returns (previous: string)
    requires CanRollBack(db, key) && m == |KeyHistory(db.history, key)| - 2
    ensures key in db.channels
    ensures db.channels[key].previousVersion == previous == KeyHistory(db.history, key)[m].version
  {
    var rows := KeyHistory(db.history, key);
    assert PointerAgrees(db, key) && Linked(rows, |rows| - 1);
    PointerIsLast(db, key);
    previous := rows[m].version;
  }

  /** A channel promoted twice, to different versions, at increasing times: rollback restores the first
      version if and only if the two times are not misordered. When they are, it promotes the current
      version once more, and the channel stays where it was. */
  lemma TwoPromotions(db: Db, key: ChannelKey, actor: string, now: Instant, listing: seq<Pointer>, a: Pointer,
                      b: Pointer)
    requires Sound(db) && Lists(db, key, listing) && KeyHistory(db.history, key) == [a, b]
    requires Increasing([a, b]) && a.version != b.version
    ensures var r := RollbackOf(db, key, actor, now, listing, NO_FAULTS);
            && r.Ok?
            && (r.value.version == a.version <==> !Misordered(a.promotedAt, b.promotedAt))
            && (r.value.version == Current(db, key) <==> Misordered(a.promotedAt, b.promotedAt))
  {
    RollbackSucceedsIff(db, key, actor, now, listing);
    RowOrder(a, b);
    CurrentIsLast(db, key);
    SameTwo(listing, a, b);
  }

  // ---------------------------------------------------------------- a run in which rollback does nothing

  /** Two uploads, without faults, to empty stores. */
  ghost predicate TwoUploads(site: Uploads.Site, uploads: seq<Uploads.Attempt>, db: Db) {
    && |uploads| == 2 && db == Uploads.AfterAll(site, Uploads.EMPTY_WORLD, uploads).db
    && forall i :: 0 <= i < |uploads| ==> uploads[i].faults == Uploads.NO_UPLOAD_FAULTS
  }

  /** They leave sound tables with two versions of one name, and nothing promoted. */
  lemma UploadTwo(site: Uploads.Site, key: ChannelKey)
    returns (uploads: seq<Uploads.Attempt>, db: Db, v: string, w: string)
    requires ValidIdentifier(key.artifactType) && ValidIdentifier(key.name)
    ensures TwoUploads(site, uploads, db)
    ensures Sound(db) && db.channels == map[] && db.history == [] && Normal(v) && Normal(w) && v != w
    ensures ArtifactKey(key.artifactType, key.name, v) in db.artifacts
    ensures ArtifactKey(key.artifactType, key.name, w) in db.artifacts
  {
    var a, b;
    uploads, a, b := Uploads.TwoUploaded(site, key.artifactType, key.name);
    db := Uploads.AfterAll(site, Uploads.EMPTY_WORLD, uploads).db;
    v, w := a.key.version, b.key.version;
    UploadedIsSound(a, b, db);
  }

  lemma UploadedIsSound(a: Artifact, b: Artifact, db: Db)
    requires db == InsertArtifact(InsertArtifact(NO_ROWS, a), b) && a.key != b.key
    ensures Sound(db) && db.channels == map[] && db.history == []
    ensures a.key in db.artifacts && b.key in db.artifacts
  {
  }

  lemma PromoteOnce(db: Db, key: ChannelKey, v: string, actor: string, now: Instant) returns (row: Pointer)
    requires Normal(v) && ArtifactKey(key.artifactType, key.name, v) in db.artifacts
    ensures After(db, Promoting(key, v, actor, now, NO_FAULTS)) == SaveRow(db, row)
    ensures row.key == key && row.version == v && row.promotedAt == now && row.previousVersion == Current(db, key)
  {
    row := Promotion(db, key, v, actor, now, NO_FAULTS).value;
  }

  /** Both are promoted, at two times. */
  lemma BothPromoted(db: Db, key: ChannelKey, v: string, w: string, actor: string, now: Instant, later: Instant)
    returns (db2: Db, a: Pointer, b: Pointer)
    requires Sound(db) && db.channels == map[] && db.history == [] && Normal(v) && Normal(w)
    requires ArtifactKey(key.artifactType, key.name, v) in db.artifacts
    requires ArtifactKey(key.artifactType, key.name, w) in db.artifacts
    ensures var db1 := After(db, Promoting(key, v, actor, now, NO_FAULTS));
            db2 == After(db1, Promoting(key, w, actor, later, NO_FAULTS))
    ensures Sound(db2) && KeyHistory(db2.history, key) == [a, b] && Current(db2, key) == w
    ensures a.version == v && a.promotedAt == now && b.version == w && b.promotedAt == later && b.previousVersion == v
  {
    a := PromoteOnce(db, key, v, actor, now);
    var db1 := SaveRow(db, a);
    CallKeepsSound(db, Promoting(key, v, actor, now, NO_FAULTS));
    b := PromoteOnce(db1, key, w, actor, later);
    db2 := SaveRow(db1, b);
    CallKeepsSound(db1, Promoting(key, w, actor, later, NO_FAULTS));
    assert db1.history == [] + [a];
    KeyHistoryGrows([], a, key);
    KeyHistoryGrows(db1.history, b, key);
    assert [] + [a] == [a] && [a] + [b] == [a, b];
  }

  /** A run from empty tables in which rollback does not do what is documented: two artifacts are uploaded and
      promoted, one at a whole second and the other later within that second, and the rollback promotes the
      current version again, whatever the clock then says. */
  lemma RollbackStaysPut(site: Uploads.Site, key: ChannelKey, actor: string, t: Instant, nanos: nat, now: Instant)
    returns (uploads: seq<Uploads.Attempt>, db: Db, promotions: seq<Call>, rollback: Call, db2: Db)
    requires ValidIdentifier(key.artifactType) && ValidIdentifier(key.name)
    requires Valid(t) && t.nanos == 0 && 0 < nanos < SECOND
    ensures TwoUploads(site, uploads, db)
    ensures Runs(db, promotions) && db2 == AfterAll(db, promotions)
    ensures rollback.RollingBack? && rollback.key == key && rollback.faults == NO_FAULTS && rollback.now == now
    ensures Legal(db2, rollback) && ResultOf(db2, rollback).Ok? && key in db2.channels
    ensures db2.channels[key].previousVersion != db2.channels[key].version == Current(After(db2, rollback), key)
  {
    var v, w;
    uploads, db, v, w := UploadTwo(site, key);
    var later := t.(nanos := nanos);
    WholeSecondSortsLast(t, nanos);
    var a, b;
    db2, a, b := BothPromoted(db, key, v, w, actor, t, later);
    promotions := [Promoting(key, v, actor, t, NO_FAULTS), Promoting(key, w, actor, later, NO_FAULTS)];
    TwoCalls(db, promotions[0], promotions[1]);
    rollback := StaysPut(db2, key, actor, now, a, b);
  }

  lemma StaysPut(db: Db, key: ChannelKey, actor: string, now: Instant, a: Pointer, b: Pointer) returns (rollback: Call)
    requires Sound(db) && KeyHistory(db.history, key) == [a, b] && b.previousVersion == a.version != b.version
    requires Increasing([a, b]) && Misordered(a.promotedAt, b.promotedAt)
    ensures rollback.RollingBack? && rollback.key == key && rollback.faults == NO_FAULTS && rollback.now == now
    ensures Legal(db, rollback) && ResultOf(db, rollback).Ok? && key in db.channels
    ensures db.channels[key].previousVersion != db.channels[key].version == Current(After(db, rollback), key)
  {
    SortedLists([a, b], Stored);
    rollback := RollingBack(key, actor, now, Sorted([a, b], Stored), NO_FAULTS);
    TwoPromotions(db, key, actor, now, rollback.listing, a, b);
    assert PointerAgrees(db, key);
    CallRow(db, rollback);
  }

  lemma TwoCalls(db: Db, x: Call, y: Call)
    requires x.Promoting? && y.Promoting?
    ensures Runs(db, [x, y]) && AfterAll(db, [x, y]) == After(After(db, x), y)
  {
    assert [x, y][1..] == [y] && [y][1..] == [];
    assert Runs(After(db, x), [y]) && AfterAll(After(db, x), [y]) == After(After(db, x), y);
  }
}
