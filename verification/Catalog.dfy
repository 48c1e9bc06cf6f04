/**
 The metadata tables: artifacts, which are only ever inserted; channel pointers, one row per key; and
 the channel history, which is only ever appended to. Each statement or transaction is one step.
 */
module Catalog {
  import opened Ordering
  import opened Timestamps
  import opened Wrappers

  datatype ArtifactKey = ArtifactKey(artifactType: string, name: string, version: string)
  datatype ChannelKey = ChannelKey(channel: string, artifactType: string, name: string)

  datatype Artifact = Artifact(
    id: string, key: ArtifactKey, sha256: string, sizeBytes: nat, contentType: string,
    metadata: map<string, string>, storageKey: string)

  /** A channels row and, with its position as id, a channel_history row. */
  datatype Pointer = Pointer(
    key: ChannelKey, version: string, artifactId: string, previousVersion: string,
    promotedAt: Instant, promotedBy: string)

  datatype Db = Db(
    artifacts: map<ArtifactKey, Artifact>, channels: map<ChannelKey, Pointer>, history: seq<Pointer>)

  datatype Error = NotFound | AlreadyExists | InvalidVersion | InvalidInput | NoChannelHistory | StoreFailed

  const NO_ROWS := Db(map[], map[], [])

  /** Whether an insertion violates the primary key or UNIQUE(type, name, version). */
  predicate Collides(db: Db, a: Artifact) {
    a.key in db.artifacts || exists k :: k in db.artifacts && db.artifacts[k].id == a.id
  }

  function InsertArtifact(db: Db, a: Artifact): Db {
    db.(artifacts := db.artifacts[a.key := a])
  }

  /** One transaction: upsert the channels row, append to the history. */
  function SaveRow(db: Db, row: Pointer): Db {
    db.(channels := db.channels[row.key := row], history := db.history + [row])
  }

  /** The history rows of a key, in the order of their ids. */
  function KeyHistory(history: seq<Pointer>, key: ChannelKey): seq<Pointer> {
    if history == [] then [] else
    var last, earlier := history[|history| - 1], KeyHistory(history[..|history| - 1], key);
    if last.key == key then earlier + [last] else earlier
  }

  // ---------------------------------------------------------------- ORDER BY promoted_at DESC

  /** The text that the database holds and compares. */
  function Stored(row: Pointer): string {
    Format(row.promotedAt)
  }

  /** Times strictly increase along the rows. */
  ghost predicate Increasing(rows: seq<Pointer>) {
    && (forall i :: 0 <= i < |rows| ==> Valid(rows[i].promotedAt))
    && (forall i, j :: 0 <= i < j < |rows| ==> Elapsed(rows[i].promotedAt) < Elapsed(rows[j].promotedAt))
  }

  ghost predicate SomeMisordered(rows: seq<Pointer>) {
    exists i, j :: 0 <= i < j < |rows| && Misordered(rows[i].promotedAt, rows[j].promotedAt)
  }

  lemma RowOrder(a: Pointer, b: Pointer)
    requires Valid(a.promotedAt) && Valid(b.promotedAt) && Elapsed(a.promotedAt) < Elapsed(b.promotedAt)
    ensures TextLess(Stored(a), Stored(b)) <==> !Misordered(a.promotedAt, b.promotedAt)
    ensures TextLess(Stored(b), Stored(a)) <==> Misordered(a.promotedAt, b.promotedAt)
  {
    TextOrder(a.promotedAt, b.promotedAt);
  }

  lemma AscendingIff(rows: seq<Pointer>)
    requires Increasing(rows)
    ensures Ascending(rows, Stored) <==> !SomeMisordered(rows)
  {
    forall i, j | 0 <= i < j < |rows|
      ensures TextLess(Stored(rows[i]), Stored(rows[j])) <==> !Misordered(rows[i].promotedAt, rows[j].promotedAt)
    {
      RowOrder(rows[i], rows[j]);
    }
  }

  lemma MisorderedSpoilsReverse(rows: seq<Pointer>)
    requires Increasing(rows) && SomeMisordered(rows)
    ensures !Listing(rows, Reverse(rows), Stored)
  {
    var i, j :| 0 <= i < j < |rows| && Misordered(rows[i].promotedAt, rows[j].promotedAt);
    RowOrder(rows[i], rows[j]);
    PairSpoilsReverse(rows, Stored, i, j);
  }

  /** With a clock that strictly increases, the history is listed in exact reverse order of insertion
      if and only if no two of its times are misordered. */
  lemma HistoryOrderExact(rows: seq<Pointer>)
    requires Increasing(rows)
    ensures (forall out :: Listing(rows, out, Stored) ==> out == Reverse(rows)) <==> !SomeMisordered(rows)
    ensures Listing(rows, Reverse(rows), Stored) <==> !SomeMisordered(rows)
  {
    AscendingIff(rows);
    if SomeMisordered(rows) {
      MisorderedSpoilsReverse(rows);
      SortedLists(rows, Stored);
      assert Sorted(rows, Stored) != Reverse(rows);
    } else {
      ReverseLists(rows, Stored);
      forall out | Listing(rows, out, Stored) ensures out == Reverse(rows) {
        ListingIsReverse(rows, out, Stored);
      }
    }
  }
}
