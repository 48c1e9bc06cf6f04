# Verification of the artifact registry

A Dafny model of the artifact registry: its webhook delivery protocol, its channel promotions and rollbacks,
its two-store uploads, and the kernels these rest on (version grammar, storage keys, clock-derived ids,
timestamps as text, signed JSON, API keys). `dafny verify dfyconfig.toml` checks everything.

## How it is laid out

Code that changes things step by step is modelled by classes and methods (`Dispatcher`, `SqlStore`, `MemStore`,
`Repository`, `LocalStorage`, `Registry`, the key loader, `NewId`). Each method's `ensures` says what the new
state and the results are, as a function of the old state; the theorems are about those functions.

| module | subject |
|---|---|
| `Protocol`, `DeliveryBounds`, `ReplayRaces`, `SoloRuns` | the delivery protocol as an interleaved transition system, and its agreement with the dispatcher's loops |
| `Dispatching`, `Deliveries` | the dispatcher (emit, replay, retry loop) and the two delivery stores |
| `Json`, `Envelope`, `Payloads` | the JSON writer, scanner and compactor; signing and the receiver's check; the data of the events |
| `Catalog`, `Channels`, `Rollbacks`, `ChannelInterleavings` | tables, promotions and rollbacks, in sequence and interleaved |
| `Paths`, `Uploads`, `UploadInterleavings`, `Registry` | files of storage keys; uploads over two stores, in sequence and interleaved; the service, the tables and the file store as objects |
| `Ordering`, `Decimals`, `Timestamps` | lists by descending text; decimal digits; time order against the text order of formatted times |
| `Lifecycle`, `Announcements` | what is uploaded, promoted and resolved in turn; what a receiver learns of a promotion |
| `Text`, `Hex`, `Versions`, `Identifiers`, `Auth` | trimming, hex digits, version grammar and normalisation, identifiers, storage keys, ids, API keys |

What the code cannot decide comes in as parameters: which statements and writes fail, the outcome of every
POST, clock readings, fresh ids, and, where a listing has rows of equal text, their order. The MAC and the digest are
arbitrary functions.

## What is proved

* **Deliveries.** Emissions, replays, retry runs, lost writes and dying threads interleave at the grain of single
  store calls and POSTs. With Replay as coded (read and reset are two calls), every reachable record tells what one
  run of its delivery really received, every POST sends the body and signature fixed when the event was signed and
  passes the receiver's check, hints count 1..m per aggregate key, and a delivery is posted at most n times per
  emission and per successful replay. A reset is crowded when a thread of the delivery is live, and stale when the
  record is no longer the dead letter that the replay read. Throughout a run a delivery has at most one live thread,
  and a closed record none, exactly when no reset of it is crowded (`SafeIff`). A delivered record without live threads
  stays as it is exactly when no later reset is stale (`DeliveredStaysIff`). `StrongIff` adds that the successful
  replays match the verdicts exactly when none is stale; its only-if half is about that count, since a stale reset
  need not be crowded (`StaleYetSafe`). Neither occurs when read and reset are one step; `TwoReplays` is a run of the
  two calls, for any number of attempts, with a crowded reset. Emit, Replay and the retry loop are each what the
  protocol's threads do when they run alone.
* **Channels.** Pointer and history agree and name existing artifacts in every reachable state, even when
  operations interleave. In every sequential run a key's history is a chain of previous versions, and following
  its events reproduces its pointer, exactly when no successful call failed to read a pointer that was there.
  Interleaved, it is a chain exactly when each save on the key found the version that its own read had found
  (`InterleavedChainedIff`); `InterleavingBreaksChain` is a run from empty tables in which one does not. An interleaved
  rollback is the documented swap exactly when the version listed second is still the previous one at the save and
  the version read is still the current one (`RollbackSwapsIff`).
* **Rollback.** History is listed by the text of times whose trailing zeros are dropped, so text order is not time
  order. `TextOrder` gives the exact pairs that are misordered, in arithmetic, `HistoryOrderExact` when the listing is
  the reverse of insertion, `RestoresPreviousIff` when a rollback goes back to the row before the newest and when it
  promotes the previous version. Where the listing is right, rollback is the documented swap, and k rollbacks leave
  the version that the parity of k says. `RollbackStaysPut` is a run from empty tables in which a rollback promotes
  the current version again.
* **Uploads.** Storage keys are injective on what is accepted, files are not: the local store cleans paths, and "." and
  ".." are valid identifiers. `AllApartIff` says that these two are exactly what merges files. In sequence, a committed
  record keeps an intact blob until an upload with its file writes it; `SurvivesIff` says exactly when such an upload
  destroys it, and the plain second upload of a version does (`SecondUploadDestroys`). Interleaved, a blob stays as
  recorded exactly while no step leaves anything else in its file; an upload alone with its file keeps its blob; and
  when a run has come to its end without faults, a version without dots has its blob exactly when it was uploaded once
  (`CompletedIntactIff`).
* **Kernels.** The scanner accepts exactly the printed forms of the grammar; normalisation is idempotent and its
  kernel is known; ids decode to the clock reading; stored times and marshalled events read back; first match over the
  loaded keys is the order-free union of the settings. Each answer of an upload and of a promotion is given an exact
  condition on what the caller passed, and an uploaded version can be promoted under any spelling and then resolves
  (`UploadedThenPromoted`).

Where code and documentation differ, the model follows the code. The API document says that a rollback swaps the
version with `previous_version` (api/openapi.yaml:582-589); the code promotes the second row of a listing by text, and
`RestoresPreviousIff` says when that is the same. It says that an uploaded version is immutable
(api/openapi.yaml:350-351); the row is, the blob is not (`SurvivesIff`, `StaysIntactIff`). Its version pattern
(api/openapi.yaml:118) is narrower than the code's. An update of a missing delivery does nothing in SQL and is an error
in the in-memory store; both are modelled.

The table lists results, and the methods whose contracts say more than their bodies. The remaining methods of the
stores are proved against the functions of `Catalog`, `Deliveries` and `Uploads` that the results are about.

## Model

| member | source | states |
|---|---|---|
| `Protocol.RecordsTellTheTruth` | internal/webhooks/dispatcher.go:118-192 | In every reachable state, with two-call Replay and lost writes: delivered means that in one run of the delivery attempt n was accepted after all before it were rejected; failed and dead_letter that in one run all up to the count were rejected, the last with the stored error, and for dead_letter that the count is all attempts; pending that the count is 0 or all attempts and the error empty. |
| `Protocol.PostsSendTheRecord` | internal/webhooks/dispatcher.go:88-139 | Every POST of a delivery, over all retries and replays, carries the parcel its id was issued with, signed at emission, and equals what the stored record holds: URL, body, signature. |
| `Protocol.EveryPostVerifies` | internal/webhooks/webhook.go:36-40 | Every POST in every reachable state passes the receiver's documented signature check. |
| `Protocol.RecordsShareTheLetter` | internal/webhooks/dispatcher.go:48-49 | Records with one event id share event type, aggregate key, payload and signature. |
| `Protocol.ReachableHints` | internal/repository/sqlite/webhooks.go:42-63 | In every reachable state each aggregate key's hints are exactly 1..m in creation order. |
| `Protocol.StepKeeps` | internal/webhooks/dispatcher.go:118-192 | Every enabled step of any thread keeps the invariant over table, threads, log, issued parcels and letters. |
| `Protocol.RunKeeps` | internal/webhooks/dispatcher.go:118-192 | So does every run, whatever the granularity of Replay. |
| `DeliveryBounds.PostsAreBounded` | internal/webhooks/dispatcher.go:146-183 | A delivery is posted at most n times (1 + its successful replays), under any interleaving. |
| `DeliveryBounds.BoundedKeeps` | internal/webhooks/dispatcher.go:111-139 | A step keeps: logged POSTs of d equal what its threads made, and its runs are at most its emission plus its successful replays. |
| `ReplayRaces.SafeIff` | internal/webhooks/dispatcher.go:118-141 | At either granularity of Replay, along every run: at most one thread can write a given record, and none while it is unissued, delivered or dead_letter, in every state, iff no reset of it finds a live thread. |
| `ReplayRaces.StrongIff` | internal/webhooks/dispatcher.go:122-130 | Successful replays equal dead_letter verdicts, less one while dead, in every state, iff no reset finds the record no longer dead; the run is then safe as well. |
| `ReplayRaces.OneLiveThread` | internal/webhooks/dispatcher.go:122-139 | When no reset was crowded: of any two threads one cannot write the record, and none can once it is delivered or dead_letter. |
| `ReplayRaces.DeliveredStaysIff` | internal/webhooks/dispatcher.go:160-162 | From any reachable state in which a record is delivered and no thread can write it, it is the same record in every later state iff no later reset of it is stale. |
| `ReplayRaces.DeliveredForeverIff` | internal/webhooks/dispatcher.go:160-162 | So it is for a record delivered in a run without a crowded reset. |
| `ReplayRaces.IndivisibleIsNeverStale` | internal/webhooks/dispatcher.go:126-130 | If the check and the reset were one step, no reset would be stale or crowded. |
| `ReplayRaces.StrongKeeps` | internal/webhooks/dispatcher.go:118-192 | Every step but a stale reset keeps the strong invariant. |
| `ReplayRaces.TwoReplays` | internal/webhooks/dispatcher.go:122-130 | For every number of attempts, a run of the two-call code from the initial state with a crowded reset: two live threads for one delivery, two successful replays of one verdict, and a delivered record overwritten by failed. |
| `ReplayRaces.StaleYetSafe` | internal/webhooks/dispatcher.go:122-130 | A run with a stale reset that is safe throughout, since the thread of the first replay died. |
| `SoloRuns.SoloRunIsDeliver` | internal/webhooks/dispatcher.go:146-183 | A delivery thread that runs alone, from any attempt on, makes the POSTs of the retry loop in order, leaves the table of its contract, finishes, and changes nothing else. |
| `SoloRuns.SoloRunIsReplay` | internal/webhooks/dispatcher.go:118-141 | A replay that runs alone, at either granularity, resets the record keeping its count and starts one delivery of the stored parcel, or does nothing when the reset is lost. |
| `SoloRuns.SoloRunIsEmit` | internal/webhooks/dispatcher.go:88-112 | An emitting thread that runs alone leaves the table and starts the deliveries that the emission method's contract gives. |
| `Dispatching.Dispatcher.Deliver` | internal/webhooks/dispatcher.go:146-183 | Makes exactly the POSTs up to the first accepted one, all the same; sleeps the sum of the delays used; leaves the table after the specified writes, less the lost ones. |
| `Dispatching.FirstAccepted` | internal/webhooks/dispatcher.go:148-163 | The least accepted attempt, or n when all are rejected. |
| `Dispatching.DefaultWait` | internal/webhooks/retry.go:5-13 | With the default table, one to five attempts wait 0, 1, 6, 36 and 156 seconds in all. |
| `Dispatching.Dispatcher.Emit` | internal/webhooks/dispatcher.go:50-113 | Without URLs nothing happens; otherwise one letter is signed that carries, and whose body parses to, the id, type, time, key and data it was called with; each creation with a fresh id that is not lost leaves one pending record of that letter and its URL, and no other record changes; one delivery per URL starts, in order. |
| `Dispatching.Dispatcher.SendToAll` | internal/webhooks/dispatcher.go:88-112 | The loop of it. |
| `Dispatching.Dispatcher.Replay` | internal/webhooks/dispatcher.go:118-141 | Each refusal in its order leaves everything alone; success resets the record keeping its count and starts one delivery of the stored parcel. |
| `Deliveries.SqlStore.CreateDelivery` | internal/repository/sqlite/webhooks.go:45-63 | Returns the number of the key's records plus one, though it computes MAX + 1; refuses a taken id; inserts as pending with no attempts. |
| `Deliveries.MemStore.CreateDelivery` | internal/webhooks/webhooks_test.go:47-57 | Steps the key's counter and stores the record with it. |
| `Deliveries.StoresAgree` | internal/repository/sqlite/webhooks.go:52-56 | After any creations of fresh ids and any updates, the SQL store and the counter store hold the same rows, hints included, and each counter is the greatest hint. |
| `Deliveries.CreateHints` | internal/repository/sqlite/webhooks.go:53-54 | An insertion adds the next number to its key's hints and leaves other keys' hints alone. |
| `Deliveries.UpdateKeepsCounting` | internal/repository/sqlite/webhooks.go:68-71 | An update changes no key's hints. |
| `Deliveries.CreateKeepsCounting` | internal/repository/sqlite/webhooks.go:42-44 | Insertions keep every key's hints equal to 1..m. |
| `Envelope.SignedVerifies` | internal/webhooks/dispatcher.go:64-86 | Every event is signed; the letter and the event that its body parses to have exactly the source's id, type, time, key and data; blanking the signature and marshalling again gives byte for byte the signed text, so the recomputed MAC equals header and field. |
| `Envelope.MarshalText` | internal/webhooks/webhook.go:44-51 | The marshalled text is one object with the six members of the struct, under their tags and in their order. |
| `Envelope.MarshalReadsBack` | internal/webhooks/webhook.go:44-51 | Parsing a marshalled event gives the event back, its raw data included. |
| `Envelope.MarshalInjective` | internal/webhooks/webhook.go:36-40 | Different events have different bodies. |
| `Envelope.VerifiesIff` | internal/webhooks/webhook.go:36-40 | A receiver accepts a marshalled event exactly when its field, the header and the recomputed MAC are one text. |
| `Envelope.AcceptedIsGenuine` | internal/webhooks/webhook.go:36-40 | A body accepted under an issued signature carries the very event that was signed exactly when its unsigned text is the signed one; otherwise these two different texts have one MAC. |
| `Payloads.ChannelEventReadsBack` | internal/webhooks/webhook.go:63-77 | In the verified body of a channel event a receiver reads exactly the channel, the from and the to version it was made with. |
| `Payloads.ArtifactEventReadsBack` | internal/webhooks/webhook.go:53-61 | In that of an upload event, exactly the artifact id, version, digest, and the size in decimal digits without leading zeros. |
| `Payloads.ObjectReadsBack` | internal/webhooks/dispatcher.go:55-69 | Every written object of at least one member reads back member by member, values byte for byte. |
| `Announcements.AnnouncedTruly` | internal/api/handlers.go:225-230 | For every call that saves a row having read the channel: in the verified body of its event a receiver reads its kind, the channel, the version current before the call and the one current after it. |
| `Json.SkipWritten` | internal/webhooks/dispatcher.go:74-82 | The scanner (section 7 of RFC 8259 for strings) stops exactly at the end of a written value. |
| `Json.ReadTextQuoted` | internal/webhooks/dispatcher.go:74-82 | Reading a quoted string gives the string back, whatever follows. |
| `Json.CompactWritten` | internal/webhooks/dispatcher.go:69 | Raw data written by the encoder passes through the envelope's compaction unchanged. |
| `Json.HarmlessText` | internal/webhooks/dispatcher.go:74-82 | Quoted texts hold no control character and none of <, >, &, U+2028 and U+2029. |
| `Json.DigitsValue` | internal/webhooks/webhook.go:60 | Written digits have the value of the number. |
| `Channels.RunKeepsSound` | internal/service/registry.go:91-134 | Every run keeps each pointer equal to its key's last history row, and every row naming an existing artifact by type, name, version and id. |
| `Channels.OtherKeysUntouched` | internal/service/registry.go:106-118 | A call on one key leaves others' pointers and histories alone; a failed one changes nothing. |
| `Channels.ChainedIff` | internal/service/registry.go:101-116 | After any run a key's history is a chain of previous versions iff it was one and no successful call failed to read a pointer that was there. |
| `Channels.EventsReproducePointer` | internal/api/handlers.go:225-230 | Following a key's from/to events from its version before a run ends, iff the run is clean, at its version after it. |
| `Channels.CallFollows` | internal/api/handlers.go:263-267 | One call's event moves a follower just as the call moves the channel. |
| `Channels.PromotedResolves` | internal/service/registry.go:138-144 | In a sound state a channel resolves iff it was promoted, to the artifact its channels row names. |
| `Channels.PromotionOutcome` | internal/service/registry.go:91-121 | For a version as a caller spells it: exactly when each error is returned and when the promotion succeeds, and the whole row it then saves. |
| `Channels.SpellingsPromoteAlike` | internal/service/registry.go:92-100 | Spellings that agree once trimmed and rid of one leading v give the same answer. |
| `Channels.RollbackSucceedsIff` | internal/service/registry.go:124-135 | Without faults a rollback succeeds iff two promotions are recorded, and saves the version and artifact listed second, with the current version as the previous one, the given time and actor. |
| `Lifecycle.UploadedThenPromoted` | internal/service/registry.go:69-114 | After a successful upload, a promotion of its type and name to any spelling of its version saves a row of that artifact, and the channel resolves to it. |
| `Channels.SaveKeepsAgreement` | internal/repository/sqlite/sqlite.go:138-172 | Saving a row keeps every key's pointer equal to its last history row. |
| `Catalog.HistoryOrderExact` | internal/repository/sqlite/sqlite.go:183-203 | With increasing times the history is listed in exact reverse of insertion iff no two times are misordered. |
| `Timestamps.TextOrder` | internal/repository/sqlite/sqlite.go:139 | For UTC times in four-digit years, text order is time order except exactly when both are in one second and the earlier is the later with some of its last decimals made zeros. |
| `Timestamps.FractionPrefixIff` | internal/repository/sqlite/sqlite.go:139 | Those are the pairs of which the earlier trimmed fraction is a proper prefix of the later. |
| `Timestamps.FormatReadsBack` | internal/repository/sqlite/sqlite.go:240 | What is stored for a time is read back as that time. |
| `Timestamps.FormatText` | internal/repository/sqlite/sqlite.go:139 | The stored text field by field, with its widths and separators. |
| `Timestamps.DaysInYear` | internal/repository/sqlite/sqlite.go:139 | The days before each month, with and without a leap day. |
| `Timestamps.DaysBeforeYearIs` | internal/repository/sqlite/sqlite.go:139 | The calendar has 365 days a year and one more in leap years, in closed form. |
| `Decimals.TrimZerosSplits` | internal/repository/sqlite/sqlite.go:139 | What trimming leaves ends in no zero, and zeros make it up to the whole. |
| `Timestamps.ElapsedOrder` | internal/repository/sqlite/sqlite.go:139 | Nanoseconds elapsed compare as year, month, .., second, nanosecond do lexicographically. |
| `Timestamps.WholeSecondSortsLast` | internal/repository/sqlite/sqlite.go:139 | A whole second is stored as a greater text than any later time within it. |
| `Ordering.ListingIsReverse` | internal/repository/sqlite/sqlite.go:187 | Rows in ascending text order have one listing, their reverse. |
| `Ordering.SecondIff` | internal/service/registry.go:129-133 | Of rows with different texts, a row is listed second iff exactly one other has a greater text. |
| `Ordering.SortedLists` | internal/repository/sqlite/sqlite.go:184-187 | Every list of rows has a listing. |
| `Rollbacks.RollbackSwaps` | internal/service/registry.go:124-135 | With the history listed newest first, rollback gives the pointer with version and previous version swapped, as documented. |
| `Rollbacks.RollbacksAlternate` | internal/service/registry.go:124-135 | k rollbacks among any calls on other keys add k rows and leave the version for even k, the previous one for odd k, provided no two times are misordered. |
| `Rollbacks.RestoresPreviousIff` | internal/service/registry.go:129-134 | For every history at increasing times, rollback goes back to the row before the newest iff exactly one row is listed before it, and promotes the previous version iff that is so of some row of that version. |
| `Rollbacks.RollbackStaysPut` | internal/service/registry.go:129-134 | A run from empty stores: two faultless uploads, a promotion at a whole second, one later within it, and a rollback that promotes the current version again. |
| `Rollbacks.TwoPromotions` | internal/service/registry.go:129-134 | After two promotions, rollback restores the first version iff the two times are not misordered; otherwise it promotes the current version again. |
| `ChannelInterleavings.InterleavingsKeepAgreement` | internal/repository/sqlite/sqlite.go:138-172 | However the database calls of promotions, rollbacks and insertions interleave, each pointer is its key's highest-id history row, exists iff the key has history, and resolves. |
| `ChannelInterleavings.StepKeeps` | internal/service/registry.go:91-134 | Each database call keeps that, and what every task in flight has read. |
| `ChannelInterleavings.SoloRunIsPromotion` | internal/service/registry.go:91-121 | The database calls of one promotion with nothing in between do what the promotion does. |
| `ChannelInterleavings.SoloRunIsRollback` | internal/service/registry.go:124-135 | So do those of a rollback. |
| `ChannelInterleavings.InterleavedChainedIff` | internal/service/registry.go:101-116 | In every interleaved run from empty tables a key's history is a chain of previous versions iff every save on the key finds current the version that its task's read found. |
| `ChannelInterleavings.ChainedIffNoneOvertaken` | internal/service/registry.go:101-116 | From any state that keeps the invariant, it is one iff it was and no saved row names a previous version that is not current. |
| `ChannelInterleavings.InterleavingBreaksChain` | internal/service/registry.go:101-116 | A run from empty tables: the rows of two uploads, two promotions that both read before either saves, and a history that is not a chain. |
| `ChannelInterleavings.RollbackSwapsIff` | internal/service/registry.go:124-135 | In every interleaved run, the save of a rollback is the documented swap iff the version listed second is then the previous version and the version read is then the current one. |
| `ChannelInterleavings.UndisturbedRollbackSwaps` | internal/service/registry.go:124-135 | It is so when at the save the listing still lists the key's history, whose texts are in order, its newest row is linked, and the version read is current. |
| `Registry.Repository.SaveChannel` | internal/repository/sqlite/sqlite.go:138-172 | Replaces the channels row and appends to the history, both or neither. |
| `Registry.Repository.ListChannelHistory` | internal/repository/sqlite/sqlite.go:183-203 | Exactly the key's history rows, by descending text of their times. |
| `Registry.LocalStorage.Store` | internal/storage/local/local.go:26-42 | Creates or overwrites the file of the cleaned path; an interrupted write removes it, or leaves a prefix when that fails. |
| `Registry.Registry.Upload` | internal/service/registry.go:43-88 | Result and both stores are those of the upload specification, for every request and fault. |
| `Registry.Registry.Promote` | internal/service/registry.go:91-121 | Saves the specified row or, with the specified error, nothing. |
| `Registry.Registry.Rollback` | internal/service/registry.go:124-135 | Is the specified rollback for some listing that the database may return. |
| `Registry.Registry.ResolveLatest` | internal/service/registry.go:138-144 | The artifact that the channels row names, or the fault of either read; in a sound state without faults it fails only for a channel never promoted. |
| `Paths.AllApartIff` | internal/storage/local/local.go:27 | Over valid identifiers, two of them not dots, and any base directory, all types, names and versions have files of their own iff neither "." nor ".." is among the identifiers. |
| `Paths.SharesFileIff` | internal/storage/local/local.go:27 | Two accepted triples share a file iff they agree on the version and on the cleaned directory of type and name. |
| `Paths.CleanSteps` | internal/storage/local/local.go:27 | Cleaning drops dots and empty components, and two dots with what they follow; at the root they vanish, before a relative path they stay. |
| `Paths.CleanIsCleaned` | internal/storage/local/local.go:27 | No dot or empty component is left, and two dots only in front of a relative path. |
| `Paths.PlainIsApart` | internal/storage/local/local.go:27 | A triple without dots shares its file with no other accepted triple. |
| `UploadInterleavings.SoloRunIsUpload` | internal/service/registry.go:43-88 | The steps of one upload with nothing in between do what the upload does. |
| `UploadInterleavings.StaysIntactIff` | internal/service/registry.go:58-87 | However uploads interleave and fail, a blob holds what its row records in every state of a run iff no step that touches its file leaves anything else there. |
| `UploadInterleavings.WrittenStaysIntactIff` | internal/service/registry.go:63-85 | The same from the moment an upload has written its file, for the row that it is about to commit. |
| `UploadInterleavings.LastTouchDecides` | internal/service/registry.go:63-85 | At the end of any run a blob is intact iff the last step that touched its file left what the row records. |
| `UploadInterleavings.AloneKeepsBlob` | internal/service/registry.go:58-87 | An upload of an unrecorded version whose file no other upload is about has, whenever its row is there, an intact blob, whatever else runs or fails. |
| `UploadInterleavings.CompletedIntactIff` | internal/service/registry.go:63-85 | At the end of a faultless run from empty stores in which every upload has come to its end, a recorded version without dots has its blob iff one upload of it was begun. |
| `UploadInterleavings.TwoUploadsLoseTheBlob` | internal/service/registry.go:81-85 | A run of two uploads of one version, without faults, that ends with a committed row and no file. |
| `Uploads.SecondUploadDestroys` | internal/service/registry.go:81-85 | A plain second upload of a version is refused, keeps the row and deletes its blob. |
| `Uploads.DotsOverwrite` | internal/storage/local/local.go:27 | An upload of type x and name "." overwrites the blob of type "." and name x. |
| `Uploads.TouchesPlainIff` | internal/service/registry.go:58-63 | Only uploads of the same type, name and version touch the file of a version without dots. |
| `Uploads.CommittedStaysIntact` | internal/service/registry.go:58-87 | A record that an upload commits keeps its row and a blob of the recorded size and digest while no later upload writes its file, whatever else is uploaded and whatever fails. |
| `Uploads.SurvivesIff` | internal/service/registry.go:81-85 | Another upload leaves a record's blob intact iff it does not touch its file or leaves content of the same size and digest there. |
| `Uploads.UploadedRow` | internal/service/registry.go:58-79 | A success adds just one row: the request's type and name, its version trimmed with one v in front, the storage key of these, and digest, size, content type, metadata and id as given. |
| `Uploads.UploadOutcome` | internal/service/registry.go:44-85 | Exactly when an upload returns which error, and when it succeeds. |
| `Uploads.SuccessCommits` | internal/service/registry.go:58-87 | Success commits a new row with an intact blob at its storage key. |
| `Uploads.FailureLeavesNothing` | internal/service/registry.go:81-85 | A failed upload to an unused file whose cleanup succeeds leaves both stores as they were. |
| `Uploads.WritesElsewhere` | internal/service/registry.go:58-63 | Uploads that do not touch a record's file leave its blob as it was. |
| `Versions.ScanExact` | internal/service/registry.go:19 | The scanner of the pattern returns a parse iff the text is the print of that parse, so the accepted texts are those of the grammar and their split is unique. |
| `Versions.ScanPrint` | internal/service/registry.go:19 | Scanning a printed version gives it back. |
| `Versions.PrintScan` | internal/service/registry.go:19 | Printing a scanned version gives the text back. |
| `Versions.NormalizeIs` | internal/service/registry.go:176-185 | Normalisation accepts exactly the grammar's texts with any white space around them, and answers with one v in front. |
| `Versions.SpellingsAgree` | internal/service/registry.go:176-185 | Texts that agree after trimming and dropping one leading v are treated alike, accepted or not. |
| `Text.TrimSpaceIff` | internal/service/registry.go:177 | Trimming gives the one text without white space at its edges that has white space around it. |
| `Versions.NormalizeIdempotent` | internal/service/registry.go:176-185 | Normalising twice is normalising once. |
| `Versions.NormalizeKernel` | internal/service/registry.go:176-185 | Two inputs normalise alike iff they agree after trimming and dropping one leading v. |
| `Identifiers.StorageKeyInjective` | internal/service/registry.go:172-198 | Accepted triples share a storage key iff they are equal, even with untrimmed white space. |
| `Identifiers.ValidIdentifierIff` | internal/service/registry.go:187-198 | Accepted are one to 128 letters, digits, dashes, underscores and dots, with white space around them. |
| `Identifiers.NewId` | internal/service/registry.go:204-212 | Fills the buffer with the shifted windows of the reading and hex-encodes it. |
| `Identifiers.HexReadsBack` | internal/service/registry.go:211 | The text has two characters a byte, high nibble first. |
| `Identifiers.IdDecodes` | internal/service/registry.go:207-210 | Low nibbles give the reading back; each high nibble is the next byte's low one; the last is zero. |
| `Identifiers.IdInjective` | internal/service/registry.go:204-212 | Ids are equal iff the signed 64-bit readings are. |
| `Auth.AllowedIsUnion` | internal/auth/auth.go:41-64 | For the loaded entries the first-match lookup with its early refusal equals the order-free union: a key is allowed iff it stands, with white space around it, between commas of a setting that gives the scope. |
| `Auth.AllowedIff` | internal/auth/auth.go:41-64 | For any store of keys, however built: the empty key is never let in, and for another the first entry with it alone decides, by any one of its scopes. |
| `Auth.ScopesAreMonotone` | internal/auth/auth.go:66-78 | Admin gives write gives read, and a key is known iff it may read. |
| `Auth.OrderMatters` | internal/auth/auth.go:49-62 | In another order of entries the early refusal loses rights. |
| `Auth.LoadKeys` | internal/config/config.go:81-93 | Administrators, writers, readers, in that order; the lookup over the result is the union of the three settings. |
| `Auth.SplitKeys` | internal/config/config.go:95-103 | One key for each piece between commas that is not all white space, in order: the nonempty text without white space at its edges that the piece has white space around. |
| `Text.SplitJoins` | internal/config/config.go:97 | Joining the pieces with the separator gives the text back, and no piece has a separator. |

## Left out

- HTTP handlers, routing, middleware, logging, multipart parsing and start-up, but for the from/to mapping of the two channel events.
- The S3 backend and signed URLs: the file store is the one storage backend modelled.
- SQL parsing and drivers: each statement or transaction is one step that takes effect or does not.
- SHA-256 and HMAC are arbitrary functions, so nothing is claimed about collisions or forgery.
- Real time: POST timeouts and sleeping threads are not modelled beyond the sum of the delays; a thread may take its next step at any time.
- Directories, links and permissions of the file system: a file is its cleaned path, and what may go wrong with it is a fault of the step.
- An unconditional claim that every recorded artifact keeps its blob: the code does not give it, and `Uploads.SurvivesIff` and `UploadInterleavings.StaysIntactIff` say when it fails.
- Listings of versions and of dead letters, and the columns created_at and updated_at: sorting by one more text would add only easy members.
- Order of deliveries: not promised by the code.
- Fresh event and delivery ids (random UUIDs) are an assumption of the protocol's emission steps.
- Error texts, and the recognition of unique violations by their text: errors are told apart by kind.
- Environment settings other than the API keys.
- Calendar conversion of the clock: times are given as year to nanosecond; years beyond 9999 are not stored with four digits and are excluded.
- Two writes of one file at the same time: each write of a file is one step, so mixed contents of two uploads are not modelled.
- Channels.EventsReproducePointer: follows events by channel, type and name; the event body itself names only the channel, so a receiver of several artifacts on one channel cannot do this from the body alone.
- Json.SkipWritten: the scanner covers strings, integers and objects, which is all that the events hold; it does not read arrays, literals, white space, surrogate escapes or invalid UTF-8, and keys are matched in their exact case.
- Timestamps.TextOrder: is about UTC instants as the code stores them; monotonic clock readings are not modelled.
