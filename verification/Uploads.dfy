/**
 Upload as an update of two stores with compensation: the blob is written first, then the row is
 inserted, and the blob is deleted when the insertion fails. The digest is any function of the bytes.
 */
module Uploads {
  import opened Catalog
  import opened Identifiers
  import opened Paths
  import opened Text
  import opened Versions
  import opened Wrappers

  type Bytes = seq<byte>

  /** The digest in use and the base directory of the file store. */
  datatype Site = Site(digest: Bytes -> string, base: Base)

  datatype Request = Request(
    artifactType: string, name: string, version: string, contentType: string,
    metadata: map<string, string>, content: Bytes)

  /** How writing a file may fail: before the file is touched, or after some of the bytes, in which case
      the file is removed unless that fails too. */
  datatype StoreFault = NoFault | Untouched | Interrupted(written: nat, removed: bool)

  datatype UploadFaults = UploadFaults(store: StoreFault, insert: bool, delete: bool)

  type Files = map<Path, Bytes>

  datatype World = World(db: Db, files: Files)

  function FilesAfterStore(files: Files, path: Path, content: Bytes, fault: StoreFault): Files {
    match fault
    case NoFault => files[path := content]
    case Untouched => files
    case Interrupted(n, removed) =>
      if removed then files - {path} else files[path := if n < |content| then content[..n] else content]
  }

  function FilesAfterDelete(files: Files, path: Path, fault: bool): Files {
    if fault then files else files - {path}
  }

  predicate Acceptable(r: Request) {
    ValidIdentifier(r.artifactType) && ValidIdentifier(r.name) && NormalizeVersion(r.version).Ok?
  }

  function KeyOf(r: Request): ArtifactKey
    requires Acceptable(r)
  {
    ArtifactKey(r.artifactType, r.name, NormalizeVersion(r.version).value)
  }

  function StorageKeyOf(k: ArtifactKey): string {
    StorageKey(k.artifactType, k.name, k.version)
  }

  function FileFor(site: Site, k: ArtifactKey): Path {
    FileOf(site.base, StorageKeyOf(k))
  }

  /** The row for a request whose file has been stored. */
  function RowFor(site: Site, r: Request, id: string): Artifact
    requires Acceptable(r)
  {
    Artifact(id, KeyOf(r), site.digest(r.content), |r.content|,
             if r.contentType == "" then "application/octet-stream" else r.contentType,
             r.metadata, StorageKeyOf(KeyOf(r)))
  }

  function RequestError(r: Request): Error {
    if !ValidIdentifier(r.artifactType) || !ValidIdentifier(r.name) then InvalidInput else Error.InvalidVersion
  }

  /** Why the insertion of the row fails, if it does. */
  function InsertError(db: Db, row: Artifact, fault: bool): Option<Error> {
    if fault then Some(StoreFailed) else if Collides(db, row) then Some(AlreadyExists) else None
  }

  function Upload(site: Site, w: World, r: Request, id: string, faults: UploadFaults)
    : (World, Result<Artifact, Error>)
  {
    if !Acceptable(r) then (w, Err(RequestError(r))) else
    var path, row := FileFor(site, KeyOf(r)), RowFor(site, r, id);
    var stored := FilesAfterStore(w.files, path, r.content, faults.store);
    if faults.store != NoFault then (World(w.db, stored), Err(StoreFailed)) else
    var error := InsertError(w.db, row, faults.insert);
    if error.Some? then (World(w.db, FilesAfterDelete(stored, path, faults.delete)), Err(error.value))
    else (World(InsertArtifact(w.db, row), stored), Ok(row))
  }

  datatype Attempt = Attempt(request: Request, id: string, faults: UploadFaults)

  function After(site: Site, w: World, a: Attempt): World {
    Upload(site, w, a.request, a.id, a.faults).0
  }

  function AfterAll(site: Site, w: World, attempts: seq<Attempt>): World
    decreases |attempts|
  {
    if attempts == [] then w else AfterAll(site, After(site, w, attempts[0]), attempts[1..])
  }

  // ---------------------------------------------------------------- rows and their blobs

  function FileAt(files: Files, path: Path): Option<Bytes> {
    if path in files then Some(files[path]) else None
  }

  /** The file holds what the row records. */
  predicate Matches(site: Site, file: Option<Bytes>, row: Artifact) {
    file.Some? && |file.value| == row.sizeBytes && site.digest(file.value) == row.sha256
  }

  /** The file of the row's storage key has the recorded size and digest. */
  predicate Intact(site: Site, files: Files, row: Artifact) {
    Matches(site, FileAt(files, FileOf(site.base, row.storageKey)), row)
  }

  ghost predicate AcceptedKey(k: ArtifactKey) {
    Accepted(k.artifactType, k.name, k.version)
  }

  /** The row is of an accepted version and has its storage key, as uploads make them. */
  ghost predicate Placed(row: Artifact) {
    AcceptedKey(row.key) && row.storageKey == StorageKeyOf(row.key)
  }

  /** The row is in the table under its own key, as uploads leave it. */
  ghost predicate Committed(db: Db, row: Artifact) {
    row.key in db.artifacts && db.artifacts[row.key] == row && Placed(row)
  }

  predicate SharesFile(site: Site, k: ArtifactKey, k': ArtifactKey) {
    FileFor(site, k) == FileFor(site, k')
  }

  /** Neither type nor name is a dot or two dots. */
  predicate Plain(k: ArtifactKey) {
    !Dots(k.artifactType) && !Dots(k.name)
  }

  /** A plain version shares its file with no other. */
  lemma PlainSharesOnlyItself(site: Site, k: ArtifactKey, k': ArtifactKey)
    requires AcceptedKey(k) && AcceptedKey(k') && Plain(k)
    ensures SharesFile(site, k, k') <==> k == k'
  {
    PlainIsApart(site.base, k.artifactType, k.name, k.version, k'.artifactType, k'.name, k'.version);
  }

  /** The attempt gets as far as writing the file that this version has. */
  predicate Touches(site: Site, a: Attempt, k: ArtifactKey) {
    Acceptable(a.request) && SharesFile(site, KeyOf(a.request), k) && a.faults.store != Untouched
  }

  lemma AcceptableIsAccepted(r: Request)
    requires Acceptable(r)
    ensures AcceptedKey(KeyOf(r))
  {
    assert NormalizeVersion(r.version) == Ok(KeyOf(r).version);
  }

  /** Only uploads of the same type, name and version touch the file of a plain version. */
  lemma TouchesPlainIff(site: Site, a: Attempt, k: ArtifactKey)
    requires AcceptedKey(k) && Plain(k)
    ensures Touches(site, a, k) <==> Acceptable(a.request) && KeyOf(a.request) == k && a.faults.store != Untouched
  {
    if Acceptable(a.request) {
      AcceptableIsAccepted(a.request);
      PlainSharesOnlyItself(site, k, KeyOf(a.request));
    }
  }

  /** The version as it is recorded: rid of white space around it, with one v in front. */
  function RecordedVersion(version: string): string {
    "v" + DropV(TrimSpace(version))
  }

  ghost predicate WellNamed(r: Request) {
    ValidIdentifier(r.artifactType) && ValidIdentifier(r.name)
  }

  /** No row has this type, name and recorded version, and none has this id. */
  ghost predicate Unused(db: Db, r: Request, id: string) {
    && ArtifactKey(r.artifactType, r.name, RecordedVersion(r.version)) !in db.artifacts
    && forall k :: k in db.artifacts ==> db.artifacts[k].id != id
  }

  /** Exactly when an upload gives which answer. */
  lemma UploadOutcome(site: Site, w: World, a: Attempt)
    ensures var r, f := a.request, a.faults;
            var result := Upload(site, w, r, a.id, f).1;
            && (result == Err(InvalidInput) <==> !WellNamed(r))
            && (result == Err(Error.InvalidVersion) <==> WellNamed(r) && !Grammatical(r.version))
            && (result == Err(StoreFailed) <==>
                  WellNamed(r) && Grammatical(r.version) && (f.store != NoFault || f.insert))
            && (result == Err(AlreadyExists) <==>
                  WellNamed(r) && Grammatical(r.version) && f.store == NoFault && !f.insert && !Unused(w.db, r, a.id))
            && (result.Ok? <==>
                  WellNamed(r) && Grammatical(r.version) && f.store == NoFault && !f.insert && Unused(w.db, r, a.id))
  {
    NormalizeIs(a.request.version);
  }

  /** The row that a successful upload adds, from the request's own fields, and nothing else changes in the
      tables. */
  lemma UploadedRow(site: Site, w: World, a: Attempt)
    requires Upload(site, w, a.request, a.id, a.faults).1.Ok?
    ensures var r, row := a.request, Upload(site, w, a.request, a.id, a.faults).1.value;
            && row.id == a.id && row.key == ArtifactKey(r.artifactType, r.name, RecordedVersion(r.version))
            && row.sha256 == site.digest(r.content) && row.sizeBytes == |r.content|
            && row.contentType == (if r.contentType == "" then "application/octet-stream" else r.contentType)
            && row.metadata == r.metadata
            && row.storageKey
                 == r.artifactType + ("/" + (r.name + ("/" + (RecordedVersion(r.version) + "/artifact"))))
            && After(site, w, a).db == w.db.(artifacts := w.db.artifacts[row.key := row])
  {
    NormalizeIs(a.request.version);
  }

  /** A successful upload commits its row with an intact blob. */
  lemma SuccessCommits(site: Site, w: World, a: Attempt)
    requires Upload(site, w, a.request, a.id, a.faults).1.Ok?
    ensures var row := Upload(site, w, a.request, a.id, a.faults).1.value;
            && Committed(After(site, w, a).db, row) && Intact(site, After(site, w, a).files, row)
            && row.key !in w.db.artifacts
  {
    AcceptableIsAccepted(a.request);
  }

  /** What a write that touches the file leaves in it. */
  function LeftBy(content: Bytes, store: StoreFault): Option<Bytes> {
    match store
    case Interrupted(n, removed) =>
      if removed then None else Some(if n < |content| then content[..n] else content)
    case _ => Some(content)
  }

  lemma StoreChanges(files: Files, path: Path, content: Bytes, store: StoreFault, other: Path)
    ensures FileAt(FilesAfterStore(files, path, content, store), other)
            == if other == path && store != Untouched then LeftBy(content, store) else FileAt(files, other)
  {
  }

  lemma DeleteChanges(files: Files, path: Path, fault: bool, other: Path)
    ensures FileAt(FilesAfterDelete(files, path, fault), other)
            == if other == path && !fault then None else FileAt(files, other)
  {
  }

  /** What an attempt that touches its file leaves there in the end: the cleanup of a refused insertion
      deletes it, unless that fails. */
  function LeftBehind(site: Site, w: World, a: Attempt): Option<Bytes>
    requires Acceptable(a.request)
  {
    if a.faults.store == NoFault && !a.faults.delete
       && InsertError(w.db, RowFor(site, a.request, a.id), a.faults.insert).Some? then None
    else LeftBy(a.request.content, a.faults.store)
  }

  /** An upload changes the file that it touches, and no other. */
  lemma FilesChange(site: Site, w: World, a: Attempt, k: ArtifactKey)
    ensures FileAt(After(site, w, a).files, FileFor(site, k))
            == if Touches(site, a, k) then LeftBehind(site, w, a) else FileAt(w.files, FileFor(site, k))
  {
    if Acceptable(a.request) {
      var path := FileFor(site, KeyOf(a.request));
      var stored := FilesAfterStore(w.files, path, a.request.content, a.faults.store);
      StoreChanges(w.files, path, a.request.content, a.faults.store, FileFor(site, k));
      DeleteChanges(stored, path, a.faults.delete, FileFor(site, k));
    }
  }

  /** Uploads that do not touch a record's file leave its blob alone. */
  lemma WritesElsewhere(site: Site, w: World, a: Attempt, row: Artifact)
    requires Placed(row) && !Touches(site, a, row.key)
    ensures Intact(site, After(site, w, a).files, row) <==> Intact(site, w.files, row)
  {
    FilesChange(site, w, a, row.key);
  }

  /** Rows are never changed or removed. */
  lemma RowsStay(site: Site, w: World, a: Attempt, row: Artifact)
    requires Committed(w.db, row)
    ensures Committed(After(site, w, a).db, row)
  {
  }

  lemma {:induction false} UntouchedStaysIntact(site: Site, w: World, attempts: seq<Attempt>, row: Artifact)
    requires Committed(w.db, row) && Intact(site, w.files, row)
    requires forall i :: 0 <= i < |attempts| ==> !Touches(site, attempts[i], row.key)
    ensures var w' := AfterAll(site, w, attempts);
            Committed(w'.db, row) && Intact(site, w'.files, row)
    decreases |attempts|
  {
    if attempts == [] {
    } else {
      RowsStay(site, w, attempts[0], row);
      WritesElsewhere(site, w, attempts[0], row);
      UntouchedStaysIntact(site, After(site, w, attempts[0]), attempts[1..], row);
    }
  }

  /** Over any uploads with any faults, a record committed by an upload keeps its row and an intact blob for
      as long as no later upload gets to write its file. */
  lemma CommittedStaysIntact(site: Site, w: World, a: Attempt, later: seq<Attempt>)
    requires Upload(site, w, a.request, a.id, a.faults).1.Ok?
    requires var row := Upload(site, w, a.request, a.id, a.faults).1.value;
             forall i :: 0 <= i < |later| ==> !Touches(site, later[i], row.key)
    ensures var row := Upload(site, w, a.request, a.id, a.faults).1.value;
            var w' := AfterAll(site, After(site, w, a), later);
            Committed(w'.db, row) && Intact(site, w'.files, row)
  {
    SuccessCommits(site, w, a);
    UntouchedStaysIntact(site, After(site, w, a), later, Upload(site, w, a.request, a.id, a.faults).1.value);
  }

  /** A recorded artifact survives another upload exactly when that upload does not reach its file, or leaves
      there content of the recorded size and digest. */
  lemma SurvivesIff(site: Site, w: World, a: Attempt, row: Artifact)
    requires Committed(w.db, row) && Intact(site, w.files, row)
    ensures Intact(site, After(site, w, a).files, row) <==>
            !Touches(site, a, row.key) || Matches(site, LeftBehind(site, w, a), row)
  {
    FilesChange(site, w, a, row.key);
  }

  /** So the plain second upload of a version, without any fault, is refused and takes the first one's blob. */
  lemma SecondUploadDestroys(site: Site, w: World, a: Attempt, b: Attempt)
    requires Upload(site, w, a.request, a.id, a.faults).1.Ok?
    requires Acceptable(b.request) && KeyOf(b.request) == KeyOf(a.request)
    requires b.faults == UploadFaults(NoFault, false, false)
    ensures var row := Upload(site, w, a.request, a.id, a.faults).1.value;
            var w' := After(site, After(site, w, a), b);
            && Upload(site, After(site, w, a), b.request, b.id, b.faults).1 == Err(AlreadyExists)
            && Committed(w'.db, row) && !Intact(site, w'.files, row)
  {
    var row := Upload(site, w, a.request, a.id, a.faults).1.value;
    SuccessCommits(site, w, a);
    RowsStay(site, After(site, w, a), b, row);
    assert Collides(After(site, w, a).db, RowFor(site, b.request, b.id));
    SurvivesIff(site, After(site, w, a), b, row);
  }

  /** And an upload of another name can overwrite it, when dots lead both to one file. */
  lemma DotsOverwrite(site: Site, w: World, a: Attempt, b: Attempt, x: string)
    requires Upload(site, w, a.request, a.id, a.faults).1.Ok?
    requires Upload(site, After(site, w, a), b.request, b.id, b.faults).1.Ok?
    requires ValidIdentifier(x) && !Dots(x)
    requires a.request.artifactType == "." && a.request.name == x
    requires b.request.artifactType == x && b.request.name == "."
    requires KeyOf(b.request).version == KeyOf(a.request).version
    requires site.digest(b.request.content) != site.digest(a.request.content)
    ensures var row := Upload(site, w, a.request, a.id, a.faults).1.value;
            var w' := After(site, After(site, w, a), b);
            Committed(w'.db, row) && !Intact(site, w'.files, row)
  {
    var k, k' := KeyOf(a.request), KeyOf(b.request);
    SuccessCommits(site, w, a);
    RowsStay(site, After(site, w, a), b, Upload(site, w, a.request, a.id, a.faults).1.value);
    AcceptableIsAccepted(a.request);
    AcceptableIsAccepted(b.request);
    ValidNotEmpty(x);
    DotMerges(site.base, x);
    SharesFileIff(site.base, k.artifactType, k.name, k.version, k'.artifactType, k'.name, k'.version);
    SurvivesIff(site, After(site, w, a), b, Upload(site, w, a.request, a.id, a.faults).1.value);
  }

  /** A failed upload to an unused file whose cleanup succeeds leaves both stores as they were. */
  lemma FailureLeavesNothing(site: Site, w: World, a: Attempt)
    requires Upload(site, w, a.request, a.id, a.faults).1.Err?
    requires Acceptable(a.request) ==> FileFor(site, KeyOf(a.request)) !in w.files
    requires !a.faults.delete && (a.faults.store.Interrupted? ==> a.faults.store.removed)
    ensures After(site, w, a) == w
  {
    if Acceptable(a.request) {
      CleanedUp(w.files, FileFor(site, KeyOf(a.request)), a.request.content, a.faults.store);
    }
  }

  lemma CleanedUp(files: Files, path: Path, content: Bytes, store: StoreFault)
    requires path !in files
    ensures FilesAfterDelete(FilesAfterStore(files, path, content, NoFault), path, false) == files
    ensures store.Interrupted? && store.removed ==> FilesAfterStore(files, path, content, store) == files
  {
    assert files[path := content] - {path} == files;
    assert files - {path} == files;
  }

  // ---------------------------------------------------------------- two uploads to begin with

  const NO_UPLOAD_FAULTS := UploadFaults(NoFault, false, false)

  const EMPTY_WORLD := World(NO_ROWS, map[])

  lemma PlainRequest(artifactType: string, name: string, version: string) returns (r: Request)
    requires ValidIdentifier(artifactType) && ValidIdentifier(name) && Normal(version)
    ensures Acceptable(r) && KeyOf(r) == ArtifactKey(artifactType, name, version)
  {
    r := Request(artifactType, name, version, "", map[], []);
  }

  lemma OneUpload(site: Site, w: World, a: Attempt, row: Artifact) returns (w': World)
    requires Acceptable(a.request) && a.faults == NO_UPLOAD_FAULTS && row == RowFor(site, a.request, a.id)
    requires !Collides(w.db, row)
    ensures w' == After(site, w, a) && w'.db == InsertArtifact(w.db, row)
  {
    w' := After(site, w, a);
  }

  lemma NoCollision(x: Artifact, y: Artifact)
    requires x.key != y.key && x.id != y.id
    ensures !Collides(NO_ROWS, x) && !Collides(InsertArtifact(NO_ROWS, x), y)
  {
  }

  lemma TwoAttempts(site: Site, w: World, a: Attempt, w1: World, b: Attempt, w2: World)
    requires w1 == After(site, w, a) && w2 == After(site, w1, b)
    ensures AfterAll(site, w, [a, b]) == w2
  {
    assert [a, b][1..] == [b] && [b][1..] == [];
    assert AfterAll(site, w1, [b]) == w2;
  }

  lemma UploadsInTurn(site: Site, a: Attempt, b: Attempt, x: Artifact, y: Artifact)
    requires Acceptable(a.request) && Acceptable(b.request) && a.faults == b.faults == NO_UPLOAD_FAULTS
    requires x == RowFor(site, a.request, a.id) && y == RowFor(site, b.request, b.id) && x.key != y.key && x.id != y.id
    ensures AfterAll(site, EMPTY_WORLD, [a, b]).db == InsertArtifact(InsertArtifact(NO_ROWS, x), y)
  {
    NoCollision(x, y);
    var w1 := OneUpload(site, EMPTY_WORLD, a, x);
    var w2 := OneUpload(site, w1, b, y);
    TwoAttempts(site, EMPTY_WORLD, a, w1, b, w2);
  }

  lemma TwoIds() returns (id: string, id': string)
    ensures id != id'
  {
    IdInjective(1, 2);
    id, id' := IdOf(1), IdOf(2);
  }

  lemma RowOf(site: Site, r: Request, k: ArtifactKey, id: string) returns (row: Artifact)
    requires Acceptable(r) && KeyOf(r) == k
    ensures row == RowFor(site, r, id) && row.key == k && row.id == id
  {
    row := RowFor(site, r, id);
  }

  /** From empty stores, two versions of one name can be uploaded. */
  lemma TwoUploaded(site: Site, artifactType: string, name: string)
    returns (attempts: seq<Attempt>, a: Artifact, b: Artifact)
    requires ValidIdentifier(artifactType) && ValidIdentifier(name)
    ensures |attempts| == 2 && AfterAll(site, EMPTY_WORLD, attempts).db == InsertArtifact(InsertArtifact(NO_ROWS, a), b)
    ensures forall i :: 0 <= i < 2 ==> Acceptable(attempts[i].request) && attempts[i].faults == NO_UPLOAD_FAULTS
    ensures a == RowFor(site, attempts[0].request, attempts[0].id)
    ensures b == RowFor(site, attempts[1].request, attempts[1].id)
    ensures a.id != b.id && a.key.artifactType == b.key.artifactType == artifactType && a.key.name == b.key.name == name
    ensures Normal(a.key.version) && Normal(b.key.version) && a.key.version != b.key.version
  {
    var v, w := TwoNormal();
    var r := PlainRequest(artifactType, name, v);
    var r' := PlainRequest(artifactType, name, w);
    var id, id' := TwoIds();
    attempts := [Attempt(r, id, NO_UPLOAD_FAULTS), Attempt(r', id', NO_UPLOAD_FAULTS)];
    a := RowOf(site, r, ArtifactKey(artifactType, name, v), id);
    b := RowOf(site, r', ArtifactKey(artifactType, name, w), id');
    UploadsInTurn(site, attempts[0], attempts[1], a, b);
  }
}
