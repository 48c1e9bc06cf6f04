/**
 The registry service over its two stores, as objects that change in place: each operation is proved to
 do to the tables and files exactly what the functions of modules Channels and Uploads say, whose
 properties those modules prove. Faults, the clock and fresh ids are parameters.
 */
module Registry {
  import opened Catalog
  import opened Channels
  import opened Ordering
  import opened Paths
  import opened Timestamps
  import opened Uploads
  import opened Versions
  import opened Wrappers
  import Identifiers

  /** The metadata database. A failed statement or transaction has no effect. */
  class Repository {
    var artifacts: map<ArtifactKey, Artifact>
    var channels: map<ChannelKey, Pointer>
    var history: seq<Pointer>

    ghost function View(): Db
      reads this
    {
      Db(artifacts, channels, history)
    }

    constructor ()
      ensures View() == NO_ROWS && Sound(View())
    {
      artifacts, channels, history := map[], map[], [];
    }

    method SaveArtifact(a: Artifact, fault: bool) returns (error: Option<Error>)
      modifies this
      ensures error == InsertError(old(View()), a, fault)
      ensures View() == if error.Some? then old(View()) else InsertArtifact(old(View()), a)
    {
      if fault {
        return Some(StoreFailed);
      }
      if a.key in artifacts || exists k :: k in artifacts && artifacts[k].id == a.id {
        return Some(AlreadyExists);
      }
      artifacts := artifacts[a.key := a];
      return None;
    }

    method GetArtifact(key: ArtifactKey, fault: bool) returns (r: Result<Artifact, Error>)
      ensures r == if fault then Err(StoreFailed) else if key in artifacts then Ok(artifacts[key]) else Err(NotFound)
    {
      if fault {
        return Err(StoreFailed);
      }
      return if key in artifacts then Ok(artifacts[key]) else Err(NotFound);
    }

    /** One transaction. */
    method SaveChannel(row: Pointer, fault: bool) returns (ok: bool)
      modifies this
      ensures ok == !fault
      ensures View() == if fault then old(View()) else SaveRow(old(View()), row)
    {
      ok := !fault;
      if ok {
        channels := channels[row.key := row];
        history := history + [row];
      }
    }

    method GetChannel(key: ChannelKey, fault: bool) returns (r: Result<Pointer, Error>)
      ensures r == if fault then Err(StoreFailed) else if key in channels then Ok(channels[key]) else Err(NotFound)
    {
      if fault {
        return Err(StoreFailed);
      }
      return if key in channels then Ok(channels[key]) else Err(NotFound);
    }

    /** The key's history by descending text of its times; of the order of equal texts nothing is promised. */
    method ListChannelHistory(key: ChannelKey, fault: bool) returns (r: Result<seq<Pointer>, Error>)
      ensures r.Err? <==> fault
      ensures r.Err? ==> r.error == StoreFailed
      ensures r.Ok? ==> Lists(View(), key, r.value)
    {
      if fault {
        return Err(StoreFailed);
      }
      var rows := Sorted(KeyHistory(history, key), Stored);
      SortedLists(KeyHistory(history, key), Stored);
      var out: seq<Pointer> := [];
      for i := 0 to |rows|
        invariant out == rows[..i]
      {
        out := out + [rows[i]];
      }
      assert out == rows;
      return Ok(out);
    }
  }

  /** The file store. */
  class LocalStorage {
    const base: Base
    var files: Files

    constructor (base: Base)
      ensures this.base == base && files == map[]
    {
      this.base, files := base, map[];
    }

    method Store(key: string, content: Bytes, fault: StoreFault) returns (size: Option<nat>)
      modifies this
      ensures size == if fault == NoFault then Some(|content|) else None
      ensures files == FilesAfterStore(old(files), FileOf(base, key), content, fault)
    {
      var path := FileOf(base, key);
      match fault
      case NoFault =>
        files := files[path := content];
        return Some(|content|);
      case Untouched =>
        return None;
      case Interrupted(n, removed) =>
        files := files[path := if n < |content| then content[..n] else content];
        if removed {
          files := files - {path};
        }
        assert files == FilesAfterStore(old(files), path, content, fault);
        return None;
    }

    method Delete(key: string, fault: bool)
      modifies this
      ensures files == FilesAfterDelete(old(files), FileOf(base, key), fault)
    {
      if !fault {
        files := files - {FileOf(base, key)};
      }
    }

    method Open(key: string, fault: bool) returns (r: Result<Bytes, Error>)
      ensures r == if fault then Err(StoreFailed)
                   else match FileAt(files, FileOf(base, key))
                        case Some(content) => Ok(content)
                        case None => Err(NotFound)
    {
      if fault {
        return Err(StoreFailed);
      }
      var path := FileOf(base, key);
      return if path in files then Ok(files[path]) else Err(NotFound);
    }
  }

  class Registry {
    const repo: Repository
    const storage: LocalStorage
    const digest: Bytes -> string

    ghost function View(): World
      reads repo, storage
    {
      World(repo.View(), storage.files)
    }

    constructor (repo: Repository, storage: LocalStorage, digest: Bytes -> string)
      ensures this.repo == repo && this.storage == storage && this.digest == digest
    {
      this.repo, this.storage, this.digest := repo, storage, digest;
    }

    /** `now` is the clock reading that the artifact id is made from. */
    method Upload(r: Request, now: int, faults: UploadFaults) returns (result: Result<Artifact, Error>)
      modifies repo, storage
      ensures (View(), result)
                == Uploads.Upload(Site(digest, storage.base), old(View()), r, Identifiers.IdOf(now), faults)
    {
      if !Identifiers.ValidIdentifier(r.artifactType) || !Identifiers.ValidIdentifier(r.name) {
        return Err(InvalidInput);
      }
      var version := NormalizeVersion(r.version);
      if version.Err? {
        return Err(Error.InvalidVersion);
      }
      var contentType := if r.contentType == "" then "application/octet-stream" else r.contentType;
      var key := ArtifactKey(r.artifactType, r.name, version.value);
      var storageKey := StorageKeyOf(key);
      var size := storage.Store(storageKey, r.content, faults.store);
      if size.None? {
        return Err(StoreFailed);
      }
      var id := Identifiers.NewId(now);
      var row := Artifact(id, key, digest(r.content), size.value, contentType, r.metadata, storageKey);
      var error := repo.SaveArtifact(row, faults.insert);
      if error.Some? {
        storage.Delete(storageKey, faults.delete);
        return Err(error.value);
      }
      return Ok(row);
    }

    method Promote(key: ChannelKey, version: string, actor: string, now: Instant, faults: Faults)
      returns (r: Result<Pointer, Error>)
      modifies repo
      ensures r == Promotion(old(repo.View()), key, version, actor, now, faults)
      ensures repo.View() == Saved(old(repo.View()), r)
    {
      var v := NormalizeVersion(version);
      if v.Err? {
        return Err(Error.InvalidVersion);
      }
      var artifact := repo.GetArtifact(ArtifactKey(key.artifactType, key.name, v.value), faults.find);
      if artifact.Err? {
        return Err(artifact.error);
      }
      var previous := "";
      var current := repo.GetChannel(key, faults.read);
      if current.Ok? {
        previous := current.value.version;
      }
      var row := Pointer(key, v.value, artifact.value.id, previous, now, actor);
      var ok := repo.SaveChannel(row, faults.save);
      if !ok {
        return Err(StoreFailed);
      }
      return Ok(row);
    }

    /** For some listing that the database may return, the second row's version is promoted. */
    method Rollback(key: ChannelKey, actor: string, now: Instant, listFault: bool, faults: Faults)
      returns (r: Result<Pointer, Error>)
      modifies repo
      ensures listFault ==> r == Err(StoreFailed)
      ensures !listFault ==>
        exists listing :: Lists(old(repo.View()), key, listing)
                          && r == RollbackOf(old(repo.View()), key, actor, now, listing, faults)
      ensures repo.View() == Saved(old(repo.View()), r)
    {
      var history := repo.ListChannelHistory(key, listFault);
      if history.Err? {
        return Err(history.error);
      }
      assert Lists(repo.View(), key, history.value);
      if |history.value| < 2 {
        return Err(NoChannelHistory);
      }
      r := Promote(key, history.value[1].version, actor, now, faults);
      assert r == RollbackOf(old(repo.View()), key, actor, now, history.value, faults);
    }

    method ResolveLatest(key: ChannelKey, readFault: bool, findFault: bool) returns (r: Result<Artifact, Error>)
      ensures r == if readFault then Err(StoreFailed)
                   else if findFault && key in repo.channels then Err(StoreFailed)
                   else Resolve(repo.View(), key)
      ensures Sound(repo.View()) && !readFault && !findFault ==> (r.Ok? <==> KeyHistory(repo.history, key) != [])
    {
      if Sound(repo.View()) {
        PromotedResolves(repo.View(), key);
      }
      var ch := repo.GetChannel(key, readFault);
      if ch.Err? {
        return Err(ch.error);
      }
      r := repo.GetArtifact(ArtifactKey(key.artifactType, key.name, ch.value.version), findFault);
    }
  }
}
