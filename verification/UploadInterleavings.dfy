/**
 Uploads that interleave: writing the file, inserting the row and cleaning up are one step each, between
 any of other uploads. A blob stays as recorded exactly as long as no step of an upload with the same file
 leaves something else in it. An upload alone with its file keeps its blob; in a run that ends without
 faults, a plain version has its blob exactly when it was uploaded once.
 */
module UploadInterleavings {
  import opened Catalog
  import opened Paths
  import opened Uploads
  import opened Versions
  import opened Wrappers

  /** Where an upload stands: about to write its file, to insert its row, to clean up, or at its end. */
  datatype Task =
    | Storing(request: Request)
    | Inserting(request: Request)
    | Cleaning(key: ArtifactKey)
    | Finished

  datatype State = State(world: World, tasks: seq<Task>)

  const NOTHING := State(World(NO_ROWS, map[]), [])

  datatype Step =
    | Begin(request: Request)
    | WriteFile(t: nat, store: StoreFault)
    | InsertRow(t: nat, id: string, fault: bool)
    | RemoveFile(t: nat, fault: bool)

  predicate Enabled(s: State, step: Step) {
    match step
    case Begin(_) => true
    case WriteFile(t, _) => t < |s.tasks| && s.tasks[t].Storing? && Acceptable(s.tasks[t].request)
    case InsertRow(t, _, _) => t < |s.tasks| && s.tasks[t].Inserting? && Acceptable(s.tasks[t].request)
    case RemoveFile(t, _) => t < |s.tasks| && s.tasks[t].Cleaning?
  }

  /** An upload of an unacceptable request is over at once. */
  function Begun(r: Request): Task {
    if Acceptable(r) then Storing(r) else Finished
  }

  ghost function Put(s: State, t: nat, world: World, task: Task): State
    requires t < |s.tasks|
  {
    State(world, s.tasks[t := task])
  }

  ghost function Apply(site: Site, s: State, step: Step): State
    requires Enabled(s, step)
  {
    match step
    case Begin(r) => s.(tasks := s.tasks + [Begun(r)])
    case WriteFile(t, fault) =>
      var r := s.tasks[t].request;
      Put(s, t, s.world.(files := FilesAfterStore(s.world.files, FileFor(site, KeyOf(r)), r.content, fault)),
          if fault == NoFault then Inserting(r) else Finished)
    case InsertRow(t, id, fault) =>
      var r := s.tasks[t].request;
      var row := RowFor(site, r, id);
      if InsertError(s.world.db, row, fault).Some? then Put(s, t, s.world, Cleaning(KeyOf(r)))
      else Put(s, t, s.world.(db := InsertArtifact(s.world.db, row)), Finished)
    case RemoveFile(t, fault) =>
      Put(s, t, s.world.(files := FilesAfterDelete(s.world.files, FileFor(site, s.tasks[t].key), fault)), Finished)
  }

  ghost predicate Runs(site: Site, s: State, steps: seq<Step>)
    decreases |steps|
  {
    steps == [] || (Enabled(s, steps[0]) && Runs(site, Apply(site, s, steps[0]), steps[1..]))
  }

  ghost function Exec(site: Site, s: State, steps: seq<Step>): State
    requires Runs(site, s, steps)
    decreases |steps|
  {
    if steps == [] then s else Exec(site, Apply(site, s, steps[0]), steps[1..])
  }

  // ---------------------------------------------------------------- a step writes one version's file

  /** The version whose file the step writes or removes, if it does. */
  ghost function Touched(s: State, step: Step): Option<ArtifactKey>
    requires Enabled(s, step)
  {
    match step
    case WriteFile(t, fault) => if fault == Untouched then None else Some(KeyOf(s.tasks[t].request))
    case RemoveFile(t, fault) => if fault then None else Some(s.tasks[t].key)
    case _ => None
  }

  /** What the step leaves in the file that it touches. */
  ghost function Left(s: State, step: Step): Option<Bytes>
    requires Enabled(s, step) && Touched(s, step).Some?
  {
    match step
    case WriteFile(t, store) => LeftBy(s.tasks[t].request.content, store)
    case _ => None
  }

  /** The step writes or removes the file that this version has. */
  ghost predicate TouchesFile(site: Site, s: State, step: Step, k: ArtifactKey)
    requires Enabled(s, step)
  {
    Touched(s, step).Some? && SharesFile(site, Touched(s, step).value, k)
  }

  /** A step changes the file that it touches, and no other. */
  lemma FilesChange(site: Site, s: State, step: Step, k: ArtifactKey)
    requires Enabled(s, step)
    ensures FileAt(Apply(site, s, step).world.files, FileFor(site, k))
            == if TouchesFile(site, s, step, k) then Left(s, step) else FileAt(s.world.files, FileFor(site, k))
  {
    match step
    case WriteFile(t, store) =>
      var r := s.tasks[t].request;
      StoreChanges(s.world.files, FileFor(site, KeyOf(r)), r.content, store, FileFor(site, k));
    case RemoveFile(t, fault) =>
      DeleteChanges(s.world.files, FileFor(site, s.tasks[t].key), fault, FileFor(site, k));
    case _ =>
  }

  // ---------------------------------------------------------------- when a blob stays as recorded

  ghost predicate Damages(site: Site, s: State, step: Step, row: Artifact)
    requires Enabled(s, step)
  {
    TouchesFile(site, s, step, row.key) && !Matches(site, Left(s, step), row)
  }

  ghost predicate NoneDamages(site: Site, s: State, steps: seq<Step>, row: Artifact)
    requires Runs(site, s, steps)
    decreases |steps|
  {
    steps == [] || (!Damages(site, s, steps[0], row) && NoneDamages(site, Apply(site, s, steps[0]), steps[1..], row))
  }

  /** In every state of the run the row's file holds what it records. */
  ghost predicate StaysIntact(site: Site, s: State, steps: seq<Step>, row: Artifact)
    requires Runs(site, s, steps)
    decreases |steps|
  {
    && Intact(site, s.world.files, row)
    && (steps == [] || StaysIntact(site, Apply(site, s, steps[0]), steps[1..], row))
  }

  lemma StepIntact(site: Site, s: State, step: Step, row: Artifact)
    requires Enabled(s, step) && row.storageKey == StorageKeyOf(row.key)
    ensures Intact(site, Apply(site, s, step).world.files, row)
            <==> if TouchesFile(site, s, step, row.key) then Matches(site, Left(s, step), row)
                 else Intact(site, s.world.files, row)
  {
    FilesChange(site, s, step, row.key);
  }

  /** Along a run of any uploads with any faults, a blob stays as recorded exactly when no step that touches
      its file leaves anything else there. */
  lemma {:induction false} StaysIntactIff(site: Site, s: State, steps: seq<Step>, row: Artifact)
    requires Runs(site, s, steps) && row.storageKey == StorageKeyOf(row.key) && Intact(site, s.world.files, row)
    ensures StaysIntact(site, s, steps, row) <==> NoneDamages(site, s, steps, row)
    decreases |steps|
  {
    if steps == [] {
    } else {
      var s1 := Apply(site, s, steps[0]);
      StepIntact(site, s, steps[0], row);
      if Intact(site, s1.world.files, row) {
        StaysIntactIff(site, s1, steps[1..], row);
      }
    }
  }

  /** Whether the last step that touched the row's file left what the row records. */
  ghost predicate LastMatches(site: Site, s: State, steps: seq<Step>, row: Artifact, before: bool)
    requires Runs(site, s, steps)
    decreases |steps|
  {
    if steps == [] then before
    else LastMatches(site, Apply(site, s, steps[0]), steps[1..], row,
                     if TouchesFile(site, s, steps[0], row.key) then Matches(site, Left(s, steps[0]), row) else before)
  }

  /** At the end of a run, the last step that touched the row's file decides. */
  lemma {:induction false} LastTouchDecides(site: Site, s: State, steps: seq<Step>, row: Artifact)
    requires Runs(site, s, steps) && row.storageKey == StorageKeyOf(row.key)
    ensures Intact(site, Exec(site, s, steps).world.files, row)
            <==> LastMatches(site, s, steps, row, Intact(site, s.world.files, row))
    decreases |steps|
  {
    if steps == [] {
    } else {
      StepIntact(site, s, steps[0], row);
      LastTouchDecides(site, Apply(site, s, steps[0]), steps[1..], row);
    }
  }

  /** From the moment an upload has written its file, the row that it is about to commit has its blob exactly
      until some step, its own cleanup included, leaves something else there. */
  lemma WrittenStaysIntactIff(site: Site, s: State, t: nat, id: string, rest: seq<Step>)
    requires Enabled(s, WriteFile(t, NoFault)) && Runs(site, Apply(site, s, WriteFile(t, NoFault)), rest)
    ensures var s1, row := Apply(site, s, WriteFile(t, NoFault)), RowFor(site, s.tasks[t].request, id);
            StaysIntact(site, s1, rest, row) <==> NoneDamages(site, s1, rest, row)
  {
    var row := RowFor(site, s.tasks[t].request, id);
    StepIntact(site, s, WriteFile(t, NoFault), row);
    StaysIntactIff(site, Apply(site, s, WriteFile(t, NoFault)), rest, row);
  }

  // ---------------------------------------------------------------- an upload alone with its file

  /** The version that a task may yet write, record or clean up. */
  function Claimed(task: Task): Option<ArtifactKey> {
    match task
    case Storing(r) => if Acceptable(r) then Some(KeyOf(r)) else None
    case Inserting(r) => if Acceptable(r) then Some(KeyOf(r)) else None
    case Cleaning(k) => Some(k)
    case Finished => None
  }

  /** The task is about the file that this version has. */
  predicate About(site: Site, task: Task, k: ArtifactKey) {
    Claimed(task).Some? && SharesFile(site, Claimed(task).value, k)
  }

  /** No task but t is. */
  ghost predicate Alone(site: Site, s: State, t: nat, k: ArtifactKey) {
    t < |s.tasks| && forall u :: 0 <= u < |s.tasks| && u != t ==> !About(site, s.tasks[u], k)
  }

  predicate BeginsNoneOf(site: Site, steps: seq<Step>, k: ArtifactKey) {
    forall i :: 0 <= i < |steps| && steps[i].Begin? ==> !About(site, Storing(steps[i].request), k)
  }

  /** Task t, for request r, is still to insert its row and its file is there; or it has, and the row is
      intact; or it will not. */
  ghost predicate OnItsWay(site: Site, s: State, t: nat, r: Request)
    requires Acceptable(r) && t < |s.tasks|
  {
    var k := KeyOf(r);
    match s.tasks[t]
    case Storing(r') => r' == r && k !in s.world.db.artifacts
    case Inserting(r') =>
      r' == r && k !in s.world.db.artifacts && FileAt(s.world.files, FileFor(site, k)) == Some(r.content)
    case Cleaning(k') => k' == k && k !in s.world.db.artifacts
    case Finished =>
      k in s.world.db.artifacts ==>
        && FileAt(s.world.files, FileFor(site, k)) == Some(r.content)
        && exists id :: s.world.db.artifacts[k] == RowFor(site, r, id)
  }

  lemma RowsChange(site: Site, s: State, step: Step, k: ArtifactKey)
    requires Enabled(s, step)
    ensures var before, after := s.world.db.artifacts, Apply(site, s, step).world.db.artifacts;
            || ((k in after <==> k in before) && (k in before ==> after[k] == before[k]))
            || (step.InsertRow? && KeyOf(s.tasks[step.t].request) == k && k !in before
                && Apply(site, s, step).tasks[step.t] == Finished
                && k in after && after[k] == RowFor(site, s.tasks[step.t].request, step.id))
  {
  }

  lemma AloneKeeps(site: Site, s: State, step: Step, t: nat, k: ArtifactKey)
    requires Enabled(s, step) && Alone(site, s, t, k) && (step.Begin? ==> !About(site, Storing(step.request), k))
    ensures Alone(site, Apply(site, s, step), t, k)
  {
    ClaimsStay(site, s, step);
  }

  /** A task keeps its version, or has done with it. */
  lemma ClaimsStay(site: Site, s: State, step: Step)
    requires Enabled(s, step)
    ensures |s.tasks| <= |Apply(site, s, step).tasks|
    ensures forall u :: 0 <= u < |s.tasks| ==>
              || Claimed(Apply(site, s, step).tasks[u]) == Claimed(s.tasks[u])
              || (Apply(site, s, step).tasks[u] == Finished && !step.Begin? && step.t == u)
    ensures forall u :: 0 <= u < |s.tasks| && (step.Begin? || step.t != u) ==>
              Apply(site, s, step).tasks[u] == s.tasks[u]
    ensures if step.Begin? then Apply(site, s, step).tasks[|s.tasks|..] == [Begun(step.request)]
            else |Apply(site, s, step).tasks| == |s.tasks|
  {
  }

  /** A step of another task leaves the file and the row of the version alone. */
  lemma OthersLeave(site: Site, s: State, step: Step, t: nat, k: ArtifactKey)
    requires Enabled(s, step) && Alone(site, s, t, k) && (step.Begin? || step.t != t)
    ensures var w, w' := s.world, Apply(site, s, step).world;
            && FileAt(w'.files, FileFor(site, k)) == FileAt(w.files, FileFor(site, k))
            && (k in w'.db.artifacts <==> k in w.db.artifacts)
            && (k in w.db.artifacts ==> w'.db.artifacts[k] == w.db.artifacts[k])
  {
    FilesChange(site, s, step, k);
    RowsChange(site, s, step, k);
    if !step.Begin? {
      assert !About(site, s.tasks[step.t], k);
    }
  }

  lemma OthersPass(site: Site, s: State, step: Step, t: nat, r: Request)
    requires Enabled(s, step) && Acceptable(r) && Alone(site, s, t, KeyOf(r)) && OnItsWay(site, s, t, r)
    requires step.Begin? || step.t != t
    ensures OnItsWay(site, Apply(site, s, step), t, r)
  {
    OthersLeave(site, s, step, t, KeyOf(r));
    ClaimsStay(site, s, step);
    SameWay(site, s, Apply(site, s, step), t, r);
  }

  lemma SameWay(site: Site, s: State, s': State, t: nat, r: Request)
    requires Acceptable(r) && t < |s.tasks| && t < |s'.tasks| && s'.tasks[t] == s.tasks[t] && OnItsWay(site, s, t, r)
    requires FileAt(s'.world.files, FileFor(site, KeyOf(r))) == FileAt(s.world.files, FileFor(site, KeyOf(r)))
    requires KeyOf(r) in s'.world.db.artifacts <==> KeyOf(r) in s.world.db.artifacts
    requires KeyOf(r) in s.world.db.artifacts ==>
               s'.world.db.artifacts[KeyOf(r)] == s.world.db.artifacts[KeyOf(r)]
    ensures OnItsWay(site, s', t, r)
  {
  }

  lemma OwnStep(site: Site, s: State, step: Step, t: nat, r: Request)
    requires Enabled(s, step) && Acceptable(r) && t < |s.tasks| && OnItsWay(site, s, t, r)
    requires !step.Begin? && step.t == t
    ensures OnItsWay(site, Apply(site, s, step), t, r)
  {
    FilesChange(site, s, step, KeyOf(r));
    RowsChange(site, s, step, KeyOf(r));
  }

  lemma {:induction false} AloneRuns(site: Site, s: State, steps: seq<Step>, t: nat, r: Request)
    requires Runs(site, s, steps) && Acceptable(r) && Alone(site, s, t, KeyOf(r)) && OnItsWay(site, s, t, r)
    requires BeginsNoneOf(site, steps, KeyOf(r))
    ensures var s' := Exec(site, s, steps); t < |s'.tasks| && OnItsWay(site, s', t, r)
    decreases |steps|
  {
    if steps == [] {
    } else {
      AloneKeeps(site, s, steps[0], t, KeyOf(r));
      if steps[0].Begin? || steps[0].t != t {
        OthersPass(site, s, steps[0], t, r);
      } else {
        OwnStep(site, s, steps[0], t, r);
      }
      assert BeginsNoneOf(site, steps[1..], KeyOf(r));
      AloneRuns(site, Apply(site, s, steps[0]), steps[1..], t, r);
    }
  }

  ghost predicate NoneAbout(site: Site, s: State, k: ArtifactKey) {
    forall u :: 0 <= u < |s.tasks| ==> !About(site, s.tasks[u], k)
  }

  /** Whatever else is uploaded at the same time and whatever fails, an upload of an unrecorded version whose
      file no other upload is about keeps its blob: at any point, if its row is there, it is intact. */
  lemma AloneKeepsBlob(site: Site, s: State, r: Request, steps: seq<Step>)
    requires Acceptable(r) && KeyOf(r) !in s.world.db.artifacts && NoneAbout(site, s, KeyOf(r))
    requires Runs(site, Apply(site, s, Begin(r)), steps) && BeginsNoneOf(site, steps, KeyOf(r))
    ensures var w := Exec(site, Apply(site, s, Begin(r)), steps).world;
            KeyOf(r) in w.db.artifacts ==> Intact(site, w.files, w.db.artifacts[KeyOf(r)])
  {
    AloneRuns(site, Apply(site, s, Begin(r)), steps, |s.tasks|, r);
  }

  // ---------------------------------------------------------------- completed runs without faults

  /** The step does not fail, and an id that it uses is new. */
  ghost predicate Succeeds(s: State, step: Step) {
    match step
    case Begin(_) => true
    case WriteFile(_, store) => store == NoFault
    case InsertRow(_, id, fault) => !fault && forall k :: k in s.world.db.artifacts ==> s.world.db.artifacts[k].id != id
    case RemoveFile(_, fault) => !fault
  }

  ghost predicate AllSucceed(site: Site, s: State, steps: seq<Step>)
    requires Runs(site, s, steps)
    decreases |steps|
  {
    steps == [] || (Succeeds(s, steps[0]) && AllSucceed(site, Apply(site, s, steps[0]), steps[1..]))
  }

  predicate Completed(s: State) {
    forall t :: 0 <= t < |s.tasks| ==> s.tasks[t] == Finished
  }

  predicate BeginsOne(step: Step, k: ArtifactKey) {
    step.Begin? && Acceptable(step.request) && KeyOf(step.request) == k
  }

  /** How many uploads of the version the run begins. */
  function Begins(steps: seq<Step>, k: ArtifactKey): nat {
    if steps == [] then 0 else (if BeginsOne(steps[0], k) then 1 else 0) + Begins(steps[1..], k)
  }

  /** Every claimed version is accepted, and only recorded versions are cleaned up. */
  ghost predicate Tidy(s: State) {
    && (forall t :: 0 <= t < |s.tasks| && Claimed(s.tasks[t]).Some? ==> AcceptedKey(Claimed(s.tasks[t]).value))
    && (forall t :: 0 <= t < |s.tasks| && s.tasks[t].Cleaning? ==> s.tasks[t].key in s.world.db.artifacts)
  }

  lemma TidyKeeps(site: Site, s: State, step: Step)
    requires Tidy(s) && Enabled(s, step) && Succeeds(s, step)
    ensures Tidy(Apply(site, s, step))
  {
    ClaimsStay(site, s, step);
    if step.Begin? && Acceptable(step.request) {
      AcceptableIsAccepted(step.request);
    }
  }

  predicate ClaimedBy(s: State, k: ArtifactKey, t: nat) {
    t < |s.tasks| && Claimed(s.tasks[t]) == Some(k)
  }

  /** At least one upload of the version has begun: it is recorded, or claimed. */
  ghost predicate One(s: State, k: ArtifactKey) {
    k in s.world.db.artifacts || exists t: nat :: ClaimedBy(s, k, t)
  }

  /** At least two have begun: while it is recorded, a cleanup is yet to come or has been; before, two claim it. */
  ghost predicate Two(site: Site, s: State, k: ArtifactKey) {
    if k in s.world.db.artifacts then
      FileAt(s.world.files, FileFor(site, k)) == None || exists t: nat :: ClaimedBy(s, k, t)
    else exists t: nat, u: nat :: t != u && ClaimedBy(s, k, t) && ClaimedBy(s, k, u)
  }

  /** The claim of task t on the version is over, for the step records the version or removes its file. */
  ghost predicate ClaimEnds(site: Site, s: State, step: Step, s': State, k: ArtifactKey, t: nat) {
    || (step.InsertRow? && step.t == t && k !in s.world.db.artifacts && k in s'.world.db.artifacts)
    || (step.RemoveFile? && step.t == t && k in s.world.db.artifacts && k in s'.world.db.artifacts
        && FileAt(s'.world.files, FileFor(site, k)) == None)
  }

  lemma ClaimStays(site: Site, s: State, step: Step, k: ArtifactKey, t: nat)
    requires Tidy(s) && Enabled(s, step) && Succeeds(s, step) && ClaimedBy(s, k, t)
    ensures ClaimedBy(Apply(site, s, step), k, t) || ClaimEnds(site, s, step, Apply(site, s, step), k, t)
  {
    ClaimsStay(site, s, step);
    if !step.Begin? && step.t == t {
      match step
      case WriteFile(_, _) =>
      case InsertRow(_, _, _) => ClaimIsRecorded(site, s, step, k);
      case RemoveFile(_, _) => ClaimIsRemoved(site, s, step, k);
    }
  }

  lemma ClaimIsRecorded(site: Site, s: State, step: Step, k: ArtifactKey)
    requires Enabled(s, step) && Succeeds(s, step) && step.InsertRow? && ClaimedBy(s, k, step.t)
    ensures var s' := Apply(site, s, step);
            ClaimedBy(s', k, step.t) || ClaimEnds(site, s, step, s', k, step.t)
  {
  }

  lemma ClaimIsRemoved(site: Site, s: State, step: Step, k: ArtifactKey)
    requires Tidy(s) && Enabled(s, step) && Succeeds(s, step) && step.RemoveFile? && ClaimedBy(s, k, step.t)
    ensures ClaimEnds(site, s, step, Apply(site, s, step), k, step.t)
  {
    FilesChange(site, s, step, k);
    RowsChange(site, s, step, k);
  }

  lemma OneKeeps(site: Site, s: State, step: Step, k: ArtifactKey)
    requires Tidy(s) && Enabled(s, step) && Succeeds(s, step) && One(s, k)
    ensures One(Apply(site, s, step), k)
    ensures BeginsOne(step, k) ==> Two(site, Apply(site, s, step), k)
  {
    var s' := Apply(site, s, step);
    RowsChange(site, s, step, k);
    if BeginsOne(step, k) {
      assert ClaimedBy(s', k, |s.tasks|);
    }
    if k !in s.world.db.artifacts {
      var t: nat :| ClaimedBy(s, k, t);
      ClaimStays(site, s, step, k, t);
    }
  }

  lemma BeginMakesOne(site: Site, s: State, step: Step, k: ArtifactKey)
    requires Enabled(s, step) && BeginsOne(step, k)
    ensures One(Apply(site, s, step), k)
  {
    assert ClaimedBy(Apply(site, s, step), k, |s.tasks|);
  }

  /** Only steps of a task that claims a plain version touch its file. */
  lemma UnclaimedFileStays(site: Site, s: State, step: Step, k: ArtifactKey)
    requires Tidy(s) && Enabled(s, step) && AcceptedKey(k) && Plain(k)
    requires step.Begin? || !ClaimedBy(s, k, step.t)
    ensures FileAt(Apply(site, s, step).world.files, FileFor(site, k)) == FileAt(s.world.files, FileFor(site, k))
  {
    FilesChange(site, s, step, k);
    if Touched(s, step).Some? {
      assert Claimed(s.tasks[step.t]) == Touched(s, step);
      PlainSharesOnlyItself(site, k, Touched(s, step).value);
    }
  }

  lemma TwoKeeps(site: Site, s: State, step: Step, k: ArtifactKey)
    requires Tidy(s) && Enabled(s, step) && Succeeds(s, step) && AcceptedKey(k) && Plain(k) && Two(site, s, k)
    ensures Two(site, Apply(site, s, step), k)
  {
    RowsChange(site, s, step, k);
    if k in s.world.db.artifacts {
      if t: nat :| ClaimedBy(s, k, t) {
        ClaimStays(site, s, step, k, t);
      } else {
        UnclaimedFileStays(site, s, step, k);
      }
    } else {
      var t: nat, u: nat :| t != u && ClaimedBy(s, k, t) && ClaimedBy(s, k, u);
      ClaimStays(site, s, step, k, t);
      ClaimStays(site, s, step, k, u);
    }
  }

  lemma {:induction false} TwoRuns(site: Site, s: State, steps: seq<Step>, k: ArtifactKey)
    requires Runs(site, s, steps) && AllSucceed(site, s, steps) && Tidy(s) && AcceptedKey(k) && Plain(k)
    requires Two(site, s, k) || (One(s, k) && Begins(steps, k) >= 1) || Begins(steps, k) >= 2
    ensures Two(site, Exec(site, s, steps), k)
    decreases |steps|
  {
    if steps == [] {
    } else {
      TidyKeeps(site, s, steps[0]);
      if Two(site, s, k) {
        TwoKeeps(site, s, steps[0], k);
      } else if One(s, k) {
        OneKeeps(site, s, steps[0], k);
      } else if BeginsOne(steps[0], k) {
        BeginMakesOne(site, s, steps[0], k);
      }
      TwoRuns(site, Apply(site, s, steps[0]), steps[1..], k);
    }
  }

  lemma {:induction false} NoBeginsNone(site: Site, steps: seq<Step>, k: ArtifactKey)
    requires Begins(steps, k) == 0 && AcceptedKey(k) && Plain(k)
    ensures BeginsNoneOf(site, steps, k)
  {
    if steps == [] {
    } else {
      NoBeginsNone(site, steps[1..], k);
      assert forall i :: 1 <= i < |steps| ==> steps[i] == steps[1..][i - 1];
      if steps[0].Begin? {
        OtherBegin(site, steps[0], k);
      }
    }
  }

  lemma OtherBegin(site: Site, step: Step, k: ArtifactKey)
    requires AcceptedKey(k) && Plain(k) && !BeginsOne(step, k) && step.Begin?
    ensures !About(site, Storing(step.request), k)
  {
    if Acceptable(step.request) {
      AcceptableIsAccepted(step.request);
      PlainSharesOnlyItself(site, k, KeyOf(step.request));
    }
  }

  lemma NonePasses(site: Site, s: State, step: Step, k: ArtifactKey)
    requires Enabled(s, step) && k !in s.world.db.artifacts && NoneAbout(site, s, k)
    requires step.Begin? ==> !About(site, Storing(step.request), k)
    ensures k !in Apply(site, s, step).world.db.artifacts && NoneAbout(site, Apply(site, s, step), k)
  {
    ClaimsStay(site, s, step);
    RowsChange(site, s, step, k);
  }

  /** From a state that knows nothing of the version: begun at most once, it is intact if it is recorded. */
  lemma {:induction false} OnceIsIntact(site: Site, s: State, steps: seq<Step>, k: ArtifactKey)
    requires Runs(site, s, steps) && AcceptedKey(k) && Plain(k) && Begins(steps, k) <= 1
    requires k !in s.world.db.artifacts && NoneAbout(site, s, k)
    ensures var w := Exec(site, s, steps).world;
            k in w.db.artifacts ==> Begins(steps, k) == 1 && Intact(site, w.files, w.db.artifacts[k])
    decreases |steps|
  {
    if steps == [] {
    } else if BeginsOne(steps[0], k) {
      NoBeginsNone(site, steps[1..], k);
      AloneKeepsBlob(site, s, steps[0].request, steps[1..]);
    } else {
      if steps[0].Begin? {
        OtherBegin(site, steps[0], k);
      }
      NonePasses(site, s, steps[0], k);
      OnceIsIntact(site, Apply(site, s, steps[0]), steps[1..], k);
    }
  }

  /** When all uploads of a run from empty stores have come to their ends without faults, a recorded plain
      version has its blob if and only if just one upload of it was begun. */
  lemma CompletedIntactIff(site: Site, steps: seq<Step>, k: ArtifactKey)
    requires Runs(site, NOTHING, steps) && AllSucceed(site, NOTHING, steps) && Completed(Exec(site, NOTHING, steps))
    requires AcceptedKey(k) && Plain(k) && k in Exec(site, NOTHING, steps).world.db.artifacts
    ensures var w := Exec(site, NOTHING, steps).world;
            Placed(w.db.artifacts[k]) && (Intact(site, w.files, w.db.artifacts[k]) <==> Begins(steps, k) == 1)
  {
    RowsArePlaced(site, NOTHING, steps);
    if Begins(steps, k) >= 2 {
      TwoRuns(site, NOTHING, steps, k);
    } else {
      OnceIsIntact(site, NOTHING, steps, k);
    }
  }

  ghost predicate RowsPlaced(db: Db) {
    forall k :: k in db.artifacts ==> db.artifacts[k].key == k && Placed(db.artifacts[k])
  }

  lemma {:induction false} RowsArePlaced(site: Site, s: State, steps: seq<Step>)
    requires Runs(site, s, steps) && RowsPlaced(s.world.db)
    ensures RowsPlaced(Exec(site, s, steps).world.db)
    decreases |steps|
  {
    if steps == [] {
    } else {
      if steps[0].InsertRow? {
        AcceptableIsAccepted(s.tasks[steps[0].t].request);
      }
      RowsArePlaced(site, Apply(site, s, steps[0]), steps[1..]);
    }
  }

  // ---------------------------------------------------------------- two uploads of one version

  lemma Prepend(site: Site, s: State, step: Step, s1: State, rest: seq<Step>)
    requires Enabled(s, step) && s1 == Apply(site, s, step) && Runs(site, s1, rest)
    ensures Runs(site, s, [step] + rest) && Exec(site, s, [step] + rest) == Exec(site, s1, rest)
  {
    assert ([step] + rest)[1..] == rest;
  }

  /** Both have written the file; the first is recorded, the second refused and cleaned up. */
  lemma SecondCleansUp(site: Site, s: State, r: Request, r': Request, id: string, id': string)
    returns (steps: seq<Step>, s': State)
    requires Acceptable(r) && Acceptable(r') && KeyOf(r') == KeyOf(r)
    requires s.world.db == NO_ROWS && s.tasks == [Inserting(r), Inserting(r')]
    ensures Runs(site, s, steps) && s' == Exec(site, s, steps)
    ensures s'.world.db == InsertArtifact(NO_ROWS, RowFor(site, r, id))
    ensures FileFor(site, KeyOf(r)) !in s'.world.files
  {
    var s1 := Apply(site, s, InsertRow(0, id, false));
    assert s1.world.db == InsertArtifact(NO_ROWS, RowFor(site, r, id)) && s1.tasks == [Finished, Inserting(r')];
    var s2 := Apply(site, s1, InsertRow(1, id', false));
    assert s2.tasks == [Finished, Cleaning(KeyOf(r'))] && s2.world == s1.world;
    s' := Apply(site, s2, RemoveFile(1, false));
    Prepend(site, s2, RemoveFile(1, false), s', []);
    Prepend(site, s1, InsertRow(1, id', false), s2, [RemoveFile(1, false)] + []);
    steps := [InsertRow(1, id', false)] + ([RemoveFile(1, false)] + []);
    Prepend(site, s, InsertRow(0, id, false), s1, steps);
    steps := [InsertRow(0, id, false)] + steps;
  }

  /** Two uploads of one version that run at once, without any fault: one is recorded, and its blob is gone. */
  lemma TwoUploadsLoseTheBlob(site: Site, r: Request, r': Request, id: string, id': string)
    returns (steps: seq<Step>, s: State)
    requires Acceptable(r) && Acceptable(r') && KeyOf(r') == KeyOf(r)
    ensures Runs(site, NOTHING, steps) && s == Exec(site, NOTHING, steps)
    ensures Committed(s.world.db, RowFor(site, r, id)) && !Intact(site, s.world.files, RowFor(site, r, id))
  {
    AcceptableIsAccepted(r);
    var s1 := State(NOTHING.world, [Storing(r)]);
    var s2 := State(NOTHING.world, [Storing(r), Storing(r')]);
    steps, s := BothWrite(site, s2, r, r', id, id');
    Prepend(site, s1, Begin(r'), s2, steps);
    steps := [Begin(r')] + steps;
    Prepend(site, NOTHING, Begin(r), s1, steps);
    steps := [Begin(r)] + steps;
  }

  lemma BothWrite(site: Site, s: State, r: Request, r': Request, id: string, id': string)
    returns (steps: seq<Step>, s': State)
    requires Acceptable(r) && Acceptable(r') && KeyOf(r') == KeyOf(r)
    requires s.world.db == NO_ROWS && s.tasks == [Storing(r), Storing(r')]
    ensures Runs(site, s, steps) && s' == Exec(site, s, steps)
    ensures s'.world.db == InsertArtifact(NO_ROWS, RowFor(site, r, id))
    ensures FileFor(site, KeyOf(r)) !in s'.world.files
  {
    var s1 := Apply(site, s, WriteFile(0, NoFault));
    assert s1.tasks == [Inserting(r), Storing(r')];
    var s2 := Apply(site, s1, WriteFile(1, NoFault));
    assert s2.tasks == [Inserting(r), Inserting(r')];
    steps, s' := SecondCleansUp(site, s2, r, r', id, id');
    Prepend(site, s1, WriteFile(1, NoFault), s2, steps);
    steps := [WriteFile(1, NoFault)] + steps;
    Prepend(site, s, WriteFile(0, NoFault), s1, steps);
    steps := [WriteFile(0, NoFault)] + steps;
  }

  // ---------------------------------------------------------------- an upload by itself

  /** The steps of one upload with nothing in between, as task t of the state. */
  function SoloSteps(site: Site, w: World, t: nat, r: Request, id: string, faults: UploadFaults): seq<Step> {
    [Begin(r)] +
    if !Acceptable(r) then [] else
    [WriteFile(t, faults.store)] +
    if faults.store != NoFault then [] else
    [InsertRow(t, id, faults.insert)] +
    if InsertError(w.db, RowFor(site, r, id), faults.insert).None? then [] else [RemoveFile(t, faults.delete)]
  }

  /** They do what the upload does. */
  lemma SoloRunIsUpload(site: Site, s: State, r: Request, id: string, faults: UploadFaults) returns (s': State)
    ensures var steps := SoloSteps(site, s.world, |s.tasks|, r, id, faults);
            Runs(site, s, steps) && s' == Exec(site, s, steps)
    ensures s'.world == Upload(site, s.world, r, id, faults).0 && s'.tasks == s.tasks + [Finished]
  {
    var t := |s.tasks|;
    var s1 := Apply(site, s, Begin(r));
    if !Acceptable(r) {
      s' := s1;
      Prepend(site, s, Begin(r), s1, []);
    } else {
      var rest;
      rest, s' := SoloFromWrite(site, s1, t, r, id, faults);
      Prepend(site, s, Begin(r), s1, rest);
      assert s1.tasks[t := Finished] == s.tasks + [Finished];
    }
  }

  lemma SoloFromWrite(site: Site, s: State, t: nat, r: Request, id: string, faults: UploadFaults)
    returns (steps: seq<Step>, s': State)
    requires t < |s.tasks| && s.tasks[t] == Storing(r) && Acceptable(r)
    ensures steps == [WriteFile(t, faults.store)] +
                     if faults.store != NoFault then [] else
                     [InsertRow(t, id, faults.insert)] +
                     if InsertError(s.world.db, RowFor(site, r, id), faults.insert).None? then []
                     else [RemoveFile(t, faults.delete)]
    ensures Runs(site, s, steps) && s' == Exec(site, s, steps)
    ensures s'.world == Upload(site, s.world, r, id, faults).0 && s'.tasks == s.tasks[t := Finished]
  {
    var s1 := Apply(site, s, WriteFile(t, faults.store));
    if faults.store != NoFault {
      s' := s1;
      steps := [WriteFile(t, faults.store)] + [];
      Prepend(site, s, WriteFile(t, faults.store), s1, []);
    } else {
      var rest;
      rest, s' := SoloFromInsert(site, s1, t, r, id, faults);
      steps := [WriteFile(t, faults.store)] + rest;
      Prepend(site, s, WriteFile(t, faults.store), s1, rest);
    }
  }

  lemma SoloFromInsert(site: Site, s: State, t: nat, r: Request, id: string, faults: UploadFaults)
    returns (steps: seq<Step>, s': State)
    requires t < |s.tasks| && s.tasks[t] == Inserting(r) && Acceptable(r)
    ensures var error := InsertError(s.world.db, RowFor(site, r, id), faults.insert);
            && steps == [InsertRow(t, id, faults.insert)] + (if error.None? then [] else [RemoveFile(t, faults.delete)])
            && Runs(site, s, steps) && s' == Exec(site, s, steps) && s'.tasks == s.tasks[t := Finished]
            && s'.world == if error.None? then s.world.(db := InsertArtifact(s.world.db, RowFor(site, r, id)))
                           else
                             var files := FilesAfterDelete(s.world.files, FileFor(site, KeyOf(r)), faults.delete);
                             s.world.(files := files)
  {
    var s1 := Apply(site, s, InsertRow(t, id, faults.insert));
    if InsertError(s.world.db, RowFor(site, r, id), faults.insert).None? {
      s' := s1;
      steps := [InsertRow(t, id, faults.insert)] + [];
      Prepend(site, s, InsertRow(t, id, faults.insert), s1, []);
    } else {
      s' := Apply(site, s1, RemoveFile(t, faults.delete));
      Prepend(site, s1, RemoveFile(t, faults.delete), s', []);
      steps := [InsertRow(t, id, faults.insert)] + ([RemoveFile(t, faults.delete)] + []);
      Prepend(site, s, InsertRow(t, id, faults.insert), s1, [RemoveFile(t, faults.delete)] + []);
    }
  }
}
