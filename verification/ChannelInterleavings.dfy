/**
 Promotions and rollbacks that interleave: each of their database calls is one step, between any others
 and between insertions of artifacts. The channels table keeps agreeing with the history, row by row, and
 everything recorded or about to be recorded names an existing artifact. The chain of previous versions is
 kept exactly when no save is overtaken by another between its task's read and itself; a run shows one that is.
 */
module ChannelInterleavings {
  import opened Catalog
  import opened Channels
  import opened Identifiers
  import opened Ordering
  import opened Timestamps
  import opened Versions
  import opened Wrappers
  import Uploads

  /** Where an operation stands: about to list the history, to find the artifact, to read the channels row, to save. */
  datatype Task =
    | Choosing(key: ChannelKey, actor: string)
    | Finding(key: ChannelKey, version: string, actor: string)
    | Reading(key: ChannelKey, version: string, artifactId: string, actor: string)
    | Saving(row: Pointer)
    | Finished

  datatype State = State(db: Db, tasks: seq<Task>)

  datatype Step =
    | AddArtifact(artifact: Artifact)
    | BeginPromote(key: ChannelKey, version: string, actor: string)
    | BeginRollback(key: ChannelKey, actor: string)
    | ListHistory(t: nat, listing: seq<Pointer>, fault: bool)
    | FindArtifact(t: nat, fault: bool)
    | ReadPointer(t: nat, now: Instant, fault: bool)
    | SavePointer(t: nat, fault: bool)

  ghost predicate Enabled(s: State, step: Step) {
    match step
    case AddArtifact(_) => true
    case BeginPromote(_, _, _) => true
    case BeginRollback(_, _) => true
    case ListHistory(t, listing, _) =>
      t < |s.tasks| && s.tasks[t].Choosing? && Lists(s.db, s.tasks[t].key, listing)
    case FindArtifact(t, _) => t < |s.tasks| && s.tasks[t].Finding?
    case ReadPointer(t, _, _) => t < |s.tasks| && s.tasks[t].Reading?
    case SavePointer(t, _) => t < |s.tasks| && s.tasks[t].Saving?
  }

  /** A promotion begins by normalising its version, and is over when there is none. */
  function Begun(key: ChannelKey, version: string, actor: string): Task {
    var v := NormalizeVersion(version);
    if v.Ok? then Finding(key, v.value, actor) else Finished
  }

  function Found(db: Db, task: Task, fault: bool): Task
    requires task.Finding?
  {
    var artifact := ArtifactKey(task.key.artifactType, task.key.name, task.version);
    if fault || artifact !in db.artifacts then Finished
    else Reading(task.key, task.version, db.artifacts[artifact].id, task.actor)
  }

  /** The row that a task is to save once it has read the channels row. */
  function RowOf(db: Db, task: Task, now: Instant, readFault: bool): Pointer
    requires task.Reading?
  {
    Pointer(task.key, task.version, task.artifactId, PreviousOf(db, task.key, readFault), now, task.actor)
  }

  function Put(s: State, t: nat, task: Task): State
    requires t < |s.tasks|
  {
    s.(tasks := s.tasks[t := task])
  }

  ghost function Apply(s: State, step: Step): State
    requires Enabled(s, step)
  {
    match step
    case AddArtifact(a) => if Collides(s.db, a) then s else s.(db := InsertArtifact(s.db, a))
    case BeginPromote(key, version, actor) => s.(tasks := s.tasks + [Begun(key, version, actor)])
    case BeginRollback(key, actor) => s.(tasks := s.tasks + [Choosing(key, actor)])
    case ListHistory(t, listing, fault) =>
      Put(s, t, if fault || |listing| < 2 then Finished
                else Begun(s.tasks[t].key, listing[1].version, s.tasks[t].actor))
    case FindArtifact(t, fault) => Put(s, t, Found(s.db, s.tasks[t], fault))
    case ReadPointer(t, now, fault) =>
      Put(s, t, Saving(RowOf(s.db, s.tasks[t], now, fault)))
    case SavePointer(t, fault) =>
      Put(s.(db := if fault then s.db else SaveRow(s.db, s.tasks[t].row)), t, Finished)
  }

  ghost predicate Runs(s: State, steps: seq<Step>)
    decreases |steps|
  {
    steps == [] || (Enabled(s, steps[0]) && Runs(Apply(s, steps[0]), steps[1..]))
  }

  ghost function Exec(s: State, steps: seq<Step>): State
    requires Runs(s, steps)
    decreases |steps|
  {
    if steps == [] then s else Exec(Apply(s, steps[0]), steps[1..])
  }

  // ---------------------------------------------------------------- the invariant

  ghost predicate TaskTrue(db: Db, task: Task) {
    match task
    case Finding(_, version, _) => Normal(version)
    case Reading(key, version, id, _) =>
      var artifact := ArtifactKey(key.artifactType, key.name, version);
      Normal(version) && artifact in db.artifacts && db.artifacts[artifact].id == id
    case Saving(row) => NamesArtifact(db, row) && Normal(row.version)
    case _ => true
  }

  ghost predicate Inv(s: State) {
    && Sound(s.db)
    && forall t :: 0 <= t < |s.tasks| ==> TaskTrue(s.db, s.tasks[t])
  }

  lemma BegunIsTrue(db: Db, key: ChannelKey, version: string, actor: string)
    ensures TaskTrue(db, Begun(key, version, actor))
  {
    if NormalizeVersion(version).Ok? {
      NormalizeIdempotent(version);
    }
  }

  /** Artifacts are only ever inserted. */
  ghost predicate Grows(db: Db, db': Db) {
    forall k :: k in db.artifacts ==> k in db'.artifacts && db'.artifacts[k] == db.artifacts[k]
  }

  lemma TasksStayTrue(s: State, db: Db)
    requires Grows(s.db, db)
    requires forall t :: 0 <= t < |s.tasks| ==> TaskTrue(s.db, s.tasks[t])
    ensures forall t :: 0 <= t < |s.tasks| ==> TaskTrue(db, s.tasks[t])
  {
  }

  lemma InsertKeepsSound(db: Db, a: Artifact)
    requires Sound(db) && !Collides(db, a)
    ensures Sound(InsertArtifact(db, a)) && Grows(db, InsertArtifact(db, a))
  {
    var db' := InsertArtifact(db, a);
    forall key ensures PointerAgrees(db', key) {
      assert PointerAgrees(db, key);
    }
    forall i | 0 <= i < |db.history| ensures NamesArtifact(db', db.history[i]) {
      assert NamesArtifact(db, db.history[i]);
    }
    forall i | 0 <= i < |db.history| ensures Normal(db'.history[i].version) {
      assert Normal(db.history[i].version);
    }
  }

  lemma SaveKeepsSound(db: Db, row: Pointer)
    requires Sound(db) && NamesArtifact(db, row) && Normal(row.version)
    ensures Sound(SaveRow(db, row)) && Grows(db, SaveRow(db, row))
  {
    SaveKeepsAgreement(db, row);
    var db' := SaveRow(db, row);
    forall i | 0 <= i < |db'.history| ensures NamesArtifact(db', db'.history[i]) {
      if i < |db.history| {
        assert NamesArtifact(db, db.history[i]);
      }
    }
    forall i | 0 <= i < |db'.history| ensures Normal(db'.history[i].version) {
      if i < |db.history| {
        assert Normal(db.history[i].version);
      }
    }
  }

  lemma PutKeeps(s: State, t: nat, task: Task)
    requires Inv(s) && t < |s.tasks| && TaskTrue(s.db, task)
    ensures Inv(Put(s, t, task))
  {
  }

  lemma NewTaskKeeps(s: State, task: Task)
    requires Inv(s) && TaskTrue(s.db, task)
    ensures Inv(s.(tasks := s.tasks + [task]))
  {
  }

  lemma NewDbKeeps(s: State, db: Db)
    requires Inv(s) && Sound(db) && Grows(s.db, db)
    ensures Inv(s.(db := db))
  {
    TasksStayTrue(s, db);
  }

  lemma ListKeeps(s: State, t: nat, listing: seq<Pointer>, fault: bool)
    requires Inv(s) && Enabled(s, ListHistory(t, listing, fault))
    ensures Inv(Apply(s, ListHistory(t, listing, fault)))
  {
    if !fault && |listing| >= 2 {
      BegunIsTrue(s.db, s.tasks[t].key, listing[1].version, s.tasks[t].actor);
      PutKeeps(s, t, Begun(s.tasks[t].key, listing[1].version, s.tasks[t].actor));
    } else {
      PutKeeps(s, t, Finished);
    }
  }

  lemma FindKeeps(s: State, t: nat, fault: bool)
    requires Inv(s) && Enabled(s, FindArtifact(t, fault))
    ensures Inv(Apply(s, FindArtifact(t, fault)))
  {
    assert TaskTrue(s.db, s.tasks[t]);
    PutKeeps(s, t, Found(s.db, s.tasks[t], fault));
  }

  lemma ReadKeeps(s: State, t: nat, now: Instant, fault: bool)
    requires Inv(s) && Enabled(s, ReadPointer(t, now, fault))
    ensures Inv(Apply(s, ReadPointer(t, now, fault)))
  {
    var task := s.tasks[t];
    assert TaskTrue(s.db, task);
    PutKeeps(s, t, Saving(RowOf(s.db, task, now, fault)));
  }

  lemma SaveKeeps(s: State, t: nat, fault: bool)
    requires Inv(s) && Enabled(s, SavePointer(t, fault))
    ensures Inv(Apply(s, SavePointer(t, fault)))
  {
    assert TaskTrue(s.db, s.tasks[t]);
    var db := if fault then s.db else SaveRow(s.db, s.tasks[t].row);
    if !fault {
      SaveKeepsSound(s.db, s.tasks[t].row);
    }
    NewDbKeeps(s, db);
    PutKeeps(s.(db := db), t, Finished);
  }

  lemma StepKeeps(s: State, step: Step)
    requires Inv(s) && Enabled(s, step)
    ensures Inv(Apply(s, step))
  {
    match step
    case AddArtifact(a) =>
      if !Collides(s.db, a) {
        InsertKeepsSound(s.db, a);
        NewDbKeeps(s, InsertArtifact(s.db, a));
      }
    case BeginPromote(key, version, actor) =>
      BegunIsTrue(s.db, key, version, actor);
      NewTaskKeeps(s, Begun(key, version, actor));
    case BeginRollback(key, actor) => NewTaskKeeps(s, Choosing(key, actor));
    case ListHistory(t, listing, fault) => ListKeeps(s, t, listing, fault);
    case FindArtifact(t, fault) => FindKeeps(s, t, fault);
    case ReadPointer(t, now, fault) => ReadKeeps(s, t, now, fault);
    case SavePointer(t, fault) => SaveKeeps(s, t, fault);
  }

  lemma {:induction false} RunKeeps(s: State, steps: seq<Step>)
    requires Inv(s) && Runs(s, steps)
    ensures Inv(Exec(s, steps))
    decreases |steps|
  {
    if steps == [] {
    } else {
      StepKeeps(s, steps[0]);
      RunKeeps(Apply(s, steps[0]), steps[1..]);
    }
  }

  /** However promotions, rollbacks and insertions interleave, each channels row is the highest-id history
      row of its key, a row is there exactly when the key has history, every history row names an existing
      artifact by type, name, version and id, and so a promoted channel always resolves. */
  lemma InterleavingsKeepAgreement(steps: seq<Step>, key: ChannelKey)
    requires Runs(State(NO_ROWS, []), steps)
    ensures var db := Exec(State(NO_ROWS, []), steps).db;
            && PointerAgrees(db, key) && Referential(db)
            && (Resolve(db, key).Ok? <==> KeyHistory(db.history, key) != [])
  {
    RunKeeps(State(NO_ROWS, []), steps);
    PromotedResolves(Exec(State(NO_ROWS, []), steps).db, key);
  }

  lemma FourSteps(s: State, a: Step, b: Step, c: Step, d: Step)
    requires Enabled(s, a) && Enabled(Apply(s, a), b) && Enabled(Apply(Apply(s, a), b), c)
    requires Enabled(Apply(Apply(Apply(s, a), b), c), d)
    ensures Runs(s, [a, b, c, d]) && Exec(s, [a, b, c, d]) == Apply(Apply(Apply(Apply(s, a), b), c), d)
  {
    var s1 := Apply(s, a);
    var s2 := Apply(s1, b);
    var s3 := Apply(s2, c);
    FirstStep(s3, d, []);
    FirstStep(s2, c, [d]);
    FirstStep(s1, b, [c, d]);
    FirstStep(s, a, [b, c, d]);
    assert [d] + [] == [d] && [c] + [d] == [c, d] && [b] + [c, d] == [b, c, d] && [a] + [b, c, d] == [a, b, c, d];
  }

  lemma FirstStep(s: State, step: Step, rest: seq<Step>)
    requires Enabled(s, step) && Runs(Apply(s, step), rest)
    ensures Runs(s, [step] + rest) && Exec(s, [step] + rest) == Exec(Apply(s, step), rest)
  {
    assert ([step] + rest)[1..] == rest;
  }

  /** Two tasks read, read, save and save. */
  lemma BothSaved(s: State, key: ChannelKey, v: string, w: string, id: string, id': string, actor: string, now: Instant)
    requires s.tasks == [Reading(key, v, id, actor), Reading(key, w, id', actor)]
    requires s.db.channels == map[] && s.db.history == []
    ensures Enabled(s, ReadPointer(0, now, false))
    ensures var s1 := Apply(s, ReadPointer(0, now, false));
            && Enabled(s1, ReadPointer(1, now, false))
            && var s2 := Apply(s1, ReadPointer(1, now, false));
               && Enabled(s2, SavePointer(0, false))
               && var s3 := Apply(s2, SavePointer(0, false));
                  && Enabled(s3, SavePointer(1, false))
                  && KeyHistory(Apply(s3, SavePointer(1, false)).db.history, key) ==
                       [Pointer(key, v, id, "", now, actor), Pointer(key, w, id', "", now, actor)]
  {
    var a, b := Pointer(key, v, id, "", now, actor), Pointer(key, w, id', "", now, actor);
    var s2 := Apply(Apply(s, ReadPointer(0, now, false)), ReadPointer(1, now, false));
    assert s2.tasks == [Saving(a), Saving(b)];
    var s4 := Apply(Apply(s2, SavePointer(0, false)), SavePointer(1, false));
    assert s4.db.history == [] + [a] + [b];
    KeyHistoryGrows([], a, key);
    KeyHistoryGrows([] + [a], b, key);
    assert [] + [a] == [a] && [a] + [b] == [a, b];
  }

  // ---------------------------------------------------------------- when the chain is kept

  /** The step saves a row of the key whose previous version is not the current one, or no longer. */
  ghost predicate Overtaken(s: State, step: Step, key: ChannelKey) {
    && step.SavePointer? && !step.fault && step.t < |s.tasks| && s.tasks[step.t].Saving?
    && s.tasks[step.t].row.key == key && s.tasks[step.t].row.previousVersion != Current(s.db, key)
  }

  ghost predicate NoneOvertaken(s: State, steps: seq<Step>, key: ChannelKey)
    requires Runs(s, steps)
    decreases |steps|
  {
    steps == [] || (!Overtaken(s, steps[0], key) && NoneOvertaken(Apply(s, steps[0]), steps[1..], key))
  }

  /** Only a save on the key changes its history. */
  lemma HistoryChange(s: State, step: Step, key: ChannelKey)
    requires Enabled(s, step)
    ensures KeyHistory(Apply(s, step).db.history, key) ==
              if step.SavePointer? && !step.fault && s.tasks[step.t].row.key == key
              then KeyHistory(s.db.history, key) + [s.tasks[step.t].row] else KeyHistory(s.db.history, key)
  {
    if step.SavePointer? && !step.fault {
      KeyHistoryGrows(s.db.history, s.tasks[step.t].row, key);
    }
  }

  lemma StepChains(s: State, step: Step, key: ChannelKey)
    requires Inv(s) && Enabled(s, step)
    ensures Chained(KeyHistory(Apply(s, step).db.history, key))
            <==> Chained(KeyHistory(s.db.history, key)) && !Overtaken(s, step, key)
  {
    HistoryChange(s, step, key);
    if step.SavePointer? && !step.fault && s.tasks[step.t].row.key == key {
      CurrentIsLast(s.db, key);
      RowChains(s.db, s.tasks[step.t].row);
    }
  }

  lemma {:induction false} ChainedIffNoneOvertaken(s: State, steps: seq<Step>, key: ChannelKey)
    requires Inv(s) && Runs(s, steps)
    ensures Chained(KeyHistory(Exec(s, steps).db.history, key))
            <==> Chained(KeyHistory(s.db.history, key)) && NoneOvertaken(s, steps, key)
    decreases |steps|
  {
    if steps == [] {
    } else {
      StepKeeps(s, steps[0]);
      StepChains(s, steps[0], key);
      ChainedIffNoneOvertaken(Apply(s, steps[0]), steps[1..], key);
    }
  }

  // ---------------------------------------------------------------- from a task's read to its save

  /** The version that a read finds; a failed read finds none. */
  ghost function FoundAfter(found: map<nat, string>, s: State, step: Step): map<nat, string>
    requires Enabled(s, step)
  {
    match step
    case ReadPointer(t, _, fault) => found[t := PreviousOf(s.db, s.tasks[t].key, fault)]
    case _ => found
  }

  /** Every save of the key in the run finds the version that its task's read found: between a task's read
      and its save, the key was left at, or came back to, that version. `found` holds earlier reads. */
  ghost predicate StillCurrent(s: State, steps: seq<Step>, key: ChannelKey, found: map<nat, string>)
    requires Runs(s, steps)
    decreases |steps|
  {
    steps == [] ||
    ((steps[0].SavePointer? && !steps[0].fault && s.tasks[steps[0].t].row.key == key ==>
        steps[0].t in found && found[steps[0].t] == Current(s.db, key))
     && StillCurrent(Apply(s, steps[0]), steps[1..], key, FoundAfter(found, s, steps[0])))
  }

  /** A task about to save carries the version that its read found. */
  ghost predicate Remembered(s: State, found: map<nat, string>) {
    forall t :: 0 <= t < |s.tasks| && s.tasks[t].Saving? ==>
      t in found && s.tasks[t].row.previousVersion == found[t]
  }

  lemma StepRemembers(s: State, step: Step, found: map<nat, string>)
    requires Enabled(s, step) && Remembered(s, found)
    ensures Remembered(Apply(s, step), FoundAfter(found, s, step))
  {
  }

  lemma {:induction false} StillCurrentIff(s: State, steps: seq<Step>, key: ChannelKey, found: map<nat, string>)
    requires Runs(s, steps) && Remembered(s, found)
    ensures StillCurrent(s, steps, key, found) <==> NoneOvertaken(s, steps, key)
    decreases |steps|
  {
    if steps == [] {
    } else {
      StepRemembers(s, steps[0], found);
      StillCurrentIff(Apply(s, steps[0]), steps[1..], key, FoundAfter(found, s, steps[0]));
    }
  }

  /** However promotions, rollbacks and insertions interleave, a key's history is a chain exactly when each
      save on the key found the version that its own read had found. */
  lemma InterleavedChainedIff(steps: seq<Step>, key: ChannelKey)
    requires Runs(State(NO_ROWS, []), steps)
    ensures Chained(KeyHistory(Exec(State(NO_ROWS, []), steps).db.history, key))
            <==> StillCurrent(State(NO_ROWS, []), steps, key, map[])
  {
    ChainedIffNoneOvertaken(State(NO_ROWS, []), steps, key);
    StillCurrentIff(State(NO_ROWS, []), steps, key, map[]);
  }

  // ---------------------------------------------------------------- what an interleaved rollback restores

  /** The history that a rollback was listed, by task. */
  ghost function ListedAfter(listed: map<nat, seq<Pointer>>, s: State, step: Step): map<nat, seq<Pointer>> {
    match step
    case ListHistory(t, listing, fault) => if fault || |listing| < 2 then listed else listed[t := listing]
    case _ => listed
  }

  ghost function ListedOver(s: State, steps: seq<Step>, listed: map<nat, seq<Pointer>>): map<nat, seq<Pointer>>
    requires Runs(s, steps)
    decreases |steps|
  {
    if steps == [] then listed
    else ListedOver(Apply(s, steps[0]), steps[1..], ListedAfter(listed, s, steps[0]))
  }

  /** The version that a task's read found, by task. */
  ghost function FoundOver(s: State, steps: seq<Step>, found: map<nat, string>): map<nat, string>
    requires Runs(s, steps)
    decreases |steps|
  {
    if steps == [] then found
    else FoundOver(Apply(s, steps[0]), steps[1..], FoundAfter(found, s, steps[0]))
  }

  /** The rows are of the key, and in the history. */
  ghost predicate RowsOf(db: Db, key: ChannelKey, rows: seq<Pointer>) {
    forall i :: 0 <= i < |rows| ==> rows[i].key == key && rows[i] in db.history
  }

  /** A rollback's task goes for the second version of its listing. */
  ghost predicate GoesFor(db: Db, task: Task, listing: seq<Pointer>) {
    && |listing| >= 2
    && match task
       case Choosing(_, _) => false
       case Finding(key, version, _) => version == listing[1].version && RowsOf(db, key, listing)
       case Reading(key, version, _, _) => version == listing[1].version && RowsOf(db, key, listing)
       case Saving(row) => row.version == listing[1].version && RowsOf(db, row.key, listing)
       case Finished => true
  }

  ghost predicate Carried(s: State, listed: map<nat, seq<Pointer>>) {
    forall t :: t in listed ==> t < |s.tasks| && GoesFor(s.db, s.tasks[t], listed[t])
  }

  lemma ListedRows(db: Db, key: ChannelKey, listing: seq<Pointer>)
    requires Sound(db) && Lists(db, key, listing)
    ensures RowsOf(db, key, listing)
    ensures forall i :: 0 <= i < |listing| ==> Normal(listing[i].version)
  {
    var rows := KeyHistory(db.history, key);
    KeyRowsAreRows(db.history, key);
    forall i | 0 <= i < |listing|
      ensures listing[i].key == key && listing[i] in db.history && Normal(listing[i].version)
    {
      var j := Place(rows, listing, i);
      LastIsRow(db, key, j);
    }
  }

  lemma HistoryStays(s: State, step: Step)
    requires Enabled(s, step)
    ensures s.db.history <= Apply(s, step).db.history
  {
  }

  lemma StepCarries(s: State, step: Step, listed: map<nat, seq<Pointer>>)
    requires Inv(s) && Enabled(s, step) && Carried(s, listed)
    ensures Carried(Apply(s, step), ListedAfter(listed, s, step))
  {
    if step.ListHistory? {
      ListingCarries(s, step, listed);
    } else {
      OthersCarry(s, step, listed);
    }
  }

  lemma ListingCarries(s: State, step: Step, listed: map<nat, seq<Pointer>>)
    requires Inv(s) && Enabled(s, step) && Carried(s, listed) && step.ListHistory?
    ensures Carried(Apply(s, step), ListedAfter(listed, s, step))
  {
    ListedRows(s.db, s.tasks[step.t].key, step.listing);
  }

  lemma OthersCarry(s: State, step: Step, listed: map<nat, seq<Pointer>>)
    requires Enabled(s, step) && Carried(s, listed) && !step.ListHistory?
    ensures Carried(Apply(s, step), listed)
  {
    HistoryStays(s, step);
  }

  lemma {:induction false} RunCarries(s: State, steps: seq<Step>, listed: map<nat, seq<Pointer>>,
                                      found: map<nat, string>)
    requires Inv(s) && Runs(s, steps) && Carried(s, listed) && Remembered(s, found)
    ensures Inv(Exec(s, steps))
    ensures Carried(Exec(s, steps), ListedOver(s, steps, listed))
    ensures Remembered(Exec(s, steps), FoundOver(s, steps, found))
    decreases |steps|
  {
    if steps == [] {
    } else {
      StepKeeps(s, steps[0]);
      StepCarries(s, steps[0], listed);
      StepRemembers(s, steps[0], found);
      RunCarries(Apply(s, steps[0]), steps[1..], ListedAfter(listed, s, steps[0]), FoundAfter(found, s, steps[0]));
    }
  }

  /** Saving the row makes the previous version current and the current one previous. */
  predicate Swaps(db: Db, row: Pointer) {
    && row.key in db.channels
    && row.version == db.channels[row.key].previousVersion && row.previousVersion == db.channels[row.key].version
  }

  lemma {:induction false} RowHasHistory(history: seq<Pointer>, row: Pointer)
    requires row in history
    ensures KeyHistory(history, row.key) != []
  {
    if history[|history| - 1] == row {
    } else {
      assert row in history[..|history| - 1];
      RowHasHistory(history[..|history| - 1], row);
    }
  }

  /** However operations interleave, the save of a rollback is the documented swap exactly when the version
      that was listed second is, at the save, the previous one, and the version that its read found is, at the
      save, the current one. */
  lemma RollbackSwapsIff(steps: seq<Step>, s: State, t: nat, listed: map<nat, seq<Pointer>>, found: map<nat, string>)
    requires Runs(State(NO_ROWS, []), steps) && s == Exec(State(NO_ROWS, []), steps)
    requires listed == ListedOver(State(NO_ROWS, []), steps, map[])
    requires found == FoundOver(State(NO_ROWS, []), steps, map[])
    requires Enabled(s, SavePointer(t, false)) && t in listed
    ensures var row := s.tasks[t].row;
            && t in found && |listed[t]| >= 2 && row.key in s.db.channels
            && (Swaps(s.db, row) <==> listed[t][1].version == s.db.channels[row.key].previousVersion
                                      && found[t] == s.db.channels[row.key].version)
  {
    RunCarries(State(NO_ROWS, []), steps, map[], map[]);
    var row := s.tasks[t].row;
    assert GoesFor(s.db, s.tasks[t], listed[t]);
    assert listed[t][0].key == row.key && listed[t][0] in s.db.history;
    RowHasHistory(s.db.history, listed[t][0]);
    assert PointerAgrees(s.db, row.key);
  }

  /** That is so when, at the save, the listing still lists the key's history, no two of whose texts are out of
      order, the newest row names the one before it, and the version read is still current. */
  lemma UndisturbedRollbackSwaps(steps: seq<Step>, s: State, t: nat, listed: map<nat, seq<Pointer>>,
                                 found: map<nat, string>)
    requires Runs(State(NO_ROWS, []), steps) && s == Exec(State(NO_ROWS, []), steps)
    requires listed == ListedOver(State(NO_ROWS, []), steps, map[])
    requires found == FoundOver(State(NO_ROWS, []), steps, map[])
    requires Enabled(s, SavePointer(t, false)) && t in listed && t in found
    requires var rows := KeyHistory(s.db.history, s.tasks[t].row.key);
             && Lists(s.db, s.tasks[t].row.key, listed[t]) && Ascending(rows, Stored)
             && (rows != [] ==> Linked(rows, |rows| - 1)) && found[t] == Current(s.db, s.tasks[t].row.key)
    ensures Swaps(s.db, s.tasks[t].row)
  {
    RollbackSwapsIff(steps, s, t, listed, found);
    AgreesAfter(steps, s, s.tasks[t].row.key);
    SecondIsPreviousNow(s.db, s.tasks[t].row.key, listed[t]);
  }

  lemma AgreesAfter(steps: seq<Step>, s: State, key: ChannelKey)
    requires Runs(State(NO_ROWS, []), steps) && s == Exec(State(NO_ROWS, []), steps)
    ensures PointerAgrees(s.db, key)
  {
    RunKeeps(State(NO_ROWS, []), steps);
  }

  lemma SecondIsPreviousNow(db: Db, key: ChannelKey, listing: seq<Pointer>)
    requires PointerAgrees(db, key) && key in db.channels && Lists(db, key, listing) && |listing| >= 2
    requires var rows := KeyHistory(db.history, key); Ascending(rows, Stored) && Linked(rows, |rows| - 1)
    ensures listing[1].version == db.channels[key].previousVersion
  {
    SecondIsPrevious(KeyHistory(db.history, key), listing);
  }

  lemma SecondIsPrevious(rows: seq<Pointer>, listing: seq<Pointer>)
    requires Ascending(rows, Stored) && Listing(rows, listing, Stored) && |listing| >= 2
    requires rows != [] ==> Linked(rows, |rows| - 1)
    ensures rows != [] && listing[1].version == rows[|rows| - 1].previousVersion
  {
    ListingIsReverse(rows, listing, Stored);
  }

  // ---------------------------------------------------------------- a run that breaks the chain

  lemma TwoFirst(s: State, a: Step, s1: State, b: Step, s2: State, rest: seq<Step>)
    requires Enabled(s, a) && s1 == Apply(s, a) && Enabled(s1, b) && s2 == Apply(s1, b) && Runs(s2, rest)
    ensures Runs(s, [a, b] + rest) && Exec(s, [a, b] + rest) == Exec(s2, rest)
  {
    FirstStep(s1, b, rest);
    FirstStep(s, a, [b] + rest);
    assert [a, b] + rest == [a] + ([b] + rest);
  }

  lemma BothAdded(a: Artifact, b: Artifact) returns (s: State)
    requires a.key != b.key && a.id != b.id
    ensures s == Apply(Apply(State(NO_ROWS, []), AddArtifact(a)), AddArtifact(b))
    ensures s == State(Db(map[a.key := a, b.key := b], map[], []), [])
  {
    s := State(Db(map[a.key := a, b.key := b], map[], []), []);
  }

  lemma OneBegun(s: State, key: ChannelKey, v: string, actor: string) returns (s1: State)
    requires Normal(v)
    ensures s1 == Apply(s, BeginPromote(key, v, actor)) == s.(tasks := s.tasks + [Finding(key, v, actor)])
  {
    assert Begun(key, v, actor) == Finding(key, v, actor);
    s1 := Apply(s, BeginPromote(key, v, actor));
  }

  lemma BothFound(s: State, key: ChannelKey, v: string, w: string, a: Artifact, b: Artifact, actor: string)
    returns (s2: State)
    requires s.tasks == [Finding(key, v, actor), Finding(key, w, actor)]
    requires s.db.artifacts == map[a.key := a, b.key := b] && a.key != b.key
    requires a.key == ArtifactKey(key.artifactType, key.name, v) && b.key == ArtifactKey(key.artifactType, key.name, w)
    ensures Enabled(s, FindArtifact(0, false)) && Enabled(Apply(s, FindArtifact(0, false)), FindArtifact(1, false))
    ensures s2 == Apply(Apply(s, FindArtifact(0, false)), FindArtifact(1, false))
    ensures s2 == s.(tasks := [Reading(key, v, a.id, actor), Reading(key, w, b.id, actor)])
  {
    s2 := s.(tasks := [Reading(key, v, a.id, actor), Reading(key, w, b.id, actor)]);
  }

  /** Two tasks that have found their artifacts read, read, save and save. */
  lemma BothReadThenSave(s: State, key: ChannelKey, v: string, w: string, id: string, id': string,
                         actor: string, now: Instant)
    returns (steps: seq<Step>)
    requires s.tasks == [Reading(key, v, id, actor), Reading(key, w, id', actor)]
    requires s.db.channels == map[] && s.db.history == [] && v != ""
    ensures Runs(s, steps)
    ensures KeyHistory(Exec(s, steps).db.history, key)
              == [Pointer(key, v, id, "", now, actor), Pointer(key, w, id', "", now, actor)]
    ensures !Chained(KeyHistory(Exec(s, steps).db.history, key))
  {
    var a, b := Pointer(key, v, id, "", now, actor), Pointer(key, w, id', "", now, actor);
    steps := [ReadPointer(0, now, false), ReadPointer(1, now, false), SavePointer(0, false), SavePointer(1, false)];
    BothSaved(s, key, v, w, id, id', actor, now);
    FourSteps(s, steps[0], steps[1], steps[2], steps[3]);
    assert !Linked([a, b], 1);
  }

  /** A run from empty tables: the rows of two uploads are inserted, both versions are promoted to one channel,
      and both promotions read the channels row before either saves. The second row's previous version is not
      the version of the row before it. */
  lemma InterleavingBreaksChain(site: Uploads.Site, key: ChannelKey, actor: string, now: Instant)
    returns (steps: seq<Step>)
    requires ValidIdentifier(key.artifactType) && ValidIdentifier(key.name)
    ensures Runs(State(NO_ROWS, []), steps)
    ensures !Chained(KeyHistory(Exec(State(NO_ROWS, []), steps).db.history, key))
  {
    var attempts, a, b := Uploads.TwoUploaded(site, key.artifactType, key.name);
    var v, w := a.key.version, b.key.version;
    NormalizedNotEmpty(v);
    var s2 := BothAdded(a, b);
    var s3 := OneBegun(s2, key, v, actor);
    var s4 := OneBegun(s3, key, w, actor);
    var s6 := BothFound(s4, key, v, w, a, b, actor);
    steps := BothReadThenSave(s6, key, v, w, a.id, b.id, actor, now);
    TwoFirst(s4, FindArtifact(0, false), Apply(s4, FindArtifact(0, false)), FindArtifact(1, false), s6, steps);
    steps := [FindArtifact(0, false), FindArtifact(1, false)] + steps;
    TwoFirst(s2, BeginPromote(key, v, actor), s3, BeginPromote(key, w, actor), s4, steps);
    steps := [BeginPromote(key, v, actor), BeginPromote(key, w, actor)] + steps;
    TwoFirst(State(NO_ROWS, []), AddArtifact(a), Apply(State(NO_ROWS, []), AddArtifact(a)), AddArtifact(b), s2, steps);
    steps := [AddArtifact(a), AddArtifact(b)] + steps;
  }

  // ---------------------------------------------------------------- an operation by itself

  /** What a promotion makes of a version that is normalised. */
  function Promoted(db: Db, key: ChannelKey, version: string, actor: string, now: Instant, faults: Faults)
    : Result<Pointer, Error>
  {
    var artifact := ArtifactKey(key.artifactType, key.name, version);
    if faults.find then Err(StoreFailed)
    else if artifact !in db.artifacts then Err(NotFound)
    else if faults.save then Err(StoreFailed)
    else Ok(Pointer(key, version, db.artifacts[artifact].id, PreviousOf(db, key, faults.read), now, actor))
  }

  /** A task that has a version runs by itself as a promotion of that version does. */
  lemma SoloFromFind(s: State, t: nat, key: ChannelKey, version: string, actor: string, now: Instant, faults: Faults)
    returns (steps: seq<Step>, s': State)
    requires t < |s.tasks| && s.tasks[t] == Finding(key, version, actor)
    ensures Runs(s, steps) && s' == Exec(s, steps)
    ensures s'.db == Saved(s.db, Promoted(s.db, key, version, actor, now, faults))
    ensures s'.tasks == s.tasks[t := Finished]
  {
    var s1 := Apply(s, FindArtifact(t, faults.find));
    if s1.tasks[t] == Finished {
      s' := s1;
      steps := [FindArtifact(t, faults.find)] + [];
      FirstStep(s, FindArtifact(t, faults.find), []);
    } else {
      var s2 := Apply(s1, ReadPointer(t, now, faults.read));
      s' := Apply(s2, SavePointer(t, faults.save));
      FirstStep(s2, SavePointer(t, faults.save), []);
      FirstStep(s1, ReadPointer(t, now, faults.read), [SavePointer(t, faults.save)] + []);
      steps := [ReadPointer(t, now, faults.read)] + ([SavePointer(t, faults.save)] + []);
      FirstStep(s, FindArtifact(t, faults.find), steps);
      steps := [FindArtifact(t, faults.find)] + steps;
    }
  }

  lemma NormalPromotesAlike(db: Db, key: ChannelKey, version: string, v: string, actor: string, now: Instant,
                            faults: Faults)
    requires NormalizeVersion(version) == Ok(v)
    ensures Promotion(db, key, version, actor, now, faults) == Promoted(db, key, v, actor, now, faults)
  {
  }

  lemma BegunState(s: State, key: ChannelKey, version: string, actor: string) returns (s1: State)
    ensures s1 == Apply(s, BeginPromote(key, version, actor))
    ensures s1 == State(s.db, s.tasks + [Begun(key, version, actor)])
  {
    s1 := Apply(s, BeginPromote(key, version, actor));
  }

  /** A promotion that runs by itself does what the sequential one does. */
  lemma SoloRunIsPromotion(s: State, key: ChannelKey, version: string, actor: string, now: Instant, faults: Faults)
    returns (steps: seq<Step>, s': State)
    ensures Runs(s, steps) && s' == Exec(s, steps) && steps != [] && steps[0] == BeginPromote(key, version, actor)
    ensures s'.db == Saved(s.db, Promotion(s.db, key, version, actor, now, faults))
    ensures s'.tasks == s.tasks + [Finished]
  {
    var s1 := BegunState(s, key, version, actor);
    var rest;
    rest, s' := SoloFromBegun(s, s1, key, version, actor, now, faults);
    FirstStep(s, BeginPromote(key, version, actor), rest);
    steps := [BeginPromote(key, version, actor)] + rest;
  }

  lemma SoloFromBegun(s: State, s1: State, key: ChannelKey, version: string, actor: string, now: Instant,
                      faults: Faults)
    returns (steps: seq<Step>, s': State)
    requires s1 == State(s.db, s.tasks + [Begun(key, version, actor)])
    ensures Runs(s1, steps) && s' == Exec(s1, steps)
    ensures s'.db == Saved(s.db, Promotion(s.db, key, version, actor, now, faults))
    ensures s'.tasks == s.tasks + [Finished]
  {
    match NormalizeVersion(version)
    case Ok(v) =>
      NormalPromotesAlike(s.db, key, version, v, actor, now, faults);
      steps, s' := SoloFromFind(s1, |s.tasks|, key, v, actor, now, faults);
      assert s1.tasks[|s.tasks| := Finished] == s.tasks + [Finished];
    case Err(_) =>
      steps, s' := [], s1;
  }

  /** So does a rollback. */
  lemma SoloRunIsRollback(s: State, key: ChannelKey, actor: string, now: Instant, listing: seq<Pointer>, faults: Faults)
    returns (steps: seq<Step>, s': State)
    requires Lists(s.db, key, listing)
    ensures Runs(s, steps) && s' == Exec(s, steps) && steps != [] && steps[0] == BeginRollback(key, actor)
    ensures s'.db == Saved(s.db, RollbackOf(s.db, key, actor, now, listing, faults))
    ensures s'.tasks == s.tasks + [Finished]
  {
    var t := |s.tasks|;
    var s1 := Apply(s, BeginRollback(key, actor));
    assert s1 == State(s.db, s.tasks + [Choosing(key, actor)]);
    var rest;
    rest, s' := SoloFromListing(s, s1, t, key, actor, now, listing, faults);
    FirstStep(s, BeginRollback(key, actor), rest);
    steps := [BeginRollback(key, actor)] + rest;
  }

  lemma SoloFromListing(s: State, s1: State, t: nat, key: ChannelKey, actor: string, now: Instant,
                        listing: seq<Pointer>, faults: Faults)
    returns (steps: seq<Step>, s': State)
    requires Lists(s.db, key, listing) && t == |s.tasks| && s1 == State(s.db, s.tasks + [Choosing(key, actor)])
    ensures Runs(s1, steps) && s' == Exec(s1, steps)
    ensures s'.db == Saved(s.db, RollbackOf(s.db, key, actor, now, listing, faults))
    ensures s'.tasks == s.tasks + [Finished]
  {
    var s2, rest := Apply(s1, ListHistory(t, listing, false)), [];
    if |listing| >= 2 {
      assert s2.tasks == s.tasks + [Begun(key, listing[1].version, actor)];
      rest, s' := SoloFromBegun(s, s2, key, listing[1].version, actor, now, faults);
    } else {
      assert s2.tasks == s.tasks + [Finished];
      s' := s2;
    }
    FirstStep(s1, ListHistory(t, listing, false), rest);
    steps := [ListHistory(t, listing, false)] + rest;
  }
}
