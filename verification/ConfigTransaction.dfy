/** The two-file configuration transaction: stage, journal, rename, and recovery after a crash.

    A disk maps paths to files. Writing a file can be interrupted and leave any content; a rename is one atomic
    step. A crash is modelled by an operation budget: when it runs out, the operation in progress does not
    happen and the caller stops. An I/O error stops the caller in the same way. */
module ConfigTransaction {
  import opened Basics

  type Path = nat

  datatype Journal = Journal(
    oldFingerprint: nat,
    newFingerprint: nat,
    sourcePath: Path,
    sourceStage: Path,
    snapshotPath: Option<Path>,
    snapshotStage: Option<Path>)

  /** A file of plain bytes, or one whose bytes parse as a transaction journal. */
  datatype File = Data(bytes: Bytes) | JournalFile(journal: Journal)

  type Disk = map<Path, File>

  datatype Operation = Put(path: Path, file: File) | Rename(from: Path, to: Path) | Remove(path: Path)

  datatype StoreError = InvalidJournal | RecoveryConflict | InvalidSource | Io

  const MAX_CONFIG_BYTES: nat := 4 * 1024 * 1024

  /** A content fingerprint; `deterministic_hash` is the 64-bit FNV-1a digest. */
  type Hash = Bytes -> nat

  function Apply(disk: Disk, operation: Operation): Disk {
    match operation
    case Put(path, file) => disk[path := file]
    case Rename(from, to) => if from in disk then (disk - {from})[to := disk[from]] else disk
    case Remove(path) => disk - {path}
  }

  function ApplyAll(disk: Disk, operations: seq<Operation>): Disk
    decreases |operations|
  {
    if operations == [] then disk else ApplyAll(Apply(disk, operations[0]), operations[1..])
  }

  // ---------------------------------------------------------------- commit

  /** One transaction: the two targets, fresh stage paths, contents, and what an interrupted write leaves. */
  datatype Transaction = Transaction(
    source: Path,
    snapshot: Option<Path>,
    journalPath: Path,
    sourceStage: Path,
    snapshotStage: Path,
    journalStage: Path,
    before: Bytes,
    after: Bytes,
    tornSource: File,
    tornSnapshot: File,
    tornJournal: File,
    hash: Hash)

  function JournalOf(tx: Transaction): Journal {
    Journal(tx.hash(tx.before), tx.hash(tx.after), tx.source, tx.sourceStage, tx.snapshot,
            if tx.snapshot.Some? then Some(tx.snapshotStage) else None)
  }

  /** Staging both files and writing the journal beside its final path; a torn write precedes each complete one. */
  function StageOperations(tx: Transaction): seq<Operation> {
    [Put(tx.sourceStage, tx.tornSource), Put(tx.sourceStage, Data(tx.after))]
    + (if tx.snapshot.Some? then [Put(tx.snapshotStage, tx.tornSnapshot), Put(tx.snapshotStage, Data(tx.after))]
      else [])
    + [Put(tx.journalStage, tx.tornJournal), Put(tx.journalStage, JournalFile(JournalOf(tx)))]
  }

  /** Publishing the journal, replacing both targets and dropping the journal. */
  function PublishOperations(tx: Transaction): seq<Operation> {
    [Rename(tx.journalStage, tx.journalPath), Rename(tx.sourceStage, tx.source)]
    + (if tx.snapshot.Some? then [Rename(tx.snapshotStage, tx.snapshot.value)] else [])
    + [Remove(tx.journalPath)]
  }

  /** The file operations of `commit_candidate`, in order. */
  function CommitOperations(tx: Transaction): seq<Operation> {
    StageOperations(tx) + PublishOperations(tx)
  }

  /** How many operations make the journal visible; from then on the transaction is decided. */
  function PublishedAfter(tx: Transaction): nat {
    |StageOperations(tx)| + 1
  }

  // ---------------------------------------------------------------- recovery

  datatype TargetState = Settled | Replaceable | Unrecoverable(error: StoreError)

  /** Reading a file of at most the configured size. */
  function ReadBounded(disk: Disk, path: Path): Result<Bytes, StoreError> {
    if path !in disk then Err(Io)
    else match disk[path]
      case Data(bytes) => if |bytes| > MAX_CONFIG_BYTES then Err(InvalidSource) else Ok(bytes)
      case JournalFile(_) => Err(RecoveryConflict)
  }

  /** The decision of `recover_target`. */
  function Target(hash: Hash, disk: Disk, target: Path, stage: Path, before: nat, after: nat): TargetState {
    var current := ReadBounded(disk, target);
    if current.Err? then Unrecoverable(current.error)
    else if hash(current.value) == after then Settled
    else if hash(current.value) != before then Unrecoverable(RecoveryConflict)
    else
      var staged := ReadBounded(disk, stage);
      if staged.Err? then Unrecoverable(staged.error)
      else if hash(staged.value) != after then Unrecoverable(RecoveryConflict)
      else Replaceable
  }

  /** What a recovery run does to a disk: its operations in order, and how it ends. */
  datatype Plan = Plan(operations: seq<Operation>, outcome: Result<(), StoreError>)

  function TargetPlan(hash: Hash, disk: Disk, target: Path, stage: Path, journal: Journal): Plan {
    match Target(hash, disk, target, stage, journal.oldFingerprint, journal.newFingerprint)
    case Settled => Plan([], Ok(()))
    case Replaceable => Plan([Rename(stage, target)], Ok(()))
    case Unrecoverable(error) => Plan([], Err(error))
  }

  function RemovePlan(disk: Disk, path: Path): seq<Operation> {
    if path in disk then [Remove(path)] else []
  }

  function CleanupPlan(disk: Disk, journal: Journal, journalPath: Path): seq<Operation> {
    var first := RemovePlan(disk, journal.sourceStage);
    var rest := ApplyAll(disk, first);
    var second := if journal.snapshotStage.Some? then RemovePlan(rest, journal.snapshotStage.value) else [];
    first + second + RemovePlan(ApplyAll(rest, second), journalPath)
  }

  predicate JournalAccepted(journal: Journal, source: Path) {
    journal.sourcePath == source && journal.snapshotPath.Some? == journal.snapshotStage.Some?
  }

  /** What remains of a recovery once the source target is settled. */
  function AfterSource(hash: Hash, disk: Disk, journal: Journal, journalPath: Path): Plan
    requires journal.snapshotPath.Some? == journal.snapshotStage.Some?
  {
    var second := if journal.snapshotPath.Some?
      then TargetPlan(hash, disk, journal.snapshotPath.value, journal.snapshotStage.value, journal)
        else Plan([], Ok(()));
    if second.outcome.Err? then second
    else Plan(second.operations + CleanupPlan(ApplyAll(disk, second.operations), journal, journalPath), Ok(()))
  }

  /** `recover_pending_transaction` for the configuration at `source`. */
  function RecoveryPlan(hash: Hash, disk: Disk, source: Path, journalPath: Path): Plan {
    if journalPath !in disk then Plan([], Ok(()))
    else if disk[journalPath].Data? || !JournalAccepted(disk[journalPath].journal, source) then Plan([],
        Err(InvalidJournal))
    else
      var journal := disk[journalPath].journal;
      var first := TargetPlan(hash, disk, journal.sourcePath, journal.sourceStage, journal);
      if first.outcome.Err? then first
      else
        var rest := AfterSource(hash, ApplyAll(disk, first.operations), journal, journalPath);
        Plan(first.operations + rest.operations, rest.outcome)
  }

  /** The disk when recovery is cut short after at most `count` operations. */
  function Interrupted(hash: Hash, disk: Disk, source: Path, journalPath: Path, count: nat): Disk {
    var operations := RecoveryPlan(hash, disk, source, journalPath).operations;
    ApplyAll(disk, operations[..Min(count, |operations|)])
  }

  function Recovered(hash: Hash, disk: Disk, source: Path, journalPath: Path): Disk {
    ApplyAll(disk, RecoveryPlan(hash, disk, source, journalPath).operations)
  }

  /** The disk after further recoveries, each cut short after so many operations. */
  function AfterCuts(hash: Hash, disk: Disk, source: Path, journalPath: Path, cuts: seq<nat>): Disk
    decreases |cuts|
  {
    if cuts == [] then disk else AfterCuts(hash, Interrupted(hash, disk, source, journalPath, cuts[0]), source,
        journalPath, cuts[1..])
  }

  // ---------------------------------------------------------------- file operations

  /** A disk whose next `budget` operations succeed; a later one fails and changes nothing. */
  class FileSystem {
    var disk: Disk
    var budget: nat

    constructor (disk: Disk, budget: nat)
      ensures this.disk == disk && this.budget == budget
    {
      this.disk, this.budget := disk, budget;
    }

    method Perform(operation: Operation) returns (done: bool)
      modifies this
      ensures done <==> old(budget) > 0
      ensures disk == if done then Apply(old(disk), operation) else old(disk)
      ensures budget == if done then old(budget) - 1 else 0
    {
      done := budget > 0;
      if done {
        disk, budget := Apply(disk, operation), budget - 1;
      }
    }

    /** Removes a file unless it is already gone. */
    method RemoveIfExists(path: Path) returns (done: bool)
      modifies this
      ensures var plan := RemovePlan(old(disk), path);
        && (done <==> |plan| <= old(budget))
        && disk == ApplyAll(old(disk), plan[..Min(old(budget), |plan|)])
        && budget == old(budget) - Min(old(budget), |plan|)
    {
      done := true;
      if path in disk {
        assert RemovePlan(disk, path)[..1] == [Remove(path)];
        done := Perform(Remove(path));
      }
    }

    /** The next operation of a longer sequence that began on `start`. */
    method Advance(operation: Operation, ghost start: Disk, ghost operations: seq<Operation>, ghost index: nat)
      returns (done: bool)
      requires index < |operations| && operations[index] == operation
      requires disk == ApplyAll(start, operations[..index])
      modifies this
      ensures done <==> old(budget) > 0
      ensures done ==> disk == ApplyAll(start, operations[..index + 1]) && budget == old(budget) - 1
      ensures !done ==> disk == old(disk) && budget == 0
    {
      ApplyAllNext(start, operations, index);
      done := Perform(operation);
    }

    /** `write_restricted`: the write can stop with torn content in place. */
    method WriteFile(path: Path, torn: File, file: File, ghost start: Disk, ghost operations: seq<Operation>,
        ghost index: nat)
      returns (done: bool)
      requires index + 1 < |operations| && operations[index] == Put(path, torn)
          && operations[index + 1] == Put(path, file)
      requires disk == ApplyAll(start, operations[..index])
      modifies this
      ensures done <==> old(budget) > 1
      ensures done ==> disk == ApplyAll(start, operations[..index + 2]) && budget == old(budget) - 2
      ensures !done ==> disk == ApplyAll(start, operations[..index + old(budget)]) && budget == 0
    {
      done := Advance(Put(path, torn), start, operations, index);
      if done {
        done := Advance(Put(path, file), start, operations, index + 1);
      }
    }

    /** The first half of a commit: both stage files and the unpublished journal. */
    method Stage(tx: Transaction) returns (done: bool)
      modifies this
      ensures done <==> |StageOperations(tx)| <= old(budget)
      ensures disk == ApplyAll(old(disk), StageOperations(tx)[..Min(old(budget), |StageOperations(tx)|)])
      ensures budget == old(budget) - Min(old(budget), |StageOperations(tx)|)
    {
      ghost var start, operations := disk, StageOperations(tx);
      assert operations[..0] == [];
      done := WriteFile(tx.sourceStage, tx.tornSource, Data(tx.after), start, operations, 0);
      if !done {
        return;
      }
      ghost var index := 2;
      if tx.snapshot.Some? {
        done := WriteFile(tx.snapshotStage, tx.tornSnapshot, Data(tx.after), start, operations, 2);
        if !done {
          return;
        }
        index := 4;
      }
      done := WriteFile(tx.journalStage, tx.tornJournal, JournalFile(JournalOf(tx)), start, operations, index);
    }

    /** The second half: publish the journal, replace both targets, drop the journal. */
    method Publish(tx: Transaction) returns (done: bool)
      modifies this
      ensures done <==> |PublishOperations(tx)| <= old(budget)
      ensures disk == ApplyAll(old(disk), PublishOperations(tx)[..Min(old(budget), |PublishOperations(tx)|)])
    {
      ghost var start, operations := disk, PublishOperations(tx);
      assert operations[..0] == [];
      done := Advance(Rename(tx.journalStage, tx.journalPath), start, operations, 0);
      if !done {
        return;
      }
      done := Advance(Rename(tx.sourceStage, tx.source), start, operations, 1);
      if !done {
        return;
      }
      ghost var index := 2;
      if tx.snapshot.Some? {
        done := Advance(Rename(tx.snapshotStage, tx.snapshot.value), start, operations, 2);
        if !done {
          return;
        }
        index := 3;
      }
      done := Advance(Remove(tx.journalPath), start, operations, index);
    }

    /** `commit_candidate`: an interruption leaves exactly the effect of a prefix of its operations. */
    method CommitCandidate(tx: Transaction) returns (done: bool)
      modifies this
      ensures done <==> |CommitOperations(tx)| <= old(budget)
      ensures disk == ApplyAll(old(disk), CommitOperations(tx)[..Min(old(budget), |CommitOperations(tx)|)])
    {
      ghost var count := budget;
      ApplyAllPrefix(disk, StageOperations(tx), PublishOperations(tx), count);
      ghost var all := StageOperations(tx);
      assert all[..|all|] == all;
      done := Stage(tx);
      if done {
        done := Publish(tx);
      }
    }

    /** `recover_target` */
    method RecoverTarget(hash: Hash, target: Path, stage: Path, journal: Journal) returns (result: Result<(),
        StoreError>)
      modifies this
      ensures var plan := TargetPlan(hash, old(disk), target, stage, journal);
        && disk == ApplyAll(old(disk), plan.operations[..Min(old(budget), |plan.operations|)])
        && budget == old(budget) - Min(old(budget), |plan.operations|)
        && result == (if |plan.operations| <= old(budget) then plan.outcome else Err(Io))
    {
      var current := ReadBounded(disk, target);
      if current.Err? {
        return Err(current.error);
      }
      if hash(current.value) == journal.newFingerprint {
        return Ok(());
      }
      if hash(current.value) != journal.oldFingerprint {
        return Err(RecoveryConflict);
      }
      var staged := ReadBounded(disk, stage);
      if staged.Err? {
        return Err(staged.error);
      }
      if hash(staged.value) != journal.newFingerprint {
        return Err(RecoveryConflict);
      }
      assert TargetPlan(hash, disk, target, stage, journal).operations[..1] == [Rename(stage, target)];
      var done := Perform(Rename(stage, target));
      result := if done then Ok(()) else Err(Io);
    }

    /** The snapshot half of recovery, and the clean-up. */
    method RecoverSnapshot(hash: Hash, journal: Journal, journalPath: Path) returns (result: Result<(), StoreError>)
      requires journal.snapshotPath.Some? == journal.snapshotStage.Some?
      modifies this
      ensures var plan := AfterSource(hash, old(disk), journal, journalPath);
        && disk == ApplyAll(old(disk), plan.operations[..Min(old(budget), |plan.operations|)])
        && result == (if |plan.operations| <= old(budget) then plan.outcome else Err(Io))
    {
      ghost var second: seq<Operation> := [];
      ghost var count := budget;
      result := Ok(());
      if journal.snapshotPath.Some? {
        second := TargetPlan(hash, disk, journal.snapshotPath.value, journal.snapshotStage.value, journal).operations;
        result := RecoverTarget(hash, journal.snapshotPath.value, journal.snapshotStage.value, journal);
      }
      ghost var settled := ApplyAll(old(disk), second);
      ApplyAllPrefix(old(disk), second, CleanupPlan(settled, journal, journalPath), count);
      if result.Err? {
        return;
      }
      assert disk == settled;
      var done := Cleanup(journal, journalPath);
      result := if done then Ok(()) else Err(Io);
    }

    /** Removes the stage files and, last, the journal. */
    method Cleanup(journal: Journal, journalPath: Path) returns (done: bool)
      modifies this
      ensures var plan := CleanupPlan(old(disk), journal, journalPath);
        && disk == ApplyAll(old(disk), plan[..Min(old(budget), |plan|)])
        && (done <==> |plan| <= old(budget))
    {
      ghost var first := RemovePlan(disk, journal.sourceStage);
      ghost var middle := ApplyAll(disk, first);
      ghost var second := if journal.snapshotStage.Some? then RemovePlan(middle, journal.snapshotStage.value) else [];
      ghost var last := RemovePlan(ApplyAll(middle, second), journalPath);
      assert first + second + last == first + (second + last);
      ApplyAllPrefix(disk, first, second + last, budget);
      done := RemoveIfExists(journal.sourceStage);
      if !done {
        return;
      }
      assert disk == middle;
      ApplyAllPrefix(middle, second, last, budget);
      if journal.snapshotStage.Some? {
        done := RemoveIfExists(journal.snapshotStage.value);
        if !done {
          return;
        }
      }
      done := RemoveIfExists(journalPath);
    }

    /** `recover_pending_transaction`: an interruption leaves the effect of a prefix of the plan. */
    method RecoverPending(hash: Hash, source: Path, journalPath: Path) returns (result: Result<(), StoreError>)
      modifies this
      ensures disk == Interrupted(hash, old(disk), source, journalPath, old(budget))
      ensures var plan := RecoveryPlan(hash, old(disk), source, journalPath);
        result == if |plan.operations| <= old(budget) then plan.outcome else Err(Io)
    {
      ghost var count := budget;
      if journalPath !in disk {
        return Ok(());
      }
      if disk[journalPath].Data? || !JournalAccepted(disk[journalPath].journal, source) {
        return Err(InvalidJournal);
      }
      var journal := disk[journalPath].journal;
      ghost var first := TargetPlan(hash, disk, journal.sourcePath, journal.sourceStage, journal).operations;
      result := RecoverTarget(hash, journal.sourcePath, journal.sourceStage, journal);
      ghost var after := ApplyAll(old(disk), first);
      ghost var rest := AfterSource(hash, after, journal, journalPath).operations;
      ApplyAllPrefix(old(disk), first, rest, count);
      if result.Err? {
        return;
      }
      result := RecoverSnapshot(hash, journal, journalPath);
    }
  }

  // ---------------------------------------------------------------- sequences of operations

  lemma {:induction false} ApplyAllConcat(disk: Disk, first: seq<Operation>, second: seq<Operation>)
    ensures ApplyAll(disk, first + second) == ApplyAll(ApplyAll(disk, first), second)
    decreases |first|
  {
    if first == [] {
      assert first + second == second;
    } else {
      assert (first + second)[1..] == first[1..] + second;
      ApplyAllConcat(Apply(disk, first[0]), first[1..], second);
    }
  }

  lemma ApplyAllNext(disk: Disk, operations: seq<Operation>, index: nat)
    requires index < |operations|
    ensures ApplyAll(disk, operations[..index + 1]) == Apply(ApplyAll(disk, operations[..index]), operations[index])
  {
    assert operations[..index + 1] == operations[..index] + [operations[index]];
    ApplyAllConcat(disk, operations[..index], [operations[index]]);
  }

  /** Cutting a sequence short after `count` operations cuts its first part, or completes it and cuts the rest. */
  lemma ApplyAllPrefix(disk: Disk, first: seq<Operation>, second: seq<Operation>, count: nat)
    ensures count <= |first| ==>
      ApplyAll(disk, (first + second)[..Min(count, |first + second|)]) == ApplyAll(disk, first[..count])
    ensures count >= |first| ==>
      ApplyAll(disk, (first + second)[..Min(count, |first + second|)]) ==
      ApplyAll(ApplyAll(disk, first), second[..Min(count - |first|, |second|)])
  {
    if count <= |first| {
      assert (first + second)[..count] == first[..count];
    }
    if count >= |first| {
      var kept := second[..Min(count - |first|, |second|)];
      assert (first + second)[..Min(count, |first + second|)] == first + kept;
      ApplyAllConcat(disk, first, kept);
    }
  }

  // ---------------------------------------------------------------- phases

  predicate Holds(disk: Disk, path: Path, bytes: Bytes) {
    path in disk && disk[path] == Data(bytes)
  }

  predicate BothHold(disk: Disk, tx: Transaction, bytes: Bytes) {
    && Holds(disk, tx.source, bytes)
    && (tx.snapshot.Some? ==> Holds(disk, tx.snapshot.value, bytes))
  }

  /** The paths of a transaction are distinct: the stage names are fresh siblings of their targets. Both contents
      passed the loader's size limit. */
  predicate WellFormed(tx: Transaction) {
    && |tx.before| <= MAX_CONFIG_BYTES && |tx.after| <= MAX_CONFIG_BYTES
    && tx.source !in {tx.journalPath, tx.sourceStage, tx.snapshotStage, tx.journalStage}
    && tx.journalPath !in {tx.sourceStage, tx.snapshotStage, tx.journalStage}
    && tx.sourceStage !in {tx.snapshotStage, tx.journalStage} && tx.snapshotStage != tx.journalStage
    && (tx.snapshot.Some? ==>
        tx.snapshot.value !in {tx.source, tx.journalPath, tx.sourceStage, tx.snapshotStage, tx.journalStage})
  }

  /** Before the journal is published. */
  predicate Undecided(disk: Disk, tx: Transaction) {
    tx.journalPath !in disk && BothHold(disk, tx, tx.before)
  }

  /** A target that has the new content, or still the old one with the new one staged. */
  predicate Recoverable(disk: Disk, tx: Transaction, target: Path, stage: Path) {
    Holds(disk, target, tx.after) || (Holds(disk, target, tx.before) && Holds(disk, stage, tx.after))
  }

  /** While the published journal stands. */
  predicate Decided(disk: Disk, tx: Transaction) {
    && tx.journalPath in disk && disk[tx.journalPath] == JournalFile(JournalOf(tx))
    && Recoverable(disk, tx, tx.source, tx.sourceStage)
    && (tx.snapshot.Some? ==> Recoverable(disk, tx, tx.snapshot.value, tx.snapshotStage))
  }

  predicate Committed(disk: Disk, tx: Transaction) {
    tx.journalPath !in disk && BothHold(disk, tx, tx.after)
  }

  // ---------------------------------------------------------------- staging

  predicate Stages(tx: Transaction, operation: Operation) {
    operation.Put? && operation.path in {tx.sourceStage, tx.snapshotStage, tx.journalStage}
  }

  lemma {:induction false} StagingDecidesNothing(disk: Disk, tx: Transaction, operations: seq<Operation>)
    requires WellFormed(tx) && Undecided(disk, tx)
    requires forall i :: 0 <= i < |operations| ==> Stages(tx, operations[i])
    ensures Undecided(ApplyAll(disk, operations), tx)
    decreases |operations|
  {
    if operations != [] {
      assert Stages(tx, operations[0]);
      StagingDecidesNothing(Apply(disk, operations[0]), tx, operations[1..]);
    }
  }

  /** Everything a published journal needs is in place. */
  predicate Staged(disk: Disk, tx: Transaction) {
    && Undecided(disk, tx)
    && Holds(disk, tx.sourceStage, tx.after)
    && (tx.snapshot.Some? ==> Holds(disk, tx.snapshotStage, tx.after))
    && tx.journalStage in disk && disk[tx.journalStage] == JournalFile(JournalOf(tx))
  }

  lemma StagingCompletes(disk: Disk, tx: Transaction)
    requires WellFormed(tx) && Undecided(disk, tx)
    ensures Staged(ApplyAll(disk, StageOperations(tx)), tx)
  {
    StagingDecidesNothing(disk, tx, StageOperations(tx));
    var source := [Put(tx.sourceStage, tx.tornSource), Put(tx.sourceStage, Data(tx.after))];
    var snapshot :=
      if tx.snapshot.Some? then [Put(tx.snapshotStage, tx.tornSnapshot), Put(tx.snapshotStage, Data(tx.after))] else [];
    var journal := [Put(tx.journalStage, tx.tornJournal), Put(tx.journalStage, JournalFile(JournalOf(tx)))];
    ApplyAllConcat(disk, source + snapshot, journal);
    ApplyAllConcat(disk, source, snapshot);
    ApplyTwo(disk, source);
    if tx.snapshot.Some? {
      ApplyTwo(ApplyAll(disk, source), snapshot);
    }
    ApplyTwo(ApplyAll(disk, source + snapshot), journal);
  }

  lemma ApplyOne(disk: Disk, operation: Operation)
    ensures ApplyAll(disk, [operation]) == Apply(disk, operation)
  {
  }

  lemma ApplyRemoval(disk: Disk, path: Path)
    ensures ApplyAll(disk, RemovePlan(disk, path)) == disk - {path}
  {
    if path in disk {
      ApplyOne(disk, Remove(path));
    } else {
      assert disk - {path} == disk;
    }
  }

  lemma ApplyTwo(disk: Disk, operations: seq<Operation>)
    requires |operations| == 2
    ensures ApplyAll(disk, operations) == Apply(Apply(disk, operations[0]), operations[1])
  {
    assert operations == [operations[0]] + [operations[1]];
    ApplyAllConcat(disk, [operations[0]], [operations[1]]);
  }

  // ---------------------------------------------------------------- completing

  /** An operation that only brings a decided transaction forward. */
  predicate Forward(disk: Disk, tx: Transaction, operation: Operation) {
    || (operation == Rename(tx.sourceStage, tx.source) && Holds(disk, tx.sourceStage, tx.after))
    || (operation == Remove(tx.sourceStage) && Holds(disk, tx.source, tx.after))
    || (tx.snapshot.Some? && operation == Rename(tx.snapshotStage, tx.snapshot.value)
        && Holds(disk, tx.snapshotStage, tx.after))
    || (tx.snapshot.Some? && operation == Remove(tx.snapshotStage) && Holds(disk, tx.snapshot.value, tx.after))
  }

  /** Forward operations, then the removal of the journal once both targets are new. */
  predicate Completes(disk: Disk, tx: Transaction, operations: seq<Operation>)
    decreases |operations|
  {
    if operations == [Remove(tx.journalPath)] then BothHold(disk, tx, tx.after)
    else
      && operations != [] && Forward(disk, tx, operations[0])
      && Completes(Apply(disk, operations[0]), tx, operations[1..])
  }

  lemma ForwardKeepsDecided(disk: Disk, tx: Transaction, operation: Operation)
    requires WellFormed(tx) && Decided(disk, tx) && Forward(disk, tx, operation)
    ensures Decided(Apply(disk, operation), tx)
  {
  }

  lemma {:induction false} CompletingNeverUndecides(disk: Disk, tx: Transaction, operations: seq<Operation>, count: nat)
    requires WellFormed(tx) && Decided(disk, tx) && Completes(disk, tx, operations) && count <= |operations|
    ensures count < |operations| ==> Decided(ApplyAll(disk, operations[..count]), tx)
    ensures count == |operations| ==> Committed(ApplyAll(disk, operations[..count]), tx)
    decreases |operations|
  {
    if operations == [Remove(tx.journalPath)] {
      assert operations[..1] == operations && operations[1..] == [];
    } else if count > 0 {
      ForwardKeepsDecided(disk, tx, operations[0]);
      assert operations[..count][1..] == operations[1..][..count - 1];
      CompletingNeverUndecides(Apply(disk, operations[0]), tx, operations[1..], count - 1);
    }
  }

  lemma PublishCompletes(disk: Disk, tx: Transaction)
    requires WellFormed(tx) && Staged(disk, tx)
    ensures Decided(Apply(disk, PublishOperations(tx)[0]), tx)
    ensures Completes(Apply(disk, PublishOperations(tx)[0]), tx, PublishOperations(tx)[1..])
  {
    var published := Apply(disk, PublishOperations(tx)[0]);
    var replaced := Apply(published, Rename(tx.sourceStage, tx.source));
    if tx.snapshot.Some? {
      var both := Apply(replaced, Rename(tx.snapshotStage, tx.snapshot.value));
      assert BothHold(both, tx, tx.after);
      CompletesNext(replaced, tx, Rename(tx.snapshotStage, tx.snapshot.value), [Remove(tx.journalPath)]);
      CompletesNext(published, tx, Rename(tx.sourceStage, tx.source),
                    [Rename(tx.snapshotStage, tx.snapshot.value), Remove(tx.journalPath)]);
    } else {
      CompletesNext(published, tx, Rename(tx.sourceStage, tx.source), [Remove(tx.journalPath)]);
    }
  }

  lemma CompletesNext(disk: Disk, tx: Transaction, operation: Operation, rest: seq<Operation>)
    requires WellFormed(tx) && Forward(disk, tx, operation) && Completes(Apply(disk, operation), tx, rest)
    ensures Completes(disk, tx, [operation] + rest)
  {
    assert ([operation] + rest)[1..] == rest;
  }

  /** The two contents have different fingerprints, or are the same content. */
  predicate Distinguished(tx: Transaction) {
    tx.hash(tx.before) == tx.hash(tx.after) ==> tx.before == tx.after
  }

  lemma TargetMovesForward(disk: Disk, tx: Transaction, target: Path, stage: Path)
    requires WellFormed(tx) && Distinguished(tx) && Recoverable(disk, tx, target, stage)
    ensures var plan := TargetPlan(tx.hash, disk, target, stage, JournalOf(tx));
      && plan.outcome == Ok(())
      && ((plan.operations == [] && Holds(disk, target, tx.after))
          || (plan.operations == [Rename(stage, target)] && Holds(disk, stage, tx.after)))
  {
  }

  lemma CleanupCompletes(disk: Disk, tx: Transaction)
    requires WellFormed(tx) && Decided(disk, tx) && BothHold(disk, tx, tx.after)
    ensures Completes(disk, tx, CleanupPlan(disk, JournalOf(tx), tx.journalPath))
  {
    var first := RemovePlan(disk, tx.sourceStage);
    var middle := ApplyAll(disk, first);
    ApplyRemoval(disk, tx.sourceStage);
    var second := if tx.snapshot.Some? then RemovePlan(middle, tx.snapshotStage) else [];
    var last := ApplyAll(middle, second);
    ApplyRemoval(middle, tx.snapshotStage);
    assert RemovePlan(last, tx.journalPath) == [Remove(tx.journalPath)];
    assert Completes(last, tx, [Remove(tx.journalPath)]);
    if second == [] {
      assert second + [Remove(tx.journalPath)] == [Remove(tx.journalPath)];
    } else {
      CompletesNext(middle, tx, Remove(tx.snapshotStage), [Remove(tx.journalPath)]);
    }
    var rest := second + [Remove(tx.journalPath)];
    if first == [] {
      assert first + second + [Remove(tx.journalPath)] == rest;
    } else {
      CompletesNext(disk, tx, Remove(tx.sourceStage), rest);
      assert first + second + [Remove(tx.journalPath)] == [Remove(tx.sourceStage)] + rest;
    }
  }

  lemma SnapshotRecoveryCompletes(disk: Disk, tx: Transaction)
    requires WellFormed(tx) && Distinguished(tx) && Decided(disk, tx) && Holds(disk, tx.source, tx.after)
    ensures AfterSource(tx.hash, disk, JournalOf(tx), tx.journalPath).outcome == Ok(())
    ensures Completes(disk, tx, AfterSource(tx.hash, disk, JournalOf(tx), tx.journalPath).operations)
  {
    var none: seq<Operation> := [];
    if tx.snapshot.None? {
      CleanupCompletes(disk, tx);
      assert none + CleanupPlan(disk, JournalOf(tx), tx.journalPath) ==
        CleanupPlan(disk, JournalOf(tx), tx.journalPath);
    } else {
      TargetMovesForward(disk, tx, tx.snapshot.value, tx.snapshotStage);
      var second := TargetPlan(tx.hash, disk, tx.snapshot.value, tx.snapshotStage, JournalOf(tx)).operations;
      if second == [] {
        CleanupCompletes(disk, tx);
        assert none + CleanupPlan(disk, JournalOf(tx), tx.journalPath) ==
          CleanupPlan(disk, JournalOf(tx), tx.journalPath);
      } else {
        var move := Rename(tx.snapshotStage, tx.snapshot.value);
        ApplyOne(disk, move);
        ForwardKeepsDecided(disk, tx, move);
        CleanupCompletes(Apply(disk, move), tx);
        CompletesNext(disk, tx, move, CleanupPlan(Apply(disk, move), JournalOf(tx), tx.journalPath));
      }
    }
  }

  lemma RecoveryCompletes(disk: Disk, tx: Transaction)
    requires WellFormed(tx) && Distinguished(tx) && Decided(disk, tx)
    ensures RecoveryPlan(tx.hash, disk, tx.source, tx.journalPath).outcome == Ok(())
    ensures Completes(disk, tx, RecoveryPlan(tx.hash, disk, tx.source, tx.journalPath).operations)
  {
    TargetMovesForward(disk, tx, tx.source, tx.sourceStage);
    var none: seq<Operation> := [];
    var first := TargetPlan(tx.hash, disk, tx.source, tx.sourceStage, JournalOf(tx)).operations;
    if first == [] {
      SnapshotRecoveryCompletes(disk, tx);
      var rest := AfterSource(tx.hash, disk, JournalOf(tx), tx.journalPath).operations;
      assert none + rest == rest;
    } else {
      var move := Rename(tx.sourceStage, tx.source);
      ApplyOne(disk, move);
      ForwardKeepsDecided(disk, tx, move);
      SnapshotRecoveryCompletes(Apply(disk, move), tx);
      CompletesNext(disk, tx, move, AfterSource(tx.hash, Apply(disk, move), JournalOf(tx), tx.journalPath).operations);
    }
  }

  // ---------------------------------------------------------------- crash consistency

  /** A commit that stops after `count` operations, then recoveries that each stop early. */
  function Crashed(disk: Disk, tx: Transaction, count: nat, cuts: seq<nat>): Disk
    requires count <= |CommitOperations(tx)|
  {
    AfterCuts(tx.hash, ApplyAll(disk, CommitOperations(tx)[..count]), tx.source, tx.journalPath, cuts)
  }

  lemma CommitPhases(disk: Disk, tx: Transaction, count: nat)
    requires WellFormed(tx) && Undecided(disk, tx) && count <= |CommitOperations(tx)|
    ensures var stopped := ApplyAll(disk, CommitOperations(tx)[..count]);
      if count < PublishedAfter(tx) then Undecided(stopped, tx) else Decided(stopped, tx) || Committed(stopped, tx)
  {
    var staging, publishing := StageOperations(tx), PublishOperations(tx);
    ApplyAllPrefix(disk, staging, publishing, count);
    if count <= |staging| {
      StagingDecidesNothing(disk, tx, staging[..count]);
    } else {
      StagingCompletes(disk, tx);
      var staged, index := ApplyAll(disk, staging), count - |staging|;
      PublishCompletes(staged, tx);
      assert publishing[..index][1..] == publishing[1..][..index - 1];
      CompletingNeverUndecides(Apply(staged, publishing[0]), tx, publishing[1..], index - 1);
    }
  }

  lemma InterruptedRecoveryAdvances(disk: Disk, tx: Transaction, count: nat)
    requires WellFormed(tx) && Distinguished(tx)
    ensures var next := Interrupted(tx.hash, disk, tx.source, tx.journalPath, count);
      && (Undecided(disk, tx) || Committed(disk, tx) ==> next == disk)
      && (Decided(disk, tx) ==> Decided(next, tx) || Committed(next, tx))
  {
    if Decided(disk, tx) {
      RecoveryCompletes(disk, tx);
      var operations := RecoveryPlan(tx.hash, disk, tx.source, tx.journalPath).operations;
      CompletingNeverUndecides(disk, tx, operations, Min(count, |operations|));
    }
  }

  lemma {:induction false} CutsAdvance(disk: Disk, tx: Transaction, cuts: seq<nat>)
    requires WellFormed(tx) && Distinguished(tx)
    ensures var next := AfterCuts(tx.hash, disk, tx.source, tx.journalPath, cuts);
      && (Undecided(disk, tx) ==> Undecided(next, tx))
      && (Decided(disk, tx) || Committed(disk, tx) ==> Decided(next, tx) || Committed(next, tx))
    decreases |cuts|
  {
    if cuts != [] {
      InterruptedRecoveryAdvances(disk, tx, cuts[0]);
      CutsAdvance(Interrupted(tx.hash, disk, tx.source, tx.journalPath, cuts[0]), tx, cuts[1..]);
    }
  }

  /** A crash after any operation of a commit, then any number of interrupted recoveries and a complete one, leave
      both files new when the journal had been published, both old otherwise, and no journal. */
  lemma CrashThenRecoverIsAtomic(disk: Disk, tx: Transaction, count: nat, cuts: seq<nat>)
    requires WellFormed(tx) && Distinguished(tx) && Undecided(disk, tx) && count <= |CommitOperations(tx)|
    ensures var crashed := Crashed(disk, tx, count, cuts);
      var recovered := Recovered(tx.hash, crashed, tx.source, tx.journalPath);
      && RecoveryPlan(tx.hash, crashed, tx.source, tx.journalPath).outcome == Ok(())
      && tx.journalPath !in recovered
      && BothHold(recovered, tx, if count < PublishedAfter(tx) then tx.before else tx.after)
  {
    CommitPhases(disk, tx, count);
    CutsAdvance(ApplyAll(disk, CommitOperations(tx)[..count]), tx, cuts);
    var crashed := Crashed(disk, tx, count, cuts);
    if Decided(crashed, tx) {
      RecoveryCompletes(crashed, tx);
      var operations := RecoveryPlan(tx.hash, crashed, tx.source, tx.journalPath).operations;
      assert operations[..|operations|] == operations;
      CompletingNeverUndecides(crashed, tx, operations, |operations|);
    }
  }

  predicate Atomic(disk: Disk, tx: Transaction) {
    tx.journalPath !in disk && (BothHold(disk, tx, tx.before) || BothHold(disk, tx, tx.after))
  }

  /** Every crash, followed by interrupted recoveries and a complete one, ends with both files old or both new. */
  ghost predicate AlwaysAtomic(tx: Transaction) {
    forall disk: Disk, count: nat, cuts: seq<nat> | Undecided(disk, tx) && count <= |CommitOperations(tx)| ::
      Atomic(Recovered(tx.hash, Crashed(disk, tx, count, cuts), tx.source, tx.journalPath), tx)
  }

  /** Recovery compares fingerprints, not contents: a two-file commit is atomic exactly when the fingerprint tells
      the old content from the new one. */
  lemma AtomicExactlyWhenDistinguished(tx: Transaction)
    requires WellFormed(tx) && tx.snapshot.Some?
    ensures AlwaysAtomic(tx) <==> Distinguished(tx)
  {
    if Distinguished(tx) {
      forall disk: Disk, count: nat, cuts: seq<nat> | Undecided(disk, tx) && count <= |CommitOperations(tx)|
        ensures Atomic(Recovered(tx.hash, Crashed(disk, tx, count, cuts), tx.source, tx.journalPath), tx)
      {
        CrashThenRecoverIsAtomic(disk, tx, count, cuts);
      }
    } else {
      var disk: Disk := map[tx.source := Data(tx.before), tx.snapshot.value := Data(tx.before)];
      var count := PublishedAfter(tx) + 1;
      CollisionSplitsFiles(disk, tx);
      assert Crashed(disk, tx, count, []) == ApplyAll(disk, CommitOperations(tx)[..count]);
      assert !Atomic(Recovered(tx.hash, Crashed(disk, tx, count, []), tx.source, tx.journalPath), tx);
    }
  }

  /** With equal fingerprints, a crash between the two replacements leaves the source new and the snapshot old, and
      recovery takes the snapshot for settled. */
  lemma CollisionSplitsFiles(disk: Disk, tx: Transaction)
    requires WellFormed(tx) && tx.snapshot.Some? && Undecided(disk, tx) && !Distinguished(tx)
    ensures var crashed := ApplyAll(disk, CommitOperations(tx)[..PublishedAfter(tx) + 1]);
      var recovered := Recovered(tx.hash, crashed, tx.source, tx.journalPath);
      && Holds(recovered, tx.source, tx.after) && Holds(recovered, tx.snapshot.value, tx.before)
  {
    var crashed := ApplyAll(disk, CommitOperations(tx)[..PublishedAfter(tx) + 1]);
    CrashBetweenReplacements(disk, tx);
    var plan := RecoveryPlan(tx.hash, crashed, tx.source, tx.journalPath);
    var cleanup := CleanupPlan(crashed, JournalOf(tx), tx.journalPath);
    assert Target(tx.hash, crashed, tx.source, tx.sourceStage, tx.hash(tx.before), tx.hash(tx.after)).Settled?;
    assert Target(tx.hash, crashed, tx.snapshot.value, tx.snapshotStage, tx.hash(tx.before),
        tx.hash(tx.after)).Settled?;
    var none: seq<Operation> := [];
    assert none + cleanup == cleanup;
    assert AfterSource(tx.hash, crashed, JournalOf(tx), tx.journalPath).operations == cleanup;
    assert plan.operations == cleanup;
    CleanupRemoves(crashed, JournalOf(tx), tx.journalPath);
  }

  lemma CrashBetweenReplacements(disk: Disk, tx: Transaction)
    requires WellFormed(tx) && tx.snapshot.Some? && Undecided(disk, tx)
    ensures var crashed := ApplyAll(disk, CommitOperations(tx)[..PublishedAfter(tx) + 1]);
      && tx.journalPath in crashed && crashed[tx.journalPath] == JournalFile(JournalOf(tx))
      && Holds(crashed, tx.source, tx.after) && Holds(crashed, tx.snapshot.value, tx.before)
  {
    var staging, publishing := StageOperations(tx), PublishOperations(tx);
    ApplyAllPrefix(disk, staging, publishing, |staging| + 2);
    StagingCompletes(disk, tx);
    var staged := ApplyAll(disk, staging);
    ApplyTwo(staged, publishing[..2]);
    assert publishing[..2] == [Rename(tx.journalStage, tx.journalPath), Rename(tx.sourceStage, tx.source)];
  }

  lemma CleanupRemoves(disk: Disk, journal: Journal, journalPath: Path)
    ensures var stage := if journal.snapshotStage.Some? then {journal.snapshotStage.value} else {};
      ApplyAll(disk, CleanupPlan(disk, journal, journalPath)) == disk - {journal.sourceStage} - stage - {journalPath}
  {
    var first := RemovePlan(disk, journal.sourceStage);
    var middle := ApplyAll(disk, first);
    ApplyRemoval(disk, journal.sourceStage);
    var second := if journal.snapshotStage.Some? then RemovePlan(middle, journal.snapshotStage.value) else [];
    var last := ApplyAll(middle, second);
    if journal.snapshotStage.Some? {
      ApplyRemoval(middle, journal.snapshotStage.value);
    }
    ApplyRemoval(last, journalPath);
    ApplyAllConcat(disk, first + second, RemovePlan(last, journalPath));
    ApplyAllConcat(disk, first, second);
  }

  /** A recovery that succeeds, on any disk, leaves no journal; a further one finds nothing to do. */
  lemma RecoveryIsIdempotent(hash: Hash, disk: Disk, source: Path, journalPath: Path)
    requires RecoveryPlan(hash, disk, source, journalPath).outcome == Ok(())
    ensures var recovered := Recovered(hash, disk, source, journalPath);
      && journalPath !in recovered
      && RecoveryPlan(hash, recovered, source, journalPath) == Plan([], Ok(()))
      && Recovered(hash, recovered, source, journalPath) == recovered
  {
    if journalPath in disk {
      var journal := disk[journalPath].journal;
      var first := TargetPlan(hash, disk, journal.sourcePath, journal.sourceStage, journal).operations;
      var middle := ApplyAll(disk, first);
      var second := if journal.snapshotPath.Some?
        then TargetPlan(hash, middle, journal.snapshotPath.value, journal.snapshotStage.value, journal).operations
          else [];
      var last := ApplyAll(middle, second);
      var cleanup := CleanupPlan(last, journal, journalPath);
      ApplyAllConcat(disk, first, second + cleanup);
      ApplyAllConcat(middle, second, cleanup);
      CleanupRemoves(last, journal, journalPath);
    }
  }

  /** The content of a path is not one of the two the journal names. */
  predicate Foreign(hash: Hash, disk: Disk, path: Path, journal: Journal) {
    var content := ReadBounded(disk, path);
    content.Err? || hash(content.value) !in {journal.oldFingerprint, journal.newFingerprint}
  }

  predicate SameAt(disk: Disk, next: Disk, path: Path) {
    (path in disk <==> path in next) && (path in disk ==> disk[path] == next[path])
  }

  /** A source that is neither old nor new stops recovery before it touches anything. */
  lemma ForeignSourceStopsRecovery(hash: Hash, disk: Disk, source: Path, journalPath: Path, count: nat)
    requires journalPath in disk && disk[journalPath].JournalFile?
        && Foreign(hash, disk, source, disk[journalPath].journal)
    ensures RecoveryPlan(hash, disk, source, journalPath).outcome.Err?
    ensures Interrupted(hash, disk, source, journalPath, count) == disk
  {
  }

  /** A snapshot that is neither old nor new is never written, however far recovery gets. */
  lemma ForeignSnapshotIsKept(hash: Hash, disk: Disk, source: Path, journalPath: Path, count: nat)
    requires journalPath in disk && disk[journalPath].JournalFile? && disk[journalPath].journal.snapshotPath.Some?
    requires var journal := disk[journalPath].journal;
      && Foreign(hash, disk, journal.snapshotPath.value, journal)
      && journal.snapshotPath.value !in {journal.sourcePath, journal.sourceStage}
    ensures RecoveryPlan(hash, disk, source, journalPath).outcome.Err?
    ensures SameAt(disk, Interrupted(hash, disk, source, journalPath, count),
        disk[journalPath].journal.snapshotPath.value)
  {
    var journal := disk[journalPath].journal;
    var snapshot := journal.snapshotPath.value;
    if JournalAccepted(journal, source) {
      var first := TargetPlan(hash, disk, journal.sourcePath, journal.sourceStage, journal);
      if first.operations != [] {
        ApplyOne(disk, first.operations[0]);
      }
      var middle := ApplyAll(disk, first.operations);
      assert SameAt(disk, middle, snapshot);
      assert Foreign(hash, middle, snapshot, journal);
      assert RecoveryPlan(hash, disk, source, journalPath).operations == first.operations;
      if count == 0 {
        assert first.operations[..0] == [];
      } else {
        assert first.operations[..Min(count, |first.operations|)] == first.operations;
      }
    }
  }

  // ---------------------------------------------------------------- when recovery succeeds, on any disk

  /** A file of the allowed size with a given fingerprint. */
  predicate Carries(hash: Hash, disk: Disk, path: Path, fingerprint: nat) {
    && path in disk && disk[path].Data? && |disk[path].bytes| <= MAX_CONFIG_BYTES
    && hash(disk[path].bytes) == fingerprint
  }

  /** A target that recovery can bring to the new content: it has it, or it has the old one and the new one is
      staged. */
  predicate CanSettle(hash: Hash, disk: Disk, target: Path, stage: Path, journal: Journal) {
    || Carries(hash, disk, target, journal.newFingerprint)
    || (Carries(hash, disk, target, journal.oldFingerprint) && Carries(hash, disk, stage, journal.newFingerprint))
  }

  /** What recovery leaves at a target it settles. */
  function SettledFile(hash: Hash, disk: Disk, target: Path, stage: Path, journal: Journal): Option<File> {
    if Carries(hash, disk, target, journal.newFingerprint) then Some(disk[target])
    else if stage in disk then Some(disk[stage]) else None
  }

  /** The journal is one this configuration accepts, and its five paths are different. */
  predicate Pending(disk: Disk, source: Path, journalPath: Path) {
    && journalPath in disk && disk[journalPath].JournalFile?
    && var journal := disk[journalPath].journal;
       && journal.sourcePath == source && journalPath !in {source, journal.sourceStage} && source != journal.sourceStage
       && journal.snapshotPath.Some? == journal.snapshotStage.Some?
       && (journal.snapshotPath.Some? ==>
           && journal.snapshotPath.value !in {source, journal.sourceStage, journalPath, journal.snapshotStage.value}
           && journal.snapshotStage.value !in {source, journal.sourceStage, journalPath})
  }

  lemma TargetDecides(hash: Hash, disk: Disk, target: Path, stage: Path, journal: Journal)
    ensures var plan := TargetPlan(hash, disk, target, stage, journal);
      && (plan.outcome.Ok? <==> CanSettle(hash, disk, target, stage, journal))
      && plan.operations == (if CanSettle(hash, disk, target, stage, journal)
                                && !Carries(hash, disk, target, journal.newFingerprint)
                             then [Rename(stage, target)] else [])
  {
  }

  /** Settling one target leaves every other path but its stage alone. */
  lemma SettlingKeepsOthers(hash: Hash, disk: Disk, target: Path, stage: Path, journal: Journal, other: Path)
    requires target != stage
    ensures var next := ApplyAll(disk, TargetPlan(hash, disk, target, stage, journal).operations);
      && (other !in {target, stage} ==> SameAt(disk, next, other))
      && (CanSettle(hash, disk, target, stage, journal) ==>
          target in next && Some(next[target]) == SettledFile(hash, disk, target, stage, journal))
  {
    TargetDecides(hash, disk, target, stage, journal);
    if TargetPlan(hash, disk, target, stage, journal).operations != [] {
      ApplyOne(disk, Rename(stage, target));
    }
  }

  /** The disk between the two targets of a recovery. */
  function SourceSettled(hash: Hash, disk: Disk, journal: Journal): Disk {
    ApplyAll(disk, TargetPlan(hash, disk, journal.sourcePath, journal.sourceStage, journal).operations)
  }

  lemma SnapshotStaysDecidable(hash: Hash, disk: Disk, source: Path, journalPath: Path)
    requires Pending(disk, source, journalPath) && disk[journalPath].journal.snapshotPath.Some?
    ensures var journal := disk[journalPath].journal;
      var middle := SourceSettled(hash, disk, journal);
      var path, stage := journal.snapshotPath.value, journal.snapshotStage.value;
      && CanSettle(hash, middle, path, stage, journal) == CanSettle(hash, disk, path, stage, journal)
      && SettledFile(hash, middle, path, stage, journal) == SettledFile(hash, disk, path, stage, journal)
  {
    var journal := disk[journalPath].journal;
    SettlingKeepsOthers(hash, disk, source, journal.sourceStage, journal, journal.snapshotPath.value);
    SettlingKeepsOthers(hash, disk, source, journal.sourceStage, journal, journal.snapshotStage.value);
  }

  /** Recovery of a pending transaction succeeds exactly when every target has the new content, or has the old one
      and the new one is staged; fingerprints and the size limit decide what a file is. */
  lemma RecoverySucceedsExactlyWhen(hash: Hash, disk: Disk, source: Path, journalPath: Path)
    requires Pending(disk, source, journalPath)
    ensures var journal := disk[journalPath].journal;
      RecoveryPlan(hash, disk, source, journalPath).outcome.Ok? <==>
      && CanSettle(hash, disk, source, journal.sourceStage, journal)
      && (journal.snapshotPath.Some? ==>
          CanSettle(hash, disk, journal.snapshotPath.value, journal.snapshotStage.value, journal))
  {
    var journal := disk[journalPath].journal;
    TargetDecides(hash, disk, source, journal.sourceStage, journal);
    if journal.snapshotPath.Some? {
      SnapshotStaysDecidable(hash, disk, source, journalPath);
      TargetDecides(hash, SourceSettled(hash, disk, journal), journal.snapshotPath.value, journal.snapshotStage.value,
                    journal);
    }
  }

  /** And then each target has the content it had, if that was the new one, and the staged content otherwise. */
  lemma RecoveryLeavesTheNew(hash: Hash, disk: Disk, source: Path, journalPath: Path)
    requires Pending(disk, source, journalPath) && RecoveryPlan(hash, disk, source, journalPath).outcome.Ok?
    ensures var journal := disk[journalPath].journal;
      var recovered := Recovered(hash, disk, source, journalPath);
      && source in recovered
      && Some(recovered[source]) == SettledFile(hash, disk, source, journal.sourceStage, journal)
      && (journal.snapshotPath.Some? ==>
          && journal.snapshotPath.value in recovered
          && Some(recovered[journal.snapshotPath.value]) ==
             SettledFile(hash, disk, journal.snapshotPath.value, journal.snapshotStage.value, journal))
  {
    var journal := disk[journalPath].journal;
    var middle := SourceSettled(hash, disk, journal);
    RecoverySucceedsExactlyWhen(hash, disk, source, journalPath);
    SettlingKeepsOthers(hash, disk, source, journal.sourceStage, journal, source);
    var second: seq<Operation> := [];
    if journal.snapshotPath.Some? {
      var path, stage := journal.snapshotPath.value, journal.snapshotStage.value;
      SnapshotStaysDecidable(hash, disk, source, journalPath);
      SettlingKeepsOthers(hash, middle, path, stage, journal, source);
      second := TargetPlan(hash, middle, path, stage, journal).operations;
    }
    RecoveryInParts(hash, disk, source, journalPath, second);
    CleanupRemoves(ApplyAll(middle, second), journal, journalPath);
  }

  lemma RecoveryInParts(hash: Hash, disk: Disk, source: Path, journalPath: Path, second: seq<Operation>)
    requires Pending(disk, source, journalPath) && RecoveryPlan(hash, disk, source, journalPath).outcome.Ok?
    requires var journal := disk[journalPath].journal;
      second == if journal.snapshotPath.Some?
        then TargetPlan(hash, SourceSettled(hash, disk, journal), journal.snapshotPath.value,
                        journal.snapshotStage.value, journal).operations
        else []
    ensures var journal := disk[journalPath].journal;
      var last := ApplyAll(SourceSettled(hash, disk, journal), second);
      Recovered(hash, disk, source, journalPath) == ApplyAll(last, CleanupPlan(last, journal, journalPath))
  {
    var journal := disk[journalPath].journal;
    var first := TargetPlan(hash, disk, source, journal.sourceStage, journal).operations;
    var middle := SourceSettled(hash, disk, journal);
    var cleanup := CleanupPlan(ApplyAll(middle, second), journal, journalPath);
    ApplyAllConcat(disk, first, second + cleanup);
    ApplyAllConcat(middle, second, cleanup);
  }

  /** A damaged stage is never installed: while the source still has the old content, recovery stops before it touches
      anything. */
  lemma DamagedStageStopsRecovery(hash: Hash, disk: Disk, source: Path, journalPath: Path, count: nat)
    requires Pending(disk, source, journalPath)
    requires var journal := disk[journalPath].journal;
      && !Carries(hash, disk, source, journal.newFingerprint)
      && !Carries(hash, disk, journal.sourceStage, journal.newFingerprint)
    ensures RecoveryPlan(hash, disk, source, journalPath).outcome.Err?
    ensures Interrupted(hash, disk, source, journalPath, count) == disk
  {
  }

  /** Nor is a damaged stage of the snapshot, however far recovery gets. */
  lemma DamagedSnapshotStageIsNotInstalled(hash: Hash, disk: Disk, source: Path, journalPath: Path, count: nat)
    requires Pending(disk, source, journalPath) && disk[journalPath].journal.snapshotPath.Some?
    requires var journal := disk[journalPath].journal;
      && !Carries(hash, disk, journal.snapshotPath.value, journal.newFingerprint)
      && !Carries(hash, disk, journal.snapshotStage.value, journal.newFingerprint)
    ensures RecoveryPlan(hash, disk, source, journalPath).outcome.Err?
    ensures SameAt(disk, Interrupted(hash, disk, source, journalPath, count),
        disk[journalPath].journal.snapshotPath.value)
  {
    var journal := disk[journalPath].journal;
    var first := TargetPlan(hash, disk, source, journal.sourceStage, journal);
    RecoverySucceedsExactlyWhen(hash, disk, source, journalPath);
    SnapshotStaysDecidable(hash, disk, source, journalPath);
    SettlingKeepsOthers(hash, disk, source, journal.sourceStage, journal, journal.snapshotPath.value);
    var operations := RecoveryPlan(hash, disk, source, journalPath).operations;
    if first.outcome.Ok? {
      TargetDecides(hash, SourceSettled(hash, disk, journal), journal.snapshotPath.value, journal.snapshotStage.value,
                    journal);
      assert operations == first.operations;
    }
    TargetDecides(hash, disk, source, journal.sourceStage, journal);
    assert operations[..Min(count, |operations|)] == [] || operations[..Min(count, |operations|)] == operations;
  }

  /** A journal that does not parse, names another source, or names a snapshot without its stage or the reverse is
      refused, and nothing is touched. */
  lemma ForeignJournalIsRefused(hash: Hash, disk: Disk, source: Path, journalPath: Path, count: nat)
    requires journalPath in disk
    requires
      || disk[journalPath].Data?
      || disk[journalPath].journal.sourcePath != source
      || (disk[journalPath].journal.snapshotPath.Some? && disk[journalPath].journal.snapshotStage.None?)
      || (disk[journalPath].journal.snapshotPath.None? && disk[journalPath].journal.snapshotStage.Some?)
    ensures RecoveryPlan(hash, disk, source, journalPath).outcome == Err(InvalidJournal)
    ensures Interrupted(hash, disk, source, journalPath, count) == disk
  {
  }
}
