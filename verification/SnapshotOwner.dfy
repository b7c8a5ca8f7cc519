/** Arbitration of cache snapshot publication against source switches, invalidation, shutdown and drop.

    The first part gives the sections the owner executes under its locks, as functions on the owner state and as a
    class. The second part is a state machine that interleaves those sections with the cache stores they watch. */
module SnapshotOwner {
  import opened Basics

  /** A cache store is identified by its position in the list of stores created so far. */
  type StoreId = nat

  type Path = nat

  datatype Settings = Settings(enabled: bool, path: Path)

  datatype Source = Source(generation: U64, store: StoreId, settings: Settings)

  datatype OwnerState = OwnerState(source: Source, persisted: Option<nat>, stopped: bool)

  datatype CaptureOutcome = Inactive | Unchanged | Write(source: Source)

  function Bumped(source: Source): Source {
    source.(generation := SaturatingAdd(source.generation, 1))
  }

  /** `publish_switch` */
  function Switched(owner: OwnerState, store: StoreId, settings: Settings): OwnerState {
    OwnerState(Source(SaturatingAdd(owner.source.generation, 1), store, settings), None, owner.stopped)
  }

  /** What shutdown and drop do to the state: no earlier write may publish any more. */
  function Halted(owner: OwnerState): OwnerState {
    owner.(stopped := true, source := Bumped(owner.source))
  }

  /** The locked section at the start of a periodic write, given the store's version. */
  function Capture(owner: OwnerState, version: nat): CaptureOutcome {
    if owner.stopped || !owner.source.settings.enabled then Inactive
    else if owner.persisted == Some(version) then Unchanged
    else Write(owner.source)
  }

  /** `snapshot_publish_is_current` */
  predicate PublishIsCurrent(
    owner: OwnerState, source: Source, captured: nat, resetGeneration: nat, allowStopped: bool)
  {
    && owner.source.generation == source.generation
    && owner.source.store == source.store
    && (!owner.stopped || allowStopped)
    && resetGeneration == captured
  }

  /** The locked section after a successful periodic write. */
  function Recorded(owner: OwnerState, source: Source, readVersion: nat, version: nat): OwnerState {
    if owner.source.generation == source.generation && !owner.stopped
    then owner.(persisted := if version == readVersion then Some(readVersion) else None)
    else owner
  }

  /** No write captured at `generation` or before may publish. */
  ghost predicate Shut(owner: OwnerState, generation: U64) {
    forall source: Source, captured: nat, resetGeneration: nat, allowStopped: bool | source.generation <= generation ::
      !PublishIsCurrent(owner, source, captured, resetGeneration, allowStopped)
  }

  /** Running, with snapshots enabled. */
  predicate Live(owner: OwnerState) {
    !owner.stopped && owner.source.settings.enabled
  }

  /** No version of the store is on record, so the next periodic write of a live owner is not skipped. */
  predicate Due(owner: OwnerState) {
    owner.persisted == None
  }

  /** The periodic section writes the owner's own source exactly when the owner is live and the version on record is not
      the store's; it skips exactly when the owner is live and they agree; otherwise it does nothing. */
  lemma CaptureDecides(owner: OwnerState, version: nat)
    ensures Capture(owner, version).Write? <==> Live(owner) && owner.persisted != Some(version)
    ensures Capture(owner, version).Write? ==> Capture(owner, version).source == owner.source
    ensures Capture(owner, version).Unchanged? <==> Live(owner) && owner.persisted == Some(version)
    ensures Capture(owner, version).Inactive? <==> !Live(owner)
  {
  }

  class CacheSnapshotOwner {
    var source: Source
    var persisted: Option<nat>
    var stopped: bool

    function State(): OwnerState
      reads this
    {
      OwnerState(source, persisted, stopped)
    }

    constructor (store: StoreId, settings: Settings, recovered: Option<nat>)
      ensures State() == OwnerState(Source(1, store, settings), if settings.enabled then recovered else None, false)
    {
      source := Source(1, store, settings);
      persisted := if settings.enabled then recovered else None;
      stopped := false;
    }

    method PublishSwitch(store: StoreId, settings: Settings)
      modifies this
      ensures State() == Switched(old(State()), store, settings)
      ensures old(source.generation) < U64_MAX ==> Shut(State(), old(source.generation))
      ensures Due(State()) && source.store == store && source.settings == settings && stopped == old(stopped)
    {
      source := Source(SaturatingAdd(source.generation, 1), store, settings);
      persisted := None;
    }

    /** Begins shutdown; the captured source is the one the final write may publish. */
    method BeginShutdown() returns (final: Option<Source>)
      modifies this
      ensures old(stopped) ==> State() == old(State()) && final == None
      ensures !old(stopped) ==> State() == Halted(old(State())) && final == Some(source)
      ensures old(source.generation) < U64_MAX && !old(stopped) ==> Shut(State(), old(source.generation))
      ensures forall reset: nat | final.Some? :: PublishIsCurrent(State(), final.value, reset, reset, true)
      ensures stopped
    {
      if stopped {
        return None;
      }
      stopped := true;
      source := source.(generation := SaturatingAdd(source.generation, 1));
      final := Some(source);
    }

    method Drop()
      modifies this
      ensures State() == Halted(old(State()))
      ensures old(source.generation) < U64_MAX ==> Shut(State(), old(source.generation))
      ensures stopped
    {
      stopped := true;
      source := source.(generation := SaturatingAdd(source.generation, 1));
    }

    method SnapshotCurrent(version: nat) returns (outcome: CaptureOutcome)
      ensures outcome == Capture(State(), version)
      ensures outcome.Write? <==> !stopped && source.settings.enabled && persisted != Some(version)
      ensures outcome.Unchanged? <==> !stopped && source.settings.enabled && persisted == Some(version)
      ensures outcome.Write? ==> outcome.source == source
      ensures forall reset: nat | outcome.Write? :: PublishIsCurrent(State(), outcome.source, reset, reset, false)
    {
      if stopped || !source.settings.enabled {
        return Inactive;
      }
      if persisted == Some(version) {
        return Unchanged;
      }
      outcome := Write(source);
    }

    method Record(written: Source, readVersion: nat, version: nat)
      modifies this
      ensures State() == Recorded(old(State()), written, readVersion, version)
      ensures forall reset: nat, captured: nat | PublishIsCurrent(old(State()), written, captured, reset, false) ::
        persisted == if version == readVersion then Some(version) else None
      ensures old(source.generation) != written.generation || old(stopped) ==> State() == old(State())
    {
      if source.generation == written.generation && !stopped {
        persisted := if version == readVersion then Some(readVersion) else None;
      }
    }
  }

  // ---------------------------------------------------------------- interleavings

  /** The two counters of a store: one bump of `version` per write or removing invalidation, one bump of
      `resetGeneration` per removing invalidation. */
  datatype Store = Store(version: nat, resetGeneration: nat)

  /** A file this owner published, with the store its records are of and the versions between which they were read, or
      one that was there at start-up, of unknown content. */
  datatype File = File(store: StoreId, path: Path, low: nat, high: nat) | Found

  datatype Phase =
    | Captured
    | Ready(readVersion: nat)
    | Scanning(readVersion: nat, low: nat)
    | Scanned(readVersion: nat, low: nat, high: nat)
    | Gated(readVersion: nat, low: nat, high: nat)
    | Published(readVersion: nat, low: nat, high: nat)
    | Ended

  /** One snapshot write. `epoch` counts the switches, shutdowns and drops that precede its capture. */
  datatype Writer = Writer(source: Source, epoch: nat, resetGeneration: nat, final: bool, phase: Phase)

  datatype System = System(
    stores: seq<Store>,
    owner: OwnerState,
    epoch: nat,
    writers: seq<Writer>,
    periodic: Option<nat>,
    shutdownBegun: bool,
    finalSource: Option<(Source, nat)>,
    publishLock: Option<nat>,
    disk: Option<File>)

  datatype Step =
    | CreateStore
    | WriteRecord(store: StoreId)
    | RemoveRecords(store: StoreId)
    | Switch(next: StoreId, settings: Settings)
    | BeginShutdown
    | Drop
    | CapturePeriodic
    | StartFinal
    | ReadVersion(writer: nat)
    | BeginScan(writer: nat)
    | EndScan(writer: nat)
    | Gate(writer: nat)
    | Rename(writer: nat)
    | Record
    | Fail(writer: nat)

  function VersionOf(s: System, store: StoreId): nat {
    if store < |s.stores| then s.stores[store].version else 0
  }

  function ResetOf(s: System, store: StoreId): nat {
    if store < |s.stores| then s.stores[store].resetGeneration else 0
  }

  predicate CanPublish(s: System, writer: nat)
    requires writer < |s.writers|
  {
    var w := s.writers[writer];
    PublishIsCurrent(s.owner, w.source, w.resetGeneration, ResetOf(s, w.source.store), w.final)
  }

  predicate Enabled(s: System, step: Step) {
    match step
    case CreateStore => true
    case WriteRecord(store) => store < |s.stores|
    case RemoveRecords(store) => store < |s.stores|
    case Switch(next, _) => next < |s.stores| && s.publishLock.None?
    case BeginShutdown => s.publishLock.None? && !s.owner.stopped
    case Drop => true
    case CapturePeriodic =>
      s.periodic.None? && Capture(s.owner, VersionOf(s, s.owner.source.store)).Write?
    case StartFinal => s.finalSource.Some?
    case ReadVersion(writer) => writer < |s.writers| && s.writers[writer].phase.Captured?
    case BeginScan(writer) => writer < |s.writers| && s.writers[writer].phase.Ready?
    case EndScan(writer) => writer < |s.writers| && s.writers[writer].phase.Scanning?
    case Gate(writer) => writer < |s.writers| && s.writers[writer].phase.Scanned? && s.publishLock.None?
    case Rename(writer) => writer < |s.writers| && s.writers[writer].phase.Gated?
    case Record => s.periodic.Some? && s.periodic.value < |s.writers| && s.writers[s.periodic.value].phase.Published?
    case Fail(writer) => writer < |s.writers| && !s.writers[writer].phase.Ended?
  }

  function Advanced(s: System, writer: nat, phase: Phase): System
    requires writer < |s.writers|
  {
    s.(writers := s.writers[writer := s.writers[writer].(phase := phase)])
  }

  function Next(s: System, step: Step): System
    requires Enabled(s, step)
  {
    match step
    case CreateStore => s.(stores := s.stores + [Store(0, 0)])
    case WriteRecord(store) =>
      s.(stores := s.stores[store := s.stores[store].(version := s.stores[store].version + 1)])
    case RemoveRecords(store) =>
      s.(stores := s.stores[store := Store(s.stores[store].version + 1, s.stores[store].resetGeneration + 1)])
    case Switch(next, settings) => s.(owner := Switched(s.owner, next, settings), epoch := s.epoch + 1)
    case BeginShutdown =>
      var owner := Halted(s.owner);
      s.(owner := owner, epoch := s.epoch + 1, periodic := None, shutdownBegun := true,
         finalSource := if owner.source.settings.enabled then Some((owner.source, s.epoch + 1)) else None)
    case Drop => s.(owner := Halted(s.owner), epoch := s.epoch + 1, periodic := None, finalSource := None)
    case CapturePeriodic =>
      var source := s.owner.source;
      s.(writers := s.writers + [Writer(source, s.epoch, ResetOf(s, source.store), false, Captured)],
         periodic := Some(|s.writers|))
    case StartFinal =>
      var (source, epoch) := s.finalSource.value;
      s.(writers := s.writers + [Writer(source, epoch, ResetOf(s, source.store), true, Captured)], finalSource := None)
    case ReadVersion(i) => Advanced(s, i, Ready(VersionOf(s, s.writers[i].source.store)))
    case BeginScan(i) => Advanced(s, i,
        Scanning(s.writers[i].phase.readVersion, VersionOf(s, s.writers[i].source.store)))
    case EndScan(i) =>
      var p := s.writers[i].phase;
      Advanced(s, i, Scanned(p.readVersion, p.low, VersionOf(s, s.writers[i].source.store)))
    case Gate(i) =>
      var p := s.writers[i].phase;
      if CanPublish(s, i) then Advanced(s, i, Gated(p.readVersion, p.low, p.high)).(publishLock := Some(i))
      else Advanced(s, i, Ended).(periodic := if s.periodic == Some(i) then None else s.periodic)
    case Rename(i) =>
      var w := s.writers[i];
      Advanced(s, i, Published(w.phase.readVersion, w.phase.low, w.phase.high)).(
        publishLock := None, disk := Some(File(w.source.store, w.source.settings.path, w.phase.low, w.phase.high)))
    case Record =>
      var w := s.writers[s.periodic.value];
      s.(owner := Recorded(s.owner, w.source, w.phase.readVersion, VersionOf(s, w.source.store)), periodic := None)
    case Fail(i) =>
      Advanced(s, i, Ended).(
        publishLock := if s.publishLock == Some(i) then None else s.publishLock,
        periodic := if s.periodic == Some(i) then None else s.periodic)
  }

  // ---------------------------------------------------------------- invariant

  /** The generation after `epoch` switches, shutdowns and drops. */
  function GenerationAt(epoch: nat): U64 {
    SaturatingAdd(1, epoch)
  }

  predicate PhaseOk(phase: Phase, version: nat) {
    match phase
    case Captured => true
    case Ready(read) => read <= version
    case Scanning(read, low) => read <= low <= version
    case Scanned(read, low, high) => read <= low <= high <= version
    case Gated(read, low, high) => read <= low <= high <= version
    case Published(read, low, high) => read <= low <= high <= version
    case Ended => true
  }

  predicate Active(phase: Phase) {
    !phase.Published? && !phase.Ended?
  }

  predicate WriterOk(s: System, i: nat)
    requires i < |s.writers|
  {
    var w := s.writers[i];
    && w.source.store < |s.stores| && w.source.settings.enabled
    && w.epoch <= s.epoch
    && w.source.generation == GenerationAt(w.epoch)
    && (w.epoch == s.epoch ==> w.source == s.owner.source)
    && w.resetGeneration <= ResetOf(s, w.source.store)
    && PhaseOk(w.phase, VersionOf(s, w.source.store))
    && (w.final ==> s.shutdownBegun && s.finalSource.None?)
    && (w.phase.Gated? <==> s.publishLock == Some(i))
    && (!s.owner.stopped && Active(w.phase) ==> s.periodic == Some(i))
    && (s.shutdownBegun && w.phase.Gated? ==> w.final)
    && (!s.owner.stopped && w.phase.Gated? && s.owner.source.generation < U64_MAX ==> w.epoch == s.epoch)
  }

  predicate OwnerOk(s: System) {
    && s.owner.source.store < |s.stores|
    && s.owner.source.generation == GenerationAt(s.epoch)
    && (s.shutdownBegun ==> s.owner.stopped)
    && (s.owner.stopped ==> s.periodic.None?)
    && (s.publishLock.Some? ==> s.publishLock.value < |s.writers|)
    && (s.finalSource.Some? ==>
        && s.shutdownBegun && s.finalSource.value.1 <= s.epoch && s.finalSource.value.0.settings.enabled
        && s.finalSource.value.0.store < |s.stores|
        && s.finalSource.value.0.generation == GenerationAt(s.finalSource.value.1)
        && (s.finalSource.value.1 == s.epoch ==> s.finalSource.value.0 == s.owner.source))
  }

  /** The periodic write in flight belongs to the only periodic task. */
  predicate PeriodicOk(s: System) {
    s.periodic.Some? ==>
      && s.periodic.value < |s.writers|
      && !s.writers[s.periodic.value].final
      && !s.writers[s.periodic.value].phase.Ended?
  }

  /** What the file system holds for a source whose last write was recorded, or is about to be. */
  predicate DiskOk(s: System) {
    var source, version := s.owner.source, VersionOf(s, s.owner.source.store);
    (!s.owner.stopped && source.generation < U64_MAX ==>
        && (s.owner.persisted.Some? ==> s.owner.persisted.value <= version)
        && (s.owner.persisted == Some(version) ==>
            || s.disk == Some(File(source.store, source.settings.path, version, version))
            || (s.disk == Some(Found) && s.epoch == 0))
        && (s.periodic.Some? && s.periodic.value < |s.writers| && s.writers[s.periodic.value].epoch == s.epoch ==>
            && s.owner.persisted != Some(version)
            && (s.writers[s.periodic.value].phase.Published? ==>
                var p := s.writers[s.periodic.value].phase;
                s.disk == Some(File(source.store, source.settings.path, p.low, p.high)))))
  }

  ghost predicate FinalOnce(s: System) {
    forall i: nat, j: nat | i < |s.writers| && j < |s.writers| && s.writers[i].final && s.writers[j].final :: i == j
  }

  ghost predicate Inv(s: System) {
    && OwnerOk(s)
    && PeriodicOk(s)
    && DiskOk(s)
    && (forall i: nat | i < |s.writers| :: WriterOk(s, i))
    && FinalOnce(s)
  }

  lemma OwnerKept(s: System, step: Step)
    requires Inv(s) && Enabled(s, step)
    ensures OwnerOk(Next(s, step))
  {
  }

  lemma PeriodicKept(s: System, step: Step)
    requires Inv(s) && Enabled(s, step)
    ensures PeriodicOk(Next(s, step))
  {
  }

  predicate Scans(step: Step) {
    step.ReadVersion? || step.BeginScan? || step.EndScan?
  }

  /** A step of one writer leaves every writer in order. */
  lemma ScanKept(s: System, step: Step, i: nat)
    requires Inv(s) && Enabled(s, step) && Scans(step) && i < |s.writers|
    ensures WriterOk(Next(s, step), i)
  {
    assert WriterOk(s, i) && WriterOk(s, step.writer);
  }

  lemma GateKept(s: System, step: Step, i: nat)
    requires Inv(s) && Enabled(s, step) && step.Gate? && i < |s.writers|
    ensures WriterOk(Next(s, step), i)
  {
    assert WriterOk(s, i) && WriterOk(s, step.writer);
  }

  lemma PublishKept(s: System, step: Step, i: nat)
    requires Inv(s) && Enabled(s, step) && (step.Rename? || step.Fail?) && i < |s.writers|
    ensures WriterOk(Next(s, step), i)
  {
    assert WriterOk(s, i) && WriterOk(s, step.writer);
  }

  /** So does a step of a store, the owner or the periodic task. */
  lemma OtherMoveKept(s: System, step: Step, i: nat)
    requires Inv(s) && Enabled(s, step) && !Scans(step) && !step.Gate? && !step.Rename? && !step.Fail?
        && i < |Next(s, step).writers|
    ensures WriterOk(Next(s, step), i)
  {
    if i < |s.writers| {
      assert WriterOk(s, i);
    }
  }

  lemma DiskKept(s: System, step: Step)
    requires Inv(s) && Enabled(s, step)
    ensures DiskOk(Next(s, step))
  {
    if step.Rename? {
      assert WriterOk(s, step.writer);
    }
    if s.periodic.Some? {
      assert WriterOk(s, s.periodic.value);
    }
  }

  lemma FinalKept(s: System, step: Step)
    requires Inv(s) && Enabled(s, step)
    ensures FinalOnce(Next(s, step))
  {
    assert forall i: nat | i < |s.writers| && s.writers[i].final :: WriterOk(s, i);
  }

  lemma StepKeeps(s: System, step: Step)
    requires Inv(s) && Enabled(s, step)
    ensures Inv(Next(s, step))
  {
    OwnerKept(s, step);
    PeriodicKept(s, step);
    DiskKept(s, step);
    FinalKept(s, step);
    forall i: nat | i < |Next(s, step).writers|
      ensures WriterOk(Next(s, step), i)
    {
      if Scans(step) {
        ScanKept(s, step, i);
      } else if step.Gate? {
        GateKept(s, step, i);
      } else if step.Rename? || step.Fail? {
        PublishKept(s, step, i);
      } else {
        OtherMoveKept(s, step, i);
      }
    }
  }

  // ---------------------------------------------------------------- runs

  /** The start, with a file already there or not, and recovered to its end or not. */
  function Initial(stores: seq<Store>, source: Source, found: bool, recovered: bool): System
    requires source.store < |stores|
  {
    var version := stores[source.store].version;
    System(stores,
           OwnerState(source, if found && recovered && source.settings.enabled then Some(version) else None, false),
           0, [], None, false, None, None, if found then Some(Found) else None)
  }

  ghost predicate Taken(before: System, step: Step, after: System) {
    Enabled(before, step) && after == Next(before, step)
  }

  ghost predicate TakenAt(states: seq<System>, steps: seq<Step>, k: nat)
    requires |states| == |steps| + 1 && k < |steps|
  {
    Taken(states[k], steps[k], states[k + 1])
  }

  ghost predicate IsRun(states: seq<System>, steps: seq<Step>) {
    && |states| == |steps| + 1
    && states[0].owner.source.generation == 1
    && states[0].owner.source.store < |states[0].stores|
    && (exists found: bool, recovered: bool ::
        states[0] == Initial(states[0].stores, states[0].owner.source, found, recovered))
    && (forall k: nat | k < |steps| :: TakenAt(states, steps, k))
  }

  lemma {:induction false} RunKeeps(states: seq<System>, steps: seq<Step>, k: nat)
    requires IsRun(states, steps) && k < |states|
    ensures Inv(states[k])
  {
    if k > 0 {
      RunKeeps(states, steps, k - 1);
      assert TakenAt(states, steps, k - 1);
      StepKeeps(states[k - 1], steps[k - 1]);
    }
  }

  /** From `s` to `t`, writer `i` keeps what it captured and the counters it is compared with do not go back. */
  predicate KeepsCapture(s: System, t: System, i: nat)
    requires i < |s.writers|
  {
    && i < |t.writers| && t.writers[i].source == s.writers[i].source && t.writers[i].epoch == s.writers[i].epoch
    && t.writers[i].resetGeneration == s.writers[i].resetGeneration
    && ResetOf(s, s.writers[i].source.store) <= ResetOf(t, s.writers[i].source.store)
    && s.epoch <= t.epoch
  }

  lemma CaptureIsStable(s: System, step: Step, t: System, i: nat)
    requires Inv(s) && Taken(s, step, t) && i < |s.writers|
    ensures KeepsCapture(s, t, i)
  {
    assert WriterOk(s, i);
  }

  lemma {:induction false} CaptureIsStableAlongRun(states: seq<System>, steps: seq<Step>, j: nat, k: nat, i: nat)
    requires IsRun(states, steps) && j <= k < |states| && i < |states[j].writers|
    ensures KeepsCapture(states[j], states[k], i)
    decreases k - j
  {
    if j < k {
      CaptureIsStableAlongRun(states, steps, j, k - 1, i);
      RunKeeps(states, steps, k - 1);
      assert TakenAt(states, steps, k - 1);
      CaptureIsStable(states[k - 1], steps[k - 1], states[k], i);
      StableTransitive(states[j], states[k - 1], states[k], i);
    }
  }

  lemma StableTransitive(s: System, t: System, u: System, i: nat)
    requires i < |s.writers| && KeepsCapture(s, t, i) && KeepsCapture(t, u, i)
    ensures KeepsCapture(s, u, i)
  {
  }

  predicate Supersedes(step: Step) {
    step.Switch? || step.BeginShutdown? || step.Drop?
  }

  /** When a write passes the gate, none of the steps since its capture removed records from its store; nor, while
      generations are not exhausted, did any of them switch the source, begin shutdown or drop the owner. */
  lemma GatePassesOnlyUndisturbedWrites(states: seq<System>, steps: seq<Step>, k: nat, i: nat, j: nat)
    requires IsRun(states, steps) && k < |steps| && steps[k] == Gate(i) && i < |states[k].writers|
    requires states[k + 1].publishLock == Some(i)
    requires j < k && i < |states[j].writers|
    ensures steps[j] != RemoveRecords(states[k].writers[i].source.store)
    ensures states[k].owner.source.generation < U64_MAX ==> !Supersedes(steps[j])
  {
    GatePassesOnlyCurrentSource(states, steps, k, i);
    CaptureIsStableAlongRun(states, steps, j, k, i);
    RunKeeps(states, steps, j);
    assert WriterOk(states[j], i);
    assert TakenAt(states, steps, j);
    CaptureIsStable(states[j], steps[j], states[j + 1], i);
    CaptureIsStableAlongRun(states, steps, j + 1, k, i);
  }

  /** In every run, whoever writes a snapshot captured a source whose settings enable them. */
  lemma OnlyEnabledSourcesAreWritten(states: seq<System>, steps: seq<Step>, k: nat, i: nat)
    requires IsRun(states, steps) && k < |states| && i < |states[k].writers|
    ensures states[k].writers[i].source.settings.enabled
  {
    RunKeeps(states, steps, k);
    assert WriterOk(states[k], i);
  }

  /** In every run, a periodic write can begin exactly when none is under way, the owner runs with snapshots enabled,
      and the version on record is not the store's; it is a write of the owner's source. */
  lemma PeriodicWriteBegins(states: seq<System>, steps: seq<Step>, k: nat)
    requires IsRun(states, steps) && k < |states|
    ensures states[k].owner.source.store < |states[k].stores|
    ensures var s := states[k];
            Enabled(s, CapturePeriodic) <==>
            && s.periodic.None? && !s.owner.stopped && s.owner.source.settings.enabled
            && s.owner.persisted != Some(s.stores[s.owner.source.store].version)
    ensures k < |steps| && steps[k] == CapturePeriodic ==>
            var s, t := states[k], states[k + 1];
            && t.periodic == Some(|s.writers|) && |t.writers| == |s.writers| + 1
            && t.writers[|s.writers|] == Writer(
                 s.owner.source, s.epoch, s.stores[s.owner.source.store].resetGeneration, false, Captured)
  {
    RunKeeps(states, steps, k);
    CaptureDecides(states[k].owner, VersionOf(states[k], states[k].owner.source.store));
    assert k < |steps| ==> TakenAt(states, steps, k);
  }

  /** A write passes the gate only for the current source, with no removing invalidation since its capture, and,
      while generations are not exhausted, with no switch, shutdown or drop since its capture. */
  lemma GatePassesOnlyCurrentSource(states: seq<System>, steps: seq<Step>, k: nat, i: nat)
    requires IsRun(states, steps) && k < |steps| && steps[k] == Gate(i) && i < |states[k].writers|
    requires states[k + 1].publishLock == Some(i)
    ensures var s, w := states[k], states[k].writers[i];
      && w.source.generation == s.owner.source.generation && w.source.store == s.owner.source.store
      && w.resetGeneration == ResetOf(s, w.source.store)
      && (!s.owner.stopped || w.final)
      && (s.owner.source.generation < U64_MAX ==> w.epoch == s.epoch && w.source == s.owner.source)
  {
    RunKeeps(states, steps, k);
    assert TakenAt(states, steps, k);
    assert WriterOk(states[k], i);
  }

  /** In every run, the gate lets a write pass exactly when the owner still has its generation and store, runs or the
      write is the final one, and its store has removed nothing since; a write it refuses ends without touching the
      file. */
  lemma GateDecides(states: seq<System>, steps: seq<Step>, k: nat, i: nat)
    requires IsRun(states, steps) && k < |steps| && steps[k] == Gate(i) && i < |states[k].writers|
    ensures i < |states[k + 1].writers| && states[k].writers[i].source.store < |states[k].stores|
    ensures states[k + 1].disk == states[k].disk && states[k + 1].owner == states[k].owner
    ensures var s, t, w := states[k], states[k + 1], states[k].writers[i];
            if w.source.generation == s.owner.source.generation && w.source.store == s.owner.source.store
               && (!s.owner.stopped || w.final) && w.resetGeneration == s.stores[w.source.store].resetGeneration
            then t.publishLock == Some(i) && t.writers[i].phase.Gated?
            else t.publishLock == None && t.writers[i].phase.Ended?
  {
    RunKeeps(states, steps, k);
    assert TakenAt(states, steps, k);
    assert WriterOk(states[k], i);
  }

  /** In every run, a rename puts at the write's own path the records it read, and nothing else changes the file. */
  lemma OnlyRenamesChangeTheFile(states: seq<System>, steps: seq<Step>, k: nat)
    requires IsRun(states, steps) && k < |steps|
    ensures !steps[k].Rename? ==> states[k + 1].disk == states[k].disk
    ensures steps[k].Rename? ==>
            && steps[k].writer < |states[k].writers| && states[k].writers[steps[k].writer].phase.Gated?
            && var w := states[k].writers[steps[k].writer];
               states[k + 1].disk == Some(File(w.source.store, w.source.settings.path, w.phase.low, w.phase.high))
  {
    assert TakenAt(states, steps, k);
  }

  /** Once shutdown has begun, only the one final write changes the file. */
  lemma AfterShutdownOnlyFinalPublishes(states: seq<System>, steps: seq<Step>, k: nat)
    requires IsRun(states, steps) && k < |steps| && states[k].shutdownBegun
    requires states[k + 1].disk != states[k].disk
    ensures steps[k].Rename? && steps[k].writer < |states[k].writers| && states[k].writers[steps[k].writer].final
    ensures forall j: nat | j < |states[k].writers| && states[k].writers[j].final :: j == steps[k].writer
  {
    RunKeeps(states, steps, k);
    assert TakenAt(states, steps, k);
    assert WriterOk(states[k], steps[k].writer);
  }

  /** In every run, shutdown stops the owner and its periodic write, and leaves the final write of the current source
      due, exactly when its settings enable snapshots. */
  lemma ShutdownLeavesFinalWriteDue(states: seq<System>, steps: seq<Step>, k: nat)
    requires IsRun(states, steps) && k < |steps| && steps[k].BeginShutdown?
    ensures var s, t := states[k], states[k + 1];
            && t.owner.stopped && t.periodic == None && t.shutdownBegun && t.writers == s.writers
            && t.owner.source == s.owner.source.(generation := Min(s.owner.source.generation + 1, U64_MAX))
            && t.finalSource ==
               if s.owner.source.settings.enabled then Some((t.owner.source, s.epoch + 1)) else None
  {
    assert TakenAt(states, steps, k);
  }

  predicate FinalDueOrBegun(s: System) {
    s.finalSource.Some? || exists i: nat | i < |s.writers| :: s.writers[i].final
  }

  lemma FinalStaysDue(s: System, step: Step, t: System)
    requires Taken(s, step, t) && FinalDueOrBegun(s) && !step.Drop? && (step.BeginShutdown? ==> s.owner.stopped)
    ensures FinalDueOrBegun(t)
  {
    if step.StartFinal? {
      assert t.writers[|s.writers|].final;
    } else if i: nat :| i < |s.writers| && s.writers[i].final {
      assert t.writers[i].final;
    }
  }

  /** In every run, unless the owner is dropped, the final write of an enabled source stays due until it is begun. */
  lemma {:induction false} FinalWriteIsNotForgotten(states: seq<System>, steps: seq<Step>, j: nat, k: nat)
    requires IsRun(states, steps) && j < k < |states| && steps[j].BeginShutdown?
    requires states[j].owner.source.settings.enabled
    requires forall i: nat | j < i < k :: !steps[i].Drop?
    ensures FinalDueOrBegun(states[k])
    decreases k
  {
    if k == j + 1 {
      ShutdownLeavesFinalWriteDue(states, steps, j);
    } else {
      FinalWriteIsNotForgotten(states, steps, j, k - 1);
      ShutdownLeavesFinalWriteDue(states, steps, j);
      StoppedForGood(states, steps, j + 1, k - 1);
      assert TakenAt(states, steps, k - 1);
      FinalStaysDue(states[k - 1], steps[k - 1], states[k]);
    }
  }

  lemma {:induction false} StoppedForGood(states: seq<System>, steps: seq<Step>, j: nat, k: nat)
    requires IsRun(states, steps) && j <= k < |states| && states[j].owner.stopped
    ensures states[k].owner.stopped
    decreases k
  {
    if j < k {
      StoppedForGood(states, steps, j, k - 1);
      assert TakenAt(states, steps, k - 1);
    }
  }

  /** In every run, the version a published write read goes on record exactly when the store still has it, and only
      for an owner that runs and has not moved on; in both cases the periodic task is free again. */
  lemma RecordDecides(states: seq<System>, steps: seq<Step>, k: nat)
    requires IsRun(states, steps) && k < |steps| && steps[k] == Record
    ensures states[k].periodic.Some? && states[k].periodic.value < |states[k].writers|
    ensures var s, t, w := states[k], states[k + 1], states[k].writers[states[k].periodic.value];
            && w.phase.Published? && w.source.store < |s.stores| && t.periodic == None
            && t.owner.source == s.owner.source && t.owner.stopped == s.owner.stopped
            && t.owner.persisted ==
               if s.owner.stopped || s.owner.source.generation != w.source.generation then s.owner.persisted
               else if s.stores[w.source.store].version == w.phase.readVersion then Some(w.phase.readVersion)
               else None
  {
    RunKeeps(states, steps, k);
    assert TakenAt(states, steps, k);
    assert WriterOk(states[k], states[k].periodic.value);
  }

  predicate Bumps(step: Step, store: StoreId) {
    step == WriteRecord(store) || step == RemoveRecords(store)
  }

  lemma VersionsGrow(s: System, step: Step, t: System, store: StoreId)
    requires Taken(s, step, t)
    ensures VersionOf(s, store) + (if Bumps(step, store) then 1 else 0) <= VersionOf(t, store)
    ensures s.epoch + (if Supersedes(step) then 1 else 0) <= t.epoch
  {
  }

  lemma {:induction false} VersionsGrowAlongRun(states: seq<System>, steps: seq<Step>, j: nat, k: nat, store: StoreId)
    requires IsRun(states, steps) && j <= k < |states|
    ensures VersionOf(states[j], store) <= VersionOf(states[k], store) && states[j].epoch <= states[k].epoch
    decreases k - j
  {
    if j < k {
      VersionsGrowAlongRun(states, steps, j, k - 1, store);
      assert TakenAt(states, steps, k - 1);
      VersionsGrow(states[k - 1], steps[k - 1], states[k], store);
    }
  }

  /** A file found at start-up is still there only if nothing was renamed over it. */
  lemma FoundStepsBack(s: System, step: Step, t: System)
    requires Inv(s) && Taken(s, step, t) && t.disk == Some(Found)
    ensures s.disk == Some(Found) && !step.Rename?
    ensures t.epoch == 0 && !t.owner.stopped ==> t.owner.persisted == s.owner.persisted
  {
    if step.Record? {
      assert WriterOk(s, s.periodic.value);
    }
  }

  lemma {:induction false} FoundMeansUnrenamed(states: seq<System>, steps: seq<Step>, j: nat, k: nat)
    requires IsRun(states, steps) && j <= k < |states| && states[k].disk == Some(Found)
    ensures states[j].disk == Some(Found)
    ensures j < k ==> !steps[j].Rename?
    ensures states[k].epoch == 0 && !states[k].owner.stopped ==>
      states[k].owner.persisted == states[j].owner.persisted
    decreases k - j
  {
    if j < k {
      RunKeeps(states, steps, k - 1);
      assert TakenAt(states, steps, k - 1);
      FoundStepsBack(states[k - 1], steps[k - 1], states[k]);
      VersionsGrow(states[k - 1], steps[k - 1], states[k], 0);
      FoundMeansUnrenamed(states, steps, j, k - 1);
    }
  }

  /** The file found at start-up stands for the source as long as nothing happened since. */
  ghost predicate Undisturbed(steps: seq<Step>, k: nat, store: StoreId)
    requires k <= |steps|
  {
    forall j: nat | j < k :: !steps[j].Rename? && !Supersedes(steps[j]) && !Bumps(steps[j], store)
  }

  lemma FoundIsUndisturbed(states: seq<System>, steps: seq<Step>, k: nat)
    requires IsRun(states, steps) && k < |states| && states[k].disk == Some(Found) && states[k].epoch == 0
    requires !states[k].owner.stopped
    requires states[k].owner.persisted == Some(VersionOf(states[k], states[k].owner.source.store))
    ensures Undisturbed(steps, k, states[k].owner.source.store)
  {
    var store := states[k].owner.source.store;
    FoundMeansUnrenamed(states, steps, 0, k);
    SameSource(states, steps, k);
    forall j: nat | j < k
      ensures !steps[j].Rename? && !Supersedes(steps[j]) && !Bumps(steps[j], store)
    {
      FoundMeansUnrenamed(states, steps, j, k);
      VersionsGrowAlongRun(states, steps, 0, j, store);
      assert TakenAt(states, steps, j);
      VersionsGrow(states[j], steps[j], states[j + 1], store);
      VersionsGrowAlongRun(states, steps, j + 1, k, store);
    }
  }

  /** Before any switch, shutdown or drop the source is the first one. */
  lemma {:induction false} SameSource(states: seq<System>, steps: seq<Step>, k: nat)
    requires IsRun(states, steps) && k < |states| && states[k].epoch == 0
    ensures states[k].owner.source == states[0].owner.source
  {
    if k > 0 {
      assert TakenAt(states, steps, k - 1);
      VersionsGrow(states[k - 1], steps[k - 1], states[k], 0);
      SameSource(states, steps, k - 1);
    }
  }

  /** The periodic task skips a write only when the file already holds exactly the records of the current source at
      its current version, all read at that version, from that store, to that path; or when it is the file recovered
      at start-up, and since then no record changed, nothing was renamed, and the source is still the first. */
  lemma SkipMeansFileIsCurrent(states: seq<System>, steps: seq<Step>, k: nat)
    requires IsRun(states, steps) && k < |states|
    requires states[k].owner.source.generation < U64_MAX
    requires Capture(states[k].owner, VersionOf(states[k], states[k].owner.source.store)).Unchanged?
    ensures var s, source := states[k], states[k].owner.source;
      var version := VersionOf(s, source.store);
      || s.disk == Some(File(source.store, source.settings.path, version, version))
      || (s.disk == Some(Found) && Undisturbed(steps, k, source.store))
  {
    RunKeeps(states, steps, k);
    if states[k].disk == Some(Found) {
      FoundIsUndisturbed(states, steps, k);
    }
  }
}
