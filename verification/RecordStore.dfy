/** The record side of `MemoryCacheStore`: versioned compare-and-swap, lazy expiry, quality and statistics.

    Each locked section is a function on the store's value; the class in `MemoryCacheStore` computes them. */
module RecordStore {
  import opened Basics
  import opened CachePort
  import opened Eviction

  datatype Stats = Stats(
    entries: nat,
    weightedSize: nat,
    hits: U64,
    misses: U64,
    conflicts: U64,
    evictions: U64)

  datatype Store = Store(
    records: Records,
    nextVersion: nat,
    maxWeight: Option<nat>,
    stats: Stats,
    shuttingDown: bool)

  function Empty(maxWeight: Option<nat>): Store {
    Store(map[], 0, maxWeight, Stats(0, 0, 0, 0, 0, 0), false)
  }

  // ---------------------------------------------------------------- locked sections

  ghost function RefreshStats(s: Store): Store {
    s.(stats := s.stats.(entries := |s.records|, weightedSize := WeightedSize(s.records)))
  }

  ghost function EnforceCapacity(s: Store): Store {
    match s.maxWeight
    case None => RefreshStats(s)
    case Some(limit) =>
      var kept := Evict(s.records, limit);
      RefreshStats(s.(records := kept,
                      stats := s.stats.(evictions := SaturatingAdd(s.stats.evictions, |s.records.Keys - kept.Keys|))))
  }

  ghost function Get(s: Store, key: CacheKey, now: Instant): (r: (Store, Result<Option<CacheRecord>, PortError>)) {
    if s.shuttingDown then (s, Err(Unavailable))
    else if key !in s.records then (s.(stats := s.stats.(misses := SaturatingAdd(s.stats.misses, 1))), Ok(None))
    else if !IsVisible(s.records[key], now) then
      (RefreshStats(s.(records := s.records - {key},
                       stats := s.stats.(misses := SaturatingAdd(s.stats.misses, 1)))), Ok(None))
    else if IsAnswerable(s.records[key], now) then
      (s.(stats := s.stats.(hits := SaturatingAdd(s.stats.hits, 1))), Ok(Some(s.records[key])))
    else (s.(stats := s.stats.(misses := SaturatingAdd(s.stats.misses, 1))), Ok(Some(s.records[key])))
  }

  /** The lazy purge at the start of a compare-and-swap. */
  ghost function Purge(s: Store, key: CacheKey, now: Instant): Store {
    if key in s.records && !IsVisible(s.records[key], now) then RefreshStats(s.(records := s.records - {key})) else s
  }

  function CurrentVersion(records: Records, key: CacheKey): Option<nat> {
    if key in records then Some(records[key].version) else None
  }

  predicate ConditionMatches(condition: CacheCondition, current: Option<nat>) {
    match condition
    case Absent => current.None?
    case Version(expected) => current == Some(expected)
  }

  predicate OutranksFresh(records: Records, key: CacheKey, entry: CacheEntry, now: Instant) {
    && key in records
    && QualityRank(records[key].entry.quality) > QualityRank(entry.quality)
    && IsFresh(records[key], now)
  }

  /** The answer of a compare-and-swap that does not write; none when it writes. */
  function Refusal(
      records: Records, maxWeight: Option<nat>, key: CacheKey, condition: CacheCondition, entry: CacheEntry,
      now: Instant)
    : Option<Result<CacheWriteOutcome, PortError>>
  {
    var current := CurrentVersion(records, key);
    if !ConditionMatches(condition, current) then Some(Ok(Conflict(current)))
    else if OutranksFresh(records, key, entry, now) then Some(Ok(RejectedQuality))
    else if maxWeight.Some? && Weight(key, CacheRecord(0, entry)) > maxWeight.value then Some(Err(ResourceExhausted))
    else None
  }

  /** The records right after the insertion, before capacity is enforced. */
  function Extended(s: Store, key: CacheKey, entry: CacheEntry): Store {
    s.(records := s.records[key := CacheRecord(s.nextVersion + 1, entry)], nextVersion := s.nextVersion + 1)
  }

  /** The compare-and-swap proper, on purged records. */
  ghost function Settle(s: Store, key: CacheKey, condition: CacheCondition, entry: CacheEntry, now: Instant)
    : (r: (Store, Result<CacheWriteOutcome, PortError>))
  {
    match Refusal(s.records, s.maxWeight, key, condition, entry, now)
    case Some(Ok(Conflict(current))) =>
      (s.(stats := s.stats.(conflicts := SaturatingAdd(s.stats.conflicts, 1))), Ok(Conflict(current)))
    case Some(answer) => (s, answer)
    case None =>
      (EnforceCapacity(Extended(s, key, entry)),
       Ok(if key in s.records then Replaced(s.nextVersion + 1) else Inserted(s.nextVersion + 1)))
  }

  ghost function CompareAndSwap(s: Store, key: CacheKey, condition: CacheCondition, entry: CacheEntry, now: Instant)
    : (r: (Store, Result<CacheWriteOutcome, PortError>))
  {
    if s.shuttingDown then (s, Err(Unavailable)) else Settle(Purge(s, key, now), key, condition, entry, now)
  }

  /** True when the compare-and-swap goes through and inserts the entry. */
  ghost predicate Writes(s: Store, key: CacheKey, condition: CacheCondition, entry: CacheEntry, now: Instant) {
    !s.shuttingDown && Refusal(Purge(s, key, now).records, s.maxWeight, key, condition, entry, now).None?
  }

  /** The records an invalidation leaves. */
  ghost function Retained(records: Records, scope: CacheInvalidation): Records {
    map key | key in records && !InvalidationMatches(scope, key, records[key].entry) :: records[key]
  }

  ghost function Invalidate(s: Store, scope: CacheInvalidation): (r: (Store, Result<nat, PortError>)) {
    if s.shuttingDown then (s, Err(Unavailable))
    else
      var kept := Retained(s.records, scope);
      (RefreshStats(s.(records := kept)), Ok(if |kept| <= |s.records| then |s.records| - |kept| else 0))
  }

  ghost function ShutDownRecords(s: Store): Store {
    RefreshStats(s.(records := map[], shuttingDown := true))
  }

  // ---------------------------------------------------------------- what every section keeps

  /** Versions are issued once and never exceed the counter; the statistics equal the recomputed count and
      saturating sum; a limited store is within its limit. */
  ghost predicate Valid(s: Store) {
    && VersionsDistinct(s.records)
    && (forall key | key in s.records :: 1 <= s.records[key].version <= s.nextVersion)
    && s.stats.entries == |s.records|
    && s.stats.weightedSize == WeightedSize(s.records)
    && (s.maxWeight.Some? ==> WeightedSize(s.records) <= s.maxWeight.value)
  }

  /** Dropping records and refreshing the statistics keeps the store valid. */
  lemma RemovalKeeps(s: Store, kept: Records)
    requires Valid(s) && forall key | key in kept :: key in s.records && kept[key] == s.records[key]
    ensures Valid(RefreshStats(s.(records := kept)))
  {
    TotalWeightMonotone(kept, s.records);
  }

  lemma PurgeKeeps(s: Store, key: CacheKey, now: Instant)
    requires Valid(s)
    ensures Valid(Purge(s, key, now))
  {
    RemovalKeeps(s, s.records - {key});
  }

  lemma GetKeeps(s: Store, key: CacheKey, now: Instant)
    requires Valid(s)
    ensures Valid(Get(s, key, now).0)
  {
    if key in s.records && !IsVisible(s.records[key], now) {
      RemovalKeeps(s, s.records - {key});
    }
  }

  lemma ExtendedKeepsVersions(s: Store, key: CacheKey, entry: CacheEntry)
    requires Valid(s)
    ensures VersionsDistinct(Extended(s, key, entry).records)
  {
  }

  lemma WriteKeeps(s: Store, key: CacheKey, entry: CacheEntry)
    requires Valid(s)
    ensures VersionsDistinct(Extended(s, key, entry).records)
    ensures Valid(EnforceCapacity(Extended(s, key, entry)))
  {
    ExtendedKeepsVersions(s, key, entry);
    EnforcingRestores(Extended(s, key, entry));
  }

  /** Enforcing the capacity makes a store valid whose versions are in order. */
  lemma EnforcingRestores(s: Store)
    requires VersionsDistinct(s.records)
    requires forall key | key in s.records :: 1 <= s.records[key].version <= s.nextVersion
    ensures Valid(EnforceCapacity(s))
  {
  }

  lemma SettleKeeps(s: Store, key: CacheKey, condition: CacheCondition, entry: CacheEntry, now: Instant)
    requires Valid(s)
    ensures Valid(Settle(s, key, condition, entry, now).0)
  {
    if Refusal(s.records, s.maxWeight, key, condition, entry, now).None? {
      WriteKeeps(s, key, entry);
    }
  }

  lemma CompareAndSwapKeeps(s: Store, key: CacheKey, condition: CacheCondition, entry: CacheEntry, now: Instant)
    requires Valid(s)
    ensures Valid(CompareAndSwap(s, key, condition, entry, now).0)
  {
    PurgeKeeps(s, key, now);
    SettleKeeps(Purge(s, key, now), key, condition, entry, now);
  }

  lemma InvalidateKeeps(s: Store, scope: CacheInvalidation)
    requires Valid(s)
    ensures Valid(Invalidate(s, scope).0)
  {
    RemovalKeeps(s, Retained(s.records, scope));
  }

  lemma ShutDownKeeps(s: Store)
    requires Valid(s)
    ensures Valid(ShutDownRecords(s))
  {
    RemovalKeeps(s, map[]);
  }

  // ---------------------------------------------------------------- single calls

  /** A successful write on a limited store removes exactly the shortest sufficient prefix of the records it
      held together with the new one. */
  lemma WriteEvictsShortestPrefix(
      s: Store, key: CacheKey, condition: CacheCondition, entry: CacheEntry, now: Instant, limit: nat)
    requires Valid(s) && s.maxWeight == Some(limit) && Writes(s, key, condition, entry, now)
    ensures var before := Extended(Purge(s, key, now), key, entry).records;
            var after := CompareAndSwap(s, key, condition, entry, now).0.records;
            && VersionsDistinct(before)
            && after == before - (before.Keys - after.Keys)
            && Suffices(before.Keys - after.Keys, before, limit)
            && forall cut | Suffices(cut, before, limit) :: before.Keys - after.Keys <= cut
  {
    PurgeKeeps(s, key, now);
    var purged := Purge(s, key, now);
    WriteKeeps(purged, key, entry);
    EvictsShortestPrefix(Extended(purged, key, entry).records, limit);
    assert CompareAndSwap(s, key, condition, entry, now).0 == EnforceCapacity(Extended(purged, key, entry));
  }

  /** A refused compare-and-swap keeps the purged records. */
  lemma RefusedKeepsRecords(s: Store, key: CacheKey, condition: CacheCondition, entry: CacheEntry, now: Instant)
    requires !s.shuttingDown && !Writes(s, key, condition, entry, now)
    ensures var (after, answer) := CompareAndSwap(s, key, condition, entry, now);
            && after == Purge(s, key, now).(stats := after.stats)
            && Some(answer) == Refusal(Purge(s, key, now).records, s.maxWeight, key, condition, entry, now)
  {
  }

  /** A granted compare-and-swap adds the new record and enforces the capacity. */
  lemma GrantedExtendsRecords(s: Store, key: CacheKey, condition: CacheCondition, entry: CacheEntry, now: Instant)
    requires Writes(s, key, condition, entry, now)
    ensures var purged := Purge(s, key, now);
            && CompareAndSwap(s, key, condition, entry, now)
               == (EnforceCapacity(Extended(purged, key, entry)),
                   Ok(if key in purged.records then Replaced(s.nextVersion + 1) else Inserted(s.nextVersion + 1)))
  {
  }

  /** What a compare-and-swap leaves: the purged records, or part of them and the new one. */
  lemma RecordsAfter(
      s: Store, key: CacheKey, condition: CacheCondition, entry: CacheEntry, now: Instant, other: CacheKey)
    requires other in CompareAndSwap(s, key, condition, entry, now).0.records
    ensures var record := CompareAndSwap(s, key, condition, entry, now).0.records[other];
            || (other in s.records && record == s.records[other] && (other == key ==> !Writes(s, key, condition,
                entry, now)))
            || (other == key && Writes(s, key, condition, entry, now) && record == CacheRecord(s.nextVersion + 1,
                entry))
  {
    if Writes(s, key, condition, entry, now) {
      GrantedExtendsRecords(s, key, condition, entry, now);
      var extended := Extended(Purge(s, key, now), key, entry);
      assert EnforceCapacity(extended).records[other] == extended.records[other];
    } else if !s.shuttingDown {
      RefusedKeepsRecords(s, key, condition, entry, now);
    }
  }

  /** A fresh record is never replaced by one of lower quality. */
  lemma FreshNeverDowngraded(
      s: Store, key: CacheKey, condition: CacheCondition, entry: CacheEntry, now: Instant, other: CacheKey)
    requires other in s.records && IsFresh(s.records[other], now)
    requires other in CompareAndSwap(s, key, condition, entry, now).0.records
    ensures QualityRank(CompareAndSwap(s, key, condition, entry, now).0.records[other].entry.quality)
            >= QualityRank(s.records[other].entry.quality)
  {
    RecordsAfter(s, key, condition, entry, now, other);
    assert IsVisible(s.records[other], now);
    assert other == key ==> Purge(s, key, now) == s;
  }

  // ---------------------------------------------------------------- what a call answers, in the fields

  /** The store holds a record for a minute after the last instant it can be answered from; where the clock ends before
      that, up to that instant. */
  lemma HeldForAMinute(record: CacheRecord, now: Instant)
    ensures var entry := record.entry;
            var until := if entry.staleUntil.Some? && entry.staleUntil.value > entry.expiresAt
              then entry.staleUntil.value else entry.expiresAt;
            IsVisible(record, now) <==>
            if until + 60 * SECOND <= INSTANT_MAX then now < until + 60 * SECOND else now < until
  {
  }

  /** The record the store shows for a key. */
  function Shown(s: Store, key: CacheKey, now: Instant): Option<CacheRecord> {
    if key in s.records && IsVisible(s.records[key], now) then Some(s.records[key]) else None
  }

  /** Failure, then negative, then complete. */
  predicate Outranks(left: CacheQuality, right: CacheQuality) {
    (left == Complete && right != Complete) || (left == Negative && right == Failure)
  }

  /** Every record shown before is shown after, and none is new. */
  ghost predicate ShowsTheSame(s: Store, after: Store, now: Instant) {
    && after.nextVersion == s.nextVersion && after.maxWeight == s.maxWeight && after.shuttingDown == s.shuttingDown
    && forall key :: Shown(after, key, now) == Shown(s, key, now)
  }

  /** What the compare-and-swap is conditioned on does not hold of the record shown. */
  predicate Mismatch(shown: Option<CacheRecord>, condition: CacheCondition) {
    match condition
    case Absent => shown.Some?
    case Version(expected) => shown.None? || shown.value.version != expected
  }

  /** The record shown is fresh and of higher quality than the entry. */
  predicate Outdone(shown: Option<CacheRecord>, entry: CacheEntry, now: Instant) {
    shown.Some? && now < shown.value.entry.expiresAt && Outranks(shown.value.entry.quality, entry.quality)
  }

  /** The entry would not even fit an empty store. */
  predicate TooHeavy(maxWeight: Option<nat>, key: CacheKey, entry: CacheEntry) {
    maxWeight.Some? && Min(|key.encoded| + 64 + |entry.response|, U64_MAX) > maxWeight.value
  }

  /** The answer of a compare-and-swap: a conflict with the version shown, a refusal in favour of a fresh record of
      higher quality, a refusal of an entry that is too heavy by itself, each without any effect on what the store
      shows; otherwise the next version. */
  lemma CompareAndSwapAnswers(s: Store, key: CacheKey, condition: CacheCondition, entry: CacheEntry, now: Instant)
    requires !s.shuttingDown
    ensures var shown := Shown(s, key, now);
            var (after, answer) := CompareAndSwap(s, key, condition, entry, now);
            if Mismatch(shown, condition) then
              && answer == Ok(Conflict(if shown.Some? then Some(shown.value.version) else None))
              && ShowsTheSame(s, after, now)
            else if Outdone(shown, entry, now) then answer == Ok(RejectedQuality) && ShowsTheSame(s, after, now)
            else if TooHeavy(s.maxWeight, key, entry) then
              answer == Err(ResourceExhausted) && ShowsTheSame(s, after, now)
            else
              && answer == Ok(if shown.Some? then Replaced(s.nextVersion + 1) else Inserted(s.nextVersion + 1))
              && after.nextVersion == s.nextVersion + 1
              && after == EnforceCapacity(Extended(Purge(s, key, now), key, entry))
  {
    PurgeShowsTheSame(s, key, now);
    RefusalByFields(s, key, condition, entry, now);
    if Writes(s, key, condition, entry, now) {
      GrantedExtendsRecords(s, key, condition, entry, now);
      assert EnforceCapacity(Extended(Purge(s, key, now), key, entry)).nextVersion == s.nextVersion + 1;
    } else {
      RefusedKeepsRecords(s, key, condition, entry, now);
      RefusedShowsTheSame(s, key, condition, entry, now);
    }
  }

  lemma PurgeShowsTheSame(s: Store, key: CacheKey, now: Instant)
    ensures var purged := Purge(s, key, now);
            && purged.nextVersion == s.nextVersion && purged.maxWeight == s.maxWeight
            && purged.shuttingDown == s.shuttingDown
            && (key in purged.records <==> Shown(s, key, now).Some?)
            && (key in purged.records ==> Shown(s, key, now) == Some(purged.records[key]))
            && forall other :: Shown(purged, other, now) == Shown(s, other, now)
  {
  }

  lemma RefusedShowsTheSame(s: Store, key: CacheKey, condition: CacheCondition, entry: CacheEntry, now: Instant)
    requires !s.shuttingDown && !Writes(s, key, condition, entry, now)
    ensures ShowsTheSame(s, CompareAndSwap(s, key, condition, entry, now).0, now)
  {
    PurgeShowsTheSame(s, key, now);
    RefusedKeepsRecords(s, key, condition, entry, now);
    var purged, after := Purge(s, key, now), CompareAndSwap(s, key, condition, entry, now).0;
    forall other ensures Shown(after, other, now) == Shown(s, other, now) {
      assert Shown(after, other, now) == Shown(purged, other, now);
    }
  }

  lemma RefusalByFields(s: Store, key: CacheKey, condition: CacheCondition, entry: CacheEntry, now: Instant)
    ensures var shown := Shown(s, key, now);
            Refusal(Purge(s, key, now).records, s.maxWeight, key, condition, entry, now) ==
            if Mismatch(shown, condition) then
              Some(Ok(Conflict(if shown.Some? then Some(shown.value.version) else None)))
            else if Outdone(shown, entry, now) then Some(Ok(RejectedQuality))
            else if TooHeavy(s.maxWeight, key, entry) then Some(Err(ResourceExhausted))
            else None
  {
    PurgeShowsTheSame(s, key, now);
    var records := Purge(s, key, now).records;
    assert Weight(key, CacheRecord(0, entry)) == Min(|key.encoded| + 64 + |entry.response|, U64_MAX);
    assert key in records ==>
      (Outranks(records[key].entry.quality, entry.quality) <==>
       QualityRank(records[key].entry.quality) > QualityRank(entry.quality));
  }

  /** A shut-down store answers nothing and stays as it is. */
  lemma ShutDownStoreRefuses(
      s: Store, key: CacheKey, condition: CacheCondition, entry: CacheEntry, now: Instant, scope: CacheInvalidation)
    requires s.shuttingDown
    ensures CompareAndSwap(s, key, condition, entry, now) == (s, Err(Unavailable))
    ensures Get(s, key, now) == (s, Err(Unavailable))
    ensures Invalidate(s, scope) == (s, Err(Unavailable))
  {
  }

  /** A record that no other was inserted after, and of the largest version, is the last of the eviction order. */
  lemma LatestIsLast(records: Records, key: CacheKey)
    requires key in records
    requires forall other | other in records && other != key ::
      records[other].entry.insertedAt <= records[key].entry.insertedAt && records[other].version < records[key].version
    ensures FromHere(records, key) == map[key := records[key]]
    ensures WeightedSize(FromHere(records, key)) == Weight(key, records[key])
  {
    NeverPrecedesItself(records, key);
    assert FromHere(records, key) == map[key := records[key]];
    TotalWeightRemove(map[key := records[key]], key);
    assert map[key := records[key]] - {key} == map[];
  }

  lemma LatestSurvives(s: Store, key: CacheKey, entry: CacheEntry)
    requires Valid(s) && forall other | other in s.records :: s.records[other].entry.insertedAt <= entry.insertedAt
    requires s.maxWeight.Some? ==> Weight(key, CacheRecord(0, entry)) <= s.maxWeight.value
    ensures var after := EnforceCapacity(Extended(s, key, entry)).records;
            key in after && after[key] == CacheRecord(s.nextVersion + 1, entry)
  {
    if s.maxWeight.Some? {
      var records := Extended(s, key, entry).records;
      ExtendedKeepsVersions(s, key, entry);
      ExtendedIsLast(s, key, entry);
      SurvivesWhenSuffixFits(records, s.maxWeight.value, key);
      assert EnforceCapacity(Extended(s, key, entry)).records == Evict(records, s.maxWeight.value);
    }
  }

  lemma ExtendedIsLast(s: Store, key: CacheKey, entry: CacheEntry)
    requires Valid(s) && forall other | other in s.records :: s.records[other].entry.insertedAt <= entry.insertedAt
    ensures var records := Extended(s, key, entry).records;
            WeightedSize(FromHere(records, key)) == Weight(key, CacheRecord(0, entry))
  {
    LatestIsLast(Extended(s, key, entry).records, key);
  }

  /** What a compare-and-swap that says it was done has done. */
  lemma DoneIsStored(s: Store, key: CacheKey, condition: CacheCondition, entry: CacheEntry, now: Instant)
    requires var answer := CompareAndSwap(s, key, condition, entry, now).1;
             answer.Ok? && (answer.value.Inserted? || answer.value.Replaced?)
    ensures var (after, answer) := CompareAndSwap(s, key, condition, entry, now);
            && answer.value.version == s.nextVersion + 1
            && after == EnforceCapacity(Extended(Purge(s, key, now), key, entry))
    ensures s.maxWeight.Some? ==> Weight(key, CacheRecord(0, entry)) <= s.maxWeight.value
  {
    if Writes(s, key, condition, entry, now) {
      GrantedExtendsRecords(s, key, condition, entry, now);
    } else if !s.shuttingDown {
      RefusedKeepsRecords(s, key, condition, entry, now);
    }
  }

  /** A write that says it was done and whose entry was inserted no earlier than any other is held afterwards, with the
      version it was given. */
  lemma LatestWriteIsHeld(s: Store, key: CacheKey, condition: CacheCondition, entry: CacheEntry, now: Instant)
    requires Valid(s) && forall other | other in s.records :: s.records[other].entry.insertedAt <= entry.insertedAt
    requires var answer := CompareAndSwap(s, key, condition, entry, now).1;
             answer.Ok? && (answer.value.Inserted? || answer.value.Replaced?)
    ensures var (after, answer) := CompareAndSwap(s, key, condition, entry, now);
            key in after.records && after.records[key] == CacheRecord(answer.value.version, entry)
  {
    DoneIsStored(s, key, condition, entry, now);
    PurgeKeeps(s, key, now);
    LatestSurvives(Purge(s, key, now), key, entry);
  }

  /** Shutdown empties the store; the counters of its use stay. */
  lemma ShutDownEmpties(s: Store)
    ensures var after := ShutDownRecords(s);
            && after.shuttingDown && after.records == map[] && after.nextVersion == s.nextVersion
            && after.stats == s.stats.(entries := 0, weightedSize := 0)
  {
    assert TotalWeight(map[]) == 0;
  }

  /** A lookup answers with the record shown and changes nothing of what is shown. It counts as a hit exactly when the
      record can be answered from, and as a miss otherwise. */
  lemma GetAnswers(s: Store, key: CacheKey, now: Instant)
    requires !s.shuttingDown
    ensures var shown := Shown(s, key, now);
            var (after, answer) := Get(s, key, now);
            && answer == Ok(shown) && ShowsTheSame(s, after, now)
            && var hit := shown.Some? && (now < shown.value.entry.expiresAt
                 || (shown.value.entry.staleUntil.Some? && now < shown.value.entry.staleUntil.value));
               && after.stats.hits == (if hit then SaturatingAdd(s.stats.hits, 1) else s.stats.hits)
               && after.stats.misses == (if hit then s.stats.misses else SaturatingAdd(s.stats.misses, 1))
               && after.stats.conflicts == s.stats.conflicts && after.stats.evictions == s.stats.evictions
  {
  }

  lemma EnforcingCounts(s: Store)
    ensures var after := EnforceCapacity(s);
            && after.stats.hits == s.stats.hits && after.stats.misses == s.stats.misses
            && after.stats.conflicts == s.stats.conflicts
            && after.stats.evictions ==
               if s.maxWeight.Some? then SaturatingAdd(s.stats.evictions, |s.records.Keys - after.records.Keys|)
               else s.stats.evictions
  {
  }

  lemma PurgeCounts(s: Store, key: CacheKey, now: Instant)
    ensures var stats := Purge(s, key, now).stats;
            stats == s.stats.(entries := stats.entries, weightedSize := stats.weightedSize)
  {
  }

  /** A compare-and-swap that writes counts the records it displaces as evictions; no other does. A conflict counts as
      one. */
  lemma CompareAndSwapCounts(s: Store, key: CacheKey, condition: CacheCondition, entry: CacheEntry, now: Instant)
    requires !s.shuttingDown
    ensures var (after, answer) := CompareAndSwap(s, key, condition, entry, now);
            var done := answer.Ok? && (answer.value.Inserted? || answer.value.Replaced?);
            && after.stats.hits == s.stats.hits && after.stats.misses == s.stats.misses
            && after.stats.conflicts ==
               (if answer.Ok? && answer.value.Conflict? then SaturatingAdd(s.stats.conflicts, 1) else s.stats.conflicts)
            && after.stats.evictions ==
               (if s.maxWeight.Some? && done
                then SaturatingAdd(s.stats.evictions, |Purge(s, key, now).records.Keys + {key} - after.records.Keys|)
                else s.stats.evictions)
  {
    PurgeCounts(s, key, now);
    if Writes(s, key, condition, entry, now) {
      GrantedCounts(s, key, condition, entry, now);
    } else {
      RefusedCounts(s, key, condition, entry, now);
    }
  }

  /** What an insertion does to the counters. */
  ghost predicate InsertionCounted(before: Store, key: CacheKey, after: Store) {
    && after.stats == before.stats.(
         entries := after.stats.entries, weightedSize := after.stats.weightedSize, evictions := after.stats.evictions)
    && after.stats.evictions ==
       if before.maxWeight.Some?
       then SaturatingAdd(before.stats.evictions, |before.records.Keys + {key} - after.records.Keys|)
       else before.stats.evictions
  }

  lemma InsertionCounts(s: Store, key: CacheKey, entry: CacheEntry)
    ensures InsertionCounted(s, key, EnforceCapacity(Extended(s, key, entry)))
  {
    EnforcingCounts(Extended(s, key, entry));
    assert Extended(s, key, entry).records.Keys == s.records.Keys + {key};
  }

  lemma GrantedCounts(s: Store, key: CacheKey, condition: CacheCondition, entry: CacheEntry, now: Instant)
    requires Writes(s, key, condition, entry, now)
    ensures var (after, answer) := CompareAndSwap(s, key, condition, entry, now);
            && answer.Ok? && (answer.value.Inserted? || answer.value.Replaced?)
            && InsertionCounted(Purge(s, key, now), key, after)
  {
    GrantedExtendsRecords(s, key, condition, entry, now);
    InsertionCounts(Purge(s, key, now), key, entry);
  }

  lemma RefusedCounts(s: Store, key: CacheKey, condition: CacheCondition, entry: CacheEntry, now: Instant)
    requires !s.shuttingDown && !Writes(s, key, condition, entry, now)
    ensures var (after, answer) := CompareAndSwap(s, key, condition, entry, now);
            var purged, conflict := Purge(s, key, now), answer.Ok? && answer.value.Conflict?;
            && !(answer.Ok? && (answer.value.Inserted? || answer.value.Replaced?))
            && after.stats == purged.stats.(conflicts :=
                 if conflict then SaturatingAdd(purged.stats.conflicts, 1) else purged.stats.conflicts)
  {
  }

  /** An invalidation removes the records of its scope, by key, by namespace, by namespace and producer revision, or
      all, and no other. */
  lemma InvalidateRemoves(s: Store, scope: CacheInvalidation, key: CacheKey)
    requires !s.shuttingDown && key in s.records
    ensures var after := Invalidate(s, scope).0;
            var gone := match scope
              case Exact(only) => key == only
              case Namespace(namespace) => key.namespace == namespace
              case ProducerRevision(namespace, revision) =>
                key.namespace == namespace && s.records[key].entry.producerRevision == revision
              case All => true;
            if gone then key !in after.records else key in after.records && after.records[key] == s.records[key]
    ensures Invalidate(s, scope).0.records.Keys <= s.records.Keys
  {
  }

  /** Over the limit, the older of two records is the one evicted. */
  lemma EvictsOlderOfTwo(older: CacheKey, newer: CacheKey, early: CacheRecord, late: CacheRecord, limit: nat)
    requires older != newer && early.version != late.version && Before(older, early, newer, late)
    requires Weight(newer, late) <= limit < Min(Weight(older, early) + Weight(newer, late), U64_MAX)
    ensures VersionsDistinct(map[newer := late, older := early])
    ensures Evict(map[newer := late, older := early], limit) == map[newer := late]
    ensures WeightedSize(map[newer := late]) == Weight(newer, late)
  {
    var held := map[newer := late];
    var both := map[newer := late, older := early];
    assert held - {newer} == map[] && both - {older} == held;
    TotalWeightRemove(held, newer);
    TotalWeightRemove(both, older);
    assert Oldest(both) == older by {
      assert Precedes(both, older, newer) && !Precedes(both, newer, older);
    }
    assert Evict(held, limit) == held;
  }

  /** A granted write leaves its record in the store exactly when the record and all younger ones fit the limit
      together. The order that decides is by insertion instant, then version, then key. */
  lemma InsertedRecordStaysExactlyWhenItFits(
      s: Store, key: CacheKey, condition: CacheCondition, entry: CacheEntry, now: Instant, limit: nat)
    requires Valid(s) && s.maxWeight == Some(limit) && Writes(s, key, condition, entry, now)
    ensures key in CompareAndSwap(s, key, condition, entry, now).0.records <==>
      WeightedSize(FromHere(Extended(Purge(s, key, now), key, entry).records, key)) <= limit
  {
    PurgeKeeps(s, key, now);
    ExtendedKeepsVersions(Purge(s, key, now), key, entry);
    GrantedExtendsRecords(s, key, condition, entry, now);
    SurvivesWhenSuffixFits(Extended(Purge(s, key, now), key, entry).records, limit, key);
  }

  const NEWER: CacheKey := CacheKey(Global, [2], 2)
  const OLDER: CacheKey := CacheKey(Global, [1], 2)

  function Sample(insertedAt: Instant): CacheEntry {
    CacheEntry([], UpstreamProvenance([117], None), insertedAt, 100, None, NoError, 1, Complete, 0, 2)
  }

  /** The store after one write to an empty store that holds a single record of this size. */
  lemma FirstWriteIsKept()
    ensures CompareAndSwap(Empty(Some(65)), NEWER, Absent, Sample(10), 20) ==
      (Store(map[NEWER := CacheRecord(1, Sample(10))], 1, Some(65), Stats(1, 65, 0, 0, 0, 0), false), Ok(Inserted(1)))
  {
    var held := map[NEWER := CacheRecord(1, Sample(10))];
    assert Extended(Empty(Some(65)), NEWER, Sample(10)).records == held;
    assert held - {NEWER} == map[];
    TotalWeightRemove(held, NEWER);
    assert Evict(held, 65) == held && held.Keys - held.Keys == {};
  }

  /** The write can report an insertion and evict the very record it inserted, when the entry carries an older
      insertion instant than the records already there: two writes to an empty store are enough. */
  lemma InsertedRecordCanBeEvicted()
    ensures var first := CompareAndSwap(Empty(Some(65)), NEWER, Absent, Sample(10), 20);
            var second := CompareAndSwap(first.0, OLDER, Absent, Sample(5), 20);
            && first.1 == Ok(Inserted(1)) && NEWER in first.0.records
            && second.1 == Ok(Inserted(2)) && OLDER !in second.0.records
  {
    FirstWriteIsKept();
    var s := CompareAndSwap(Empty(Some(65)), NEWER, Absent, Sample(10), 20).0;
    var late := CacheRecord(1, Sample(10));
    EvictsOlderOfTwo(OLDER, NEWER, CacheRecord(2, Sample(5)), late, 65);
    assert Purge(s, OLDER, 20) == s;
    assert Extended(s, OLDER, Sample(5)).records == map[NEWER := late, OLDER := CacheRecord(2, Sample(5))];
  }

  // ---------------------------------------------------------------- runs against the reference map

  /** A plain versioned map that never purges anything: entries past their retention count as absent. */
  datatype Reference = Reference(records: Records, nextVersion: nat)

  function ReferenceLookup(r: Reference, key: CacheKey, now: Instant): Option<CacheRecord> {
    if key in r.records && IsVisible(r.records[key], now) then Some(r.records[key]) else None
  }

  datatype Operation =
    | GetOf(key: CacheKey)
    | CasOf(key: CacheKey, condition: CacheCondition, entry: CacheEntry)
    | InvalidateOf(scope: CacheInvalidation)

  datatype Answer =
    | Found(record: Option<CacheRecord>)
    | Wrote(outcome: CacheWriteOutcome)
    | Invalidated(removed: nat)
    | Refused(error: PortError)

  /** The records an invalidation is meant for. */
  function Matching(records: Records, scope: CacheInvalidation): set<CacheKey> {
    set key | key in records && InvalidationMatches(scope, key, records[key].entry)
  }

  function ReferenceStep(r: Reference, operation: Operation, now: Instant): (Reference, Answer) {
    match operation
    case GetOf(key) => (r, Found(ReferenceLookup(r, key, now)))
    case CasOf(key, condition, entry) =>
      var current := ReferenceLookup(r, key, now);
      var version := if current.Some? then Some(current.value.version) else None;
      if !ConditionMatches(condition, version) then (r, Wrote(Conflict(version)))
      else if current.Some? && QualityRank(current.value.entry.quality) > QualityRank(entry.quality)
              && IsFresh(current.value, now) then (r, Wrote(RejectedQuality))
      else
        (Reference(r.records[key := CacheRecord(r.nextVersion + 1, entry)], r.nextVersion + 1),
         Wrote(if current.Some? then Replaced(r.nextVersion + 1) else Inserted(r.nextVersion + 1)))
    case InvalidateOf(scope) =>
      (r.(records := map k | k in r.records && !InvalidationMatches(scope, k, r.records[k].entry) :: r.records[k]),
       Invalidated(|Matching(r.records, scope)|))
  }

  ghost function StoreStep(s: Store, operation: Operation, now: Instant): (r: (Store, Answer)) {
    match operation
    case GetOf(key) =>
      var (s', found) := Get(s, key, now);
      (s', if found.Ok? then Found(found.value) else Refused(found.error))
    case CasOf(key, condition, entry) =>
      var (s', wrote) := CompareAndSwap(s, key, condition, entry, now);
      (s', if wrote.Ok? then Wrote(wrote.value) else Refused(wrote.error))
    case InvalidateOf(scope) =>
      var (s', removed) := Invalidate(s, scope);
      (s', if removed.Ok? then Invalidated(removed.value) else Refused(removed.error))
  }

  /** Every call keeps the store valid. */
  lemma StepKeeps(s: Store, operation: Operation, now: Instant)
    requires Valid(s)
    ensures Valid(StoreStep(s, operation, now).0)
  {
    match operation
    case GetOf(key) => GetKeeps(s, key, now);
    case CasOf(key, condition, entry) => CompareAndSwapKeeps(s, key, condition, entry, now);
    case InvalidateOf(scope) => InvalidateKeeps(s, scope);
  }

  /** The store holds a part of the reference, and everything it lacks is past its retention by `now`. */
  ghost predicate Represents(s: Store, r: Reference, now: Instant) {
    && s.nextVersion == r.nextVersion
    && (forall key | key in s.records :: key in r.records && r.records[key] == s.records[key])
    && (forall key | key in r.records && key !in s.records :: !IsVisible(r.records[key], now))
  }

  ghost predicate Unlimited(s: Store) {
    s.maxWeight.None? && !s.shuttingDown
  }

  lemma GetRefines(s: Store, r: Reference, key: CacheKey, now: Instant)
    requires Unlimited(s) && Represents(s, r, now)
    ensures StoreStep(s, GetOf(key), now).1 == ReferenceStep(r, GetOf(key), now).1
    ensures Represents(StoreStep(s, GetOf(key), now).0, ReferenceStep(r, GetOf(key), now).0, now)
    ensures Unlimited(StoreStep(s, GetOf(key), now).0)
  {
  }

  lemma PurgeRepresents(s: Store, r: Reference, key: CacheKey, now: Instant)
    requires Represents(s, r, now)
    ensures Represents(Purge(s, key, now), r, now)
    ensures var purged := Purge(s, key, now).records;
            ReferenceLookup(r, key, now) == if key in purged then Some(purged[key]) else None
  {
  }

  lemma RefusalRefines(
      s: Store, r: Reference, key: CacheKey, condition: CacheCondition, entry: CacheEntry, now: Instant)
    requires Unlimited(s) && Represents(s, r, now) && !Writes(s, key, condition, entry, now)
    ensures var op := CasOf(key, condition, entry);
            && StoreStep(s, op, now).1 == ReferenceStep(r, op, now).1
            && ReferenceStep(r, op, now).0 == r
            && Represents(StoreStep(s, op, now).0, r, now)
  {
    RefusedKeepsRecords(s, key, condition, entry, now);
    PurgeRepresents(s, r, key, now);
  }

  lemma WriteRefines(
      s: Store, r: Reference, key: CacheKey, condition: CacheCondition, entry: CacheEntry, now: Instant)
    requires Unlimited(s) && Represents(s, r, now) && Writes(s, key, condition, entry, now)
    ensures var op := CasOf(key, condition, entry);
            && StoreStep(s, op, now).1 == ReferenceStep(r, op, now).1
            && Represents(StoreStep(s, op, now).0, ReferenceStep(r, op, now).0, now)
  {
    GrantedExtendsRecords(s, key, condition, entry, now);
    PurgeRepresents(s, r, key, now);
    ExtendedRepresents(Purge(s, key, now), r, key, entry, now);
  }

  lemma ExtendedRepresents(s: Store, r: Reference, key: CacheKey, entry: CacheEntry, now: Instant)
    requires Represents(s, r, now)
    ensures Represents(
              RefreshStats(Extended(s, key, entry)),
              Reference(r.records[key := CacheRecord(r.nextVersion + 1, entry)], r.nextVersion + 1), now)
  {
  }

  lemma CasRefines(
      s: Store, r: Reference, key: CacheKey, condition: CacheCondition, entry: CacheEntry, now: Instant)
    requires Unlimited(s) && Represents(s, r, now)
    ensures var op := CasOf(key, condition, entry);
            && StoreStep(s, op, now).1 == ReferenceStep(r, op, now).1
            && Represents(StoreStep(s, op, now).0, ReferenceStep(r, op, now).0, now)
            && Unlimited(StoreStep(s, op, now).0)
  {
    if Writes(s, key, condition, entry, now) {
      WriteRefines(s, r, key, condition, entry, now);
      GrantedExtendsRecords(s, key, condition, entry, now);
    } else {
      RefusalRefines(s, r, key, condition, entry, now);
      RefusedKeepsRecords(s, key, condition, entry, now);
    }
  }

  lemma InvalidateRefines(s: Store, r: Reference, scope: CacheInvalidation, now: Instant)
    requires Unlimited(s) && Represents(s, r, now)
    ensures StoreStep(s, InvalidateOf(scope), now).1.Invalidated?
    ensures Represents(StoreStep(s, InvalidateOf(scope), now).0, ReferenceStep(r, InvalidateOf(scope), now).0, now)
    ensures Unlimited(StoreStep(s, InvalidateOf(scope), now).0)
  {
  }

  /** One call made at an instant. */
  datatype Call = Call(at: Instant, operation: Operation)

  ghost predicate ClockMonotone(calls: seq<Call>) {
    forall i, j | 0 <= i < j < |calls| :: calls[i].at <= calls[j].at
  }

  ghost function StoreAnswers(s: Store, calls: seq<Call>): seq<Answer>
    decreases |calls|
  {
    if calls == [] then []
    else
      var (s', answer) := StoreStep(s, calls[0].operation, calls[0].at);
      [answer] + StoreAnswers(s', calls[1..])
  }

  function ReferenceAnswers(r: Reference, calls: seq<Call>): seq<Answer>
    decreases |calls|
  {
    if calls == [] then []
    else
      var (r', answer) := ReferenceStep(r, calls[0].operation, calls[0].at);
      [answer] + ReferenceAnswers(r', calls[1..])
  }

  ghost function StoreAfter(s: Store, calls: seq<Call>): Store
    decreases |calls|
  {
    if calls == [] then s else StoreAfter(StoreStep(s, calls[0].operation, calls[0].at).0, calls[1..])
  }

  function ReferenceAfter(r: Reference, calls: seq<Call>): Reference
    decreases |calls|
  {
    if calls == [] then r else ReferenceAfter(ReferenceStep(r, calls[0].operation, calls[0].at).0, calls[1..])
  }

  /** Each answer is the one that the call gets after the calls before it. */
  lemma {:induction false} AnswerAt(s: Store, r: Reference, calls: seq<Call>, i: nat)
    requires i < |calls|
    ensures |StoreAnswers(s, calls)| == |calls| == |ReferenceAnswers(r, calls)|
    ensures StoreAnswers(s, calls)[i] == StoreStep(StoreAfter(s, calls[..i]), calls[i].operation, calls[i].at).1
    ensures ReferenceAnswers(r, calls)[i] ==
      ReferenceStep(ReferenceAfter(r, calls[..i]), calls[i].operation, calls[i].at).1
    decreases |calls|
  {
    AnswerCount(s, r, calls);
    if i > 0 {
      var rest := calls[1..];
      var s' := StoreStep(s, calls[0].operation, calls[0].at).0;
      var r' := ReferenceStep(r, calls[0].operation, calls[0].at).0;
      AnswerAt(s', r', rest, i - 1);
      assert calls[..i][1..] == rest[..i - 1];
    }
  }

  lemma {:induction false} AnswerCount(s: Store, r: Reference, calls: seq<Call>)
    ensures |StoreAnswers(s, calls)| == |calls| == |ReferenceAnswers(r, calls)|
    decreases |calls|
  {
    if calls != [] {
      AnswerCount(StoreStep(s, calls[0].operation, calls[0].at).0,
                  ReferenceStep(r, calls[0].operation, calls[0].at).0, calls[1..]);
    }
  }

  lemma CallRefines(s: Store, r: Reference, operation: Operation, now: Instant)
    requires Unlimited(s) && Represents(s, r, now)
    ensures if operation.InvalidateOf? then StoreStep(s, operation, now).1.Invalidated?
      else StoreStep(s, operation, now).1 == ReferenceStep(r, operation, now).1
    ensures Represents(StoreStep(s, operation, now).0, ReferenceStep(r, operation, now).0, now)
    ensures Unlimited(StoreStep(s, operation, now).0)
  {
    match operation {
      case GetOf(key) => GetRefines(s, r, key, now);
      case CasOf(key, condition, entry) => CasRefines(s, r, key, condition, entry, now);
      case InvalidateOf(scope) => InvalidateRefines(s, r, scope, now);
    }
  }

  lemma {:induction false} StoreStaysRepresentative(s: Store, r: Reference, calls: seq<Call>, now: Instant)
    requires Unlimited(s) && ClockMonotone(calls) && (calls != [] ==> calls[|calls| - 1].at <= now)
    requires Represents(s, r, if calls == [] then now else calls[0].at)
    ensures Unlimited(StoreAfter(s, calls)) && Represents(StoreAfter(s, calls), ReferenceAfter(r, calls), now)
    decreases |calls|
  {
    if calls != [] {
      var s' := StoreStep(s, calls[0].operation, calls[0].at).0;
      var r' := ReferenceStep(r, calls[0].operation, calls[0].at).0;
      CallRefines(s, r, calls[0].operation, calls[0].at);
      assert |calls| > 1 ==> calls[0].at <= calls[1].at;
      StoreStaysRepresentative(s', r', calls[1..], now);
    }
  }

  // ---------------------------------------------------------------- what the store has purged

  const NOTHING: Reference := Reference(map[], 0)

  /** The calls that may purge the record of a key. */
  predicate Touches(operation: Operation, key: CacheKey) {
    (operation.GetOf? || operation.CasOf?) && operation.key == key
  }

  /** Call `i` looks up or writes a key past the retention of the record that the reference holds for it, then and
      still after all the calls. */
  predicate LateTouch(r: Reference, calls: seq<Call>, i: nat, key: CacheKey)
    requires i < |calls|
  {
    var earlier, last := ReferenceAfter(r, calls[..i]).records, ReferenceAfter(r, calls).records;
    && Touches(calls[i].operation, key)
    && key in earlier && key in last && earlier[key] == last[key] && !IsVisible(last[key], calls[i].at)
  }

  predicate TouchedLate(r: Reference, calls: seq<Call>, key: CacheKey) {
    exists i: nat | i < |calls| :: LateTouch(r, calls, i, key)
  }

  predicate VersionsBounded(r: Reference) {
    forall key | key in r.records :: r.records[key].version <= r.nextVersion
  }

  predicate Holds(r: Reference, key: CacheKey, record: CacheRecord) {
    key in r.records && r.records[key] == record
  }

  lemma ReferenceVersions(r: Reference, operation: Operation, now: Instant, key: CacheKey, record: CacheRecord)
    requires VersionsBounded(r)
    ensures var next := ReferenceStep(r, operation, now).0;
            && VersionsBounded(next) && r.nextVersion <= next.nextVersion
            && (record.version <= r.nextVersion && !Holds(r, key, record) ==> !Holds(next, key, record))
  {
  }

  /** A record of a version issued before is never held again once it is gone. */
  lemma {:induction false} GoneForGood(r: Reference, calls: seq<Call>, key: CacheKey, record: CacheRecord)
    requires VersionsBounded(r) && record.version <= r.nextVersion && !Holds(r, key, record)
    ensures !Holds(ReferenceAfter(r, calls), key, record)
    decreases |calls|
  {
    if calls != [] {
      ReferenceVersions(r, calls[0].operation, calls[0].at, key, record);
      GoneForGood(ReferenceStep(r, calls[0].operation, calls[0].at).0, calls[1..], key, record);
    }
  }

  /** What one call does to a record the reference holds after it: a record that was there stays in the store unless
      it is touched late, and a new one is in the store. */
  ghost predicate HeldAfterStep(s: Store, r: Reference, operation: Operation, now: Instant, key: CacheKey) {
    var s', r' := StoreStep(s, operation, now).0, ReferenceStep(r, operation, now).0;
    key in r'.records ==>
      if Holds(r, key, r'.records[key])
      then key in s'.records <==> key in s.records && !(Touches(operation, key) && !IsVisible(r.records[key], now))
      else key in s'.records
  }

  lemma CasHolds(
      s: Store, r: Reference, key: CacheKey, condition: CacheCondition, entry: CacheEntry, now: Instant,
      other: CacheKey)
    requires Unlimited(s) && Represents(s, r, now) && VersionsBounded(r)
    ensures HeldAfterStep(s, r, CasOf(key, condition, entry), now, other)
  {
    if Writes(s, key, condition, entry, now) {
      GrantedExtendsRecords(s, key, condition, entry, now);
      PurgeRepresents(s, r, key, now);
    } else {
      RefusalRefines(s, r, key, condition, entry, now);
      RefusedKeepsRecords(s, key, condition, entry, now);
    }
  }

  lemma StepHolds(s: Store, r: Reference, operation: Operation, now: Instant, key: CacheKey)
    requires Unlimited(s) && Represents(s, r, now) && VersionsBounded(r)
    ensures HeldAfterStep(s, r, operation, now, key)
  {
    if operation.CasOf? {
      CasHolds(s, r, operation.key, operation.condition, operation.entry, now, key);
    }
  }

  lemma LateTouchShifts(r: Reference, calls: seq<Call>, key: CacheKey)
    requires calls != []
    ensures TouchedLate(r, calls, key) <==>
      LateTouch(r, calls, 0, key) || TouchedLate(ReferenceStep(r, calls[0].operation, calls[0].at).0, calls[1..], key)
  {
    var rest, r' := calls[1..], ReferenceStep(r, calls[0].operation, calls[0].at).0;
    forall i: nat | i < |rest|
      ensures LateTouch(r, calls, i + 1, key) <==> LateTouch(r', rest, i, key)
    {
      assert calls[..i + 1][1..] == rest[..i];
    }
    if i: nat :| i < |calls| && LateTouch(r, calls, i, key) {
      assert i == 0 || LateTouch(r', rest, i - 1, key);
    }
    if i: nat :| i < |rest| && LateTouch(r', rest, i, key) {
      assert LateTouch(r, calls, i + 1, key);
    }
  }

  /** Of the records the reference holds after some calls, the store lacks those touched late, and those it lacked
      before. */
  lemma {:induction false} HeldUnlessTouchedLate(s: Store, r: Reference, calls: seq<Call>, key: CacheKey)
    requires Unlimited(s) && ClockMonotone(calls) && VersionsBounded(r)
    requires calls != [] ==> Represents(s, r, calls[0].at)
    requires key in ReferenceAfter(r, calls).records
    ensures key in StoreAfter(s, calls).records <==>
      && !TouchedLate(r, calls, key)
      && (Holds(r, key, ReferenceAfter(r, calls).records[key]) ==> key in s.records)
    decreases |calls|
  {
    if calls != [] {
      var first, rest, last := calls[0], calls[1..], ReferenceAfter(r, calls).records[key];
      var s', r' := StoreStep(s, first.operation, first.at).0, ReferenceStep(r, first.operation, first.at).0;
      CallRefines(s, r, first.operation, first.at);
      ReferenceVersions(r, first.operation, first.at, key, last);
      assert |calls| > 1 ==> first.at <= calls[1].at;
      HeldUnlessTouchedLate(s', r', rest, key);
      LateTouchShifts(r, calls, key);
      StepHolds(s, r, first.operation, first.at, key);
      if Holds(r, key, last) && !Holds(r', key, last) {
        GoneForGood(r', rest, key, last);
      }
    }
  }

  // ---------------------------------------------------------------- refinement

  /** The number an invalidation reports is the number of records it removes. */
  lemma InvalidateReportsMatches(s: Store, scope: CacheInvalidation)
    requires !s.shuttingDown
    ensures Invalidate(s, scope).1 == Ok(|Matching(s.records, scope)|)
  {
    RetainedCounts(s.records, scope);
  }

  lemma RetainedCounts(records: Records, scope: CacheInvalidation)
    ensures |records| == |Retained(records, scope)| + |Matching(records, scope)|
  {
    var kept, gone := Retained(records, scope).Keys, Matching(records, scope);
    assert records.Keys == kept + gone && kept * gone == {};
    assert |records| == |records.Keys| && |Retained(records, scope)| == |kept|;
  }

  lemma SubsetCounts(x: set<CacheKey>, y: set<CacheKey>)
    requires x <= y
    ensures |x| <= |y| && (|x| == |y| <==> x == y)
  {
    assert y == x + (y - x);
  }

  /** After any calls under a monotone clock, an invalidation reports no more than the reference map holds of
      matching records. It reports as many exactly when no lookup or write touched one of them past its retention;
      certainly when all of them are still within it. */
  lemma InvalidationCounts(calls: seq<Call>, scope: CacheInvalidation, now: Instant)
    requires ClockMonotone(calls) && (calls != [] ==> calls[|calls| - 1].at <= now)
    ensures var s, r := StoreAfter(Empty(None), calls), ReferenceAfter(NOTHING, calls);
            var expected := Matching(r.records, scope);
            && Invalidate(s, scope).1.Ok? && Invalidate(s, scope).1.value <= |expected|
            && (Invalidate(s, scope).1.value == |expected| <==>
                forall key | key in expected :: !TouchedLate(NOTHING, calls, key))
            && ((forall key | key in expected :: IsVisible(r.records[key], now)) ==>
                Invalidate(s, scope).1.value == |expected|)
  {
    StoreStaysRepresentative(Empty(None), NOTHING, calls, now);
    var s, r := StoreAfter(Empty(None), calls), ReferenceAfter(NOTHING, calls);
    InvalidateReportsMatches(s, scope);
    var found, expected := Matching(s.records, scope), Matching(r.records, scope);
    assert found <= expected;
    SubsetCounts(found, expected);
    forall key | key in expected
      ensures key in found <==> !TouchedLate(NOTHING, calls, key)
    {
      HeldUnlessTouchedLate(Empty(None), NOTHING, calls, key);
    }
    assert (forall key | key in expected :: key in found) <==> found == expected;
  }

  /** Under a monotone clock an unlimited store answers every call as the reference map, whatever it purges along the
      way; only an invalidation may report fewer records, exactly when one of them was touched late. */
  lemma StoreRefinesReference(calls: seq<Call>, i: nat)
    requires ClockMonotone(calls) && i < |calls|
    ensures |StoreAnswers(Empty(None), calls)| == |calls| == |ReferenceAnswers(NOTHING, calls)|
    ensures var answer, expected := StoreAnswers(Empty(None), calls)[i], ReferenceAnswers(NOTHING, calls)[i];
            match calls[i].operation
            case InvalidateOf(scope) =>
              && answer.Invalidated? && expected.Invalidated? && answer.removed <= expected.removed
              && (answer == expected <==>
                  forall key | key in Matching(ReferenceAfter(NOTHING, calls[..i]).records, scope) ::
                    !TouchedLate(NOTHING, calls[..i], key))
            case _ => answer == expected
  {
    var before, now := calls[..i], calls[i].at;
    AnswerAt(Empty(None), NOTHING, calls, i);
    StoreStaysRepresentative(Empty(None), NOTHING, before, now);
    CallRefines(StoreAfter(Empty(None), before), ReferenceAfter(NOTHING, before), calls[i].operation, now);
    if calls[i].operation.InvalidateOf? {
      InvalidationCounts(before, calls[i].operation.scope, now);
    }
  }

  /** A write, and a lookup at the end of the retention. */
  const LATE_LOOKUP: seq<Call> :=
    [Call(20, CasOf(NEWER, Absent, Sample(10))), Call(100 + EXPIRED_ENTRY_RETENTION, GetOf(NEWER))]

  lemma LateLookupPurges()
    ensures StoreAfter(Empty(None), LATE_LOOKUP).records == map[]
    ensures !StoreAfter(Empty(None), LATE_LOOKUP).shuttingDown
  {
    var first, second := LATE_LOOKUP[0], LATE_LOOKUP[1];
    assert LATE_LOOKUP[1..] == [second] && [second][1..] == [];
    var written := StoreStep(Empty(None), first.operation, 20).0;
    assert written.records == map[NEWER := CacheRecord(1, Sample(10))];
    assert StoreAfter(Empty(None), LATE_LOOKUP) == StoreAfter(written, [second]);
  }

  lemma LateLookupLeavesReference()
    ensures ReferenceAfter(NOTHING, LATE_LOOKUP).records == map[NEWER := CacheRecord(1, Sample(10))]
  {
    var first, second := LATE_LOOKUP[0], LATE_LOOKUP[1];
    assert LATE_LOOKUP[1..] == [second] && [second][1..] == [];
    var kept := ReferenceStep(NOTHING, first.operation, 20).0;
    assert ReferenceAfter(NOTHING, LATE_LOOKUP) == ReferenceAfter(kept, [second]);
    assert ReferenceAfter(kept, [second]) == ReferenceAfter(kept, []) == kept;
    assert kept.records == map[NEWER := CacheRecord(1, Sample(10))];
  }

  /** The two counts can differ: the lookup purges the record the reference still counts. */
  lemma InvalidationCountsCanDiffer()
    ensures Invalidate(StoreAfter(Empty(None), LATE_LOOKUP), All).1 == Ok(0)
    ensures Matching(ReferenceAfter(NOTHING, LATE_LOOKUP).records, All) == {NEWER}
  {
    LateLookupPurges();
    LateLookupLeavesReference();
    InvalidateReportsMatches(StoreAfter(Empty(None), LATE_LOOKUP), All);
  }

  // ---------------------------------------------------------------- versions along a run

  /** The states a store goes through under a sequence of calls, limited or not, and what it answers. */
  ghost predicate IsTrace(states: seq<Store>, answers: seq<Answer>, calls: seq<Call>) {
    && |states| == |calls| + 1 && |answers| == |calls|
    && states[0] == Empty(states[0].maxWeight)
    && forall i | 0 <= i < |calls| :: CallTaken(states, answers, calls, i)
  }

  /** Call `i` takes state `i` to state `i + 1` and gets answer `i`. */
  ghost predicate CallTaken(states: seq<Store>, answers: seq<Answer>, calls: seq<Call>, i: nat)
    requires |states| == |calls| + 1 && |answers| == |calls| && i < |calls|
  {
    (states[i + 1], answers[i]) == StoreStep(states[i], calls[i].operation, calls[i].at)
  }

  /** Every state of every run is valid: the statistics equal the recomputed count and saturating sum, and a
      limited store is within its limit. */
  lemma {:induction false} TraceKeeps(states: seq<Store>, answers: seq<Answer>, calls: seq<Call>, i: nat)
    requires IsTrace(states, answers, calls) && i < |states|
    ensures Valid(states[i])
  {
    if i == 0 {
      assert states[0].records == map[];
    } else {
      TraceKeeps(states, answers, calls, i - 1);
      assert CallTaken(states, answers, calls, i - 1);
      StepKeeps(states[i - 1], calls[i - 1].operation, calls[i - 1].at);
    }
  }

  /** Call `i` wrote its entry as version `version`. */
  ghost predicate Issues(states: seq<Store>, answers: seq<Answer>, calls: seq<Call>, i: nat, version: nat)
    requires IsTrace(states, answers, calls) && i < |calls|
  {
    answers[i] == Wrote(Inserted(version)) || answers[i] == Wrote(Replaced(version))
  }

  lemma StepRecord(s: Store, operation: Operation, now: Instant, key: CacheKey)
    requires key in StoreStep(s, operation, now).0.records
    ensures var (s', answer) := StoreStep(s, operation, now);
            || (key in s.records && s'.records[key] == s.records[key])
            || (&& operation.CasOf? && operation.key == key
                && s'.records[key] == CacheRecord(s.nextVersion + 1, operation.entry)
                && (answer == Wrote(Inserted(s.nextVersion + 1)) || answer == Wrote(Replaced(s.nextVersion + 1))))
  {
    match operation
    case GetOf(_) =>
    case InvalidateOf(_) =>
    case CasOf(k, condition, entry) =>
      RecordsAfter(s, k, condition, entry, now, key);
      if Writes(s, k, condition, entry, now) {
        GrantedExtendsRecords(s, k, condition, entry, now);
      }
  }

  lemma CasVersion(s: Store, key: CacheKey, condition: CacheCondition, entry: CacheEntry, now: Instant)
    ensures var (s', wrote) := CompareAndSwap(s, key, condition, entry, now);
            && s.nextVersion <= s'.nextVersion
            && (wrote.Ok? && (wrote.value.Inserted? || wrote.value.Replaced?) ==>
                  wrote.value.version == s.nextVersion + 1 == s'.nextVersion)
  {
    if Writes(s, key, condition, entry, now) {
      GrantedExtendsRecords(s, key, condition, entry, now);
    } else if !s.shuttingDown {
      RefusedKeepsRecords(s, key, condition, entry, now);
    }
  }

  /** The version counter never goes back, and a call that issues a version issues the next one. */
  lemma StepVersion(s: Store, operation: Operation, now: Instant)
    ensures var (s', answer) := StoreStep(s, operation, now);
            && s.nextVersion <= s'.nextVersion
            && (answer.Wrote? && (answer.outcome.Inserted? || answer.outcome.Replaced?) ==>
                  answer.outcome.version == s.nextVersion + 1 == s'.nextVersion)
  {
    if operation.CasOf? {
      CasVersion(s, operation.key, operation.condition, operation.entry, now);
    }
  }

  lemma StepCounter(states: seq<Store>, answers: seq<Answer>, calls: seq<Call>, i: nat)
    requires IsTrace(states, answers, calls) && i < |calls|
    ensures states[i].nextVersion <= states[i + 1].nextVersion
  {
    assert CallTaken(states, answers, calls, i);
    StepVersion(states[i], calls[i].operation, calls[i].at);
  }

  /** A sequence whose neighbours do not decrease does not decrease. */
  lemma {:induction false} NeverDecreases(values: seq<nat>, i: nat, j: nat)
    requires i <= j < |values| && forall k | 0 <= k < |values| - 1 :: values[k] <= values[k + 1]
    ensures values[i] <= values[j]
    decreases j
  {
    if i < j {
      NeverDecreases(values, i, j - 1);
      assert values[j - 1] <= values[j - 1 + 1];
    }
  }

  lemma CounterGrows(states: seq<Store>, answers: seq<Answer>, calls: seq<Call>, i: nat, j: nat)
    requires IsTrace(states, answers, calls) && i <= j < |states|
    ensures states[i].nextVersion <= states[j].nextVersion
  {
    var counters := seq(|states|, k requires 0 <= k < |states| => states[k].nextVersion);
    forall k | 0 <= k < |counters| - 1 ensures counters[k] <= counters[k + 1] {
      StepCounter(states, answers, calls, k);
    }
    NeverDecreases(counters, i, j);
  }

  lemma IssuesNext(states: seq<Store>, answers: seq<Answer>, calls: seq<Call>, i: nat, version: nat)
    requires IsTrace(states, answers, calls) && i < |calls| && Issues(states, answers, calls, i, version)
    ensures version == states[i].nextVersion + 1 == states[i + 1].nextVersion
  {
    assert CallTaken(states, answers, calls, i);
    StepVersion(states[i], calls[i].operation, calls[i].at);
  }

  /** Versions issued along a run strictly increase. */
  lemma VersionsIncrease(
      states: seq<Store>, answers: seq<Answer>, calls: seq<Call>, i: nat, j: nat, earlier: nat, later: nat)
    requires IsTrace(states, answers, calls) && i < j < |calls|
    requires Issues(states, answers, calls, i, earlier) && Issues(states, answers, calls, j, later)
    ensures earlier < later
  {
    assert earlier == states[i + 1].nextVersion by {
      IssuesNext(states, answers, calls, i, earlier);
    }
    assert later == states[j].nextVersion + 1 by {
      IssuesNext(states, answers, calls, j, later);
    }
    CounterGrows(states, answers, calls, i + 1, j);
  }

  /** The record under `key` in state `n` was written by call `i` and has been there ever since. */
  ghost predicate HeldSince(states: seq<Store>, answers: seq<Answer>, calls: seq<Call>, n: nat, key: CacheKey, i: nat)
    requires IsTrace(states, answers, calls) && i < n < |states| && key in states[n].records
  {
    var record := states[n].records[key];
    && Issues(states, answers, calls, i, record.version)
    && calls[i].operation.CasOf? && calls[i].operation.key == key && calls[i].operation.entry == record.entry
    && forall m | i < m <= n :: key in states[m].records && states[m].records[key] == record
  }

  lemma StepOrigin(states: seq<Store>, answers: seq<Answer>, calls: seq<Call>, n: nat, key: CacheKey)
    requires IsTrace(states, answers, calls) && n < |calls| && key in states[n + 1].records
    ensures || (key in states[n].records && states[n + 1].records[key] == states[n].records[key])
            || HeldSince(states, answers, calls, n + 1, key, n)
  {
    assert CallTaken(states, answers, calls, n);
    StepRecord(states[n], calls[n].operation, calls[n].at, key);
  }

  lemma {:induction false} RecordWasIssued(
      states: seq<Store>, answers: seq<Answer>, calls: seq<Call>, n: nat, key: CacheKey)
    returns (i: nat)
    requires IsTrace(states, answers, calls) && n < |states| && key in states[n].records
    ensures i < n && HeldSince(states, answers, calls, n, key, i)
  {
    StepOrigin(states, answers, calls, n - 1, key);
    if HeldSince(states, answers, calls, n, key, n - 1) {
      i := n - 1;
    } else {
      i := RecordWasIssued(states, answers, calls, n - 1, key);
    }
  }

  /** No ABA: a compare-and-swap conditioned on a version replaces exactly the record that was issued as that
      version, by one call only, under the same key, and held without interruption since; its replacement gets
      a larger version. */
  lemma VersionedWriteReplacesIssuedRecord(
      states: seq<Store>, answers: seq<Answer>, calls: seq<Call>, j: nat, key: CacheKey, version: nat,
      entry: CacheEntry, next: nat)
    returns (i: nat)
    requires IsTrace(states, answers, calls) && j < |calls|
    requires calls[j].operation == CasOf(key, CacheCondition.Version(version), entry)
    requires Issues(states, answers, calls, j, next)
    ensures key in states[j].records && states[j].records[key].version == version
    ensures i < j && HeldSince(states, answers, calls, j, key, i)
    ensures forall other | 0 <= other < |calls| && Issues(states, answers, calls, other, version) :: other == i
    ensures version < next
  {
    var condition := CacheCondition.Version(version);
    var now := calls[j].at;
    assert CallTaken(states, answers, calls, j);
    if !Writes(states[j], key, condition, entry, now) {
      if !states[j].shuttingDown { RefusedKeepsRecords(states[j], key, condition, entry, now); }
      assert false;
    }
    i := RecordWasIssued(states, answers, calls, j, key);
    forall other | 0 <= other < |calls| && Issues(states, answers, calls, other, version) ensures other == i {
      if other < i { VersionsIncrease(states, answers, calls, other, i, version, version); }
      if i < other { VersionsIncrease(states, answers, calls, i, other, version, version); }
    }
    VersionsIncrease(states, answers, calls, i, j, version, next);
  }
}
