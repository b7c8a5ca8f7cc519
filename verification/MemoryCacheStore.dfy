/** The in-memory cache store: records, loads and statistics updated in place under one mutex.

    Each method is one locked section. Its postcondition ties the new state to the section's function in
    `RecordStore` or `SingleFlight`, where the properties are proved. Time and the outcome of the deadline test
    are parameters. */
module MemoryCacheStore {
  import opened Basics
  import opened CachePort
  import Eviction
  import RecordStore
  import SingleFlight

  datatype BuildError = ZeroMaxWeight

  /** Folds the weights of all records with a saturating addition. */
  method CurrentWeight(records: Eviction.Records) returns (weight: nat)
    ensures weight == Eviction.WeightedSize(records)
  {
    weight := 0;
    var rest := records.Keys;
    ghost var seen: Eviction.Records := map[];
    while rest != {}
      invariant rest <= records.Keys
      invariant seen == map key | key in records && key !in rest :: records[key]
      invariant weight == Eviction.WeightedSize(seen)
      decreases |rest|
    {
      var key :| key in rest;
      var size := Eviction.Weight(key, records[key]);
      weight := SaturatingAdd(weight, size);
      ghost var more := seen[key := records[key]];
      assert more - {key} == seen;
      Eviction.TotalWeightRemove(more, key);
      seen := more;
      rest := rest - {key};
    }
    assert seen == records;
  }

  /** The record to evict first. */
  method Victim(records: Eviction.Records) returns (victim: CacheKey)
    requires records != map[]
    ensures Eviction.IsOldest(records, victim)
  {
    victim :| victim in records;
    var rest := records.Keys - {victim};
    Eviction.NeverPrecedesItself(records, victim);
    while rest != {}
      invariant rest <= records.Keys && victim in records && victim !in rest
      invariant forall other | other in records && other !in rest :: !Eviction.Precedes(records, other, victim)
      decreases |rest|
    {
      var key :| key in rest;
      rest := rest - {key};
      if Eviction.Precedes(records, key, victim) {
        Eviction.NeverPrecedesItself(records, key);
        Eviction.LexLessOrders(key.encoded, victim.encoded, key.encoded);
        forall other | other in records && other !in rest && other != key
          ensures !Eviction.Precedes(records, other, key)
        {
          Eviction.NotPrecedesIsTransitive(records, other, victim, key);
        }
        victim := key;
      }
    }
  }

  class MemoryCacheStore {
    const maxWeight: Option<nat>
    var records: Eviction.Records
    var loads: map<CacheKey, SingleFlight.Load>
    var stats: RecordStore.Stats
    var shuttingDown: bool
    var nextVersion: nat
    var nextGeneration: nat

    /** The record side of the state. */
    ghost function Store(): RecordStore.Store
      reads this
    {
      RecordStore.Store(records, nextVersion, maxWeight, stats, shuttingDown)
    }

    /** The single-flight side of the state. */
    ghost function Table(): SingleFlight.LoadTable
      reads this
    {
      SingleFlight.LoadTable(loads, nextGeneration, shuttingDown)
    }

    ghost predicate Valid()
      reads this
    {
      RecordStore.Valid(Store())
    }

    constructor (maxWeight: Option<nat>)
      ensures Valid() && Store() == RecordStore.Empty(maxWeight)
      ensures Table() == SingleFlight.INITIAL.table
    {
      this.maxWeight := maxWeight;
      records, loads, shuttingDown := map[], map[], false;
      stats := RecordStore.Stats(0, 0, 0, 0, 0, 0);
      nextVersion, nextGeneration := 0, 0;
    }

    // -------------------------------------------------------------- weight and eviction

    method RefreshStats()
      modifies this`stats
      ensures Store() == RecordStore.RefreshStats(old(Store()))
    {
      var weight := CurrentWeight(records);
      stats := stats.(entries := |records|, weightedSize := weight);
    }

    method EnforceCapacity()
      requires Eviction.VersionsDistinct(records)
      modifies this`records, this`stats
      ensures Store() == RecordStore.EnforceCapacity(old(Store()))
    {
      if maxWeight.Some? {
        EvictOldest(maxWeight.value);
      }
      RefreshStats();
    }

    /** Evicts the oldest record until the weight is within the limit, counting each eviction. */
    method EvictOldest(limit: nat)
      requires Eviction.VersionsDistinct(records)
      modifies this`records, this`stats
      ensures records == Eviction.Evict(old(records), limit)
      ensures stats == old(stats).(evictions := SaturatingAdd(old(stats).evictions, |old(records).Keys - records.Keys|))
    {
      ghost var target := Eviction.Evict(records, limit);
      ghost var count := 0;
      var current := CurrentWeight(records);
      while current > limit
        invariant current == Eviction.WeightedSize(records)
        invariant Eviction.VersionsDistinct(records) && Eviction.Evict(records, limit) == target
        invariant records.Keys <= old(records).Keys && |old(records).Keys - records.Keys| == count
        invariant stats.evictions == SaturatingAdd(old(stats).evictions, count)
        invariant stats == old(stats).(evictions := stats.evictions)
        decreases |records|
      {
        SaturatingAddAssociates(old(stats).evictions, count, 1);
        EvictOne(limit, old(records));
        count := count + 1;
        current := CurrentWeight(records);
      }
    }

    /** One turn of the eviction loop. */
    method EvictOne(limit: nat, ghost initial: Eviction.Records)
      requires Eviction.VersionsDistinct(records) && Eviction.WeightedSize(records) > limit
      requires records.Keys <= initial.Keys
      modifies this`records, this`stats
      ensures |records| < |old(records)| && records.Keys <= initial.Keys
      ensures Eviction.VersionsDistinct(records)
      ensures Eviction.Evict(records, limit) == Eviction.Evict(old(records), limit)
      ensures |initial.Keys - records.Keys| == |initial.Keys - old(records).Keys| + 1
      ensures stats == old(stats).(evictions := SaturatingAdd(old(stats).evictions, 1))
    {
      var victim := Victim(records);
      EvictionProceeds(initial, records, limit, victim);
      records := records - {victim};
      stats := stats.(evictions := SaturatingAdd(stats.evictions, 1));
    }

    // -------------------------------------------------------------- records

    method Get(key: CacheKey, deadlineExpired: bool, now: Instant)
      returns (r: Result<Option<CacheRecord>, PortError>)
      requires Valid()
      modifies this`records, this`stats
      ensures Valid()
      ensures deadlineExpired ==> r == Err(Timeout) && Store() == old(Store())
      ensures !deadlineExpired ==> (Store(), r) == RecordStore.Get(old(Store()), key, now)
    {
      RecordStore.GetKeeps(Store(), key, now);
      if deadlineExpired {
        return Err(Timeout);
      }
      if shuttingDown {
        return Err(Unavailable);
      }
      if key !in records {
        stats := stats.(misses := SaturatingAdd(stats.misses, 1));
        return Ok(None);
      }
      var record := records[key];
      if IsVisible(record, now) {
        if IsAnswerable(record, now) {
          stats := stats.(hits := SaturatingAdd(stats.hits, 1));
        } else {
          stats := stats.(misses := SaturatingAdd(stats.misses, 1));
        }
        return Ok(Some(record));
      }
      records := records - {key};
      stats := stats.(misses := SaturatingAdd(stats.misses, 1));
      RefreshStats();
      return Ok(None);
    }

    method CompareAndSwap(key: CacheKey, condition: CacheCondition, entry: CacheEntry, deadlineExpired: bool,
        now: Instant)
      returns (r: Result<CacheWriteOutcome, PortError>)
      requires Valid()
      modifies this`records, this`stats, this`nextVersion
      ensures Valid()
      ensures deadlineExpired ==> r == Err(Timeout) && Store() == old(Store())
      ensures !deadlineExpired ==> (Store(), r) == RecordStore.CompareAndSwap(old(Store()), key, condition, entry, now)
    {
      RecordStore.CompareAndSwapKeeps(Store(), key, condition, entry, now);
      if deadlineExpired {
        return Err(Timeout);
      }
      if shuttingDown {
        return Err(Unavailable);
      }
      PurgeExpired(key, now);
      r := Settle(key, condition, entry, now);
    }

    method Settle(key: CacheKey, condition: CacheCondition, entry: CacheEntry, now: Instant)
      returns (r: Result<CacheWriteOutcome, PortError>)
      requires Valid()
      modifies this`records, this`stats, this`nextVersion
      ensures (Store(), r) == RecordStore.Settle(old(Store()), key, condition, entry, now)
    {
      var current := if key in records then Some(records[key].version) else None;
      var matches := if condition.Absent? then current.None? else current == Some(condition.expected);
      if !matches {
        stats := stats.(conflicts := SaturatingAdd(stats.conflicts, 1));
        return Ok(Conflict(current));
      }
      if key in records && QualityRank(records[key].entry.quality) > QualityRank(entry.quality)
          && IsFresh(records[key], now) {
        return Ok(RejectedQuality);
      }
      if maxWeight.Some? && Eviction.Weight(key, CacheRecord(0, entry)) > maxWeight.value {
        return Err(ResourceExhausted);
      }
      Insert(key, entry);
      return Ok(if current.Some? then Replaced(nextVersion) else Inserted(nextVersion));
    }

    method Insert(key: CacheKey, entry: CacheEntry)
      requires Valid()
      modifies this`records, this`stats, this`nextVersion
      ensures nextVersion == old(nextVersion) + 1
      ensures Store() == RecordStore.EnforceCapacity(RecordStore.Extended(old(Store()), key, entry))
    {
      RecordStore.ExtendedKeepsVersions(Store(), key, entry);
      ghost var extended := RecordStore.Extended(Store(), key, entry);
      nextVersion := nextVersion + 1;
      records := records[key := CacheRecord(nextVersion, entry)];
      assert Store() == extended;
      EnforceCapacity();
    }

    method PurgeExpired(key: CacheKey, now: Instant)
      requires Valid()
      modifies this`records, this`stats
      ensures Valid() && Store() == RecordStore.Purge(old(Store()), key, now)
    {
      RecordStore.PurgeKeeps(Store(), key, now);
      if key in records && !IsVisible(records[key], now) {
        records := records - {key};
        RefreshStats();
      }
    }

    method Invalidate(scope: CacheInvalidation, deadlineExpired: bool) returns (r: Result<nat, PortError>)
      requires Valid()
      modifies this`records, this`stats
      ensures Valid()
      ensures deadlineExpired ==> r == Err(Timeout) && Store() == old(Store())
      ensures !deadlineExpired ==> (Store(), r) == RecordStore.Invalidate(old(Store()), scope)
    {
      RecordStore.InvalidateKeeps(Store(), scope);
      if deadlineExpired {
        return Err(Timeout);
      }
      if shuttingDown {
        return Err(Unavailable);
      }
      var before := |records|;
      records := map key | key in records && !InvalidationMatches(scope, key, records[key].entry) :: records[key];
      var removed := if |records| <= before then before - |records| else 0;
      RefreshStats();
      return Ok(removed);
    }

    // -------------------------------------------------------------- single flight

    method CompleteLoad(ticket: SingleFlight.Ticket, completion: LoadCompletion)
      returns (r: Result<set<SingleFlight.Waker>, PortError>)
      modifies this`loads
      ensures Table() == SingleFlight.CompleteLoad(old(Table()), ticket, completion)
      ensures r == if SingleFlight.CanComplete(old(Table()), ticket)
                   then Ok(SingleFlight.CompletionWakers(old(Table()), ticket)) else Err(ProtocolViolation)
    {
      if ticket.key !in loads {
        return Err(ProtocolViolation);
      }
      var load := loads[ticket.key];
      if load.generation != ticket.generation || load.completion.Some? {
        return Err(ProtocolViolation);
      }
      loads := loads[ticket.key := load.(completion := Some(completion), wakers := [])];
      if load.followers == 0 {
        loads := loads - {ticket.key};
      }
      return Ok(set w | w in load.wakers);
    }

    method ReleaseWaiter(ticket: SingleFlight.Ticket)
      modifies this`loads
      ensures Table() == SingleFlight.ReleaseWaiter(old(Table()), ticket)
    {
      if ticket.key !in loads {
        return;
      }
      var load := loads[ticket.key];
      if load.generation != ticket.generation || load.followers == 0 {
        return;
      }
      load := load.(followers := load.followers - 1);
      loads := loads[ticket.key := load];
      if load.completion.Some? && load.followers == 0 {
        loads := loads - {ticket.key};
      }
    }

    method ReserveLoad(key: CacheKey, deadlineExpired: bool) returns (r: Result<SingleFlight.Reservation, PortError>)
      modifies this`loads, this`nextGeneration
      ensures deadlineExpired ==> r == Err(Timeout) && Table() == old(Table())
      ensures !deadlineExpired ==> (Table(), r) == SingleFlight.ReserveLoad(old(Table()), key)
      ensures r.Err? <==> deadlineExpired || old(shuttingDown)
      ensures r.Ok? && key in old(loads) ==>
        var load := old(loads)[key];
        && r.value == SingleFlight.Follower(SingleFlight.Ticket(key, load.generation))
        && loads == old(loads)[key := load.(followers := load.followers + 1)]
        && nextGeneration == old(nextGeneration)
      ensures r.Ok? && key !in old(loads) ==>
        && nextGeneration > old(nextGeneration)
        && r.value == SingleFlight.Leader(SingleFlight.Ticket(key, nextGeneration))
        && loads == old(loads)[key := SingleFlight.Load(nextGeneration, None, 0, [])]
    {
      if deadlineExpired {
        return Err(Timeout);
      }
      if shuttingDown {
        return Err(Unavailable);
      }
      if key in loads {
        var load := loads[key];
        loads := loads[key := load.(followers := load.followers + 1)];
        return Ok(SingleFlight.Follower(SingleFlight.Ticket(key, load.generation)));
      }
      nextGeneration := nextGeneration + 1;
      loads := loads[key := SingleFlight.Load(nextGeneration, None, 0, [])];
      return Ok(SingleFlight.Leader(SingleFlight.Ticket(key, nextGeneration)));
    }

    method PollLoad(ticket: SingleFlight.Ticket, deadlineExpired: bool, waker: SingleFlight.Waker)
      returns (poll: SingleFlight.Poll)
      modifies this`loads
      ensures (Table(), poll) == SingleFlight.PollLoad(old(Table()), ticket, deadlineExpired, waker)
    {
      if ticket.key !in loads {
        return SingleFlight.PollFailed(ProtocolViolation);
      }
      var load := loads[ticket.key];
      if load.generation != ticket.generation {
        return SingleFlight.PollFailed(ProtocolViolation);
      }
      if load.completion.Some? {
        return SingleFlight.Done(load.completion.value);
      }
      if deadlineExpired {
        return SingleFlight.PollFailed(Timeout);
      }
      if waker !in load.wakers {
        loads := loads[ticket.key := load.(wakers := load.wakers + [waker])];
      }
      return SingleFlight.Pending;
    }

    /** Clears the records, completes every open load and keeps only the loads somebody waits for. */
    method Shutdown() returns (wakers: set<SingleFlight.Waker>)
      requires Valid()
      modifies this`records, this`loads, this`stats, this`shuttingDown
      ensures Valid() && Store() == RecordStore.ShutDownRecords(old(Store()))
      ensures Table() == SingleFlight.ShutdownLoads(old(Table()))
      ensures wakers == SingleFlight.AllWakers(old(Table()))
    {
      RecordStore.ShutDownKeeps(Store());
      shuttingDown := true;
      records := map[];
      RefreshStats();
      wakers := CompleteAllLoads();
    }

    method CompleteAllLoads() returns (wakers: set<SingleFlight.Waker>)
      modifies this`loads
      ensures loads == SingleFlight.ShutdownLoads(old(Table())).loads
      ensures wakers == SingleFlight.AllWakers(old(Table()))
    {
      wakers := {};
      var done: map<CacheKey, SingleFlight.Load> := map[];
      var rest := loads.Keys;
      while rest != {}
        invariant rest <= loads.Keys && loads == old(loads)
        invariant done == map key | key in loads && key !in rest && loads[key].followers > 0
                            :: SingleFlight.ShutdownLoad(loads[key])
        invariant wakers == set key, w | key in loads && key !in rest && w in loads[key].wakers :: w
        decreases |rest|
      {
        var key :| key in rest;
        var load := loads[key];
        wakers := wakers + set w | w in load.wakers;
        if load.completion.None? {
          load := load.(completion := Some(SingleFlight.SHUTDOWN_COMPLETION));
        }
        load := load.(wakers := []);
        if load.followers > 0 {
          done := done[key := load];
        }
        rest := rest - {key};
      }
      loads := done;
    }
  }

  /** With distinct versions there is one oldest record, whatever order the map is iterated in. */
  lemma OldestIsUnique(records: Eviction.Records, victim: CacheKey)
    requires Eviction.VersionsDistinct(records) && Eviction.IsOldest(records, victim)
    ensures victim == Eviction.Oldest(records)
  {
    var oldest := Eviction.Oldest(records);
    if victim != oldest {
      Eviction.OldestPrecedesOthers(records, oldest, victim);
    }
  }

  /** One turn of the eviction loop: the outcome stays the same and one more record is gone. */
  lemma EvictionProceeds(initial: Eviction.Records, current: Eviction.Records, limit: nat, victim: CacheKey)
    requires Eviction.VersionsDistinct(current) && Eviction.IsOldest(current, victim)
    requires Eviction.WeightedSize(current) > limit && current.Keys <= initial.Keys
    ensures Eviction.Evict(current - {victim}, limit) == Eviction.Evict(current, limit)
    ensures |initial.Keys - (current - {victim}).Keys| == |initial.Keys - current.Keys| + 1
  {
    OldestIsUnique(current, victim);
    assert initial.Keys - (current - {victim}).Keys == (initial.Keys - current.Keys) + {victim};
  }

  /** `with_max_weight`: a zero budget is refused, any other becomes the limit of an empty store. */
  method WithMaxWeight(limit: nat) returns (r: Result<MemoryCacheStore, BuildError>)
    ensures limit == 0 ==> r == Err(ZeroMaxWeight)
    ensures limit > 0 ==>
      r.Ok? && fresh(r.value) && r.value.Valid() && r.value.Store() == RecordStore.Empty(Some(limit))
  {
    if limit == 0 {
      return Err(ZeroMaxWeight);
    }
    var store := new MemoryCacheStore(Some(limit));
    return Ok(store);
  }
}
