/** The cache vocabulary of `ports/cache.rs`: keys, entries, records and single-flight completions.

    Instants and durations are natural numbers of nanoseconds on the monotonic clock. A DNS response is its
    wire encoding, a sequence of bytes that nothing here looks into. */
module CachePort {
  import opened Basics

  type Instant = nat
  type Duration = nat

  /** The last instant the platform clock can represent: signed 64-bit seconds plus nanoseconds. */
  const INSTANT_MAX: nat := 0x8000_0000_0000_0000 * 1_000_000_000 - 1

  /** `Instant::checked_add`. */
  function CheckedAdd(at: Instant, duration: Duration): Option<Instant> {
    if at + duration <= INSTANT_MAX then Some(at + duration) else None
  }

  const SECOND: Duration := 1_000_000_000

  const EXPIRED_ENTRY_RETENTION: Duration := 60 * SECOND

  datatype CacheNamespace =
    | Global
    | Strategy(strategy: Bytes)
    | ClientStrategy(clientDigest: Bytes, strategy: Bytes)

  datatype CacheKey = CacheKey(namespace: CacheNamespace, encoded: Bytes, formatVersion: nat)

  datatype CacheQuality = Failure | Negative | Complete

  /** The derived order of the quality enumeration: failure, then negative, then complete. */
  function QualityRank(quality: CacheQuality): nat {
    match quality
    case Failure => 0
    case Negative => 1
    case Complete => 2
  }

  datatype CacheResponseClass = NoError | NoData | NxDomain | ServFail | Truncated

  datatype UpstreamProvenance = UpstreamProvenance(targetId: Bytes, usedId: Option<Bytes>)

  datatype CacheEntry = CacheEntry(
    response: Bytes,
    upstream: UpstreamProvenance,
    insertedAt: Instant,
    expiresAt: Instant,
    staleUntil: Option<Instant>,
    responseClass: CacheResponseClass,
    producerRevision: nat,
    quality: CacheQuality,
    checksum: nat,
    formatVersion: nat)

  datatype CacheRecord = CacheRecord(version: nat, entry: CacheEntry)

  /** The instant up to which an entry may be used for an answer, the optimistic window included. */
  function AnswerableUntil(entry: CacheEntry): Instant {
    match entry.staleUntil
    case None => entry.expiresAt
    case Some(staleUntil) => Max(entry.expiresAt, staleUntil)
  }

  /** The instant from which the store treats the entry as absent. */
  function RetentionDeadline(entry: CacheEntry): Instant {
    match CheckedAdd(AnswerableUntil(entry), EXPIRED_ENTRY_RETENTION)
    case Some(deadline) => deadline
    case None => AnswerableUntil(entry)
  }

  predicate IsVisible(record: CacheRecord, now: Instant) {
    now < RetentionDeadline(record.entry)
  }

  predicate IsFresh(record: CacheRecord, now: Instant) {
    now < record.entry.expiresAt
  }

  predicate IsAnswerable(record: CacheRecord, now: Instant) {
    now < record.entry.expiresAt || (record.entry.staleUntil.Some? && now < record.entry.staleUntil.value)
  }

  datatype CacheCondition = Absent | Version(expected: nat)

  datatype CacheWriteOutcome =
    | Inserted(version: nat)
    | Replaced(version: nat)
    | Conflict(current: Option<nat>)
    | RejectedQuality

  datatype CacheInvalidation =
    | Exact(key: CacheKey)
    | Namespace(namespace: CacheNamespace)
    | ProducerRevision(namespace: CacheNamespace, revision: nat)
    | All

  predicate InvalidationMatches(scope: CacheInvalidation, key: CacheKey, entry: CacheEntry) {
    match scope
    case Exact(expected) => expected == key
    case Namespace(namespace) => namespace == key.namespace
    case ProducerRevision(namespace, revision) =>
      namespace == key.namespace && entry.producerRevision == revision
    case All => true
  }

  datatype CancelReason = Shutdown | OtherReason(code: nat)

  datatype LoadFailure =
    | Abandoned
    | TimedOut
    | Cancelled(reason: CancelReason)
    | LoadUnavailable
    | LoadResourceExhausted
    | LoadInternal

  datatype LoadCompletion = Ready(record: CacheRecord) | Miss | Failed(failure: LoadFailure)

  datatype PortError = Timeout | Unavailable | ProtocolViolation | ResourceExhausted | Internal
}
