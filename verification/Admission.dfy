/** Admission of DNS responses into the cache: class, quality, time to live and optimistic window. */
module Admission {
  import opened Basics
  import opened CachePort

  datatype ResponseClass =
    | Positive
    | NoDataResponse
    | NxDomainResponse
    | ServFailResponse
    | TruncatedResponse
    | RefusedResponse
    | OtherResponse(code: nat)

  /** A canonical response as admission sees it; times to live are in whole seconds. */
  datatype Response = Response(class_: ResponseClass, wire: Bytes, minTtl: Option<nat>, negativeTtl: Option<nat>)

  datatype Policy = Policy(
    failureTtl: Duration,
    optimisticMaxAge: Option<Duration>,
    negativeTtlMax: Option<Duration>,
    negativeOptimisticMaxAge: Option<Duration>)

  datatype Rejection = Refused | Other | MissingTtl | ZeroTtl

  datatype Outcome = Accepted(entry: CacheEntry) | Rejected(rejection: Rejection)

  const CACHE_ENTRY_FORMAT_VERSION: nat := 2

  // ---------------------------------------------------------------- checksum

  const FNV_OFFSET: bv64 := 0xcbf2_9ce4_8422_2325
  const FNV_PRIME: bv64 := 0x0000_0100_0000_01b3

  function FnvStep(hash: bv64, byte: Byte): bv64 {
    (hash ^ (byte as bv64)) * FNV_PRIME
  }

  /** The digest after the first `count` bytes. */
  function FnvPrefix(wire: Bytes, count: nat): bv64
    requires count <= |wire|
  {
    if count == 0 then FNV_OFFSET else FnvStep(FnvPrefix(wire, count - 1), wire[count - 1])
  }

  /** The 64-bit FNV-1a digest of the canonical wire. */
  function CanonicalChecksum(wire: Bytes): nat {
    FnvPrefix(wire, |wire|) as nat
  }

  method ComputeChecksum(wire: Bytes) returns (checksum: nat)
    ensures checksum == CanonicalChecksum(wire)
  {
    var hash := FNV_OFFSET;
    for i := 0 to |wire|
      invariant hash == FnvPrefix(wire, i)
    {
      hash := FnvStep(hash, wire[i]);
    }
    checksum := hash as nat;
  }

  // ---------------------------------------------------------------- times to live

  function Seconds(ttl: Option<nat>): Option<Duration> {
    if ttl.Some? then Some(ttl.value * SECOND) else None
  }

  /** The SOA negative TTL, else the smallest record TTL, else the failure TTL, cut at the configured maximum. */
  function NegativeTtl(response: Response, policy: Policy): Option<Duration> {
    var stated := Seconds(if response.negativeTtl.Some? then response.negativeTtl else response.minTtl);
    var ttl := if stated.Some? then stated else if policy.failureTtl != 0 then Some(policy.failureTtl) else None;
    if ttl.Some? && policy.negativeTtlMax.Some? && policy.negativeTtlMax.value != 0
    then Some(Min(ttl.value, policy.negativeTtlMax.value))
    else ttl
  }

  /** Class, quality and time to live of an admissible response. */
  function Classify(policy: Policy, response: Response): Option<(CacheResponseClass, CacheQuality, Option<Duration>)> {
    match response.class_
    case Positive => Some((NoError, Complete, Seconds(response.minTtl)))
    case NoDataResponse => Some((NoData, Negative, NegativeTtl(response, policy)))
    case NxDomainResponse => Some((NxDomain, Negative, NegativeTtl(response, policy)))
    case ServFailResponse => Some((ServFail, Failure, Some(policy.failureTtl)))
    case TruncatedResponse => Some((Truncated, Failure, Some(policy.failureTtl)))
    case RefusedResponse => None
    case OtherResponse(_) => None
  }

  /** The optimistic window of a quality; a cached failure has none. */
  function StaleWindow(policy: Policy, quality: CacheQuality): Option<Duration> {
    var window := match quality
      case Complete => policy.optimisticMaxAge
      case Negative => policy.negativeOptimisticMaxAge
      case Failure => None;
    if window.Some? && window.value != 0 then window else None
  }

  function AdmitResponse(
      policy: Policy, response: Response, upstream: UpstreamProvenance, now: Instant, producerRevision: nat): Outcome
  {
    match Classify(policy, response)
    case None => Rejected(if response.class_.RefusedResponse? then Refused else Other)
    case Some((class_, quality, ttl)) =>
      if ttl.None? then Rejected(MissingTtl)
      else if ttl.value == 0 then Rejected(ZeroTtl)
      else
        var expiry := CheckedAdd(now, ttl.value);
        var expiresAt := if expiry.Some? then expiry.value else now;
        var window := StaleWindow(policy, quality);
        var staleUntil := if window.Some? then CheckedAdd(expiresAt, window.value) else None;
        Accepted(CacheEntry(response.wire, upstream, now, expiresAt, staleUntil, class_, producerRevision, quality,
                            CanonicalChecksum(response.wire), CACHE_ENTRY_FORMAT_VERSION))
  }

  // ---------------------------------------------------------------- what admission grants, in the fields

  /** The configured maximum for negative answers; zero means none. */
  predicate NegativeMaximum(policy: Policy, max: Duration) {
    max > 0 && policy.negativeTtlMax == Some(max)
  }

  /** What a negative answer would live for without a maximum: the SOA value, else the smallest record value, else the
      failure value, if that is not zero. */
  predicate NegativeBase(policy: Policy, response: Response, base: Duration) {
    match (response.negativeTtl, response.minTtl)
    case (Some(soa), _) => base == soa * SECOND
    case (None, Some(min)) => base == min * SECOND
    case (None, None) => base == policy.failureTtl && base > 0
  }

  /** The time to live of a response under a policy. A negative answer lives for its base where no maximum is
      smaller, and for the maximum where that is smaller. */
  predicate LivesFor(policy: Policy, response: Response, ttl: Duration) {
    match response.class_
    case Positive => response.minTtl.Some? && ttl == response.minTtl.value * SECOND
    case ServFailResponse => ttl == policy.failureTtl
    case TruncatedResponse => ttl == policy.failureTtl
    case RefusedResponse => false
    case OtherResponse(_) => false
    case _ =>
      || (NegativeBase(policy, response, ttl) && !ExceedsMaximum(policy, ttl))
      || (NegativeMaximum(policy, ttl) && BaseExceeds(policy, response, ttl))
  }

  predicate ExceedsMaximum(policy: Policy, base: Duration) {
    policy.negativeTtlMax.Some? && 0 < policy.negativeTtlMax.value < base
  }

  predicate BaseExceeds(policy: Policy, response: Response, max: Duration) {
    match (response.negativeTtl, response.minTtl)
    case (Some(soa), _) => soa * SECOND > max
    case (None, Some(min)) => min * SECOND > max
    case (None, None) => policy.failureTtl > max
  }

  /** How long a response may be answered after that: by class, and not at all for a failure. */
  predicate LingersFor(policy: Policy, response: Response, window: Duration) {
    match response.class_
    case Positive => window == if policy.optimisticMaxAge.Some? then policy.optimisticMaxAge.value else 0
    case NoDataResponse =>
      window == if policy.negativeOptimisticMaxAge.Some? then policy.negativeOptimisticMaxAge.value else 0
    case NxDomainResponse =>
      window == if policy.negativeOptimisticMaxAge.Some? then policy.negativeOptimisticMaxAge.value else 0
    case _ => window == 0
  }

  /** The class and quality an answer is stored under. */
  predicate StoredAs(response: Response, class_: CacheResponseClass, quality: CacheQuality) {
    match response.class_
    case Positive => class_ == NoError && quality == Complete
    case NoDataResponse => class_ == NoData && quality == Negative
    case NxDomainResponse => class_ == NxDomain && quality == Negative
    case ServFailResponse => class_ == ServFail && quality == Failure
    case TruncatedResponse => class_ == Truncated && quality == Failure
    case _ => false
  }

  /** Class, quality, time to live and window come out as stated. */
  lemma ClassifiedAsStated(policy: Policy, response: Response, ttl: Duration, window: Duration)
    requires LivesFor(policy, response, ttl) && LingersFor(policy, response, window)
    ensures var classified := Classify(policy, response);
            && classified.Some? && classified.value.2 == Some(ttl)
            && StoredAs(response, classified.value.0, classified.value.1)
            && StaleWindow(policy, classified.value.1) == if window > 0 then Some(window) else None
  {
  }

  /** A response with a positive time to live is admitted, and its entry expires after exactly that time and may be
      answered for exactly its window more, as far as the clock reaches; one whose time to live is zero is rejected. */
  lemma AdmittedForItsLifetime(
      policy: Policy, response: Response, upstream: UpstreamProvenance, now: Instant, revision: nat, ttl: Duration,
      window: Duration)
    requires LivesFor(policy, response, ttl) && LingersFor(policy, response, window)
    ensures ttl == 0 ==> AdmitResponse(policy, response, upstream, now, revision) == Rejected(ZeroTtl)
    ensures ttl > 0 ==>
            var outcome := AdmitResponse(policy, response, upstream, now, revision);
            && outcome.Accepted?
            && var entry := outcome.entry;
               && entry.insertedAt == now && StoredAs(response, entry.responseClass, entry.quality)
               && entry.expiresAt == (if now + ttl <= INSTANT_MAX then now + ttl else now)
               && entry.staleUntil == (if window > 0 && entry.expiresAt + window <= INSTANT_MAX
                                       then Some(entry.expiresAt + window) else None)
               && entry.response == response.wire && entry.checksum == CanonicalChecksum(response.wire)
               && entry.upstream == upstream && entry.producerRevision == revision && entry.formatVersion == 2
  {
    ClassifiedAsStated(policy, response, ttl, window);
  }

  /** The responses that have a time to live. */
  predicate HasLifetime(policy: Policy, response: Response) {
    match response.class_
    case Positive => response.minTtl.Some?
    case ServFailResponse => true
    case TruncatedResponse => true
    case RefusedResponse => false
    case OtherResponse(_) => false
    case _ => response.negativeTtl.Some? || response.minTtl.Some? || policy.failureTtl > 0
  }

  /** A response has one time to live or none. */
  lemma LifetimeIsUnique(policy: Policy, response: Response) returns (ttl: Duration)
    ensures HasLifetime(policy, response) ==>
      forall other: Duration :: LivesFor(policy, response, other) <==> other == ttl
    ensures !HasLifetime(policy, response) ==> forall other: Duration :: !LivesFor(policy, response, other)
  {
    ttl := match response.class_
      case Positive => if response.minTtl.Some? then response.minTtl.value * SECOND else 0
      case ServFailResponse => policy.failureTtl
      case TruncatedResponse => policy.failureTtl
      case _ => if NegativeTtl(response, policy).Some? then NegativeTtl(response, policy).value else 0;
  }

  /** A response without a time to live is rejected, with the reason. */
  lemma RejectedWithoutLifetime(
      policy: Policy, response: Response, upstream: UpstreamProvenance, now: Instant, revision: nat)
    requires !HasLifetime(policy, response)
    ensures AdmitResponse(policy, response, upstream, now, revision) == Rejected(
              match response.class_
              case RefusedResponse => Refused
              case OtherResponse(_) => Other
              case _ => MissingTtl)
  {
  }
}
