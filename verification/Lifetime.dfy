/** How long a cached answer lives: from admission, through lookup, across a snapshot and its restoration. */
module Lifetime {
  import opened Basics
  import opened CachePort
  import opened Admission

  // ---------------------------------------------------------------- lookup

  datatype Options = Options(enabled: bool, optimisticEnabled: bool)

  datatype Lookup =
    | Disabled
    | LookupMiss
    | Fresh(record: CacheRecord)
    | Stale(record: CacheRecord)
    | Expired(record: CacheRecord)
    | StoreUnavailable
    | LookupFailed(error: PortError)

  /** The classification `CacheFacade::lookup_at` makes of what the store returned. */
  function LookupAt(options: Options, got: Result<Option<CacheRecord>, PortError>, now: Instant): Lookup {
    if !options.enabled then Disabled
    else match got
      case Err(Unavailable) => StoreUnavailable
      case Err(error) => LookupFailed(error)
      case Ok(None) => LookupMiss
      case Ok(Some(record)) =>
        if now < record.entry.expiresAt then Fresh(record)
        else if options.optimisticEnabled && record.entry.staleUntil.Some? && now < record.entry.staleUntil.value
        then Stale(record)
        else Expired(record)
  }

  /** The entry is handed to the client, fresh or stale. */
  predicate Answers(options: Options, record: CacheRecord, now: Instant) {
    var lookup := LookupAt(options, Ok(Some(record)), now);
    lookup.Fresh? || lookup.Stale?
  }

  /** What is shown to the facade is fresh before its expiry, stale after it in optimistic mode and before the end of
      its window, and otherwise expired; a missing record is a miss, and a store that is shut down is unavailable. */
  lemma LookupDecides(options: Options, record: CacheRecord, error: PortError, now: Instant)
    requires options.enabled
    ensures var lookup := LookupAt(options, Ok(Some(record)), now);
            var until := record.entry.staleUntil;
            var stale := options.optimisticEnabled && until.Some? && now < until.value;
            && (now < record.entry.expiresAt ==> lookup == Fresh(record))
            && (now >= record.entry.expiresAt && stale ==> lookup == Stale(record))
            && (now >= record.entry.expiresAt && !stale ==> lookup == Expired(record))
    ensures LookupAt(options, Ok(None), now) == LookupMiss
    ensures LookupAt(options, Err(error), now) ==
            if error.Unavailable? then StoreUnavailable else LookupFailed(error)
  {
  }

  /** A disabled cache answers nothing, whatever the store holds. */
  lemma DisabledAnswersNothing(options: Options, got: Result<Option<CacheRecord>, PortError>, now: Instant)
    requires !options.enabled
    ensures LookupAt(options, got, now) == Disabled
  {
  }

  /** An admitted entry is answered exactly within its time to live and, in optimistic mode, its class window.
      The clock's range is the only other limit: an expiry it cannot represent makes the entry expire at once. */
  lemma AnsweredExactlyWithinWindow(
      policy: Policy, response: Response, upstream: UpstreamProvenance, admitted: Instant, revision: nat,
      options: Options, version: nat, now: Instant, ttl: Duration, window: Duration)
    requires options.enabled && LivesFor(policy, response, ttl) && ttl > 0 && LingersFor(policy, response, window)
    requires admitted + ttl + window <= INSTANT_MAX
    ensures var outcome := AdmitResponse(policy, response, upstream, admitted, revision);
            && outcome.Accepted?
            && (Answers(options, CacheRecord(version, outcome.entry), now) <==>
                now < admitted + ttl + if options.optimisticEnabled then window else 0)
  {
    AdmittedForItsLifetime(policy, response, upstream, admitted, revision, ttl, window);
  }

  /** Without any assumption on the clock's range an answer is never given later than that. */
  lemma NeverAnsweredLate(
      policy: Policy, response: Response, upstream: UpstreamProvenance, admitted: Instant, revision: nat,
      options: Options, version: nat, now: Instant, ttl: Duration, window: Duration)
    requires LivesFor(policy, response, ttl) && LingersFor(policy, response, window)
    requires var outcome := AdmitResponse(policy, response, upstream, admitted, revision);
             outcome.Accepted? && Answers(options, CacheRecord(version, outcome.entry), now)
    ensures now < admitted + ttl + if options.optimisticEnabled then window else 0
  {
    AdmittedForItsLifetime(policy, response, upstream, admitted, revision, ttl, window);
  }

  // ---------------------------------------------------------------- snapshot times

  /** `unix_nanos_for_instant`: the wall clock read now, plus what is left until the instant. */
  function UnixNanosFor(at: Instant, reference: Instant, wall: nat): nat {
    SaturatingAdd(wall, Min(if at > reference then at - reference else 0, U64_MAX))
  }

  /** `instant_from_unix_nanos`: a past moment becomes the reference itself. */
  function InstantFromUnix(value: nat, reference: Instant, wall: nat): Option<Instant> {
    if value <= wall then Some(reference) else CheckedAdd(reference, value - wall)
  }

  /** The time fields of one encoded record. */
  datatype SavedTimes = SavedTimes(age: nat, expires: nat, stale: Option<nat>)

  /** The wall clock is read once for each field, after the reference instant was taken. */
  function SaveTimes(entry: CacheEntry, reference: Instant, wallExpires: nat, wallStale: nat): SavedTimes {
    SavedTimes(
      Min(if reference > entry.insertedAt then reference - entry.insertedAt else 0, U64_MAX),
      UnixNanosFor(entry.expiresAt, reference, wallExpires),
      if entry.staleUntil.Some? && entry.staleUntil.value > reference
      then Some(UnixNanosFor(entry.staleUntil.value, reference, wallStale)) else None)
  }

  /** The inserted, expiry and stale instants of a decoded record; none when the decoder reports corruption. */
  function RestoreTimes(saved: SavedTimes, reference: Instant, wallExpires: nat, wallStale: nat)
    : Option<(Instant, Instant, Option<Instant>)>
  {
    var stale := if saved.stale.Some? then InstantFromUnix(saved.stale.value, reference, wallStale) else None;
    var expires := InstantFromUnix(saved.expires, reference, wallExpires);
    if saved.stale.Some? && stale.None? then None
    else if saved.age > reference || expires.None? then None
    else Some((reference - saved.age, expires.value, stale))
  }

  /** A restored entry is as old as the saved one was, and keeps a window exactly when that had not run out at the
      saving. It is rejected exactly when its age or one of its ends does not fit the clock of the decoder. */
  lemma RestoredKeepsAge(
      entry: CacheEntry, saveReference: Instant, restoreReference: Instant,
      saveWallExpires: nat, saveWallStale: nat, restoreWallExpires: nat, restoreWallStale: nat)
    ensures var age := Min(Remaining(saveReference, entry.insertedAt), U64_MAX);
            var window := entry.staleUntil.Some? && entry.staleUntil.value > saveReference;
            var expires :=
              InstantFromUnix(UnixNanosFor(entry.expiresAt, saveReference, saveWallExpires), restoreReference,
                              restoreWallExpires);
            var stale := if window
              then InstantFromUnix(UnixNanosFor(entry.staleUntil.value, saveReference, saveWallStale), restoreReference,
                                   restoreWallStale)
              else None;
            RestoreTimes(SaveTimes(entry, saveReference, saveWallExpires, saveWallStale), restoreReference,
                         restoreWallExpires, restoreWallStale) ==
            if age <= restoreReference && expires.Some? && (window ==> stale.Some?)
            then Some((restoreReference - age, expires.value, stale)) else None
  {
  }

  /** What is left of a lifetime that ends at `at`. */
  function Remaining(at: Instant, now: Instant): nat {
    if at > now then at - now else 0
  }

  /** Saving and restoring an instant keeps what was left of it, less the wall-clock time in between. The
      bounds of the 64-bit clock can only shorten it. */
  lemma RestoredRemaining(at: Instant, saveReference: Instant, saveWall: nat, restoreReference: Instant,
      restoreWall: nat)
    requires saveWall <= restoreWall
    ensures var restored := InstantFromUnix(UnixNanosFor(at, saveReference, saveWall), restoreReference, restoreWall);
            && (restored.Some? ==>
                  Remaining(restored.value, restoreReference)
                  <= Max(0, Remaining(at, saveReference) - (restoreWall - saveWall)))
            && (restored.Some? && saveWall + Remaining(at, saveReference) <= U64_MAX ==>
                  Remaining(restored.value, restoreReference)
                  == Max(0, Remaining(at, saveReference) - (restoreWall - saveWall)))
  {
  }

  /** A snapshot never lengthens a lifetime measured from the encoder's reference instant, provided the wall
      clock does not go back between the readings. */
  lemma RestoreNeverLengthens(
      entry: CacheEntry, saveReference: Instant, restoreReference: Instant,
      saveWallExpires: nat, saveWallStale: nat, restoreWallExpires: nat, restoreWallStale: nat)
    requires saveWallExpires <= restoreWallExpires && saveWallStale <= restoreWallStale
    requires RestoreTimes(SaveTimes(entry, saveReference, saveWallExpires, saveWallStale), restoreReference,
                          restoreWallExpires, restoreWallStale).Some?
    ensures var (_, expires, stale) :=
              RestoreTimes(SaveTimes(entry, saveReference, saveWallExpires, saveWallStale), restoreReference,
                           restoreWallExpires, restoreWallStale).value;
            && Remaining(expires, restoreReference) <= Remaining(entry.expiresAt, saveReference)
            && (stale.Some? ==> entry.staleUntil.Some?)
            && (stale.Some? ==>
                  Remaining(stale.value, restoreReference) <= Remaining(entry.staleUntil.value, saveReference))
  {
    RestoredRemaining(entry.expiresAt, saveReference, saveWallExpires, restoreReference, restoreWallExpires);
    if entry.staleUntil.Some? {
      RestoredRemaining(entry.staleUntil.value, saveReference, saveWallStale, restoreReference, restoreWallStale);
    }
  }

  /** On an absolute scale the encoder reads the wall clock some time after its reference instant, and the decoder
      likewise. The restored expiry is what the two delays make of the old one, but never before the restoration. So
      it is later than the old one exactly when that had passed at the restoration or the encoder's delay is the
      longer one; and the entry is fresh at some instant after its old expiry exactly when the longer delay also
      outlasts the restoration. */
  lemma RestoredExpiryShift(at: nat, save: nat, saveDelay: nat, restore: nat, restoreDelay: nat, epoch: nat)
    requires save <= restore && save + saveDelay <= restore + restoreDelay
    requires restore <= INSTANT_MAX && Max(at, save) + saveDelay <= INSTANT_MAX
    requires epoch + Max(at, save) + saveDelay <= U64_MAX
    ensures var restored := InstantFromUnix(UnixNanosFor(at, save, epoch + save + saveDelay), restore,
                                            epoch + restore + restoreDelay);
            && restored == Some(Max(restore, Max(at, save) + saveDelay - restoreDelay))
            && (restored.value > at <==> restore > at || saveDelay > restoreDelay)
            && (restored.value > Max(at, restore) <==>
                saveDelay > restoreDelay && at + saveDelay > restore + restoreDelay)
  {
  }

  /** An entry that expires at `expires` and is answered stale until 100. */
  function Lingering(expires: Instant): CacheEntry {
    CacheEntry([], UpstreamProvenance([117], None), 0, expires, Some(100), NoError, 1, Complete, 0, 2)
  }

  function Remade(entry: CacheEntry, times: (Instant, Instant, Option<Instant>)): CacheEntry {
    entry.(insertedAt := times.0, expiresAt := times.1, staleUntil := times.2)
  }

  /** Saved at 0 and restored at 10, all clocks read without delay, an entry that expired at 5 expires at 10, and is
      still answered stale. */
  lemma PassedExpiryMovesLater(version: nat)
    ensures var times := RestoreTimes(SaveTimes(Lingering(5), 0, 0, 0), 10, 10, 10);
            && times == Some((10, 10, Some(100)))
            && Answers(Options(true, true), CacheRecord(version, Remade(Lingering(5), times.value)), 10)
  {
    assert SaveTimes(Lingering(5), 0, 0, 0) == SavedTimes(0, 5, Some(100));
  }

  /** Saved at 0 with the wall clock read at 7, and restored at 10 without delay, an entry that expired at 5 is answered
      at 11, fresh. */
  lemma DelayedReadingKeepsFresh(version: nat)
    ensures var times := RestoreTimes(SaveTimes(Lingering(5), 0, 7, 7), 10, 10, 10);
            && times == Some((10, 12, Some(107)))
            && var record := CacheRecord(version, Remade(Lingering(5), times.value));
               LookupAt(Options(true, true), Ok(Some(record)), 11) == Fresh(record)
  {
    assert SaveTimes(Lingering(5), 0, 7, 7) == SavedTimes(0, 12, Some(107));
  }

  // ---------------------------------------------------------------- failures over any number of restarts

  /** One save and restore: the reference instants of both sides and the wall-clock readings for the expiry. */
  datatype Restart = Restart(saved: Instant, saveWall: nat, restored: Instant, restoreWall: nat)

  /** The expiry instant after a chain of restarts; none when some decoder rejected the record. */
  function ExpiryAfter(expires: Instant, restarts: seq<Restart>): Option<Instant>
    decreases |restarts|
  {
    if restarts == [] then Some(expires)
    else
      var restart := restarts[0];
      match InstantFromUnix(UnixNanosFor(expires, restart.saved, restart.saveWall), restart.restored,
          restart.restoreWall)
      case None => None
      case Some(next) => ExpiryAfter(next, restarts[1..])
  }

  /** Time spent from `since` to `now`: inside each process on its own clock, between processes on the wall clock. */
  function Elapsed(since: Instant, restarts: seq<Restart>, now: Instant): int
    decreases |restarts|
  {
    if restarts == [] then now - since
    else
      var restart := restarts[0];
      (restart.saved - since) + (restart.restoreWall - restart.saveWall) + Elapsed(restart.restored, restarts[1..], now)
  }

  /** Each process saves after it started, and the wall clock never goes back. */
  ghost predicate ClocksForward(since: Instant, restarts: seq<Restart>) {
    && (forall i | 0 <= i < |restarts| :: restarts[i].saveWall <= restarts[i].restoreWall)
    && (forall i | 0 <= i < |restarts| :: StartOf(since, restarts, i) <= restarts[i].saved)
  }

  /** When process `i` of the chain took over. */
  function StartOf(since: Instant, restarts: seq<Restart>, i: nat): Instant
    requires i <= |restarts|
  {
    if i == 0 then since else restarts[i - 1].restored
  }

  lemma ClocksForwardAfterFirst(since: Instant, restarts: seq<Restart>)
    requires ClocksForward(since, restarts) && restarts != []
    ensures since <= restarts[0].saved && restarts[0].saveWall <= restarts[0].restoreWall
    ensures ClocksForward(restarts[0].restored, restarts[1..])
    ensures StartOf(restarts[0].restored, restarts[1..], |restarts| - 1) == StartOf(since, restarts, |restarts|)
  {
    var rest := restarts[1..];
    assert StartOf(since, restarts, 0) <= restarts[0].saved;
    forall i | 0 <= i < |rest|
      ensures rest[i].saveWall <= rest[i].restoreWall
      ensures StartOf(restarts[0].restored, rest, i) <= rest[i].saved
    {
      assert rest[i] == restarts[i + 1];
      assert StartOf(restarts[0].restored, rest, i) == StartOf(since, restarts, i + 1);
    }
  }

  /** An entry with `left` to live at `since` is gone once `left` has elapsed, however often it was saved and
      restored in between. */
  lemma {:induction false} LifetimeSurvivesRestarts(
      since: Instant, expires: Instant, left: Duration, restarts: seq<Restart>, now: Instant)
    requires ClocksForward(since, restarts) && Remaining(expires, since) <= left
    requires StartOf(since, restarts, |restarts|) <= now
    requires ExpiryAfter(expires, restarts).Some? && now < ExpiryAfter(expires, restarts).value
    ensures Elapsed(since, restarts, now) < left
    decreases |restarts|
  {
    if restarts != [] {
      var restart := restarts[0];
      var rest := restarts[1..];
      RestoredRemaining(expires, restart.saved, restart.saveWall, restart.restored, restart.restoreWall);
      var next := InstantFromUnix(UnixNanosFor(expires, restart.saved, restart.saveWall), restart.restored,
          restart.restoreWall);
      ClocksForwardAfterFirst(since, restarts);
      var used := (restart.saved - since) + (restart.restoreWall - restart.saveWall);
      if used < left {
        LifetimeSurvivesRestarts(restart.restored, next.value, left - used, rest, now);
      } else {
        assert Remaining(next.value, restart.restored) == 0;
        ExpiredStaysExpired(restart.restored, next.value, rest, now);
      }
    }
  }

  /** An entry without time left never comes back. */
  lemma {:induction false} ExpiredStaysExpired(since: Instant, expires: Instant, restarts: seq<Restart>, now: Instant)
    requires ClocksForward(since, restarts) && expires <= since
    requires StartOf(since, restarts, |restarts|) <= now
    requires ExpiryAfter(expires, restarts).Some?
    ensures ExpiryAfter(expires, restarts).value <= now
    decreases |restarts|
  {
    if restarts != [] {
      var restart := restarts[0];
      var rest := restarts[1..];
      RestoredRemaining(expires, restart.saved, restart.saveWall, restart.restored, restart.restoreWall);
      var next := InstantFromUnix(UnixNanosFor(expires, restart.saved, restart.saveWall), restart.restored,
          restart.restoreWall);
      ClocksForwardAfterFirst(since, restarts);
      ExpiredStaysExpired(restart.restored, next.value, rest, now);
    }
  }

  /** The range configuration validation enforces on the failure TTL. */
  predicate ValidatedPolicy(policy: Policy) {
    SECOND <= policy.failureTtl <= 300 * SECOND
  }

  /** Under a validated configuration a cached SERVFAIL is never answered after five minutes (section 7.1 of
      RFC 2308), not even when the cache was saved and restored in between. */
  lemma ServFailNeverAnsweredAfterFiveMinutes(
      policy: Policy, response: Response, upstream: UpstreamProvenance, admitted: Instant, revision: nat,
      options: Options, version: nat, restarts: seq<Restart>, now: Instant)
    requires ValidatedPolicy(policy) && response.class_.ServFailResponse?
    requires ClocksForward(admitted, restarts)
    requires StartOf(admitted, restarts, |restarts|) <= now
    requires var entry := AdmitResponse(policy, response, upstream, admitted, revision).entry;
             var expiry := ExpiryAfter(entry.expiresAt, restarts);
             && expiry.Some?
             && Answers(options, CacheRecord(version, entry.(expiresAt := expiry.value)), now)
    ensures Elapsed(admitted, restarts, now) < 300 * SECOND
  {
    var entry := AdmitResponse(policy, response, upstream, admitted, revision).entry;
    assert entry.staleUntil.None?;
    LifetimeSurvivesRestarts(admitted, entry.expiresAt, 300 * SECOND, restarts, now);
  }
}
