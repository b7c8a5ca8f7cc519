/** The write path of the cache facade and the commit of a leader's result. */
module CacheFacade {
  import opened Basics
  import opened CachePort
  import Admission
  import RecordStore
  import SingleFlight
  import MemoryCacheStore

  datatype Options = Options(enabled: bool, policy: Admission.Policy)

  datatype WriteRequest = WriteRequest(
    key: CacheKey,
    condition: CacheCondition,
    response: Admission.Response,
    upstream: UpstreamProvenance,
    now: Instant,
    producerRevision: nat)

  datatype WriteResult =
    | Stored(outcome: CacheWriteOutcome, record: Option<CacheRecord>)
    | NotAdmitted(rejection: Admission.Rejection)

  type Write = Result<WriteResult, PortError>

  datatype CommitOutcome = CommitStored | CommitRejected | CommitConflict | CommitUnavailable | CommitDropped

  /** The clock as one store call reads it: whether its deadline has passed, and the instant. */
  datatype Reading = Reading(deadlineExpired: bool, now: Instant)

  /** What admission makes of a request. */
  function Admitted(options: Options, request: WriteRequest): Admission.Outcome {
    if !options.enabled then Admission.Rejected(Admission.Other)
    else Admission.AdmitResponse(options.policy, request.response, request.upstream, request.now,
        request.producerRevision)
  }

  function WriteAnswer(entry: CacheEntry, answer: Result<CacheWriteOutcome, PortError>): Write {
    match answer
    case Err(error) => Err(error)
    case Ok(outcome) =>
      Ok(Stored(outcome, if outcome.Inserted? || outcome.Replaced? then Some(CacheRecord(outcome.version, entry))
        else None))
  }

  /** `write_response` on a store whose deadline test and clock reading are given. */
  ghost function WriteResponse(
      options: Options, store: RecordStore.Store, request: WriteRequest, deadlineExpired: bool, now: Instant)
    : (r: (RecordStore.Store, Write))
  {
    match Admitted(options, request)
    case Rejected(rejection) => (store, Ok(NotAdmitted(rejection)))
    case Accepted(entry) =>
      if deadlineExpired then (store, Err(Timeout))
      else
        var (store', answer) := RecordStore.CompareAndSwap(store, request.key, request.condition, entry, now);
        (store', WriteAnswer(entry, answer))
  }

  /** The write found its versioned target gone, so it is tried once more as an insertion. */
  predicate WantsRetry(request: WriteRequest, write: Write) {
    request.condition.Version? && write.Ok? && write.value.Stored? && write.value.outcome == Conflict(None)
  }

  /** The outcome a commit reports and the completion it publishes. */
  function Verdict(write: Write, now: Instant): (CommitOutcome, LoadCompletion) {
    match write
    case Err(_) => (CommitUnavailable, Failed(LoadUnavailable))
    case Ok(NotAdmitted(_)) => (CommitRejected, Miss)
    case Ok(Stored(outcome, record)) =>
      if outcome.Conflict? then (CommitConflict, Miss)
      else if (outcome.Inserted? || outcome.Replaced?) && record.Some? && record.value.entry.expiresAt > now
      then (CommitStored, Ready(record.value))
      else (CommitRejected, Miss)
  }

  /** What a commit owes to its last write, told from the store it found and the store it left: a response that is not
      admitted, a conflict, a better record in place and an entry that has expired by the time of judging are misses; a
      write that could not be made is a failure; and a record that was put into the store and has not expired is
      handed to everybody who waits. */
  ghost predicate Owes(
      options: Options, before: RecordStore.Store, request: WriteRequest, reading: Reading, judged: Instant,
      after: RecordStore.Store, outcome: CommitOutcome, completion: LoadCompletion)
  {
    match Admitted(options, request)
    case Rejected(_) => after == before && outcome == CommitRejected && completion == Miss
    case Accepted(entry) =>
      var key, now, shown := request.key, reading.now, RecordStore.Shown(before, request.key, reading.now);
      if reading.deadlineExpired || before.shuttingDown then
        after == before && outcome == CommitUnavailable && completion == Failed(LoadUnavailable)
      else if RecordStore.Mismatch(shown, request.condition) then
        RecordStore.ShowsTheSame(before, after, now) && outcome == CommitConflict && completion == Miss
      else if RecordStore.Outdone(shown, entry, now) then
        RecordStore.ShowsTheSame(before, after, now) && outcome == CommitRejected && completion == Miss
      else if RecordStore.TooHeavy(before.maxWeight, key, entry) then
        && RecordStore.ShowsTheSame(before, after, now)
        && outcome == CommitUnavailable && completion == Failed(LoadUnavailable)
      else
        && after == RecordStore.EnforceCapacity(RecordStore.Extended(RecordStore.Purge(before, key, now), key, entry))
        && if entry.expiresAt > judged
           then outcome == CommitStored && completion == Ready(CacheRecord(before.nextVersion + 1, entry))
           else outcome == CommitRejected && completion == Miss
  }

  /** A disabled cache admits nothing; an enabled one decides by its policy, as of the instant of the request. */
  lemma DisabledAdmitsNothing(options: Options, request: WriteRequest)
    ensures !options.enabled ==> Admitted(options, request) == Admission.Rejected(Admission.Other)
    ensures options.enabled && Admitted(options, request).Accepted? ==>
            var entry := Admitted(options, request).entry;
            && entry.insertedAt == request.now && entry.producerRevision == request.producerRevision
            && entry.response == request.response.wire && entry.upstream == request.upstream
    ensures options.enabled ==> Admitted(options, request) == Admission.AdmitResponse(
              options.policy, request.response, request.upstream, request.now, request.producerRevision)
  {
  }

  /** The verdict on a write is what is owed to it. */
  lemma VerdictIsOwed(
      options: Options, store: RecordStore.Store, request: WriteRequest, reading: Reading, judged: Instant)
    ensures var (after, write) := WriteResponse(options, store, request, reading.deadlineExpired, reading.now);
            var (outcome, completion) := Verdict(write, judged);
            Owes(options, store, request, reading, judged, after, outcome, completion)
  {
    if Admitted(options, request).Accepted? && !store.shuttingDown {
      RecordStore.CompareAndSwapAnswers(
        store, request.key, request.condition, Admitted(options, request).entry, reading.now);
    }
  }

  /** The last write of a commit and the store it leaves: a vanished version is retried once, as an insertion. Each
      write reads the clock for itself. */
  ghost function FinalWrite(
      options: Options, store: RecordStore.Store, request: WriteRequest, first: Reading, second: Reading)
    : (RecordStore.Store, Write)
  {
    var (after, write) := WriteResponse(options, store, request, first.deadlineExpired, first.now);
    if WantsRetry(request, write)
    then WriteResponse(options, after, request.(condition := Absent), second.deadlineExpired, second.now)
    else (after, write)
  }

  /** The last attempt of a commit: the store it finds, what it asks for, and its reading of the clock. There is a
      second one exactly when an admitted replacement finds nothing shown under its key. */
  ghost function LastAttempt(
      options: Options, store: RecordStore.Store, request: WriteRequest, first: Reading, second: Reading)
    : (RecordStore.Store, WriteRequest, Reading)
  {
    var admitted := Admitted(options, request);
    if admitted.Accepted? && request.condition.Version? && !first.deadlineExpired && !store.shuttingDown
       && RecordStore.Shown(store, request.key, first.now).None?
    then (RecordStore.CompareAndSwap(store, request.key, request.condition, admitted.entry, first.now).0,
          request.(condition := Absent), second)
    else (store, request, first)
  }

  /** A write asks for a second attempt exactly when there is one. */
  lemma RetryIsWanted(options: Options, store: RecordStore.Store, request: WriteRequest, first: Reading)
    ensures var write := WriteResponse(options, store, request, first.deadlineExpired, first.now).1;
            !WantsRetry(request, write) ==>
            forall second: Reading :: LastAttempt(options, store, request, first, second) == (store, request, first)
  {
    if Admitted(options, request).Accepted? && !store.shuttingDown {
      RecordStore.CompareAndSwapAnswers(
        store, request.key, request.condition, Admitted(options, request).entry, first.now);
    }
  }

  /** The last write of a commit is its last attempt. */
  lemma FinalWriteIsLastAttempt(
      options: Options, store: RecordStore.Store, request: WriteRequest, first: Reading, second: Reading)
    ensures var (before, sent, reading) := LastAttempt(options, store, request, first, second);
            FinalWrite(options, store, request, first, second)
            == WriteResponse(options, before, sent, reading.deadlineExpired, reading.now)
  {
    if Admitted(options, request).Accepted? && !store.shuttingDown {
      RecordStore.CompareAndSwapAnswers(
        store, request.key, request.condition, Admitted(options, request).entry, first.now);
    }
  }

  /** A write whose versioned target was gone becomes, on retry with nothing written in between, an insertion
      of the fetched response, unless the store is full for it. */
  lemma RetryInserts(
      options: Options, store: RecordStore.Store, request: WriteRequest, now: Instant, later: Instant)
    requires WantsRetry(request, WriteResponse(options, store, request, false, now).1)
    requires now <= later
    ensures var after := WriteResponse(options, store, request, false, now).0;
            var retried := WriteResponse(options, after, request.(condition := Absent), false, later).1;
            var entry := Admitted(options, request).entry;
            || retried == Ok(Stored(Inserted(after.nextVersion + 1), Some(CacheRecord(after.nextVersion + 1, entry))))
            || retried == Err(ResourceExhausted)
  {
    var entry := Admitted(options, request).entry;
    if !RecordStore.Writes(store, request.key, request.condition, entry, now) {
      RecordStore.RefusedKeepsRecords(store, request.key, request.condition, entry, now);
    }
    var after := WriteResponse(options, store, request, false, now).0;
    assert request.key !in after.records;
    if RecordStore.Writes(after, request.key, Absent, entry, later) {
      RecordStore.GrantedExtendsRecords(after, request.key, Absent, entry, later);
    } else {
      RecordStore.RefusedKeepsRecords(after, request.key, Absent, entry, later);
    }
  }

  /** `write_response` against the in-memory store. */
  method PerformWrite(
      store: MemoryCacheStore.MemoryCacheStore, options: Options, request: WriteRequest, deadlineExpired: bool,
      now: Instant)
    returns (write: Write)
    requires store.Valid()
    modifies store`records, store`stats, store`nextVersion
    ensures store.Valid()
    ensures (store.Store(), write) == WriteResponse(options, old(store.Store()), request, deadlineExpired, now)
  {
    var admitted := Admitted(options, request);
    if admitted.Rejected? {
      return Ok(NotAdmitted(admitted.rejection));
    }
    var entry := admitted.entry;
    var answer := store.CompareAndSwap(request.key, request.condition, entry, deadlineExpired, now);
    if answer.Err? {
      return Err(answer.error);
    }
    var record := if answer.value.Inserted? || answer.value.Replaced?
      then Some(CacheRecord(answer.value.version, entry)) else None;
    return Ok(Stored(answer.value, record));
  }

  /** The completion a write earns, branch by branch. */
  method Judge(write: Write, now: Instant) returns (outcome: CommitOutcome, completion: LoadCompletion)
    ensures (outcome, completion) == Verdict(write, now)
  {
    match write {
      case Err(_) =>
        outcome, completion := CommitUnavailable, Failed(LoadUnavailable);
      case Ok(NotAdmitted(_)) =>
        outcome, completion := CommitRejected, Miss;
      case Ok(Stored(stored, record)) =>
        if (stored.Inserted? || stored.Replaced?) && record.Some? && record.value.entry.expiresAt > now {
          outcome, completion := CommitStored, Ready(record.value);
        } else if stored.Conflict? {
          outcome, completion := CommitConflict, Miss;
        } else {
          outcome, completion := CommitRejected, Miss;
        }
    }
  }

  method WriteWithRetry(
      store: MemoryCacheStore.MemoryCacheStore, options: Options, request: WriteRequest, first: Reading,
      second: Reading)
    returns (write: Write)
    requires store.Valid()
    modifies store`records, store`stats, store`nextVersion
    ensures store.Valid()
    ensures (store.Store(), write) == FinalWrite(options, old(store.Store()), request, first, second)
  {
    write := PerformWrite(store, options, request, first.deadlineExpired, first.now);
    if WantsRetry(request, write) {
      write := PerformWrite(store, options, request.(condition := Absent), second.deadlineExpired, second.now);
    }
  }

  /** `CacheCommitCandidate::commit` run without interference: it writes, retries a vanished version once, and
      publishes the verdict, judged at an instant of its own, under the lease, whatever branch it takes. */
  method Commit(
      store: MemoryCacheStore.MemoryCacheStore, options: Options, request: WriteRequest, lease: SingleFlight.Ticket,
      first: Reading, second: Reading, judged: Instant)
    returns (outcome: CommitOutcome)
    requires store.Valid()
    modifies store`records, store`stats, store`nextVersion, store`loads
    ensures store.Valid()
    ensures var (after, write) := FinalWrite(options, old(store.Store()), request, first, second);
            var (verdict, completion) := Verdict(write, judged);
            && store.Store() == after
            && store.Table() == SingleFlight.CompleteLoad(old(store.Table()), lease, completion)
            && outcome == if SingleFlight.CanComplete(old(store.Table()), lease) then verdict else CommitUnavailable
    ensures SingleFlight.CanComplete(old(store.Table()), lease) ==>
            var (before, sent, reading) := LastAttempt(options, old(store.Store()), request, first, second);
            exists completion ::
              && Owes(options, before, sent, reading, judged, store.Store(), outcome, completion)
              && store.Table() == SingleFlight.CompleteLoad(old(store.Table()), lease, completion)
  {
    FinalWriteIsLastAttempt(options, store.Store(), request, first, second);
    ghost var (before, sent, reading) := LastAttempt(options, store.Store(), request, first, second);
    VerdictIsOwed(options, before, sent, reading, judged);
    var write := WriteWithRetry(store, options, request, first, second);
    var completion;
    outcome, completion := Judge(write, judged);
    var published := store.CompleteLoad(lease, completion);
    if published.Err? {
      outcome := CommitUnavailable;
    }
  }
}
