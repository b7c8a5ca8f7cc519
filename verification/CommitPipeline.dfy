/** The resolution pipeline that carries leader leases to the cache: publisher, dispatcher and commit worker.

    Every actor runs concurrently with every other and with the users of the cache. A lease is always in the
    hands of exactly one of them; a candidate that a queue refuses, or that dies with an aborted worker, is
    dropped, and dropping a lease abandons its load. */
module CommitPipeline {
  import opened Basics
  import opened CachePort
  import RecordStore
  import SF = SingleFlight
  import CF = CacheFacade

  const INGRESS_CAPACITY: nat := 1024
  const COMMIT_CAPACITY: nat := 1024

  type Lease = SF.Ticket

  datatype Worker =
    | Idle
    | Writing(lease: Lease)
    | Wrote(lease: Lease, write: CF.Write, retryLeft: bool)
    | Gone

  /** `held` are leases still with the request that reserved them, `sending` those inside `try_publish`,
      `dropping` those whose destructor has not reached the store yet. An ingress envelope may carry no
      candidate. `requests` keeps what was handed off with each lease. */
  datatype Pipeline = Pipeline(
    options: CF.Options,
    flight: SF.System,
    store: RecordStore.Store,
    requests: map<Lease, CF.WriteRequest>,
    held: multiset<Lease>,
    sending: multiset<Lease>,
    ingress: seq<Option<Lease>>,
    commits: seq<Lease>,
    worker: Worker,
    dropping: multiset<Lease>,
    accepting: bool,
    cancelled: bool,
    ingressClosed: bool,
    dispatcherGone: bool)

  function Initial(options: CF.Options, maxWeight: Option<nat>): Pipeline {
    Pipeline(options, SF.INITIAL, RecordStore.Empty(maxWeight), map[], multiset{}, multiset{}, [], [], Idle,
             multiset{}, true, false, false, false)
  }

  datatype Move =
    // users of the cache
    | Outside(step: SF.Step)
    | OtherCall(call: RecordStore.Call)
    | Abandon(lease: Lease)
    | HandOff(lease: Lease, request: CF.WriteRequest)
    // publisher
    | Send(lease: Lease)
    | SendEvent
    | Stop
    | Cancel
    // dispatcher
    | CloseIngress
    | Dispatch
    | DispatcherExit
    | DispatcherAbort
    | DropEnvelope
    // commit worker
    | Take
    | Write(deadlineExpired: bool, now: Instant)
    | Retry(deadlineExpired: bool, now: Instant)
    | Publish(now: Instant)
    | WorkerExit
    | WorkerAbort
    | DropCandidate
    // destructors
    | FinishDrop(lease: Lease)

  /** Steps of other users: anything but using up a lease, which only its owner can. */
  predicate OutsideStep(step: SF.Step) {
    !step.Publish? && !step.DropLease?
  }

  predicate Enabled(p: Pipeline, move: Move) {
    match move
    case Outside(step) => OutsideStep(step) && SF.Enabled(p.flight, step)
    case OtherCall(_) => true
    case Abandon(lease) => lease in p.held
    case HandOff(lease, _) => lease in p.held
    case Send(lease) => lease in p.sending
    case SendEvent => true
    case Stop => true
    case Cancel => true
    case CloseIngress => p.cancelled && !p.dispatcherGone
    case Dispatch => p.ingress != [] && !p.dispatcherGone
    case DispatcherExit => p.ingressClosed && p.ingress == [] && !p.dispatcherGone
    case DispatcherAbort => !p.dispatcherGone
    case DropEnvelope => p.dispatcherGone && p.ingress != []
    case Take => p.worker.Idle? && p.commits != []
    case Write(_, _) => p.worker.Writing? && p.worker.lease in p.requests
    case Retry(_, _) =>
      && p.worker.Wrote? && p.worker.retryLeft && p.worker.lease in p.requests
      && CF.WantsRetry(p.requests[p.worker.lease], p.worker.write)
    case Publish(_) =>
      && p.worker.Wrote? && p.worker.lease in p.requests && p.worker.lease in p.flight.leases
      && !(p.worker.retryLeft && CF.WantsRetry(p.requests[p.worker.lease], p.worker.write))
    case WorkerExit => p.worker.Idle? && p.commits == [] && p.dispatcherGone
    case WorkerAbort => !p.worker.Gone?
    case DropCandidate => p.worker.Gone? && p.commits != []
    case FinishDrop(lease) => lease in p.dropping && lease in p.flight.leases
  }

  function InWorker(worker: Worker): multiset<Lease> {
    match worker
    case Writing(lease) => multiset{lease}
    case Wrote(lease, _, _) => multiset{lease}
    case _ => multiset{}
  }

  ghost function NextOutside(p: Pipeline, step: SF.Step): Pipeline
    requires OutsideStep(step) && SF.Enabled(p.flight, step)
  {
    var flight := SF.Next(p.flight, step);
    var gained := flight.leases - p.flight.leases;
    p.(flight := flight,
       held := p.held + multiset(gained),
       store := if step.ShutDown? then RecordStore.ShutDownRecords(p.store) else p.store)
  }

  ghost function DoWrite(p: Pipeline, request: CF.WriteRequest, deadlineExpired: bool, now: Instant,
      retryLeft: bool): Pipeline
    requires p.worker.Writing? || p.worker.Wrote?
  {
    var (store, write) := CF.WriteResponse(p.options, p.store, request, deadlineExpired, now);
    p.(store := store, worker := Wrote(p.worker.lease, write, retryLeft))
  }

  /** The moves of the worker and the destructors. */
  predicate IsLate(move: Move) {
    || move.Take? || move.DropCandidate? || move.Write? || move.Retry? || move.Publish? || move.WorkerAbort?
    || move.FinishDrop?
  }

  /** Moves of users, the publisher and the dispatcher. */
  ghost function NextEarly(p: Pipeline, move: Move): Pipeline
    requires Enabled(p, move) && !IsLate(move)
  {
    match move
    case Outside(step) => NextOutside(p, step)
    case OtherCall(call) => p.(store := RecordStore.StoreStep(p.store, call.operation, call.at).0)
    case Abandon(lease) => p.(held := p.held - multiset{lease}, dropping := p.dropping + multiset{lease})
    case HandOff(lease, request) =>
      // `try_publish` first reads the accepting flag; a stopped publisher drops the envelope.
      if p.accepting then
        p.(held := p.held - multiset{lease}, sending := p.sending + multiset{lease},
           requests := p.requests[lease := request])
      else p.(held := p.held - multiset{lease}, dropping := p.dropping + multiset{lease})
    case Send(lease) =>
      // A closed or full queue gives the envelope back and it is dropped.
      if p.ingressClosed || |p.ingress| >= INGRESS_CAPACITY then
        p.(sending := p.sending - multiset{lease}, dropping := p.dropping + multiset{lease})
      else p.(sending := p.sending - multiset{lease}, ingress := p.ingress + [Some(lease)])
    case SendEvent =>
      if p.ingressClosed || |p.ingress| >= INGRESS_CAPACITY then p else p.(ingress := p.ingress + [None])
    case Stop => p.(accepting := false)
    case Cancel => p.(cancelled := true)
    case CloseIngress => p.(ingressClosed := true)
    case Dispatch =>
      var rest := p.(ingress := p.ingress[1..]);
      match p.ingress[0] {
        case None => rest
        case Some(lease) =>
          if p.worker.Gone? || |p.commits| >= COMMIT_CAPACITY then rest.(dropping := p.dropping + multiset{lease})
          else rest.(commits := p.commits + [lease])
      }
    case DispatcherExit => p.(dispatcherGone := true)
    case DispatcherAbort => p.(ingressClosed := true, dispatcherGone := true)
    case DropEnvelope =>
      p.(ingress := p.ingress[1..],
         dropping := if p.ingress[0].Some? then p.dropping + multiset{p.ingress[0].value} else p.dropping)
    case WorkerExit => p.(worker := Gone)
  }

  ghost function NextLate(p: Pipeline, move: Move): Pipeline
    requires Enabled(p, move) && IsLate(move)
  {
    match move
    case Take => p.(worker := Writing(p.commits[0]), commits := p.commits[1..])
    case Write(deadlineExpired, now) =>
      DoWrite(p, p.requests[p.worker.lease], deadlineExpired, now, true)
    case Retry(deadlineExpired, now) =>
      DoWrite(p, p.requests[p.worker.lease].(condition := Absent), deadlineExpired, now, false)
    case Publish(now) =>
      var lease := p.worker.lease;
      var flight := SF.Next(p.flight, SF.Publish(lease, CF.Verdict(p.worker.write, now).1));
      // A refused publication leaves the lease armed, and it is dropped at the end of `publish_load`.
      p.(flight := flight, worker := Idle,
         dropping := if lease in flight.leases then p.dropping + multiset{lease} else p.dropping)
    case WorkerAbort =>
      p.(dropping := p.dropping + InWorker(p.worker), worker := Gone)
    case DropCandidate => p.(commits := p.commits[1..], dropping := p.dropping + multiset{p.commits[0]})
    case FinishDrop(lease) =>
      p.(flight := SF.Next(p.flight, SF.DropLease(lease)), dropping := p.dropping - multiset{lease})
  }

  ghost function Next(p: Pipeline, move: Move): Pipeline
    requires Enabled(p, move)
  {
    if IsLate(move) then NextLate(p, move) else NextEarly(p, move)
  }

  // ---------------------------------------------------------------- invariant

  /** How often a lease is on its way as a candidate. */
  function InTransit(p: Pipeline, lease: Lease): nat {
    p.sending[lease] + multiset(p.ingress)[Some(lease)] + multiset(p.commits)[lease] + InWorker(p.worker)[lease]
  }

  /** How many owners a lease has. */
  function Owners(p: Pipeline, lease: Lease): nat {
    p.held[lease] + InTransit(p, lease) + p.dropping[lease]
  }

  /** A live lease has exactly one owner, a lease that is used up has none, and a candidate on its way has its
      request. */
  ghost predicate Accounted(p: Pipeline, lease: Lease) {
    && Owners(p, lease) == (if lease in p.flight.leases then 1 else 0)
    && (InTransit(p, lease) > 0 ==> lease in p.requests)
  }

  ghost predicate OwnedOnce(p: Pipeline) {
    forall lease :: Accounted(p, lease)
  }

  ghost predicate QueuesBounded(p: Pipeline) {
    |p.ingress| <= INGRESS_CAPACITY && |p.commits| <= COMMIT_CAPACITY
  }

  ghost predicate Inv(p: Pipeline) {
    && SF.Inv(p.flight)
    && OwnedOnce(p)
    && QueuesBounded(p)
  }

  // ---------------------------------------------------------------- every move keeps it

  /** The single-flight step inside a move, if it makes one. */
  ghost function FlightStep(p: Pipeline, move: Move): Option<SF.Step>
    requires Enabled(p, move)
  {
    match move
    case Outside(step) => Some(step)
    case Publish(now) => Some(SF.Publish(p.worker.lease, CF.Verdict(p.worker.write, now).1))
    case FinishDrop(lease) => Some(SF.DropLease(lease))
    case _ => None
  }

  lemma FlightFollows(p: Pipeline, move: Move)
    requires Enabled(p, move)
    ensures match FlightStep(p, move)
            case None => Next(p, move).flight == p.flight
            case Some(step) => SF.Enabled(p.flight, step) && Next(p, move).flight == SF.Next(p.flight, step)
  {
  }

  lemma FlightKept(p: Pipeline, move: Move)
    requires Inv(p) && Enabled(p, move)
    ensures SF.Inv(Next(p, move).flight)
  {
    FlightFollows(p, move);
    if FlightStep(p, move).Some? {
      SF.StepKeeps(p.flight, FlightStep(p, move).value);
    }
  }

  /** Other users of the cache never make a lease disappear. */
  lemma OutsideOnlyAddsLeases(s: SF.System, step: SF.Step)
    requires OutsideStep(step) && SF.Enabled(s, step)
    ensures s.leases <= SF.Next(s, step).leases
  {
  }

  lemma CountLast<T>(queue: seq<T>, last: T, item: T)
    ensures multiset(queue + [last])[item] == multiset(queue)[item] + if last == item then 1 else 0
  {
    assert multiset(queue + [last]) == multiset(queue) + multiset{last};
  }

  lemma CountHead<T>(queue: seq<T>, item: T)
    requires queue != []
    ensures multiset(queue)[item] == multiset(queue[1..])[item] + if queue[0] == item then 1 else 0
  {
    assert queue == [queue[0]] + queue[1..];
    assert multiset(queue) == multiset{queue[0]} + multiset(queue[1..]);
  }

  /** Reading the accepting flag moves a held lease on its way or to its destructor. */
  lemma HandOffAccounts(p: Pipeline, lease: Lease, request: CF.WriteRequest, other: Lease)
    requires Accounted(p, other) && lease in p.held
    ensures Accounted(Next(p, HandOff(lease, request)), other)
  {
    var q := Next(p, HandOff(lease, request));
    var moved := if lease == other then 1 else 0;
    assert q.held[other] == p.held[other] - moved;
    if p.accepting {
      assert q == p.(held := q.held, sending := q.sending, requests := q.requests);
      assert q.sending[other] == p.sending[other] + moved;
    } else {
      assert q == p.(held := q.held, dropping := q.dropping);
      assert q.dropping[other] == p.dropping[other] + moved;
    }
  }

  lemma SendAccounts(p: Pipeline, lease: Lease, other: Lease)
    requires Accounted(p, other) && lease in p.sending
    ensures Accounted(Next(p, Send(lease)), other)
  {
    if p.ingressClosed || |p.ingress| >= INGRESS_CAPACITY {
      SendRefusedAccounts(p, lease, other);
    } else {
      SendQueuedAccounts(p, lease, other);
    }
  }

  lemma SendRefusedAccounts(p: Pipeline, lease: Lease, other: Lease)
    requires Accounted(p, other) && lease in p.sending
    requires p.ingressClosed || |p.ingress| >= INGRESS_CAPACITY
    ensures Accounted(Next(p, Send(lease)), other)
  {
    var q := Next(p, Send(lease));
    var moved := if lease == other then 1 else 0;
    assert q == p.(sending := q.sending, dropping := q.dropping);
    assert q.sending[other] == p.sending[other] - moved && q.dropping[other] == p.dropping[other] + moved;
  }

  lemma SendQueuedAccounts(p: Pipeline, lease: Lease, other: Lease)
    requires Accounted(p, other) && lease in p.sending
    requires !p.ingressClosed && |p.ingress| < INGRESS_CAPACITY
    ensures Accounted(Next(p, Send(lease)), other)
  {
    CountLast(p.ingress, Some(lease), Some(other));
    var q := Next(p, Send(lease));
    assert q == p.(sending := q.sending, ingress := q.ingress);
    assert q.sending[other] == p.sending[other] - if lease == other then 1 else 0;
  }

  lemma SendEventAccounts(p: Pipeline, other: Lease)
    requires Accounted(p, other)
    ensures Accounted(Next(p, SendEvent), other)
  {
    CountLast(p.ingress, None, Some(other));
  }

  lemma DispatchToWorkerAccounts(p: Pipeline, other: Lease)
    requires Accounted(p, other) && Enabled(p, Dispatch)
    requires p.ingress[0].Some? && !p.worker.Gone? && |p.commits| < COMMIT_CAPACITY
    ensures Accounted(Next(p, Dispatch), other)
  {
    CountHead(p.ingress, Some(other));
    CountLast(p.commits, p.ingress[0].value, other);
    assert Next(p, Dispatch) == p.(ingress := p.ingress[1..], commits := p.commits + [p.ingress[0].value]);
  }

  lemma DispatchAccounts(p: Pipeline, other: Lease)
    requires Accounted(p, other) && Enabled(p, Dispatch)
    ensures Accounted(Next(p, Dispatch), other)
  {
    if p.ingress[0].None? {
      CountHead(p.ingress, Some(other));
      assert Next(p, Dispatch) == p.(ingress := p.ingress[1..]);
    } else if p.worker.Gone? || |p.commits| >= COMMIT_CAPACITY {
      DispatchToNobodyAccounts(p, other);
    } else {
      DispatchToWorkerAccounts(p, other);
    }
  }

  lemma DispatchToNobodyAccounts(p: Pipeline, other: Lease)
    requires Accounted(p, other) && Enabled(p, Dispatch) && p.ingress[0].Some?
    requires p.worker.Gone? || |p.commits| >= COMMIT_CAPACITY
    ensures Accounted(Next(p, Dispatch), other)
  {
    CountHead(p.ingress, Some(other));
    var lease := p.ingress[0].value;
    var q := Next(p, Dispatch);
    assert q == p.(ingress := p.ingress[1..], dropping := p.dropping + multiset{lease});
    assert q.dropping[other] == p.dropping[other] + if lease == other then 1 else 0;
  }

  lemma DropEnvelopeAccounts(p: Pipeline, other: Lease)
    requires Accounted(p, other) && Enabled(p, DropEnvelope)
    ensures Accounted(Next(p, DropEnvelope), other)
  {
    CountHead(p.ingress, Some(other));
    var q := Next(p, DropEnvelope);
    assert q == p.(ingress := q.ingress, dropping := q.dropping);
    assert q.dropping[other] == p.dropping[other] + if p.ingress[0] == Some(other) then 1 else 0;
  }

  lemma TakeAccounts(p: Pipeline, other: Lease)
    requires Accounted(p, other) && Enabled(p, Take)
    ensures Accounted(Next(p, Take), other)
  {
    CountHead(p.commits, other);
    var q := Next(p, Take);
    assert q == p.(worker := Writing(p.commits[0]), commits := p.commits[1..]);
    assert InWorker(p.worker)[other] == 0 && InWorker(q.worker)[other] == if p.commits[0] == other then 1 else 0;
  }

  lemma DropCandidateAccounts(p: Pipeline, other: Lease)
    requires Accounted(p, other) && Enabled(p, DropCandidate)
    ensures Accounted(Next(p, DropCandidate), other)
  {
    CountHead(p.commits, other);
    var q := Next(p, DropCandidate);
    assert q == p.(commits := p.commits[1..], dropping := q.dropping);
    assert q.dropping[other] == p.dropping[other] + if p.commits[0] == other then 1 else 0;
  }

  lemma WriteAccounts(p: Pipeline, move: Move, other: Lease)
    requires Accounted(p, other) && Enabled(p, move) && (move.Write? || move.Retry?)
    ensures Accounted(Next(p, move), other)
  {
    assert InWorker(Next(p, move).worker) == InWorker(p.worker);
  }

  lemma PublishAccounts(p: Pipeline, now: Instant, other: Lease)
    requires Accounted(p, other) && Enabled(p, Publish(now))
    ensures Accounted(Next(p, Publish(now)), other)
  {
    var q := Next(p, Publish(now));
    var lease := p.worker.lease;
    var moved := if lease in q.flight.leases then 1 else 0;
    PublicationKeepsOthers(p.flight, lease, CF.Verdict(p.worker.write, now).1, other);
    assert q == p.(flight := q.flight, worker := Idle, dropping := q.dropping);
    if other == lease {
      assert InWorker(p.worker)[other] == 1 && InWorker(q.worker)[other] == 0;
      assert q.dropping[other] == p.dropping[other] + moved;
    } else {
      assert InWorker(p.worker)[other] == 0 && InWorker(q.worker)[other] == 0;
      assert q.dropping[other] == p.dropping[other];
    }
  }

  /** A publication touches no lease but its own. */
  lemma PublicationKeepsOthers(s: SF.System, lease: Lease, completion: LoadCompletion, other: Lease)
    requires SF.Enabled(s, SF.Publish(lease, completion))
    ensures other != lease ==> (other in SF.Next(s, SF.Publish(lease, completion)).leases <==> other in s.leases)
  {
  }

  lemma AbortAccounts(p: Pipeline, other: Lease)
    requires Accounted(p, other) && Enabled(p, WorkerAbort)
    ensures Accounted(Next(p, WorkerAbort), other)
  {
    var q := Next(p, WorkerAbort);
    assert q.dropping[other] == p.dropping[other] + InWorker(p.worker)[other] && InWorker(q.worker)[other] == 0;
  }

  lemma FinishDropAccounts(p: Pipeline, lease: Lease, other: Lease)
    requires Accounted(p, other) && Enabled(p, FinishDrop(lease))
    ensures Accounted(Next(p, FinishDrop(lease)), other)
  {
  }

  lemma OutsideAccounts(p: Pipeline, step: SF.Step, other: Lease)
    requires Accounted(p, other) && Enabled(p, Outside(step))
    ensures Accounted(Next(p, Outside(step)), other)
  {
    OutsideOnlyAddsLeases(p.flight, step);
  }

  lemma LateMoveAccounts(p: Pipeline, move: Move, lease: Lease)
    requires Accounted(p, lease) && Enabled(p, move) && IsLate(move)
    ensures Accounted(Next(p, move), lease)
  {
    match move {
      case Take => TakeAccounts(p, lease);
      case DropCandidate => DropCandidateAccounts(p, lease);
      case Write(_, _) => WriteAccounts(p, move, lease);
      case Retry(_, _) => WriteAccounts(p, move, lease);
      case Publish(now) => PublishAccounts(p, now, lease);
      case WorkerAbort => AbortAccounts(p, lease);
      case FinishDrop(dropped) => FinishDropAccounts(p, dropped, lease);
    }
  }

  lemma EarlyMoveAccounts(p: Pipeline, move: Move, lease: Lease)
    requires Accounted(p, lease) && Enabled(p, move) && !IsLate(move)
    ensures Accounted(Next(p, move), lease)
  {
    match move {
      case Outside(step) => OutsideAccounts(p, step, lease);
      case Abandon(held) => AbandonAccounts(p, held, lease);
      case HandOff(handed, request) => HandOffAccounts(p, handed, request, lease);
      case Send(sent) => SendAccounts(p, sent, lease);
      case SendEvent => SendEventAccounts(p, lease);
      case Dispatch => DispatchAccounts(p, lease);
      case DropEnvelope => DropEnvelopeAccounts(p, lease);
      case _ => PlainMoveAccounts(p, move, lease);
    }
  }

  lemma AbandonAccounts(p: Pipeline, held: Lease, other: Lease)
    requires Accounted(p, other) && held in p.held
    ensures Accounted(Next(p, Abandon(held)), other)
  {
    var q := Next(p, Abandon(held));
    var moved := if held == other then 1 else 0;
    assert q == p.(held := q.held, dropping := q.dropping);
    assert q.held[other] == p.held[other] - moved && q.dropping[other] == p.dropping[other] + moved;
  }

  /** Moves that touch no lease. */
  predicate IsPlain(move: Move) {
    || move.OtherCall? || move.Stop? || move.Cancel? || move.CloseIngress?
    || move.DispatcherExit? || move.DispatcherAbort? || move.WorkerExit?
  }

  lemma PlainMoveAccounts(p: Pipeline, move: Move, other: Lease)
    requires Accounted(p, other) && Enabled(p, move) && IsPlain(move)
    ensures Accounted(Next(p, move), other)
  {
    var q := Next(p, move);
    assert q.held == p.held && q.sending == p.sending && q.ingress == p.ingress && q.commits == p.commits;
    assert q.dropping == p.dropping && q.flight == p.flight && q.requests == p.requests;
    assert InWorker(q.worker) == InWorker(p.worker);
  }

  lemma OwnedKept(p: Pipeline, move: Move)
    requires OwnedOnce(p) && Enabled(p, move)
    ensures OwnedOnce(Next(p, move))
  {
    forall lease ensures Accounted(Next(p, move), lease) {
      assert Accounted(p, lease);
      if IsLate(move) {
        LateMoveAccounts(p, move, lease);
      } else {
        EarlyMoveAccounts(p, move, lease);
      }
    }
  }

  lemma LateMoveKeepsQueues(p: Pipeline, move: Move)
    requires QueuesBounded(p) && Enabled(p, move) && IsLate(move)
    ensures QueuesBounded(Next(p, move))
  {
    assert Next(p, move).ingress == p.ingress && |Next(p, move).commits| <= |p.commits|;
  }

  lemma DispatchKeepsQueues(p: Pipeline, move: Move)
    requires QueuesBounded(p) && Enabled(p, move) && move.Dispatch?
    ensures QueuesBounded(Next(p, move))
  {
    assert |Next(p, move).ingress| < |p.ingress|;
  }

  lemma EarlyMoveKeepsQueues(p: Pipeline, move: Move)
    requires QueuesBounded(p) && Enabled(p, move) && !IsLate(move) && !move.Dispatch?
    ensures QueuesBounded(Next(p, move))
  {
    assert Next(p, move).commits == p.commits;
  }

  lemma QueuesKept(p: Pipeline, move: Move)
    requires QueuesBounded(p) && Enabled(p, move)
    ensures QueuesBounded(Next(p, move))
  {
    if IsLate(move) {
      LateMoveKeepsQueues(p, move);
    } else if move.Dispatch? {
      DispatchKeepsQueues(p, move);
    } else {
      EarlyMoveKeepsQueues(p, move);
    }
  }

  lemma MoveKeeps(p: Pipeline, move: Move)
    requires Inv(p) && Enabled(p, move)
    ensures Inv(Next(p, move))
  {
    FlightKept(p, move);
    OwnedKept(p, move);
    QueuesKept(p, move);
  }

  // ---------------------------------------------------------------- theorems

  ghost predicate IsRun(states: seq<Pipeline>, moves: seq<Move>) {
    && |states| == |moves| + 1
    && states[0] == Initial(states[0].options, states[0].store.maxWeight)
    && forall i | 0 <= i < |moves| :: Taken(states, moves, i)
  }

  ghost predicate Taken(states: seq<Pipeline>, moves: seq<Move>, i: nat)
    requires |states| == |moves| + 1 && i < |moves|
  {
    Enabled(states[i], moves[i]) && states[i + 1] == Next(states[i], moves[i])
  }

  lemma {:induction false} RunKeeps(states: seq<Pipeline>, moves: seq<Move>, i: nat)
    requires IsRun(states, moves) && i < |states|
    ensures Inv(states[i])
  {
    if i > 0 {
      RunKeeps(states, moves, i - 1);
      assert Taken(states, moves, i - 1);
      MoveKeeps(states[i - 1], moves[i - 1]);
    }
  }

  lemma {:induction false} CompletionsStay(states: seq<Pipeline>, moves: seq<Move>, i: nat, j: nat, g: nat)
    requires IsRun(states, moves) && i <= j < |states| && g in states[i].flight.history
    ensures g in states[j].flight.history && states[j].flight.history[g] == states[i].flight.history[g]
    decreases j
  {
    if i < j {
      CompletionsStay(states, moves, i, j - 1, g);
      RunKeeps(states, moves, j - 1);
      assert Taken(states, moves, j - 1);
      FlightFollows(states[j - 1], moves[j - 1]);
      if FlightStep(states[j - 1], moves[j - 1]).Some? {
        SF.HistoryOnlyGrows(states[j - 1].flight, FlightStep(states[j - 1], moves[j - 1]).value);
      }
    }
  }

  /** Move `i` of a run completes generation `g`. */
  ghost predicate CompletesAt(states: seq<Pipeline>, i: nat, g: nat)
    requires i + 1 < |states|
  {
    g !in states[i].flight.history && g in states[i + 1].flight.history
  }

  lemma CompletedAtMostOnce(states: seq<Pipeline>, moves: seq<Move>, i: nat, j: nat, g: nat)
    requires IsRun(states, moves) && i < |moves| && j < |moves|
    requires CompletesAt(states, i, g) && CompletesAt(states, j, g)
    ensures i == j
  {
    if i < j { CompletionsStay(states, moves, i + 1, j, g); }
    if j < i { CompletionsStay(states, moves, j + 1, i, g); }
  }

  /** Every lease is completed exactly once on every path: the moves of a run complete a generation at most
      once, and once its lease has left every owner it has been completed. */
  lemma LeaseCompletedExactlyOnce(states: seq<Pipeline>, moves: seq<Move>, n: nat, lease: Lease)
    requires IsRun(states, moves) && n < |states| && SF.Issued(states[n].flight, lease)
    requires Owners(states[n], lease) == 0
    ensures lease.generation in states[n].flight.history
    ensures forall i: nat, j: nat | i < |moves| && j < |moves|
              && CompletesAt(states, i, lease.generation) && CompletesAt(states, j, lease.generation) :: i == j
  {
    RunKeeps(states, moves, n);
    assert Accounted(states[n], lease);
    assert SF.GenerationOk(states[n].flight, lease.generation);
    forall i: nat, j: nat | i < |moves| && j < |moves|
      && CompletesAt(states, i, lease.generation) && CompletesAt(states, j, lease.generation)
      ensures i == j
    {
      CompletedAtMostOnce(states, moves, i, j, lease.generation);
    }
  }

  // ---------------------------------------------------------------- what followers are told

  /** Move `i` writes `record` to the store: the worker holding `lease` purges, extends and enforces the capacity
      under the key of the request handed off with that lease. */
  ghost predicate CommittedAt(states: seq<Pipeline>, moves: seq<Move>, i: nat, lease: Lease, record: CacheRecord)
    requires |states| == |moves| + 1 && i < |moves|
  {
    && (moves[i].Write? || moves[i].Retry?)
    && InWorker(states[i].worker) == multiset{lease} && lease in states[i].requests
    && StoresRecord(states[i].store, states[i + 1].store, states[i].requests[lease].key, record, moves[i].now)
  }

  /** From `before` to `after`, `record` becomes the record under `key`, as far as the capacity lets it. */
  ghost predicate StoresRecord(
      before: RecordStore.Store, after: RecordStore.Store, key: CacheKey, record: CacheRecord, now: Instant)
  {
    && record.version == before.nextVersion + 1
    && var purged := RecordStore.Purge(before, key, now);
       after == RecordStore.EnforceCapacity(RecordStore.Extended(purged, key, record.entry))
  }

  /** The record a write reports. */
  function RecordOf(write: CF.Write): Option<CacheRecord> {
    if write.Ok? && write.value.Stored? then write.value.record else None
  }

  /** A write that reports a record has put it in the store. */
  lemma ReportedRecordIsStored(
      options: CF.Options, store: RecordStore.Store, request: CF.WriteRequest, deadlineExpired: bool, now: Instant)
    requires RecordOf(CF.WriteResponse(options, store, request, deadlineExpired, now).1).Some?
    ensures var (after, write) := CF.WriteResponse(options, store, request, deadlineExpired, now);
            StoresRecord(store, after, request.key, RecordOf(write).value, now)
  {
    var entry := CF.Admitted(options, request).entry;
    if RecordStore.Writes(store, request.key, request.condition, entry, now) {
      RecordStore.GrantedExtendsRecords(store, request.key, request.condition, entry, now);
    } else if !store.shuttingDown {
      RecordStore.RefusedKeepsRecords(store, request.key, request.condition, entry, now);
    }
  }

  lemma WriteIsCommitted(states: seq<Pipeline>, moves: seq<Move>, i: nat)
    requires IsRun(states, moves) && i < |moves| && (moves[i].Write? || moves[i].Retry?)
    requires states[i + 1].worker.Wrote? && RecordOf(states[i + 1].worker.write).Some?
    ensures CommittedAt(states, moves, i, states[i + 1].worker.lease, RecordOf(states[i + 1].worker.write).value)
  {
    assert Taken(states, moves, i);
    WriteStores(states[i], moves[i], states[i + 1]);
  }

  lemma WriteStores(p: Pipeline, move: Move, q: Pipeline)
    requires Enabled(p, move) && (move.Write? || move.Retry?) && q == Next(p, move)
    requires q.worker.Wrote? && RecordOf(q.worker.write).Some?
    ensures InWorker(p.worker) == multiset{q.worker.lease} && q.worker.lease in p.requests
    ensures StoresRecord(p.store, q.store, p.requests[q.worker.lease].key, RecordOf(q.worker.write).value, move.now)
  {
    var request := p.requests[p.worker.lease];
    var sent := if move.Write? then request else request.(condition := Absent);
    ReportedRecordIsStored(p.options, p.store, sent, move.deadlineExpired, move.now);
  }

  /** Only a write makes the worker hold an answer. */
  lemma AnswerStays(states: seq<Pipeline>, moves: seq<Move>, k: nat)
    requires IsRun(states, moves) && k < |moves| && !moves[k].Write? && !moves[k].Retry?
    requires states[k + 1].worker.Wrote?
    ensures states[k].worker == states[k + 1].worker
  {
    assert Taken(states, moves, k);
    OnlyWritesAnswer(states[k], moves[k]);
  }

  lemma OnlyWritesAnswer(p: Pipeline, move: Move)
    requires Enabled(p, move) && !move.Write? && !move.Retry?
    ensures Next(p, move).worker.Wrote? ==> Next(p, move).worker == p.worker
  {
  }

  /** The record the worker is about to announce was stored by an earlier move of the run. */
  lemma {:induction false} AnswerWasCommitted(states: seq<Pipeline>, moves: seq<Move>, n: nat) returns (i: nat)
    requires IsRun(states, moves) && n < |states|
    requires states[n].worker.Wrote? && RecordOf(states[n].worker.write).Some?
    ensures i < n && CommittedAt(states, moves, i, states[n].worker.lease, RecordOf(states[n].worker.write).value)
  {
    i := n - 1;
    if moves[i].Write? || moves[i].Retry? {
      WriteIsCommitted(states, moves, i);
    } else {
      AnswerStays(states, moves, i);
      i := AnswerWasCommitted(states, moves, i);
    }
  }

  // ---------------------------------------------------------------- what a lease is given up for

  /** The occasions on which a move gives a lease up without an answer: its holder abandons it; it is handed off to a
      publisher that has stopped; its queue is closed or full; the worker is gone or its queue is full; the queue it
      waits in, or the worker that holds it, is abandoned; or the store has shut down before it was announced. */
  predicate GivenUp(p: Pipeline, move: Move, lease: Lease) {
    match move
    case Abandon(given) => given == lease
    case HandOff(given, _) => given == lease && !p.accepting
    case Send(given) => given == lease && (p.ingressClosed || |p.ingress| >= INGRESS_CAPACITY)
    case Dispatch =>
      p.ingress != [] && p.ingress[0] == Some(lease) && (p.worker.Gone? || |p.commits| >= COMMIT_CAPACITY)
    case DropEnvelope => p.dispatcherGone && p.ingress != [] && p.ingress[0] == Some(lease)
    case DropCandidate => p.worker.Gone? && p.commits != [] && p.commits[0] == lease
    case WorkerAbort => lease in InWorker(p.worker)
    case Publish(_) => p.worker.Wrote? && p.worker.lease == lease && p.flight.table.shuttingDown
    case _ => false
  }

  lemma QueueMoveGivesUp(p: Pipeline, move: Move, lease: Lease)
    requires Enabled(p, move) && (move.Send? || move.Dispatch? || move.DropEnvelope?)
    ensures NextEarly(p, move).dropping[lease] > p.dropping[lease] ==> GivenUp(p, move, lease)
  {
  }

  lemma OtherEarlyMoveGivesUp(p: Pipeline, move: Move, lease: Lease)
    requires Enabled(p, move) && !IsLate(move) && !move.Send? && !move.Dispatch? && !move.DropEnvelope?
    ensures NextEarly(p, move).dropping[lease] > p.dropping[lease] ==> GivenUp(p, move, lease)
  {
    var dropping := NextEarly(p, move).dropping;
    assert !move.Abandon? && !move.HandOff? ==> dropping == p.dropping;
  }

  lemma LateMoveGivesUp(p: Pipeline, move: Move, lease: Lease)
    requires SF.Inv(p.flight) && Enabled(p, move) && IsLate(move)
    ensures NextLate(p, move).dropping[lease] > p.dropping[lease] ==> GivenUp(p, move, lease)
  {
    if move.Publish? {
      SF.LeaseIsOpenUntilShutdown(p.flight, p.worker.lease);
    }
  }

  /** In every run, a lease is given up only on those occasions; so while the queues have room and nobody stops, every
      lease that is handed off reaches the worker. */
  lemma GivenUpOnlyWithReason(states: seq<Pipeline>, moves: seq<Move>, k: nat, lease: Lease)
    requires IsRun(states, moves) && k < |moves| && states[k + 1].dropping[lease] > states[k].dropping[lease]
    ensures GivenUp(states[k], moves[k], lease)
  {
    RunKeeps(states, moves, k);
    assert Taken(states, moves, k);
    if IsLate(moves[k]) {
      LateMoveGivesUp(states[k], moves[k], lease);
    } else if moves[k].Send? || moves[k].Dispatch? || moves[k].DropEnvelope? {
      QueueMoveGivesUp(states[k], moves[k], lease);
    } else {
      OtherEarlyMoveGivesUp(states[k], moves[k], lease);
    }
  }

  // ---------------------------------------------------------------- what a write earns

  /** Move `i` is the write for `lease` that the worker holds the answer `write` of. */
  ghost predicate WrittenAt(states: seq<Pipeline>, moves: seq<Move>, i: nat, lease: Lease, write: CF.Write)
    requires |states| == |moves| + 1 && i < |moves|
  {
    && (moves[i].Write? || moves[i].Retry?)
    && InWorker(states[i].worker) == multiset{lease} && lease in states[i].requests
    && (states[i + 1].store, write) == CF.WriteResponse(
         states[i].options, states[i].store, Attempt(states[i].requests[lease], moves[i]), moves[i].deadlineExpired,
         moves[i].now)
  }

  /** What a write asks for: the request as handed off, and on retry an insertion. */
  function Attempt(request: CF.WriteRequest, move: Move): CF.WriteRequest {
    if move.Retry? then request.(condition := Absent) else request
  }

  lemma WriteIsAttempt(p: Pipeline, move: Move, q: Pipeline)
    requires Enabled(p, move) && (move.Write? || move.Retry?) && q == Next(p, move)
    ensures q.worker.Wrote? && InWorker(p.worker) == multiset{q.worker.lease} && q.worker.lease in p.requests
    ensures q.worker.retryLeft == move.Write? && q.requests == p.requests
    ensures (q.store, q.worker.write) == CF.WriteResponse(
              p.options, p.store, Attempt(p.requests[q.worker.lease], move), move.deadlineExpired, move.now)
  {
  }

  lemma {:induction false} AnswerWasWritten(states: seq<Pipeline>, moves: seq<Move>, n: nat) returns (i: nat)
    requires IsRun(states, moves) && n < |states| && states[n].worker.Wrote?
    ensures i < n && WrittenAt(states, moves, i, states[n].worker.lease, states[n].worker.write)
    ensures states[n].worker.retryLeft == moves[i].Write?
    ensures var lease := states[n].worker.lease;
            lease in states[n].requests && states[n].requests[lease] == states[i].requests[lease]
  {
    i := n - 1;
    if moves[i].Write? || moves[i].Retry? {
      WriteTaken(states, moves, i);
    } else {
      AnswerStays(states, moves, i);
      i := AnswerWasWritten(states, moves, i);
      WorkerRequestStays(states, moves, n - 1);
    }
  }

  /** The request of the lease in the worker's hands stays on file as it is. */
  lemma WorkerRequestStays(states: seq<Pipeline>, moves: seq<Move>, k: nat)
    requires IsRun(states, moves) && k < |moves| && states[k].worker.Wrote?
    requires states[k].worker.lease in states[k].requests
    ensures var lease := states[k].worker.lease;
            lease in states[k + 1].requests && states[k + 1].requests[lease] == states[k].requests[lease]
  {
    RunKeeps(states, moves, k);
    assert Taken(states, moves, k);
    WorkerLeaseIsNotHeld(states[k]);
    KeepsRequest(states[k], moves[k], states[k].worker.lease);
  }

  lemma WorkerLeaseIsNotHeld(p: Pipeline)
    requires OwnedOnce(p) && p.worker.Wrote?
    ensures p.worker.lease !in p.held
  {
    assert Accounted(p, p.worker.lease);
    assert InWorker(p.worker)[p.worker.lease] == 1;
  }

  lemma KeepsRequest(p: Pipeline, move: Move, lease: Lease)
    requires Enabled(p, move) && lease in p.requests && lease !in p.held
    ensures lease in Next(p, move).requests && Next(p, move).requests[lease] == p.requests[lease]
  {
    if IsLate(move) {
      LateMoveKeepsRequest(p, move, lease);
    }
  }

  lemma LateMoveKeepsRequest(p: Pipeline, move: Move, lease: Lease)
    requires Enabled(p, move) && IsLate(move) && lease in p.requests
    ensures lease in NextLate(p, move).requests && NextLate(p, move).requests[lease] == p.requests[lease]
  {
  }

  lemma WriteTaken(states: seq<Pipeline>, moves: seq<Move>, i: nat)
    requires IsRun(states, moves) && i < |moves| && (moves[i].Write? || moves[i].Retry?)
    ensures states[i + 1].worker.Wrote?
    ensures WrittenAt(states, moves, i, states[i + 1].worker.lease, states[i + 1].worker.write)
    ensures states[i + 1].worker.retryLeft == moves[i].Write? && states[i + 1].requests == states[i].requests
  {
    assert Taken(states, moves, i);
    WriteIsAttempt(states[i], moves[i], states[i + 1]);
  }

  /** In every run, what the worker announces for a lease is owed to its last write for that lease: everybody who waits
      gets the record it put into the store, if that has not expired by then, and a miss or a failure exactly in the
      other cases. It is not announced before a replacement that found nothing shown was tried again as an insertion. */
  lemma AnnouncementIsOwed(states: seq<Pipeline>, moves: seq<Move>, n: nat)
    returns (i: nat, outcome: CF.CommitOutcome)
    requires IsRun(states, moves) && n < |moves| && moves[n].Publish?
    ensures i < n && (moves[i].Write? || moves[i].Retry?) && states[n].worker.Wrote?
    ensures var lease := states[n].worker.lease;
            && InWorker(states[i].worker) == multiset{lease} && lease in states[i].requests
            && (!states[n].flight.table.shuttingDown ==>
                && lease.generation !in states[n].flight.history && lease.generation in states[n + 1].flight.history
                && CF.Owes(
                     states[i].options, states[i].store, Attempt(states[i].requests[lease], moves[i]),
                     CF.Reading(moves[i].deadlineExpired, moves[i].now), moves[n].now, states[i + 1].store, outcome,
                     states[n + 1].flight.history[lease.generation]))
            && (forall second: CF.Reading | moves[i].Write? ::
                var request, first := states[i].requests[lease], CF.Reading(moves[i].deadlineExpired, moves[i].now);
                CF.LastAttempt(states[i].options, states[i].store, request, first, second)
                == (states[i].store, request, first))
  {
    RunKeeps(states, moves, n);
    var p, q := states[n], states[n + 1];
    PublishAnnounces(states, moves, n);
    i := AnswerWasWritten(states, moves, n);
    var lease := p.worker.lease;
    var sent := Attempt(states[i].requests[lease], moves[i]);
    var reading := CF.Reading(moves[i].deadlineExpired, moves[i].now);
    CF.VerdictIsOwed(states[i].options, states[i].store, sent, reading, moves[n].now);
    outcome := CF.Verdict(p.worker.write, moves[n].now).0;
    PublishSpentRetry(states, moves, n);
    if moves[i].Write? {
      CF.RetryIsWanted(states[i].options, states[i].store, sent, reading);
    }
  }

  lemma PublishSpentRetry(states: seq<Pipeline>, moves: seq<Move>, n: nat)
    requires IsRun(states, moves) && n < |moves| && moves[n].Publish?
    ensures var p := states[n];
            && p.worker.Wrote? && p.worker.lease in p.requests
            && !(p.worker.retryLeft && CF.WantsRetry(p.requests[p.worker.lease], p.worker.write))
  {
    assert Taken(states, moves, n);
  }

  lemma PublishAnnounces(states: seq<Pipeline>, moves: seq<Move>, n: nat)
    requires IsRun(states, moves) && n < |moves| && moves[n].Publish? && SF.Inv(states[n].flight)
    ensures states[n].worker.Wrote?
    ensures var g := states[n].worker.lease.generation;
            !states[n].flight.table.shuttingDown ==>
              && g !in states[n].flight.history && g in states[n + 1].flight.history
              && states[n + 1].flight.history[g] == CF.Verdict(states[n].worker.write, moves[n].now).1
  {
    assert Taken(states, moves, n);
    SF.LeaseIsOpenUntilShutdown(states[n].flight, states[n].worker.lease);
  }

  /** What a single-flight step can add to the history. */
  lemma NewCompletion(s: SF.System, step: SF.Step, g: nat)
    requires SF.Enabled(s, step) && g in SF.Next(s, step).history && g !in s.history
    ensures var completion := SF.Next(s, step).history[g];
            completion.Failed? || (step.Publish? && completion == step.completion && step.lease.generation == g)
  {
  }

  lemma ReadyIsAnnounced(p: Pipeline, move: Move, g: nat)
    requires Enabled(p, move) && g !in p.flight.history
    requires g in Next(p, move).flight.history && Next(p, move).flight.history[g].Ready?
    ensures p.worker.Wrote? && p.worker.lease.generation == g
    ensures RecordOf(p.worker.write) == Some(Next(p, move).flight.history[g].record)
  {
    FlightFollows(p, move);
    NewCompletion(p.flight, FlightStep(p, move).value, g);
  }

  /** Every ready completion on record names a record that an earlier move stored for that generation's lease. */
  lemma {:induction false} ReadyWasCommitted(states: seq<Pipeline>, moves: seq<Move>, n: nat, g: nat)
    returns (i: nat, lease: Lease)
    requires IsRun(states, moves) && n < |states|
    requires g in states[n].flight.history && states[n].flight.history[g].Ready?
    ensures i < n && lease.generation == g
    ensures CommittedAt(states, moves, i, lease, states[n].flight.history[g].record)
  {
    assert Taken(states, moves, n - 1);
    if g in states[n - 1].flight.history {
      CompletionsStay(states, moves, n - 1, n, g);
      i, lease := ReadyWasCommitted(states, moves, n - 1, g);
    } else {
      ReadyIsAnnounced(states[n - 1], moves[n - 1], g);
      i := AnswerWasCommitted(states, moves, n - 1);
      lease := states[n - 1].worker.lease;
    }
  }

  lemma RequestStays(states: seq<Pipeline>, moves: seq<Move>, k: nat, lease: Lease)
    requires IsRun(states, moves) && k < |moves| && lease in states[k + 1].requests
    ensures || moves[k] == HandOff(lease, states[k + 1].requests[lease])
            || (lease in states[k].requests && states[k].requests[lease] == states[k + 1].requests[lease])
  {
    assert Taken(states, moves, k);
    OnlyHandOffFiles(states[k], moves[k], lease);
  }

  lemma OnlyHandOffFiles(p: Pipeline, move: Move, lease: Lease)
    requires Enabled(p, move) && lease in Next(p, move).requests
    ensures || move == HandOff(lease, Next(p, move).requests[lease])
            || (lease in p.requests && p.requests[lease] == Next(p, move).requests[lease])
  {
    if IsLate(move) {
      LateMoveFilesNothing(p, move, lease);
    }
  }

  lemma LateMoveFilesNothing(p: Pipeline, move: Move, lease: Lease)
    requires Enabled(p, move) && IsLate(move) && lease in NextLate(p, move).requests
    ensures lease in p.requests && p.requests[lease] == NextLate(p, move).requests[lease]
  {
  }

  /** A request on file was handed off with its lease. */
  lemma {:induction false} RequestWasHandedOff(states: seq<Pipeline>, moves: seq<Move>, n: nat, lease: Lease)
    returns (h: nat)
    requires IsRun(states, moves) && n < |states| && lease in states[n].requests
    ensures h < n && moves[h] == HandOff(lease, states[n].requests[lease])
  {
    h := n - 1;
    RequestStays(states, moves, h, lease);
    if moves[h] != HandOff(lease, states[n].requests[lease]) {
      h := RequestWasHandedOff(states, moves, h, lease);
    }
  }

  /** A ticket that was issued stays issued. */
  lemma IssueStays(s: SF.System, step: SF.Step, ticket: Lease)
    requires SF.Enabled(s, step) && SF.Issued(s, ticket)
    ensures SF.Issued(SF.Next(s, step), ticket)
  {
  }

  lemma {:induction false} IssuesStay(states: seq<Pipeline>, moves: seq<Move>, i: nat, j: nat, ticket: Lease)
    requires IsRun(states, moves) && i <= j < |states| && SF.Issued(states[i].flight, ticket)
    ensures SF.Issued(states[j].flight, ticket)
    decreases j
  {
    if i < j {
      IssuesStay(states, moves, i, j - 1, ticket);
      assert Taken(states, moves, j - 1);
      FlightFollows(states[j - 1], moves[j - 1]);
      if FlightStep(states[j - 1], moves[j - 1]).Some? {
        IssueStays(states[j - 1].flight, FlightStep(states[j - 1], moves[j - 1]).value, ticket);
      }
    }
  }

  /** The lease a worker held is the one the followers of its generation wait on. */
  lemma WorkerLeaseIsFollowed(states: seq<Pipeline>, moves: seq<Move>, i: nat, n: nat, owner: Lease, id: nat)
    requires IsRun(states, moves) && i <= n < |states| && InWorker(states[i].worker) == multiset{owner}
    requires id in states[n].flight.waiters && states[n].flight.waiters[id].generation == owner.generation
    ensures states[n].flight.waiters[id] == owner
  {
    RunKeeps(states, moves, i);
    RunKeeps(states, moves, n);
    assert Accounted(states[i], owner);
    assert SF.LeaseOk(states[i].flight, owner);
    IssuesStay(states, moves, i, n, owner);
    var ticket := states[n].flight.waiters[id];
    assert SF.WaiterOk(states[n].flight, id) && SF.LoadOk(states[n].flight, ticket.key);
  }

  /** What a poll answers. */
  function Answer(p: Pipeline, id: nat, deadlineExpired: bool, waker: SF.Waker): SF.Poll
    requires id in p.flight.waiters
  {
    SF.PollLoad(p.flight.table, p.flight.waiters[id], deadlineExpired, waker).1
  }

  /** In every run, a follower that is told ready gets a record that an earlier compare-and-swap stored, for the lease
      the follower waits on and under the key of the request handed off with it. */
  lemma ReadyRecordsWereWritten(
      states: seq<Pipeline>, moves: seq<Move>, n: nat, id: nat, deadlineExpired: bool, waker: SF.Waker)
    returns (h: nat, i: nat)
    requires IsRun(states, moves) && n < |states| && id in states[n].flight.waiters
    requires Answer(states[n], id, deadlineExpired, waker).Done?
    requires Answer(states[n], id, deadlineExpired, waker).completion.Ready?
    ensures var lease := states[n].flight.waiters[id];
            var record := Answer(states[n], id, deadlineExpired, waker).completion.record;
            && h < i < n && moves[h].HandOff? && moves[h].lease == lease
            && CommittedAt(states, moves, i, lease, record)
            && StoresRecord(states[i].store, states[i + 1].store, moves[h].request.key, record, moves[i].now)
  {
    var lease := states[n].flight.waiters[id];
    RunKeeps(states, moves, n);
    SF.DoneIsOnRecord(states[n].flight, id, deadlineExpired, waker);
    var owner;
    i, owner := ReadyWasCommitted(states, moves, n, lease.generation);
    WorkerLeaseIsFollowed(states, moves, i, n, owner, id);
    h := RequestWasHandedOff(states, moves, i, lease);
  }

  /** So where every lease is handed off with a request for its own key, a follower is given a record of its key. */
  lemma FollowersGetTheirOwnKey(
      states: seq<Pipeline>, moves: seq<Move>, n: nat, id: nat, deadlineExpired: bool, waker: SF.Waker)
    returns (i: nat)
    requires IsRun(states, moves) && n < |states| && id in states[n].flight.waiters
    requires forall k | 0 <= k < |moves| && moves[k].HandOff? :: moves[k].request.key == moves[k].lease.key
    requires Answer(states[n], id, deadlineExpired, waker).Done?
    requires Answer(states[n], id, deadlineExpired, waker).completion.Ready?
    ensures i < n && (moves[i].Write? || moves[i].Retry?)
    ensures StoresRecord(states[i].store, states[i + 1].store, states[n].flight.waiters[id].key,
                         Answer(states[n], id, deadlineExpired, waker).completion.record, moves[i].now)
  {
    var h;
    h, i := ReadyRecordsWereWritten(states, moves, n, id, deadlineExpired, waker);
  }

  /** Leases the pipeline still has to finish. */
  ghost predicate Busy(p: Pipeline) {
    p.sending != multiset{} || p.ingress != [] || p.commits != [] || p.worker.Writing? || p.worker.Wrote?
      || p.dropping != multiset{}
  }

  /** The moves by which the pipeline works off what it holds. */
  predicate IsWork(move: Move) {
    || move.Send? || move.Dispatch? || move.DropEnvelope? || move.Take? || move.DropCandidate?
    || move.Write? || move.Retry? || move.Publish? || move.FinishDrop?
  }

  function WorkerEffort(worker: Worker): nat {
    match worker
    case Writing(_) => 4
    case Wrote(_, _, retryLeft) => if retryLeft then 3 else 2
    case _ => 0
  }

  /** An upper bound on the work moves left. */
  function Effort(p: Pipeline): nat {
    7 * |p.sending| + 6 * |p.ingress| + 5 * |p.commits| + WorkerEffort(p.worker) + |p.dropping|
  }

  lemma SendWorkEnds(p: Pipeline, move: Move)
    requires Enabled(p, move) && move.Send?
    ensures Effort(Next(p, move)) < Effort(p)
  {
  }

  lemma IngressWorkEnds(p: Pipeline, move: Move)
    requires Enabled(p, move) && (move.Dispatch? || move.DropEnvelope?)
    ensures Effort(Next(p, move)) < Effort(p)
  {
    var q := Next(p, move);
    assert |q.ingress| == |p.ingress| - 1 && q.sending == p.sending && q.worker == p.worker;
    assert |q.commits| + |q.dropping| <= |p.commits| + |p.dropping| + 1;
    assert |p.commits| <= |q.commits| && |p.dropping| <= |q.dropping|;
  }

  lemma CommitWorkEnds(p: Pipeline, move: Move)
    requires Enabled(p, move) && (move.Take? || move.DropCandidate? || move.Write? || move.Retry?)
    ensures Effort(Next(p, move)) < Effort(p)
  {
  }

  /** Work strictly decreases the effort left, so it ends. */
  lemma WorkEnds(p: Pipeline, move: Move)
    requires Enabled(p, move) && IsWork(move)
    ensures Effort(Next(p, move)) < Effort(p)
  {
    if move.Send? {
      SendWorkEnds(p, move);
    } else if move.Dispatch? || move.DropEnvelope? {
      IngressWorkEnds(p, move);
    } else if !move.Publish? && !move.FinishDrop? {
      CommitWorkEnds(p, move);
    }
  }

  lemma WorkerCanWork(p: Pipeline)
    requires Inv(p) && (p.worker.Writing? || p.worker.Wrote?)
    ensures Enabled(p, Write(false, 0)) || Enabled(p, Retry(false, 0)) || Enabled(p, Publish(0))
  {
    assert Accounted(p, p.worker.lease);
    assert InWorker(p.worker)[p.worker.lease] == 1;
  }

  /** A busy pipeline can always do some work, so followers always finish. */
  lemma BusyCanWork(p: Pipeline) returns (move: Move)
    requires Inv(p) && Busy(p)
    ensures Enabled(p, move) && IsWork(move)
  {
    if p.worker.Writing? || p.worker.Wrote? {
      WorkerCanWork(p);
      move := if p.worker.Writing? then Write(false, 0)
        else if Enabled(p, Publish(0)) then Publish(0) else Retry(false, 0);
    } else if p.commits != [] {
      move := if p.worker.Gone? then DropCandidate else Take;
    } else if p.ingress != [] {
      move := if p.dispatcherGone then DropEnvelope else Dispatch;
    } else if p.sending != multiset{} {
      var lease :| lease in p.sending;
      move := Send(lease);
    } else {
      var lease :| lease in p.dropping;
      assert Accounted(p, lease);
      move := FinishDrop(lease);
    }
  }

  /** From move `from` on, a run only works. */
  ghost predicate OnlyWorks(moves: seq<Move>, from: nat) {
    forall k | from <= k < |moves| :: IsWork(moves[k])
  }

  /** No work is left to do. */
  ghost predicate WorkedOff(p: Pipeline) {
    forall move | IsWork(move) :: !Enabled(p, move)
  }

  lemma {:induction false} WorkIsBounded(states: seq<Pipeline>, moves: seq<Move>, from: nat, k: nat)
    requires IsRun(states, moves) && from <= k < |states| && OnlyWorks(moves, from)
    ensures (k - from) + Effort(states[k]) <= Effort(states[from])
    decreases k
  {
    if from < k {
      WorkIsBounded(states, moves, from, k - 1);
      assert Taken(states, moves, k - 1) && IsWork(moves[k - 1]);
      WorkEnds(states[k - 1], moves[k - 1]);
    }
  }

  /** The pipeline drains from every reachable state: work moves alone end after at most `Effort` of them, and when
      none is possible any more nothing is left in the pipeline. */
  lemma WorkDrains(states: seq<Pipeline>, moves: seq<Move>, from: nat)
    requires IsRun(states, moves) && from < |states| && OnlyWorks(moves, from)
    ensures |moves| - from <= Effort(states[from])
    ensures WorkedOff(states[|moves|]) ==> !Busy(states[|moves|])
  {
    WorkIsBounded(states, moves, from, |moves|);
    RunKeeps(states, moves, |moves|);
    if Busy(states[|moves|]) {
      var move := BusyCanWork(states[|moves|]);
    }
  }

  /** Followers always finish: once the work is done, no request holds a lease and the wake-ups are delivered, every
      follower is answered. */
  lemma FollowersAlwaysFinish(
      states: seq<Pipeline>, moves: seq<Move>, from: nat, id: nat, deadlineExpired: bool, waker: SF.Waker)
    requires IsRun(states, moves) && from < |states| && OnlyWorks(moves, from) && WorkedOff(states[|moves|])
    requires states[|moves|].held == multiset{} && states[|moves|].flight.toWake == {}
    requires id in states[|moves|].flight.waiters
    ensures |moves| - from <= Effort(states[from])
    ensures id !in states[|moves|].flight.parked
    ensures Answer(states[|moves|], id, deadlineExpired, waker).Done?
  {
    WorkDrains(states, moves, from);
    IdlePipelineStrandsNobody(states, moves, |moves|, states[|moves|], id, deadlineExpired, waker);
  }

  /** In every run, once the pipeline is idle and no request holds a lease, no follower is left waiting. */
  lemma IdlePipelineStrandsNobody(
      states: seq<Pipeline>, moves: seq<Move>, n: nat, p: Pipeline, id: nat, deadlineExpired: bool, waker: SF.Waker)
    requires IsRun(states, moves) && n < |states| && p == states[n]
    requires !Busy(p) && p.held == multiset{} && p.flight.toWake == {} && id in p.flight.waiters
    ensures id !in p.flight.parked
    ensures Answer(p, id, deadlineExpired, waker).Done?
  {
    RunKeeps(states, moves, n);
    forall lease ensures lease !in p.flight.leases {
      assert Accounted(p, lease);
    }
    assert p.flight.leases == {};
    SF.WithoutLeasesAnswered(p.flight, id, deadlineExpired, waker);
  }
}
