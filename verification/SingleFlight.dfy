/** The per-key single-flight protocol of `MemoryCacheStore`: one leader loads, followers wait for its outcome.

    The first half gives each locked section of the store as a function on the load table. The second half
    puts those sections, the tokens handed to callers and the wake-ups that happen outside the lock into one
    transition system, and proves what every interleaving keeps. */
module SingleFlight {
  import opened Basics
  import opened CachePort

  /** Identity of the task a waker would wake; two wakers are the same when each `will_wake` the other's task. */
  type Waker = nat

  datatype Load = Load(
    generation: nat,
    completion: Option<LoadCompletion>,
    followers: nat,
    wakers: seq<Waker>)

  datatype LoadTable = LoadTable(loads: map<CacheKey, Load>, nextGeneration: nat, shuttingDown: bool)

  /** What a lease or a waiter token carries: its key and the generation it was issued for. */
  datatype Ticket = Ticket(key: CacheKey, generation: nat)

  datatype Reservation = Leader(lease: Ticket) | Follower(waiter: Ticket)

  datatype Poll = Pending | Done(completion: LoadCompletion) | PollFailed(error: PortError)

  // ---------------------------------------------------------------- locked sections

  /** True when `complete_load` accepts this ticket: the load is there, of that generation, not yet completed. */
  predicate CanComplete(table: LoadTable, ticket: Ticket) {
    && ticket.key in table.loads
    && table.loads[ticket.key].generation == ticket.generation
    && table.loads[ticket.key].completion.None?
  }

  function CompleteLoad(table: LoadTable, ticket: Ticket, completion: LoadCompletion): (r: LoadTable) {
    if !CanComplete(table, ticket) then table
    else
      var load := table.loads[ticket.key];
      if load.followers == 0 then table.(loads := table.loads - {ticket.key})
      else table.(loads := table.loads[ticket.key := load.(completion := Some(completion), wakers := [])])
  }

  /** The wakers `complete_load` hands back to be woken after the lock is released. */
  function CompletionWakers(table: LoadTable, ticket: Ticket): set<Waker> {
    if CanComplete(table, ticket) then set w | w in table.loads[ticket.key].wakers else {}
  }

  function ReleaseWaiter(table: LoadTable, ticket: Ticket): LoadTable {
    if ticket.key !in table.loads then table
    else
      var load := table.loads[ticket.key];
      if load.generation != ticket.generation || load.followers == 0 then table
      else if load.completion.Some? && load.followers == 1 then table.(loads := table.loads - {ticket.key})
      else table.(loads := table.loads[ticket.key := load.(followers := load.followers - 1)])
  }

  function ReserveLoad(table: LoadTable, key: CacheKey): (r: (LoadTable, Result<Reservation, PortError>)) {
    if table.shuttingDown then (table, Err(Unavailable))
    else if key in table.loads then
      var load := table.loads[key];
      (table.(loads := table.loads[key := load.(followers := load.followers + 1)]),
       Ok(Follower(Ticket(key, load.generation))))
    else
      var generation := table.nextGeneration + 1;
      (table.(loads := table.loads[key := Load(generation, None, 0, [])], nextGeneration := generation),
       Ok(Leader(Ticket(key, generation))))
  }

  function PollLoad(table: LoadTable, ticket: Ticket, deadlineExpired: bool, waker: Waker): (r: (LoadTable, Poll)) {
    if ticket.key !in table.loads || table.loads[ticket.key].generation != ticket.generation then
      (table, PollFailed(ProtocolViolation))
    else
      var load := table.loads[ticket.key];
      if load.completion.Some? then (table, Done(load.completion.value))
      else if deadlineExpired then (table, PollFailed(Timeout))
      else if waker in load.wakers then (table, Pending)
      else (table.(loads := table.loads[ticket.key := load.(wakers := load.wakers + [waker])]), Pending)
  }

  const SHUTDOWN_COMPLETION: LoadCompletion := Failed(Cancelled(Shutdown))

  function ShutdownLoad(load: Load): Load {
    load.(completion := if load.completion.None? then Some(SHUTDOWN_COMPLETION) else load.completion, wakers := [])
  }

  function ShutdownLoads(table: LoadTable): LoadTable {
    table.(loads := map key | key in table.loads && table.loads[key].followers > 0 :: ShutdownLoad(table.loads[key]),
           shuttingDown := true)
  }

  function AllWakers(table: LoadTable): set<Waker> {
    set key, w | key in table.loads && w in table.loads[key].wakers :: w
  }

  // ---------------------------------------------------------------- the protocol

  /** The store together with every token in the hands of callers.

      `issued` lists the keys generations were issued for, generation 1 first. `waiters` maps a token identity to
      its ticket. `parked` holds the waiters whose last poll said pending, with the waker they left. `toWake` holds
      wakers taken out of the table and not yet woken. `history` records the completion of each completed
      generation. */
  datatype System = System(
    table: LoadTable,
    issued: seq<CacheKey>,
    leases: set<Ticket>,
    waiters: map<nat, Ticket>,
    nextWaiter: nat,
    parked: map<nat, Waker>,
    toWake: set<Waker>,
    history: map<nat, LoadCompletion>)

  const INITIAL: System := System(LoadTable(map[], 0, false), [], {}, map[], 0, map[], {}, map[])

  datatype Step =
    | Reserve(key: CacheKey)
    | Publish(lease: Ticket, completion: LoadCompletion)
    | DropLease(lease: Ticket)
    | PollWaiter(id: nat, deadlineExpired: bool, waker: Waker)
    | DropWaiter(id: nat)
    | Wake(waker: Waker)
    | ShutDown

  /** A token can be used only while somebody holds it, and only a pending wake-up can be delivered. */
  predicate Enabled(s: System, step: Step) {
    match step
    case Reserve(_) => true
    case Publish(lease, _) => lease in s.leases
    case DropLease(lease) => lease in s.leases
    case PollWaiter(id, _, _) => id in s.waiters
    case DropWaiter(id) => id in s.waiters
    case Wake(waker) => waker in s.toWake
    case ShutDown => true
  }

  /** Runs `complete_load` for a ticket and queues the wakers it returned. */
  function Complete(s: System, ticket: Ticket, completion: LoadCompletion): System {
    s.(table := CompleteLoad(s.table, ticket, completion),
       toWake := s.toWake + CompletionWakers(s.table, ticket),
       history := if CanComplete(s.table, ticket) then s.history[ticket.generation := completion] else s.history)
  }

  function Next(s: System, step: Step): System
    requires Enabled(s, step)
  {
    match step
    case Reserve(key) =>
      var (table, reservation) := ReserveLoad(s.table, key);
      if reservation.Err? then s
      else if reservation.value.Leader? then
        s.(table := table, issued := s.issued + [key], leases := s.leases + {reservation.value.lease})
      else s.(table := table, waiters := s.waiters[s.nextWaiter := reservation.value.waiter],
              nextWaiter := s.nextWaiter + 1)
    case Publish(lease, completion) =>
      // A refused publication returns before the lease is disarmed; the lease stays live until it is dropped.
      if CanComplete(s.table, lease) then Complete(s, lease, completion).(leases := s.leases - {lease}) else s
    case DropLease(lease) =>
      Complete(s, lease, Failed(Abandoned)).(leases := s.leases - {lease})
    case PollWaiter(id, deadlineExpired, waker) =>
      var (table, poll) := PollLoad(s.table, s.waiters[id], deadlineExpired, waker);
      s.(table := table, parked := if poll.Pending? then s.parked[id := waker] else s.parked - {id})
    case DropWaiter(id) =>
      s.(table := ReleaseWaiter(s.table, s.waiters[id]), waiters := s.waiters - {id}, parked := s.parked - {id})
    case Wake(waker) =>
      s.(toWake := s.toWake - {waker}, parked := map id | id in s.parked && s.parked[id] != waker :: s.parked[id])
    case ShutDown =>
      s.(table := ShutdownLoads(s.table),
         toWake := s.toWake + AllWakers(s.table),
         history := s.history + OpenGenerations(s.table))
  }

  /** The generations `shutdown` completes, each with the shutdown completion. */
  function OpenGenerations(table: LoadTable): map<nat, LoadCompletion> {
    map g | g in OpenGenerationSet(table) :: SHUTDOWN_COMPLETION
  }

  function OpenGenerationSet(table: LoadTable): set<nat> {
    set key | key in table.loads && table.loads[key].completion.None? :: table.loads[key].generation
  }

  /** The live waiters of one ticket. */
  function Holders(waiters: map<nat, Ticket>, ticket: Ticket): set<nat> {
    set id | id in waiters && waiters[id] == ticket
  }

  // ---------------------------------------------------------------- what every state satisfies

  predicate Attached(table: LoadTable, ticket: Ticket) {
    ticket.key in table.loads && table.loads[ticket.key].generation == ticket.generation
  }

  /** The ticket's generation was issued, and issued for the ticket's key. */
  predicate Issued(s: System, ticket: Ticket) {
    1 <= ticket.generation <= |s.issued| && s.issued[ticket.generation - 1] == ticket.key
  }

  /** A load is of an issued generation and counts its live waiters. Open, it has its lease live and no
      completion on record, and the store is not shut down; completed, it agrees with the record and is kept
      only because some waiter is live. */
  ghost predicate LoadOk(s: System, key: CacheKey)
    requires key in s.table.loads
  {
    var load := s.table.loads[key];
    var ticket := Ticket(key, load.generation);
    && Issued(s, ticket)
    && load.followers == |Holders(s.waiters, ticket)|
    && match load.completion
       case None => !s.table.shuttingDown && ticket in s.leases && load.generation !in s.history
       case Some(completion) =>
         load.followers > 0 && load.generation in s.history && s.history[load.generation] == completion
  }

  /** A live lease is of an issued generation; before shutdown its load is there and open. */
  ghost predicate LeaseOk(s: System, lease: Ticket) {
    Issued(s, lease) && (!s.table.shuttingDown ==> CanComplete(s.table, lease))
  }

  /** A live waiter still has its load. */
  ghost predicate WaiterOk(s: System, id: nat)
    requires id in s.waiters
  {
    id < s.nextWaiter && Attached(s.table, s.waiters[id])
  }

  /** No lost wake-up: a parked waiter is live, and its waker is registered in its open load or, once the load
      is completed, taken out to be woken. */
  ghost predicate ParkedOk(s: System, id: nat)
    requires id in s.parked
  {
    && id in s.waiters
    && Attached(s.table, s.waiters[id])
    && var load := s.table.loads[s.waiters[id].key];
       if load.completion.None? then s.parked[id] in load.wakers else s.parked[id] in s.toWake
  }

  /** An issued generation is completed, or its lease is live and the store not shut down. */
  ghost predicate GenerationOk(s: System, g: nat)
    requires 1 <= g <= |s.issued|
  {
    g in s.history || (!s.table.shuttingDown && Ticket(s.issued[g - 1], g) in s.leases)
  }

  ghost predicate Inv(s: System) {
    && s.table.nextGeneration == |s.issued|
    && (forall key | key in s.table.loads :: LoadOk(s, key))
    && (forall lease | lease in s.leases :: LeaseOk(s, lease))
    && (forall id | id in s.waiters :: WaiterOk(s, id))
    && (forall id | id in s.parked :: ParkedOk(s, id))
    && (forall g | g in s.history :: 1 <= g <= |s.issued|)
    && (forall g | 1 <= g <= |s.issued| :: GenerationOk(s, g))
  }

  // ---------------------------------------------------------------- preservation, step by step

  /** Adding one token for a ticket adds one holder there and none elsewhere. */
  lemma HoldersAdd(waiters: map<nat, Ticket>, id: nat, ticket: Ticket, other: Ticket)
    requires id !in waiters
    ensures |Holders(waiters[id := ticket], other)| == |Holders(waiters, other)| + if other == ticket then 1 else 0
  {
    if other == ticket {
      assert Holders(waiters[id := ticket], other) == Holders(waiters, other) + {id};
    } else {
      assert Holders(waiters[id := ticket], other) == Holders(waiters, other);
    }
  }

  /** Dropping one token removes one holder of its ticket and none elsewhere. */
  lemma HoldersRemove(waiters: map<nat, Ticket>, id: nat, other: Ticket)
    requires id in waiters
    ensures |Holders(waiters - {id}, other)| == |Holders(waiters, other)| - if other == waiters[id] then 1 else 0
  {
    if other == waiters[id] {
      assert Holders(waiters, other) == Holders(waiters - {id}, other) + {id};
    } else {
      assert Holders(waiters - {id}, other) == Holders(waiters, other);
    }
  }

  lemma ReserveKeepsWaiter(s: System, key: CacheKey, id: nat)
    requires Inv(s) && id in s.waiters
    ensures WaiterOk(Next(s, Reserve(key)), id)
  {
    assert WaiterOk(s, id);
  }

  lemma ReserveKeepsParked(s: System, key: CacheKey, id: nat)
    requires id in s.waiters && id in s.parked && WaiterOk(s, id) && ParkedOk(s, id)
    ensures ParkedOk(Next(s, Reserve(key)), id)
  {
  }

  lemma FollowKeepsLoad(s: System, key: CacheKey, k: CacheKey)
    requires Inv(s) && key in s.table.loads && !s.table.shuttingDown && k in s.table.loads
    ensures LoadOk(Next(s, Reserve(key)), k)
  {
    assert LoadOk(s, k);
    assert s.nextWaiter in s.waiters ==> WaiterOk(s, s.nextWaiter);
    HoldersAdd(s.waiters, s.nextWaiter, Ticket(key, s.table.loads[key].generation),
               Ticket(k, s.table.loads[k].generation));
  }

  lemma FollowKeepsLease(s: System, key: CacheKey, lease: Ticket)
    requires Inv(s) && key in s.table.loads && !s.table.shuttingDown && lease in s.leases
    ensures LeaseOk(Next(s, Reserve(key)), lease)
  {
    assert LeaseOk(s, lease);
  }

  lemma FollowKeeps(s: System, key: CacheKey)
    requires Inv(s) && key in s.table.loads && !s.table.shuttingDown
    ensures Inv(Next(s, Reserve(key)))
  {
    var s' := Next(s, Reserve(key));
    forall k | k in s'.table.loads ensures LoadOk(s', k) {
      FollowKeepsLoad(s, key, k);
    }
    forall lease | lease in s'.leases ensures LeaseOk(s', lease) {
      FollowKeepsLease(s, key, lease);
    }
    forall id | id in s'.waiters ensures WaiterOk(s', id) {
      if id in s.waiters {
        ReserveKeepsWaiter(s, key, id);
      }
    }
    forall id | id in s'.parked ensures ParkedOk(s', id) {
      assert ParkedOk(s, id);
      ReserveKeepsParked(s, key, id);
    }
    forall g | 1 <= g <= |s'.issued| ensures GenerationOk(s', g) {
      assert GenerationOk(s, g);
    }
  }

  lemma LeadKeepsLoad(s: System, key: CacheKey, k: CacheKey)
    requires Inv(s) && key !in s.table.loads && !s.table.shuttingDown && (k == key || k in s.table.loads)
    ensures LoadOk(Next(s, Reserve(key)), k)
  {
    if k == key {
      var lease := Ticket(key, s.table.nextGeneration + 1);
      forall id | id in s.waiters ensures s.waiters[id] != lease {
        assert WaiterOk(s, id);
      }
      assert Holders(s.waiters, lease) == {};
    } else {
      assert LoadOk(s, k);
    }
  }

  lemma LeadKeeps(s: System, key: CacheKey)
    requires Inv(s) && key !in s.table.loads && !s.table.shuttingDown
    ensures Inv(Next(s, Reserve(key)))
  {
    var s' := Next(s, Reserve(key));
    forall k | k in s'.table.loads ensures LoadOk(s', k) {
      LeadKeepsLoad(s, key, k);
    }
    forall t | t in s'.leases ensures LeaseOk(s', t) {
      assert t in s.leases ==> LeaseOk(s, t);
    }
    forall id | id in s.waiters ensures WaiterOk(s', id) {
      ReserveKeepsWaiter(s, key, id);
    }
    forall id | id in s'.parked ensures ParkedOk(s', id) {
      assert ParkedOk(s, id);
      ReserveKeepsParked(s, key, id);
    }
    forall g | 1 <= g <= |s'.issued| ensures GenerationOk(s', g) {
      assert g <= |s.issued| ==> GenerationOk(s, g);
    }
  }

  /** Completing a load with its lease, or finding it gone after shutdown, keeps the loads of all keys right. */
  lemma CompleteKeepsLoad(s: System, lease: Ticket, completion: LoadCompletion, key: CacheKey)
    requires key in s.table.loads && LoadOk(s, key) && LeaseOk(s, lease) && lease in s.leases
    requires key in CompleteLoad(s.table, lease, completion).loads
    ensures LoadOk(Complete(s, lease, completion).(leases := s.leases - {lease}), key)
  {
  }

  /** A load without followers has no live waiter. */
  lemma NoFollowersNoWaiter(s: System, key: CacheKey, id: nat)
    requires key in s.table.loads && LoadOk(s, key) && s.table.loads[key].followers == 0 && id in s.waiters
    ensures s.waiters[id] != Ticket(key, s.table.loads[key].generation)
  {
    assert id !in Holders(s.waiters, Ticket(key, s.table.loads[key].generation));
  }

  lemma CompleteKeepsWaiter(s: System, lease: Ticket, completion: LoadCompletion, id: nat)
    requires lease in s.leases && id in s.waiters && WaiterOk(s, id) && (id in s.parked ==> ParkedOk(s, id))
    requires lease.key in s.table.loads ==> LoadOk(s, lease.key)
    ensures WaiterOk(Complete(s, lease, completion).(leases := s.leases - {lease}), id)
    ensures id in s.parked ==> ParkedOk(Complete(s, lease, completion).(leases := s.leases - {lease}), id)
  {
    if CanComplete(s.table, lease) && s.table.loads[lease.key].followers == 0 {
      NoFollowersNoWaiter(s, lease.key, id);
    }
  }

  lemma CompleteKeeps(s: System, lease: Ticket, completion: LoadCompletion)
    requires Inv(s) && lease in s.leases
    ensures Inv(Complete(s, lease, completion).(leases := s.leases - {lease}))
  {
    var s' := Complete(s, lease, completion).(leases := s.leases - {lease});
    forall k | k in s'.table.loads ensures LoadOk(s', k) {
      CompleteKeepsLoad(s, lease, completion, k);
    }
    assert LeaseOk(s, lease);
    forall t | t in s'.leases ensures LeaseOk(s', t) {
      assert LeaseOk(s, t);
    }
    forall id | id in s'.waiters ensures WaiterOk(s', id) {
      CompleteKeepsWaiter(s, lease, completion, id);
    }
    forall id | id in s'.parked ensures ParkedOk(s', id) {
      assert ParkedOk(s, id);
      CompleteKeepsWaiter(s, lease, completion, id);
    }
    forall g | 1 <= g <= |s'.issued| ensures GenerationOk(s', g) {
      assert GenerationOk(s, g);
    }
  }

  lemma PollKeepsTokens(s: System, id: nat, deadlineExpired: bool, waker: Waker, other: nat)
    requires Inv(s) && id in s.waiters && other in s.waiters
    ensures var s' := Next(s, PollWaiter(id, deadlineExpired, waker));
            WaiterOk(s', other) && (other in s'.parked ==> ParkedOk(s', other))
  {
    assert WaiterOk(s, id) && WaiterOk(s, other) && (other in s.parked ==> ParkedOk(s, other));
  }

  lemma PollKeepsLoad(s: System, id: nat, deadlineExpired: bool, waker: Waker, key: CacheKey)
    requires id in s.waiters && key in s.table.loads && LoadOk(s, key)
    ensures var s' := Next(s, PollWaiter(id, deadlineExpired, waker));
      key in s'.table.loads ==> LoadOk(s', key)
  {
  }

  lemma PollKeeps(s: System, id: nat, deadlineExpired: bool, waker: Waker)
    requires Inv(s) && id in s.waiters
    ensures Inv(Next(s, PollWaiter(id, deadlineExpired, waker)))
  {
    var s' := Next(s, PollWaiter(id, deadlineExpired, waker));
    forall k | k in s'.table.loads ensures LoadOk(s', k) {
      PollKeepsLoad(s, id, deadlineExpired, waker, k);
    }
    forall t | t in s'.leases ensures LeaseOk(s', t) {
      assert LeaseOk(s, t);
    }
    forall other | other in s'.waiters ensures WaiterOk(s', other) {
      PollKeepsTokens(s, id, deadlineExpired, waker, other);
    }
    forall other | other in s'.parked ensures ParkedOk(s', other) {
      assert other in s.parked ==> ParkedOk(s, other);
      PollKeepsTokens(s, id, deadlineExpired, waker, other);
    }
    forall g | 1 <= g <= |s'.issued| ensures GenerationOk(s', g) {
      assert GenerationOk(s, g);
    }
  }

  lemma DropWaiterKeepsLoad(s: System, id: nat, key: CacheKey)
    requires id in s.waiters && WaiterOk(s, id) && key in s.table.loads && LoadOk(s, key)
    requires key in ReleaseWaiter(s.table, s.waiters[id]).loads
    ensures LoadOk(Next(s, DropWaiter(id)), key)
  {
    HoldersRemove(s.waiters, id, Ticket(key, s.table.loads[key].generation));
  }

  lemma DropWaiterKeepsWaiter(s: System, id: nat, other: nat)
    requires id in s.waiters && other in s.waiters && other != id && WaiterOk(s, id) && WaiterOk(s, other)
    requires s.waiters[id].key in s.table.loads && LoadOk(s, s.waiters[id].key)
    requires other in s.parked ==> ParkedOk(s, other)
    ensures WaiterOk(Next(s, DropWaiter(id)), other)
    ensures other in s.parked ==> ParkedOk(Next(s, DropWaiter(id)), other)
  {
    var ticket := s.waiters[id];
    if s.waiters[other] == ticket {
      HoldersRemove(s.waiters, id, ticket);
      assert other in Holders(s.waiters - {id}, ticket);
    }
  }

  lemma DropWaiterKeeps(s: System, id: nat)
    requires Inv(s) && id in s.waiters
    ensures Inv(Next(s, DropWaiter(id)))
  {
    var s' := Next(s, DropWaiter(id));
    forall k | k in s'.table.loads ensures LoadOk(s', k) {
      DropWaiterKeepsLoad(s, id, k);
    }
    forall t | t in s'.leases ensures LeaseOk(s', t) {
      assert LeaseOk(s, t);
    }
    forall other | other in s'.waiters ensures WaiterOk(s', other) {
      DropWaiterKeepsWaiter(s, id, other);
    }
    forall other | other in s'.parked ensures ParkedOk(s', other) {
      assert ParkedOk(s, other);
      DropWaiterKeepsWaiter(s, id, other);
    }
    forall g | 1 <= g <= |s'.issued| ensures GenerationOk(s', g) {
      assert GenerationOk(s, g);
    }
  }

  lemma WakeKeeps(s: System, waker: Waker)
    requires Inv(s) && waker in s.toWake
    ensures Inv(Next(s, Wake(waker)))
  {
    var s' := Next(s, Wake(waker));
    forall k | k in s'.table.loads ensures LoadOk(s', k) {
      assert LoadOk(s, k);
    }
    forall t | t in s'.leases ensures LeaseOk(s', t) {
      assert LeaseOk(s, t);
    }
    forall other | other in s'.waiters ensures WaiterOk(s', other) {
      assert WaiterOk(s, other);
    }
    forall other | other in s'.parked ensures ParkedOk(s', other) {
      assert ParkedOk(s, other);
    }
    forall g | 1 <= g <= |s'.issued| ensures GenerationOk(s', g) {
      assert GenerationOk(s, g);
    }
  }

  lemma ShutDownKeepsLoad(s: System, key: CacheKey)
    requires Inv(s) && key in ShutdownLoads(s.table).loads
    ensures LoadOk(Next(s, ShutDown), key)
  {
    assert LoadOk(s, key);
    var generation := s.table.loads[key].generation;
    if s.table.loads[key].completion.None? {
      assert generation in OpenGenerationSet(s.table);
    } else {
      HistoryNotOpen(s, generation);
    }
  }

  /** A generation with a completion on record has no open load. */
  lemma HistoryNotOpen(s: System, generation: nat)
    requires Inv(s) && generation in s.history
    ensures generation !in OpenGenerationSet(s.table)
  {
    forall k | k in s.table.loads && s.table.loads[k].completion.None?
      ensures s.table.loads[k].generation != generation
    {
      assert LoadOk(s, k);
    }
  }

  lemma ShutDownKeepsWaiter(s: System, id: nat)
    requires Inv(s) && id in s.waiters
    ensures WaiterOk(Next(s, ShutDown), id)
    ensures id in s.parked ==> ParkedOk(Next(s, ShutDown), id)
  {
    var ticket := s.waiters[id];
    assert WaiterOk(s, id) && (id in s.parked ==> ParkedOk(s, id)) && LoadOk(s, ticket.key);
    assert id in Holders(s.waiters, ticket);
    assert id in s.parked && s.table.loads[ticket.key].completion.None? ==> s.parked[id] in AllWakers(s.table);
  }

  lemma ShutDownKeeps(s: System)
    requires Inv(s)
    ensures Inv(Next(s, ShutDown))
  {
    var s' := Next(s, ShutDown);
    forall k | k in s'.table.loads ensures LoadOk(s', k) {
      ShutDownKeepsLoad(s, k);
    }
    forall t | t in s'.leases ensures LeaseOk(s', t) {
      assert LeaseOk(s, t);
    }
    forall id | id in s'.waiters ensures WaiterOk(s', id) {
      ShutDownKeepsWaiter(s, id);
    }
    forall id | id in s'.parked ensures ParkedOk(s', id) {
      assert ParkedOk(s, id);
      ShutDownKeepsWaiter(s, id);
    }
    forall g | g in s'.history ensures 1 <= g <= |s'.issued| {
      if g in OpenGenerationSet(s.table) {
        var k :| k in s.table.loads && s.table.loads[k].generation == g;
        assert LoadOk(s, k);
      }
    }
    forall g | 1 <= g <= |s'.issued| ensures GenerationOk(s', g) {
      assert GenerationOk(s, g);
      var lease := Ticket(s.issued[g - 1], g);
      assert lease in s.leases ==> LeaseOk(s, lease);
      assert CanComplete(s.table, lease) ==> g in OpenGenerationSet(s.table);
    }
  }

  lemma StepKeeps(s: System, step: Step)
    requires Inv(s) && Enabled(s, step)
    ensures Inv(Next(s, step))
  {
    match step
    case Reserve(key) =>
      if !s.table.shuttingDown {
        if key in s.table.loads { FollowKeeps(s, key); } else { LeadKeeps(s, key); }
      }
    case Publish(lease, completion) => CompleteKeeps(s, lease, completion);
    case DropLease(lease) => CompleteKeeps(s, lease, Failed(Abandoned));
    case PollWaiter(id, deadlineExpired, waker) => PollKeeps(s, id, deadlineExpired, waker);
    case DropWaiter(id) => DropWaiterKeeps(s, id);
    case Wake(waker) => WakeKeeps(s, waker);
    case ShutDown => ShutDownKeeps(s);
  }

  // ---------------------------------------------------------------- theorems over every interleaving

  /** A run of the protocol: it starts empty and takes enabled steps in any order. */
  ghost predicate IsRun(states: seq<System>, steps: seq<Step>) {
    && |states| == |steps| + 1
    && states[0] == INITIAL
    && forall i | 0 <= i < |steps| :: Enabled(states[i], steps[i]) && states[i + 1] == Next(states[i], steps[i])
  }

  lemma {:induction false} RunKeeps(states: seq<System>, steps: seq<Step>, i: nat)
    requires IsRun(states, steps) && i < |states|
    ensures Inv(states[i])
  {
    if i > 0 {
      RunKeeps(states, steps, i - 1);
      StepKeeps(states[i - 1], steps[i - 1]);
    }
  }

  /** In every run, before shutdown an uncompleted load has exactly one live lease, its own. */
  lemma OpenLoadHasOneLease(states: seq<System>, steps: seq<Step>, i: nat, key: CacheKey)
    requires IsRun(states, steps) && i < |states| && !states[i].table.shuttingDown
    requires key in states[i].table.loads && states[i].table.loads[key].completion.None?
    ensures (set t | t in states[i].leases && t.key == key) == {Ticket(key, states[i].table.loads[key].generation)}
  {
    RunKeeps(states, steps, i);
    var s := states[i];
    assert LoadOk(s, key);
    forall t | t in s.leases && t.key == key ensures t == Ticket(key, s.table.loads[key].generation) {
      assert LeaseOk(s, t);
    }
  }

  /** In every run, a reservation of a key whose load is there makes its caller a waiter of that load: one token
      more, of the load's own generation, one follower more, and nothing else changes. */
  lemma PresentLoadIsJoined(states: seq<System>, steps: seq<Step>, i: nat, key: CacheKey)
    requires IsRun(states, steps) && i < |steps| && steps[i] == Reserve(key)
    requires !states[i].table.shuttingDown && key in states[i].table.loads
    ensures var s, t, load := states[i], states[i + 1], states[i].table.loads[key];
            && s.nextWaiter !in s.waiters
            && t.waiters == s.waiters[s.nextWaiter := Ticket(key, load.generation)]
            && t == s.(table := s.table.(loads := s.table.loads[key := load.(followers := load.followers + 1)]),
                       waiters := t.waiters, nextWaiter := s.nextWaiter + 1)
  {
    RunKeeps(states, steps, i);
    assert states[i].nextWaiter in states[i].waiters ==> WaiterOk(states[i], states[i].nextWaiter);
  }

  /** In every run, a reservation of a key without a load makes its caller the leader of a new, open load: one lease
      more, of a generation larger than that of every token, load and completion so far, and nothing else changes. */
  lemma AbsentLoadIsLed(states: seq<System>, steps: seq<Step>, i: nat, key: CacheKey)
    requires IsRun(states, steps) && i < |steps| && steps[i] == Reserve(key)
    requires !states[i].table.shuttingDown && key !in states[i].table.loads
    ensures var s, t, g := states[i], states[i + 1], |states[i].issued| + 1;
            && t.leases == s.leases + {Ticket(key, g)} && Ticket(key, g) !in s.leases
            && t.table.loads == s.table.loads[key := Load(g, None, 0, [])]
            && t == s.(table := t.table, issued := s.issued + [key], leases := t.leases)
            && (forall lease | lease in s.leases :: lease.generation < g)
            && (forall id | id in s.waiters :: s.waiters[id].generation < g)
            && (forall k | k in s.table.loads :: s.table.loads[k].generation < g)
            && (forall h | h in s.history :: h < g)
  {
    RunKeeps(states, steps, i);
    var s := states[i];
    forall lease | lease in s.leases ensures lease.generation <= |s.issued| {
      assert LeaseOk(s, lease);
    }
    forall k | k in s.table.loads ensures s.table.loads[k].generation <= |s.issued| {
      assert LoadOk(s, k);
    }
    forall id | id in s.waiters ensures s.waiters[id].generation <= |s.issued| {
      assert WaiterOk(s, id);
    }
  }

  /** In every run, only shutdown makes the store refuse a reservation, and it always does. */
  lemma ReservationsEndWithShutdown(states: seq<System>, steps: seq<Step>, i: nat, key: CacheKey)
    requires IsRun(states, steps) && i < |steps| && steps[i] == Reserve(key)
    ensures states[i + 1] == states[i] <==> states[i].table.shuttingDown
    ensures states[i].table.shuttingDown <==> exists j: nat | j < i :: steps[j].ShutDown?
  {
    ShutdownStays(states, steps, i);
    if !states[i].table.shuttingDown {
      if key in states[i].table.loads {
        PresentLoadIsJoined(states, steps, i, key);
      } else {
        AbsentLoadIsLed(states, steps, i, key);
      }
    }
  }

  /** The store is shut down from the first shutdown on, and not before. */
  lemma {:induction false} ShutdownStays(states: seq<System>, steps: seq<Step>, i: nat)
    requires IsRun(states, steps) && i < |states|
    ensures states[i].table.shuttingDown <==> exists j: nat | j < i :: steps[j].ShutDown?
  {
    if i > 0 {
      ShutdownStays(states, steps, i - 1);
      ShutdownStep(states[i - 1], steps[i - 1]);
    }
  }

  lemma ShutdownStep(s: System, step: Step)
    requires Enabled(s, step)
    ensures Next(s, step).table.shuttingDown == (s.table.shuttingDown || step.ShutDown?)
  {
  }

  /** In every run a load counts as followers exactly the live waiters of its generation. */
  lemma FollowersAreLiveWaiters(states: seq<System>, steps: seq<Step>, i: nat, key: CacheKey)
    requires IsRun(states, steps) && i < |states| && key in states[i].table.loads
    ensures var s, load := states[i], states[i].table.loads[key];
            load.followers == |set id | id in s.waiters && s.waiters[id] == Ticket(key, load.generation)|
  {
    RunKeeps(states, steps, i);
    var s, load := states[i], states[i].table.loads[key];
    assert LoadOk(s, key);
    assert (set id | id in s.waiters && s.waiters[id] == Ticket(key, load.generation))
           == Holders(s.waiters, Ticket(key, load.generation));
  }

  /** In every run, a live waiter never sees a protocol violation, whoever polls and whenever. */
  lemma LiveWaiterNeverViolates(
      states: seq<System>, steps: seq<Step>, i: nat, id: nat, deadlineExpired: bool, waker: Waker)
    requires IsRun(states, steps) && i < |states| && id in states[i].waiters
    ensures PollLoad(states[i].table, states[i].waiters[id], deadlineExpired, waker).1 != PollFailed(ProtocolViolation)
  {
    RunKeeps(states, steps, i);
    assert WaiterOk(states[i], id);
  }

  /** The ticket a step presents to the store, when it presents one. */
  function PresentedTicket(s: System, step: Step): Option<Ticket>
    requires Enabled(s, step)
  {
    match step
    case Publish(lease, _) => Some(lease)
    case DropLease(lease) => Some(lease)
    case PollWaiter(id, _, _) => Some(s.waiters[id])
    case DropWaiter(id) => Some(s.waiters[id])
    case _ => None
  }

  /** Only tokens of its own generation change a load, apart from a new follower and shutdown: a token of
      another generation, older or newer, leaves it as it is. */
  lemma StaleTokenIsInert(s: System, step: Step, key: CacheKey)
    requires Enabled(s, step) && key in s.table.loads
    requires key !in Next(s, step).table.loads || Next(s, step).table.loads[key] != s.table.loads[key]
    ensures || step == Reserve(key)
            || step.ShutDown?
            || PresentedTicket(s, step) == Some(Ticket(key, s.table.loads[key].generation))
  {
  }

  /** A completion on record is never changed or removed. */
  lemma HistoryOnlyGrows(s: System, step: Step)
    requires Inv(s) && Enabled(s, step)
    ensures forall g | g in s.history ::
              g in Next(s, step).history && Next(s, step).history[g] == s.history[g]
  {
    forall g | g in s.history
      ensures g in Next(s, step).history && Next(s, step).history[g] == s.history[g]
    {
      HistoryNotOpen(s, g);
      if step.Publish? || step.DropLease? {
        assert CanComplete(s.table, step.lease) ==> LoadOk(s, step.lease.key);
      }
    }
  }

  lemma {:induction false} HistoryGrowsAlongRun(states: seq<System>, steps: seq<Step>, i: nat, j: nat, g: nat)
    requires IsRun(states, steps) && i <= j < |states| && g in states[i].history
    ensures g in states[j].history && states[j].history[g] == states[i].history[g]
    decreases j
  {
    if i < j {
      HistoryGrowsAlongRun(states, steps, i, j - 1, g);
      RunKeeps(states, steps, j - 1);
      HistoryOnlyGrows(states[j - 1], steps[j - 1]);
    }
  }

  /** Step `i` of a run completes generation `g`. */
  ghost predicate CompletesAt(states: seq<System>, i: nat, g: nat)
    requires i + 1 < |states|
  {
    g !in states[i].history && g in states[i + 1].history
  }

  /** A generation is completed at most once in a run. */
  lemma CompletedAtMostOnce(states: seq<System>, steps: seq<Step>, i: nat, j: nat, g: nat)
    requires IsRun(states, steps) && i < |steps| && j < |steps|
    requires CompletesAt(states, i, g) && CompletesAt(states, j, g)
    ensures i == j
  {
    if i < j { HistoryGrowsAlongRun(states, steps, i + 1, j, g); }
    if j < i { HistoryGrowsAlongRun(states, steps, j + 1, i, g); }
  }

  /** In every run, a generation whose lease is gone has been completed. */
  lemma EndedLeaseIsCompleted(states: seq<System>, steps: seq<Step>, i: nat, g: nat)
    requires IsRun(states, steps) && i < |states| && 1 <= g <= |states[i].issued|
    requires Ticket(states[i].issued[g - 1], g) !in states[i].leases
    ensures g in states[i].history
  {
    RunKeeps(states, steps, i);
    assert GenerationOk(states[i], g);
  }

  /** What the poll taken at step `i` of a run answered. */
  ghost function PollAt(states: seq<System>, steps: seq<Step>, i: nat): Poll
    requires IsRun(states, steps) && i < |steps| && steps[i].PollWaiter?
  {
    PollLoad(states[i].table, states[i].waiters[steps[i].id], steps[i].deadlineExpired, steps[i].waker).1
  }

  lemma DoneIsOnRecord(s: System, id: nat, deadlineExpired: bool, waker: Waker)
    requires Inv(s) && id in s.waiters
    ensures var poll := PollLoad(s.table, s.waiters[id], deadlineExpired, waker).1;
            var g := s.waiters[id].generation;
            poll.Done? ==> g in s.history && s.history[g] == poll.completion
  {
    assert WaiterOk(s, id) && LoadOk(s, s.waiters[id].key);
  }

  /** In every run, a poll says what is on record: the completion of the waiter's generation, or, while there is none,
      that the deadline has passed or that the waiter has to wait. */
  lemma PollTellsTheRecord(states: seq<System>, steps: seq<Step>, i: nat, id: nat, deadlineExpired: bool, waker: Waker)
    requires IsRun(states, steps) && i < |states| && id in states[i].waiters
    ensures var s, g := states[i], states[i].waiters[id].generation;
            PollLoad(s.table, s.waiters[id], deadlineExpired, waker).1 ==
            if g in s.history then Done(s.history[g]) else if deadlineExpired then PollFailed(Timeout) else Pending
  {
    RunKeeps(states, steps, i);
    var s := states[i];
    assert WaiterOk(s, id) && LoadOk(s, s.waiters[id].key);
  }

  /** What a step puts on record for a generation. */
  predicate Announces(step: Step, g: nat, completion: LoadCompletion) {
    match step
    case Publish(lease, published) => lease.generation == g && completion == published
    case DropLease(lease) => lease.generation == g && completion == Failed(Abandoned)
    case ShutDown => completion == Failed(Cancelled(Shutdown))
    case _ => false
  }

  /** In every run, a completion comes on record only by a publication, which puts there what it published, by the drop
      of the lease or by shutdown. */
  lemma OnlyEndingsAreRecorded(states: seq<System>, steps: seq<Step>, i: nat, g: nat)
    requires IsRun(states, steps) && i < |steps| && CompletesAt(states, i, g)
    ensures Announces(steps[i], g, states[i + 1].history[g])
  {
    EndingRecords(states[i], steps[i], g);
  }

  lemma EndingRecords(s: System, step: Step, g: nat)
    requires Enabled(s, step) && g !in s.history && g in Next(s, step).history
    ensures Announces(step, g, Next(s, step).history[g])
  {
  }

  /** In every run, the publication or drop of a lease whose generation is not completed completes it and uses the lease
      up; a publication after that, which only shutdown can bring about, is refused and changes nothing. */
  lemma EndingsAreRecorded(states: seq<System>, steps: seq<Step>, i: nat)
    requires IsRun(states, steps) && i < |steps| && (steps[i].Publish? || steps[i].DropLease?)
    ensures var s, t, g := states[i], states[i + 1], steps[i].lease.generation;
            && (g in s.history <==> s.table.shuttingDown)
            && (g !in s.history ==> g in t.history && Announces(steps[i], g, t.history[g]))
            && (g !in s.history || steps[i].DropLease? ==> t.leases == s.leases - {steps[i].lease})
            && (g in s.history && steps[i].Publish? ==> t == s)
  {
    RunKeeps(states, steps, i);
    LeaseIsOpenUntilShutdown(states[i], steps[i].lease);
  }

  lemma LeaseIsOpenUntilShutdown(s: System, lease: Ticket)
    requires Inv(s) && lease in s.leases
    ensures lease.generation in s.history <==> s.table.shuttingDown
    ensures CanComplete(s.table, lease) <==> !s.table.shuttingDown
  {
    assert LeaseOk(s, lease) && GenerationOk(s, lease.generation);
    if lease.key in s.table.loads {
      assert LoadOk(s, lease.key);
    }
  }

  /** In every run, shutdown completes every generation issued so far. */
  lemma ShutdownCompletesAll(states: seq<System>, steps: seq<Step>, i: nat, g: nat)
    requires IsRun(states, steps) && i < |states| && states[i].table.shuttingDown && 1 <= g <= |states[i].issued|
    ensures g in states[i].history
  {
    RunKeeps(states, steps, i);
    assert GenerationOk(states[i], g);
  }

  /** All waiters of one generation see one and the same completion, at any two moments of any run. */
  lemma WaitersOfAGenerationAgree(states: seq<System>, steps: seq<Step>, i: nat, j: nat)
    requires IsRun(states, steps) && i <= j < |steps| && steps[i].PollWaiter? && steps[j].PollWaiter?
    requires states[i].waiters[steps[i].id].generation == states[j].waiters[steps[j].id].generation
    requires PollAt(states, steps, i).Done? && PollAt(states, steps, j).Done?
    ensures PollAt(states, steps, i) == PollAt(states, steps, j)
  {
    RunKeeps(states, steps, i);
    RunKeeps(states, steps, j);
    DoneIsOnRecord(states[i], steps[i].id, steps[i].deadlineExpired, steps[i].waker);
    DoneIsOnRecord(states[j], steps[j].id, steps[j].deadlineExpired, steps[j].waker);
    HistoryGrowsAlongRun(states, steps, i, j, states[i].waiters[steps[i].id].generation);
  }

  /** In every run, a step that ends a lease, published or dropped, leaves no waiter of its generation pending. */
  lemma EndedLeaseAnswersItsWaiters(
      states: seq<System>, steps: seq<Step>, i: nat, id: nat, deadlineExpired: bool, waker: Waker)
    requires IsRun(states, steps) && i < |steps| && (steps[i].DropLease? || steps[i].Publish?)
    requires id in states[i].waiters && states[i].waiters[id] == steps[i].lease
    ensures PollLoad(states[i + 1].table, steps[i].lease, deadlineExpired, waker).1.Done?
  {
    RunKeeps(states, steps, i);
    EndingAnswers(states[i], steps[i], id, deadlineExpired, waker);
  }

  lemma EndingAnswers(s: System, step: Step, id: nat, deadlineExpired: bool, waker: Waker)
    requires Inv(s) && Enabled(s, step) && (step.DropLease? || step.Publish?)
    requires id in s.waiters && s.waiters[id] == step.lease
    ensures PollLoad(Next(s, step).table, step.lease, deadlineExpired, waker).1.Done?
  {
    assert WaiterOk(s, id) && LoadOk(s, step.lease.key);
    assert id in Holders(s.waiters, step.lease);
  }

  /** Nobody is stranded in any run: with no lease left and no wake-up on its way, nobody is parked and every live
      waiter is answered at once. */
  lemma NobodyIsStranded(states: seq<System>, steps: seq<Step>, i: nat, id: nat, deadlineExpired: bool, waker: Waker)
    requires IsRun(states, steps) && i < |states| && id in states[i].waiters
    requires states[i].leases == {} && states[i].toWake == {}
    ensures id !in states[i].parked
    ensures PollLoad(states[i].table, states[i].waiters[id], deadlineExpired, waker).1.Done?
  {
    RunKeeps(states, steps, i);
    WithoutLeasesAnswered(states[i], id, deadlineExpired, waker);
  }

  lemma WithoutLeasesAnswered(s: System, id: nat, deadlineExpired: bool, waker: Waker)
    requires Inv(s) && s.leases == {} && s.toWake == {} && id in s.waiters
    ensures id !in s.parked
    ensures PollLoad(s.table, s.waiters[id], deadlineExpired, waker).1.Done?
  {
    assert WaiterOk(s, id) && LoadOk(s, s.waiters[id].key);
    assert id in s.parked ==> ParkedOk(s, id);
  }

  /** Nothing leaks in any run: once every token is gone the load table is empty. */
  lemma NoTokensNoLoads(states: seq<System>, steps: seq<Step>, i: nat)
    requires IsRun(states, steps) && i < |states| && states[i].leases == {} && states[i].waiters == map[]
    ensures states[i].table.loads == map[]
  {
    RunKeeps(states, steps, i);
    var s := states[i];
    forall k | k in s.table.loads ensures LoadOk(s, k) && Holders(s.waiters,
        Ticket(k, s.table.loads[k].generation)) == {} {
    }
  }
}
