/** Admission of background refreshes: a lock-free counter with a limit, leases, and permits that can be cloned but
    consumed only once. */
module RefreshAdmission {
  import opened Counting

  /** All clones of one permit. They share the lease, if the lookup got one, and the consumed flag. */
  datatype Permit = Permit(admitted: bool, clones: nat, consumed: bool, winners: nat)

  /** `attempts` holds, for each thread in the acquire loop, the counter value it will compare with. */
  datatype System = System(limit: nat, inFlight: int, attempts: map<nat, int>, permits: seq<Permit>)

  datatype Step =
    | Load(thread: nat)
    | Exchange(thread: nat)
    | Retry(thread: nat)
    | GiveUp(thread: nat)
    | Clone(permit: nat)
    | DropClone(permit: nat)
    | TryConsume(permit: nat)

  predicate HoldsLease(permit: Permit) {
    permit.admitted && permit.clones > 0
  }

  predicate LiveAt(s: System, permit: nat) {
    permit < |s.permits| && s.permits[permit].clones > 0
  }

  /** A retry covers both a value changed by another thread and a spurious failure of the weak exchange. */
  predicate Enabled(s: System, step: Step) {
    match step
    case Load(thread) => thread !in s.attempts
    case Exchange(thread) => thread in s.attempts && s.attempts[thread] < s.limit && s.attempts[thread] == s.inFlight
    case Retry(thread) => thread in s.attempts && s.attempts[thread] < s.limit
    case GiveUp(thread) => thread in s.attempts && s.attempts[thread] >= s.limit
    case Clone(permit) => LiveAt(s, permit)
    case DropClone(permit) => LiveAt(s, permit)
    case TryConsume(permit) => LiveAt(s, permit)
  }

  function Next(s: System, step: Step): System
    requires Enabled(s, step)
  {
    match step
    case Load(thread) => s.(attempts := s.attempts[thread := s.inFlight])
    case Exchange(thread) =>
      s.(inFlight := s.inFlight + 1, attempts := s.attempts - {thread},
         permits := s.permits + [Permit(true, 1, false, 0)])
    case Retry(thread) => s.(attempts := s.attempts[thread := s.inFlight])
    case GiveUp(thread) => s.(attempts := s.attempts - {thread}, permits := s.permits + [Permit(false, 1, false, 0)])
    case Clone(i) => s.(permits := s.permits[i := s.permits[i].(clones := s.permits[i].clones + 1)])
    case DropClone(i) =>
      var left := s.permits[i].clones - 1;
      s.(permits := s.permits[i := s.permits[i].(clones := left)],
         inFlight := if left == 0 && s.permits[i].admitted then s.inFlight - 1 else s.inFlight)
    case TryConsume(i) =>
      if s.permits[i].admitted && !s.permits[i].consumed
      then s.(permits := s.permits[i := s.permits[i].(consumed := true, winners := s.permits[i].winners + 1)])
      else s
  }

  predicate PermitOk(permit: Permit) {
    permit.winners == (if permit.consumed then 1 else 0) && (permit.consumed ==> permit.admitted)
  }

  ghost predicate Inv(s: System) {
    && s.inFlight == Count(s.permits, HoldsLease) <= s.limit
    && (forall i | 0 <= i < |s.permits| :: PermitOk(s.permits[i]))
  }

  lemma StepKeeps(s: System, step: Step)
    requires Inv(s) && Enabled(s, step)
    ensures Inv(Next(s, step))
  {
    match step {
      case Exchange(_) => CountAppend(s.permits, Permit(true, 1, false, 0), HoldsLease);
      case GiveUp(_) => CountAppend(s.permits, Permit(false, 1, false, 0), HoldsLease);
      case Clone(i) => CountUpdate(s.permits, i, Next(s, step).permits[i], HoldsLease);
      case DropClone(i) => CountUpdate(s.permits, i, Next(s, step).permits[i], HoldsLease);
      case TryConsume(i) => CountUpdate(s.permits, i, Next(s, step).permits[i], HoldsLease);
      case _ =>
    }
  }

  ghost predicate TakenAt(states: seq<System>, steps: seq<Step>, k: nat)
    requires |states| == |steps| + 1 && k < |steps|
  {
    Enabled(states[k], steps[k]) && states[k + 1] == Next(states[k], steps[k])
  }

  ghost predicate IsRun(states: seq<System>, steps: seq<Step>) {
    && |states| == |steps| + 1
    && states[0] == System(states[0].limit, 0, map[], [])
    && (forall k: nat | k < |steps| :: TakenAt(states, steps, k))
  }

  lemma {:induction false} RunKeeps(states: seq<System>, steps: seq<Step>, k: nat)
    requires IsRun(states, steps) && k < |states|
    ensures Inv(states[k]) && states[k].limit == states[0].limit
  {
    if k > 0 {
      RunKeeps(states, steps, k - 1);
      assert TakenAt(states, steps, k - 1);
      StepKeeps(states[k - 1], steps[k - 1]);
    }
  }

  /** At every moment the counter is the number of live leases and within the limit. */
  lemma CounterIsLiveLeases(states: seq<System>, steps: seq<Step>, k: nat)
    requires IsRun(states, steps) && k < |states|
    ensures states[k].inFlight == Count(states[k].permits, HoldsLease) <= states[0].limit
  {
    RunKeeps(states, steps, k);
  }

  /** All clones of a permit together win the right to refresh at most once, and only if it was admitted. */
  lemma ConsumedAtMostOnce(states: seq<System>, steps: seq<Step>, k: nat, i: nat)
    requires IsRun(states, steps) && k < |states| && i < |states[k].permits|
    ensures states[k].permits[i].winners <= 1
    ensures states[k].permits[i].winners == 1 ==> states[k].permits[i].admitted
  {
    RunKeeps(states, steps, k);
    assert PermitOk(states[k].permits[i]);
  }

  /** When every permit is dropped, the counter is back at zero. */
  lemma AllDroppedMeansZero(states: seq<System>, steps: seq<Step>, k: nat)
    requires IsRun(states, steps) && k < |states|
    requires forall i | 0 <= i < |states[k].permits| :: states[k].permits[i].clones == 0
    ensures states[k].inFlight == 0
  {
    RunKeeps(states, steps, k);
    CountNone(states[k].permits, HoldsLease);
  }

  /** In every run, a thread in the acquire loop is turned away exactly when the counter it read had reached the limit;
      below it, it takes a slot if the counter still has that value, and may always read again. */
  lemma AttemptDecides(states: seq<System>, steps: seq<Step>, k: nat, thread: nat)
    requires IsRun(states, steps) && k < |states| && thread in states[k].attempts
    ensures var s := states[k];
      var read := s.attempts[thread];
      && (Enabled(s, GiveUp(thread)) <==> read >= states[0].limit)
      && (Enabled(s, Retry(thread)) <==> read < states[0].limit)
      && (Enabled(s, Exchange(thread)) <==> read < states[0].limit && read == Count(s.permits, HoldsLease))
  {
    RunKeeps(states, steps, k);
  }

  /** In every run, a thread that takes a slot holds an admitted permit and one that is turned away a permit that is
      not; both leave the loop. */
  lemma PermitIsHandedOut(states: seq<System>, steps: seq<Step>, k: nat)
    requires IsRun(states, steps) && k < |steps| && (steps[k].Exchange? || steps[k].GiveUp?)
    ensures states[k + 1].permits == states[k].permits + [Permit(steps[k].Exchange?, 1, false, 0)]
    ensures steps[k].thread !in states[k + 1].attempts
    ensures states[k + 1].inFlight == states[k].inFlight + if steps[k].Exchange? then 1 else 0
  {
    assert TakenAt(states, steps, k);
  }

  /** In every run, the first clone that asks for an admitted permit wins it, whoever asks later, and nobody wins one
      that was not admitted. */
  lemma AdmittedIsConsumed(states: seq<System>, steps: seq<Step>, k: nat, i: nat)
    requires IsRun(states, steps) && k < |steps| && steps[k] == TryConsume(i)
    ensures i < |states[k].permits| && i < |states[k + 1].permits|
    ensures states[k + 1].permits[i].winners == if states[k].permits[i].admitted then 1 else 0
  {
    RunKeeps(states, steps, k);
    assert TakenAt(states, steps, k);
    assert PermitOk(states[k].permits[i]);
  }
}
