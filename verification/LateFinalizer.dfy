/** The bounded finalizer of background cache writes: submission under a lock, task guards, and shutdown.

    A submission holds the task lock from its shutdown check to the spawn. A guard gives its slot back in two steps:
    first the active counter, then the permit. */
module LateFinalizer {
  import opened Basics
  import opened Counting

  datatype Phase = Acquired | Live | Draining | Done

  /** A submission that holds the task lock: past the shutdown check, or holding a permit for the task of a number. */
  datatype Submission = Checked | Holding(task: nat)

  /** One shutdown call: the tasks it took, and whether it has returned. */
  datatype Call = Call(taken: set<nat>, returned: bool)

  datatype System = System(
    capacity: nat,
    active: int,
    tasks: seq<Phase>,
    submission: Option<Submission>,
    current: set<nat>,
    cancelled: bool,
    closed: bool,
    calls: seq<Call>)

  datatype Step =
    | BeginSubmit
    | AcquirePermit
    | Spawn
    | TaskEnds(task: nat)
    | ReleasePermit(task: nat)
    | Cancel
    | ClosePermits
    | TakeTasks
    | Return(call: nat)

  predicate IsLive(phase: Phase) {
    phase.Live?
  }

  predicate HoldsPermit(phase: Phase) {
    !phase.Done?
  }

  function PermitsTaken(s: System): nat {
    Count(s.tasks, HoldsPermit)
  }

  predicate Enabled(s: System, step: Step) {
    match step
    case BeginSubmit => s.submission.None?
    case AcquirePermit => s.submission == Some(Checked)
    case Spawn => s.submission.Some? && s.submission.value.Holding? && s.submission.value.task < |s.tasks|
    case TaskEnds(task) => task < |s.tasks| && s.tasks[task].Live?
    case ReleasePermit(task) => task < |s.tasks| && s.tasks[task].Draining?
    case Cancel => true
    case ClosePermits => s.cancelled
    case TakeTasks => s.cancelled && s.submission.None?
    case Return(call) =>
      && call < |s.calls| && !s.calls[call].returned
      && forall task | task in s.calls[call].taken && task < |s.tasks| :: s.tasks[task].Done?
  }

  /** A submission is refused when shutdown began or no permit is left; the caller learns which, nothing changes. */
  function Next(s: System, step: Step): System
    requires Enabled(s, step)
  {
    match step
    case BeginSubmit => if s.cancelled then s else s.(submission := Some(Checked))
    case AcquirePermit =>
      if s.closed || PermitsTaken(s) >= s.capacity then s.(submission := None)
      else s.(tasks := s.tasks + [Acquired], submission := Some(Holding(|s.tasks|)))
    case Spawn =>
      var task := s.submission.value.task;
      s.(active := s.active + 1, tasks := s.tasks[task := Live], submission := None, current := s.current + {task})
    case TaskEnds(task) => s.(active := s.active - 1, tasks := s.tasks[task := Draining])
    case ReleasePermit(task) => s.(tasks := s.tasks[task := Done])
    case Cancel => s.(cancelled := true)
    case ClosePermits => s.(closed := true)
    case TakeTasks => s.(current := {}, calls := s.calls + [Call(s.current, false)])
    case Return(call) => s.(calls := s.calls[call := s.calls[call].(returned := true)])
  }

  // ---------------------------------------------------------------- invariant

  /** A task that was spawned belongs to the task set until the first shutdown call takes it. */
  predicate TaskOk(s: System, task: nat)
    requires task < |s.tasks|
  {
    && (s.tasks[task].Acquired? ==> s.submission == Some(Holding(task)))
    && (s.tasks[task].Live? || s.tasks[task].Draining? ==>
        if s.calls == [] then task in s.current else task in s.calls[0].taken)
    && (s.calls != [] && s.calls[0].returned ==> s.tasks[task].Done?)
  }

  ghost predicate Inv(s: System) {
    && s.active == Count(s.tasks, IsLive)
    && PermitsTaken(s) <= s.capacity
    && (s.closed || s.calls != [] ==> s.cancelled)
    && (s.calls != [] ==> s.submission.None? && s.current == {})
    && (s.submission.Some? && s.submission.value.Holding? ==>
        s.submission.value.task < |s.tasks| && s.tasks[s.submission.value.task].Acquired?)
    && (forall task: nat | task < |s.tasks| :: TaskOk(s, task))
  }

  lemma CountsKept(s: System, step: Step)
    requires Inv(s) && Enabled(s, step)
    ensures Next(s, step).active == Count(Next(s, step).tasks, IsLive)
    ensures PermitsTaken(Next(s, step)) <= s.capacity
  {
    match step {
      case AcquirePermit =>
        CountAppend(s.tasks, Acquired, IsLive);
        CountAppend(s.tasks, Acquired, HoldsPermit);
      case Spawn =>
        CountUpdate(s.tasks, s.submission.value.task, Live, IsLive);
        CountUpdate(s.tasks, s.submission.value.task, Live, HoldsPermit);
      case TaskEnds(task) =>
        CountUpdate(s.tasks, task, Draining, IsLive);
        CountUpdate(s.tasks, task, Draining, HoldsPermit);
      case ReleasePermit(task) =>
        CountUpdate(s.tasks, task, Done, IsLive);
        CountUpdate(s.tasks, task, Done, HoldsPermit);
      case _ =>
    }
  }

  lemma TaskKept(s: System, step: Step, task: nat)
    requires Inv(s) && Enabled(s, step) && task < |Next(s, step).tasks|
    ensures TaskOk(Next(s, step), task)
  {
    if task < |s.tasks| {
      assert TaskOk(s, task);
    }
  }

  lemma StepKeeps(s: System, step: Step)
    requires Inv(s) && Enabled(s, step)
    ensures Inv(Next(s, step))
  {
    CountsKept(s, step);
    forall task: nat | task < |Next(s, step).tasks|
      ensures TaskOk(Next(s, step), task)
    {
      TaskKept(s, step, task);
    }
  }

  // ---------------------------------------------------------------- runs

  ghost predicate TakenAt(states: seq<System>, steps: seq<Step>, k: nat)
    requires |states| == |steps| + 1 && k < |steps|
  {
    Enabled(states[k], steps[k]) && states[k + 1] == Next(states[k], steps[k])
  }

  ghost predicate IsRun(states: seq<System>, steps: seq<Step>) {
    && |states| == |steps| + 1
    && states[0] == System(states[0].capacity, 0, [], None, {}, false, false, [])
    && (forall k: nat | k < |steps| :: TakenAt(states, steps, k))
  }

  lemma {:induction false} RunKeeps(states: seq<System>, steps: seq<Step>, k: nat)
    requires IsRun(states, steps) && k < |states|
    ensures Inv(states[k])
  {
    if k > 0 {
      RunKeeps(states, steps, k - 1);
      assert TakenAt(states, steps, k - 1);
      StepKeeps(states[k - 1], steps[k - 1]);
    }
  }

  /** The active counter is the number of live guards, and never exceeds the capacity. */
  lemma ActiveCountsLiveGuards(states: seq<System>, steps: seq<Step>, k: nat)
    requires IsRun(states, steps) && k < |states|
    ensures states[k].active == Count(states[k].tasks, IsLive) <= states[k].capacity
  {
    RunKeeps(states, steps, k);
    CountImplies(states[k].tasks, IsLive, HoldsPermit);
  }

  /** Once a shutdown call has taken the task set, no submission succeeds. */
  lemma NoSubmissionAfterTakeover(states: seq<System>, steps: seq<Step>, k: nat)
    requires IsRun(states, steps) && k < |steps| && states[k].calls != []
    ensures steps[k] != Spawn && states[k + 1].current == {}
  {
    RunKeeps(states, steps, k);
    RunKeeps(states, steps, k + 1);
    assert TakenAt(states, steps, k);
  }

  /** When the shutdown call that took the tasks has returned, no task is active. */
  lemma NothingActiveAfterShutdown(states: seq<System>, steps: seq<Step>, k: nat)
    requires IsRun(states, steps) && k < |states| && states[k].calls != [] && states[k].calls[0].returned
    ensures states[k].active == 0 && PermitsTaken(states[k]) == 0
  {
    RunKeeps(states, steps, k);
    forall task: nat | task < |states[k].tasks|
      ensures states[k].tasks[task].Done?
    {
      assert TaskOk(states[k], task);
    }
    CountNone(states[k].tasks, IsLive);
    CountNone(states[k].tasks, HoldsPermit);
  }

  /** In every run, a submission past the shutdown check gets its permit exactly when shutdown has not closed the
      permits and fewer than the capacity are out; with it, the task that is spawned is live and belongs to the task
      set. */
  lemma SubmissionSucceedsWhileThereIsRoom(states: seq<System>, steps: seq<Step>, k: nat)
    requires IsRun(states, steps) && k < |steps|
    ensures steps[k].BeginSubmit? ==> (states[k + 1].submission == Some(Checked) <==> !states[k].cancelled)
    ensures steps[k].AcquirePermit? ==>
      var s, t := states[k], states[k + 1];
      if !s.closed && Count(s.tasks, HoldsPermit) < s.capacity
      then t.submission == Some(Holding(|s.tasks|)) && t.tasks == s.tasks + [Acquired]
      else t.submission == None && t.tasks == s.tasks
    ensures steps[k].Spawn? ==>
      var s, t := states[k], states[k + 1];
      && t.submission == None && t.active == s.active + 1
      && exists task: nat | task < |s.tasks| :: t.tasks == s.tasks[task := Live] && t.current == s.current + {task}
  {
    RunKeeps(states, steps, k);
    assert TakenAt(states, steps, k);
    if steps[k].Spawn? {
      var task := states[k].submission.value.task;
      assert states[k + 1].tasks == states[k].tasks[task := Live] && task < |states[k].tasks|;
    }
  }

  /** In every run, a shutdown call takes the whole task set, returns only when all it took is done, and from the first
      cancellation on submissions are refused. */
  lemma ShutdownWaitsForItsTasks(states: seq<System>, steps: seq<Step>, k: nat)
    requires IsRun(states, steps) && k < |steps|
    ensures steps[k].TakeTasks? ==>
      states[k + 1].calls == states[k].calls + [Call(states[k].current, false)] && states[k + 1].current == {}
    ensures steps[k].Return? ==>
      && steps[k].call < |states[k].calls|
      && forall task | task in states[k].calls[steps[k].call].taken && task < |states[k].tasks| ::
           states[k].tasks[task].Done?
    ensures states[k].cancelled ==> states[k + 1].cancelled
  {
    assert TakenAt(states, steps, k);
  }
}
