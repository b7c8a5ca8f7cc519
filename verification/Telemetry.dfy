/** The bounded telemetry queue: enqueueing with priority, and a serialized flush that may fail and be retried. */
module Telemetry {
  import opened Basics

  datatype Level = Trace | Debug | Info | Warn | Error

  datatype Item = Log(level: Level, body: nat) | Metric(body: nat) | Health(body: nat)

  predicate LowPriority(item: Item) {
    item.Log? && item.level in {Trace, Debug, Info}
  }

  /** The most verbose level a filter lets through; zero lets no log through. */
  function Verbosity(level: Level): nat {
    match level
    case Error => 1
    case Warn => 2
    case Info => 3
    case Debug => 4
    case Trace => 5
  }

  predicate MatchesFilter(item: Item, filter: nat) {
    item.Log? ==> Verbosity(item.level) <= filter
  }

  datatype EnqueueError = Unavailable | ResourceExhausted

  /** The state behind the writer's lock; the flush lock lets at most one item be in flight. */
  datatype State = State(
    capacity: nat,
    queue: seq<Item>,
    inFlight: nat,
    filter: nat,
    closed: bool,
    emitted: U64,
    droppedLowPriority: U64,
    failed: U64)

  /** The first low-priority item, or the length of the queue. */
  function FirstLow(queue: seq<Item>): (index: nat)
    ensures index <= |queue| && (index < |queue| ==> LowPriority(queue[index]))
    ensures forall i | 0 <= i < index :: !LowPriority(queue[i])
  {
    if queue == [] || LowPriority(queue[0]) then 0 else 1 + FirstLow(queue[1..])
  }

  function Without(queue: seq<Item>, index: nat): seq<Item>
    requires index < |queue|
  {
    queue[..index] + queue[index + 1..]
  }

  /** `enqueue` */
  function Enqueue(s: State, item: Item): (State, Result<(), EnqueueError>) {
    if s.closed then (s, Err(Unavailable))
    else if !MatchesFilter(item, s.filter) then (s, Ok(()))
    else if |s.queue| + s.inFlight < s.capacity then (s.(queue := s.queue + [item]), Ok(()))
    else if LowPriority(item) then (s.(droppedLowPriority := SaturatingAdd(s.droppedLowPriority, 1)), Ok(()))
    else if FirstLow(s.queue) < |s.queue| then
      (s.(queue := Without(s.queue, FirstLow(s.queue)) + [item],
          droppedLowPriority := SaturatingAdd(s.droppedLowPriority, 1)), Ok(()))
    else (s, Err(ResourceExhausted))
  }

  /** Taking the next item of a batch. */
  function Pop(s: State): State
    requires s.queue != []
  {
    s.(queue := s.queue[1..], inFlight := s.inFlight + 1)
  }

  /** The item in flight was written. */
  function Emitted(s: State): State
    requires s.inFlight > 0
  {
    s.(inFlight := s.inFlight - 1, emitted := SaturatingAdd(s.emitted, 1))
  }

  /** The item in flight was refused and goes back to the front. */
  function Returned(s: State, item: Item): State
    requires s.inFlight > 0
  {
    s.(inFlight := s.inFlight - 1, failed := SaturatingAdd(s.failed, 1), queue := [item] + s.queue)
  }

  class TelemetryWriter {
    const capacity: nat
    var queue: seq<Item>
    var inFlight: nat
    var filter: nat
    var closed: bool
    var emitted: U64
    var droppedLowPriority: U64
    var failed: U64

    function Value(): State
      reads this
    {
      State(capacity, queue, inFlight, filter, closed, emitted, droppedLowPriority, failed)
    }

    constructor (capacity: nat, filter: nat)
      ensures Value() == State(capacity, [], 0, filter, false, 0, 0, 0)
    {
      this.capacity, this.filter := capacity, filter;
      queue, inFlight, closed, emitted, droppedLowPriority, failed := [], 0, false, 0, 0, 0;
    }

    method EnqueueItem(item: Item) returns (result: Result<(), EnqueueError>)
      modifies this
      ensures (Value(), result) == Enqueue(old(Value()), item)
    {
      if closed {
        return Err(Unavailable);
      }
      if !MatchesFilter(item, filter) {
        return Ok(());
      }
      if |queue| + inFlight < capacity {
        queue := queue + [item];
        return Ok(());
      }
      if LowPriority(item) {
        droppedLowPriority := SaturatingAdd(droppedLowPriority, 1);
        return Ok(());
      }
      var index := PositionOfLow(queue);
      if index < |queue| {
        queue := queue[..index] + queue[index + 1..];
        droppedLowPriority := SaturatingAdd(droppedLowPriority, 1);
        queue := queue + [item];
        return Ok(());
      }
      result := Err(ResourceExhausted);
    }

    method PopFront() returns (item: Option<Item>)
      modifies this
      ensures old(queue) == [] ==> item == None && Value() == old(Value())
      ensures old(queue) != [] ==> item == Some(old(queue)[0]) && Value() == Pop(old(Value()))
      ensures (if item.Some? then [item.value] else []) + queue == old(queue)
      ensures |queue| + inFlight == old(|queue| + inFlight)
    {
      if queue == [] {
        return None;
      }
      item := Some(queue[0]);
      queue := queue[1..];
      inFlight := inFlight + 1;
    }

    /** What follows the attempt to write the item in flight. */
    method Settle(item: Item, written: bool)
      requires inFlight > 0
      modifies this
      ensures Value() == if written then Emitted(old(Value())) else Returned(old(Value()), item)
      ensures written ==> queue == old(queue) && |queue| + inFlight == old(|queue| + inFlight) - 1
      ensures !written ==> queue == [item] + old(queue) && |queue| + inFlight == old(|queue| + inFlight)
    {
      inFlight := inFlight - 1;
      if written {
        emitted := SaturatingAdd(emitted, 1);
      } else {
        failed := SaturatingAdd(failed, 1);
        queue := [item] + queue;
      }
    }

    method Close()
      modifies this
      ensures Value() == old(Value()).(closed := true)
    {
      closed := true;
    }
  }

  method PositionOfLow(queue: seq<Item>) returns (index: nat)
    ensures index == FirstLow(queue)
  {
    index := 0;
    while index < |queue| && !LowPriority(queue[index])
      invariant index <= |queue|
      invariant FirstLow(queue) == index + FirstLow(queue[index..])
    {
      assert queue[index..][1..] == queue[index + 1..];
      index := index + 1;
    }
  }

  // ---------------------------------------------------------------- interleavings

  /** A flush in progress: how many turns of its loop are left, and whether it began after the writer was closed. */
  datatype Flush = Flush(left: nat, beganClosed: bool, item: Option<Item>)

  /** The writer with its flush and what happened so far: the items it accepted and the items written. */
  datatype System = System(state: State, flush: Option<Flush>, accepted: seq<Item>, written: seq<Item>, drained: bool)

  datatype Step =
    | EnqueueStep(item: Item)
    | SetFilter(filter: nat)
    | CloseStep
    | BeginFlush
    | PopStep
    | WriteOk
    | WriteFail
    | EndFlush
    | AbortFlush

  /** An item the writer took responsibility for: it matched the filter and the caller was told it is fine. */
  predicate Accepts(s: State, item: Item) {
    Enqueue(s, item).1.Ok? && MatchesFilter(item, s.filter)
  }

  predicate Enabled(s: System, step: Step) {
    match step
    case EnqueueStep(_) => true
    case SetFilter(_) => true
    case CloseStep => true
    case BeginFlush => s.flush.None?
    case PopStep => s.flush.Some? && s.flush.value.item.None? && s.flush.value.left > 0 && s.state.queue != []
    case WriteOk => s.flush.Some? && s.flush.value.item.Some? && s.state.inFlight > 0
    case WriteFail => s.flush.Some? && s.flush.value.item.Some? && s.state.inFlight > 0
    case EndFlush => s.flush.Some? && s.flush.value.item.None? && (s.flush.value.left == 0 || s.state.queue == [])
    case AbortFlush => s.flush.Some? && s.flush.value.item.None?
  }

  function Next(s: System, step: Step): System
    requires Enabled(s, step)
  {
    match step
    case EnqueueStep(item) =>
      s.(state := Enqueue(s.state, item).0, accepted := if Accepts(s.state, item) then s.accepted + [item]
        else s.accepted)
    case SetFilter(filter) => s.(state := s.state.(filter := filter))
    case CloseStep => s.(state := s.state.(closed := true))
    case BeginFlush => s.(flush := Some(Flush(|s.state.queue|, s.state.closed, None)))
    case PopStep =>
      s.(state := Pop(s.state), flush := Some(s.flush.value.(left := s.flush.value.left - 1,
          item := Some(s.state.queue[0]))))
    case WriteOk =>
      s.(state := Emitted(s.state), flush := Some(s.flush.value.(item := None)),
         written := s.written + [s.flush.value.item.value])
    case WriteFail => s.(state := Returned(s.state, s.flush.value.item.value), flush := None)
    case EndFlush => s.(flush := None, drained := s.drained || s.flush.value.beganClosed)
    case AbortFlush => s.(flush := None)
  }

  /** The item between the queue and the output. */
  function InFlight(s: System): seq<Item> {
    if s.flush.Some? && s.flush.value.item.Some? then [s.flush.value.item.value] else []
  }

  /** Written items, then the item in flight, then the queue. */
  function Pipeline(s: System): seq<Item> {
    s.written + InFlight(s) + s.state.queue
  }

  /** `kept` is `all` with only low-priority logs left out, in the same order. */
  predicate Thinned(all: seq<Item>, kept: seq<Item>) {
    if all == [] then kept == []
    else
      || (kept != [] && kept[0] == all[0] && Thinned(all[1..], kept[1..]))
      || (LowPriority(all[0]) && Thinned(all[1..], kept))
  }

  ghost predicate Inv(s: System) {
    && |s.state.queue| + s.state.inFlight <= s.state.capacity
    && s.state.inFlight == |InFlight(s)|
    && Thinned(s.accepted, Pipeline(s))
    && (s.flush.Some? && s.flush.value.beganClosed ==> s.state.closed && |s.state.queue| == s.flush.value.left)
    && (s.drained ==> s.state.closed && s.state.queue == [] && s.state.inFlight == 0)
  }

  // ---------------------------------------------------------------- thinning

  lemma {:induction false} ThinnedAppend(all: seq<Item>, kept: seq<Item>, item: Item)
    requires Thinned(all, kept)
    ensures Thinned(all + [item], kept + [item])
    ensures LowPriority(item) ==> Thinned(all + [item], kept)
  {
    if all != [] {
      assert (all + [item])[1..] == all[1..] + [item];
      if kept != [] && kept[0] == all[0] && Thinned(all[1..], kept[1..]) {
        assert (kept + [item])[1..] == kept[1..] + [item];
        ThinnedAppend(all[1..], kept[1..], item);
      } else {
        ThinnedAppend(all[1..], kept, item);
      }
    } else {
      assert all + [item] == [item] && kept + [item] == [item];
    }
  }

  lemma {:induction false} ThinnedWithout(all: seq<Item>, kept: seq<Item>, index: nat)
    requires Thinned(all, kept) && index < |kept| && LowPriority(kept[index])
    ensures Thinned(all, Without(kept, index))
  {
    if kept != [] && kept[0] == all[0] && Thinned(all[1..], kept[1..]) {
      if index == 0 {
        assert Without(kept, 0) == kept[1..];
      } else {
        ThinnedWithout(all[1..], kept[1..], index - 1);
        assert Without(kept, index)[1..] == Without(kept[1..], index - 1);
      }
    } else {
      ThinnedWithout(all[1..], kept, index);
    }
  }

  /** The items that must not be lost. */
  function HighPriority(items: seq<Item>): seq<Item> {
    if items == [] then []
    else if LowPriority(items[0]) then HighPriority(items[1..])
    else [items[0]] + HighPriority(items[1..])
  }

  lemma {:induction false} ThinningKeepsHighPriority(all: seq<Item>, kept: seq<Item>)
    requires Thinned(all, kept)
    ensures HighPriority(kept) == HighPriority(all)
  {
    if all != [] {
      if kept != [] && kept[0] == all[0] && Thinned(all[1..], kept[1..]) {
        ThinningKeepsHighPriority(all[1..], kept[1..]);
      } else {
        ThinningKeepsHighPriority(all[1..], kept);
      }
    }
  }

  // ---------------------------------------------------------------- runs

  lemma EnqueueKeeps(s: System, item: Item)
    requires Inv(s)
    ensures Inv(Next(s, EnqueueStep(item)))
  {
    var before := s.written + InFlight(s);
    if Accepts(s.state, item) {
      if |s.state.queue| + s.state.inFlight < s.state.capacity {
        ThinnedAppend(s.accepted, Pipeline(s), item);
        assert before + (s.state.queue + [item]) == before + s.state.queue + [item];
      } else if LowPriority(item) {
        ThinnedAppend(s.accepted, Pipeline(s), item);
      } else {
        ReplacementThins(s.accepted, before, s.state.queue, item);
      }
    }
  }

  /** A high-priority item that takes the place of the first low-priority one. */
  lemma ReplacementThins(accepted: seq<Item>, before: seq<Item>, queue: seq<Item>, item: Item)
    requires Thinned(accepted, before + queue) && FirstLow(queue) < |queue|
    ensures Thinned(accepted + [item], before + (Without(queue, FirstLow(queue)) + [item]))
  {
    var index := FirstLow(queue);
    var rest := Without(queue, index);
    ThinnedWithout(accepted, before + queue, |before| + index);
    assert Without(before + queue, |before| + index) == before + rest;
    ThinnedAppend(accepted, before + rest, item);
    assert before + rest + [item] == before + (rest + [item]);
  }

  lemma StepKeeps(s: System, step: Step)
    requires Inv(s) && Enabled(s, step)
    ensures Inv(Next(s, step))
  {
    match step {
      case EnqueueStep(item) => EnqueueKeeps(s, item);
      case PopStep =>
        assert s.state.queue == [s.state.queue[0]] + s.state.queue[1..];
        assert Pipeline(Next(s, step)) == Pipeline(s);
      case WriteOk => assert Pipeline(Next(s, step)) == Pipeline(s);
      case WriteFail => assert Pipeline(Next(s, step)) == Pipeline(s);
      case _ =>
    }
  }

  function Initial(capacity: nat, filter: nat): System {
    System(State(capacity, [], 0, filter, false, 0, 0, 0), None, [], [], false)
  }

  ghost predicate TakenAt(states: seq<System>, steps: seq<Step>, k: nat)
    requires |states| == |steps| + 1 && k < |steps|
  {
    Enabled(states[k], steps[k]) && states[k + 1] == Next(states[k], steps[k])
  }

  ghost predicate IsRun(states: seq<System>, steps: seq<Step>) {
    && |states| == |steps| + 1
    && states[0] == Initial(states[0].state.capacity, states[0].state.filter)
    && (forall k: nat | k < |steps| :: TakenAt(states, steps, k))
  }

  lemma {:induction false} RunKeeps(states: seq<System>, steps: seq<Step>, k: nat)
    requires IsRun(states, steps) && k < |states|
    ensures Inv(states[k])
  {
    if k > 0 {
      RunKeeps(states, steps, k - 1);
      assert TakenAt(states, steps, k - 1);
      StepKeeps(states[k - 1], steps[k - 1]);
    }
  }

  /** At every moment the queue and the item in flight fit the capacity. */
  lemma QueueNeverOverflows(states: seq<System>, steps: seq<Step>, k: nat)
    requires IsRun(states, steps) && k < |states|
    ensures |states[k].state.queue| + states[k].state.inFlight <= states[k].state.capacity
  {
    RunKeeps(states, steps, k);
  }

  /** Nothing accepted is reordered, duplicated or lost, except low-priority logs. */
  lemma OnlyLowPriorityIsLost(states: seq<System>, steps: seq<Step>, k: nat)
    requires IsRun(states, steps) && k < |states|
    ensures Thinned(states[k].accepted, Pipeline(states[k]))
    ensures HighPriority(Pipeline(states[k])) == HighPriority(states[k].accepted)
  {
    RunKeeps(states, steps, k);
    ThinningKeepsHighPriority(states[k].accepted, Pipeline(states[k]));
  }

  /** A flush begun after closing that ends well leaves nothing behind: then and ever after, the high-priority items
      written are exactly those accepted, each once and in order. */
  lemma ShutdownWritesEverything(states: seq<System>, steps: seq<Step>, k: nat)
    requires IsRun(states, steps) && k < |steps|
    requires steps[k] == EndFlush && states[k].flush.Some? && states[k].flush.value.beganClosed
    ensures states[k + 1].state.queue == [] && states[k + 1].state.inFlight == 0
    ensures HighPriority(states[k + 1].written) == HighPriority(states[k + 1].accepted)
  {
    assert TakenAt(states, steps, k);
    RunKeeps(states, steps, k);
    RunKeeps(states, steps, k + 1);
    OnlyLowPriorityIsLost(states, steps, k + 1);
    assert Pipeline(states[k + 1]) == states[k + 1].written;
  }

  /** After that the writer stays drained. */
  lemma DrainedStaysDrained(states: seq<System>, steps: seq<Step>, k: nat)
    requires IsRun(states, steps) && k < |states| && states[k].drained
    ensures states[k].state.queue == [] && states[k].state.inFlight == 0
    ensures HighPriority(states[k].written) == HighPriority(states[k].accepted)
  {
    RunKeeps(states, steps, k);
    OnlyLowPriorityIsLost(states, steps, k);
    assert Pipeline(states[k]) == states[k].written;
  }

  // ---------------------------------------------------------------- what enqueueing answers

  /** A log the filter keeps out: filter 1 lets errors through, 2 also warnings, up to 5 for everything; what is no log
      always passes. */
  predicate KeptOut(item: Item, filter: nat) {
    match item
    case Log(Error, _) => filter < 1
    case Log(Warn, _) => filter < 2
    case Log(Info, _) => filter < 3
    case Log(Debug, _) => filter < 4
    case Log(Trace, _) => filter < 5
    case _ => false
  }

  /** Logs below warnings may be lost when the queue is full. */
  predicate Dispensable(item: Item) {
    item.Log? && !item.level.Warn? && !item.level.Error?
  }

  /** In every run, an item is refused after closing, or when the queue is full of indispensable items and so is the
      item; a refusal changes nothing. */
  lemma RefusedOnlyWhenFullOrClosed(states: seq<System>, steps: seq<Step>, k: nat, item: Item)
    requires IsRun(states, steps) && k < |steps| && steps[k] == EnqueueStep(item)
    ensures var s, answer := states[k].state, Enqueue(states[k].state, item).1;
      && (s.closed <==> answer == Err(Unavailable))
      && (answer == Err(ResourceExhausted) <==>
          && !s.closed && !KeptOut(item, s.filter) && !Dispensable(item) && |s.queue| + s.inFlight == s.capacity
          && forall i | 0 <= i < |s.queue| :: !Dispensable(s.queue[i]))
      && (answer.Err? ==> states[k + 1] == states[k])
  {
    assert TakenAt(states, steps, k);
    RunKeeps(states, steps, k);
    var s := states[k].state;
    assert FirstLow(s.queue) < |s.queue| ==> Dispensable(s.queue[FirstLow(s.queue)]);
  }

  /** In every run, an item that is not refused is queued last if there is room or it is indispensable; otherwise,
      and if the filter keeps it out, the queue stays as it is. With no room it displaces the first dispensable item. */
  lemma AcceptedIsQueued(states: seq<System>, steps: seq<Step>, k: nat, item: Item)
    requires IsRun(states, steps) && k < |steps| && steps[k] == EnqueueStep(item)
    requires Enqueue(states[k].state, item).1.Ok?
    ensures var s, queue := states[k].state, states[k + 1].state.queue;
      if KeptOut(item, s.filter) then states[k + 1] == states[k]
      else if |s.queue| + s.inFlight < s.capacity then queue == s.queue + [item]
      else if Dispensable(item) then queue == s.queue
      else exists i: nat | i < |s.queue| ::
        && Dispensable(s.queue[i]) && (forall j | 0 <= j < i :: !Dispensable(s.queue[j]))
        && queue == s.queue[..i] + s.queue[i + 1..] + [item]
  {
    assert TakenAt(states, steps, k);
    var s := states[k].state;
    var i := FirstLow(s.queue);
    if !KeptOut(item, s.filter) && |s.queue| + s.inFlight >= s.capacity && !Dispensable(item) {
      assert i < |s.queue| && Dispensable(s.queue[i]);
      assert states[k + 1].state.queue == s.queue[..i] + s.queue[i + 1..] + [item];
    }
  }

  /** How often the output refused an item in the first `k` steps. */
  function Failures(steps: seq<Step>, k: nat): nat
    requires k <= |steps|
  {
    if k == 0 then 0 else Failures(steps, k - 1) + if steps[k - 1].WriteFail? then 1 else 0
  }

  ghost predicate CountersOk(s: System) {
    && s.state.emitted == Min(|s.written|, U64_MAX)
    && |Pipeline(s)| <= |s.accepted| && s.state.droppedLowPriority == Min(|s.accepted| - |Pipeline(s)|, U64_MAX)
  }

  lemma CountersKept(s: System, step: Step)
    requires Inv(s) && CountersOk(s) && Enabled(s, step)
    ensures CountersOk(Next(s, step))
    ensures Next(s, step).state.failed == if step.WriteFail? then SaturatingAdd(s.state.failed, 1) else s.state.failed
  {
  }

  /** In every run the counters tell what happened: as emitted the items written, as dropped the accepted items that are
      neither written nor in flight nor queued, as failed the refusals of the output. */
  lemma {:induction false} CountersTell(states: seq<System>, steps: seq<Step>, k: nat)
    requires IsRun(states, steps) && k < |states|
    ensures var s := states[k];
      && s.state.emitted == Min(|s.written|, U64_MAX)
      && |Pipeline(s)| <= |s.accepted| && s.state.droppedLowPriority == Min(|s.accepted| - |Pipeline(s)|, U64_MAX)
      && s.state.failed == Min(Failures(steps, k), U64_MAX)
  {
    if k > 0 {
      CountersTell(states, steps, k - 1);
      RunKeeps(states, steps, k - 1);
      assert TakenAt(states, steps, k - 1);
      CountersKept(states[k - 1], steps[k - 1]);
    }
  }
}
