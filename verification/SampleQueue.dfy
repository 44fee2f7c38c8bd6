/**
 The event side of the vehicle signal proxy: a bounded queue between the
 receive thread and the application, and the receive handler.

 Each step below is one critical section (or one unguarded store) of the
 source, so a run is an arbitrary interleaving of the threads. One thread
 enqueues, and it makes the handler call it owes before it enqueues again.
 */
module SampleQueue {
  import opened Bytes
  import opened Common

  /** One vehicle signal sample; the float members are kept as their four payload bytes. */
  datatype Sample = Sample(
    speed: seq<byte>, rpm: seq<byte>, brake: bool, steering: seq<byte>, door: byte, fuel: seq<byte>,
    e2eCrc: byte, e2eCounter: byte, sessionId: u16)

  /** Receive handlers are known by a number. */
  type Handler = nat

  datatype Acceptance = Acceptance(sample: Sample, handler: Option<Handler>)
  datatype Removal = Removal(sample: Sample, pulled: bool)
  datatype Call = Call(handler: Handler, sample: Sample)

  /**
   The fields of the event, the handler call the receive thread still owes, and
   the history: what was accepted (with the handler installed at that moment),
   what left the queue and how, the calls made, whether a capacity was ever
   stored, and the largest one stored.
   */
  datatype State = State(
    subscribed: bool, maxSamples: nat, queue: seq<Sample>, handler: Option<Handler>, owed: Option<Call>,
    accepted: seq<Acceptance>, removed: seq<Removal>, calls: seq<Call>,
    stored: bool, largest: nat)

  datatype Step =
    | StoreCapacity(n: nat) | StoreSubscribed | StoreNotSubscribed
    | StoreHandler(h: Option<Handler>)
    | Pull(maxCount: nat)
    | Enqueue(sample: Sample) | CallHandler

  const INITIAL := State(false, 16, [], None, None, [], [], [], false, 0)

  function Max(a: nat, b: nat): nat {
    if a < b then b else a
  }

  function Min(a: nat, b: nat): nat {
    if a < b then a else b
  }

  function Leave(q: seq<Sample>, pulled: bool): (r: seq<Removal>)
    ensures |r| == |q|
  {
    seq(|q|, i requires 0 <= i < |q| => Removal(q[i], pulled))
  }

  /** With capacity 0 and nothing queued, an enqueue would pop an empty queue, which is undefined in the source. */
  predicate Poppable(s: State) {
    s.subscribed ==> s.maxSamples >= 1 || s.queue != []
  }

  /** Subscribing stores a capacity first; the receive thread pays a call before it enqueues again. */
  predicate Enabled(s: State, step: Step) {
    match step
    case StoreSubscribed => s.stored
    case Enqueue(_) => s.owed.None? && Poppable(s)
    case _ => true
  }

  /** A full queue loses exactly its oldest sample, even when the capacity has shrunk since. */
  function Apply(s: State, step: Step): State {
    match step
    case StoreCapacity(n) => s.(maxSamples := n, stored := true, largest := Max(s.largest, n))
    case StoreSubscribed => s.(subscribed := true)
    case StoreNotSubscribed => s.(subscribed := false)
    case StoreHandler(h) => s.(handler := h)
    case Pull(maxCount) =>
      var k := Min(maxCount, |s.queue|);
      s.(queue := s.queue[k..], removed := s.removed + Leave(s.queue[..k], true))
    case Enqueue(x) =>
      if !s.subscribed then s
      else
        var k := if |s.queue| >= s.maxSamples && |s.queue| > 0 then 1 else 0;
        s.(queue := s.queue[k..] + [x],
        removed := s.removed + Leave(s.queue[..k], false),
        accepted := s.accepted + [Acceptance(x, s.handler)],
        owed := if s.handler.Some? then Some(Call(s.handler.value, x)) else None)
    case CallHandler =>
      if s.owed.None? then s else s.(calls := s.calls + [s.owed.value], owed := None)
  }

  ghost predicate IsRun(s: State, steps: seq<Step>)
    decreases |steps|
  {
    steps == [] || (Enabled(s, steps[0]) && IsRun(Apply(s, steps[0]), steps[1..]))
  }

  ghost function Run(s: State, steps: seq<Step>): State
    decreases |steps|
  {
    if steps == [] then s else Run(Apply(s, steps[0]), steps[1..])
  }

  // ---------------------------------------------------------- implementation

  class VehicleSignalEvent {
    var subscribed: bool
    var maxSamples: nat
    var sampleQueue: seq<Sample>
    var receiveHandler: Option<Handler>
    var calls: seq<Call>  // the calls made to receive handlers
    ghost var owed: Option<Call>
    ghost var accepted: seq<Acceptance>
    ghost var removed: seq<Removal>
    ghost var stored: bool
    ghost var largest: nat

    ghost function Abstract(): State
      reads this
    {
      State(subscribed, maxSamples, sampleQueue, receiveHandler, owed, accepted, removed, calls,
            stored, largest)
    }

    constructor ()
      ensures Abstract() == INITIAL
    {
      subscribed, maxSamples, sampleQueue, receiveHandler, calls := false, 16, [], None, [];
      owed, accepted, removed, stored, largest := None, [], [], false, 0;
    }

    method Subscribe(n: nat)
      modifies this
      ensures Abstract() == Apply(Apply(old(Abstract()), StoreCapacity(n)), StoreSubscribed)
    {
      maxSamples := n;
      stored, largest := true, Max(largest, n);
      subscribed := true;
    }

    method Unsubscribe()
      modifies this
      ensures Abstract() == Apply(old(Abstract()), StoreNotSubscribed)
    {
      subscribed := false;
    }

    method SetReceiveHandler(h: Handler)
      modifies this
      ensures Abstract() == Apply(old(Abstract()), StoreHandler(Some(h)))
    {
      receiveHandler := Some(h);
    }

    method UnsetReceiveHandler()
      modifies this
      ensures Abstract() == Apply(old(Abstract()), StoreHandler(None))
    {
      receiveHandler := None;
    }

    method GetNewSamples(maxCount: nat) returns (samples: seq<Sample>)
      modifies this
      ensures Abstract() == Apply(old(Abstract()), Pull(maxCount))
      ensures |samples| == Min(maxCount, |old(sampleQueue)|) && samples + sampleQueue == old(sampleQueue)
    {
      var count := 0;
      samples := [];
      while sampleQueue != [] && count < maxCount
        invariant count == |samples| <= |old(sampleQueue)| && count <= maxCount
        invariant samples == old(sampleQueue)[..count] && sampleQueue == old(sampleQueue)[count..]
        invariant removed == old(removed) + Leave(samples, true)
        invariant Abstract() == old(Abstract()).(queue := sampleQueue, removed := removed)
        decreases |sampleQueue|
      {
        samples := samples + [sampleQueue[0]];
        removed := removed + [Removal(sampleQueue[0], true)];
        sampleQueue := sampleQueue[1..];
        count := count + 1;
      }
    }

    /** The guarded part of PushSample; the handler is copied out. */
    method EnqueueLocked(sample: Sample) returns (cb: Option<Handler>)
      requires Enabled(Abstract(), Enqueue(sample))
      modifies this
      ensures Abstract() == Apply(old(Abstract()), Enqueue(sample))
      ensures cb == if owed.Some? then Some(owed.value.handler) else None
      ensures owed.Some? ==> owed.value.sample == sample
    {
      if !subscribed {
        return None;
      }
      accepted := accepted + [Acceptance(sample, receiveHandler)];
      if |sampleQueue| >= maxSamples {
        removed := removed + Leave(sampleQueue[..1], false);
        sampleQueue := sampleQueue[1..];
      } else {
        assert removed + Leave([], false) == removed;
      }
      sampleQueue := sampleQueue + [sample];
      cb := receiveHandler;
      owed := if cb.Some? then Some(Call(cb.value, sample)) else None;
    }

    method PushSample(sample: Sample)
      requires Enabled(Abstract(), Enqueue(sample))
      modifies this
      ensures Abstract() == Apply(Apply(old(Abstract()), Enqueue(sample)), CallHandler)
    {
      var cb := EnqueueLocked(sample);
      if cb.Some? {
        calls := calls + [Call(cb.value, sample)];
        owed := None;
      }
    }
  }

  // -------------------------------------------------------------- properties

  ghost function Samples(accepted: seq<Acceptance>): (s: seq<Sample>)
    ensures |s| == |accepted|
  {
    seq(|accepted|, i requires 0 <= i < |accepted| => accepted[i].sample)
  }

  ghost function Gone(removed: seq<Removal>): (s: seq<Sample>)
    ensures |s| == |removed|
  {
    seq(|removed|, i requires 0 <= i < |removed| => removed[i].sample)
  }

  /** The calls the accepted samples are due, each with the handler installed at its enqueue. */
  ghost function Due(accepted: seq<Acceptance>): seq<Call> {
    if accepted == [] then []
    else
      var last := accepted[|accepted| - 1];
      Due(accepted[..|accepted| - 1]) + if last.handler.Some? then [Call(last.handler.value, last.sample)] else []
  }

  ghost function Outstanding(s: State): seq<Call> {
    if s.owed.Some? then [s.owed.value] else []
  }

  ghost predicate Consistent(s: State) {
    && Samples(s.accepted) == Gone(s.removed) + s.queue
    && |s.queue| <= s.largest
    && (s.stored ==> s.maxSamples <= s.largest)
    && (!s.stored ==> !s.subscribed && s.queue == [])
    && s.calls + Outstanding(s) == Due(s.accepted)
  }

  lemma GoneConcat(a: seq<Removal>, q: seq<Sample>, pulled: bool)
    ensures Gone(a + Leave(q, pulled)) == Gone(a) + q
  {
  }

  lemma AcceptedSnoc(accepted: seq<Acceptance>, a: Acceptance)
    ensures Samples(accepted + [a]) == Samples(accepted) + [a.sample]
    ensures Due(accepted + [a]) ==
            Due(accepted) + if a.handler.Some? then [Call(a.handler.value, a.sample)] else []
  {
    assert (accepted + [a])[..|accepted|] == accepted;
  }

  lemma SplitQueue(g: seq<Sample>, q: seq<Sample>, k: nat, tail: seq<Sample>)
    requires k <= |q|
    ensures (g + q[..k]) + (q[k..] + tail) == (g + q) + tail
  {
  }

  lemma PullKeepsConsistent(s: State, maxCount: nat)
    requires Consistent(s)
    ensures Consistent(Apply(s, Pull(maxCount)))
  {
    hide Samples, Gone, Due, Leave;
    var k := Min(maxCount, |s.queue|);
    GoneConcat(s.removed, s.queue[..k], true);
    SplitQueue(Gone(s.removed), s.queue, k, []);
    assert s.queue[k..] + [] == s.queue[k..];
  }

  lemma EnqueueKeepsConsistent(s: State, x: Sample)
    requires Consistent(s) && Enabled(s, Enqueue(x))
    ensures Consistent(Apply(s, Enqueue(x)))
  {
    hide Samples, Gone, Due, Leave;
    if s.subscribed {
      var k := if |s.queue| >= s.maxSamples && |s.queue| > 0 then 1 else 0;
      GoneConcat(s.removed, s.queue[..k], false);
      SplitQueue(Gone(s.removed), s.queue, k, [x]);
      AcceptedSnoc(s.accepted, Acceptance(x, s.handler));
      assert s.calls + [] == s.calls;
    }
  }

  lemma StepKeepsConsistent(s: State, step: Step)
    requires Consistent(s) && Enabled(s, step)
    ensures Consistent(Apply(s, step))
  {
    hide Samples, Gone, Due, Leave;
    match step
    case Pull(maxCount) => PullKeepsConsistent(s, maxCount);
    case Enqueue(x) => EnqueueKeepsConsistent(s, x);
    case CallHandler => assert s.calls + [] == s.calls;
      if s.owed.Some? {
        assert (s.calls + [s.owed.value]) + [] == s.calls + [s.owed.value];
      }
    case _ =>
  }

  /**
   Over every interleaving: what was accepted is what left the queue followed by what is in it, in
   order, so the queue is a suffix of the accepted samples and nothing is lost,
   doubled or reordered; the queue never outgrows the largest capacity stored; and the
   calls made and owed are those due, each once, in enqueue order, to the
   handler installed at the enqueue.
   */
  lemma {:induction false} EveryRunIsConsistent(s: State, steps: seq<Step>)
    requires Consistent(s) && IsRun(s, steps)
    ensures Consistent(Run(s, steps))
    decreases |steps|
  {
    if steps != [] {
      StepKeepsConsistent(s, steps[0]);
      EveryRunIsConsistent(Apply(s, steps[0]), steps[1..]);
    }
  }

  lemma InitialConsistent()
    ensures Consistent(INITIAL)
  {
    assert Samples([]) == Gone([]) + [];
  }

  /** Read off the steps alone: the samples enqueued while the latest subscription store said subscribed. */
  ghost function EnqueuedWhileSubscribed(subscribed: bool, steps: seq<Step>): seq<Sample>
    decreases |steps|
  {
    if steps == [] then []
    else match steps[0]
      case StoreSubscribed => EnqueuedWhileSubscribed(true, steps[1..])
      case StoreNotSubscribed => EnqueuedWhileSubscribed(false, steps[1..])
      case Enqueue(x) => (if subscribed then [x] else []) + EnqueuedWhileSubscribed(subscribed, steps[1..])
      case _ => EnqueuedWhileSubscribed(subscribed, steps[1..])
  }

  /** The accepted history is exactly what was enqueued while subscribed. */
  lemma {:induction false} AcceptedIsWhatWasEnqueued(s: State, steps: seq<Step>)
    ensures Samples(Run(s, steps).accepted) == Samples(s.accepted) + EnqueuedWhileSubscribed(s.subscribed, steps)
    decreases |steps|
  {
    hide Samples;
    if steps != [] {
      AcceptedIsWhatWasEnqueued(Apply(s, steps[0]), steps[1..]);
      if steps[0].Enqueue? && s.subscribed {
        AcceptedSnoc(s.accepted, Acceptance(steps[0].sample, s.handler));
      }
    }
  }

  ghost function PulledCount(removed: seq<Removal>): nat {
    if removed == [] then 0
    else PulledCount(removed[..|removed| - 1]) + if removed[|removed| - 1].pulled then 1 else 0
  }

  ghost function DroppedCount(removed: seq<Removal>): nat {
    if removed == [] then 0
    else DroppedCount(removed[..|removed| - 1]) + if removed[|removed| - 1].pulled then 0 else 1
  }

  lemma {:induction false} RemovedIsPulledOrDropped(removed: seq<Removal>)
    ensures PulledCount(removed) + DroppedCount(removed) == |removed|
    decreases |removed|
  {
    if removed != [] {
      RemovedIsPulledOrDropped(removed[..|removed| - 1]);
    }
  }

  /** Read off the steps alone: the largest capacity subscribed with. */
  ghost function LargestSubscribed(steps: seq<Step>): nat
    decreases |steps|
  {
    if steps == [] then 0
    else Max(if steps[0].StoreCapacity? then steps[0].n else 0, LargestSubscribed(steps[1..]))
  }

  lemma {:induction false} LargestIsSubscribed(s: State, steps: seq<Step>)
    ensures Run(s, steps).largest == Max(s.largest, LargestSubscribed(steps))
    decreases |steps|
  {
    if steps != [] {
      LargestIsSubscribed(Apply(s, steps[0]), steps[1..]);
    }
  }

  /**
   From the initial state under every interleaving: accepted == pulled +
   dropped + queued, the queue is a suffix of the accepted samples, and it is
   never longer than the largest capacity subscribed with so far.
   */
  lemma Conservation(steps: seq<Step>)
    requires IsRun(INITIAL, steps)
    ensures var s := Run(INITIAL, steps);
            |s.accepted| == PulledCount(s.removed) + DroppedCount(s.removed) + |s.queue| &&
            |s.removed| <= |s.accepted| && s.queue == Samples(s.accepted)[|s.removed|..] &&
            |s.queue| <= LargestSubscribed(steps) && s.calls <= Due(s.accepted)
  {
    var s := Run(INITIAL, steps);
    InitialConsistent();
    EveryRunIsConsistent(INITIAL, steps);
    RemovedIsPulledOrDropped(s.removed);
    LargestIsSubscribed(INITIAL, steps);
    assert |Gone(s.removed)| == |s.removed|;
  }

  // ------------------------------------------------ what the stores amount to

  /** Read off the steps alone: the capacity stored last. */
  ghost function LastCapacity(n: nat, steps: seq<Step>): nat
    decreases |steps|
  {
    if steps == [] then n else LastCapacity(if steps[0].StoreCapacity? then steps[0].n else n, steps[1..])
  }

  /** Read off the steps alone: the handler stored last. */
  ghost function LastHandler(h: Option<Handler>, steps: seq<Step>): Option<Handler>
    decreases |steps|
  {
    if steps == [] then h else LastHandler(if steps[0].StoreHandler? then steps[0].h else h, steps[1..])
  }

  /** Read off the steps alone: whether the last subscription store said subscribed. */
  ghost function LastSubscribed(b: bool, steps: seq<Step>): bool
    decreases |steps|
  {
    if steps == [] then b
    else LastSubscribed(if steps[0].StoreSubscribed? then true
                        else if steps[0].StoreNotSubscribed? then false else b, steps[1..])
  }

  /** The capacity, the handler and the subscription are those stored last. */
  lemma {:induction false} StoresAreKept(s: State, steps: seq<Step>)
    ensures var t := Run(s, steps);
            && t.maxSamples == LastCapacity(s.maxSamples, steps)
            && t.handler == LastHandler(s.handler, steps)
            && t.subscribed == LastSubscribed(s.subscribed, steps)
    decreases |steps|
  {
    hide Leave;
    if steps != [] {
      StoresAreKept(Apply(s, steps[0]), steps[1..]);
    }
  }

  /** Read off the steps alone: the samples enqueued. */
  ghost function Enqueued(steps: seq<Step>): seq<Sample>
    decreases |steps|
  {
    if steps == [] then []
    else (if steps[0].Enqueue? then [steps[0].sample] else []) + Enqueued(steps[1..])
  }

  /** The last n elements, or all of them if there are fewer. */
  function Newest(xs: seq<Sample>, n: nat): seq<Sample> {
    xs[|xs| - Min(n, |xs|)..]
  }

  predicate OnlyReceives(step: Step) {
    step.Enqueue? || step.CallHandler? || step.StoreHandler?
  }

  lemma NewestOfMore(xs: seq<Sample>, x: Sample, n: nat)
    requires n >= 1
    ensures Newest(xs + [x], n) == Newest(xs, n)[if |xs| >= n then 1 else 0..] + [x]
  {
  }

  lemma {:induction false} KeepsNewest(s: State, before: seq<Sample>, steps: seq<Step>)
    requires s.subscribed && s.queue == Newest(before, s.maxSamples) && IsRun(s, steps)
    requires forall i | 0 <= i < |steps| :: OnlyReceives(steps[i])
    ensures Run(s, steps).queue == Newest(before + Enqueued(steps), s.maxSamples)
    decreases |steps|
  {
    hide Newest, Leave;
    if steps == [] {
      assert before + [] == before;
    } else {
      assert OnlyReceives(steps[0]);
      var t := Apply(s, steps[0]);
      var more := before + if steps[0].Enqueue? then [steps[0].sample] else [];
      QueueKeepsNewest(s, before, steps[0]);
      assert forall i | 0 <= i < |steps[1..]| :: steps[1..][i] == steps[i + 1];
      KeepsNewest(t, more, steps[1..]);
      assert more + Enqueued(steps[1..]) == before + Enqueued(steps);
    }
  }

  lemma QueueKeepsNewest(s: State, before: seq<Sample>, step: Step)
    requires s.subscribed && s.queue == Newest(before, s.maxSamples) && Enabled(s, step) && OnlyReceives(step)
    ensures var t := Apply(s, step);
            && t.subscribed && t.maxSamples == s.maxSamples
            && t.queue == Newest(before + (if step.Enqueue? then [step.sample] else []), s.maxSamples)
  {
    hide Leave;
    if step.Enqueue? {
      assert s.queue != [] ==> s.maxSamples >= 1;
      NewestOfMore(before, step.sample, s.maxSamples);
    } else {
      assert before + [] == before;
    }
  }

  /**
   A subscription with capacity n into an empty queue, and then only samples and
   handler steps: the queue holds exactly the newest n samples, or all of them
   while there are fewer, in order.
   */
  lemma QueueHoldsTheNewest(s: State, n: nat, steps: seq<Step>)
    requires s.queue == [] && IsRun(s, [StoreCapacity(n), StoreSubscribed] + steps)
    requires forall i | 0 <= i < |steps| :: OnlyReceives(steps[i])
    ensures Run(s, [StoreCapacity(n), StoreSubscribed] + steps).queue == Newest(Enqueued(steps), n)
  {
    var all := [StoreCapacity(n), StoreSubscribed] + steps;
    assert all[1..] == [StoreSubscribed] + steps && all[1..][1..] == steps;
    var t := Apply(Apply(s, StoreCapacity(n)), StoreSubscribed);
    KeepsNewest(t, [], steps);
    assert [] + Enqueued(steps) == Enqueued(steps);
  }

  lemma {:induction false} RunSnoc(s: State, steps: seq<Step>, step: Step)
    ensures Run(s, steps + [step]) == Apply(Run(s, steps), step)
    ensures IsRun(s, steps + [step]) <==> IsRun(s, steps) && Enabled(Run(s, steps), step)
    decreases |steps|
  {
    hide Apply, Enabled;
    if steps == [] {
      assert [] + [step] == [step] && [step][1..] == [];
    } else {
      assert (steps + [step])[1..] == steps[1..] + [step];
      RunSnoc(Apply(s, steps[0]), steps[1..], step);
    }
  }

  /** Once the receive thread has paid the call it owes, every accepted sample with a handler has been passed to it. */
  lemma PaidCallsAreDue(steps: seq<Step>)
    requires IsRun(INITIAL, steps + [CallHandler])
    ensures var s := Run(INITIAL, steps + [CallHandler]); s.owed.None? && s.calls == Due(s.accepted)
  {
    hide Due, Leave;
    RunSnoc(INITIAL, steps, CallHandler);
    InitialConsistent();
    EveryRunIsConsistent(INITIAL, steps + [CallHandler]);
    var s := Run(INITIAL, steps + [CallHandler]);
    assert s.calls + [] == s.calls;
  }

  /** A sample is dropped at an enqueue exactly when the queue is full, and it is the oldest one. */
  lemma DropsOldestIffFull(s: State, x: Sample)
    requires s.subscribed && Poppable(s)
    ensures var t := Apply(s, Enqueue(x));
            if |s.queue| >= s.maxSamples then t.removed == s.removed + [Removal(s.queue[0], false)]
            else t.removed == s.removed
  {
    if |s.queue| >= s.maxSamples {
      assert Leave(s.queue[..1], false) == [Removal(s.queue[0], false)];
    }
  }

  predicate LeavesCapacity(step: Step) {
    !step.StoreCapacity? && !step.Pull?
  }

  lemma StepKeepsExcess(s: State, step: Step)
    requires Enabled(s, step) && LeavesCapacity(step)
    ensures var t := Apply(s, step);
            t.maxSamples == s.maxSamples && (|t.queue| <= t.maxSamples <==> |s.queue| <= s.maxSamples) &&
            (|s.queue| >= s.maxSamples ==> |t.queue| == |s.queue|)
  {
    if step.Enqueue? && s.subscribed && |s.queue| >= s.maxSamples {
      assert s.queue != [];
    }
  }

  /**
   The bound by the largest capacity is not a bound by the current one: while
   nobody pulls or stores a capacity, however much is enqueued, a queue above
   the current capacity keeps its very length, and one within it stays within.
   */
  lemma {:induction false} LoweredCapacityNotEnforced(s: State, steps: seq<Step>)
    requires IsRun(s, steps) && forall i | 0 <= i < |steps| :: LeavesCapacity(steps[i])
    ensures var t := Run(s, steps);
            t.maxSamples == s.maxSamples && (|t.queue| <= t.maxSamples <==> |s.queue| <= s.maxSamples) &&
            (|s.queue| >= s.maxSamples ==> |t.queue| == |s.queue|)
    decreases |steps|
  {
    hide Apply, Enabled, LeavesCapacity;
    if steps != [] {
      StepKeepsExcess(s, steps[0]);
      assert forall i | 0 <= i < |steps[1..]| :: steps[1..][i] == steps[i + 1];
      LoweredCapacityNotEnforced(Apply(s, steps[0]), steps[1..]);
    }
  }
}
