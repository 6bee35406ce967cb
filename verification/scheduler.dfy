/** The admission scheduler of a Multithread pool (constructor, `_execute`,
    `ready`), as an immutable record with pure transitions. The clock reading
    `new Date` would supply is the parameter `now`; spawning a Worker and
    posting the encoded buffer is reduced to reporting which call was
    dispatched. The call record `C` is opaque here: it holds the resource,
    the raw arguments and the codec kind, and encoding happens only when a
    call is dispatched.

    Deviation from the source: the saturated branch of `_execute` appends
    the call to the tail of the queue, which the source omits (see the
    SchedulerAsWritten module); the queue size `_queueSize` is therefore
    the length of the queue. */
module Scheduler {
  import opened Wrappers
  import opened JsNumbers

  /** The floor the constructor puts under the requested thread count. */
  const MIN_THREADS: int := 2

  /** `Math.max(2, threads | 0)` for a request that ToNumber has turned into
      a Number: at least two slots, whatever is asked for (0, 1, negatives,
      NaN, the infinities), and otherwise the request as ToInt32 reads it. */
  function Capacity(threads: JsNumber): (c: int)
    ensures c >= MIN_THREADS && c >= ToInt32(threads)
    ensures c == MIN_THREADS || c == ToInt32(threads)
  {
    var requested := ToInt32(threads);
    if requested > MIN_THREADS then requested else MIN_THREADS
  }

  /** `_debug`: when the current batch started, when the last one ended,
      and how long it took. */
  datatype Debug = Debug(start: int, end: int, time: int)

  /** `threads`, `_activeThreads`, `_queue` and `_debug` of one pool. */
  datatype Pool<C> = Pool(threads: int, active: int, queue: seq<C>, debug: Debug)
  {
    /** `_queueSize`. */
    function QueueSize(): nat {
      |queue|
    }
  }

  /** A transition's new state and the call it handed to a new worker, if any. */
  datatype Step<C> = Step(pool: Pool<C>, dispatched: Option<C>)

  /** The pool never runs more workers than it has slots, and holds a
      backlog only while every slot is taken. */
  predicate Inv<C>(p: Pool<C>) {
    && p.threads >= MIN_THREADS
    && 0 <= p.active <= p.threads
    && (|p.queue| > 0 ==> p.active == p.threads)
  }

  /** `new Multithread(threads)`. */
  function Init<C>(threads: JsNumber): (p: Pool<C>)
    ensures Inv(p)
    ensures p.threads == Capacity(threads)
    ensures p.active == 0 && p.QueueSize() == 0 && p.debug == Debug(0, 0, 0)
  {
    Pool(Capacity(threads), 0, [], Debug(0, 0, 0))
  }

  /** `_execute(resource, args, type)`: a call on an idle pool opens a batch;
      the call then takes a free slot and is dispatched, or, when every slot
      is busy, waits at the tail of the queue. */
  function Execute<C>(s: Pool<C>, call: C, now: int): (t: Step<C>)
    ensures t.pool.threads == s.threads
    ensures t.dispatched.Some? <==> s.active < s.threads
    ensures t.dispatched.Some? ==>
      t.dispatched.value == call && t.pool.active == s.active + 1 && t.pool.queue == s.queue
    ensures t.dispatched.None? ==> t.pool.active == s.active && t.pool.queue == s.queue + [call]
    ensures t.pool.active + t.pool.QueueSize() == s.active + s.QueueSize() + 1
    ensures s.active == 0 ==> t.pool.debug == s.debug.(start := now)
    ensures s.active != 0 ==> t.pool.debug == s.debug
    ensures Inv(s) ==> Inv(t.pool)
  {
    var debug := if s.active == 0 then s.debug.(start := now) else s.debug;
    if s.active < s.threads then
      Step(s.(active := s.active + 1, debug := debug), Some(call))
    else
      Step(s.(queue := s.queue + [call], debug := debug), None)
  }

  /** `ready()`: a worker finished and gives its slot back. The oldest
      waiting call, if any, is dispatched into that slot; otherwise a pool
      that has gone idle closes its batch. */
  function Ready<C>(s: Pool<C>, now: int): (t: Step<C>)
    ensures t.pool.threads == s.threads
    ensures |s.queue| == 0 ==> t.dispatched.None? && t.pool.active == s.active - 1 && t.pool.queue == []
    ensures |s.queue| > 0 && s.active <= s.threads ==>
      t.dispatched == Some(s.queue[0]) && t.pool.active == s.active && t.pool.queue == s.queue[1..]
    ensures |s.queue| == 0 && s.active == 1 ==> t.pool.debug == Debug(s.debug.start, now, now - s.debug.start)
    ensures |s.queue| > 0 && s.active == 1 ==> t.pool.debug == s.debug.(start := now)
    ensures s.active != 1 ==> t.pool.debug == s.debug
    ensures Inv(s) && s.active > 0 ==> Inv(t.pool)
  {
    var freed := s.(active := s.active - 1);
    if |freed.queue| > 0 then
      Execute(freed.(queue := freed.queue[1..]), freed.queue[0], now)
    else if freed.active == 0 then
      Step(freed.(debug := freed.debug.(end := now, time := now - freed.debug.start)), None)
    else
      Step(freed, None)
  }

  /** What can happen to a pool: a dispatcher is called, or a worker signals
      completion through `ready`. */
  datatype Event<C> = Submit(call: C, now: int) | Complete(now: int)

  function Apply<C>(s: Pool<C>, e: Event<C>): Step<C> {
    match e
    case Submit(call, now) => Execute(s, call, now)
    case Complete(now) => Ready(s, now)
  }

  /** A history in which every completion answers a running worker. */
  predicate Legal<C>(s: Pool<C>, events: seq<Event<C>>)
    decreases |events|
  {
    |events| == 0 ||
    ((events[0].Complete? ==> s.active > 0) && Legal(Apply(s, events[0]).pool, events[1..]))
  }

  /** The state after a history, and the calls dispatched along it in order. */
  datatype Trace<C> = Trace(pool: Pool<C>, dispatched: seq<C>)

  /** The calls a transition dispatched, as a sequence of zero or one. */
  function DispatchedBy<C>(t: Step<C>): seq<C> {
    match t.dispatched
    case Some(c) => [c]
    case None => []
  }

  /** The calls an event submits, as a sequence of zero or one. */
  function SubmittedBy<C>(e: Event<C>): seq<C> {
    if e.Submit? then [e.call] else []
  }

  function Run<C>(s: Pool<C>, events: seq<Event<C>>): Trace<C>
    decreases |events|
  {
    if |events| == 0 then Trace(s, [])
    else
      var step := Apply(s, events[0]);
      var rest := Run(step.pool, events[1..]);
      Trace(rest.pool, DispatchedBy(step) + rest.dispatched)
  }

  /** The calls submitted along a history, in order. */
  function Submitted<C>(events: seq<Event<C>>): seq<C>
    decreases |events|
  {
    if |events| == 0 then [] else SubmittedBy(events[0]) + Submitted(events[1..])
  }

  /** The invariant survives every legal history. */
  lemma {:induction false} RunKeepsInv<C>(s: Pool<C>, events: seq<Event<C>>)
    requires Inv(s) && Legal(s, events)
    ensures Inv(Run(s, events).pool)
    decreases |events|
  {
    if |events| > 0 {
      ApplyKeepsInv(s, events[0]);
      RunKeepsInv(Apply(s, events[0]).pool, events[1..]);
    }
  }

  /** From construction on, no legal history runs more than `threads`
      workers at once, and `threads` is at least two. */
  lemma CapacityNeverExceeded<C>(threads: JsNumber, events: seq<Event<C>>)
    requires Legal(Init<C>(threads), events)
    ensures var p := Run(Init<C>(threads), events).pool;
      p.threads >= MIN_THREADS && 0 <= p.active <= p.threads
  {
    RunKeepsInv(Init<C>(threads), events);
  }

  /** One legal transition keeps the order: the backlog followed by what
      the event submits equals what it dispatches followed by the new backlog. */
  lemma StepIsFifo<C>(s: Pool<C>, e: Event<C>)
    requires Inv(s) && (e.Complete? ==> s.active > 0)
    ensures s.queue + SubmittedBy(e) == DispatchedBy(Apply(s, e)) + Apply(s, e).pool.queue
  {
    var step := Apply(s, e);
    match e
    case Submit(c, _) =>
      if step.dispatched.Some? {
        assert s.queue == [] && step.pool.queue == [];
      }
    case Complete(_) =>
      if |s.queue| > 0 {
        assert s.queue == [s.queue[0]] + s.queue[1..];
      }
  }

  /** A legal transition keeps the invariant. */
  lemma ApplyKeepsInv<C>(s: Pool<C>, e: Event<C>)
    requires Inv(s) && (e.Complete? ==> s.active > 0)
    ensures Inv(Apply(s, e).pool)
  {
    match e
    case Submit(c, now) => assert Apply(s, e) == Execute(s, c, now);
    case Complete(now) => assert Apply(s, e) == Ready(s, now);
  }

  /** Appending a step's effect to an order-preserving rest keeps the order. */
  lemma ChainFifo<C>(q: seq<C>, sub: seq<C>, later: seq<C>, disp: seq<C>, mid: seq<C>, restDisp: seq<C>, last: seq<C>)
    requires q + sub == disp + mid
    requires mid + later == restDisp + last
    ensures q + (sub + later) == (disp + restDisp) + last
  {
    calc {
      q + (sub + later);
      (q + sub) + later;
      (disp + mid) + later;
      disp + (mid + later);
      disp + (restDisp + last);
    }
  }

  /** Dispatch is first-in first-out: the backlog followed by everything
      submitted equals everything dispatched followed by what still waits. */
  lemma {:induction false} DispatchIsFifo<C>(s: Pool<C>, events: seq<Event<C>>)
    requires Inv(s) && Legal(s, events)
    ensures s.queue + Submitted(events) == Run(s, events).dispatched + Run(s, events).pool.queue
    decreases |events|
  {
    if |events| > 0 {
      var e := events[0];
      var step := Apply(s, e);
      var rest := Run(step.pool, events[1..]);
      StepIsFifo(s, e);
      ApplyKeepsInv(s, e);
      DispatchIsFifo(step.pool, events[1..]);
      ChainFifo(s.queue, SubmittedBy(e), Submitted(events[1..]), DispatchedBy(step),
                step.pool.queue, rest.dispatched, rest.pool.queue);
    }
  }

  /** From construction on, calls are dispatched in exactly the order they
      were submitted: the dispatched calls are a prefix of the submitted ones. */
  lemma DispatchOrderIsSubmissionOrder<C>(threads: JsNumber, events: seq<Event<C>>)
    requires Legal(Init<C>(threads), events)
    ensures var r := Run(Init<C>(threads), events);
      r.dispatched <= Submitted(events) && Submitted(events) == r.dispatched + r.pool.queue
  {
    var p0 := Init<C>(threads);
    var r := Run(p0, events);
    DispatchIsFifo(p0, events);
    assert p0.queue + Submitted(events) == Submitted(events);
    assert Submitted(events)[..|r.dispatched|] == r.dispatched;
  }

  /** The histories of the two-slot scenario below: four calls, then one
      completion. */
  function ScenarioEvents(): seq<Event<char>> {
    [Submit('A', 10), Submit('B', 11), Submit('C', 12), Submit('D', 13), Complete(20)]
  }

  /** Unfolding `Run` by one event. */
  lemma RunCons<C>(s: Pool<C>, events: seq<Event<C>>)
    requires |events| > 0
    ensures var step := Apply(s, events[0]); var rest := Run(step.pool, events[1..]);
      Run(s, events) == Trace(rest.pool, DispatchedBy(step) + rest.dispatched)
  {
  }

  /** Two slots, four calls A, B, C, D back to back: A and B start, C and D
      wait in that order, and the first completion starts C (not D). */
  lemma FifoScenario()
    ensures var r := Run(Init<char>(FromInt(2)), ScenarioEvents());
      r.dispatched == ['A', 'B', 'C'] && r.pool.queue == ['D'] && r.pool.active == 2
  {
    var p0 := Init<char>(FromInt(2));
    assert p0 == Pool(2, 0, [], Debug(0, 0, 0)) by { ToInt32OfInt32(2); }
    var ev := ScenarioEvents();
    var p1 := Pool(2, 1, [], Debug(10, 0, 0));
    var p2 := Pool(2, 2, [], Debug(10, 0, 0));
    var p3 := Pool(2, 2, ['C'], Debug(10, 0, 0));
    var p4 := Pool(2, 2, ['C', 'D'], Debug(10, 0, 0));
    var p5 := Pool(2, 2, ['D'], Debug(10, 0, 0));
    assert Execute(p0, 'A', 10) == Step(p1, Some('A'));
    assert Execute(p1, 'B', 11) == Step(p2, Some('B'));
    assert Execute(p2, 'C', 12) == Step(p3, None);
    assert Execute(p3, 'D', 13) == Step(p4, None);
    assert Ready(p4, 20) == Step(p5, Some('C'));
    RunCons(p4, ev[4..]);
    assert ev[4..][1..] == [];
    RunCons(p3, ev[3..]);
    assert ev[3..][1..] == ev[4..];
    RunCons(p2, ev[2..]);
    assert ev[2..][1..] == ev[3..];
    RunCons(p1, ev[1..]);
    assert ev[1..][1..] == ev[2..];
    RunCons(p0, ev);
  }

  /** A `ready` with no worker running drives the count negative: the
      legality hypothesis of the lemmas above is needed. */
  lemma SpuriousReadyBreaksInv<C>(s: Pool<C>, now: int)
    requires Inv(s) && s.active == 0
    ensures !Inv(Ready(s, now).pool)
  {
  }
}
