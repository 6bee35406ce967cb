/** The scheduler exactly as `_execute` and `ready` are written: the
    saturated branch of `_execute` only counts the call (`_queueSize++`) and
    never stores it in `_queue`. This module exists to exhibit that defect;
    the rest of the model uses the corrected Scheduler. */
module SchedulerAsWritten {
  import opened Wrappers
  import opened JsNumbers
  import S = Scheduler

  /** The fields of a Multithread object, with `_queueSize` kept apart from
      `_queue` as the source keeps it. */
  datatype RawPool<C> = RawPool(threads: int, activeThreads: int, queueSize: int, queue: seq<C>, debug: S.Debug)

  /** What one call of `_execute` ends in. `Threw` is the TypeError raised
      when `_execute` runs with `undefined` arguments: `this._encode[undefined]`
      is not a function. `Counted` is a call `_execute` only counts, and
      also a `ready` that dispatches nothing. */
  datatype Outcome<C> = Dispatched(call: C) | Counted | Threw(error: Error)

  datatype RawStep<C> = RawStep(pool: RawPool<C>, outcome: Outcome<C>)

  function RawInit<C>(threads: JsNumber): RawPool<C> {
    RawPool(S.Capacity(threads), 0, 0, [], S.Debug(0, 0, 0))
  }

  /** `_execute` as written; `call` is `None` when it is applied to the
      `undefined` that `shift()` returns for an empty `_queue`. The slot is
      taken before the encoder lookup throws. The encoding of a real call
      is not modelled here. */
  function ExecuteAsWritten<C>(s: RawPool<C>, call: Option<C>, now: int): (t: RawStep<C>)
    ensures t.pool.threads == s.threads && t.pool.queue == s.queue
    ensures s.activeThreads < s.threads ==>
      t.pool.activeThreads == s.activeThreads + 1 && t.pool.queueSize == s.queueSize
    ensures s.activeThreads < s.threads && call.Some? ==> t.outcome == Dispatched(call.value)
    ensures s.activeThreads < s.threads && call.None? ==> t.outcome == Threw(TypeError)
    ensures s.activeThreads >= s.threads ==>
      t.outcome.Counted? && t.pool.activeThreads == s.activeThreads && t.pool.queueSize == s.queueSize + 1
    ensures s.activeThreads == 0 ==> t.pool.debug == s.debug.(start := now)
    ensures s.activeThreads != 0 ==> t.pool.debug == s.debug
  {
    var debug := if s.activeThreads == 0 then s.debug.(start := now) else s.debug;
    if s.activeThreads < s.threads then
      var taken := s.(activeThreads := s.activeThreads + 1, debug := debug);
      match call
      case Some(c) => RawStep(taken, Dispatched(c))
      case None => RawStep(taken, Threw(TypeError))
    else
      RawStep(s.(queueSize := s.queueSize + 1, debug := debug), Counted)
  }

  /** `ready` as written: the slot is freed, and a positive `_queueSize`
      re-runs `_execute` on whatever `shift()` yields; `_queueSize--` is
      skipped when that throws. Otherwise a pool that went idle closes its
      batch. */
  function ReadyAsWritten<C>(s: RawPool<C>, now: int): (t: RawStep<C>)
    ensures t.pool.threads == s.threads
    ensures s.queueSize == 0 ==>
      t.outcome.Counted? && t.pool.activeThreads == s.activeThreads - 1
      && t.pool.queueSize == 0 && t.pool.queue == s.queue
    ensures s.queueSize != 0 && |s.queue| > 0 && s.activeThreads <= s.threads ==>
      t.outcome == Dispatched(s.queue[0]) && t.pool.activeThreads == s.activeThreads
      && t.pool.queueSize == s.queueSize - 1 && t.pool.queue == s.queue[1..]
    ensures s.queueSize != 0 && s.queue == [] && s.activeThreads <= s.threads ==>
      t.outcome == Threw(TypeError) && t.pool.activeThreads == s.activeThreads
      && t.pool.queueSize == s.queueSize && t.pool.queue == []
    ensures s.queueSize == 0 && s.activeThreads == 1 ==>
      t.pool.debug == S.Debug(s.debug.start, now, now - s.debug.start)
    ensures s.queueSize != 0 && s.activeThreads == 1 ==> t.pool.debug == s.debug.(start := now)
    ensures s.activeThreads != 1 ==> t.pool.debug == s.debug
  {
    var freed := s.(activeThreads := s.activeThreads - 1);
    if freed.queueSize != 0 then
      var head := if |freed.queue| > 0 then Some(freed.queue[0]) else None;
      var shifted := freed.(queue := if |freed.queue| > 0 then freed.queue[1..] else []);
      var t := ExecuteAsWritten(shifted, head, now);
      if t.outcome.Threw? then t else RawStep(t.pool.(queueSize := t.pool.queueSize - 1), t.outcome)
    else if freed.activeThreads == 0 then
      RawStep(freed.(debug := freed.debug.(end := now, time := now - freed.debug.start)), Counted)
    else
      RawStep(freed, Counted)
  }

  /** A pool that counts a backlog it does not hold, with between 2 and
      `threads` workers running. A saturated pool whose call was counted but
      not stored is in this state (ThirdCallIsLost). */
  predicate Stuck<C>(q: RawPool<C>) {
    q.queueSize != 0 && q.queue == [] && 2 <= q.activeThreads <= q.threads
  }

  /** The pool and the outcomes after a run of completions at the given times. */
  datatype Replay<C> = Replay(pool: RawPool<C>, outcomes: seq<Outcome<C>>)

  function Readies<C>(q: RawPool<C>, nows: seq<int>): (r: Replay<C>)
    ensures |r.outcomes| == |nows|
    decreases |nows|
  {
    if |nows| == 0 then Replay(q, [])
    else
      var t := ReadyAsWritten(q, nows[0]);
      var rest := Readies(t.pool, nows[1..]);
      Replay(rest.pool, [t.outcome] + rest.outcomes)
  }

  /** Once stuck, a pool stays stuck: every completion retakes its slot and
      throws, and nothing in the pool changes. */
  lemma {:induction false} EveryLaterReadyThrows<C>(q: RawPool<C>, nows: seq<int>)
    requires Stuck(q)
    ensures Readies(q, nows).pool == q
    ensures forall i :: 0 <= i < |nows| ==> Readies(q, nows).outcomes[i] == Threw(TypeError)
    decreases |nows|
  {
    if |nows| > 0 {
      var t := ReadyAsWritten(q, nows[0]);
      assert t == RawStep(q, Threw(TypeError));
      EveryLaterReadyThrows(q, nows[1..]);
    }
  }

  /** The two schedulers agree on the counters: a corrected pool and a
      source pool with the same counters stay in step under `_execute`, so
      the defect is confined to the contents of `_queue`. */
  lemma ExecuteCountersAgree<C>(p: S.Pool<C>, q: RawPool<C>, call: C, now: int)
    requires p.threads == q.threads && p.active == q.activeThreads
    requires p.QueueSize() == q.queueSize && p.debug == q.debug
    ensures var t := S.Execute(p, call, now); var u := ExecuteAsWritten(q, Some(call), now);
      t.pool.threads == u.pool.threads && t.pool.active == u.pool.activeThreads
      && t.pool.QueueSize() == u.pool.queueSize && t.pool.debug == u.pool.debug
      && (t.dispatched == Some(call) <==> u.outcome == Dispatched(call))
  {
  }

  /** Two slots and three calls: the third is counted but not stored, which
      leaves the pool stuck, so every later completion re-takes the freed
      slot and throws, and the third call never reaches a worker. The
      corrected scheduler dispatches it at the first completion. */
  lemma ThirdCallIsLost()
    ensures var q0 := RawInit<char>(FromInt(2));
      var q1 := ExecuteAsWritten(q0, Some('A'), 0).pool;
      var q2 := ExecuteAsWritten(q1, Some('B'), 1).pool;
      var q3 := ExecuteAsWritten(q2, Some('C'), 2).pool;
      q3.queueSize == 1 && q3.queue == [] && Stuck(q3)
      && (forall nows: seq<int> :: Readies(q3, nows).pool == q3)
      && (forall nows: seq<int>, i :: 0 <= i < |nows| ==> Readies(q3, nows).outcomes[i] == Threw(TypeError))
    ensures var p0 := S.Init<char>(FromInt(2));
      var p3 := S.Execute(S.Execute(S.Execute(p0, 'A', 0).pool, 'B', 1).pool, 'C', 2).pool;
      S.Ready(p3, 3).dispatched == Some('C')
  {
    var q0 := RawInit<char>(FromInt(2));
    assert q0.threads == 2 by { ToInt32OfInt32(2); }
    var q1 := ExecuteAsWritten(q0, Some('A'), 0).pool;
    var q2 := ExecuteAsWritten(q1, Some('B'), 1).pool;
    var q3 := ExecuteAsWritten(q2, Some('C'), 2).pool;
    assert q3 == RawPool(2, 2, 1, [], S.Debug(0, 0, 0));
    forall nows: seq<int> | true
      ensures Readies(q3, nows).pool == q3
      ensures forall i :: 0 <= i < |nows| ==> Readies(q3, nows).outcomes[i] == Threw(TypeError)
    {
      EveryLaterReadyThrows(q3, nows);
    }
    var p0 := S.Init<char>(FromInt(2));
    assert p0.threads == 2;
    var p3 := S.Execute(S.Execute(S.Execute(p0, 'A', 0).pool, 'B', 1).pool, 'C', 2).pool;
    assert p3 == S.Pool(2, 2, ['C'], S.Debug(0, 0, 0));
  }
}
