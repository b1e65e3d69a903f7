/** The forwarding buffer's flush as a callback of the runtime, beside the callbacks of others: once
    the runtime has been triggered no timer is overdue. */
module CbfRuntime {
  import opened Collections
  import opened Runtimes
  import opened CbfModel
  import opened CbfRuns

  /** The buffer after the events fired so far; the runtime consumes an event before serving it. */
  function After(s: State, scope: nat, fired: seq<Event>): State
    decreases |fired|
  {
    if fired == [] then s
    else
      var before := After(s, scope, fired[..|fired| - 1]);
      if fired[|fired| - 1].scope == scope then Flush(before.(wake := None)) else before
  }

  /** After a flush the pending event is replaced by one for the first timer left, if there is one. */
  function FlushCommands(s: State, scope: nat): seq<Command> {
    var left := Unexpired(s.entries, s.now);
    if left.Nil? then [] else [Cancel(scope), Schedule(Event(left.head.timer.expiry, scope, scope))]
  }

  /** All callbacks: an event in the buffer's scope flushes it. */
  function Flushing(s: State, scope: nat, others: Reaction): Reaction {
    (history: seq<Event>) =>
      if history != [] && history[|history| - 1].scope == scope
      then FlushCommands(After(s, scope, history[..|history| - 1]), scope)
      else others(history)
  }

  /** The pending events of the buffer, as its state says. */
  function Wakes(s: State): seq<int> {
    if s.wake.Some? then [s.wake.value] else []
  }

  lemma {:induction false} AfterNow(s: State, scope: nat, fired: seq<Event>)
    ensures After(s, scope, fired).now == s.now
    decreases |fired|
  {
    if fired != [] {
      AfterNow(s, scope, fired[..|fired| - 1]);
    }
  }

  lemma {:induction false} LeftIsLater(es: Entries, now: int)
    ensures Unexpired(es, now).Cons? ==> Unexpired(es, now).head.timer.expiry > now
  {
    if es.Cons? {
      LeftIsLater(es.tail, now);
    }
  }

  /** A flush schedules only for later, so the runtime's loop ends if others do so, too. */
  lemma FlushingSettles(s: State, scope: nat, others: Reaction, q: seq<Event>)
    requires Ordered(q) && forall h :: OnlyLater(others(h), s.now)
    ensures Settles(q, [], s.now, Flushing(s, scope, others), |DuePart(q, s.now)|)
  {
    var react := Flushing(s, scope, others);
    forall h: seq<Event> ensures OnlyLater(react(h), s.now) {
      if h != [] && h[|h| - 1].scope == scope {
        var before := After(s, scope, h[..|h| - 1]);
        AfterNow(s, scope, h[..|h| - 1]);
        LeftIsLater(before.entries, s.now);
        assert react(h) == FlushCommands(before, scope);
      } else {
        assert react(h) == others(h);
      }
    }
    DueSplit(q, s.now);
    LaterSettles(q, DuePart(q, s.now), LaterPart(q, s.now), LaterPart(q, s.now), [], s.now, react);
  }

  lemma CommandsOfFlush(s: State, scope: nat, q: seq<Event>)
    requires Ordered(q) && scope != 0 && Pending(q, scope) == []
    ensures Pending(ExecuteAll(q, FlushCommands(s, scope)), scope) == Wakes(Flush(s.(wake := None)))
  {
    var left := Unexpired(s.entries, s.now);
    if left.Cons? {
      var e := Event(left.head.timer.expiry, scope, scope);
      var cs := [Cancel(scope), Schedule(e)];
      assert cs[1..] == [Schedule(e)] && cs[1..][1..] == [];
      PendingWithoutScope(q, scope, scope);
      PendingEnqueue(WithoutScope(q, scope), e, scope);
      assert ExecuteAll(q, cs) == ExecuteAll(Enqueue(WithoutScope(q, scope), e), []);
    }
  }

  lemma AfterOne(s: State, scope: nat, others: Reaction, fired: seq<Event>, e: Event)
    ensures
      var t, history := After(s, scope, fired), fired + [e];
      && After(s, scope, history) == (if e.scope == scope then Flush(t.(wake := None)) else t)
      && Flushing(s, scope, others)(history) == if e.scope == scope then FlushCommands(t, scope) else others(history)
  {
    var history := fired + [e];
    assert history[..|history| - 1] == fired;
  }

  /** An event of the buffer at the front of the queue is the flush that is pending. */
  lemma OwnRound(s: State, capacity: nat, scope: nat, e: Event, q: seq<Event>)
    requires Ordered(q) && scope != 0 && Wakes(s) == [e.deadline] + Pending(q, scope) && e.deadline <= s.now
    ensures Flush(s.(wake := None)) == Step(s, capacity, Fire)
    ensures Wakes(Step(s, capacity, Fire)) == Pending(ExecuteAll(q, FlushCommands(s, scope)), scope)
  {
    assert Wakes(s)[0] == e.deadline;
    CommandsOfFlush(s, scope, q);
  }

  /** The buffer's view of one round: it fires if the event is its own. */
  lemma FireRound(s: State, capacity: nat, scope: nat, others: Reaction, q: seq<Event>, fired: seq<Event>)
    requires IsDue(q, s.now) && Ordered(q) && scope != 0 && LeavesScope(others(fired + [q[0]]), scope)
    requires After(s, scope, fired).now == s.now && Wakes(After(s, scope, fired)) == Pending(q, scope)
    ensures
      var t, t' := After(s, scope, fired), After(s, scope, fired + [q[0]]);
      && t' == (if q[0].scope == scope then Step(t, capacity, Fire) else t)
      && Wakes(t') == Pending(AfterServing(q, fired, Flushing(s, scope, others)), scope)
  {
    AfterOne(s, scope, others, fired, q[0]);
    if q[0].scope == scope {
      OwnRound(After(s, scope, fired), capacity, scope, q[0], q[1..]);
    } else {
      CommandsLeave(q[1..], others(fired + [q[0]]), scope);
    }
  }

  /** Firing twice is firing once: what is left is not due. */
  lemma FireOnce(s: State, capacity: nat)
    ensures !WakeDue(Step(s, capacity, Fire))
    ensures Step(Step(s, capacity, Fire), capacity, Fire) == Step(s, capacity, Fire)
  {
    LeftIsLater(s.entries, s.now);
  }

  lemma {:induction false} LoopFires(
      s: State, capacity: nat, scope: nat, others: Reaction, q: seq<Event>, fired: seq<Event>, n: nat)
    requires Ordered(q) && scope != 0 && (forall h :: LeavesScope(others(h), scope))
    requires Wakes(After(s, scope, fired)) == Pending(q, scope)
    requires Settles(q, fired, s.now, Flushing(s, scope, others), n)
    ensures
      var r := Serve(q, fired, s.now, Flushing(s, scope, others), n);
      var t := After(s, scope, r.fired);
      && t == Step(After(s, scope, fired), capacity, Fire)
      && Wakes(t) == Pending(r.queue, scope)
    decreases n
  {
    var react := Flushing(s, scope, others);
    AfterNow(s, scope, fired);
    if IsDue(q, s.now) {
      FireRound(s, capacity, scope, others, q, fired);
      ServeRound(q, fired, s.now, react, n);
      LoopFires(s, capacity, scope, others, AfterServing(q, fired, react), fired + [q[0]], n - 1);
      FireOnce(After(s, scope, fired), capacity);
    } else if Pending(q, scope) != [] {
      assert Pending(q, scope)[0] in Pending(q, scope);
    }
  }

  /** A trigger of the runtime flushes the buffer exactly as the state machine does, and leaves the
      buffer's next flush pending. */
  lemma TriggerFlushes(s: State, capacity: nat, scope: nat, others: Reaction, q: seq<Event>, n: nat)
    requires Ordered(q) && scope != 0 && (forall h :: LeavesScope(others(h), scope)) && Wakes(s) == Pending(q, scope)
    requires Settles(q, [], s.now, Flushing(s, scope, others), n)
    ensures
      var r := Serve(q, [], s.now, Flushing(s, scope, others), n);
      After(s, scope, r.fired) == Step(s, capacity, Fire) && Wakes(Step(s, capacity, Fire)) == Pending(r.queue, scope)
  {
    LoopFires(s, capacity, scope, others, q, [], n);
  }

  /** Driven by the runtime, whatever else is scheduled there: after a run whose updates are patient,
      a trigger of the runtime leaves no timer overdue. */
  lemma NeverOverdue(
      start: int, capacity: nat, ops: seq<Op>, s: State, scope: nat, others: Reaction, q: seq<Event>, n: nat, e: Entry)
    requires s == Run(Initial(start), capacity, ops).state && Unhurried(Initial(start), capacity, ops)
    requires Ordered(q) && scope != 0 && (forall h :: LeavesScope(others(h), scope)) && Wakes(s) == Pending(q, scope)
    requires Settles(q, [], s.now, Flushing(s, scope, others), n)
    requires In(e, After(s, scope, Serve(q, [], s.now, Flushing(s, scope, others), n).fired).entries)
    ensures e.timer.expiry > s.now
  {
    TriggerFlushes(s, capacity, scope, others, q, n);
    AlwaysSound(Initial(start), capacity, ops);
    AlwaysArmed(Initial(start), capacity, ops);
    StepSound(s, capacity, Fire);
    StepArmed(s, capacity, Fire);
    FireOnce(s, capacity);
    FirstIsEarliest(Step(s, capacity, Fire).entries, e);
  }
}
