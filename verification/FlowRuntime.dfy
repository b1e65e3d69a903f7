/** The gatekeeper's trigger as a callback of the runtime, beside the callbacks of others: the loop
    ends for every rate control, and what it does to the gatekeeper is a run of the state machine. */
module FlowRuntime {
  import opened Runtimes
  import opened FlowModel
  import FlowControls

  /** The front trigger is consumed when its callback runs. */
  function Consumed(s: State): State {
    s.(triggers := if s.triggers == [] then [] else s.triggers[1..])
  }

  /** The gatekeeper after the events fired so far. */
  function After(trc: Throttle, s: State, scope: nat, fired: seq<Event>): State
    decreases |fired|
  {
    if fired == [] then s
    else
      var before := After(trc, s, scope, fired[..|fired| - 1]);
      if fired[|fired| - 1].scope == scope then Trigger(trc, Consumed(before)) else before
  }

  /** What a trigger schedules once the next packet is gone. */
  function NextTrigger(trc: Throttle, s: State, scope: nat): seq<Command> {
    match NextQueue(trc, s.notices, s.now, s.queues)
    case None => []
    case Some(ac) =>
      var delay := trc(s.notices, s.now, TxOf(Get(s.queues, ac).head));
      [Schedule(Event(s.now + delay, scope, scope))]
  }

  function TriggerCommands(trc: Throttle, s: State, scope: nat): seq<Command> {
    NextTrigger(trc, Dequeue(trc, DropExpired(s)), scope)
  }

  /** All callbacks: an event in the gatekeeper's scope triggers it. */
  function Gatekeeper(trc: Throttle, s: State, scope: nat, others: Reaction): Reaction {
    (history: seq<Event>) =>
      if history != [] && history[|history| - 1].scope == scope
      then TriggerCommands(trc, After(trc, s, scope, history[..|history| - 1]), scope)
      else others(history)
  }

  // ----- the loop ends

  function Queued(qs: Queues): nat {
    Size(qs.vo) + Size(qs.vi) + Size(qs.be) + Size(qs.bk)
  }

  function DueCount(q: seq<Event>, now: int): nat {
    if q == [] then 0 else (if q[0].deadline <= now then 1 else 0) + DueCount(q[1..], now)
  }

  lemma {:induction false} EnqueueDue(q: seq<Event>, e: Event, now: int)
    ensures DueCount(Enqueue(q, e), now) == DueCount(q, now) + if e.deadline <= now then 1 else 0
  {
    if q == [] || e.deadline < q[0].deadline {
      assert ([e] + q)[1..] == q;
    } else {
      EnqueueDue(q[1..], e, now);
      assert ([q[0]] + Enqueue(q[1..], e))[1..] == Enqueue(q[1..], e);
    }
  }

  lemma {:induction false} CancelDue(q: seq<Event>, scope: nat, now: int)
    ensures DueCount(WithoutScope(q, scope), now) <= DueCount(q, now)
  {
    if scope != 0 && q != [] {
      CancelDue(q[1..], scope, now);
      if q[0].scope != scope {
        assert ([q[0]] + WithoutScope(q[1..], scope))[1..] == WithoutScope(q[1..], scope);
      }
    }
  }

  /** Commands add no more due events than they are, and none if they only schedule for later. */
  lemma {:induction false} CommandsDue(q: seq<Event>, cs: seq<Command>, now: int)
    ensures DueCount(ExecuteAll(q, cs), now) <= DueCount(q, now) + |cs|
    ensures OnlyLater(cs, now) ==> DueCount(ExecuteAll(q, cs), now) <= DueCount(q, now)
    decreases |cs|
  {
    if cs != [] {
      assert OnlyLater(cs, now) ==> OnlyLater(cs[1..], now);
      match cs[0] {
        case Schedule(e) => EnqueueDue(q, e, now);
        case Cancel(scope) => CancelDue(q, scope, now);
      }
      CommandsDue(Execute(q, cs[0]), cs[1..], now);
    }
  }

  lemma {:induction false} LiveSize(q: Queue, now: int)
    ensures Size(Live(q, now)) <= Size(q)
  {
    if q.Front? {
      LiveSize(q.tail, now);
    }
  }

  lemma DropExpiredQueued(s: State)
    ensures Queued(DropExpired(s).queues) <= Queued(s.queues)
  {
    LiveSize(s.queues.vo, s.now);
    LiveSize(s.queues.vi, s.now);
    LiveSize(s.queues.be, s.now);
    LiveSize(s.queues.bk, s.now);
  }

  lemma DequeueSpends(trc: Throttle, s: State)
    ensures
      var s' := Dequeue(trc, s);
      if NextQueue(trc, s.notices, s.now, s.queues).None? then s' == s else Queued(s'.queues) < Queued(s.queues)
  {
    match NextQueue(trc, s.notices, s.now, s.queues)
    case None =>
    case Some(ac) => PutQueued(s.queues, ac);
  }

  lemma PutQueued(qs: Queues, ac: Ac)
    requires Get(qs, ac).Front?
    ensures Queued(Put(qs, ac, Get(qs, ac).tail)) == Queued(qs) - 1
  {
  }

  lemma OneTrigger(trc: Throttle, s: State, scope: nat)
    ensures |NextTrigger(trc, s, scope)| == if NextQueue(trc, s.notices, s.now, s.queues).None? then 0 else 1
  {
  }

  lemma ScheduleKeeps(trc: Throttle, s: State)
    ensures ScheduleNext(trc, s).queues == s.queues
  {
  }

  /** A trigger pays for the one it schedules with the packet it sends. */
  lemma TriggerSpends(trc: Throttle, s: State, scope: nat)
    ensures Queued(Trigger(trc, s).queues) + |TriggerCommands(trc, s, scope)| <= Queued(s.queues)
  {
    var s1 := DropExpired(s);
    var s2 := Dequeue(trc, s1);
    DropExpiredQueued(s);
    DequeueSpends(trc, s1);
    OneTrigger(trc, s2, scope);
    ScheduleKeeps(trc, s2);
  }

  /** Packets queued and events due. */
  function Work(trc: Throttle, s: State, scope: nat, q: seq<Event>, fired: seq<Event>): nat {
    Queued(After(trc, s, scope, fired).queues) + DueCount(q, s.now)
  }

  lemma OwnRoundSpends(trc: Throttle, s: State, scope: nat, q: seq<Event>)
    ensures
      Queued(Trigger(trc, Consumed(s)).queues) + DueCount(ExecuteAll(q, TriggerCommands(trc, s, scope)), s.now)
      <= Queued(s.queues) + DueCount(q, s.now)
  {
    SameCommands(trc, s, scope);
    TriggerSpends(trc, Consumed(s), scope);
    CommandsDue(q, TriggerCommands(trc, s, scope), s.now);
  }

  lemma AfterOne(trc: Throttle, s: State, scope: nat, others: Reaction, fired: seq<Event>, e: Event)
    ensures
      var t, history := After(trc, s, scope, fired), fired + [e];
      && After(trc, s, scope, history) == (if e.scope == scope then Trigger(trc, Consumed(t)) else t)
      && Gatekeeper(trc, s, scope, others)(history)
        == if e.scope == scope then TriggerCommands(trc, t, scope) else others(history)
  {
    var history := fired + [e];
    assert history[..|history| - 1] == fired;
  }

  lemma RoundSpends(trc: Throttle, s: State, scope: nat, others: Reaction, q: seq<Event>, fired: seq<Event>)
    requires IsDue(q, s.now) && OnlyLater(others(fired + [q[0]]), s.now)
    requires After(trc, s, scope, fired).now == s.now
    ensures
      var react := Gatekeeper(trc, s, scope, others);
      Work(trc, s, scope, AfterServing(q, fired, react), fired + [q[0]]) < Work(trc, s, scope, q, fired)
  {
    AfterOne(trc, s, scope, others, fired, q[0]);
    if q[0].scope == scope {
      OwnRoundSpends(trc, After(trc, s, scope, fired), scope, q[1..]);
    } else {
      CommandsDue(q[1..], others(fired + [q[0]]), s.now);
    }
  }

  /** Triggers are not looked at to decide what to send and when to trigger next. */
  lemma SameCommands(trc: Throttle, s: State, scope: nat)
    ensures TriggerCommands(trc, Consumed(s), scope) == TriggerCommands(trc, s, scope)
  {
  }

  lemma {:induction false} AfterNow(trc: Throttle, s: State, scope: nat, fired: seq<Event>)
    ensures After(trc, s, scope, fired).now == s.now
    decreases |fired|
  {
    if fired != [] {
      AfterNow(trc, s, scope, fired[..|fired| - 1]);
    }
  }

  /** Whatever delays the rate control asks for, also none, a trigger of the runtime ends: every
      round takes a due event away, and a trigger that adds one has sent a packet. */
  lemma GatekeeperSettles(trc: Throttle, s: State, scope: nat, others: Reaction, q: seq<Event>)
    requires forall h :: OnlyLater(others(h), s.now)
    ensures Settles(q, [], s.now, Gatekeeper(trc, s, scope, others), Queued(s.queues) + DueCount(q, s.now))
  {
    var react := Gatekeeper(trc, s, scope, others);
    var measure := (p, f) => Work(trc, s, scope, p, f);
    forall p, f | IsDue(p, s.now) ensures measure(AfterServing(p, f, react), f + [p[0]]) < measure(p, f) {
      AfterNow(trc, s, scope, f);
      RoundSpends(trc, s, scope, others, p, f);
    }
    MeasureSettles(q, [], s.now, react, measure);
  }

  // ----- the loop runs the state machine

  function Fires(trc: Throttle, s: State, k: nat): State
    decreases k
  {
    if k == 0 then s else Fires(trc, Step(trc, s, Fire, 0), k - 1)
  }

  lemma SchedulePending(trc: Throttle, s: State, p: Waiting, scope: nat, q: seq<Event>)
    requires Ordered(q) && s.triggers == Pending(q, scope)
    ensures
      var delay := trc(s.notices, s.now, TxOf(p));
      Pending(ExecuteAll(q, [Schedule(Event(s.now + delay, scope, scope))]), scope) == ScheduleFor(trc, s, p).triggers
  {
    var delay := trc(s.notices, s.now, TxOf(p));
    FlowControls.TriggerPending(trc, q, scope, s, p, delay);
    OneScheduled(q, Event(s.now + delay, scope, scope));
  }

  lemma OneScheduled(q: seq<Event>, e: Event)
    ensures ExecuteAll(q, [Schedule(e)]) == Enqueue(q, e)
  {
    assert [Schedule(e)][1..] == [];
    assert ExecuteAll(Enqueue(q, e), []) == Enqueue(q, e);
  }

  lemma NextTriggerPending(trc: Throttle, s: State, scope: nat, q: seq<Event>)
    requires Ordered(q) && s.triggers == Pending(q, scope)
    ensures Pending(ExecuteAll(q, NextTrigger(trc, s, scope)), scope) == ScheduleNext(trc, s).triggers
  {
    match NextQueue(trc, s.notices, s.now, s.queues)
    case None =>
    case Some(ac) => SchedulePending(trc, s, Get(s.queues, ac).head, scope, q);
  }

  lemma DequeueTriggers(trc: Throttle, s: State)
    ensures Dequeue(trc, DropExpired(s)).triggers == s.triggers
  {
  }

  /** The commands of a trigger leave pending what the state machine says. */
  lemma CommandsOfTrigger(trc: Throttle, s: State, scope: nat, q: seq<Event>)
    requires Ordered(q) && s.triggers == Pending(q, scope)
    ensures Pending(ExecuteAll(q, TriggerCommands(trc, s, scope)), scope) == Trigger(trc, s).triggers
  {
    DequeueTriggers(trc, s);
    NextTriggerPending(trc, Dequeue(trc, DropExpired(s)), scope, q);
  }

  /** A trigger at the front of the queue is the one that the state machine fires. */
  lemma OwnRoundFires(trc: Throttle, s: State, scope: nat, e: Event, q: seq<Event>)
    requires Ordered(q) && s.triggers == [e.deadline] + Pending(q, scope) && e.deadline <= s.now
    ensures Trigger(trc, Consumed(s)) == Step(trc, s, Fire, 0)
    ensures Trigger(trc, Consumed(s)).triggers == Pending(ExecuteAll(q, TriggerCommands(trc, s, scope)), scope)
  {
    SameCommands(trc, s, scope);
    CommandsOfTrigger(trc, Consumed(s), scope, q);
  }

  /** The gatekeeper's view of one round: it fires if the event is its own. */
  lemma FireRound(trc: Throttle, s: State, scope: nat, others: Reaction, q: seq<Event>, fired: seq<Event>)
    requires IsDue(q, s.now) && Ordered(q) && LeavesScope(others(fired + [q[0]]), scope)
    requires After(trc, s, scope, fired).now == s.now && After(trc, s, scope, fired).triggers == Pending(q, scope)
    ensures
      var t, t' := After(trc, s, scope, fired), After(trc, s, scope, fired + [q[0]]);
      && t' == (if q[0].scope == scope then Step(trc, t, Fire, 0) else t)
      && t'.triggers == Pending(AfterServing(q, fired, Gatekeeper(trc, s, scope, others)), scope)
  {
    AfterOne(trc, s, scope, others, fired, q[0]);
    if q[0].scope == scope {
      OwnRoundFires(trc, After(trc, s, scope, fired), scope, q[0], q[1..]);
    } else {
      CommandsLeave(q[1..], others(fired + [q[0]]), scope);
    }
  }

  lemma {:induction false} LoopFires(
      trc: Throttle, s: State, scope: nat, others: Reaction, q: seq<Event>, fired: seq<Event>, n: nat) returns (k: nat)
    requires Ordered(q) && (forall h :: LeavesScope(others(h), scope))
    requires After(trc, s, scope, fired).triggers == Pending(q, scope)
    requires Settles(q, fired, s.now, Gatekeeper(trc, s, scope, others), n)
    ensures
      var r := Serve(q, fired, s.now, Gatekeeper(trc, s, scope, others), n);
      var t := After(trc, s, scope, r.fired);
      && t == Fires(trc, After(trc, s, scope, fired), k)
      && t.triggers == Pending(r.queue, scope) && !TriggerDue(t)
    decreases n
  {
    var react := Gatekeeper(trc, s, scope, others);
    AfterNow(trc, s, scope, fired);
    if IsDue(q, s.now) {
      FireRound(trc, s, scope, others, q, fired);
      ServeRound(q, fired, s.now, react, n);
      k := LoopFires(trc, s, scope, others, AfterServing(q, fired, react), fired + [q[0]], n - 1);
      k := if q[0].scope == scope then k + 1 else k;
    } else {
      k := 0;
      NothingPending(q, scope, s.now);
    }
  }

  lemma {:induction false} NothingPending(q: seq<Event>, scope: nat, now: int)
    requires Ordered(q) && !IsDue(q, now)
    ensures Pending(q, scope) == [] || Pending(q, scope)[0] > now
  {
    if Pending(q, scope) != [] {
      assert Pending(q, scope)[0] in Pending(q, scope);
    }
  }

  /** A trigger of the runtime makes the gatekeeper fire as the state machine does, as long as one of
      its triggers is due, however many other events there are. */
  lemma TriggerFires(trc: Throttle, s: State, scope: nat, others: Reaction, q: seq<Event>, n: nat) returns (k: nat)
    requires Ordered(q) && (forall h :: LeavesScope(others(h), scope)) && s.triggers == Pending(q, scope)
    requires Settles(q, [], s.now, Gatekeeper(trc, s, scope, others), n)
    ensures
      var r := Serve(q, [], s.now, Gatekeeper(trc, s, scope, others), n);
      var t := After(trc, s, scope, r.fired);
      t == Fires(trc, s, k) && t.triggers == Pending(r.queue, scope) && !TriggerDue(t)
  {
    k := LoopFires(trc, s, scope, others, q, [], n);
  }
}
