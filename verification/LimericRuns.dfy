/** The LIMERIC tick in a runtime that is shared with other events, whose callbacks schedule and
    cancel as they like but leave the tick alone. */
module LimericRuns {
  import opened Runtimes
  import opened Limerics

  /** A tick is in the null scope, under the label of its object. */
  predicate IsTick(e: Event, id: nat) {
    e.scope == 0 && e.callback == id
  }

  /** When the ticks among some events are due. */
  function TickTimes(q: seq<Event>, id: nat): seq<int> {
    if q == [] then []
    else if IsTick(q[0], id) then [q[0].deadline] + TickTimes(q[1..], id)
    else TickTimes(q[1..], id)
  }

  /** Nothing is scheduled that would be a tick; cancelling cannot reach the null scope. */
  predicate LeavesTicks(cs: seq<Command>, id: nat) {
    cs != [] ==> (cs[0].Schedule? ==> !IsTick(cs[0].event, id)) && LeavesTicks(cs[1..], id)
  }

  /** The callbacks at time `now`: a tick's calls whatever listens to the duty cycle and schedules the
      next tick. */
  function TickingAmong(now: int, c: int, id: nat, others: Reaction): Reaction
    requires c > 0
  {
    (history: seq<Event>) =>
      if history != [] && IsTick(history[|history| - 1], id)
      then others(history) + [Schedule(Event(NextTick(now, c), 0, id))]
      else others(history)
  }

  // ----- ticks among other events

  lemma {:induction false} TickTimesConcat(a: seq<Event>, b: seq<Event>, id: nat)
    ensures TickTimes(a + b, id) == TickTimes(a, id) + TickTimes(b, id)
  {
    if a == [] {
      assert a + b == b;
    } else {
      assert (a + b)[0] == a[0] && (a + b)[1..] == a[1..] + b;
      TickTimesConcat(a[1..], b, id);
    }
  }

  lemma TickTimesOne(e: Event, id: nat)
    ensures TickTimes([e], id) == if IsTick(e, id) then [e.deadline] else []
  {
    assert [e][1..] == [];
  }

  lemma {:induction false} TickIsThere(q: seq<Event>, id: nat, x: int)
    requires x in TickTimes(q, id)
    ensures exists e :: e in q && e.deadline == x
  {
    if q[0].deadline != x || !IsTick(q[0], id) {
      TickIsThere(q[1..], id, x);
    }
  }

  lemma {:induction false} EnqueueOther(q: seq<Event>, e: Event, id: nat)
    requires !IsTick(e, id) || TickTimes(q, id) == []
    ensures TickTimes(Enqueue(q, e), id) == if IsTick(e, id) then [e.deadline] else TickTimes(q, id)
  {
    if q == [] || e.deadline < q[0].deadline {
      assert ([e] + q)[1..] == q;
    } else {
      EnqueueOther(q[1..], e, id);
      assert ([q[0]] + Enqueue(q[1..], e))[1..] == Enqueue(q[1..], e);
    }
  }

  lemma {:induction false} CancelMisses(q: seq<Event>, scope: nat, id: nat)
    ensures TickTimes(WithoutScope(q, scope), id) == TickTimes(q, id)
  {
    if scope != 0 && q != [] {
      CancelMisses(q[1..], scope, id);
      if q[0].scope != scope {
        assert ([q[0]] + WithoutScope(q[1..], scope))[1..] == WithoutScope(q[1..], scope);
      }
    }
  }

  lemma {:induction false} CommandsLeave(q: seq<Event>, cs: seq<Command>, id: nat)
    requires LeavesTicks(cs, id)
    ensures TickTimes(ExecuteAll(q, cs), id) == TickTimes(q, id)
    decreases |cs|
  {
    if cs != [] {
      match cs[0] {
        case Schedule(e) => EnqueueOther(q, e, id);
        case Cancel(scope) => CancelMisses(q, scope, id);
      }
      CommandsLeave(Execute(q, cs[0]), cs[1..], id);
    }
  }

  lemma {:induction false} ThenOne(q: seq<Event>, cs: seq<Command>, c: Command)
    ensures ExecuteAll(q, cs + [c]) == Execute(ExecuteAll(q, cs), c)
    decreases |cs|
  {
    if cs == [] {
      assert [] + [c] == [c] && [c][1..] == [];
      assert ExecuteAll(Execute(q, c), []) == Execute(q, c);
    } else {
      assert (cs + [c])[1..] == cs[1..] + [c];
      ThenOne(Execute(q, cs[0]), cs[1..], c);
    }
  }

  /** One round of the loop, by what it does to the ticks. */
  lemma TickRound(q: seq<Event>, fired: seq<Event>, now: int, c: int, id: nat, others: Reaction, x: int)
    requires c > 0 && q != [] && TickTimes(q, id) == [x] && LeavesTicks(others(fired + [q[0]]), id)
    ensures
      var react := TickingAmong(now, c, id, others);
      && TickTimes(AfterServing(q, fired, react), id) == [if IsTick(q[0], id) then NextTick(now, c) else x]
      && TickTimes(fired + [q[0]], id) == TickTimes(fired, id) + (if IsTick(q[0], id) then [x] else [])
  {
    var history, next := fired + [q[0]], Event(NextTick(now, c), 0, id);
    TickTimesConcat(fired, [q[0]], id);
    TickTimesOne(q[0], id);
    CommandsLeave(q[1..], others(history), id);
    if IsTick(q[0], id) {
      ThenOne(q[1..], others(history), Schedule(next));
      EnqueueOther(ExecuteAll(q[1..], others(history)), next, id);
    }
  }

  /** A trigger that ends has served the tick once if it was due and holds the next; otherwise it
      still holds the same. */
  lemma {:induction false} TickServedAmong(
      q: seq<Event>, fired: seq<Event>, now: int, c: int, id: nat, others: Reaction, n: nat, x: int)
    requires c > 0 && Ordered(q) && TickTimes(q, id) == [x] && (x <= now ==> NextTick(now, c) > now)
    requires forall h :: LeavesTicks(others(h), id)
    requires Settles(q, fired, now, TickingAmong(now, c, id, others), n)
    ensures
      var s := Serve(q, fired, now, TickingAmong(now, c, id, others), n);
      && Ordered(s.queue)
      && TickTimes(s.queue, id) == [if x <= now then NextTick(now, c) else x]
      && TickTimes(s.fired, id) == TickTimes(fired, id) + (if x <= now then [x] else [])
    decreases n
  {
    var react := TickingAmong(now, c, id, others);
    if IsDue(q, now) {
      TickRound(q, fired, now, c, id, others, x);
      ServeRound(q, fired, now, react, n);
      TickServedAmong(AfterServing(q, fired, react), fired + [q[0]], now, c, id, others, n - 1,
        if IsTick(q[0], id) then NextTick(now, c) else x);
    } else {
      assert x in TickTimes(q, id);
      TickIsThere(q, id, x);
    }
  }

  // ----- runs

  /** What is done to the runtime before it is triggered, when that is, what callbacks do, and a
      bound on the rounds of its loop. */
  datatype Occasion = Occasion(before: seq<Command>, at: int, others: Reaction, rounds: nat)

  function Moments(os: seq<Occasion>): seq<int> {
    if |os| == 0 then [] else [os[0].at] + Moments(os[1..])
  }

  function Occur(q: seq<Event>, o: Occasion, c: int, id: nat): Serving
    requires c > 0
  {
    Serve(ExecuteAll(q, o.before), [], o.at, TickingAmong(o.at, c, id, o.others), o.rounds)
  }

  /** All that is fired on some occasions, and what is pending in the end. */
  function OccurAll(q: seq<Event>, os: seq<Occasion>, c: int, id: nat): Serving
    requires c > 0
    decreases |os|
  {
    if |os| == 0 then Serving([], q)
    else
      var s := Occur(q, os[0], c, id);
      var r := OccurAll(s.queue, os[1..], c, id);
      Serving(s.fired + r.fired, r.queue)
  }

  /** The loop ends on every occasion, and only LIMERIC itself schedules its ticks. */
  ghost predicate Undisturbed(q: seq<Event>, os: seq<Occasion>, c: int, id: nat)
    requires c > 0
    decreases |os|
  {
    |os| != 0 ==>
      var o := os[0];
      && LeavesTicks(o.before, id) && (forall h :: LeavesTicks(o.others(h), id))
      && Settles(ExecuteAll(q, o.before), [], o.at, TickingAmong(o.at, c, id, o.others), o.rounds)
      && Undisturbed(Occur(q, o, c, id).queue, os[1..], c, id)
  }

  lemma OccurTicks(q: seq<Event>, os: seq<Occasion>, tick: int, c: int, id: nat)
    requires c > 0 && tick >= 0 && |os| != 0 && Ordered(q) && TickTimes(q, id) == [tick] && Undisturbed(q, os, c, id)
    ensures
      var s, at := Occur(q, os[0], c, id), os[0].at;
      && Ordered(s.queue)
      && TickTimes(s.queue, id) == [if tick <= at then NextTick(at, c) else tick]
      && TickTimes(s.fired, id) == if tick <= at then [tick] else []
  {
    var o := os[0];
    CommandsLeave(q, o.before, id);
    if tick <= o.at {
      TickOnGrid(o.at, c);
    }
    TickServedAmong(ExecuteAll(q, o.before), [], o.at, c, id, o.others, o.rounds, tick);
  }

  /** To the ticks, other events make no difference: those fired and the one pending are the same as
      in a runtime that holds nothing else. */
  lemma {:induction false} OthersDoNotMatter(q: seq<Event>, os: seq<Occasion>, tick: int, c: int, id: nat)
    requires c > 0 && tick >= 0 && Ordered(q) && TickTimes(q, id) == [tick] && Undisturbed(q, os, c, id)
    ensures
      var r, alone := OccurAll(q, os, c, id), TickRun([Event(tick, 0, id)], Moments(os), c, id);
      TickTimes(r.queue, id) == TickTimes(alone.queue, id) && TickTimes(r.fired, id) == TickTimes(alone.fired, id)
    decreases |os|
  {
    if |os| == 0 {
      TickTimesOne(Event(tick, 0, id), id);
    } else {
      var s, at := Occur(q, os[0], c, id), os[0].at;
      var next, times := if tick <= at then NextTick(at, c) else tick, Moments(os);
      assert times[0] == at && times[1..] == Moments(os[1..]);
      OccurTicks(q, os, tick, c, id);
      if tick <= at {
        TickOnGrid(at, c);
      }
      OthersDoNotMatter(s.queue, os[1..], next, c, id);
      AloneStep(tick, times, c, id);
      TickTimesConcat(s.fired, OccurAll(s.queue, os[1..], c, id).fired, id);
    }
  }

  lemma AloneStep(tick: int, times: seq<int>, c: int, id: nat)
    requires c > 0 && tick >= 0 && times != []
    ensures
      var r := TickRun([Event(tick, 0, id)], times, c, id);
      var next := if tick <= times[0] then NextTick(times[0], c) else tick;
      var later := TickRun([Event(next, 0, id)], times[1..], c, id);
      && r.queue == later.queue
      && TickTimes(r.fired, id) == (if tick <= times[0] then [tick] else []) + TickTimes(later.fired, id)
  {
    TickRunStep(tick, times, c, id);
    if tick <= times[0] {
      var later := TickRun([Event(NextTick(times[0], c), 0, id)], times[1..], c, id);
      TickTimesConcat([Event(tick, 0, id)], later.fired, id);
      TickTimesOne(Event(tick, 0, id), id);
    }
  }

  /** Alone, all that is fired are ticks. */
  lemma {:induction false} AloneCount(tick: int, times: seq<int>, c: int, id: nat)
    requires c > 0 && tick >= 0
    ensures
      var alone := TickRun([Event(tick, 0, id)], times, c, id);
      |TickTimes(alone.fired, id)| == |alone.fired|
    decreases |times|
  {
    if times != [] {
      var next := if tick <= times[0] then NextTick(times[0], c) else tick;
      TickRunStep(tick, times, c, id);
      AloneStep(tick, times, c, id);
      if tick <= times[0] {
        TickOnGrid(times[0], c);
      }
      AloneCount(next, times[1..], c, id);
    }
  }

  /** In a runtime with any other events, whenever it is triggered, one tick stays pending, on the
      grid and at least one step later for each tick fired; exactly one step later for each of them
      exactly when none is served later than one interval. */
  lemma DriftFreeAmong(q: seq<Event>, os: seq<Occasion>, tick: int, c: int, id: nat) returns (last: int)
    requires c > 0 && tick >= 0 && OnGrid(tick, c)
    requires Ordered(q) && TickTimes(q, id) == [tick] && Undisturbed(q, os, c, id)
    ensures
      var r := OccurAll(q, os, c, id);
      var n := |TickTimes(r.fired, id)|;
      && TickTimes(r.queue, id) == [last] && OnGrid(last, c)
      && last >= tick + n * (2 * c)
      && (last == tick + n * (2 * c) <==> Prompt(tick, Moments(os), c))
  {
    OthersDoNotMatter(q, os, tick, c, id);
    AloneCount(tick, Moments(os), c, id);
    last := DriftFree(tick, Moments(os), c, id);
    TickTimesOne(Event(last, 0, id), id);
  }
}
