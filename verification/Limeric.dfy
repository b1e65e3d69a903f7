/** The periodic schedule of the LIMERIC duty-cycle update: ticks on multiples of two CBR intervals. */
module Limerics {
  import opened Runtimes

  /** Remainder with the sign of the dividend, as integer division truncates. */
  function TruncatedRemainder(a: int, b: int): int
    requires b > 0
  {
    if a >= 0 then a % b else -((-a) % b)
  }

  /** The time point chosen when scheduling at `now`. */
  function NextTick(now: int, cbrInterval: int): int
    requires cbrInterval > 0
  {
    var step := 2 * cbrInterval;
    var tp := now + step;
    var bias := TruncatedRemainder(tp, step);
    if bias > cbrInterval then tp + step - bias
    else if bias > 0 then tp - bias
    else tp
  }

  predicate OnGrid(tp: int, cbrInterval: int)
    requires cbrInterval > 0
  {
    tp % (2 * cbrInterval) == 0
  }

  lemma MultipleMagnitude(k: int, step: int)
    requires step > 0
    ensures k >= 1 ==> k * step >= step
    ensures k <= -1 ==> k * step <= -step
  {
    if k >= 1 {
      assert (k - 1) * step >= 0;
    } else if k <= -1 {
      assert (-k - 1) * step >= 0;
    }
  }

  /** Remainders are determined by their range. */
  lemma RemainderUnique(a: int, step: int, q: int, r: int)
    requires step > 0 && 0 <= r < step && a == q * step + r
    ensures a % step == r && a / step == q
  {
    var q', r' := a / step, a % step;
    assert a == q' * step + r';
    assert (q - q') * step == r' - r;
    MultipleMagnitude(q - q', step);
  }

  /** Where the next tick falls, from the position of the nominal time between grid points. */
  lemma TickFromPosition(now: int, c: int, s: int, q: int, r: int)
    requires c > 0 && s == 2 * c && 0 <= r < s && now + s == q * s + r && now + s >= 0
    ensures NextTick(now, c) == if r > c then (q + 1) * s else q * s
    ensures OnGrid(NextTick(now, c), c)
  {
    RemainderUnique(now + s, s, q, r);
    RemainderUnique(q * s, s, q, 0);
    RemainderUnique((q + 1) * s, s, q + 1, 0);
    Distribute(q, 1, s);
  }

  /** From the epoch on, ticks lie on the grid wherever the clock stands; before it only when
      the clock itself does (the truncated remainder is then never positive). */
  lemma TickOnGrid(now: int, c: int)
    requires c > 0
    ensures OnGrid(NextTick(now, c), c) <==> now + 2 * c >= 0 || OnGrid(now, c)
    ensures now + 2 * c >= 0 ==> now + c <= NextTick(now, c) < now + 3 * c
  {
    var tp := now + 2 * c;
    var q, r := tp / (2 * c), tp % (2 * c);
    if tp >= 0 {
      TickFromPosition(now, c, 2 * c, q, r);
    } else {
      assert NextTick(now, c) == tp;
      RemainderUnique(now, 2 * c, q - 1, r);
    }
  }

  /** A callback served late by `late` picks the tick after the grid point nearest to its
      service time, ties going to the earlier point. */
  lemma TickAfterLateness(tick: int, late: int, c: int)
    requires c > 0 && tick >= 0 && late >= 0 && OnGrid(tick, c)
    ensures NextTick(tick + late, c) == tick + (1 + (late + c - 1) / (2 * c)) * (2 * c)
    ensures NextTick(tick + late, c) == tick + 2 * c <==> late <= c
  {
    var s := 2 * c;
    var k, q, r := tick / s, late / s, late % s;
    assert tick == k * s && late == q * s + r;
    TickAtPosition(tick, late, c, s, k, q, r);
    RoundedLateness(late, c, s, q, r);
    OneStep(if r > c then q + 1 else q, s);
  }

  lemma TickAtPosition(tick: int, late: int, c: int, s: int, k: int, q: int, r: int)
    requires c > 0 && s == 2 * c && tick >= 0 && late >= 0 && 0 <= r < s
    requires tick == k * s && late == q * s + r
    ensures NextTick(tick + late, c) == tick + (1 + if r > c then q + 1 else q) * s
  {
    Distribute(k, q + 1, s);
    Distribute(k, q + 2, s);
    Distribute(q, 1, s);
    TickFromPosition(tick + late, c, s, k + (q + 1), r);
  }

  /** Lateness in whole steps, rounded to the nearest, halves down. */
  lemma RoundedLateness(late: int, c: int, s: int, q: int, r: int)
    requires c > 0 && s == 2 * c && late >= 0 && q >= 0 && 0 <= r < s && late == q * s + r
    ensures
      var m := if r > c then q + 1 else q;
      (late + c - 1) / s == m && (m == 0 <==> late <= c)
  {
    MultipleMagnitude(q, s);
    Distribute(q, 1, s);
    if r > c {
      RemainderUnique(late + c - 1, s, q + 1, r - c - 1);
    } else {
      RemainderUnique(late + c - 1, s, q, r + c - 1);
    }
  }

  lemma OneStep(m: int, s: int)
    requires s > 0
    ensures (m + 1) * s == s <==> m == 0
  {
    Distribute(m, 1, s);
    MultipleMagnitude(m, s);
  }

  lemma Distribute(a: int, b: int, s: int)
    ensures (a + b) * s == a * s + b * s
  {
  }

  // ----- ticks at the runtime

  /** The tick's callback, served at `now`: it only schedules the next tick. */
  function Ticking(now: int, c: int, id: nat): Reaction
    requires c > 0
  {
    history => [Schedule(Event(NextTick(now, c), 0, id))]
  }

  /** Triggered at `tp`, a runtime that holds a tick serves it if it is due, and holds the next. */
  lemma TickServed(tick: int, tp: int, c: int, id: nat)
    requires c > 0 && tick >= 0
    ensures
      var q, react := [Event(tick, 0, id)], Ticking(tp, c, id);
      && Settles(q, [], tp, react, 1)
      && Serve(q, [], tp, react, 1) ==
           if tick <= tp then Serving(q, [Event(NextTick(tp, c), 0, id)]) else Serving([], q)
  {
    var q, react := [Event(tick, 0, id)], Ticking(tp, c, id);
    if tick <= tp {
      TickOnGrid(tp, c);
      var next := [Event(NextTick(tp, c), 0, id)];
      var cs := react([] + [q[0]]);
      assert q[1..] == [] && cs[1..] == [];
      assert ExecuteAll(Execute([], cs[0]), cs[1..]) == next;
      assert AfterServing(q, [], react) == next && [] + [q[0]] == q;
      assert !IsDue(next, tp);
      ServeRound(q, [], tp, react, 1);
    }
  }

  /** What a runtime fires and holds after being triggered at some times. */
  function TickRun(q: seq<Event>, times: seq<int>, c: int, id: nat): Serving
    requires c > 0
    decreases |times|
  {
    if times == [] then Serving([], q)
    else
      var s := Serve(q, [], times[0], Ticking(times[0], c, id), 1);
      var r := TickRun(s.queue, times[1..], c, id);
      Serving(s.fired + r.fired, r.queue)
  }

  /** No tick is served later than one interval. */
  predicate Prompt(tick: int, times: seq<int>, c: int)
    requires c > 0
    decreases |times|
  {
    times != [] ==>
      if times[0] < tick then Prompt(tick, times[1..], c)
      else times[0] - tick <= c && Prompt(NextTick(times[0], c), times[1..], c)
  }

  lemma TickRunStep(tick: int, times: seq<int>, c: int, id: nat)
    requires c > 0 && tick >= 0 && times != []
    ensures
      var q, rest := [Event(tick, 0, id)], times[1..];
      TickRun(q, times, c, id) ==
        if times[0] < tick then TickRun(q, rest, c, id)
        else
          var r := TickRun([Event(NextTick(times[0], c), 0, id)], rest, c, id);
          Serving(q + r.fired, r.queue)
  {
    TickServed(tick, times[0], c, id);
    if times[0] < tick {
      var r := TickRun([Event(tick, 0, id)], times[1..], c, id);
      assert [] + r.fired == r.fired;
    }
  }

  /** How many ticks are served at some times, and the tick pending after them. */
  function ServedCount(tick: int, times: seq<int>, c: int): nat
    requires c > 0
    decreases |times|
  {
    if times == [] then 0
    else if times[0] < tick then ServedCount(tick, times[1..], c)
    else 1 + ServedCount(NextTick(times[0], c), times[1..], c)
  }

  function LastTick(tick: int, times: seq<int>, c: int): int
    requires c > 0
    decreases |times|
  {
    if times == [] then tick
    else LastTick(if times[0] < tick then tick else NextTick(times[0], c), times[1..], c)
  }

  /** Whenever the runtime is triggered, it keeps holding one tick. */
  lemma {:induction false} HoldsLastTick(tick: int, times: seq<int>, c: int, id: nat)
    requires c > 0 && tick >= 0
    ensures
      var r := TickRun([Event(tick, 0, id)], times, c, id);
      r.queue == [Event(LastTick(tick, times, c), 0, id)] && |r.fired| == ServedCount(tick, times, c)
    decreases |times|
  {
    if times != [] {
      TickRunStep(tick, times, c, id);
      if times[0] >= tick {
        TickOnGrid(times[0], c);
      }
      HoldsLastTick(if times[0] < tick then tick else NextTick(times[0], c), times[1..], c, id);
    }
  }

  lemma {:induction false} NoDrift(tick: int, times: seq<int>, c: int)
    requires c > 0 && tick >= 0 && OnGrid(tick, c)
    ensures
      var last, n := LastTick(tick, times, c), ServedCount(tick, times, c);
      && OnGrid(last, c) && last >= tick + n * (2 * c)
      && (last == tick + n * (2 * c) <==> Prompt(tick, times, c))
    decreases |times|
  {
    if times != [] {
      if times[0] < tick {
        NoDrift(tick, times[1..], c);
      } else {
        var late, next := times[0] - tick, NextTick(times[0], c);
        TickOnGrid(times[0], c);
        TickAfterLateness(tick, late, c);
        OneStepOn(tick, late, c);
        NoDrift(next, times[1..], c);
        StepAndMore(tick, next, LastTick(next, times[1..], c), ServedCount(next, times[1..], c), 2 * c);
      }
    }
  }

  /** The tick held is on the grid and at least one step later for each tick served; it is exactly
      one step later for each of them exactly when none is served later than one interval. */
  lemma DriftFree(tick: int, times: seq<int>, c: int, id: nat) returns (last: int)
    requires c > 0 && tick >= 0 && OnGrid(tick, c)
    ensures
      var r := TickRun([Event(tick, 0, id)], times, c, id);
      && r.queue == [Event(last, 0, id)] && OnGrid(last, c)
      && last >= tick + |r.fired| * (2 * c)
      && (last == tick + |r.fired| * (2 * c) <==> Prompt(tick, times, c))
  {
    HoldsLastTick(tick, times, c, id);
    NoDrift(tick, times, c);
    last := LastTick(tick, times, c);
  }

  /** One step and `n` more, each of them possibly longer. */
  lemma StepAndMore(tick: int, next: int, last: int, n: nat, s: int)
    requires next >= tick + s && last >= next + n * s
    ensures last >= tick + (1 + n) * s
    ensures last == tick + (1 + n) * s <==> next == tick + s && last == next + n * s
  {
    Distribute(1, n, s);
  }

  /** The next tick is never less than a step away. */
  lemma OneStepOn(tick: int, late: int, c: int)
    requires c > 0 && tick >= 0 && late >= 0 && OnGrid(tick, c)
    ensures NextTick(tick + late, c) >= tick + 2 * c
  {
    TickAfterLateness(tick, late, c);
    MultipleMagnitude(1 + (late + c - 1) / (2 * c), 2 * c);
  }

  /** Served promptly, ticks are fired at consecutive multiples of the step. */
  lemma {:induction false} PromptTicks(tick: int, times: seq<int>, c: int, id: nat, i: nat)
    requires c > 0 && tick >= 0 && OnGrid(tick, c) && Prompt(tick, times, c)
    requires i < |TickRun([Event(tick, 0, id)], times, c, id).fired|
    ensures TickRun([Event(tick, 0, id)], times, c, id).fired[i] == Event(tick + i * (2 * c), 0, id)
    decreases |times|
  {
    if times != [] {
      TickRunStep(tick, times, c, id);
      if times[0] < tick {
        PromptTicks(tick, times[1..], c, id, i);
      } else if i > 0 {
        var next := NextTick(times[0], c);
        NextIfPrompt(tick, times[0], c);
        PromptTicks(next, times[1..], c, id, i - 1);
        StepsOn(tick, next, i, 2 * c);
      }
    }
  }

  lemma NextIfPrompt(tick: int, now: int, c: int)
    requires c > 0 && tick >= 0 && OnGrid(tick, c) && tick <= now <= tick + c
    ensures NextTick(now, c) == tick + 2 * c && OnGrid(NextTick(now, c), c)
  {
    TickOnGrid(now, c);
    TickAfterLateness(tick, now - tick, c);
  }

  lemma StepsOn(tick: int, next: int, i: int, s: int)
    requires next == tick + s
    ensures next + (i - 1) * s == tick + i * s
  {
    Distribute(1, i - 1, s);
  }

  /** A tick scheduled on construction is still pending when the object has been destroyed: the
      destructor cancels the object's own scope, the tick is in the null scope. */
  lemma DestroyedStillTicks(q: seq<Event>, now: int, c: int, id: nat)
    requires c > 0 && Ordered(q)
    ensures
      var constructed := Enqueue(q, Event(NextTick(now, c), 0, id));
      Pending(WithoutScope(constructed, id), 0) == InsertSorted(Pending(q, 0), NextTick(now, c))
  {
    var constructed := Enqueue(q, Event(NextTick(now, c), 0, id));
    EnqueuePending(q, Event(NextTick(now, c), 0, id));
    PendingWithoutScope(constructed, id, 0);
  }

  class Limeric {
    const runtime: ManualRuntime
    const cbrInterval: int
    const identity: nat // scope used by the destructor only

    /** The first tick is scheduled on construction, in the null scope. */
    constructor (runtime: ManualRuntime, cbrInterval: int, identity: nat)
      requires runtime.Valid() && cbrInterval > 0
      modifies runtime`queue
      ensures this.runtime == runtime && this.cbrInterval == cbrInterval && this.identity == identity
      ensures runtime.Valid()
      ensures runtime.queue == Enqueue(old(runtime.queue), Event(NextTick(runtime.now, cbrInterval), 0, identity))
    {
      this.runtime, this.cbrInterval, this.identity := runtime, cbrInterval, identity;
      new;
      Schedule();
    }

    method Schedule()
      requires runtime.Valid() && cbrInterval > 0
      modifies runtime`queue
      ensures runtime.Valid()
      ensures runtime.queue == Enqueue(old(runtime.queue), Event(NextTick(runtime.now, cbrInterval), 0, identity))
    {
      var interval := 2 * cbrInterval;
      var tp := runtime.now + interval;
      var bias := TruncatedRemainder(tp, interval);
      if bias > cbrInterval {
        tp := tp + (interval - bias);
      } else if bias > 0 {
        tp := tp - bias;
      }
      runtime.ScheduleAt(tp, 0, identity);
    }

    /** Cancelling the object's own scope does not reach a tick held in the null scope. */
    method Destroy()
      requires runtime.Valid()
      modifies runtime`queue
      ensures runtime.Valid() && runtime.queue == WithoutScope(old(runtime.queue), identity)
      ensures forall e :: e in old(runtime.queue) && e.scope == 0 ==> e in runtime.queue
    {
      runtime.CancelScope(identity);
    }
  }
}
