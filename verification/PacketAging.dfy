/** What buffering data again when it is flushed does to its lifetime. */
module PacketAging {
  import opened Collections
  import opened Lifetimes
  import opened PacketBuffers

  /** Unexpired data that is buffered again gets a deadline off by at most half a unit, and a later
      one exactly when its remaining time is rounded up. */
  lemma ReaddedDeadline(n: Node, now: int)
    requires n.expires == n.since + Decode(n.data.lifetime) && n.since <= now <= n.expires
    ensures
      var left, again := n.expires - now, NewNode(Handover(n, now).data, now);
      var unit := Unit(SelectedBase(left));
      && (again.expires > n.expires <==> now > n.since && 2 * (left % unit) >= unit)
      && (now > n.since ==> 2 * Abs(again.expires - n.expires) <= unit)
  {
    var left := n.expires - now;
    if now > n.since {
      EncodeNearest(left);
      NearestAccurate(left, Encode(left));
      NearestGains(left, Encode(left));
    }
  }

  lemma NearestGains(d: int, out: Byte)
    requires 0 <= d && Nearest(d, out)
    ensures Decode(out) > d <==> 2 * (d % Unit(SelectedBase(d))) >= Unit(SelectedBase(d))
  {
    match Base(out)
    case 0 => NearestGains0(d, out);
    case 1 => NearestGains1(d, out);
    case 2 => NearestGains2(d, out);
    case _ => NearestGains3(d, out);
  }

  lemma NearestGains0(d: int, out: Byte)
    requires 0 <= d && Nearest(d, out) && Base(out) == 0
    ensures Decode(out) > d <==> 2 * (d % 50_000) >= 50_000
  {
  }

  lemma NearestGains1(d: int, out: Byte)
    requires 0 <= d && Nearest(d, out) && Base(out) == 1
    ensures Decode(out) > d <==> 2 * (d % 1_000_000) >= 1_000_000
  {
  }

  lemma NearestGains2(d: int, out: Byte)
    requires 0 <= d && Nearest(d, out) && Base(out) == 2
    ensures Decode(out) > d <==> 2 * (d % 10_000_000) >= 10_000_000
  {
  }

  lemma NearestGains3(d: int, out: Byte)
    requires 0 <= d && Nearest(d, out) && Base(out) == 3
    ensures Decode(out) > d <==> 2 * (d % 100_000_000) >= 100_000_000
  {
  }

  /** What was handed out last is buffered again at once. */
  function Again(now: int): Reaction {
    (out: seq<Delivery>) =>
      if out == [] then []
      else var d := out[|out| - 1].data; [Offer(d.length, d.lifetime, now)]
  }

  /** `count` flushes, one every `period`, whose data is buffered again. */
  function Refreshes(count: nat, from: int, period: int): seq<Op> {
    if count == 0 then []
    else [FlushOp(from + period, Again(from + period))] + Refreshes(count - 1, from + period, period)
  }

  function Refresh(capacity: nat, t: Trace, now: int, period: int): Trace {
    Step(capacity, t, FlushOp(now + period, Again(now + period)))
  }

  /** The buffer holds one datum with its whole lifetime left at `now`. */
  predicate Young(t: Trace, length: nat, lifetime: Byte, now: int) {
    t.next > 0 && t.nodes == Cons(NewNode(Data(t.next - 1, length, lifetime), now), Nil)
  }

  /** The buffer holds one datum with all of `left` left at `now`, in whatever octet. */
  predicate Full(t: Trace, length: nat, left: int, now: int) {
    && t.nodes.Cons?
    && Young(t, length, t.nodes.head.data.lifetime, now)
    && Decode(t.nodes.head.data.lifetime) == left
  }

  /** Buffering again after `gap` costs a lifetime nothing: what is left is rounded up to all of it. */
  predicate Harmless(left: int, gap: nat) {
    gap == 0 || (gap < left && 2 * gap <= Unit(SelectedBase(left - gap)))
  }

  /** A reduction keeps the value of a lifetime, possibly in another octet, exactly if it takes at
      most half a unit off it: the unit in which the rest is encoded. */
  lemma ReduceKeepsValue(lifetime: Byte, gap: nat)
    requires gap <= Decode(lifetime)
    ensures Decode(Reduce(lifetime, gap).0) == Decode(lifetime) <==> Harmless(Decode(lifetime), gap)
  {
    if 0 < gap < Decode(lifetime) {
      var left := Decode(lifetime) - gap;
      EncodeNearest(left);
      NearestKeepsValue(lifetime, left, Encode(left));
    }
  }

  lemma NearestKeepsValue(raw: Byte, left: int, out: Byte)
    requires Nearest(left, out) && 0 < left < Decode(raw)
    ensures Decode(out) == Decode(raw) <==> 2 * (Decode(raw) - left) <= Unit(SelectedBase(left))
  {
    match Base(out)
    case 0 => NearestKeepsValue0(raw, left, out);
    case 1 => NearestKeepsValue1(raw, left, out);
    case 2 => NearestKeepsValue2(raw, left, out);
    case _ => NearestKeepsValue3(raw, left, out);
  }

  lemma NearestKeepsValue0(raw: Byte, left: int, out: Byte)
    requires Nearest(left, out) && 0 < left < Decode(raw) && Base(out) == 0
    ensures Decode(out) == Decode(raw) <==> 2 * (Decode(raw) - left) <= 50_000
  {
  }

  lemma NearestKeepsValue1(raw: Byte, left: int, out: Byte)
    requires Nearest(left, out) && 0 < left < Decode(raw) && Base(out) == 1
    ensures Decode(out) == Decode(raw) <==> 2 * (Decode(raw) - left) <= 1_000_000
  {
  }

  lemma NearestKeepsValue2(raw: Byte, left: int, out: Byte)
    requires Nearest(left, out) && 0 < left < Decode(raw) && Base(out) == 2
    ensures Decode(out) == Decode(raw) <==> 2 * (Decode(raw) - left) <= 10_000_000
  {
  }

  lemma NearestKeepsValue3(raw: Byte, left: int, out: Byte)
    requires Nearest(left, out) && 0 < left < Decode(raw) && Base(out) == 3
    ensures Decode(out) == Decode(raw) <==> 2 * (Decode(raw) - left) <= 100_000_000
  {
  }

  lemma RefreshOnce(capacity: nat, t: Trace, length: nat, lifetime: Byte, now: int, period: int)
    requires length <= capacity && Young(t, length, lifetime, now) && 0 <= period <= Decode(lifetime)
    ensures
      var t' := Refresh(capacity, t, now, period);
      Young(t', length, Reduce(lifetime, period).0, now + period)
  {
    var at, n := now + period, t.nodes.head;
    var d := Handover(n, at);
    var flushed := Trace(Nil, t.next, Logged(t.log, Exit(n, Flushed(d.remaining), at)));
    var offer := Offer(length, Reduce(lifetime, period).0, at);
    var after := Attempt(capacity, flushed, offer);
    assert [] + [d] == [d];
    assert Again(at)([d]) == [offer];
    assert [offer][1..] == [];
    assert AttemptAll(capacity, flushed, [offer]) == after;
    assert FlushOut(capacity, after, Nil, at, [d], Again(at)) == after;
    assert FlushOut(capacity, t.(nodes := Nil), Cons(n, Nil), at, [], Again(at)) == after;
  }

  lemma RefreshLate(capacity: nat, t: Trace, length: nat, lifetime: Byte, now: int, period: int)
    requires Young(t, length, lifetime, now) && period > Decode(lifetime)
    ensures Refresh(capacity, t, now, period).nodes == Nil
  {
    var at, n := now + period, t.nodes.head;
    var gone := Trace(Nil, t.next, Logged(t.log, Exit(n, Expired, at)));
    assert FlushOut(capacity, t.(nodes := Nil), Cons(n, Nil), at, [], Again(at))
      == FlushOut(capacity, gone, Nil, at, [], Again(at)) == gone;
  }

  lemma RefreshFirst(capacity: nat, t: Trace, count: nat, now: int, period: int)
    requires count > 0
    ensures
      Run(capacity, t, Refreshes(count, now, period))
      == Run(capacity, Refresh(capacity, t, now, period),
        Refreshes(count - 1, now + period, period))
  {
    var op, later := FlushOp(now + period, Again(now + period)), Refreshes(count - 1, now + period, period);
    assert ([op] + later)[1..] == later;
  }

  /** `count` periods from now. */
  function After(now: int, period: int, count: nat): int
    decreases count
  {
    if count == 0 then now else After(now + period, period, count - 1)
  }

  lemma {:induction false} AfterPeriods(now: int, period: int, count: nat)
    ensures After(now, period, count) == now + count * period
    decreases count
  {
    if count > 0 {
      AfterPeriods(now + period, period, count - 1);
      assert period + (count - 1) * period == count * period;
    }
  }

  function Refreshed(capacity: nat, t: Trace, now: int, period: int, count: nat): Trace
    decreases count
  {
    if count == 0 then t else Refreshed(capacity, Refresh(capacity, t, now, period), now + period, period, count - 1)
  }

  lemma {:induction false} RefreshesRun(capacity: nat, t: Trace, now: int, period: int, count: nat)
    ensures Run(capacity, t, Refreshes(count, now, period)) == Refreshed(capacity, t, now, period, count)
    decreases count
  {
    if count > 0 {
      RefreshFirst(capacity, t, count, now, period);
      RefreshesRun(capacity, Refresh(capacity, t, now, period), now + period, period, count - 1);
    }
  }

  /** What one such flush keeps, any number of them keeps. */
  lemma {:induction false} RefreshesKeep(
      capacity: nat, t: Trace, now: int, period: int, count: nat, kept: (Trace, int) -> bool)
    requires kept(t, now)
    requires forall s, at {:trigger Refresh(capacity, s, at, period)} ::
      kept(s, at) ==> kept(Refresh(capacity, s, at, period), at + period)
    ensures kept(Refreshed(capacity, t, now, period, count), After(now, period, count))
    decreases count
  {
    if count > 0 {
      RefreshesKeep(capacity, Refresh(capacity, t, now, period), now + period, period, count - 1, kept);
    }
  }

  /** One flush and buffering again. */
  lemma RefreshExact(capacity: nat, t: Trace, length: nat, left: int, now: int, gap: nat)
    requires length <= capacity && Full(t, length, left, now)
    ensures Full(Refresh(capacity, t, now, gap), length, left, now + gap) <==> Harmless(left, gap)
  {
    var lifetime := t.nodes.head.data.lifetime;
    if gap <= left {
      RefreshOnce(capacity, t, length, lifetime, now, gap);
      ReduceKeepsValue(lifetime, gap);
    } else {
      RefreshLate(capacity, t, length, lifetime, now, gap);
    }
  }

  /** The whole lifetime is left after each of some flushes, `gaps` apart. */
  predicate FullThroughout(capacity: nat, t: Trace, length: nat, left: int, now: int, gaps: seq<nat>)
    decreases |gaps|
  {
    gaps != [] ==>
      var t', at := Refresh(capacity, t, now, gaps[0]), now + gaps[0];
      Full(t', length, left, at) && FullThroughout(capacity, t', length, left, at, gaps[1..])
  }

  predicate AllHarmless(left: int, gaps: seq<nat>) {
    gaps != [] ==> Harmless(left, gaps[0]) && AllHarmless(left, gaps[1..])
  }

  /** Data that is buffered again at each flush, whenever these are, never ages exactly if no gap
      between them takes more than half a unit off its lifetime. */
  lemma {:induction false} FullAtEveryFlush(
      capacity: nat, t: Trace, length: nat, left: int, now: int, gaps: seq<nat>)
    requires length <= capacity && Full(t, length, left, now)
    ensures FullThroughout(capacity, t, length, left, now, gaps) <==> AllHarmless(left, gaps)
    decreases |gaps|
  {
    if gaps != [] {
      RefreshExact(capacity, t, length, left, now, gaps[0]);
      if Harmless(left, gaps[0]) {
        FullAtEveryFlush(capacity, Refresh(capacity, t, now, gaps[0]), length, left, now + gaps[0], gaps[1..]);
      }
    }
  }

  lemma FullRefreshed(capacity: nat, t: Trace, length: nat, left: int, now: int, period: nat, count: nat)
    requires length <= capacity && Full(t, length, left, now) && Harmless(left, period)
    ensures Full(Refreshed(capacity, t, now, period, count), length, left, After(now, period, count))
  {
    var kept := (s, at) => Full(s, length, left, at);
    forall s, at | kept(s, at) ensures kept(Refresh(capacity, s, at, period), at + period) {
      RefreshExact(capacity, s, length, left, at, period);
    }
    RefreshesKeep(capacity, t, now, period, count, kept);
  }

  lemma FullStays(capacity: nat, t: Trace, length: nat, left: int, now: int, period: nat, count: nat)
    requires length <= capacity && Full(t, length, left, now) && Harmless(left, period)
    ensures Full(Run(capacity, t, Refreshes(count, now, period)), length, left, now + count * period)
  {
    FullRefreshed(capacity, t, length, left, now, period, count);
    AfterPeriods(now, period, count);
    RefreshesRun(capacity, t, now, period, count);
  }

  /** A datum that is flushed and buffered again with a fixed period has its whole lifetime left
      after any number of flushes exactly if the period takes at most half a unit off it, the unit
      being that of what is left after one period. */
  lemma NeverAges(capacity: nat, t: Trace, length: nat, left: int, now: int, period: int)
    requires length <= capacity && Full(t, length, left, now) && 0 < period
    ensures
      (forall count: nat ::
        Full(Run(capacity, t, Refreshes(count, now, period)), length, left, now + count * period))
      <==> period < left && 2 * period <= Unit(SelectedBase(left - period))
  {
    if Harmless(left, period) {
      forall count: nat
        ensures Full(Run(capacity, t, Refreshes(count, now, period)), length, left, now + count * period)
      {
        FullStays(capacity, t, length, left, now, period, count);
      }
    } else {
      RefreshExact(capacity, t, length, left, now, period);
      RefreshFirst(capacity, t, 1, now, period);
      assert Run(capacity, t, Refreshes(1, now, period)) == Refresh(capacity, t, now, period);
      assert !Full(Run(capacity, t, Refreshes(1, now, period)), length, left, now + 1 * period);
    }
  }

  /** What a period costs a lifetime, it costs a shorter one. */
  lemma HarmfulToLess(left: int, less: int, period: nat)
    requires less <= left && !Harmless(left, period)
    ensures !Harmless(less, period)
  {
  }

  /** A lifetime that ages once ages at every flush until it has passed. */
  lemma {:induction false} AgesAway(
      capacity: nat, t: Trace, length: nat, left: nat, now: int, period: nat) returns (count: nat)
    requires length <= capacity && Full(t, length, left, now) && !Harmless(left, period)
    ensures Refreshed(capacity, t, now, period, count).nodes == Nil
    decreases left
  {
    var lifetime, t', at := t.nodes.head.data.lifetime, Refresh(capacity, t, now, period), now + period;
    if period > left {
      RefreshLate(capacity, t, length, lifetime, now, period);
      count := 1;
      assert Refreshed(capacity, t', at, period, 0) == t';
    } else {
      var less := Decode(Reduce(lifetime, period).0);
      RefreshOnce(capacity, t, length, lifetime, now, period);
      ReduceKeepsValue(lifetime, period);
      ReduceSound(lifetime, period);
      HarmfulToLess(left, less, period);
      var more := AgesAway(capacity, t', length, less, at, period);
      count := more + 1;
    }
  }

  /** Such a datum leaves the buffer at some flush exactly if the period takes more than half a unit
      off it: if it ages at all, it ages away. */
  lemma LeavesIff(capacity: nat, t: Trace, length: nat, left: nat, now: int, period: nat)
    requires length <= capacity && Full(t, length, left, now)
    ensures (exists count: nat :: Run(capacity, t, Refreshes(count, now, period)).nodes == Nil)
      <==> !Harmless(left, period)
  {
    if Harmless(left, period) {
      forall count: nat ensures Run(capacity, t, Refreshes(count, now, period)).nodes != Nil {
        FullStays(capacity, t, length, left, now, period, count);
      }
    } else {
      var count := AgesAway(capacity, t, length, left, now, period);
      RefreshesRun(capacity, t, now, period, count);
    }
  }

  /** Six, and sixty, times ten seconds: the default and the maximum lifetime of a packet. */
  const DEFAULT_LIFETIME: Byte := 26

  const MAXIMUM_LIFETIME: Byte := 27

  lemma DecodedLifetimes()
    ensures Decode(DEFAULT_LIFETIME) == 60_000_000 && Decode(MAXIMUM_LIFETIME) == 600_000_000
  {
  }

  /** A packet of default lifetime that is flushed and buffered again every 0.4 s never leaves:
      after 151 flushes, say, it has been buffered for 60.4 s and would still be flushed with 60 s
      left, though in another octet than at first. */
  lemma DefaultOutlives(t: Trace, count: nat)
    requires t == Step(8192, Trace(Nil, 0, Start), PushOp(Offer(100, DEFAULT_LIFETIME, 0)))
    ensures Full(Run(8192, t, Refreshes(count, 0, 400_000)), 100, 60_000_000, count * 400_000)
    ensures Reduce(DEFAULT_LIFETIME, 400_000).0 != DEFAULT_LIFETIME
  {
    DecodedLifetimes();
    FullStays(8192, t, 100, 60_000_000, 0, 400_000, count);
  }

  /** And so does one of maximum lifetime, every 4 s. */
  lemma MaximumOutlives(t: Trace, count: nat)
    requires t == Step(8192, Trace(Nil, 0, Start), PushOp(Offer(100, MAXIMUM_LIFETIME, 0)))
    ensures Full(Run(8192, t, Refreshes(count, 0, 4_000_000)), 100, 600_000_000, count * 4_000_000)
  {
    DecodedLifetimes();
    FullStays(8192, t, 100, 600_000_000, 0, 4_000_000, count);
  }
}
