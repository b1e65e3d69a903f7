/** Store-and-forward buffer of bounded size: packets expire, and the oldest make room. */
module PacketBuffers {
  import opened Collections
  import opened Lifetimes

  /** Buffered data; tickets number the attempts to push. */
  datatype Data = Data(ticket: nat, length: nat, lifetime: Byte)

  datatype Node = Node(data: Data, since: int, expires: int)

  /** Nodes, the head of the queue first. */
  datatype Nodes = Nil | Cons(head: Node, tail: Nodes)

  function Total(ns: Nodes): nat {
    if ns.Nil? then 0 else ns.head.data.length + Total(ns.tail)
  }

  function Append(ns: Nodes, n: Node): Nodes {
    if ns.Nil? then Cons(n, Nil) else Cons(ns.head, Append(ns.tail, n))
  }

  predicate IsExpired(n: Node, now: int) {
    n.expires < now
  }

  function Live(ns: Nodes, now: int): Nodes {
    if ns.Nil? then Nil
    else if IsExpired(ns.head, now) then Live(ns.tail, now)
    else Cons(ns.head, Live(ns.tail, now))
  }

  /** Drop heads until the rest takes at most `room` bytes. */
  function DropToFit(ns: Nodes, room: int): Nodes {
    if ns.Nil? || Total(ns) <= room then ns else DropToFit(ns.tail, room)
  }

  function NewNode(d: Data, now: int): Node {
    var (lifetime, remaining) := Reduce(d.lifetime, 0);
    Node(d.(lifetime := lifetime), now, now + remaining)
  }

  function Push(capacity: nat, ns: Nodes, d: Data, now: int): Nodes {
    var kept := DropToFit(Live(ns, now), capacity - d.length);
    if Total(kept) <= capacity - d.length then Append(kept, NewNode(d, now)) else kept
  }

  // ----- what one push does

  /** `r` is what is left of `s` without some first nodes. */
  predicate IsSuffix(r: Nodes, s: Nodes) {
    r == s || (s.Cons? && IsSuffix(r, s.tail))
  }

  /** The longest suffix that takes at most `room` bytes. */
  ghost predicate LongestFitting(r: Nodes, s: Nodes, room: int) {
    && IsSuffix(r, s) && Total(r) <= room
    && forall t :: IsSuffix(t, s) && Total(t) <= room ==> IsSuffix(t, r)
  }

  lemma {:induction false} SuffixTotal(r: Nodes, s: Nodes)
    requires IsSuffix(r, s)
    ensures Total(r) <= Total(s)
  {
    if r != s {
      SuffixTotal(r, s.tail);
    }
  }

  lemma {:induction false} DropToFitLongest(ns: Nodes, room: nat)
    ensures LongestFitting(DropToFit(ns, room), ns, room)
  {
    if ns.Cons? && Total(ns) > room {
      DropToFitLongest(ns.tail, room);
    }
  }

  lemma {:induction false} DropToFitRoom(ns: Nodes, room: int)
    ensures room < 0 ==> DropToFit(ns, room) == Nil
    ensures room >= 0 ==> Total(DropToFit(ns, room)) <= room
  {
    if ns.Cons? && Total(ns) > room {
      DropToFitRoom(ns.tail, room);
    }
  }

  /** Data that fits the whole buffer is stored behind the longest suffix of the unexpired nodes
      that fits beside it; data that does not leaves the buffer empty. */
  lemma PushExact(capacity: nat, ns: Nodes, d: Data, now: int)
    ensures d.length <= capacity ==>
      var room, live := capacity - d.length, Live(ns, now);
      exists kept :: LongestFitting(kept, live, room) && Push(capacity, ns, d, now) == Append(kept, NewNode(d, now))
    ensures d.length > capacity ==> Push(capacity, ns, d, now) == Nil
    ensures NewNode(d, now) == Node(d, now, now + Decode(d.lifetime))
  {
    if d.length <= capacity {
      DropToFitLongest(Live(ns, now), capacity - d.length);
      var kept := DropToFit(Live(ns, now), capacity - d.length);
      var room, live := capacity - d.length, Live(ns, now);
      assert LongestFitting(kept, live, room) && Push(capacity, ns, d, now) == Append(kept, NewNode(d, now));
    } else {
      DropToFitRoom(Live(ns, now), capacity - d.length);
    }
  }

  lemma {:induction false} AppendTotal(ns: Nodes, n: Node)
    ensures Total(Append(ns, n)) == Total(ns) + n.data.length
  {
    if ns.Cons? {
      AppendTotal(ns.tail, n);
    }
  }

  lemma PushWithinCapacity(capacity: nat, ns: Nodes, d: Data, now: int)
    ensures Total(Push(capacity, ns, d, now)) <= capacity
  {
    AppendTotal(DropToFit(Live(ns, now), capacity - d.length), NewNode(d, now));
    DropToFitRoom(Live(ns, now), capacity - d.length);
  }

  // ----- runs

  datatype Fate = Flushed(remaining: int) | Expired | HeadDropped | Refused

  datatype Exit = Exit(node: Node, fate: Fate, at: int)

  /** Exits, the latest last. */
  datatype Log = Start | Logged(earlier: Log, exit: Exit)

  /** What a flush hands out. */
  datatype Delivery = Delivery(data: Data, remaining: int)

  /** Data offered to the buffer at a time. */
  datatype Offer = Offer(length: nat, lifetime: Byte, at: int)

  /** What the datum handed out last offers to the buffer when it is flushed; it may depend on all
      that this flush has handed out. */
  type Reaction = seq<Delivery> -> seq<Offer>

  datatype Op = PushOp(offer: Offer) | FlushOp(now: int, react: Reaction)

  datatype Trace = Trace(nodes: Nodes, next: nat, log: Log)

  function LogExpired(log: Log, ns: Nodes, now: int): Log
    decreases ns
  {
    if ns.Nil? then log
    else LogExpired(if IsExpired(ns.head, now) then Logged(log, Exit(ns.head, Expired, now)) else log, ns.tail, now)
  }

  function LogDropped(log: Log, ns: Nodes, room: int, now: int): Log
    decreases ns
  {
    if ns.Nil? || Total(ns) <= room then log
    else LogDropped(Logged(log, Exit(ns.head, HeadDropped, now)), ns.tail, room, now)
  }

  function Attempt(capacity: nat, t: Trace, o: Offer): Trace {
    var d := Data(t.next, o.length, o.lifetime);
    var dropped := LogDropped(LogExpired(t.log, t.nodes, o.at), Live(t.nodes, o.at), capacity - o.length, o.at);
    Trace(Push(capacity, t.nodes, d, o.at), t.next + 1,
      if o.length <= capacity then dropped else Logged(dropped, Exit(NewNode(d, o.at), Refused, o.at)))
  }

  function AttemptAll(capacity: nat, t: Trace, offers: seq<Offer>): Trace
    decreases |offers|
  {
    if offers == [] then t else AttemptAll(capacity, Attempt(capacity, t, offers[0]), offers[1..])
  }

  function Handover(n: Node, now: int): Delivery {
    var (lifetime, remaining) := Reduce(n.data.lifetime, now - n.since);
    Delivery(n.data.(lifetime := lifetime), remaining)
  }

  /** Hand out the unexpired of the nodes taken from the buffer, in queue order, and store what
      they offer. */
  function FlushOut(capacity: nat, t: Trace, taken: Nodes, now: int, out: seq<Delivery>, react: Reaction): Trace
    decreases taken
  {
    if taken.Nil? then t
    else if IsExpired(taken.head, now) then
      FlushOut(capacity, t.(log := Logged(t.log, Exit(taken.head, Expired, now))), taken.tail, now, out, react)
    else
      var d := Handover(taken.head, now);
      var flushed := t.(log := Logged(t.log, Exit(taken.head, Flushed(d.remaining), now)));
      FlushOut(capacity, AttemptAll(capacity, flushed, react(out + [d])), taken.tail, now, out + [d], react)
  }

  function Step(capacity: nat, t: Trace, op: Op): Trace {
    match op
    case PushOp(offer) => Attempt(capacity, t, offer)
    case FlushOp(now, react) => FlushOut(capacity, t.(nodes := Nil), t.nodes, now, [], react)
  }

  function Run(capacity: nat, t: Trace, ops: seq<Op>): Trace
    decreases |ops|
  {
    if |ops| == 0 then t else Run(capacity, Step(capacity, t, ops[0]), ops[1..])
  }

  // ----- conservation

  function Held(ns: Nodes, k: nat): nat {
    if ns.Nil? then 0 else (if ns.head.data.ticket == k then 1 else 0) + Held(ns.tail, k)
  }

  function Left(log: Log, k: nat): nat {
    if log.Start? then 0 else Left(log.earlier, k) + (if log.exit.node.data.ticket == k then 1 else 0)
  }

  lemma {:induction false} ExpiredCount(log: Log, ns: Nodes, now: int, k: nat)
    ensures Left(LogExpired(log, ns, now), k) + Held(Live(ns, now), k) == Left(log, k) + Held(ns, k)
    decreases ns
  {
    if ns.Cons? {
      ExpiredCount(if IsExpired(ns.head, now) then Logged(log, Exit(ns.head, Expired, now)) else log, ns.tail, now, k);
    }
  }

  lemma {:induction false} DroppedCount(log: Log, ns: Nodes, room: int, now: int, k: nat)
    ensures Left(LogDropped(log, ns, room, now), k) + Held(DropToFit(ns, room), k) == Left(log, k) + Held(ns, k)
    decreases ns
  {
    if ns.Cons? && Total(ns) > room {
      DroppedCount(Logged(log, Exit(ns.head, HeadDropped, now)), ns.tail, room, now, k);
    }
  }

  lemma {:induction false} AppendHeld(ns: Nodes, n: Node, k: nat)
    ensures Held(Append(ns, n), k) == Held(ns, k) + (if n.data.ticket == k then 1 else 0)
  {
    if ns.Cons? {
      AppendHeld(ns.tail, n, k);
    }
  }

  lemma AttemptCount(capacity: nat, t: Trace, o: Offer, k: nat)
    ensures
      var t' := Attempt(capacity, t, o);
      Held(t'.nodes, k) + Left(t'.log, k) == Held(t.nodes, k) + Left(t.log, k) + (if t.next == k then 1 else 0)
  {
    var d, live := Data(t.next, o.length, o.lifetime), Live(t.nodes, o.at);
    ExpiredCount(t.log, t.nodes, o.at, k);
    DroppedCount(LogExpired(t.log, t.nodes, o.at), live, capacity - o.length, o.at, k);
    AppendHeld(DropToFit(live, capacity - o.length), NewNode(d, o.at), k);
    DropToFitRoom(live, capacity - o.length);
  }

  /** The attempts made on the way from `t` to `t'`, of which `k` may be one. */
  function Tried(t: Trace, t': Trace, k: nat): nat {
    if t.next <= k < t'.next then 1 else 0
  }

  lemma {:induction false} AttemptAllCount(capacity: nat, t: Trace, offers: seq<Offer>, k: nat)
    ensures
      var t' := AttemptAll(capacity, t, offers);
      && t.next <= t'.next
      && Held(t'.nodes, k) + Left(t'.log, k) == Held(t.nodes, k) + Left(t.log, k) + Tried(t, t', k)
    decreases |offers|
  {
    if offers != [] {
      AttemptCount(capacity, t, offers[0], k);
      AttemptAllCount(capacity, Attempt(capacity, t, offers[0]), offers[1..], k);
    }
  }

  lemma {:induction false} FlushOutCount(
      capacity: nat, t: Trace, taken: Nodes, now: int, out: seq<Delivery>, react: Reaction, k: nat)
    ensures
      var t' := FlushOut(capacity, t, taken, now, out, react);
      && t.next <= t'.next
      && Held(t'.nodes, k) + Left(t'.log, k) == Held(taken, k) + Held(t.nodes, k) + Left(t.log, k) + Tried(t, t', k)
    decreases taken
  {
    if taken.Cons? {
      var h := taken.head;
      if IsExpired(h, now) {
        FlushOutCount(capacity, t.(log := Logged(t.log, Exit(h, Expired, now))), taken.tail, now, out, react, k);
      } else {
        var d := Handover(h, now);
        var flushed := t.(log := Logged(t.log, Exit(h, Flushed(d.remaining), now)));
        AttemptAllCount(capacity, flushed, react(out + [d]), k);
        FlushOutCount(capacity, AttemptAll(capacity, flushed, react(out + [d])), taken.tail, now, out + [d], react, k);
      }
    }
  }

  lemma StepCount(capacity: nat, t: Trace, op: Op, k: nat)
    ensures
      var t' := Step(capacity, t, op);
      && t.next <= t'.next
      && Held(t'.nodes, k) + Left(t'.log, k) == Held(t.nodes, k) + Left(t.log, k) + Tried(t, t', k)
  {
    match op
    case PushOp(offer) => AttemptCount(capacity, t, offer, k);
    case FlushOp(now, react) => FlushOutCount(capacity, t.(nodes := Nil), t.nodes, now, [], react, k);
  }

  /** In every run, each attempt to push, also by data being flushed, is accounted for exactly
      once: still held, flushed, expired, head-dropped or refused. */
  lemma {:induction false} Conservation(capacity: nat, t: Trace, ops: seq<Op>, k: nat)
    requires Held(t.nodes, k) + Left(t.log, k) == if k < t.next then 1 else 0
    ensures
      var t' := Run(capacity, t, ops);
      Held(t'.nodes, k) + Left(t'.log, k) == if k < t'.next then 1 else 0
    decreases |ops|
  {
    if |ops| != 0 {
      StepCount(capacity, t, ops[0], k);
      Conservation(capacity, Step(capacity, t, ops[0]), ops[1..], k);
    }
  }

  // ----- order and timeliness

  /** Tickets rise from `low` on and stay below `high`; expiry follows from arrival. */
  predicate Ascending(ns: Nodes, low: int, high: int) {
    if ns.Nil? then low <= high
    else
      && low <= ns.head.data.ticket < high
      && ns.head.expires == ns.head.since + Decode(ns.head.data.lifetime)
      && Ascending(ns.tail, ns.head.data.ticket + 1, high)
  }

  /** One more than the ticket flushed last. */
  function AfterLast(log: Log): nat {
    if log.Start? then 0
    else if log.exit.fate.Flushed? then log.exit.node.data.ticket + 1
    else AfterLast(log.earlier)
  }

  /** Flushed tickets rise. Data flushed was in the queue no longer than its lifetime, which
      leaves it exactly the rest; data expired was there longer. */
  predicate Orderly(log: Log) {
    log.Logged? ==>
      && Orderly(log.earlier)
      && var (node, at) := (log.exit.node, log.exit.at);
         match log.exit.fate
         case Flushed(remaining) =>
           && AfterLast(log.earlier) <= node.data.ticket
           && 0 <= remaining == Decode(node.data.lifetime) - Max(0, at - node.since)
         case Expired => at - node.since > Decode(node.data.lifetime)
         case HeadDropped => true
         case Refused => true
  }

  predicate Fine(t: Trace) {
    Ascending(t.nodes, AfterLast(t.log), t.next) && Orderly(t.log)
  }

  lemma {:induction false} AscendingWeaken(ns: Nodes, low: int, high: int, low': int, high': int)
    requires Ascending(ns, low, high) && low' <= low && high <= high'
    ensures Ascending(ns, low', high')
  {
    if ns.Cons? {
      AscendingWeaken(ns.tail, ns.head.data.ticket + 1, high, ns.head.data.ticket + 1, high');
    }
  }

  lemma {:induction false} LiveFine(ns: Nodes, now: int, low: int, high: int, log: Log)
    requires Ascending(ns, low, high) && Orderly(log)
    ensures Ascending(Live(ns, now), low, high)
    ensures Orderly(LogExpired(log, ns, now)) && AfterLast(LogExpired(log, ns, now)) == AfterLast(log)
  {
    if ns.Cons? {
      var h := ns.head;
      if IsExpired(h, now) {
        AscendingWeaken(ns.tail, h.data.ticket + 1, high, low, high);
        LiveFine(ns.tail, now, low, high, Logged(log, Exit(h, Expired, now)));
      } else {
        LiveFine(ns.tail, now, h.data.ticket + 1, high, log);
      }
    }
  }

  lemma {:induction false} DropFine(ns: Nodes, room: int, now: int, low: int, high: int, log: Log)
    requires Ascending(ns, low, high) && Orderly(log)
    ensures Ascending(DropToFit(ns, room), low, high)
    ensures Orderly(LogDropped(log, ns, room, now)) && AfterLast(LogDropped(log, ns, room, now)) == AfterLast(log)
  {
    if ns.Cons? && Total(ns) > room {
      AscendingWeaken(ns.tail, ns.head.data.ticket + 1, high, low, high);
      DropFine(ns.tail, room, now, low, high, Logged(log, Exit(ns.head, HeadDropped, now)));
    }
  }

  lemma {:induction false} AppendAscending(ns: Nodes, n: Node, low: int)
    requires Ascending(ns, low, n.data.ticket)
    requires n.expires == n.since + Decode(n.data.lifetime)
    ensures Ascending(Append(ns, n), low, n.data.ticket + 1)
  {
    if ns.Cons? {
      AppendAscending(ns.tail, n, ns.head.data.ticket + 1);
    }
  }

  /** Tickets in the buffer start at `low`, which may be above what was flushed last. */
  lemma AttemptFine(capacity: nat, t: Trace, o: Offer, low: int)
    requires Ascending(t.nodes, low, t.next) && Orderly(t.log)
    ensures
      var t' := Attempt(capacity, t, o);
      && Ascending(t'.nodes, low, t'.next) && Orderly(t'.log)
      && AfterLast(t'.log) == AfterLast(t.log) && t.next <= t'.next
  {
    var d, live := Data(t.next, o.length, o.lifetime), Live(t.nodes, o.at);
    LiveFine(t.nodes, o.at, low, t.next, t.log);
    DropFine(live, capacity - o.length, o.at, low, t.next, LogExpired(t.log, t.nodes, o.at));
    AppendAscending(DropToFit(live, capacity - o.length), NewNode(d, o.at), low);
    DropToFitRoom(live, capacity - o.length);
  }

  lemma {:induction false} AttemptAllFine(capacity: nat, t: Trace, offers: seq<Offer>, low: int)
    requires Ascending(t.nodes, low, t.next) && Orderly(t.log)
    ensures
      var t' := AttemptAll(capacity, t, offers);
      && Ascending(t'.nodes, low, t'.next) && Orderly(t'.log)
      && AfterLast(t'.log) == AfterLast(t.log) && t.next <= t'.next
    decreases |offers|
  {
    if offers != [] {
      AttemptFine(capacity, t, offers[0], low);
      AttemptAllFine(capacity, Attempt(capacity, t, offers[0]), offers[1..], low);
    }
  }

  lemma HandOneFine(log: Log, taken: Nodes, now: int, high: nat)
    requires taken.Cons? && !IsExpired(taken.head, now)
    requires Ascending(taken, AfterLast(log), high) && Orderly(log)
    ensures
      var log' := Logged(log, Exit(taken.head, Flushed(Handover(taken.head, now).remaining), now));
      Orderly(log') && Ascending(taken.tail, AfterLast(log'), high)
  {
    ReduceSound(taken.head.data.lifetime, now - taken.head.since);
  }

  /** What a flush takes has lower tickets than what is offered meanwhile. */
  lemma {:induction false} FlushOutFine(
      capacity: nat, t: Trace, taken: Nodes, now: int, out: seq<Delivery>, react: Reaction, high: nat)
    requires Ascending(taken, AfterLast(t.log), high) && Ascending(t.nodes, high, t.next) && Orderly(t.log)
    ensures Fine(FlushOut(capacity, t, taken, now, out, react))
    decreases taken
  {
    if taken.Nil? {
      AscendingWeaken(t.nodes, high, t.next, AfterLast(t.log), t.next);
    } else {
      var h := taken.head;
      if IsExpired(h, now) {
        AscendingWeaken(taken.tail, h.data.ticket + 1, high, AfterLast(t.log), high);
        FlushOutFine(capacity, t.(log := Logged(t.log, Exit(h, Expired, now))), taken.tail, now, out, react, high);
      } else {
        var d := Handover(h, now);
        var flushed := t.(log := Logged(t.log, Exit(h, Flushed(d.remaining), now)));
        HandOneFine(t.log, taken, now, high);
        AttemptAllFine(capacity, flushed, react(out + [d]), high);
        var later := AttemptAll(capacity, flushed, react(out + [d]));
        FlushOutFine(capacity, later, taken.tail, now, out + [d], react, high);
      }
    }
  }

  lemma StepFine(capacity: nat, t: Trace, op: Op)
    requires Fine(t)
    ensures Fine(Step(capacity, t, op))
  {
    match op
    case PushOp(offer) => AttemptFine(capacity, t, offer, AfterLast(t.log));
    case FlushOp(now, react) =>
      AscendingUpTo(t.nodes, AfterLast(t.log), t.next);
      FlushOutFine(capacity, t.(nodes := Nil), t.nodes, now, [], react, t.next);
  }

  lemma {:induction false} AscendingUpTo(ns: Nodes, low: int, high: int)
    requires Ascending(ns, low, high)
    ensures low <= high
  {
    if ns.Cons? {
      AscendingUpTo(ns.tail, ns.head.data.ticket + 1, high);
    }
  }

  /** In every run data is flushed in the order in which it was pushed, also across flushes, and
      never after its lifetime, whatever the times given and whatever is offered while flushing. */
  lemma {:induction false} AlwaysFine(capacity: nat, t: Trace, ops: seq<Op>)
    requires Fine(t)
    ensures Fine(Run(capacity, t, ops))
    decreases |ops|
  {
    if |ops| != 0 {
      StepFine(capacity, t, ops[0]);
      AlwaysFine(capacity, Step(capacity, t, ops[0]), ops[1..]);
    }
  }

  // ----- what a flush hands out and what it leaves

  function Deliveries(ns: Nodes, now: int): seq<Delivery> {
    if ns.Nil? then []
    else if IsExpired(ns.head, now) then Deliveries(ns.tail, now)
    else [Handover(ns.head, now)] + Deliveries(ns.tail, now)
  }

  /** What all flushes of a run have handed out. */
  function Handed(log: Log): seq<Delivery> {
    if log.Start? then []
    else
      Handed(log.earlier) +
      if log.exit.fate.Flushed? then
        var n := log.exit.node;
        [Delivery(n.data.(lifetime := Reduce(n.data.lifetime, log.exit.at - n.since).0), log.exit.fate.remaining)]
      else []
  }

  lemma {:induction false} HandedExpired(log: Log, ns: Nodes, now: int)
    ensures Handed(LogExpired(log, ns, now)) == Handed(log)
    decreases ns
  {
    if ns.Cons? {
      HandedExpired(if IsExpired(ns.head, now) then Logged(log, Exit(ns.head, Expired, now)) else log, ns.tail, now);
    }
  }

  lemma {:induction false} HandedDropped(log: Log, ns: Nodes, room: int, now: int)
    ensures Handed(LogDropped(log, ns, room, now)) == Handed(log)
    decreases ns
  {
    if ns.Cons? && Total(ns) > room {
      HandedDropped(Logged(log, Exit(ns.head, HeadDropped, now)), ns.tail, room, now);
    }
  }

  lemma {:induction false} HandedAttempts(capacity: nat, t: Trace, offers: seq<Offer>)
    ensures Handed(AttemptAll(capacity, t, offers).log) == Handed(t.log)
    decreases |offers|
  {
    if offers != [] {
      var o := offers[0];
      HandedExpired(t.log, t.nodes, o.at);
      HandedDropped(LogExpired(t.log, t.nodes, o.at), Live(t.nodes, o.at), capacity - o.length, o.at);
      HandedAttempts(capacity, Attempt(capacity, t, o), offers[1..]);
    }
  }

  /** A flush hands out the unexpired data in order, and nothing else, whatever is offered
      meanwhile: data re-added waits for the next flush. */
  lemma {:induction false} FlushHandsOut(
      capacity: nat, t: Trace, taken: Nodes, now: int, out: seq<Delivery>, react: Reaction)
    ensures Handed(FlushOut(capacity, t, taken, now, out, react).log) == Handed(t.log) + Deliveries(taken, now)
    decreases taken
  {
    if taken.Cons? {
      var h := taken.head;
      if IsExpired(h, now) {
        FlushHandsOut(capacity, t.(log := Logged(t.log, Exit(h, Expired, now))), taken.tail, now, out, react);
      } else {
        var d := Handover(h, now);
        var flushed := t.(log := Logged(t.log, Exit(h, Flushed(d.remaining), now)));
        HandedAttempts(capacity, flushed, react(out + [d]));
        FlushHandsOut(capacity, AttemptAll(capacity, flushed, react(out + [d])), taken.tail, now, out + [d], react);
      }
    }
  }

  /** All that a flush's data offers, in order. */
  function Offers(taken: Nodes, now: int, out: seq<Delivery>, react: Reaction): seq<Offer>
    decreases taken
  {
    if taken.Nil? then []
    else if IsExpired(taken.head, now) then Offers(taken.tail, now, out, react)
    else
      var out' := out + [Handover(taken.head, now)];
      react(out') + Offers(taken.tail, now, out', react)
  }

  /** The same contents and numbering, whatever has left before. */
  predicate Alike(a: Trace, b: Trace) {
    a.nodes == b.nodes && a.next == b.next
  }

  lemma {:induction false} AttemptsAlike(capacity: nat, a: Trace, b: Trace, offers: seq<Offer>)
    requires Alike(a, b)
    ensures Alike(AttemptAll(capacity, a, offers), AttemptAll(capacity, b, offers))
    decreases |offers|
  {
    if offers != [] {
      AttemptsAlike(capacity, Attempt(capacity, a, offers[0]), Attempt(capacity, b, offers[0]), offers[1..]);
    }
  }

  lemma {:induction false} AttemptsAppend(capacity: nat, t: Trace, a: seq<Offer>, b: seq<Offer>)
    ensures AttemptAll(capacity, t, a + b) == AttemptAll(capacity, AttemptAll(capacity, t, a), b)
    decreases |a|
  {
    if a == [] {
      assert a + b == b;
    } else {
      assert (a + b)[1..] == a[1..] + b;
      AttemptsAppend(capacity, Attempt(capacity, t, a[0]), a[1..], b);
    }
  }

  /** A flush leaves what its data's offers make of an empty buffer: nothing held before. */
  lemma {:induction false} FlushLeaves(
      capacity: nat, t: Trace, taken: Nodes, now: int, out: seq<Delivery>, react: Reaction)
    ensures
      Alike(FlushOut(capacity, t, taken, now, out, react), AttemptAll(capacity, t, Offers(taken, now, out, react)))
    decreases taken
  {
    if taken.Cons? {
      var h := taken.head;
      if IsExpired(h, now) {
        var gone := t.(log := Logged(t.log, Exit(h, Expired, now)));
        FlushLeaves(capacity, gone, taken.tail, now, out, react);
        AttemptsAlike(capacity, gone, t, Offers(taken.tail, now, out, react));
      } else {
        var d := Handover(h, now);
        var out', flushed := out + [d], t.(log := Logged(t.log, Exit(h, Flushed(d.remaining), now)));
        var later := Offers(taken.tail, now, out', react);
        FlushLeaves(capacity, AttemptAll(capacity, flushed, react(out')), taken.tail, now, out', react);
        AttemptsAppend(capacity, flushed, react(out'), later);
        AttemptsAlike(capacity, flushed, t, react(out') + later);
      }
    }
  }

  // ----- the buffer

  function FromSeq(s: seq<Node>): Nodes {
    if s == [] then Nil else Cons(s[0], FromSeq(s[1..]))
  }

  lemma {:induction false} FromSeqAppend(s: seq<Node>, n: Node)
    ensures FromSeq(s + [n]) == Append(FromSeq(s), n)
  {
    if s != [] {
      assert (s + [n])[1..] == s[1..] + [n];
      FromSeqAppend(s[1..], n);
    } else {
      assert [n][1..] == [];
    }
  }

  lemma {:induction false} EraseExpired(s: seq<Node>, i: nat, now: int)
    requires i < |s| && IsExpired(s[i], now)
    ensures Live(FromSeq(s[..i] + s[i + 1..]), now) == Live(FromSeq(s), now)
    ensures Total(FromSeq(s[..i] + s[i + 1..])) == Total(FromSeq(s)) - s[i].data.length
  {
    var r := s[..i] + s[i + 1..];
    if i == 0 {
      assert r == s[1..];
    } else {
      assert r[1..] == s[1..][..i - 1] + s[1..][i..];
      EraseExpired(s[1..], i - 1, now);
    }
  }

  lemma {:induction false} AllLive(s: seq<Node>, now: int)
    requires forall n :: n in s ==> !IsExpired(n, now)
    ensures Live(FromSeq(s), now) == FromSeq(s)
  {
    if s != [] {
      assert s[0] in s;
      AllLive(s[1..], now);
    }
  }

  lemma AttemptParts(capacity: nat, t: Trace, o: Offer)
    ensures
      var n, live := NewNode(Data(t.next, o.length, o.lifetime), o.at), Live(t.nodes, o.at);
      var kept := DropToFit(live, capacity - o.length);
      var log := LogDropped(LogExpired(t.log, t.nodes, o.at), live, capacity - o.length, o.at);
      Attempt(capacity, t, o) ==
        if o.length <= capacity then Trace(Append(kept, n), t.next + 1, log)
        else Trace(kept, t.next + 1, Logged(log, Exit(n, Refused, o.at)))
  {
    DropToFitRoom(Live(t.nodes, o.at), capacity - o.length);
  }

  lemma {:induction false} EraseLogged(s: seq<Node>, i: nat, now: int, log: Log)
    requires i < |s| && IsExpired(s[i], now)
    ensures
      LogExpired(log, FromSeq(s[i..]), now)
      == LogExpired(Logged(log, Exit(s[i], Expired, now)), FromSeq((s[..i] + s[i + 1..])[i..]), now)
  {
    assert s[i..][0] == s[i] && s[i..][1..] == s[i + 1..] == (s[..i] + s[i + 1..])[i..];
  }

  lemma FromSeqHead(s: seq<Node>, i: nat)
    requires i < |s|
    ensures FromSeq(s[i..]) == Cons(s[i], FromSeq(s[i + 1..]))
  {
    assert s[i..][1..] == s[i + 1..];
  }

  lemma HandOne(capacity: nat, t: Trace, n: Node, later: Nodes, now: int, out: seq<Delivery>, react: Reaction)
    ensures
      var whole := FlushOut(capacity, t, Cons(n, later), now, out, react);
      if IsExpired(n, now) then
        && whole == FlushOut(capacity, t.(log := Logged(t.log, Exit(n, Expired, now))), later, now, out, react)
        && Deliveries(Cons(n, later), now) == Deliveries(later, now)
      else
        var d := Handover(n, now);
        var flushed := t.(log := Logged(t.log, Exit(n, Flushed(d.remaining), now)));
        && whole
          == FlushOut(capacity, AttemptAll(capacity, flushed, react(out + [d])), later, now, out + [d], react)
        && out + Deliveries(Cons(n, later), now) == out + [d] + Deliveries(later, now)
  {
  }

  class PacketBuffer {
    const capacity: nat
    var nodes: seq<Node>
    var stored: nat
    var attempts: nat      // numbers the attempts to push, which tell data apart
    ghost var log: Log     // what has left the buffer, and how

    ghost predicate Valid()
      reads this
    {
      stored == Total(FromSeq(nodes)) && stored <= capacity
    }

    ghost function View(): Trace
      reads this
    {
      Trace(FromSeq(nodes), attempts, log)
    }

    constructor (capacity: nat)
      ensures Valid() && View() == Trace(Nil, 0, Start) && this.capacity == capacity
    {
      this.capacity, nodes, stored, attempts, log := capacity, [], 0, 0, Start;
    }

    function Free(): nat
      reads this
      requires Valid()
    {
      capacity - stored
    }

    method PushData(length: nat, octet: Byte, now: int) returns (pushed: bool)
      requires Valid()
      modifies this
      ensures Valid() && View() == Attempt(capacity, old(View()), Offer(length, octet, now))
      ensures pushed <==> length <= capacity
    {
      ghost var d := Data(attempts, length, octet);
      AttemptParts(capacity, View(), Offer(length, octet, now));
      DropExpired(now);
      pushed := DropBytes(length, now);
      if pushed {
        var (lifetime, remaining) := Reduce(octet, 0);
        stored := stored + length;
        FromSeqAppend(nodes, NewNode(d, now));
        AppendTotal(FromSeq(nodes), NewNode(d, now));
        nodes := nodes + [Node(Data(attempts, length, lifetime), now, now + remaining)];
      } else {
        log := Logged(log, Exit(NewNode(d, now), Refused, now));
      }
      attempts := attempts + 1;
    }

    /** Empty the buffer and hand out what has not expired; what that offers may be buffered again. */
    method Flush(now: int, react: Reaction) returns (deliveries: seq<Delivery>)
      requires Valid()
      modifies this
      ensures Valid() && View() == Step(capacity, old(View()), FlushOp(now, react))
      ensures deliveries == Deliveries(old(View()).nodes, now)
    {
      var taken := nodes;
      nodes, stored := [], 0;
      deliveries := [];
      ghost var whole := FlushOut(capacity, View(), FromSeq(taken), now, [], react);
      for i := 0 to |taken|
        invariant Valid() && whole == FlushOut(capacity, View(), FromSeq(taken[i..]), now, deliveries, react)
        invariant deliveries + Deliveries(FromSeq(taken[i..]), now) == Deliveries(old(View()).nodes, now)
      {
        var n := taken[i];
        FromSeqHead(taken, i);
        HandOne(capacity, View(), n, FromSeq(taken[i + 1..]), now, deliveries, react);
        if IsExpired(n, now) {
          log := Logged(log, Exit(n, Expired, now));
        } else {
          var (lifetime, remaining) := Reduce(n.data.lifetime, now - n.since);
          var delivery := Delivery(n.data.(lifetime := lifetime), remaining);
          log := Logged(log, Exit(n, Flushed(remaining), now));
          deliveries := deliveries + [delivery];
          PushOffers(react(deliveries));
        }
      }
    }

    method PushOffers(offers: seq<Offer>)
      requires Valid()
      modifies this
      ensures Valid() && View() == AttemptAll(capacity, old(View()), offers)
    {
      for j := 0 to |offers|
        invariant Valid()
        invariant AttemptAll(capacity, View(), offers[j..]) == AttemptAll(capacity, old(View()), offers)
      {
        assert offers[j..][1..] == offers[j + 1..];
        var _ := PushData(offers[j].length, offers[j].lifetime, offers[j].at);
      }
    }

    method DropHead(ghost now: int) returns (dropped: bool)
      requires Valid()
      modifies this`nodes, this`stored, this`log
      ensures Valid() && dropped == (old(nodes) != [])
      ensures nodes == if dropped then old(nodes)[1..] else old(nodes)
      ensures log == if dropped then Logged(old(log), Exit(old(nodes)[0], HeadDropped, now)) else old(log)
    {
      dropped := nodes != [];
      if dropped {
        log := Logged(log, Exit(nodes[0], HeadDropped, now));
        stored := stored - nodes[0].data.length;
        nodes := nodes[1..];
      }
    }

    method DropExpired(now: int)
      requires Valid()
      modifies this`nodes, this`stored, this`log
      ensures Valid() && FromSeq(nodes) == Live(old(FromSeq(nodes)), now)
      ensures log == LogExpired(old(log), old(FromSeq(nodes)), now)
    {
      var i := 0;
      while i < |nodes|
        invariant i <= |nodes| && Valid()
        invariant forall j :: 0 <= j < i ==> !IsExpired(nodes[j], now)
        invariant Live(FromSeq(nodes), now) == Live(old(FromSeq(nodes)), now)
        invariant LogExpired(log, FromSeq(nodes[i..]), now) == LogExpired(old(log), old(FromSeq(nodes)), now)
        decreases |nodes| - i
      {
        if IsExpired(nodes[i], now) {
          EraseExpired(nodes, i, now);
          EraseLogged(nodes, i, now, log);
          log := Logged(log, Exit(nodes[i], Expired, now));
          stored := stored - nodes[i].data.length;
          nodes := nodes[..i] + nodes[i + 1..];
        } else {
          assert nodes[i..][1..] == nodes[i + 1..];
          i := i + 1;
        }
      }
      AllLive(nodes, now);
    }

    /** Drop heads until there is room, if that is possible. */
    method DropBytes(bytes: nat, ghost now: int) returns (room: bool)
      requires Valid()
      modifies this`nodes, this`stored, this`log
      ensures Valid() && FromSeq(nodes) == DropToFit(old(FromSeq(nodes)), capacity - bytes)
      ensures log == LogDropped(old(log), old(FromSeq(nodes)), capacity - bytes, now)
      ensures room <==> bytes <= capacity
      ensures room ==> stored + bytes <= capacity
    {
      while Free() < bytes
        invariant Valid()
        invariant DropToFit(FromSeq(nodes), capacity - bytes) == DropToFit(old(FromSeq(nodes)), capacity - bytes)
        invariant
          LogDropped(log, FromSeq(nodes), capacity - bytes, now)
          == LogDropped(old(log), old(FromSeq(nodes)), capacity - bytes, now)
        decreases |nodes|
      {
        var dropped := DropHead(now);
        if !dropped {
          break;
        }
      }
      room := Free() >= bytes;
    }
  }
}
