/** Contention-based forwarding buffer as a state machine: buffered entries in timer order, the
    single pending wakeup, and what leaves the buffer at each step. */
module CbfModel {
  import opened Collections
  import opened Lifetimes

  datatype Identifier = Identifier(source: nat, sequence: nat)

  datatype Packet = Packet(id: Identifier, length: nat, lifetime: Byte)

  datatype Timer = Timer(expiry: int, start: int)

  /** A buffered packet. Handles are handed out in order of arrival and never reused;
      `count` is the duplicate counter kept for the packet while it contends. */
  datatype Entry = Entry(handle: nat, packet: Packet, timer: Timer, count: nat)

  /** Entries in timer order. */
  datatype Entries = Nil | Cons(head: Entry, tail: Entries)

  datatype State = State(now: int, entries: Entries, wake: Option<int>, next: nat)

  datatype Fate = HeadDropped | Removed | Fetched | Delivered | Exhausted

  datatype Exit = Exit(handle: nat, fate: Fate, packet: Packet, expiry: int, at: int)

  datatype Op =
    | Advance(d: nat)
    | Add(packet: Packet, timeout: int)
    | Remove(id: Identifier)
    | Update(id: Identifier, timeout: int)
    | Fetch(id: Identifier)
    | Fire

  // ----- entries

  predicate In(e: Entry, es: Entries) {
    es.Cons? && (e == es.head || In(e, es.tail))
  }

  predicate HasId(es: Entries, id: Identifier) {
    es.Cons? && (es.head.packet.id == id || HasId(es.tail, id))
  }

  /** How often a handle occurs. */
  function Copies(es: Entries, h: nat): nat {
    if es.Nil? then 0 else (if es.head.handle == h then 1 else 0) + Copies(es.tail, h)
  }

  predicate HandlesBelow(es: Entries, n: nat) {
    es.Cons? ==> es.head.handle < n && HandlesBelow(es.tail, n)
  }

  function Total(es: Entries): nat {
    if es.Nil? then 0 else es.head.packet.length + Total(es.tail)
  }

  function Length(es: Entries): nat {
    if es.Nil? then 0 else 1 + Length(es.tail)
  }

  function First(es: Entries): Option<nat> {
    if es.Nil? then None else Some(es.head.handle)
  }

  predicate Sorted(es: Entries) {
    es.Cons? ==> (es.tail.Cons? ==> es.head.timer.expiry <= es.tail.head.timer.expiry) && Sorted(es.tail)
  }

  /** No two entries share a handle or an identifier. */
  predicate Distinct(es: Entries) {
    es.Cons? ==>
      && !HasId(es.tail, es.head.packet.id)
      && Copies(es.tail, es.head.handle) == 0
      && Distinct(es.tail)
  }

  function Find(es: Entries, id: Identifier): Option<Entry> {
    if es.Nil? then None
    else if es.head.packet.id == id then Some(es.head)
    else Find(es.tail, id)
  }

  function Without(es: Entries, id: Identifier): Entries {
    if es.Nil? then Nil
    else if es.head.packet.id == id then es.tail
    else Cons(es.head, Without(es.tail, id))
  }

  /** The entry that arrived first. */
  function Oldest(es: Entries): Entry
    requires es.Cons?
  {
    if es.tail.Nil? || es.head.handle <= Oldest(es.tail).handle then es.head else Oldest(es.tail)
  }

  /** Insertion behind all timers with the same expiry. */
  function Insert(es: Entries, e: Entry): Entries {
    if es.Nil? || es.head.timer.expiry > e.timer.expiry then Cons(e, es)
    else Cons(es.head, Insert(es.tail, e))
  }

  function Substitute(es: Entries, e: Entry): Entries {
    if es.Nil? then Nil
    else if es.head.packet.id == e.packet.id then Cons(e, es.tail)
    else Cons(es.head, Substitute(es.tail, e))
  }

  /** Whether a timer set to `expiry` still fits between its neighbours. */
  predicate StaysInPlace(es: Entries, id: Identifier, expiry: int, before: Option<int>) {
    es.Cons? &&
    if es.head.packet.id == id then
      (before.None? || before.value <= expiry) && (es.tail.Nil? || expiry <= es.tail.head.timer.expiry)
    else
      StaysInPlace(es.tail, id, expiry, Some(es.head.timer.expiry))
  }

  /** Replacement of an entry with the same identifier: in place while its neighbours allow,
      otherwise behind the timers with the same expiry. */
  function Replace(es: Entries, e: Entry): Entries {
    if StaysInPlace(es, e.packet.id, e.timer.expiry, None) then Substitute(es, e)
    else Insert(Without(es, e.packet.id), e)
  }

  // ----- head drop

  lemma OldestFound(es: Entries)
    requires es.Cons?
    ensures In(Oldest(es), es)
    ensures Length(Without(es, Oldest(es).packet.id)) < Length(es)
  {
    if es.tail.Cons? {
      OldestFound(es.tail);
      if es.head.packet.id != Oldest(es).packet.id {
        WithoutShorter(es.tail, Oldest(es.tail));
      }
    }
  }

  lemma WithoutShorter(es: Entries, e: Entry)
    requires In(e, es)
    ensures Length(Without(es, e.packet.id)) < Length(es)
  {
  }

  /** Drop in arrival order until the rest fits into `room` bytes or nothing is left. */
  function Kept(es: Entries, room: int): Entries
    decreases Length(es)
  {
    if Total(es) > room && es.Cons? then
      OldestFound(es);
      Kept(Without(es, Oldest(es).packet.id), room)
    else es
  }

  function Dropped(es: Entries, room: int, now: int): seq<Exit>
    decreases Length(es)
  {
    if Total(es) > room && es.Cons? then
      OldestFound(es);
      var o := Oldest(es);
      [Exit(o.handle, HeadDropped, o.packet, o.timer.expiry, now)] + Dropped(Without(es, o.packet.id), room, now)
    else []
  }

  // ----- steps

  /** The wakeup moved to the first timer, if there is one. */
  function Wakened(s: State): State {
    if s.entries.Nil? then s else s.(wake := Some(s.entries.head.timer.expiry))
  }

  /** The wakeup follows a change of the entries only when another timer has become the first. */
  function Followed(s: State, entries: Entries, next: nat): State {
    var s1 := s.(entries := entries, next := next);
    if First(entries) != First(s.entries) then Wakened(s1) else s1
  }

  /** A packet whose identifier survives the head drop is a duplicate and is rejected. */
  predicate Accepts(kept: Entries, packet: Packet) {
    Find(kept, packet.id).None?
  }

  function Arrival(s: State, packet: Packet, timeout: int): Entry {
    Entry(s.next, packet, Timer(s.now + timeout, s.now), 1)
  }

  /** An arrival on top of what the head drop has kept. */
  function Admit(s: State, kept: Entries, packet: Packet, timeout: int): State {
    if Accepts(kept, packet)
    then Followed(s, Insert(kept, Arrival(s, packet, timeout)), s.next + 1)
    else Followed(s, kept, s.next)
  }

  function AddPacket(s: State, capacity: nat, packet: Packet, timeout: int): State {
    if timeout <= 0 then s
    else Admit(s, Kept(s.entries, capacity - packet.length), packet, timeout)
  }

  function AddExits(s: State, capacity: nat, packet: Packet, timeout: int): seq<Exit> {
    if timeout <= 0 then [] else Dropped(s.entries, capacity - packet.length, s.now)
  }

  function TakeOut(s: State, id: Identifier): State {
    Followed(s, Without(s.entries, id), s.next)
  }

  function Queuing(e: Entry, now: int): int {
    now - e.timer.start
  }

  /** The packet with its lifetime reduced by the time it has been queuing. */
  function Reduced(e: Entry, now: int): Packet {
    e.packet.(lifetime := Reduce(e.packet.lifetime, Queuing(e, now)).0)
  }

  predicate StillAlive(e: Entry, now: int) {
    Reduce(e.packet.lifetime, Queuing(e, now)).1 > 0
  }

  function RemoveExits(s: State, id: Identifier): seq<Exit> {
    match Find(s.entries, id)
    case None => []
    case Some(e) => [Exit(e.handle, Removed, e.packet, e.timer.expiry, s.now)]
  }

  /** How an entry leaves whose lifetime is settled on the way out. */
  function Leave(e: Entry, now: int, fate: Fate): Exit {
    Exit(e.handle, if StillAlive(e, now) then fate else Exhausted, Reduced(e, now), e.timer.expiry, now)
  }

  function FetchExits(s: State, id: Identifier): seq<Exit> {
    match Find(s.entries, id)
    case None => []
    case Some(e) => [Leave(e, s.now, Fetched)]
  }

  /** An entry whose timer is restarted: lifetime settled up to now, duplicate counted. */
  function Updated(e: Entry, now: int, timeout: int): Entry {
    Entry(e.handle, Reduced(e, now), Timer(now + timeout, now), e.count + 1)
  }

  /** A restarted timer leaves the wakeup alone. */
  function UpdatePacket(s: State, id: Identifier, timeout: int): State {
    match Find(s.entries, id)
    case None => s
    case Some(e) => s.(entries := Replace(s.entries, Updated(e, s.now, timeout)))
  }

  function Unexpired(es: Entries, now: int): Entries {
    if es.Cons? && es.head.timer.expiry <= now then Unexpired(es.tail, now) else es
  }

  function FlushExits(es: Entries, now: int): seq<Exit> {
    if es.Cons? && es.head.timer.expiry <= now
    then [Leave(es.head, now, Delivered)] + FlushExits(es.tail, now)
    else []
  }

  function Flush(s: State): State {
    Wakened(s.(entries := Unexpired(s.entries, s.now)))
  }

  predicate WakeDue(s: State) {
    s.wake.Some? && s.wake.value <= s.now
  }

  /** The runtime serves a due wakeup: the event is consumed, then the buffer is flushed. */
  function Step(s: State, capacity: nat, op: Op): State {
    match op
    case Advance(d) => s.(now := s.now + d)
    case Add(packet, timeout) => AddPacket(s, capacity, packet, timeout)
    case Remove(id) => TakeOut(s, id)
    case Update(id, timeout) => UpdatePacket(s, id, timeout)
    case Fetch(id) => TakeOut(s, id)
    case Fire => if WakeDue(s) then Flush(s.(wake := None)) else s
  }

  /** What leaves the buffer in a step. */
  function Exits(s: State, capacity: nat, op: Op): seq<Exit> {
    match op
    case Advance(_) => []
    case Add(packet, timeout) => AddExits(s, capacity, packet, timeout)
    case Remove(id) => RemoveExits(s, id)
    case Update(_, _) => []
    case Fetch(id) => FetchExits(s, id)
    case Fire => if WakeDue(s) then FlushExits(s.entries, s.now) else []
  }

  function Counter(s: State, id: Identifier): nat {
    match Find(s.entries, id)
    case None => 0
    case Some(e) => e.count
  }

  // ----- runs

  /** State after a run, the packets accepted (indexed by handle) and everything that left. */
  datatype Trace = Trace(state: State, accepted: seq<Packet>, exits: seq<Exit>)

  function Initial(start: int): Trace {
    Trace(State(start, Nil, None, 0), [], [])
  }

  function Extend(t: Trace, capacity: nat, op: Op): Trace {
    var s := Step(t.state, capacity, op);
    Trace(s, if op.Add? && s.next > t.state.next then t.accepted + [op.packet] else t.accepted,
      t.exits + Exits(t.state, capacity, op))
  }

  function Run(t: Trace, capacity: nat, ops: seq<Op>): Trace
    decreases |ops|
  {
    if ops == [] then t else Run(Extend(t, capacity, ops[0]), capacity, ops[1..])
  }
}
