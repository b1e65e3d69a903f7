/** The buffer as it is stored: a packet list, a timer/identifier relation pointing into it,
    a byte counter, the duplicate counters and one pending event at the runtime. */
module CbfPacketBuffers {
  import opened Collections
  import opened Lifetimes
  import opened Runtimes
  import opened CbfModel
  import opened CbfRuns

  /** One element of the bimap: timer on the left, identifier on the right, and the list node. */
  datatype Relation = Relation(timer: Timer, id: Identifier, info: nat)

  type Nodes = map<nat, Packet>

  type Counters = map<Identifier, nat>

  // ----- the bimap, kept in left (expiry) order

  function Lookup(timers: seq<Relation>, id: Identifier): Option<Relation> {
    if timers == [] then None
    else if timers[0].id == id then Some(timers[0])
    else Lookup(timers[1..], id)
  }

  function Erase(timers: seq<Relation>, id: Identifier): seq<Relation> {
    if timers == [] then []
    else if timers[0].id == id then timers[1..]
    else [timers[0]] + Erase(timers[1..], id)
  }

  /** Insertion behind the timers with the same expiry. */
  function Place(timers: seq<Relation>, r: Relation): seq<Relation> {
    if timers == [] || timers[0].timer.expiry > r.timer.expiry then [r] + timers
    else [timers[0]] + Place(timers[1..], r)
  }

  predicate Fits(timers: seq<Relation>, id: Identifier, expiry: int, before: Option<int>) {
    timers != [] &&
    if timers[0].id == id then
      (before.None? || before.value <= expiry) && (|timers| == 1 || expiry <= timers[1].timer.expiry)
    else
      Fits(timers[1..], id, expiry, Some(timers[0].timer.expiry))
  }

  function Overwrite(timers: seq<Relation>, r: Relation): seq<Relation> {
    if timers == [] then []
    else if timers[0].id == r.id then [r] + timers[1..]
    else [timers[0]] + Overwrite(timers[1..], r)
  }

  function ReplaceTimer(timers: seq<Relation>, r: Relation): seq<Relation> {
    if Fits(timers, r.id, r.timer.expiry, None) then Overwrite(timers, r)
    else Place(Erase(timers, r.id), r)
  }

  function Settled(packet: Packet, timer: Timer, now: int): Packet {
    packet.(lifetime := Reduce(packet.lifetime, now - timer.start).0)
  }

  /** Number of leading relations expiring no later than t. */
  function UpperBound(timers: seq<Relation>, t: int): (k: nat)
    ensures k <= |timers|
  {
    if timers == [] || timers[0].timer.expiry > t then 0 else 1 + UpperBound(timers[1..], t)
  }

  // ----- the bimap joined with list nodes and counters

  predicate Linked(timers: seq<Relation>, nodes: Nodes, counters: Counters) {
    timers == [] ||
    (&& timers[0].info in nodes && nodes[timers[0].info].id == timers[0].id && timers[0].id in counters
     && Linked(timers[1..], nodes, counters))
  }

  function Joined(r: Relation, nodes: Nodes, counters: Counters): Entry
    requires r.info in nodes && r.id in counters
  {
    Entry(r.info, nodes[r.info], r.timer, counters[r.id])
  }

  function Join(timers: seq<Relation>, nodes: Nodes, counters: Counters): Entries
    requires Linked(timers, nodes, counters)
  {
    if timers == [] then Nil else Cons(Joined(timers[0], nodes, counters), Join(timers[1..], nodes, counters))
  }

  lemma {:induction false} JoinLookup(timers: seq<Relation>, nodes: Nodes, counters: Counters, id: Identifier)
    requires Linked(timers, nodes, counters)
    ensures Lookup(timers, id).None? <==> Find(Join(timers, nodes, counters), id).None?
    ensures Lookup(timers, id).Some? ==>
      var r := Lookup(timers, id).value;
      && r.info in nodes && nodes[r.info].id == r.id == id && r.id in counters
      && Find(Join(timers, nodes, counters), id) == Some(Joined(r, nodes, counters))
  {
    if timers != [] {
      JoinLookup(timers[1..], nodes, counters, id);
    }
  }

  lemma {:induction false} JoinErase(timers: seq<Relation>, nodes: Nodes, counters: Counters, id: Identifier)
    requires Linked(timers, nodes, counters)
    ensures Linked(Erase(timers, id), nodes, counters)
    ensures Join(Erase(timers, id), nodes, counters) == Without(Join(timers, nodes, counters), id)
  {
    if timers != [] && timers[0].id != id {
      JoinErase(timers[1..], nodes, counters, id);
      assert Erase(timers, id)[1..] == Erase(timers[1..], id);
    }
  }

  lemma {:induction false} JoinPlace(timers: seq<Relation>, nodes: Nodes, counters: Counters, r: Relation)
    requires Linked(timers, nodes, counters)
    requires r.info in nodes && nodes[r.info].id == r.id && r.id in counters
    ensures Linked(Place(timers, r), nodes, counters)
    ensures Join(Place(timers, r), nodes, counters) == Insert(Join(timers, nodes, counters), Joined(r, nodes, counters))
  {
    if timers != [] && timers[0].timer.expiry <= r.timer.expiry {
      JoinPlace(timers[1..], nodes, counters, r);
      assert Place(timers, r)[1..] == Place(timers[1..], r);
    } else {
      assert Place(timers, r)[1..] == timers;
    }
  }

  /** A join only looks at the nodes and counters its entries name. */
  lemma {:induction false} JoinAgree(
      timers: seq<Relation>, nodes: Nodes, counters: Counters, nodes': Nodes, counters': Counters)
    requires Linked(timers, nodes, counters)
    requires forall h ::
      h in nodes && Copies(Join(timers, nodes, counters), h) > 0 ==> h in nodes' && nodes'[h] == nodes[h]
    requires forall id :: id in counters && HasId(Join(timers, nodes, counters), id) ==>
      id in counters' && counters'[id] == counters[id]
    ensures Linked(timers, nodes', counters')
    ensures Join(timers, nodes', counters') == Join(timers, nodes, counters)
  {
    if timers != [] {
      JoinAgree(timers[1..], nodes, counters, nodes', counters');
    }
  }

  lemma {:induction false} JoinFits(
      timers: seq<Relation>, nodes: Nodes, counters: Counters, id: Identifier, expiry: int, before: Option<int>)
    requires Linked(timers, nodes, counters)
    ensures Fits(timers, id, expiry, before) <==> StaysInPlace(Join(timers, nodes, counters), id, expiry, before)
  {
    if timers != [] && timers[0].id != id {
      JoinFits(timers[1..], nodes, counters, id, expiry, Some(timers[0].timer.expiry));
    }
  }

  /** Overwriting one relation while its node and counter change too. */
  lemma {:induction false} JoinOverwrite(timers: seq<Relation>, nodes: Nodes, counters: Counters, r: Relation,
                                         nodes': Nodes, counters': Counters)
    requires Linked(timers, nodes, counters) && Distinct(Join(timers, nodes, counters))
    requires
      var found := Find(Join(timers, nodes, counters), r.id);
      found.Some? && found.value.handle == r.info
    requires r.info in nodes' && nodes'[r.info].id == r.id && r.id in counters'
    requires forall h :: h in nodes && h != r.info ==> h in nodes' && nodes'[h] == nodes[h]
    requires forall id :: id in counters && id != r.id ==> id in counters' && counters'[id] == counters[id]
    ensures Linked(Overwrite(timers, r), nodes', counters')
    ensures Join(Overwrite(timers, r), nodes', counters')
      == Substitute(Join(timers, nodes, counters), Joined(r, nodes', counters'))
  {
    var es := Join(timers, nodes, counters);
    if timers[0].id == r.id {
      JoinAgree(timers[1..], nodes, counters, nodes', counters');
      assert Overwrite(timers, r)[1..] == timers[1..];
    } else {
      FindParts(es.tail, r.id);
      InParts(Find(es.tail, r.id).value, es.tail);
      JoinOverwrite(timers[1..], nodes, counters, r, nodes', counters');
      assert Overwrite(timers, r)[1..] == Overwrite(timers[1..], r);
    }
  }

  // ----- the packet list, as node handles from front to back

  predicate Increasing(order: seq<nat>) {
    |order| <= 1 || (order[0] < order[1] && Increasing(order[1..]))
  }

  function EraseNode(order: seq<nat>, h: nat): seq<nat> {
    if order == [] then []
    else if order[0] == h then order[1..]
    else [order[0]] + EraseNode(order[1..], h)
  }

  lemma {:induction false} FrontLeast(order: seq<nat>, h: nat)
    requires Increasing(order) && h in order
    ensures order[0] <= h
  {
    if order[0] != h {
      FrontLeast(order[1..], h);
    }
  }

  lemma {:induction false} EraseNodeParts(order: seq<nat>, h: nat, g: nat)
    requires Increasing(order)
    ensures Increasing(EraseNode(order, h))
    ensures order != [] && EraseNode(order, h) != [] ==> order[0] <= EraseNode(order, h)[0]
    ensures g in EraseNode(order, h) <==> g in order && g != h
    ensures |EraseNode(order, h)| == |order| - (if h in order then 1 else 0)
  {
    if order != [] {
      assert order == [order[0]] + order[1..];
      if order[0] == h {
        if h in order[1..] {
          FrontLeast(order[1..], h);
        }
      } else {
        EraseNodeParts(order[1..], h, g);
        assert EraseNode(order, h)[1..] == EraseNode(order[1..], h);
      }
    }
  }

  lemma {:induction false} AppendParts(order: seq<nat>, h: nat)
    requires Increasing(order) && forall g :: g in order ==> g < h
    ensures Increasing(order + [h])
  {
    if |order| > 1 {
      assert (order + [h])[1..] == order[1..] + [h];
      assert forall g :: g in order[1..] ==> g in order;
      AppendParts(order[1..], h);
    } else if |order| == 1 {
      assert order[0] in order;
      assert (order + [h])[1..] == [h];
    }
  }

  // ----- all containers together

  /** Values of all containers of a buffer. */
  datatype Store =
    Store(order: seq<nat>, nodes: Nodes, timers: seq<Relation>, counters: Counters, bytes: nat, next: nat)

  /** List, node storage, bimap and counters hold the same packets, once each; the byte counter
      is the sum of their lengths. */
  ghost predicate Structured(st: Store) {
    && Linked(st.timers, st.nodes, st.counters)
    && Increasing(st.order)
    && |st.order| == Length(Stored(st))
    && (forall h :: h in st.order <==> Copies(Stored(st), h) > 0)
    && (forall h :: h in st.nodes <==> h in st.order)
    && (forall id :: id in st.counters <==> HasId(Stored(st), id))
    && WellFormed(Contents(st))
  }

  function Stored(st: Store): Entries
    requires Linked(st.timers, st.nodes, st.counters)
  {
    Join(st.timers, st.nodes, st.counters)
  }

  function Contents(st: Store): State
    requires Linked(st.timers, st.nodes, st.counters)
  {
    State(0, Stored(st), None, st.next)
  }

  // ----- taking one packet out of every container

  predicate Erased(st: Store, r: Relation, st': Store) {
    && r.info in st.nodes
    && st'.order == EraseNode(st.order, r.info)
    && st'.nodes == st.nodes - {r.info}
    && st'.timers == Erase(st.timers, r.id)
    && st'.counters == st.counters - {r.id}
    && st'.bytes == st.bytes - st.nodes[r.info].length
    && st'.next == st.next
  }

  lemma LookupStored(st: Store, id: Identifier)
    requires Structured(st)
    ensures Lookup(st.timers, id).None? <==> Find(Stored(st), id).None?
    ensures Lookup(st.timers, id).Some? ==>
      var r := Lookup(st.timers, id).value;
      && r.id == id && r.info in st.nodes && id in st.counters && HasId(Stored(st), id)
      && Find(Stored(st), id) == Some(Joined(r, st.nodes, st.counters))
      && st.nodes[r.info].id == id
      && st.nodes[r.info].length <= Total(Stored(st))
      && Copies(Stored(st), r.info) == 1
  {
    JoinLookup(st.timers, st.nodes, st.counters, id);
    FindParts(Stored(st), id);
    WithoutParts(Stored(st), id);
    if Find(Stored(st), id).Some? {
      DistinctCopies(Stored(st), Find(Stored(st), id).value, st.next);
    }
  }

  lemma ErasedParts(st: Store, id: Identifier, st': Store)
    requires Structured(st) && Lookup(st.timers, id).Some? && Erased(st, Lookup(st.timers, id).value, st')
    ensures Linked(st'.timers, st'.nodes, st'.counters)
    ensures Stored(st') == Without(Stored(st), id)
  {
    var es, h := Stored(st), Lookup(st.timers, id).value.info;
    LookupStored(st, id);
    JoinErase(st.timers, st.nodes, st.counters, id);
    WithoutHas(es, id, id, h);
    JoinAgree(Erase(st.timers, id), st.nodes, st.counters, st'.nodes, st'.counters);
  }

  lemma ErasedStructured(st: Store, id: Identifier, st': Store)
    requires Structured(st) && Lookup(st.timers, id).Some? && Erased(st, Lookup(st.timers, id).value, st')
    ensures Structured(st')
    ensures Stored(st') == Without(Stored(st), id)
    ensures Total(Stored(st')) + st.bytes == Total(Stored(st)) + st'.bytes
  {
    LookupStored(st, id);
    ErasedParts(st, id, st');
    WithoutParts(Stored(st), id);
    WithoutDistinct(Stored(st), id, st.next);
    ErasedOrder(st, id, st');
    ErasedKeys(st, id, st');
  }

  lemma ErasedOrder(st: Store, id: Identifier, st': Store)
    requires Structured(st) && Lookup(st.timers, id).Some? && Erased(st, Lookup(st.timers, id).value, st')
    ensures Increasing(st'.order) && |st'.order| == |st.order| - 1
    ensures forall g :: g in st'.order <==> Copies(Without(Stored(st), id), g) > 0
  {
    var h := Lookup(st.timers, id).value.info;
    LookupStored(st, id);
    EraseNodeParts(st.order, h, h);
    forall g: nat ensures g in st'.order <==> Copies(Without(Stored(st), id), g) > 0 {
      EraseNodeParts(st.order, h, g);
      WithoutHas(Stored(st), id, id, g);
    }
  }

  lemma ErasedKeys(st: Store, id: Identifier, st': Store)
    requires Structured(st) && Lookup(st.timers, id).Some? && Erased(st, Lookup(st.timers, id).value, st')
    ensures forall g :: g in st'.nodes <==> g in st'.order
    ensures forall other :: other in st'.counters <==> HasId(Without(Stored(st), id), other)
  {
    var h := Lookup(st.timers, id).value.info;
    LookupStored(st, id);
    forall other ensures other in st'.counters <==> HasId(Without(Stored(st), id), other) {
      WithoutHas(Stored(st), id, other, h);
    }
    forall g: nat ensures g in st'.nodes <==> g in st'.order {
      EraseNodeParts(st.order, h, g);
    }
  }

  /** The identifier in the front node is that of the oldest entry. */
  lemma HeadIsOldest(st: Store)
    requires Structured(st) && st.order != []
    ensures st.order[0] in st.nodes && Stored(st).Cons?
    ensures
      var o := Oldest(Stored(st));
      && o.handle == st.order[0] && o.packet == st.nodes[st.order[0]]
      && Lookup(st.timers, o.packet.id).Some? && Lookup(st.timers, o.packet.id).value.info == st.order[0]
  {
    var es := Stored(st);
    EmptyTotal(es);
    var o := Oldest(es);
    OldestFound(es);
    InParts(o, es);
    LookupStored(st, o.packet.id);
    FrontLeast(st.order, o.handle);
    assert st.order[0] in st.order;
    var x := HandleHolder(es, st.order[0]);
    OldestLeast(es, x);
  }

  lemma {:induction false} HandleHolder(es: Entries, h: nat) returns (x: Entry)
    requires Copies(es, h) > 0
    ensures In(x, es) && x.handle == h
  {
    if es.head.handle == h {
      x := es.head;
    } else {
      x := HandleHolder(es.tail, h);
    }
  }

  // ----- putting one packet into every container

  predicate Appended(st: Store, packet: Packet, timer: Timer, st': Store) {
    && st'.order == st.order + [st.next]
    && st'.nodes == st.nodes[st.next := packet]
    && st'.timers == Place(st.timers, Relation(timer, packet.id, st.next))
    && st'.counters == st.counters[packet.id := 1]
    && st'.next == st.next + 1
  }

  lemma AppendedParts(st: Store, packet: Packet, timer: Timer, st': Store)
    requires Structured(st) && Appended(st, packet, timer, st')
    requires !HasId(Stored(st), packet.id)
    ensures Linked(st'.timers, st'.nodes, st'.counters)
    ensures Stored(st') == Insert(Stored(st), Entry(st.next, packet, timer, 1))
  {
    BelowMore(Stored(st), st.next, st.next);
    JoinAgree(st.timers, st.nodes, st.counters, st'.nodes, st'.counters);
    JoinPlace(st.timers, st'.nodes, st'.counters, Relation(timer, packet.id, st.next));
  }

  lemma AppendedStructured(st: Store, packet: Packet, timer: Timer, st': Store)
    requires Structured(st) && Appended(st, packet, timer, st')
    requires !HasId(Stored(st), packet.id)
    ensures Structured(st')
    ensures Stored(st') == Insert(Stored(st), Entry(st.next, packet, timer, 1))
    ensures Total(Stored(st')) == Total(Stored(st)) + packet.length
  {
    var es, e := Stored(st), Entry(st.next, packet, timer, 1);
    AppendedParts(st, packet, timer, st');
    InsertParts(es, e);
    BelowMore(es, st.next, st.next);
    BelowMore(es, st.next, st.next + 1);
    InsertDistinct(es, e, st.next + 1);
    forall h | h in st.order ensures h < st.next {
      var x := HandleHolder(es, h);
      BelowEach(es, st.next, x);
    }
    AppendParts(st.order, st.next);
    forall h: nat ensures h in st'.order <==> Copies(Stored(st'), h) > 0 {
      InsertHas(es, e, packet.id, h);
    }
    forall id ensures id in st'.counters <==> HasId(Stored(st'), id) {
      InsertHas(es, e, id, st.next);
    }
  }

  // ----- restarting one timer

  predicate Restarted(st: Store, r: Relation, packet: Packet, count: nat, st': Store) {
    st' == st.(
      nodes := st.nodes[r.info := packet],
      timers := ReplaceTimer(st.timers, r),
      counters := st.counters[r.id := count])
  }

  lemma RestartedParts(st: Store, r: Relation, packet: Packet, count: nat, st': Store)
    requires Structured(st) && Restarted(st, r, packet, count, st')
    requires Lookup(st.timers, r.id).Some? && Lookup(st.timers, r.id).value.info == r.info && packet.id == r.id
    ensures Linked(st'.timers, st'.nodes, st'.counters)
    ensures Stored(st') == Replace(Stored(st), Entry(r.info, packet, r.timer, count))
  {
    var es := Stored(st);
    LookupStored(st, r.id);
    JoinFits(st.timers, st.nodes, st.counters, r.id, r.timer.expiry, None);
    if Fits(st.timers, r.id, r.timer.expiry, None) {
      JoinOverwrite(st.timers, st.nodes, st.counters, r, st'.nodes, st'.counters);
    } else {
      JoinErase(st.timers, st.nodes, st.counters, r.id);
      WithoutHas(es, r.id, r.id, r.info);
      JoinAgree(Erase(st.timers, r.id), st.nodes, st.counters, st'.nodes, st'.counters);
      JoinPlace(Erase(st.timers, r.id), st'.nodes, st'.counters, r);
    }
  }

  lemma RestartedStructured(st: Store, r: Relation, packet: Packet, count: nat, st': Store)
    requires Structured(st) && Restarted(st, r, packet, count, st')
    requires Lookup(st.timers, r.id).Some? && Lookup(st.timers, r.id).value.info == r.info
    requires r.info in st.nodes && packet.id == r.id && packet.length == st.nodes[r.info].length
    ensures Structured(st')
    ensures Stored(st') == Replace(Stored(st), Entry(r.info, packet, r.timer, count))
    ensures Total(Stored(st')) == Total(Stored(st))
  {
    var es, e := Stored(st), Entry(r.info, packet, r.timer, count);
    LookupStored(st, r.id);
    RestartedParts(st, r, packet, count, st');
    var before := Find(es, r.id).value;
    ReplaceParts(es, before, e, st.next);
    forall h: nat ensures h in st'.order <==> Copies(Stored(st'), h) > 0 {
      ReplaceHas(es, before, e, r.id, h);
    }
    forall id ensures id in st'.counters <==> HasId(Stored(st'), id) {
      ReplaceHas(es, before, e, id, r.info);
    }
  }

  // ----- the pending event

  function WakeOf(ds: seq<int>): Option<int> {
    if ds == [] then None else Some(ds[0])
  }

  function Rescheduled(q: seq<Event>, scope: nat, tp: int): seq<Event> {
    Enqueue(WithoutScope(q, scope), Event(tp, scope, scope))
  }

  lemma RescheduledPending(q: seq<Event>, scope: nat, tp: int)
    requires Ordered(q) && scope != 0
    ensures Ordered(Rescheduled(q, scope, tp))
    ensures Pending(Rescheduled(q, scope, tp), scope) == [tp]
    ensures OthersUntouched(q, Rescheduled(q, scope, tp), scope)
  {
    CancelPending(q, scope);
    EnqueuePending(WithoutScope(q, scope), Event(tp, scope, scope));
  }

  // ----- from containers to the state machine

  ghost predicate Good(st: Store, q: seq<Event>, scope: nat) {
    && Ordered(q)
    && scope != 0
    && |Pending(q, scope)| <= 1
    && Structured(st)
    && st.bytes == Total(Stored(st))
  }

  ghost function Abstract(st: Store, q: seq<Event>, scope: nat, now: int): State
    requires Good(st, q, scope)
  {
    State(now, Stored(st), WakeOf(Pending(q, scope)), st.next)
  }

  /** Identity of the first timer, as compared before and after an operation. */
  function FirstNode(timers: seq<Relation>): Option<nat> {
    if timers == [] then None else Some(timers[0].info)
  }

  function FollowedQueue(st: Store, q: seq<Event>, scope: nat, changed: bool): seq<Event> {
    if changed && st.timers != [] then Rescheduled(q, scope, st.timers[0].timer.expiry) else q
  }

  /** New containers with the event queue following the first timer refine the abstract move. */
  lemma FollowRefines(st: Store, st': Store, q: seq<Event>, scope: nat, now: int, changed: bool)
    requires Good(st, q, scope) && Structured(st') && st'.bytes == Total(Stored(st'))
    requires changed <==> FirstNode(st'.timers) != FirstNode(st.timers)
    ensures
      var q' := FollowedQueue(st', q, scope, changed);
      && Good(st', q', scope)
      && Abstract(st', q', scope, now) == Followed(Abstract(st, q, scope, now), Stored(st'), st'.next)
      && OthersUntouched(q, q', scope)
  {
    if changed && st'.timers != [] {
      var tp := st'.timers[0].timer.expiry;
      RescheduledPending(q, scope, tp);
    }
  }

  lemma AddRefines(
    st: Store, st': Store, q: seq<Event>, scope: nat, now: int, capacity: nat, packet: Packet, timeout: int,
    changed: bool)
    requires Good(st, q, scope) && Structured(st') && st'.bytes == Total(Stored(st')) && timeout > 0
    requires
      var kept := Kept(Stored(st), capacity - packet.length);
      if Accepts(kept, packet)
      then Stored(st') == Insert(kept, Entry(st.next, packet, Timer(now + timeout, now), 1)) && st'.next == st.next + 1
      else Stored(st') == kept && st'.next == st.next
    requires changed <==> FirstNode(st'.timers) != FirstNode(st.timers)
    ensures
      var q' := FollowedQueue(st', q, scope, changed);
      && Good(st', q', scope)
      && Abstract(st', q', scope, now) == AddPacket(Abstract(st, q, scope, now), capacity, packet, timeout)
      && OthersUntouched(q, q', scope)
  {
    FollowRefines(st, st', q, scope, now, changed);
    AddIsFollowed(Abstract(st, q, scope, now), capacity, packet, timeout, Stored(st'), st'.next);
  }

  lemma AddIsFollowed(s: State, capacity: nat, packet: Packet, timeout: int, es: Entries, next: nat)
    requires timeout > 0
    requires
      var kept := Kept(s.entries, capacity - packet.length);
      if Accepts(kept, packet)
      then es == Insert(kept, Entry(s.next, packet, Timer(s.now + timeout, s.now), 1)) && next == s.next + 1
      else es == kept && next == s.next
    ensures AddPacket(s, capacity, packet, timeout) == Followed(s, es, next)
  {
  }

  /** After a flush the event is moved whether or not the first timer has changed. */
  lemma WakenRefines(st: Store, q: seq<Event>, scope: nat, now: int)
    requires Good(st, q, scope)
    ensures
      var q' := FollowedQueue(st, q, scope, true);
      && Good(st, q', scope)
      && Abstract(st, q', scope, now) == Wakened(Abstract(st, q, scope, now))
      && OthersUntouched(q, q', scope)
  {
    if st.timers != [] {
      var tp := st.timers[0].timer.expiry;
      RescheduledPending(q, scope, tp);
    }
  }

  /** Erasing the first timer, and only that, changes which timer is first. */
  lemma ErasedFirst(st: Store, id: Identifier, st': Store)
    requires Structured(st) && Lookup(st.timers, id).Some? && Erased(st, Lookup(st.timers, id).value, st')
    ensures FirstNode(st'.timers) != FirstNode(st.timers) <==> st.timers[0].id == id
  {
    ErasedParts(st, id, st');
    if st.timers[0].id == id {
      if st'.timers != [] {
        assert Copies(Stored(st).tail, st'.timers[0].info) > 0;
      }
    }
  }

  lemma OfferRefines(kept: Store, st': Store, s: State, packet: Packet, timer: Timer)
    requires Structured(kept) && kept.next == s.next && kept.bytes == Total(Stored(kept)) + packet.length
    requires Offered(kept, packet, timer, st')
    ensures Structured(st') && st'.bytes == Total(Stored(st'))
    ensures Accepts(Stored(kept), packet) ==>
      Stored(st') == Insert(Stored(kept), Entry(s.next, packet, timer, 1)) && st'.next == s.next + 1
    ensures !Accepts(Stored(kept), packet) ==> Stored(st') == Stored(kept) && st'.next == s.next
  {
    LookupStored(kept, packet.id);
    FindParts(Stored(kept), packet.id);
    if Lookup(kept.timers, packet.id).None? {
      AppendedStructured(kept, packet, timer, st');
    } else {
      assert Stored(st') == Stored(kept);
    }
  }

  /** The containers after the insertion attempt; `kept` is what the head drop left, its byte
      count still including the new packet. */
  predicate Offered(kept: Store, packet: Packet, timer: Timer, st': Store) {
    if Lookup(kept.timers, packet.id).None?
    then Appended(kept, packet, timer, st') && st'.bytes == kept.bytes
    else kept.bytes >= packet.length && st' == kept.(bytes := kept.bytes - packet.length)
  }

  /** The callback invocations among what leaves in a flush. */
  function DeliveredPackets(xs: seq<Exit>): seq<Packet> {
    if xs == [] then []
    else (if xs[0].fate == Delivered then [xs[0].packet] else []) + DeliveredPackets(xs[1..])
  }

  /** Exactly the packets of delivered exits are handed to the callback, in order. */
  lemma {:induction false} DeliveredInOrder(xs: seq<Exit>, i: nat) returns (k: nat)
    requires i < |xs| && xs[i].fate == Delivered
    ensures k < |DeliveredPackets(xs)| && DeliveredPackets(xs)[k] == xs[i].packet
    ensures k == |DeliveredPackets(xs[..i])|
  {
    if i == 0 {
      k := 0;
    } else {
      var j := DeliveredInOrder(xs[1..], i - 1);
      assert xs[..i][1..] == xs[1..][..i - 1] && xs[..i][0] == xs[0];
      k := (if xs[0].fate == Delivered then 1 else 0) + j;
    }
  }

  /** And nothing else is. */
  lemma {:induction false} OnlyDelivered(xs: seq<Exit>)
    ensures forall p :: p in DeliveredPackets(xs) ==> exists x :: x in xs && x.fate == Delivered && x.packet == p
  {
    if xs != [] {
      OnlyDelivered(xs[1..]);
      forall p | p in DeliveredPackets(xs) ensures exists x :: x in xs && x.fate == Delivered && x.packet == p {
        if p in DeliveredPackets(xs[1..]) {
          var x :| x in xs[1..] && x.fate == Delivered && x.packet == p;
          assert x in xs;
        } else {
          assert xs[0] in xs;
        }
      }
    }
  }

  function FetchedPacket(xs: seq<Exit>): Option<Packet> {
    if xs != [] && xs[0].fate == Fetched then Some(xs[0].packet) else None
  }

  /** What a search through the bimap tells about the containers and the abstract buffer. */
  lemma SearchOutcome(st: Store, q: seq<Event>, scope: nat, now: int, id: Identifier)
    requires Good(st, q, scope)
    ensures
      var s := Abstract(st, q, scope, now);
      match Lookup(st.timers, id)
      case None => TakeOut(s, id) == s && RemoveExits(s, id) == []
      case Some(r) =>
        && r.id == id && r.info in st.nodes && st.nodes[r.info].length <= st.bytes && RemoveExits(s, id) != []
  {
    LookupStored(st, id);
    FindParts(Stored(st), id);
    WithoutParts(Stored(st), id);
  }

  /** A released packet is handed on if it is still alive. */
  function Alive(packet: Packet, timer: Timer, now: int): Option<Packet> {
    if Reduce(packet.lifetime, now - timer.start).1 > 0 then Some(Settled(packet, timer, now)) else None
  }

  function FetchResult(st: Store, now: int, id: Identifier): Option<Packet> {
    match Lookup(st.timers, id)
    case None => None
    case Some(r) => if r.info in st.nodes then Alive(st.nodes[r.info], r.timer, now) else None
  }

  lemma FetchOutcome(st: Store, q: seq<Event>, scope: nat, now: int, id: Identifier)
    requires Good(st, q, scope)
    ensures FetchedPacket(FetchExits(Abstract(st, q, scope, now), id)) == FetchResult(st, now, id)
  {
    LookupStored(st, id);
    FindParts(Stored(st), id);
  }

  lemma TakeOutRefines(st: Store, st': Store, q: seq<Event>, scope: nat, now: int, id: Identifier, first: bool)
    requires Good(st, q, scope) && Lookup(st.timers, id).Some? && Erased(st, Lookup(st.timers, id).value, st')
    requires first <==> st.timers[0].id == id
    ensures
      var q' := FollowedQueue(st', q, scope, first);
      && Good(st', q', scope)
      && Abstract(st', q', scope, now) == TakeOut(Abstract(st, q, scope, now), id)
      && OthersUntouched(q, q', scope)
  {
    ErasedStructured(st, id, st');
    ErasedFirst(st, id, st');
    FollowRefines(st, st', q, scope, now, first);
  }

  lemma Reassociate(a: seq<Packet>, b: seq<Packet>, c: seq<Packet>)
    ensures (a + b) + c == a + (b + c)
  {
  }

  /** Releasing the first, expired packet is one step of the abstract flush. */
  lemma FlushStep(st: Store, now: int, st': Store)
    requires Structured(st) && st.timers != [] && st.timers[0].timer.expiry <= now
    requires Erased(st, st.timers[0], st')
    ensures Structured(st') && Total(Stored(st')) + st.bytes == Total(Stored(st)) + st'.bytes
    ensures Unexpired(Stored(st), now) == Unexpired(Stored(st'), now)
    ensures DeliveredPackets(FlushExits(Stored(st), now)) ==
      (if StillAlive(Stored(st).head, now) then [Reduced(Stored(st).head, now)] else [])
      + DeliveredPackets(FlushExits(Stored(st'), now))
  {
    ErasedStructured(st, st.timers[0].id, st');
    assert FlushExits(Stored(st), now)[1..] == FlushExits(Stored(st).tail, now);
  }

  /** Whether the first packet is still alive, from the containers and from the entries. */
  lemma FirstAlive(st: Store, r: Relation, now: int)
    requires Structured(st) && st.timers != [] && r == st.timers[0] && r.info in st.nodes
    ensures StillAlive(Stored(st).head, now) <==> Reduce(st.nodes[r.info].lifetime, now - r.timer.start).1 > 0
    ensures Reduced(Stored(st).head, now) == Settled(st.nodes[r.info], r.timer, now)
  {
  }

  // ----- classes

  /** Duplicate counters kept only for packets that are contending. */
  class CbfCounterContending {
    var counters: Counters

    constructor ()
      ensures counters == map[]
    {
      counters := map[];
    }

    method Add(id: Identifier)
      modifies this
      ensures counters == old(counters)[id := 1]
    {
      counters := counters[id := 1];
    }

    method Increment(id: Identifier)
      modifies this
      ensures counters == old(counters)[id := (if id in old(counters) then old(counters)[id] else 0) + 1]
    {
      counters := counters[id := (if id in counters then counters[id] else 0) + 1];
    }

    method Remove(id: Identifier)
      modifies this
      ensures counters == old(counters) - {id}
    {
      counters := counters - {id};
    }
  }

  class CbfPacketBuffer {
    const runtime: ManualRuntime
    const counter: CbfCounterContending
    const capacity: nat
    const scope: nat

    var order: seq<nat>        // the packet list, as node handles from front to back
    var nodes: Nodes           // contents of the list nodes
    var timers: seq<Relation>  // the bimap, in left (expiry) order
    var storedBytes: nat
    var nextNode: nat

    ghost function Containers(): Store
      reads this, counter
    {
      Store(order, nodes, timers, counter.counters, storedBytes, nextNode)
    }

    ghost predicate Valid()
      reads this, runtime, counter
    {
      Good(Containers(), runtime.queue, scope)
    }

    ghost function View(): State
      reads this, runtime, counter
      requires Valid()
    {
      Abstract(Containers(), runtime.queue, scope, runtime.now)
    }

    constructor (runtime: ManualRuntime, counter: CbfCounterContending, capacity: nat, scope: nat)
      requires runtime.Valid() && counter.counters == map[] && scope != 0
      requires Pending(runtime.queue, scope) == []
      ensures this.runtime == runtime && this.counter == counter && this.capacity == capacity && this.scope == scope
      ensures Valid() && View() == Initial(runtime.now).state
    {
      this.runtime, this.counter, this.capacity, this.scope := runtime, counter, capacity, scope;
      order, nodes, timers, storedBytes, nextNode := [], map[], [], 0, 0;
    }

    /** Replace the pending event by one at the first timer's expiry. */
    method ScheduleTimer()
      requires runtime.Valid() && scope != 0 && timers != []
      modifies runtime`queue
      ensures runtime.Valid()
      ensures runtime.queue == Rescheduled(old(runtime.queue), scope, timers[0].timer.expiry)
    {
      runtime.CancelScope(scope);
      runtime.ScheduleAt(timers[0].timer.expiry, scope, scope);
    }

    /** The pending event moves only when another timer has become the first. */
    method FollowTimer(changed: bool)
      requires runtime.Valid() && scope != 0
      modifies runtime`queue
      ensures runtime.queue == FollowedQueue(Containers(), old(runtime.queue), scope, changed)
    {
      if changed && timers != [] {
        ScheduleTimer();
      }
    }

    /** Take one packet out of byte count, counters, list and bimap. */
    method Unlink(r: Relation)
      requires r.info in nodes && nodes[r.info].length <= storedBytes
      modifies this, counter
      ensures Erased(old(Containers()), r, Containers())
    {
      storedBytes := storedBytes - nodes[r.info].length;
      counter.Remove(r.id);
      order := EraseNode(order, r.info);
      nodes := nodes - {r.info};
      timers := Erase(timers, r.id);
    }

    method Remove(id: Identifier) returns (dropped: bool)
      requires Valid()
      modifies this, counter, runtime`queue
      ensures Valid() && View() == TakeOut(old(View()), id)
      ensures dropped <==> RemoveExits(old(View()), id) != []
      ensures OthersUntouched(old(runtime.queue), runtime.queue, scope)
    {
      SearchOutcome(Containers(), runtime.queue, scope, runtime.now, id);
      var found := Lookup(timers, id);
      dropped := found.Some?;
      if found.Some? {
        ghost var st := Containers();
        var first := timers[0].id == id;
        Unlink(found.value);
        ghost var st', q' := Containers(), FollowedQueue(Containers(), runtime.queue, scope, first);
        TakeOutRefines(st, st', runtime.queue, scope, runtime.now, id, first);
        FollowTimer(first);
        assert Containers() == st' && runtime.queue == q';
      }
    }

    /** Settle a packet's lifetime by the time it has been queuing. */
    method ReduceLifetime(timer: Timer, node: nat) returns (valid: bool)
      requires node in nodes
      modifies this`nodes
      ensures nodes == old(nodes)[node := Settled(old(nodes)[node], timer, runtime.now)]
      ensures valid <==> Reduce(old(nodes)[node].lifetime, runtime.now - timer.start).1 > 0
    {
      var queuing := runtime.now - timer.start;
      var (lifetime, remaining) := Reduce(nodes[node].lifetime, queuing);
      nodes := nodes[node := nodes[node].(lifetime := lifetime)];
      valid := remaining > 0;
    }

    /** Settle and take out one packet. */
    method Release(r: Relation) returns (valid: bool, packet: Packet)
      requires r.info in nodes && nodes[r.info].length <= storedBytes
      modifies this, counter
      ensures Erased(old(Containers()), r, Containers())
      ensures valid <==> Reduce(old(nodes)[r.info].lifetime, runtime.now - r.timer.start).1 > 0
      ensures packet == Settled(old(nodes)[r.info], r.timer, runtime.now)
    {
      valid := ReduceLifetime(r.timer, r.info);
      packet := nodes[r.info];
      Unlink(r);
      assert nodes == old(nodes) - {r.info};
    }

    method Fetch(id: Identifier) returns (packet: Option<Packet>)
      requires Valid()
      modifies this, counter, runtime`queue
      ensures Valid() && View() == TakeOut(old(View()), id)
      ensures packet == FetchedPacket(FetchExits(old(View()), id))
      ensures OthersUntouched(old(runtime.queue), runtime.queue, scope)
    {
      ghost var st := Containers();
      SearchOutcome(st, runtime.queue, scope, runtime.now, id);
      FetchOutcome(st, runtime.queue, scope, runtime.now, id);
      packet := None;
      var found := Lookup(timers, id);
      if found.Some? {
        var first := timers[0].id == id;
        packet := TakeOutAndSettle(found.value);
        ghost var st', q' := Containers(), FollowedQueue(Containers(), runtime.queue, scope, first);
        TakeOutRefines(st, st', runtime.queue, scope, runtime.now, id, first);
        FollowTimer(first);
        assert Containers() == st' && runtime.queue == q';
      }
      assert packet == FetchResult(st, runtime.now, id);
    }

    /** Release one packet; it is handed on if it is still alive. */
    method TakeOutAndSettle(r: Relation) returns (packet: Option<Packet>)
      requires r.info in nodes && nodes[r.info].length <= storedBytes
      modifies this, counter
      ensures Erased(old(Containers()), r, Containers())
      ensures packet == Alive(old(nodes)[r.info], r.timer, runtime.now)
    {
      var valid, settled := Release(r);
      packet := if valid then Some(settled) else None;
    }

    method Update(id: Identifier, timeout: int)
      requires Valid()
      modifies this, counter
      ensures Valid() && View() == UpdatePacket(old(View()), id, timeout)
    {
      ghost var st := Containers();
      LookupStored(st, id);
      var found := Lookup(timers, id);
      if found.Some? {
        var r := found.value;
        ghost var e := Updated(Joined(r, nodes, counter.counters), runtime.now, timeout);
        var _ := ReduceLifetime(r.timer, r.info);
        var restarted := r.(timer := Timer(runtime.now + timeout, runtime.now));
        timers := ReplaceTimer(timers, restarted);
        counter.Increment(id);
        RestartedStructured(st, restarted, e.packet, e.count, Containers());
      }
    }

    /** Drop the packet at the front of the list. */
    method DropHead()
      requires Structured(Containers()) && order != [] && storedBytes >= Total(Stored(Containers()))
      modifies this, counter
      ensures Structured(Containers()) && old(Stored(Containers())).Cons?
      ensures
        Stored(Containers())
        == CbfModel.Without(old(Stored(Containers())), Oldest(old(Stored(Containers()))).packet.id)
      ensures Total(Stored(Containers())) + old(storedBytes) == old(Total(Stored(Containers()))) + storedBytes
      ensures nextNode == old(nextNode) && |order| < |old(order)|
    {
      ghost var st := Containers();
      HeadIsOldest(st);
      var id := nodes[order[0]].id;
      LookupStored(st, id);
      Unlink(Lookup(timers, id).value);
      ErasedStructured(st, id, Containers());
      ErasedOrder(st, id, Containers());
    }

    /** Count the new bytes, then drop from the front of the list until everything counted fits
        or nothing is left. */
    method MakeRoom(length: nat)
      requires Structured(Containers()) && storedBytes == Total(Stored(Containers()))
      modifies this, counter
      ensures Structured(Containers()) && storedBytes == Total(Stored(Containers())) + length
      ensures Stored(Containers()) == Kept(old(Stored(Containers())), capacity - length)
      ensures nextNode == old(nextNode)
    {
      storedBytes := storedBytes + length;
      while storedBytes > capacity && order != []
        invariant Structured(Containers()) && storedBytes == Total(Stored(Containers())) + length
        invariant Kept(Stored(Containers()), capacity - length) == Kept(old(Stored(Containers())), capacity - length)
        invariant nextNode == old(nextNode)
        decreases |order|
      {
        DropHead();
      }
      EmptyTotal(Stored(Containers()));
    }

    /** Put the packet at the back of the list and its timer into the bimap, unless the bimap
        already has the identifier. */
    method Offer(packet: Packet, timer: Timer)
      requires storedBytes >= packet.length
      modifies this, counter
      ensures Offered(old(Containers()), packet, timer, Containers())
    {
      if Lookup(timers, packet.id).None? {
        var node := nextNode;
        order, nodes := order + [node], nodes[node := packet];
        timers := Place(timers, Relation(timer, packet.id, node));
        counter.Add(packet.id);
        nextNode := nextNode + 1;
      } else {
        storedBytes := storedBytes - packet.length;
      }
    }

    /** Head drop and insertion; the pending event is left alone. */
    method Arrive(packet: Packet, timer: Timer)
      requires Structured(Containers()) && storedBytes == Total(Stored(Containers()))
      modifies this, counter
      ensures Structured(Containers()) && storedBytes == Total(Stored(Containers()))
      ensures
        var kept := Kept(old(Stored(Containers())), capacity - packet.length);
        if Accepts(kept, packet)
        then
          && Stored(Containers()) == Insert(kept, Entry(old(nextNode), packet, timer, 1))
          && nextNode == old(nextNode) + 1
        else Stored(Containers()) == kept && nextNode == old(nextNode)
    {
      ghost var s := Contents(Containers());
      MakeRoom(packet.length);
      ghost var kept := Containers();
      Offer(packet, timer);
      OfferRefines(kept, Containers(), s, packet, timer);
    }

    method Add(packet: Packet, timeout: int)
      requires Valid()
      modifies this, counter, runtime`queue
      ensures Valid() && View() == AddPacket(old(View()), capacity, packet, timeout)
      ensures OthersUntouched(old(runtime.queue), runtime.queue, scope)
    {
      if timeout > 0 {
        ghost var st := Containers();
        var firstTimer := FirstNode(timers);
        Arrive(packet, Timer(runtime.now + timeout, runtime.now));
        var changed := FirstNode(timers) != firstTimer;
        ghost var st', q' := Containers(), FollowedQueue(Containers(), runtime.queue, scope, changed);
        AddRefines(st, st', runtime.queue, scope, runtime.now, capacity, packet, timeout, changed);
        FollowTimer(changed);
        assert Containers() == st' && runtime.queue == q';
      }
    }

    /** Release the packet of the first, expired timer; the callback gets it if it is still alive. */
    method ReleaseFirst() returns (released: seq<Packet>)
      requires Structured(Containers()) && storedBytes == Total(Stored(Containers()))
      requires timers != [] && timers[0].timer.expiry <= runtime.now
      modifies this, counter
      ensures Structured(Containers()) && storedBytes == Total(Stored(Containers()))
      ensures timers == old(timers)[1..] && nextNode == old(nextNode)
      ensures Unexpired(Stored(Containers()), runtime.now) == Unexpired(old(Stored(Containers())), runtime.now)
      ensures released + DeliveredPackets(FlushExits(Stored(Containers()), runtime.now))
        == DeliveredPackets(FlushExits(old(Stored(Containers())), runtime.now))
    {
      ghost var st := Containers();
      LookupStored(st, timers[0].id);
      ghost var r := timers[0];
      var valid, packet := Release(timers[0]);
      released := if valid then [packet] else [];
      ghost var st' := Containers();
      FlushStep(st, runtime.now, st');
      FirstAlive(st, r, runtime.now);
    }

    /** Release every packet whose timer has expired. */
    method FlushExpired() returns (delivered: seq<Packet>)
      requires Structured(Containers()) && storedBytes == Total(Stored(Containers()))
      modifies this, counter
      ensures Structured(Containers()) && storedBytes == Total(Stored(Containers()))
      ensures Stored(Containers()) == Unexpired(old(Stored(Containers())), runtime.now)
      ensures delivered == DeliveredPackets(FlushExits(old(Stored(Containers())), runtime.now))
      ensures nextNode == old(nextNode)
    {
      delivered := [];
      var end := UpperBound(timers, runtime.now);
      ghost var es := Stored(Containers());
      while end > 0
        invariant Structured(Containers()) && storedBytes == Total(Stored(Containers()))
        invariant UpperBound(timers, runtime.now) == end
        invariant Unexpired(Stored(Containers()), runtime.now) == Unexpired(es, runtime.now)
        invariant delivered + DeliveredPackets(FlushExits(Stored(Containers()), runtime.now))
          == DeliveredPackets(FlushExits(es, runtime.now))
        invariant nextNode == old(nextNode)
      {
        var released := ReleaseFirst();
        Reassociate(delivered, released, DeliveredPackets(FlushExits(Stored(Containers()), runtime.now)));
        delivered := delivered + released;
        end := end - 1;
      }
    }

    /** The pending event's callback: `delivered` lists the callback invocations. */
    method Flush() returns (delivered: seq<Packet>)
      requires Valid()
      modifies this, counter, runtime`queue
      ensures Valid() && View() == CbfModel.Flush(old(View()))
      ensures delivered == DeliveredPackets(FlushExits(old(View()).entries, runtime.now))
      ensures OthersUntouched(old(runtime.queue), runtime.queue, scope)
    {
      delivered := FlushExpired();
      WakenRefines(Containers(), runtime.queue, scope, runtime.now);
      FollowTimer(true);
    }

    method Counter(id: Identifier) returns (count: nat)
      requires Valid()
      ensures count == CbfModel.Counter(View(), id)
    {
      LookupStored(Containers(), id);
      FindParts(Stored(Containers()), id);
      count := if id in counter.counters then counter.counters[id] else 0;
    }
  }
}
