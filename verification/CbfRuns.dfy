/** What holds of the contention-based forwarding buffer in every run. */
module CbfRuns {
  import opened Collections
  import opened Lifetimes
  import opened CbfModel

  // ----- entries

  lemma {:induction false} InsertParts(es: Entries, e: Entry)
    ensures Total(Insert(es, e)) == Total(es) + e.packet.length
    ensures Length(Insert(es, e)) == Length(es) + 1
    ensures Sorted(es) ==> Sorted(Insert(es, e))
  {
    if es.Cons? && es.head.timer.expiry <= e.timer.expiry {
      InsertParts(es.tail, e);
    }
  }

  lemma {:induction false} InsertHas(es: Entries, e: Entry, id: Identifier, h: nat)
    ensures HasId(Insert(es, e), id) <==> id == e.packet.id || HasId(es, id)
    ensures Copies(Insert(es, e), h) == Copies(es, h) + (if h == e.handle then 1 else 0)
  {
    if es.Cons? && es.head.timer.expiry <= e.timer.expiry {
      InsertHas(es.tail, e, id, h);
    }
  }

  lemma {:induction false} InsertMembers(es: Entries, e: Entry, x: Entry)
    ensures In(x, Insert(es, e)) <==> x == e || In(x, es)
  {
    if es.Cons? && es.head.timer.expiry <= e.timer.expiry {
      InsertMembers(es.tail, e, x);
    }
  }

  lemma {:induction false} InsertDistinct(es: Entries, e: Entry, n: nat)
    requires Distinct(es) && !HasId(es, e.packet.id) && Copies(es, e.handle) == 0
    requires HandlesBelow(es, n) && e.handle < n
    ensures Distinct(Insert(es, e)) && HandlesBelow(Insert(es, e), n)
  {
    if es.Cons? && es.head.timer.expiry <= e.timer.expiry {
      InsertDistinct(es.tail, e, n);
      InsertHas(es.tail, e, es.head.packet.id, es.head.handle);
    }
  }

  lemma {:induction false} BelowMore(es: Entries, n: nat, m: nat)
    requires HandlesBelow(es, n) && n <= m
    ensures HandlesBelow(es, m)
    ensures Copies(es, m) == 0
  {
    if es.Cons? {
      BelowMore(es.tail, n, m);
    }
  }

  lemma {:induction false} FindParts(es: Entries, id: Identifier)
    ensures Find(es, id).Some? <==> HasId(es, id)
    ensures Find(es, id).Some? ==> In(Find(es, id).value, es) && Find(es, id).value.packet.id == id
  {
    if es.Cons? {
      FindParts(es.tail, id);
    }
  }

  lemma {:induction false} InParts(e: Entry, es: Entries)
    requires In(e, es)
    ensures HasId(es, e.packet.id) && Copies(es, e.handle) > 0
    ensures Distinct(es) ==> Find(es, e.packet.id) == Some(e)
  {
    if e != es.head {
      InParts(e, es.tail);
    }
  }

  lemma {:induction false} WithoutParts(es: Entries, id: Identifier)
    requires Sorted(es)
    ensures Total(es) == Total(Without(es, id)) + match Find(es, id) { case None => 0 case Some(e) => e.packet.length }
    ensures Length(es) == Length(Without(es, id)) + (if HasId(es, id) then 1 else 0)
    ensures Sorted(Without(es, id))
    ensures !HasId(es, id) ==> Without(es, id) == es
  {
    FindParts(es, id);
    if es.Cons? {
      WithoutParts(es.tail, id);
    }
  }

  lemma {:induction false} WithoutHas(es: Entries, id: Identifier, other: Identifier, h: nat)
    requires Distinct(es)
    ensures HasId(Without(es, id), other) <==> HasId(es, other) && other != id
    ensures Copies(es, h) ==
      Copies(Without(es, id), h) + (if Find(es, id).Some? && Find(es, id).value.handle == h then 1 else 0)
  {
    if es.Cons? && es.head.packet.id != id {
      WithoutHas(es.tail, id, other, h);
    }
  }

  lemma {:induction false} WithoutMembers(es: Entries, id: Identifier, x: Entry)
    requires Distinct(es)
    ensures In(x, Without(es, id)) <==> In(x, es) && x.packet.id != id
  {
    if es.Cons? {
      WithoutMembers(es.tail, id, x);
      if In(x, es.tail) {
        InParts(x, es.tail);
      }
    }
  }

  lemma {:induction false} WithoutDistinct(es: Entries, id: Identifier, n: nat)
    requires Distinct(es) && HandlesBelow(es, n)
    ensures Distinct(Without(es, id)) && HandlesBelow(Without(es, id), n)
  {
    if es.Cons? && es.head.packet.id != id {
      WithoutDistinct(es.tail, id, n);
      WithoutHas(es.tail, id, es.head.packet.id, es.head.handle);
    }
  }

  lemma {:induction false} SubstituteParts(es: Entries, before: Entry, e: Entry, n: nat)
    requires Distinct(es) && HandlesBelow(es, n)
    requires Find(es, e.packet.id) == Some(before)
    requires e.handle == before.handle && e.packet.length == before.packet.length
    ensures Total(Substitute(es, e)) == Total(es) && Length(Substitute(es, e)) == Length(es)
    ensures Distinct(Substitute(es, e)) && HandlesBelow(Substitute(es, e), n)
  {
    if es.head.packet.id != e.packet.id {
      SubstituteParts(es.tail, before, e, n);
      SubstituteHas(es.tail, before, e, es.head.packet.id, es.head.handle);
    }
  }

  lemma {:induction false} SubstituteHas(es: Entries, before: Entry, e: Entry, id: Identifier, h: nat)
    requires Find(es, e.packet.id) == Some(before) && e.handle == before.handle
    ensures HasId(Substitute(es, e), id) <==> HasId(es, id)
    ensures Copies(Substitute(es, e), h) == Copies(es, h)
  {
    if es.head.packet.id != e.packet.id {
      SubstituteHas(es.tail, before, e, id, h);
    }
  }

  lemma {:induction false} SubstituteMembers(es: Entries, e: Entry, x: Entry)
    requires HasId(es, e.packet.id) && Distinct(es)
    ensures In(x, Substitute(es, e)) <==> x == e || (In(x, es) && x.packet.id != e.packet.id)
  {
    if es.head.packet.id != e.packet.id {
      SubstituteMembers(es.tail, e, x);
    } else if In(x, es.tail) {
      InParts(x, es.tail);
    }
  }

  lemma {:induction false} SubstituteSorted(es: Entries, e: Entry, before: Option<int>)
    requires Sorted(es) && StaysInPlace(es, e.packet.id, e.timer.expiry, before)
    requires before.Some? ==> before.value <= es.head.timer.expiry
    ensures Sorted(Substitute(es, e))
    ensures before.Some? ==> before.value <= Substitute(es, e).head.timer.expiry
  {
    if es.head.packet.id != e.packet.id {
      SubstituteSorted(es.tail, e, Some(es.head.timer.expiry));
    }
  }

  /** Replacing an entry keeps everything but its place and timer. */
  lemma ReplaceParts(es: Entries, before: Entry, e: Entry, n: nat)
    requires Distinct(es) && Sorted(es) && HandlesBelow(es, n)
    requires Find(es, e.packet.id) == Some(before)
    requires e.handle == before.handle && e.packet.length == before.packet.length
    ensures Total(Replace(es, e)) == Total(es) && Length(Replace(es, e)) == Length(es)
    ensures Distinct(Replace(es, e)) && Sorted(Replace(es, e)) && HandlesBelow(Replace(es, e), n)
  {
    var id := e.packet.id;
    FindParts(es, id);
    if StaysInPlace(es, id, e.timer.expiry, None) {
      SubstituteParts(es, before, e, n);
      SubstituteSorted(es, e, None);
    } else {
      WithoutParts(es, id);
      WithoutHas(es, id, id, e.handle);
      WithoutDistinct(es, id, n);
      DistinctCopies(es, before, n);
      InsertParts(Without(es, id), e);
      InsertDistinct(Without(es, id), e, n);
    }
  }

  lemma {:induction false} DistinctCopies(es: Entries, e: Entry, n: nat)
    requires Distinct(es) && In(e, es) && HandlesBelow(es, n)
    ensures Copies(es, e.handle) == 1 && e.handle < n
  {
    if e != es.head {
      DistinctCopies(es.tail, e, n);
    }
  }

  lemma ReplaceHas(es: Entries, before: Entry, e: Entry, id: Identifier, h: nat)
    requires Distinct(es) && Find(es, e.packet.id) == Some(before) && e.handle == before.handle
    ensures HasId(Replace(es, e), id) <==> HasId(es, id)
    ensures Copies(Replace(es, e), h) == Copies(es, h)
  {
    FindParts(es, e.packet.id);
    SubstituteHas(es, before, e, id, h);
    WithoutHas(es, e.packet.id, id, h);
    InsertHas(Without(es, e.packet.id), e, id, h);
  }

  lemma ReplaceMembers(es: Entries, e: Entry, x: Entry)
    requires HasId(es, e.packet.id) && Distinct(es)
    ensures In(x, Replace(es, e)) <==> x == e || (In(x, es) && x.packet.id != e.packet.id)
  {
    if StaysInPlace(es, e.packet.id, e.timer.expiry, None) {
      SubstituteMembers(es, e, x);
    } else {
      WithoutMembers(es, e.packet.id, x);
      InsertMembers(Without(es, e.packet.id), e, x);
    }
  }

  lemma {:induction false} FirstIsEarliest(es: Entries, e: Entry)
    requires Sorted(es) && In(e, es)
    ensures es.head.timer.expiry <= e.timer.expiry
  {
    if e != es.head {
      FirstIsEarliest(es.tail, e);
    }
  }

  lemma {:induction false} UnexpiredParts(es: Entries, now: int, n: nat)
    requires Sorted(es) && Distinct(es) && HandlesBelow(es, n)
    ensures Sorted(Unexpired(es, now)) && Distinct(Unexpired(es, now)) && HandlesBelow(Unexpired(es, now), n)
    ensures Total(Unexpired(es, now)) <= Total(es) && Length(Unexpired(es, now)) <= Length(es)
  {
    if es.Cons? {
      UnexpiredParts(es.tail, now, n);
    }
  }

  // ----- order, identity and capacity

  predicate WellFormed(s: State) {
    Sorted(s.entries) && Distinct(s.entries) && HandlesBelow(s.entries, s.next)
  }

  lemma {:induction false} KeptParts(es: Entries, room: int, n: nat)
    requires Sorted(es) && Distinct(es) && HandlesBelow(es, n)
    ensures Sorted(Kept(es, room)) && Distinct(Kept(es, room)) && HandlesBelow(Kept(es, room), n)
    ensures Total(Kept(es, room)) <= room || Kept(es, room).Nil?
    decreases Length(es)
  {
    if Total(es) > room && es.Cons? {
      var id := Oldest(es).packet.id;
      OldestFound(es);
      WithoutParts(es, id);
      WithoutDistinct(es, id, n);
      KeptParts(Without(es, id), room, n);
    }
  }

  lemma {:induction false} KeptMembers(es: Entries, room: int, n: nat, x: Entry)
    requires Distinct(es) && HandlesBelow(es, n) && In(x, Kept(es, room))
    ensures In(x, es)
    decreases Length(es)
  {
    if Total(es) > room && es.Cons? {
      OldestFound(es);
      WithoutDistinct(es, Oldest(es).packet.id, n);
      KeptMembers(Without(es, Oldest(es).packet.id), room, n, x);
      WithoutMembers(es, Oldest(es).packet.id, x);
    }
  }

  /** Stored bytes stay within capacity, except that one packet is always accepted. */
  predicate WithinCapacity(es: Entries, capacity: nat) {
    Total(es) <= capacity || Length(es) == 1
  }

  lemma EmptyTotal(es: Entries)
    ensures Length(es) == 0 <==> es.Nil?
    ensures es.Nil? ==> Total(es) == 0
  {
  }

  /** The facts about the stored entries that hold in every run. */
  predicate Sound(s: State, capacity: nat) {
    && WellFormed(s)
    && WithinCapacity(s.entries, capacity)
    && (s.entries.Cons? ==> s.wake.Some?)
  }

  lemma FollowedSound(s: State, es: Entries, next: nat, capacity: nat)
    requires Sorted(es) && Distinct(es) && HandlesBelow(es, next) && WithinCapacity(es, capacity)
    requires s.entries.Cons? ==> s.wake.Some?
    ensures Sound(Followed(s, es, next), capacity)
  {
  }

  lemma InsertSound(kept: Entries, e: Entry, capacity: nat)
    requires Sorted(kept) && Distinct(kept) && HandlesBelow(kept, e.handle) && !HasId(kept, e.packet.id)
    requires Total(kept) <= capacity - e.packet.length || kept.Nil?
    ensures
      var es := Insert(kept, e);
      Sorted(es) && Distinct(es) && HandlesBelow(es, e.handle + 1) && WithinCapacity(es, capacity)
  {
    InsertParts(kept, e);
    EmptyTotal(kept);
    BelowMore(kept, e.handle, e.handle);
    BelowMore(kept, e.handle, e.handle + 1);
    InsertDistinct(kept, e, e.handle + 1);
  }

  lemma AdmitSound(s: State, kept: Entries, capacity: nat, packet: Packet, timeout: int)
    requires WellFormed(s.(entries := kept)) && (s.entries.Cons? ==> s.wake.Some?)
    requires Total(kept) <= capacity - packet.length || kept.Nil?
    ensures Sound(Admit(s, kept, packet, timeout), capacity)
  {
    FindParts(kept, packet.id);
    if Accepts(kept, packet) {
      var e := Arrival(s, packet, timeout);
      InsertSound(kept, e, capacity);
      FollowedSound(s, Insert(kept, e), s.next + 1, capacity);
    } else {
      EmptyTotal(kept);
      FollowedSound(s, kept, s.next, capacity);
    }
  }

  lemma AddSound(s: State, capacity: nat, packet: Packet, timeout: int)
    requires Sound(s, capacity)
    ensures Sound(AddPacket(s, capacity, packet, timeout), capacity)
  {
    if timeout > 0 {
      KeptParts(s.entries, capacity - packet.length, s.next);
      AdmitSound(s, Kept(s.entries, capacity - packet.length), capacity, packet, timeout);
    }
  }

  lemma TakeOutSound(s: State, capacity: nat, id: Identifier)
    requires Sound(s, capacity)
    ensures Sound(TakeOut(s, id), capacity)
  {
    WithoutParts(s.entries, id);
    WithoutDistinct(s.entries, id, s.next);
    EmptyTotal(Without(s.entries, id));
  }

  lemma UpdateSound(s: State, capacity: nat, id: Identifier, timeout: int)
    requires Sound(s, capacity)
    ensures Sound(UpdatePacket(s, id, timeout), capacity)
  {
    FindParts(s.entries, id);
    match Find(s.entries, id)
    case None =>
    case Some(e) => ReplaceParts(s.entries, e, Updated(e, s.now, timeout), s.next);
  }

  lemma FlushSound(s: State, capacity: nat)
    requires WellFormed(s) && WithinCapacity(s.entries, capacity)
    ensures Sound(Flush(s), capacity)
  {
    UnexpiredParts(s.entries, s.now, s.next);
    EmptyTotal(Unexpired(s.entries, s.now));
  }

  lemma StepSound(s: State, capacity: nat, op: Op)
    requires Sound(s, capacity)
    ensures Sound(Step(s, capacity, op), capacity)
  {
    match op
    case Advance(_) =>
    case Add(packet, timeout) => AddSound(s, capacity, packet, timeout);
    case Remove(id) => TakeOutSound(s, capacity, id);
    case Fetch(id) => TakeOutSound(s, capacity, id);
    case Update(id, timeout) => UpdateSound(s, capacity, id, timeout);
    case Fire => FlushSound(s.(wake := None), capacity);
  }

  /** In every run identifiers and handles stay distinct, timers ordered, bytes within capacity
      (one oversized packet excepted), and a flush is pending while anything is stored. */
  lemma {:induction false} AlwaysSound(t: Trace, capacity: nat, ops: seq<Op>)
    requires Sound(t.state, capacity)
    ensures Sound(Run(t, capacity, ops).state, capacity)
    decreases |ops|
  {
    if ops != [] {
      StepSound(t.state, capacity, ops[0]);
      AlwaysSound(Extend(t, capacity, ops[0]), capacity, ops[1..]);
    }
  }

  // ----- conservation

  function ExitCopies(xs: seq<Exit>, h: nat): nat {
    if xs == [] then 0 else (if xs[0].handle == h then 1 else 0) + ExitCopies(xs[1..], h)
  }

  lemma {:induction false} ExitCopiesConcat(a: seq<Exit>, b: seq<Exit>, h: nat)
    ensures ExitCopies(a + b, h) == ExitCopies(a, h) + ExitCopies(b, h)
  {
    if a == [] {
      assert a + b == b;
    } else {
      assert (a + b)[1..] == a[1..] + b;
      ExitCopiesConcat(a[1..], b, h);
    }
  }

  lemma {:induction false} DroppedCopies(es: Entries, room: int, now: int, n: nat, h: nat)
    requires Distinct(es) && HandlesBelow(es, n)
    ensures Copies(Kept(es, room), h) + ExitCopies(Dropped(es, room, now), h) == Copies(es, h)
    decreases Length(es)
  {
    if Total(es) > room && es.Cons? {
      var o := Oldest(es);
      OldestFound(es);
      InParts(o, es);
      WithoutHas(es, o.packet.id, o.packet.id, h);
      WithoutDistinct(es, o.packet.id, n);
      DroppedCopies(Without(es, o.packet.id), room, now, n, h);
      assert Dropped(es, room, now)[1..] == Dropped(Without(es, o.packet.id), room, now);
    }
  }

  lemma {:induction false} FlushCopies(es: Entries, now: int, h: nat)
    ensures Copies(Unexpired(es, now), h) + ExitCopies(FlushExits(es, now), h) == Copies(es, h)
  {
    if es.Cons? && es.head.timer.expiry <= now {
      FlushCopies(es.tail, now, h);
      assert FlushExits(es, now)[1..] == FlushExits(es.tail, now);
    }
  }

  /** 1 for the handle given out by a step, if any. */
  function Born(s: State, s': State, h: nat): nat {
    if s'.next > s.next && h == s.next then 1 else 0
  }

  lemma AddConserves(s: State, capacity: nat, packet: Packet, timeout: int, h: nat)
    requires WellFormed(s)
    ensures
      var s' := AddPacket(s, capacity, packet, timeout);
      && s.next <= s'.next <= s.next + 1
      && Copies(s'.entries, h) + ExitCopies(AddExits(s, capacity, packet, timeout), h)
        == Copies(s.entries, h) + Born(s, s', h)
  {
    if timeout > 0 {
      var room := capacity - packet.length;
      DroppedCopies(s.entries, room, s.now, s.next, h);
      InsertHas(Kept(s.entries, room), Arrival(s, packet, timeout), packet.id, h);
    }
  }

  lemma TakeOutConserves(s: State, id: Identifier, out: seq<Exit>, h: nat)
    requires WellFormed(s)
    requires match Find(s.entries, id)
      case None => out == []
      case Some(e) => |out| == 1 && out[0].handle == e.handle
    ensures TakeOut(s, id).next == s.next
    ensures Copies(TakeOut(s, id).entries, h) + ExitCopies(out, h) == Copies(s.entries, h)
  {
    WithoutHas(s.entries, id, id, h);
    if out != [] {
      assert ExitCopies(out[1..], h) == 0;
    }
  }

  /** What a step takes out of the stored entries is what it lets out, and nothing else. */
  lemma StepConserves(s: State, capacity: nat, op: Op, h: nat)
    requires WellFormed(s)
    ensures
      var s' := Step(s, capacity, op);
      && s.next <= s'.next <= s.next + 1
      && (s'.next > s.next ==> op.Add?)
      && Copies(s'.entries, h) + ExitCopies(Exits(s, capacity, op), h) == Copies(s.entries, h) + Born(s, s', h)
  {
    match op
    case Advance(_) =>
    case Add(packet, timeout) => AddConserves(s, capacity, packet, timeout, h);
    case Remove(id) => TakeOutConserves(s, id, RemoveExits(s, id), h);
    case Fetch(id) => TakeOutConserves(s, id, FetchExits(s, id), h);
    case Update(id, timeout) =>
      match Find(s.entries, id) {
        case None =>
        case Some(e) =>
          FindParts(s.entries, id);
          ReplaceHas(s.entries, e, Updated(e, s.now, timeout), id, h);
      }
    case Fire => FlushCopies(s.entries, s.now, h);
  }

  /** Each handle given out so far is either stored once or has left once, never both. */
  ghost predicate Accounted(t: Trace) {
    && |t.accepted| == t.state.next
    && forall h: nat :: Copies(t.state.entries, h) + ExitCopies(t.exits, h) == if h < t.state.next then 1 else 0
  }

  lemma ExtendAccounted(t: Trace, capacity: nat, op: Op)
    requires WellFormed(t.state) && Accounted(t)
    ensures Accounted(Extend(t, capacity, op))
  {
    var t' := Extend(t, capacity, op);
    StepConserves(t.state, capacity, op, 0);
    forall h: nat
      ensures Copies(t'.state.entries, h) + ExitCopies(t'.exits, h) == if h < t'.state.next then 1 else 0
    {
      StepConserves(t.state, capacity, op, h);
      ExitCopiesConcat(t.exits, Exits(t.state, capacity, op), h);
    }
  }

  /** In every run each accepted packet is either still stored or has left exactly once. */
  lemma {:induction false} Conservation(t: Trace, capacity: nat, ops: seq<Op>)
    requires Sound(t.state, capacity) && Accounted(t)
    ensures Accounted(Run(t, capacity, ops))
    decreases |ops|
  {
    if ops != [] {
      StepSound(t.state, capacity, ops[0]);
      ExtendAccounted(t, capacity, ops[0]);
      Conservation(Extend(t, capacity, ops[0]), capacity, ops[1..]);
    }
  }

  // ----- head drop

  lemma {:induction false} OldestLeast(es: Entries, x: Entry)
    requires In(x, es)
    ensures Oldest(es).handle <= x.handle
  {
    if es.tail.Cons? && x != es.head {
      OldestLeast(es.tail, x);
    }
  }

  /** Whatever is dropped was stored and is older than whatever is kept. */
  lemma {:induction false} HeadDropOldest(es: Entries, room: int, now: int, n: nat, i: nat, e: Entry)
    requires Distinct(es) && HandlesBelow(es, n)
    requires i < |Dropped(es, room, now)| && In(e, Kept(es, room))
    ensures Dropped(es, room, now)[i].handle < e.handle
    ensures Copies(es, Dropped(es, room, now)[i].handle) == 1
    decreases Length(es)
  {
    var o := Oldest(es);
    var rest := Without(es, o.packet.id);
    OldestFound(es);
    InParts(o, es);
    WithoutDistinct(es, o.packet.id, n);
    DistinctCopies(es, o, n);
    WithoutHas(es, o.packet.id, o.packet.id, o.handle);
    if i == 0 {
      KeptMembers(es, room, n, e);
      KeptMembers(rest, room, n, e);
      OldestLeast(es, e);
      InParts(e, rest);
    } else {
      assert Dropped(es, room, now)[i] == Dropped(rest, room, now)[i - 1];
      HeadDropOldest(rest, room, now, n, i - 1, e);
      WithoutHas(es, o.packet.id, o.packet.id, Dropped(rest, room, now)[i - 1].handle);
    }
  }

  /** The head drop is minimal: the last packet dropped would not have fitted any more. */
  lemma {:induction false} HeadDropMinimal(es: Entries, room: int, now: int)
    requires Sorted(es) && Distinct(es)
    ensures Total(Kept(es, room)) <= room || Kept(es, room).Nil?
    ensures Dropped(es, room, now) != [] ==>
      Total(Kept(es, room)) + Dropped(es, room, now)[|Dropped(es, room, now)| - 1].packet.length > room
    decreases Length(es)
  {
    if Total(es) > room && es.Cons? {
      var o := Oldest(es);
      var rest := Without(es, o.packet.id);
      OldestFound(es);
      InParts(o, es);
      WithoutParts(es, o.packet.id);
      DistinctWithout(es, o.packet.id);
      HeadDropMinimal(rest, room, now);
      assert Dropped(es, room, now)[1..] == Dropped(rest, room, now);
    }
  }

  lemma {:induction false} AllBelow(es: Entries) returns (n: nat)
    ensures HandlesBelow(es, n)
  {
    n := 0;
    if es.Cons? {
      var m := AllBelow(es.tail);
      n := Max(m, es.head.handle + 1);
      BelowMore(es.tail, m, n);
    }
  }

  lemma DistinctWithout(es: Entries, id: Identifier)
    requires Distinct(es)
    ensures Distinct(Without(es, id))
  {
    var n := AllBelow(es);
    WithoutDistinct(es, id, n);
  }

  // ----- wakeup

  /** The pending flush is no later than the earliest timer. */
  predicate Armed(s: State) {
    s.entries.Cons? ==> s.wake.Some? && s.wake.value <= s.entries.head.timer.expiry
  }

  /** Equal handles mean equal entries. */
  lemma {:induction false} SameHandle(es: Entries, x: Entry, y: Entry)
    requires Distinct(es) && In(x, es) && In(y, es) && x.handle == y.handle
    ensures x == y
  {
    if x != es.head && y != es.head {
      SameHandle(es.tail, x, y);
    } else if x != es.head {
      InParts(x, es.tail);
    } else if y != es.head {
      InParts(y, es.tail);
    }
  }

  /** A new set of entries drawn from the old ones and possibly one new timer leaves the
      wakeup in time, because it moves along whenever the first timer changes. */
  lemma FollowedArmed(s: State, entries: Entries, next: nat)
    requires WellFormed(s) && Armed(s)
    requires entries.Cons? && First(entries) == First(s.entries) ==> In(entries.head, s.entries)
    ensures Armed(Followed(s, entries, next))
  {
    if entries.Cons? && First(entries) == First(s.entries) {
      SameHandle(s.entries, entries.head, s.entries.head);
    }
  }

  lemma AddArmed(s: State, capacity: nat, packet: Packet, timeout: int)
    requires WellFormed(s) && Armed(s)
    ensures Armed(AddPacket(s, capacity, packet, timeout))
  {
    if timeout > 0 {
      var room := capacity - packet.length;
      var kept := Kept(s.entries, room);
      var e := Arrival(s, packet, timeout);
      var entries := if Accepts(kept, packet) then Insert(kept, e) else kept;
      if entries.Cons? && First(entries) == First(s.entries) {
        var x := entries.head;
        InsertMembers(kept, e, x);
        assert s.entries.head.handle < s.next;
        KeptMembers(s.entries, room, s.next, x);
      }
      FollowedArmed(s, entries, if Accepts(kept, packet) then s.next + 1 else s.next);
    }
  }

  lemma TakeOutArmed(s: State, id: Identifier)
    requires WellFormed(s) && Armed(s)
    ensures Armed(TakeOut(s, id))
  {
    var rest := Without(s.entries, id);
    if rest.Cons? {
      WithoutMembers(s.entries, id, rest.head);
    }
    FollowedArmed(s, rest, s.next);
  }

  /** Restarting a timer leaves the wakeup alone, so it stays early enough exactly when the
      new expiry does not precede it. */
  lemma UpdateArmed(s: State, id: Identifier, timeout: int)
    requires WellFormed(s) && Armed(s) && HasId(s.entries, id)
    ensures s.wake.Some?
    ensures Armed(UpdatePacket(s, id, timeout)) <==> s.now + timeout >= s.wake.value
  {
    FindParts(s.entries, id);
    var before := Find(s.entries, id).value;
    var e := Updated(before, s.now, timeout);
    var es := Replace(s.entries, e);
    ReplaceParts(s.entries, before, e, s.next);
    ReplaceMembers(s.entries, e, e);
    ReplaceMembers(s.entries, e, es.head);
    FirstIsEarliest(es, e);
    if es.head != e {
      FirstIsEarliest(s.entries, es.head);
    }
  }

  /** An update does not set an expiry before the flush pending at that moment. */
  predicate Patient(s: State, op: Op) {
    op.Update? && s.wake.Some? && HasId(s.entries, op.id) ==> s.now + op.timeout >= s.wake.value
  }

  lemma StepArmed(s: State, capacity: nat, op: Op)
    requires WellFormed(s) && Armed(s) && Patient(s, op)
    ensures Armed(Step(s, capacity, op))
  {
    match op
    case Advance(_) =>
    case Add(packet, timeout) => AddArmed(s, capacity, packet, timeout);
    case Remove(id) => TakeOutArmed(s, id);
    case Fetch(id) => TakeOutArmed(s, id);
    case Fire =>
    case Update(id, timeout) =>
      FindParts(s.entries, id);
      if HasId(s.entries, id) {
        UpdateArmed(s, id, timeout);
      }
  }

  predicate Unhurried(t: Trace, capacity: nat, ops: seq<Op>)
    decreases |ops|
  {
    ops != [] ==> Patient(t.state, ops[0]) && Unhurried(Extend(t, capacity, ops[0]), capacity, ops[1..])
  }

  /** In every run whose updates are patient the flush is pending in time for the earliest timer. */
  lemma {:induction false} AlwaysArmed(t: Trace, capacity: nat, ops: seq<Op>)
    requires Sound(t.state, capacity) && Armed(t.state)
    requires Unhurried(t, capacity, ops)
    ensures Armed(Run(t, capacity, ops).state)
    decreases |ops|
  {
    if ops != [] {
      StepSound(t.state, capacity, ops[0]);
      StepArmed(t.state, capacity, ops[0]);
      AlwaysArmed(Extend(t, capacity, ops[0]), capacity, ops[1..]);
    }
  }

  /** Consequence for a runtime that has served everything due: no timer is overdue. */
  lemma NothingOverdue(start: int, capacity: nat, ops: seq<Op>, s: State, e: Entry)
    requires s == Run(Initial(start), capacity, ops).state && Unhurried(Initial(start), capacity, ops)
    requires !WakeDue(s) && In(e, s.entries)
    ensures e.timer.expiry > s.now
  {
    AlwaysSound(Initial(start), capacity, ops);
    AlwaysArmed(Initial(start), capacity, ops);
    FirstIsEarliest(s.entries, e);
  }

  /** An update can leave a timer overdue although nothing is due at the runtime. */
  lemma HurriedUpdateIsLate()
    ensures exists capacity, ops, e ::
      var s := Run(Initial(0), capacity, ops).state;
      !WakeDue(s) && In(e, s.entries) && e.timer.expiry <= s.now
  {
    var id := Identifier(1, 1);
    var packet := Packet(id, 100, 80);
    var ops := [Add(packet, 10), Update(id, 5), Advance(6)];
    var t1 := Extend(Initial(0), 1000, ops[0]);
    assert Kept(Nil, 900) == Nil;
    var t2 := Extend(t1, 1000, ops[1]);
    var t3 := Extend(t2, 1000, ops[2]);
    assert ops[1..] == [ops[1], ops[2]] && ops[1..][1..] == [ops[2]];
    assert Run(t2, 1000, [ops[2]]) == Run(t3, 1000, [ops[2]][1..]) == t3;
    assert Run(t1, 1000, [ops[1], ops[2]]) == t3;
    assert Run(Initial(0), 1000, ops) == t3;
    var e := t3.state.entries.head;
    assert !WakeDue(t3.state) && In(e, t3.state.entries) && e.timer.expiry <= t3.state.now;
  }

  // ----- what a flush delivers

  /** A served wakeup empties the buffer of exactly the expired timers. */
  lemma {:induction false} FlushExact(es: Entries, now: int, e: Entry)
    requires Sorted(es)
    ensures In(e, Unexpired(es, now)) <==> In(e, es) && e.timer.expiry > now
    ensures In(e, es) && e.timer.expiry <= now ==> Leave(e, now, Delivered) in FlushExits(es, now)
  {
    if es.Cons? {
      if es.head.timer.expiry <= now {
        FlushExact(es.tail, now, e);
      } else if In(e, es) {
        FirstIsEarliest(es, e);
      }
    }
  }

  /** What a flush lets out, in expiry order: each was stored with an expired timer; it reaches
      the callback exactly if its lifetime exceeds the time it has been queuing, and the
      lifetime it carries on the wire has not grown. */
  lemma {:induction false} FlushOrder(es: Entries, now: int, i: nat) returns (e: Entry)
    requires Sorted(es) && i < |FlushExits(es, now)|
    ensures In(e, es) && e.timer.expiry <= now && FlushExits(es, now)[i] == Leave(e, now, Delivered)
    ensures FlushExits(es, now)[i].fate == Delivered <==> Decode(e.packet.lifetime) > Max(0, now - e.timer.start)
    ensures FlushExits(es, now)[i].fate != Delivered ==> Decode(FlushExits(es, now)[i].packet.lifetime) == 0
    ensures Decode(FlushExits(es, now)[i].packet.lifetime) <= Decode(e.packet.lifetime)
    ensures forall j :: 0 <= j < i ==> FlushExits(es, now)[j].expiry <= FlushExits(es, now)[i].expiry
  {
    if i == 0 {
      e := es.head;
      ReduceSound(e.packet.lifetime, now - e.timer.start);
    } else {
      e := FlushOrder(es.tail, now, i - 1);
      FirstIsEarliest(es, e);
      assert forall j :: 0 < j <= i ==> FlushExits(es, now)[j] == FlushExits(es.tail, now)[j - 1];
    }
  }

  // ----- duplicate counter

  predicate Counts(op: Op, id: Identifier) {
    op.Update? && op.id == id
  }

  function Updates(ops: seq<Op>, id: Identifier): nat {
    if ops == [] then 0 else (if Counts(ops[0], id) then 1 else 0) + Updates(ops[1..], id)
  }

  /** `before` and `e` are the same stored packet, `updates` timer restarts apart; its
      lifetime never grew. */
  predicate SamePacket(before: Entry, e: Entry, updates: nat) {
    && before.handle == e.handle
    && before.packet.id == e.packet.id
    && before.packet.length == e.packet.length
    && Decode(e.packet.lifetime) <= Decode(before.packet.lifetime)
    && e.count == before.count + updates
  }

  /** An update of the stored packet restarts its timer and settles its lifetime; nothing else
      touches either. */
  predicate Restarted(before: Entry, e: Entry, now: int, op: Op) {
    if Counts(op, e.packet.id) then
      && e.timer.expiry == now + op.timeout && e.timer.start == now
      && e.packet.lifetime == Reduce(before.packet.lifetime, now - before.timer.start).0
    else e.timer == before.timer && e.packet.lifetime == before.packet.lifetime
  }

  /** Where an entry comes from: it just arrived with count one, or it was there before and is
      restarted and counted up by an update of its own identifier. */
  lemma StepDescends(s: State, capacity: nat, op: Op, e: Entry) returns (before: Entry)
    requires WellFormed(s) && In(e, Step(s, capacity, op).entries)
    ensures
      if e.handle == s.next then
        && op.Add? && e.count == 1 && e.packet == op.packet
        && e.timer.expiry == s.now + op.timeout && e.timer.start == s.now
      else
        && In(before, s.entries) && SamePacket(before, e, if Counts(op, e.packet.id) then 1 else 0)
        && Restarted(before, e, s.now, op)
  {
    before := e;
    match op
    case Advance(_) => BelowEach(s.entries, s.next, e);
    case Add(packet, timeout) => AddDescends(s, capacity, packet, timeout, e);
    case Remove(id) =>
      WithoutMembers(s.entries, id, e);
      BelowEach(s.entries, s.next, e);
    case Fetch(id) =>
      WithoutMembers(s.entries, id, e);
      BelowEach(s.entries, s.next, e);
    case Fire =>
      FlushExact(s.entries, s.now, e);
      BelowEach(s.entries, s.next, e);
    case Update(id, timeout) =>
      FindParts(s.entries, id);
      if HasId(s.entries, id) {
        var b := Find(s.entries, id).value;
        ReplaceMembers(s.entries, Updated(b, s.now, timeout), e);
        ReduceSound(b.packet.lifetime, s.now - b.timer.start);
        before := if e == Updated(b, s.now, timeout) then b else e;
      }
      BelowEach(s.entries, s.next, before);
      InParts(before, s.entries);
  }

  lemma {:induction false} BelowEach(es: Entries, n: nat, e: Entry)
    requires HandlesBelow(es, n) && In(e, es)
    ensures e.handle < n
  {
    if e != es.head {
      BelowEach(es.tail, n, e);
    }
  }

  lemma AddDescends(s: State, capacity: nat, packet: Packet, timeout: int, e: Entry)
    requires WellFormed(s) && In(e, AddPacket(s, capacity, packet, timeout).entries)
    ensures
      if e.handle == s.next then
        e.count == 1 && e.packet == packet && e.timer.expiry == s.now + timeout && e.timer.start == s.now
      else In(e, s.entries)
  {
    var kept := Kept(s.entries, capacity - packet.length);
    if timeout > 0 {
      InsertMembers(kept, Arrival(s, packet, timeout), e);
      if In(e, kept) {
        KeptMembers(s.entries, capacity - packet.length, s.next, e);
      }
    }
    if In(e, s.entries) {
      BelowEach(s.entries, s.next, e);
    }
  }

  /** What is stored under an old handle at the end of a run was stored at its start, and its
      counter has grown by the updates of its identifier. */
  lemma {:induction false} StoredThroughout(t: Trace, capacity: nat, ops: seq<Op>, e: Entry) returns (before: Entry)
    requires Sound(t.state, capacity)
    requires In(e, Run(t, capacity, ops).state.entries) && e.handle < t.state.next
    ensures In(before, t.state.entries) && SamePacket(before, e, Updates(ops, e.packet.id))
    decreases |ops|
  {
    if ops == [] {
      before := e;
    } else {
      StepSound(t.state, capacity, ops[0]);
      StepConserves(t.state, capacity, ops[0], 0);
      var mid := StoredThroughout(Extend(t, capacity, ops[0]), capacity, ops[1..], e);
      before := StepDescends(t.state, capacity, ops[0], mid);
    }
  }

  /** In every run the counter of a stored packet is one plus the number of updates of its
      identifier since it was accepted, and what is stored is the accepted packet with a
      lifetime that never grew. */
  lemma CounterCountsUpdates(t: Trace, capacity: nat, packet: Packet, timeout: int, later: seq<Op>, e: Entry)
    requires Sound(t.state, capacity)
    requires In(e, Run(Extend(t, capacity, Add(packet, timeout)), capacity, later).state.entries)
    requires e.handle == t.state.next < Extend(t, capacity, Add(packet, timeout)).state.next
    ensures e.packet.id == packet.id && e.packet.length == packet.length
    ensures Decode(e.packet.lifetime) <= Decode(packet.lifetime)
    ensures Counter(Run(Extend(t, capacity, Add(packet, timeout)), capacity, later).state, packet.id)
      == e.count == 1 + Updates(later, packet.id)
  {
    var op := Add(packet, timeout);
    var t1 := Extend(t, capacity, op);
    StepSound(t.state, capacity, op);
    AlwaysSound(t1, capacity, later);
    var first := StoredThroughout(t1, capacity, later, e);
    var _ := StepDescends(t.state, capacity, op, first);
    InParts(e, Run(t1, capacity, later).state.entries);
  }

  predicate Counted(es: Entries) {
    es.Cons? ==> es.head.count >= 1 && Counted(es.tail)
  }

  lemma {:induction false} CountedEach(es: Entries, id: Identifier)
    requires Counted(es)
    ensures Find(es, id).Some? ==> Find(es, id).value.count >= 1
    ensures Counted(Without(es, id))
  {
    if es.Cons? {
      CountedEach(es.tail, id);
    }
  }

  lemma {:induction false} CountedInsert(es: Entries, e: Entry)
    requires Counted(es) && e.count >= 1
    ensures Counted(Insert(es, e)) && Counted(Substitute(es, e))
  {
    if es.Cons? {
      CountedInsert(es.tail, e);
    }
  }

  lemma {:induction false} CountedKept(es: Entries, room: int)
    requires Counted(es)
    ensures Counted(Kept(es, room))
    decreases Length(es)
  {
    if Total(es) > room && es.Cons? {
      OldestFound(es);
      CountedEach(es, Oldest(es).packet.id);
      CountedKept(Without(es, Oldest(es).packet.id), room);
    }
  }

  lemma {:induction false} CountedUnexpired(es: Entries, now: int)
    requires Counted(es)
    ensures Counted(Unexpired(es, now))
  {
    if es.Cons? {
      CountedUnexpired(es.tail, now);
    }
  }

  lemma StepCounted(s: State, capacity: nat, op: Op)
    requires Counted(s.entries)
    ensures Counted(Step(s, capacity, op).entries)
  {
    match op
    case Advance(_) =>
    case Add(packet, timeout) =>
      CountedKept(s.entries, capacity - packet.length);
      CountedInsert(Kept(s.entries, capacity - packet.length), Arrival(s, packet, timeout));
    case Remove(id) => CountedEach(s.entries, id);
    case Fetch(id) => CountedEach(s.entries, id);
    case Fire => CountedUnexpired(s.entries, s.now);
    case Update(id, timeout) =>
      match Find(s.entries, id) {
        case None =>
        case Some(e) =>
          CountedEach(s.entries, id);
          CountedInsert(s.entries, Updated(e, s.now, timeout));
          CountedInsert(Without(s.entries, id), Updated(e, s.now, timeout));
          CountedEach(s.entries, e.packet.id);
          FindParts(s.entries, id);
      }
  }

  /** In every run the counter of an identifier is zero exactly while no packet with it is stored. */
  lemma {:induction false} CounterZeroIffAbsent(t: Trace, capacity: nat, ops: seq<Op>, id: Identifier)
    requires Counted(t.state.entries)
    ensures Counter(Run(t, capacity, ops).state, id) == 0 <==> !HasId(Run(t, capacity, ops).state.entries, id)
    decreases |ops|
  {
    if ops == [] {
      CountedEach(t.state.entries, id);
      FindParts(t.state.entries, id);
    } else {
      StepCounted(t.state, capacity, ops[0]);
      CounterZeroIffAbsent(Extend(t, capacity, ops[0]), capacity, ops[1..], id);
    }
  }
}
