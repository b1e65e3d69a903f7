/** What the forwarding buffer does not promise, and exactly when it keeps it all the same: bytes
    within capacity, duplicates that change nothing, and a flush pending in time. */
module CbfLimits {
  import opened Collections
  import opened CbfModel
  import opened CbfRuns

  // ----- capacity

  lemma {:induction false} MemberTotal(es: Entries, e: Entry)
    requires In(e, es)
    ensures e.packet.length <= Total(es)
    ensures Length(es) == 1 ==> Total(es) == e.packet.length
  {
    if e != es.head {
      MemberTotal(es.tail, e);
      EmptyTotal(es.tail);
    } else if Length(es) == 1 {
      EmptyTotal(es.tail);
    }
  }

  /** Whatever has happened before, the stored bytes are within capacity exactly when no stored
      packet by itself is longer. */
  lemma WithinCapacityIff(s: State, capacity: nat)
    requires Sound(s, capacity)
    ensures Total(s.entries) <= capacity <==> forall e :: In(e, s.entries) ==> e.packet.length <= capacity
  {
    forall e | In(e, s.entries) ensures e.packet.length <= Total(s.entries) {
      MemberTotal(s.entries, e);
    }
    if s.entries.Cons? {
      MemberTotal(s.entries, s.entries.head);
    }
  }

  /** An addition that takes effect, of a packet longer than the whole buffer. */
  predicate Oversized(op: Op, capacity: nat) {
    op.Add? && op.timeout > 0 && op.packet.length > capacity
  }

  lemma {:induction false} SubstituteTotal(es: Entries, before: Entry, e: Entry)
    requires Find(es, e.packet.id) == Some(before) && before.packet.length == e.packet.length
    ensures Total(Substitute(es, e)) == Total(es) && Total(Without(es, e.packet.id)) == Total(es) - e.packet.length
  {
    if es.head.packet.id != e.packet.id {
      SubstituteTotal(es.tail, before, e);
    }
  }

  lemma {:induction false} KeptNothing(es: Entries, room: int)
    requires room < 0
    ensures Kept(es, room) == Nil
    decreases Length(es)
  {
    if es.Cons? {
      OldestFound(es);
      KeptNothing(Without(es, Oldest(es).packet.id), room);
    }
  }

  lemma {:induction false} UnexpiredTotal(es: Entries, now: int)
    ensures Total(Unexpired(es, now)) <= Total(es)
  {
    if es.Cons? {
      UnexpiredTotal(es.tail, now);
    }
  }

  lemma {:induction false} WithoutTotal(es: Entries, id: Identifier)
    ensures Total(Without(es, id)) <= Total(es)
  {
    if es.Cons? {
      WithoutTotal(es.tail, id);
    }
  }

  lemma AddWithin(s: State, capacity: nat, packet: Packet, timeout: int)
    requires Sound(s, capacity) && timeout > 0
    ensures Total(AddPacket(s, capacity, packet, timeout).entries) <= capacity <==> packet.length <= capacity
  {
    var room := capacity - packet.length;
    var kept := Kept(s.entries, room);
    InsertParts(kept, Arrival(s, packet, timeout));
    if room < 0 {
      KeptNothing(s.entries, room);
    } else {
      HeadDropMinimal(s.entries, room, s.now);
    }
  }

  /** A step keeps the bytes within capacity exactly when it does not add a longer packet. */
  lemma StepWithin(s: State, capacity: nat, op: Op)
    requires Sound(s, capacity) && Total(s.entries) <= capacity
    ensures Total(Step(s, capacity, op).entries) <= capacity <==> !Oversized(op, capacity)
  {
    match op
    case Advance(_) =>
    case Add(packet, timeout) =>
      if timeout > 0 {
        AddWithin(s, capacity, packet, timeout);
      }
    case Remove(id) => WithoutTotal(s.entries, id);
    case Fetch(id) => WithoutTotal(s.entries, id);
    case Fire => UnexpiredTotal(s.entries, s.now);
    case Update(id, timeout) =>
      match Find(s.entries, id) {
        case None =>
        case Some(e) =>
          FindParts(s.entries, id);
          var e' := Updated(e, s.now, timeout);
          SubstituteTotal(s.entries, e, e');
          InsertParts(Without(s.entries, id), e');
      }
  }

  /** The bytes are within capacity at every point of a run. */
  predicate WithinThroughout(t: Trace, capacity: nat, ops: seq<Op>)
    decreases |ops|
  {
    && Total(t.state.entries) <= capacity
    && (ops != [] ==> WithinThroughout(Extend(t, capacity, ops[0]), capacity, ops[1..]))
  }

  /** The bytes never exceed the capacity in a run exactly when it adds no longer packet. */
  lemma {:induction false} RunWithin(t: Trace, capacity: nat, ops: seq<Op>)
    requires Sound(t.state, capacity) && Total(t.state.entries) <= capacity
    ensures WithinThroughout(t, capacity, ops) <==> forall op :: op in ops ==> !Oversized(op, capacity)
    decreases |ops|
  {
    if ops != [] {
      StepSound(t.state, capacity, ops[0]);
      StepWithin(t.state, capacity, ops[0]);
      assert forall op :: op in ops ==> op == ops[0] || op in ops[1..];
      if !Oversized(ops[0], capacity) {
        RunWithin(Extend(t, capacity, ops[0]), capacity, ops[1..]);
      }
    }
  }

  /** A buffer for 100 bytes comes to hold a packet of 101. */
  lemma OversizedIsStored()
    ensures exists capacity, ops :: Total(Run(Initial(0), capacity, ops).state.entries) > capacity
  {
    var ops := [Add(Packet(Identifier(1, 1), 101, 80), 10)];
    AddWithin(Initial(0).state, 100, ops[0].packet, 10);
    assert Run(Initial(0), 100, ops) == Run(Extend(Initial(0), 100, ops[0]), 100, []);
  }

  // ----- duplicates

  lemma {:induction false} OldestDropped(es: Entries, room: int, n: nat)
    requires Distinct(es) && HandlesBelow(es, n) && es.Cons? && Total(es) > room
    ensures Copies(Kept(es, room), Oldest(es).handle) == 0
  {
    var o := Oldest(es);
    OldestFound(es);
    DistinctCopies(es, o, n);
    DroppedCopies(es, room, 0, n, o.handle);
    assert Dropped(es, room, 0)[0].handle == o.handle;
  }

  /** Adding a packet whose identifier is stored leaves the stored packets alone exactly when the
      buffer has room for the bytes of both, although one of them is thrown away. */
  lemma DuplicateHarmlessIff(s: State, capacity: nat, packet: Packet, timeout: int)
    requires WellFormed(s) && HasId(s.entries, packet.id) && timeout > 0
    ensures AddPacket(s, capacity, packet, timeout).entries == s.entries <==>
      Total(s.entries) + packet.length <= capacity
  {
    var room := capacity - packet.length;
    FindParts(s.entries, packet.id);
    if Total(s.entries) > room {
      var o, kept := Oldest(s.entries), Kept(s.entries, room);
      OldestFound(s.entries);
      InParts(o, s.entries);
      OldestDropped(s.entries, room, s.next);
      InsertHas(kept, Arrival(s, packet, timeout), packet.id, o.handle);
      BelowEach(s.entries, s.next, o);
    }
  }

  /** A duplicate is rejected and nevertheless evicts another packet. */
  lemma DuplicateEvicts()
    ensures exists capacity, ops, duplicate: Packet ::
      var t := Run(Initial(0), capacity, ops);
      var t' := Extend(t, capacity, Add(duplicate, 10));
      && HasId(t.state.entries, duplicate.id) && |t'.accepted| == |t.accepted|
      && Length(t'.state.entries) < Length(t.state.entries)
  {
    var first, second := Packet(Identifier(1, 1), 60, 80), Packet(Identifier(2, 1), 40, 80);
    var ops := [Add(first, 10), Add(second, 20)];
    var t1 := Extend(Initial(0), 100, ops[0]);
    assert Kept(Nil, 40) == Nil;
    var e1 := Entry(0, first, Timer(10, 0), 1);
    assert t1.state.entries == Cons(e1, Nil);
    var t2 := Extend(t1, 100, ops[1]);
    assert Kept(t1.state.entries, 60) == t1.state.entries;
    var e2 := Entry(1, second, Timer(20, 0), 1);
    assert t2.state.entries == Cons(e1, Cons(e2, Nil));
    assert Kept(t2.state.entries, 60) == Kept(Cons(e2, Nil), 60) == Cons(e2, Nil);
    assert ops[1..] == [ops[1]];
    assert Run(Initial(0), 100, ops) == Run(t1, 100, [ops[1]]) == Run(t2, 100, [ops[1]][1..]) == t2;
    var t3 := Extend(t2, 100, Add(second, 10));
    assert t3.state.entries == Cons(e2, Nil) && t3.accepted == t2.accepted;
    assert HasId(t2.state.entries, second.id) && Length(t3.state.entries) < Length(t2.state.entries);
  }

  // ----- wakeup

  /** The flush is pending in time at every point of a run. */
  predicate ArmedThroughout(t: Trace, capacity: nat, ops: seq<Op>)
    decreases |ops|
  {
    && Armed(t.state)
    && (ops != [] ==> ArmedThroughout(Extend(t, capacity, ops[0]), capacity, ops[1..]))
  }

  lemma StepArmedIff(s: State, capacity: nat, op: Op)
    requires WellFormed(s) && Armed(s)
    ensures Armed(Step(s, capacity, op)) <==> Patient(s, op)
  {
    if op.Update? && HasId(s.entries, op.id) {
      UpdateArmed(s, op.id, op.timeout);
    } else {
      StepArmed(s, capacity, op);
    }
  }

  /** The flush is pending no later than the earliest timer throughout a run exactly when none of
      its updates sets an expiry before the flush pending at that moment. */
  lemma {:induction false} RunArmed(t: Trace, capacity: nat, ops: seq<Op>)
    requires Sound(t.state, capacity) && Armed(t.state)
    ensures ArmedThroughout(t, capacity, ops) <==> Unhurried(t, capacity, ops)
    decreases |ops|
  {
    if ops != [] {
      StepSound(t.state, capacity, ops[0]);
      StepArmedIff(t.state, capacity, ops[0]);
      if Patient(t.state, ops[0]) {
        RunArmed(Extend(t, capacity, ops[0]), capacity, ops[1..]);
      }
    }
  }
}
