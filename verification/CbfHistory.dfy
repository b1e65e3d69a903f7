/** What the forwarding buffer holds and lets out, from the operations alone: which packets an
    addition leaves, when a packet's timer runs out, and how much lifetime it leaves with. */
module CbfHistory {
  import opened Collections
  import opened Lifetimes
  import opened CbfModel
  import opened CbfRuns

  // ----- the contents after each operation

  /** Bytes of a packet and all that arrived after it. */
  function Since(es: Entries, h: nat): nat {
    if es.Nil? then 0 else (if es.head.handle >= h then es.head.packet.length else 0) + Since(es.tail, h)
  }

  lemma {:induction false} SinceUpToTotal(es: Entries, h: nat)
    ensures Since(es, h) <= Total(es)
  {
    if es.Cons? {
      SinceUpToTotal(es.tail, h);
    }
  }

  lemma {:induction false} SinceFirst(es: Entries, h: nat)
    requires forall x :: In(x, es) ==> x.handle >= h
    ensures Since(es, h) == Total(es)
  {
    if es.Cons? {
      assert forall x :: In(x, es.tail) ==> In(x, es);
      SinceFirst(es.tail, h);
    }
  }

  lemma {:induction false} SinceWithout(es: Entries, o: Entry, h: nat)
    requires In(o, es) && Distinct(es) && o.handle < h
    ensures Since(Without(es, o.packet.id), h) == Since(es, h)
  {
    if es.head.packet.id != o.packet.id {
      SinceWithout(es.tail, o, h);
    } else {
      InParts(o, es);
    }
  }

  lemma {:induction false} OtherHandle(es: Entries, a: Entry, b: Entry)
    requires Distinct(es) && In(a, es) && In(b, es) && a.packet.id != b.packet.id
    ensures a.handle != b.handle
  {
    if a == es.head {
      InParts(b, es.tail);
    } else if b == es.head {
      InParts(a, es.tail);
    } else {
      OtherHandle(es.tail, a, b);
    }
  }

  /** Making room keeps exactly the packets that fit together with all later ones. */
  lemma {:induction false} KeptExactly(es: Entries, room: int, n: nat, e: Entry)
    requires Distinct(es) && HandlesBelow(es, n)
    ensures In(e, Kept(es, room)) <==> In(e, es) && Since(es, e.handle) <= room
    decreases Length(es)
  {
    SinceUpToTotal(es, e.handle);
    if Total(es) > room && es.Cons? {
      var o := Oldest(es);
      OldestFound(es);
      WithoutDistinct(es, o.packet.id, n);
      WithoutMembers(es, o.packet.id, e);
      KeptExactly(Without(es, o.packet.id), room, n, e);
      if In(e, es) {
        InParts(e, es);
        InParts(o, es);
        if e.packet.id == o.packet.id {
          forall x | In(x, es) ensures x.handle >= o.handle {
            OldestLeast(es, x);
          }
          SinceFirst(es, o.handle);
        } else {
          OldestLeast(es, e);
          OtherHandle(es, o, e);
          SinceWithout(es, o, e.handle);
        }
      }
    }
  }

  /** An addition with a positive timeout keeps exactly the packets that fit into the buffer together
      with all later ones and the arriving packet; that is stored as well, with its timer started,
      exactly if none of those kept has its identifier. */
  lemma AddExactly(s: State, capacity: nat, packet: Packet, timeout: int, e: Entry)
    requires WellFormed(s) && timeout > 0
    ensures
      var s' := Step(s, capacity, Add(packet, timeout));
      var arrives := e.handle == s.next && e.packet == packet && e.count == 1
        && e.timer.expiry == s.now + timeout && e.timer.start == s.now;
      In(e, s'.entries) <==>
        || (In(e, s.entries) && Since(s.entries, e.handle) + packet.length <= capacity)
        || (arrives && forall x :: In(x, s.entries) && x.packet.id == packet.id ==>
              Since(s.entries, x.handle) + packet.length > capacity)
  {
    var room := capacity - packet.length;
    var kept := Kept(s.entries, room);
    KeptExactly(s.entries, room, s.next, e);
    InsertMembers(kept, Arrival(s, packet, timeout), e);
    FindParts(kept, packet.id);
    forall x ensures In(x, kept) <==> In(x, s.entries) && Since(s.entries, x.handle) <= room {
      KeptExactly(s.entries, room, s.next, x);
    }
    if HasId(kept, packet.id) {
      assert In(Find(kept, packet.id).value, kept);
    } else {
      forall x | In(x, s.entries) && x.packet.id == packet.id
        ensures Since(s.entries, x.handle) + packet.length > capacity
      {
        if In(x, kept) {
          InParts(x, kept);
        }
      }
    }
  }

  /** Removing and fetching take out exactly the packet with the identifier. */
  lemma TakenExactly(s: State, capacity: nat, op: Op, e: Entry)
    requires WellFormed(s) && (op.Remove? || op.Fetch?)
    ensures In(e, Step(s, capacity, op).entries) <==> In(e, s.entries) && e.packet.id != op.id
  {
    WithoutMembers(s.entries, op.id, e);
  }

  /** Entries up to an expiry. */
  function UpTo(es: Entries, expiry: int): Entries {
    if es.Cons? && es.head.timer.expiry <= expiry then Cons(es.head, UpTo(es.tail, expiry)) else Nil
  }

  function Join(a: Entries, b: Entries): Entries {
    if a.Nil? then b else Cons(a.head, Join(a.tail, b))
  }

  /** A new timer runs out after all that run out at the same time. */
  lemma {:induction false} InsertedBehind(es: Entries, e: Entry)
    ensures Insert(es, e) == Join(UpTo(es, e.timer.expiry), Cons(e, Unexpired(es, e.timer.expiry)))
  {
    if es.Cons? && es.head.timer.expiry <= e.timer.expiry {
      InsertedBehind(es.tail, e);
    }
  }

  /** Handles in timer order. */
  function Order(es: Entries): seq<nat> {
    if es.Nil? then [] else [es.head.handle] + Order(es.tail)
  }

  lemma {:induction false} SubstituteOrder(es: Entries, before: Entry, e: Entry)
    requires Find(es, e.packet.id) == Some(before) && e.handle == before.handle
    ensures Order(Substitute(es, e)) == Order(es)
  {
    if es.head.packet.id != e.packet.id {
      SubstituteOrder(es.tail, before, e);
    }
  }

  /** An update leaves its packet in its place if the new expiry still lies between those of its
      neighbours; otherwise it goes behind all that run out at the same time. */
  lemma UpdateOrder(s: State, capacity: nat, id: Identifier, timeout: int) returns (e: Entry)
    requires WellFormed(s) && HasId(s.entries, id)
    ensures e.packet.id == id && e.timer.expiry == s.now + timeout
    ensures
      var s', others := Step(s, capacity, Update(id, timeout)), Without(s.entries, id);
      if StaysInPlace(s.entries, id, s.now + timeout, None) then Order(s'.entries) == Order(s.entries)
      else s'.entries == Join(UpTo(others, s.now + timeout), Cons(e, Unexpired(others, s.now + timeout)))
  {
    FindParts(s.entries, id);
    var before := Find(s.entries, id).value;
    e := Updated(before, s.now, timeout);
    SubstituteOrder(s.entries, before, e);
    InsertedBehind(Without(s.entries, id), e);
  }

  // ----- timers and lifetimes

  function Elapsed(op: Op): nat {
    if op.Advance? then op.d else 0
  }

  /** Time passed in a run. */
  function Passed(ops: seq<Op>): nat {
    if ops == [] then 0 else Elapsed(ops[0]) + Passed(ops[1..])
  }

  /** A stored packet's timer and what is left of its lifetime. */
  datatype Course = Course(expiry: int, start: int, left: int)

  function CourseOf(e: Entry): Course {
    Course(e.timer.expiry, e.timer.start, Decode(e.packet.lifetime))
  }

  /** An update of the identifier starts the timer anew, at that time and with that timeout, and takes
      the time queued off the lifetime. */
  function NextCourse(now: int, id: Identifier, c: Course, op: Op): Course {
    if op.Update? && op.id == id then Course(now + op.timeout, now, Aged(c.left, now - c.start)) else c
  }

  /** The course from the operations alone. */
  function CourseAfter(now: int, id: Identifier, c: Course, ops: seq<Op>): Course
    decreases |ops|
  {
    if ops == [] then c else CourseAfter(now + Elapsed(ops[0]), id, NextCourse(now, id, c, ops[0]), ops[1..])
  }

  lemma StepNow(s: State, capacity: nat, op: Op)
    ensures Step(s, capacity, op).now == s.now + Elapsed(op)
  {
  }

  lemma {:induction false} NowPassed(t: Trace, capacity: nat, ops: seq<Op>)
    ensures Run(t, capacity, ops).state.now == t.state.now + Passed(ops)
    decreases |ops|
  {
    if ops != [] {
      StepNow(t.state, capacity, ops[0]);
      NowPassed(Extend(t, capacity, ops[0]), capacity, ops[1..]);
    }
  }

  lemma CourseStep(s: State, capacity: nat, op: Op, before: Entry, e: Entry)
    requires SamePacket(before, e, if Counts(op, e.packet.id) then 1 else 0) && Restarted(before, e, s.now, op)
    ensures CourseOf(e) == NextCourse(s.now, e.packet.id, CourseOf(before), op)
  {
    ReduceAges(before.packet.lifetime, s.now - before.timer.start);
  }

  /** What is stored under an old handle at the end of a run has the timer and the lifetime that the
      run's operations give it. */
  lemma {:induction false} CourseThroughout(t: Trace, capacity: nat, ops: seq<Op>, e: Entry) returns (before: Entry)
    requires Sound(t.state, capacity)
    requires In(e, Run(t, capacity, ops).state.entries) && e.handle < t.state.next
    ensures In(before, t.state.entries) && SamePacket(before, e, Updates(ops, e.packet.id))
    ensures CourseOf(e) == CourseAfter(t.state.now, e.packet.id, CourseOf(before), ops)
    decreases |ops|
  {
    if ops == [] {
      before := e;
    } else {
      StepSound(t.state, capacity, ops[0]);
      StepConserves(t.state, capacity, ops[0], 0);
      var mid := CourseThroughout(Extend(t, capacity, ops[0]), capacity, ops[1..], e);
      before := StepDescends(t.state, capacity, ops[0], mid);
      CourseStep(t.state, capacity, ops[0], before, mid);
      StepNow(t.state, capacity, ops[0]);
    }
  }

  /** Accepted by an addition, under the next handle. */
  predicate Accepted(t: Trace, capacity: nat, packet: Packet, timeout: int) {
    Extend(t, capacity, Add(packet, timeout)).state.next > t.state.next
  }

  /** The course of a packet since it was accepted. */
  function CourseSince(now: int, packet: Packet, timeout: int, later: seq<Op>): Course {
    CourseAfter(now, packet.id, Course(now + timeout, now, Decode(packet.lifetime)), later)
  }

  /** In every run an accepted packet, as long as it is stored, has its identifier and length, the
      timer of its last restart, and what its time in the buffer has left of its lifetime. */
  lemma StoredAsAccepted(t: Trace, capacity: nat, packet: Packet, timeout: int, later: seq<Op>, e: Entry)
    requires Sound(t.state, capacity) && Accepted(t, capacity, packet, timeout)
    requires In(e, Run(Extend(t, capacity, Add(packet, timeout)), capacity, later).state.entries)
    requires e.handle == t.state.next
    ensures e.packet.id == packet.id && e.packet.length == packet.length && e.count == 1 + Updates(later, packet.id)
    ensures CourseOf(e) == CourseSince(t.state.now, packet, timeout, later)
  {
    var op := Add(packet, timeout);
    var t1 := Extend(t, capacity, op);
    StepSound(t.state, capacity, op);
    var first := CourseThroughout(t1, capacity, later, e);
    var _ := StepDescends(t.state, capacity, op, first);
  }

  // ----- what leaves

  /** How a packet leaves whose lifetime is reduced on the way: it exhausts in the buffer if it has
      queued for its whole lifetime. */
  predicate LeavesReduced(e: Entry, x: Exit, fate: Fate) {
    var queued := x.at - e.timer.start;
    && x.packet.id == e.packet.id && x.packet.length == e.packet.length
    && x.fate == (if Decode(e.packet.lifetime) > Max(0, queued) then fate else Exhausted)
    && Decode(x.packet.lifetime) == Aged(Decode(e.packet.lifetime), queued)
  }

  predicate LeavesUnchanged(e: Entry, x: Exit, fate: Fate) {
    x.packet == e.packet && x.fate == fate
  }

  /** Which packet an operation lets out, and how. */
  predicate LeavesBy(s: State, op: Op, e: Entry, x: Exit) {
    && x.handle == e.handle && x.expiry == e.timer.expiry && x.at == s.now
    && match op
       case Add(_, _) => LeavesUnchanged(e, x, HeadDropped)
       case Remove(id) => e.packet.id == id && LeavesUnchanged(e, x, Removed)
       case Fetch(id) => e.packet.id == id && LeavesReduced(e, x, Fetched)
       case Fire => WakeDue(s) && e.timer.expiry <= s.now && LeavesReduced(e, x, Delivered)
       case Advance(_) => false
       case Update(_, _) => false
  }

  lemma LeaveReduces(e: Entry, now: int, fate: Fate)
    ensures
      var x := Leave(e, now, fate);
      x.handle == e.handle && x.expiry == e.timer.expiry && x.at == now && LeavesReduced(e, x, fate)
  {
    ReduceSound(e.packet.lifetime, now - e.timer.start);
    ReduceAges(e.packet.lifetime, now - e.timer.start);
  }

  lemma {:induction false} DroppedWas(es: Entries, room: int, now: int, n: nat, x: Exit) returns (e: Entry)
    requires Distinct(es) && HandlesBelow(es, n) && x in Dropped(es, room, now)
    ensures In(e, es) && x == Exit(e.handle, HeadDropped, e.packet, e.timer.expiry, now)
    decreases Length(es)
  {
    var o := Oldest(es);
    OldestFound(es);
    e := o;
    if x != Dropped(es, room, now)[0] {
      WithoutDistinct(es, o.packet.id, n);
      assert Dropped(es, room, now)[1..] == Dropped(Without(es, o.packet.id), room, now);
      e := DroppedWas(Without(es, o.packet.id), room, now, n, x);
      WithoutMembers(es, o.packet.id, e);
    }
  }

  lemma {:induction false} FlushedWas(es: Entries, now: int, x: Exit) returns (e: Entry)
    requires x in FlushExits(es, now)
    ensures In(e, es) && e.timer.expiry <= now && x == Leave(e, now, Delivered)
  {
    e := es.head;
    if x != Leave(es.head, now, Delivered) {
      assert FlushExits(es, now)[1..] == FlushExits(es.tail, now);
      e := FlushedWas(es.tail, now, x);
    }
  }

  /** Whatever an operation lets out was stored, and leaves as the operation says. */
  lemma LeftWasStored(s: State, capacity: nat, op: Op, x: Exit) returns (e: Entry)
    requires WellFormed(s) && x in Exits(s, capacity, op)
    ensures In(e, s.entries) && LeavesBy(s, op, e, x)
  {
    match op
    case Add(packet, timeout) => e := DroppedWas(s.entries, capacity - packet.length, s.now, s.next, x);
    case Remove(id) =>
      FindParts(s.entries, id);
      e := Find(s.entries, id).value;
    case Fetch(id) =>
      FindParts(s.entries, id);
      e := Find(s.entries, id).value;
      LeaveReduces(e, s.now, Fetched);
    case Fire =>
      e := FlushedWas(s.entries, s.now, x);
      LeaveReduces(e, s.now, Delivered);
  }

  /** A fetch yields the packet exactly if it is stored and its lifetime exceeds the time queued; it
      is taken out in any case. */
  lemma FetchYields(s: State, capacity: nat, id: Identifier)
    requires WellFormed(s)
    ensures
      var out := Exits(s, capacity, Fetch(id));
      && |out| <= 1 && (out != [] <==> HasId(s.entries, id))
      && ((exists x :: x in out && x.fate == Fetched) <==>
            exists e :: In(e, s.entries) && e.packet.id == id
              && Decode(e.packet.lifetime) > Max(0, s.now - e.timer.start))
  {
    FindParts(s.entries, id);
    if HasId(s.entries, id) {
      var f := Find(s.entries, id).value;
      var out := Exits(s, capacity, Fetch(id));
      LeaveReduces(f, s.now, Fetched);
      assert out == [Leave(f, s.now, Fetched)] && out[0] in out;
      forall e | In(e, s.entries) && e.packet.id == id ensures e == f {
        InParts(e, s.entries);
      }
    } else {
      forall e | In(e, s.entries) ensures e.packet.id != id {
        InParts(e, s.entries);
      }
    }
  }

  /** How an accepted packet leaves in a run, from the operations since: a flush or a fetch hands it
      out with what the whole time has left of its lifetime; a flush no earlier than the timer of its
      last restart. */
  predicate LeavesAfter(packet: Packet, op: Op, c: Course, x: Exit) {
    && x.packet.id == packet.id && x.packet.length == packet.length && x.expiry == c.expiry
    && var queued := x.at - c.start;
       var exhausted, left := c.left <= Max(0, queued), Decode(x.packet.lifetime);
       match op
       case Add(_, _) => x.fate == HeadDropped && left == c.left
       case Remove(id) => id == packet.id && x.fate == Removed && left == c.left
       case Fetch(id) =>
         id == packet.id && x.fate == (if exhausted then Exhausted else Fetched) && left == Aged(c.left, queued)
       case Fire =>
         && c.expiry <= x.at
         && x.fate == (if exhausted then Exhausted else Delivered) && left == Aged(c.left, queued)
       case Advance(_) => false
       case Update(_, _) => false
  }

  lemma LeavesByCourse(s: State, op: Op, e: Entry, x: Exit, packet: Packet, c: Course)
    requires LeavesBy(s, op, e, x) && CourseOf(e) == c
    requires e.packet.id == packet.id && e.packet.length == packet.length
    ensures LeavesAfter(packet, op, c, x) && x.at == s.now
  {
  }

  lemma LeavesAsAccepted(
      t: Trace, capacity: nat, packet: Packet, timeout: int, later: seq<Op>, op: Op, x: Exit)
    requires Sound(t.state, capacity) && Accepted(t, capacity, packet, timeout)
    requires x in Exits(Run(Extend(t, capacity, Add(packet, timeout)), capacity, later).state, capacity, op)
    requires x.handle == t.state.next
    ensures x.at == t.state.now + Passed(later)
    ensures LeavesAfter(packet, op, CourseSince(t.state.now, packet, timeout, later), x)
  {
    var t1 := Extend(t, capacity, Add(packet, timeout));
    StepSound(t.state, capacity, Add(packet, timeout));
    AlwaysSound(t1, capacity, later);
    NowPassed(t1, capacity, later);
    var s := Run(t1, capacity, later).state;
    var e := LeftWasStored(s, capacity, op, x);
    StoredAsAccepted(t, capacity, packet, timeout, later, e);
    LeavesByCourse(s, op, e, x, packet, CourseSince(t.state.now, packet, timeout, later));
  }

  // ----- how far rounding can carry a lifetime

  /** `n` times half a unit, doubled. */
  function Tolerance(n: nat, unit: nat): nat {
    if n == 0 then 0 else unit + Tolerance(n - 1, unit)
  }

  /** After `n` roundings: no more than half a unit each away from the lifetime of `raw` minus the
      time since `since`, and never beyond that lifetime. */
  predicate NearlyLeft(raw: Byte, since: int, at: int, left: int, n: nat) {
    && 0 <= left <= Decode(raw)
    && 2 * Abs(left - Max(0, Decode(raw) - (at - since))) <= Tolerance(n, Unit(Base(raw)))
  }

  lemma AgedNearly(raw: Byte, since: int, start: int, at: int, left: int, n: nat)
    requires since <= start <= at && NearlyLeft(raw, since, start, left, n)
    ensures NearlyLeft(raw, since, at, Aged(left, at - start), n + 1)
  {
    AgedBound(raw, left, at - start);
  }

  lemma {:induction false} CourseNearly(
      raw: Byte, since: int, now: int, id: Identifier, c: Course, ops: seq<Op>, n: nat)
    requires since <= c.start <= now && NearlyLeft(raw, since, c.start, c.left, n)
    ensures
      var c' := CourseAfter(now, id, c, ops);
      since <= c'.start <= now + Passed(ops) && NearlyLeft(raw, since, c'.start, c'.left, n + Updates(ops, id))
    decreases |ops|
  {
    if ops != [] {
      var op, c1 := ops[0], NextCourse(now, id, c, ops[0]);
      if Counts(op, id) {
        AgedNearly(raw, since, c.start, now, c.left, n);
      }
      CourseNearly(raw, since, now + Elapsed(op), id, c1, ops[1..], if Counts(op, id) then n + 1 else n);
    }
  }

  lemma CourseSinceNearly(now: int, packet: Packet, timeout: int, later: seq<Op>)
    ensures
      var c := CourseSince(now, packet, timeout, later);
      && now <= c.start <= now + Passed(later)
      && NearlyLeft(packet.lifetime, now, c.start, c.left, Updates(later, packet.id))
  {
    var c := Course(now + timeout, now, Decode(packet.lifetime));
    CourseNearly(packet.lifetime, now, now, packet.id, c, later, 0);
  }

  lemma HandedOut(packet: Packet, op: Op, c: Course, x: Exit)
    requires LeavesAfter(packet, op, c, x) && (x.fate == Delivered || x.fate == Fetched)
    ensures Decode(x.packet.lifetime) == Aged(c.left, x.at - c.start)
  {
  }

  /** A packet that is delivered or fetched carries the lifetime it was accepted with less the time
      since then, give or take half a unit of the accepted lifetime for each update and for leaving;
      and never more than it was accepted with. */
  lemma LeavesInTime(t: Trace, capacity: nat, packet: Packet, timeout: int, later: seq<Op>, op: Op, x: Exit)
    requires Sound(t.state, capacity) && Accepted(t, capacity, packet, timeout)
    requires x in Exits(Run(Extend(t, capacity, Add(packet, timeout)), capacity, later).state, capacity, op)
    requires x.handle == t.state.next && (x.fate == Delivered || x.fate == Fetched)
    ensures
      NearlyLeft(packet.lifetime, t.state.now, x.at, Decode(x.packet.lifetime), Updates(later, packet.id) + 1)
  {
    var c := CourseSince(t.state.now, packet, timeout, later);
    LeavesAsAccepted(t, capacity, packet, timeout, later, op, x);
    HandedOut(packet, op, c, x);
    CourseSinceNearly(t.state.now, packet, timeout, later);
    AgedNearly(packet.lifetime, t.state.now, c.start, x.at, c.left, Updates(later, packet.id));
  }

  // ----- the pending flush

  /** While anything is stored, the flush is pending for exactly the first timer. */
  predicate WakesOnTime(s: State) {
    s.entries.Cons? ==> s.wake == Some(s.entries.head.timer.expiry)
  }

  /** The flush is moved exactly when another packet has come first, and then to its timer: an update
      does not move it. */
  lemma WakeFollows(s: State, capacity: nat, op: Op)
    requires !op.Fire?
    ensures
      var s' := Step(s, capacity, op);
      s'.wake ==
        if op.Update? || s'.entries.Nil? || First(s'.entries) == First(s.entries) then s.wake
        else Some(s'.entries.head.timer.expiry)
  {
  }

  predicate Restarts(ops: seq<Op>) {
    ops != [] && (ops[0].Update? || Restarts(ops[1..]))
  }

  lemma {:induction false} FirstDecides(es: Entries, a: Entry, b: Entry)
    requires Distinct(es) && In(a, es) && In(b, es) && a.handle == b.handle
    ensures a == b
  {
    if a.packet.id != b.packet.id {
      OtherHandle(es, a, b);
    }
    InParts(a, es);
    InParts(b, es);
  }

  /** Entries kept from before, and what has become of the first. */
  lemma FollowedOnTime(s: State, es: Entries, next: nat)
    requires WakesOnTime(s) && Distinct(s.entries)
    requires es.Cons? && First(es) == First(s.entries) ==> In(es.head, s.entries)
    ensures WakesOnTime(Followed(s, es, next))
  {
    if es.Cons? && First(es) == First(s.entries) {
      FirstDecides(s.entries, es.head, s.entries.head);
    }
  }

  lemma StepOnTime(s: State, capacity: nat, op: Op)
    requires WellFormed(s) && WakesOnTime(s) && !op.Update?
    ensures WakesOnTime(Step(s, capacity, op))
  {
    match op
    case Advance(_) =>
    case Fire =>
    case Remove(id) => TakenOnTime(s, id);
    case Fetch(id) => TakenOnTime(s, id);
    case Add(packet, timeout) =>
      if timeout > 0 {
        var kept := Kept(s.entries, capacity - packet.length);
        var next := Insert(kept, Arrival(s, packet, timeout));
        KeptOnTime(s, capacity - packet.length, next, packet, timeout);
        FollowedOnTime(s, if Accepts(kept, packet) then next else kept,
          if Accepts(kept, packet) then s.next + 1 else s.next);
      }
  }

  lemma TakenOnTime(s: State, id: Identifier)
    requires WellFormed(s) && WakesOnTime(s)
    ensures WakesOnTime(TakeOut(s, id))
  {
    var left := Without(s.entries, id);
    if left.Cons? {
      WithoutMembers(s.entries, id, left.head);
    }
    FollowedOnTime(s, left, s.next);
  }

  lemma KeptOnTime(s: State, room: int, next: Entries, packet: Packet, timeout: int)
    requires WellFormed(s) && next == Insert(Kept(s.entries, room), Arrival(s, packet, timeout))
    ensures
      var kept := Kept(s.entries, room);
      && (kept.Cons? ==> In(kept.head, s.entries))
      && (First(next) == First(s.entries) ==> In(next.head, s.entries))
  {
    var kept, arrives := Kept(s.entries, room), Arrival(s, packet, timeout);
    if kept.Cons? {
      KeptMembers(s.entries, room, s.next, kept.head);
    }
    InsertMembers(kept, arrives, next.head);
    if next.head != arrives {
      KeptMembers(s.entries, room, s.next, next.head);
    } else if s.entries.Cons? {
      BelowEach(s.entries, s.next, s.entries.head);
    }
  }

  /** In every run without updates the flush is never pending too early or too late. */
  lemma {:induction false} AlwaysOnTime(t: Trace, capacity: nat, ops: seq<Op>)
    requires Sound(t.state, capacity) && WakesOnTime(t.state) && !Restarts(ops)
    ensures WakesOnTime(Run(t, capacity, ops).state)
    decreases |ops|
  {
    if ops != [] {
      StepSound(t.state, capacity, ops[0]);
      StepOnTime(t.state, capacity, ops[0]);
      AlwaysOnTime(Extend(t, capacity, ops[0]), capacity, ops[1..]);
    }
  }
}
