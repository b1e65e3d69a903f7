/** What the gatekeeper does not promise, and exactly when it keeps it all the same: hooks that
    name the packet dropped, and transmissions that wait for their delay. */
module FlowLimits {
  import opened FlowModel
  import opened FlowRuns

  // ----- hooks

  function Serials(xs: seq<Outcome>): seq<nat> {
    if xs == [] then [] else [xs[0].job.serial] + Serials(xs[1..])
  }

  function HookSerials(hs: seq<Hook>): seq<nat> {
    if hs == [] then [] else [hs[0].serial] + HookSerials(hs[1..])
  }

  predicate NoOverflow(xs: seq<Outcome>) {
    xs != [] ==> !xs[0].Overflowed? && NoOverflow(xs[1..])
  }

  predicate OverflowsOlder(xs: seq<Outcome>, arriving: nat) {
    xs != [] ==> (xs[0].Overflowed? ==> xs[0].job.serial < arriving) && OverflowsOlder(xs[1..], arriving)
  }

  /** The hooks invoked for the outcomes name the packets these are about. */
  predicate NamesOutcomes(xs: seq<Outcome>, arriving: nat) {
    HookSerials(Hooks(xs, arriving)) == Serials(xs)
  }

  /** An overflow is reported with the arriving packet, which is younger than any queued one. */
  lemma {:induction false} HooksNameOutcomes(xs: seq<Outcome>, arriving: nat)
    requires OverflowsOlder(xs, arriving)
    ensures NamesOutcomes(xs, arriving) <==> NoOverflow(xs)
    ensures |HookSerials(Hooks(xs, arriving))| == |Serials(xs)|
  {
    if xs != [] {
      HooksNameOutcomes(xs[1..], arriving);
      var hs, ss := Hooks(xs, arriving), Serials(xs);
      assert hs[1..] == Hooks(xs[1..], arriving) && ss[1..] == Serials(xs[1..]);
      assert HookSerials(hs)[1..] == HookSerials(hs[1..]);
      assert HookSerials(hs)[0] == hs[0].serial && ss[0] == xs[0].job.serial;
      if hs[0].serial == xs[0].job.serial && HookSerials(hs[1..]) == Serials(xs[1..]) {
        assert HookSerials(hs) == ss;
      }
    }
  }

  lemma {:induction false} OverflowConcat(a: seq<Outcome>, b: seq<Outcome>, arriving: nat)
    ensures NoOverflow(a + b) <==> NoOverflow(a) && NoOverflow(b)
    ensures OverflowsOlder(a + b, arriving) <==> OverflowsOlder(a, arriving) && OverflowsOlder(b, arriving)
  {
    if a == [] {
      assert a + b == b;
    } else {
      assert (a + b)[1..] == a[1..] + b;
      OverflowConcat(a[1..], b, arriving);
    }
  }

  lemma {:induction false} NoOverflowOlder(xs: seq<Outcome>, arriving: nat)
    requires NoOverflow(xs)
    ensures OverflowsOlder(xs, arriving)
  {
    if xs != [] {
      NoOverflowOlder(xs[1..], arriving);
    }
  }

  lemma {:induction false} StaleNoOverflow(q: Queue, now: int)
    ensures NoOverflow(Stale(q, now))
  {
    if q.Front? {
      StaleNoOverflow(q.tail, now);
      if q.head.expiry < now {
        assert Stale(q, now)[1..] == Stale(q.tail, now);
      }
    }
  }

  lemma AllStaleNoOverflow(qs: Queues, now: int)
    ensures NoOverflow(AllStale(qs, now))
  {
    StaleNoOverflow(qs.vo, now);
    StaleNoOverflow(qs.vi, now);
    StaleNoOverflow(qs.be, now);
    StaleNoOverflow(qs.bk, now);
    OverflowConcat(Stale(qs.vo, now), Stale(qs.vi, now), 0);
    OverflowConcat(Stale(qs.vo, now) + Stale(qs.vi, now), Stale(qs.be, now), 0);
    OverflowConcat(Stale(qs.vo, now) + Stale(qs.vi, now) + Stale(qs.be, now), Stale(qs.bk, now), 0);
  }

  lemma {:induction false} TrimmedOlder(q: Queue, limit: nat, now: int, ac: Ac, lo: int, n: nat)
    requires Ascending(q, ac, lo, n)
    ensures OverflowsOlder(Trimmed(q, limit, now), n)
  {
    if limit > 0 && q.Front? && Size(q) >= limit {
      TrimmedOlder(q.tail, limit, now, ac, q.head.job.serial, n);
      assert Trimmed(q, limit, now)[1..] == Trimmed(q.tail, limit, now);
    }
  }

  /** The request is sent at once, or its queue has room after expired packets are gone. */
  predicate HasRoom(trc: Throttle, s: State, job: Job) {
    || TransmitImmediately(trc, DropExpired(s), Tx(job.profile, job.size, false))
    || s.limit == 0
    || Size(Live(Get(s.queues, MapProfile(job.profile)), s.now)) < s.limit
  }

  /** The hooks of a request name the packets sent or dropped exactly when it finds room. */
  lemma RequestHooksExact(trc: Throttle, s: State, job: Job, log: seq<Outcome>)
    requires Fifo(s, job.serial, log, MapProfile(job.profile))
    ensures NamesOutcomes(RequestOutcomes(trc, s, job), job.serial) <==> HasRoom(trc, s, job)
    ensures |HookSerials(Hooks(RequestOutcomes(trc, s, job), job.serial))| == |Serials(RequestOutcomes(trc, s, job))|
  {
    var ac, s1 := MapProfile(job.profile), DropExpired(s);
    var stale, out := AllStale(s.queues, s.now), AcceptOutcomes(trc, s1, job);
    DropFifo(s, job.serial, log, ac);
    AllStaleNoOverflow(s.queues, s.now);
    NoOverflowOlder(stale, job.serial);
    AcceptOverflow(trc, s1, job, log + stale);
    OverflowConcat(stale, out, job.serial);
    HooksNameOutcomes(stale + out, job.serial);
  }

  lemma AcceptOverflow(trc: Throttle, s: State, job: Job, log: seq<Outcome>)
    requires Fifo(s, job.serial, log, MapProfile(job.profile))
    ensures
      var q, xs := Get(s.queues, MapProfile(job.profile)), AcceptOutcomes(trc, s, job);
      && OverflowsOlder(xs, job.serial)
      && (NoOverflow(xs) <==>
            TransmitImmediately(trc, s, Tx(job.profile, job.size, false)) || s.limit == 0 || Size(q) < s.limit)
  {
    var ac, xs := MapProfile(job.profile), AcceptOutcomes(trc, s, job);
    if TransmitImmediately(trc, s, Tx(job.profile, job.size, false)) {
      assert xs[1..] == [];
    } else {
      TrimmedOlder(Get(s.queues, ac), s.limit, s.now, ac, LastSent(log, ac, -1), job.serial);
    }
  }

  lemma TriggerNoOverflow(trc: Throttle, s: State)
    ensures NoOverflow(TriggerOutcomes(trc, s))
  {
    var out := DequeueOutcomes(trc, DropExpired(s));
    AllStaleNoOverflow(s.queues, s.now);
    OverflowConcat(AllStale(s.queues, s.now), out, 0);
    if out != [] {
      assert out[1..] == [];
    }
  }

  /** Hooks and outcomes of a run; only requests have an arriving packet. */
  function RunHooks(trc: Throttle, t: Trace, ops: seq<Op>): seq<Hook>
    decreases |ops|
  {
    if ops == [] then []
    else
      Hooks(Outcomes(trc, t.state, ops[0], t.requested), t.requested)
      + RunHooks(trc, Extend(trc, t, ops[0]), ops[1..])
  }

  function RunOutcomes(trc: Throttle, t: Trace, ops: seq<Op>): seq<Outcome>
    decreases |ops|
  {
    if ops == [] then []
    else Outcomes(trc, t.state, ops[0], t.requested) + RunOutcomes(trc, Extend(trc, t, ops[0]), ops[1..])
  }

  /** Every request of the run finds room. */
  predicate RoomThroughout(trc: Throttle, t: Trace, ops: seq<Op>)
    decreases |ops|
  {
    ops != [] ==>
      && (ops[0].Request? ==>
            HasRoom(trc, t.state, Job(t.requested, ops[0].profile, ops[0].size, ops[0].lifetime)))
      && RoomThroughout(trc, Extend(trc, t, ops[0]), ops[1..])
  }

  lemma {:induction false} SerialsConcat(a: seq<Outcome>, b: seq<Outcome>)
    ensures Serials(a + b) == Serials(a) + Serials(b)
  {
    if a == [] {
      assert a + b == b;
    } else {
      assert (a + b)[1..] == a[1..] + b;
      SerialsConcat(a[1..], b);
    }
  }

  lemma {:induction false} HookSerialsConcat(a: seq<Hook>, b: seq<Hook>)
    ensures HookSerials(a + b) == HookSerials(a) + HookSerials(b)
  {
    if a == [] {
      assert a + b == b;
    } else {
      assert (a + b)[1..] == a[1..] + b;
      HookSerialsConcat(a[1..], b);
    }
  }

  lemma EqualParts<T>(a: seq<T>, b: seq<T>, c: seq<T>, d: seq<T>)
    requires |a| == |c|
    ensures a + b == c + d <==> a == c && b == d
  {
    if a + b == c + d {
      assert a == (a + b)[..|a|] && c == (c + d)[..|a|];
      assert b == (a + b)[|a|..] && d == (c + d)[|a|..];
    }
  }

  lemma StepHooksExact(trc: Throttle, t: Trace, op: Op)
    requires forall ac :: Fifo(t.state, t.requested, t.log, ac)
    ensures
      var xs := Outcomes(trc, t.state, op, t.requested);
      && |HookSerials(Hooks(xs, t.requested))| == |Serials(xs)|
      && (NamesOutcomes(xs, t.requested) <==>
            (op.Request? ==> HasRoom(trc, t.state, Job(t.requested, op.profile, op.size, op.lifetime))))
  {
    if op.Request? {
      var job := Job(t.requested, op.profile, op.size, op.lifetime);
      assert Fifo(t.state, t.requested, t.log, MapProfile(job.profile));
      RequestHooksExact(trc, t.state, job, t.log);
    } else {
      if op.Fire? {
        TriggerNoOverflow(trc, t.state);
      }
      var xs := Outcomes(trc, t.state, op, t.requested);
      NoOverflowOlder(xs, t.requested);
      HooksNameOutcomes(xs, t.requested);
    }
  }

  /** The outcomes of a run are what it adds to the log. */
  lemma {:induction false} RunLog(trc: Throttle, t: Trace, ops: seq<Op>)
    ensures Run(trc, t, ops).log == t.log + RunOutcomes(trc, t, ops)
    decreases |ops|
  {
    if ops == [] {
      assert t.log + [] == t.log;
    } else {
      var xs, t' := Outcomes(trc, t.state, ops[0], t.requested), Extend(trc, t, ops[0]);
      RunLog(trc, t', ops[1..]);
      LogAssoc(t.log, xs, RunOutcomes(trc, t', ops[1..]));
    }
  }

  lemma LogAssoc(a: seq<Outcome>, b: seq<Outcome>, c: seq<Outcome>)
    ensures (a + b) + c == a + (b + c)
  {
  }

  /** The serials of one step and of all later ones. */
  lemma RunSerials(trc: Throttle, t: Trace, ops: seq<Op>)
    requires ops != []
    ensures
      var xs, t' := Outcomes(trc, t.state, ops[0], t.requested), Extend(trc, t, ops[0]);
      && Serials(RunOutcomes(trc, t, ops)) == Serials(xs) + Serials(RunOutcomes(trc, t', ops[1..]))
      && HookSerials(RunHooks(trc, t, ops))
           == HookSerials(Hooks(xs, t.requested)) + HookSerials(RunHooks(trc, t', ops[1..]))
  {
    var xs, t' := Outcomes(trc, t.state, ops[0], t.requested), Extend(trc, t, ops[0]);
    SerialsConcat(xs, RunOutcomes(trc, t', ops[1..]));
    HookSerialsConcat(Hooks(xs, t.requested), RunHooks(trc, t', ops[1..]));
  }

  /** The hooks of a run name, in order, the packets sent and dropped exactly when every request
      finds room. */
  lemma {:induction false} RunHooksExact(trc: Throttle, t: Trace, ops: seq<Op>)
    requires forall ac :: Fifo(t.state, t.requested, t.log, ac)
    ensures HookSerials(RunHooks(trc, t, ops)) == Serials(RunOutcomes(trc, t, ops)) <==> RoomThroughout(trc, t, ops)
    decreases |ops|
  {
    if ops != [] {
      var t' := Extend(trc, t, ops[0]);
      forall ac ensures Fifo(t'.state, t'.requested, t'.log, ac) {
        StepFifo(trc, t, ops[0], ac);
      }
      StepHooksExact(trc, t, ops[0]);
      RunHooksExact(trc, t', ops[1..]);
      RunSerials(trc, t, ops);
      var xs := Outcomes(trc, t.state, ops[0], t.requested);
      EqualParts(HookSerials(Hooks(xs, t.requested)), HookSerials(RunHooks(trc, t', ops[1..])),
        Serials(xs), Serials(RunOutcomes(trc, t', ops[1..])));
    }
  }

  /** A rate control that always asks for a delay. */
  function Constant(): Throttle {
    (notices: seq<Notice>, now: int, tx: Tx) => 5
  }

  function Limited(q: Queue, triggers: seq<int>): State {
    State(0, Queues(q, Empty, Empty, Empty), [], triggers, 1)
  }

  const LONG := Request(DP0, 100, 1000)

  lemma FirstWaits()
    ensures Step(Constant(), Limited(Empty, []), LONG, 0)
      == Limited(Front(Waiting(Job(0, DP0, 100, 1000), 1000), Empty), [5])
    ensures Outcomes(Constant(), Limited(Empty, []), LONG, 0) == []
  {
  }

  lemma SecondEvicts()
    ensures
      var s := Limited(Front(Waiting(Job(0, DP0, 100, 1000), 1000), Empty), [5]);
      Outcomes(Constant(), s, LONG, 1) == [Overflowed(Job(0, DP0, 100, 1000), 0)]
  {
  }

  /** One step of a run, known by its state and outcomes. */
  lemma OneMore(trc: Throttle, t: Trace, op: Op, ops: seq<Op>, s: State, xs: seq<Outcome>) returns (t': Trace)
    requires Step(trc, t.state, op, t.requested) == s && Outcomes(trc, t.state, op, t.requested) == xs
    ensures t'.state == s && t'.requested == if op.Request? then t.requested + 1 else t.requested
    ensures RunOutcomes(trc, t, [op] + ops) == xs + RunOutcomes(trc, t', ops)
    ensures RunHooks(trc, t, [op] + ops) == Hooks(xs, t.requested) + RunHooks(trc, t', ops)
  {
    t' := Extend(trc, t, op);
    assert ([op] + ops)[1..] == ops;
  }

  /** The second packet evicts the first, and its hook names the second. */
  predicate Misreported(trc: Throttle, t: Trace, ops: seq<Op>) {
    && RunOutcomes(trc, t, ops) == [Overflowed(Job(0, DP0, 100, 1000), 0)]
    && RunHooks(trc, t, ops) == [DropHook(VO, 1)]
  }

  lemma SecondStep(t: Trace)
    requires t.requested == 1 && t.state == Limited(Front(Waiting(Job(0, DP0, 100, 1000), 1000), Empty), [5])
    ensures Misreported(Constant(), t, [LONG] + [])
  {
    SecondEvicts();
    var xs := [Overflowed(Job(0, DP0, 100, 1000), 0)];
    assert Hooks(xs, 1) == [DropHook(VO, 1)] by {
      assert xs[1..] == [];
    }
    var t' := OneMore(Constant(), t, LONG, [], Step(Constant(), t.state, LONG, 1), xs);
  }

  lemma FirstStep(t: Trace)
    requires t.requested == 0 && t.state == Limited(Empty, [])
    ensures Misreported(Constant(), t, [LONG] + ([LONG] + []))
  {
    FirstWaits();
    var t' := OneMore(Constant(), t, LONG, [LONG] + [],
      Limited(Front(Waiting(Job(0, DP0, 100, 1000), 1000), Empty), [5]), []);
    SecondStep(t');
  }

  lemma AllSteps()
    ensures Misreported(Constant(), Initial(0), [SetLimit(1)] + ([LONG] + ([LONG] + [])))
  {
    var t' := OneMore(Constant(), Initial(0), SetLimit(1), [LONG] + ([LONG] + []), Limited(Empty, []), []);
    FirstStep(t');
  }

  /** With a limit of one the second packet of a category evicts the first, and the hook names
      the second. */
  lemma OverflowMisreported()
    ensures exists trc, ops :: Misreported(trc, Initial(0), ops)
  {
    AllSteps();
  }

  // ----- delays

  /** A trigger would transmit a packet whose delay has not passed. */
  predicate Premature(trc: Throttle, s: State) {
    var s1 := DropExpired(s);
    match NextQueue(trc, s1.notices, s1.now, s1.queues)
    case None => false
    case Some(ac) => HeadDelay(trc, s1.notices, s1.now, Get(s1.queues, ac)) > 0
  }

  /** A trigger transmits before its time exactly when every unexpired packet in front of a queue
      is delayed, not all of them indefinitely: it asks for delays only to choose. */
  lemma TriggerPremature(trc: Throttle, s: State)
    ensures
      var s1 := DropExpired(s);
      Premature(trc, s) <==>
        && (forall ac :: Get(s1.queues, ac).Front? ==> HeadDelay(trc, s1.notices, s1.now, Get(s1.queues, ac)) > 0)
        && (exists ac :: Get(s1.queues, ac).Front?
              && HeadDelay(trc, s1.notices, s1.now, Get(s1.queues, ac)) < MAX_DELAY)
  {
    var s1 := DropExpired(s);
    forall ac | Get(s1.queues, ac).Front?
      ensures match NextQueue(trc, s1.notices, s1.now, s1.queues)
        case None => HeadDelay(trc, s1.notices, s1.now, Get(s1.queues, ac)) >= MAX_DELAY
        case Some(best) =>
          var least := HeadDelay(trc, s1.notices, s1.now, Get(s1.queues, best));
          least < MAX_DELAY && least <= HeadDelay(trc, s1.notices, s1.now, Get(s1.queues, ac))
    {
      NextQueueBest(trc, s1.notices, s1.now, s1.queues, ac);
    }
  }

  /** A rate control that asks for ten units between transmissions. */
  function Spacing(): Throttle {
    (notices: seq<Notice>, now: int, tx: Tx) =>
      if notices == [] then 0
      else
        var ready := notices[|notices| - 1].at + 10;
        if now < ready then ready - now else 0
  }

  /** A state in which only the highest category may have packets waiting. */
  function Voice(now: int, q: Queue, notices: seq<Notice>, triggers: seq<int>): State {
    State(now, Queues(q, Empty, Empty, Empty), notices, triggers, 0)
  }

  const SHORT := Request(DP0, 100, 5)

  const SENT_AT_0 := Notice(Tx(DP0, 100, false), 0)

  const SENT_AT_10 := Notice(Tx(DP0, 100, true), 10)

  const EXPIRING := Waiting(Job(1, DP0, 100, 5), 5)

  const THIRD := Waiting(Job(2, DP0, 100, 1000), 1006)

  const FOURTH := Waiting(Job(3, DP0, 100, 1000), 1006)

  lemma FirstIsSent()
    ensures Step(Spacing(), Voice(0, Empty, [], []), LONG, 0) == Voice(0, Empty, [SENT_AT_0], [])
  {
  }

  lemma SecondWaits()
    ensures Step(Spacing(), Voice(0, Empty, [SENT_AT_0], []), SHORT, 1)
      == Voice(0, Front(EXPIRING, Empty), [SENT_AT_0], [10])
  {
  }

  lemma ThirdWaits()
    ensures Step(Spacing(), Voice(6, Front(EXPIRING, Empty), [SENT_AT_0], [10]), LONG, 2)
      == Voice(6, Front(THIRD, Empty), [SENT_AT_0], [10, 10])
  {
  }

  lemma FourthWaits()
    ensures Step(Spacing(), Voice(6, Front(THIRD, Empty), [SENT_AT_0], [10, 10]), LONG, 3)
      == Voice(6, Front(THIRD, Front(FOURTH, Empty)), [SENT_AT_0], [10, 10])
  {
  }

  lemma ThirdIsSent()
    ensures Step(Spacing(), Voice(10, Front(THIRD, Front(FOURTH, Empty)), [SENT_AT_0], [10, 10]), Fire, 4)
      == Voice(10, Front(FOURTH, Empty), [SENT_AT_0, SENT_AT_10], [10, 20])
  {
    var s1 := Voice(10, Front(THIRD, Front(FOURTH, Empty)), [SENT_AT_0], [10]);
    assert DropExpired(s1) == s1;
    assert Dequeue(Spacing(), s1) == Voice(10, Front(FOURTH, Empty), [SENT_AT_0, SENT_AT_10], [10]);
  }

  /** One step of a run, known by its state. */
  lemma StepTo(trc: Throttle, t: Trace, op: Op, ops: seq<Op>, s: State) returns (t': Trace)
    requires Step(trc, t.state, op, t.requested) == s
    ensures t'.state == s && t'.requested == if op.Request? then t.requested + 1 else t.requested
    ensures Run(trc, t, [op] + ops) == Run(trc, t', ops)
  {
    t' := Extend(trc, t, op);
    assert ([op] + ops)[1..] == ops;
  }

  lemma LastSteps(t: Trace)
    requires t.requested == 4 && t.state == Voice(6, Front(THIRD, Front(FOURTH, Empty)), [SENT_AT_0], [10, 10])
    ensures Run(Spacing(), t, [Advance(4)] + ([Fire] + [])).state
      == Voice(10, Front(FOURTH, Empty), [SENT_AT_0, SENT_AT_10], [10, 20])
  {
    ThirdIsSent();
    var t' := StepTo(Spacing(), t, Advance(4), [Fire] + [],
      Voice(10, Front(THIRD, Front(FOURTH, Empty)), [SENT_AT_0], [10, 10]));
    var t'' := StepTo(Spacing(), t', Fire, [], Voice(10, Front(FOURTH, Empty), [SENT_AT_0, SENT_AT_10], [10, 20]));
  }

  lemma LaterSteps(t: Trace, rest: seq<Op>) returns (t': Trace)
    requires t.requested == 2 && t.state == Voice(6, Front(EXPIRING, Empty), [SENT_AT_0], [10])
    ensures t'.requested == 4 && t'.state == Voice(6, Front(THIRD, Front(FOURTH, Empty)), [SENT_AT_0], [10, 10])
    ensures Run(Spacing(), t, [LONG] + ([LONG] + rest)) == Run(Spacing(), t', rest)
  {
    ThirdWaits();
    FourthWaits();
    t' := StepTo(Spacing(), t, LONG, [LONG] + rest, Voice(6, Front(THIRD, Empty), [SENT_AT_0], [10, 10]));
    t' := StepTo(Spacing(), t', LONG, rest, Voice(6, Front(THIRD, Front(FOURTH, Empty)), [SENT_AT_0], [10, 10]));
  }

  lemma FirstSteps(rest: seq<Op>) returns (t: Trace)
    ensures t.requested == 2 && t.state == Voice(6, Front(EXPIRING, Empty), [SENT_AT_0], [10])
    ensures Run(Spacing(), Initial(0), [LONG] + ([SHORT] + ([Advance(6)] + rest))) == Run(Spacing(), t, rest)
  {
    FirstIsSent();
    SecondWaits();
    t := StepTo(Spacing(), Initial(0), LONG, [SHORT] + ([Advance(6)] + rest), Voice(0, Empty, [SENT_AT_0], []));
    t := StepTo(Spacing(), t, SHORT, [Advance(6)] + rest, Voice(0, Front(EXPIRING, Empty), [SENT_AT_0], [10]));
    t := StepTo(Spacing(), t, Advance(6), rest, Voice(6, Front(EXPIRING, Empty), [SENT_AT_0], [10]));
  }

  /** Two triggers become pending for the same time when the only queued packet expires before
      another is queued. The second one transmits a packet that should wait ten units more. */
  lemma StaleTriggerIsPremature()
    ensures exists ops ::
      var s := Run(Spacing(), Initial(0), ops).state;
      TriggerDue(s) && Premature(Spacing(), s)
  {
    var ops := WholeRun();
    LastIsPremature();
  }

  lemma WholeRun() returns (ops: seq<Op>)
    ensures Run(Spacing(), Initial(0), ops).state == Voice(10, Front(FOURTH, Empty), [SENT_AT_0, SENT_AT_10], [10, 20])
  {
    var last := [Advance(4)] + ([Fire] + []);
    var later := [LONG] + ([LONG] + last);
    ops := [LONG] + ([SHORT] + ([Advance(6)] + later));
    var t := FirstSteps(later);
    var t' := LaterSteps(t, last);
    LastSteps(t');
  }

  lemma LastIsPremature()
    ensures
      var s := Voice(10, Front(FOURTH, Empty), [SENT_AT_0, SENT_AT_10], [10, 20]);
      TriggerDue(s) && Premature(Spacing(), s)
  {
  }
}
