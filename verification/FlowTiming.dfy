/** When triggers of the gatekeeper come too early, under a rate control that makes every transmission
    wait until a time set by what it was notified about. */
module FlowTiming {
  import opened Collections
  import opened Runtimes
  import opened FlowModel
  import opened FlowRuns
  import opened FlowLimits

  // ----- how many triggers are pending

  /** A request that finds nothing queued schedules a trigger, although one is still pending from a
      packet that has gone. */
  predicate Superfluous(trc: Throttle, s: State, op: Op) {
    && op.Request? && s.triggers != []
    && NoneQueued(DropExpired(s).queues)
    && !TransmitImmediately(trc, DropExpired(s), Tx(op.profile, op.size, false))
  }

  lemma InsertLength(ds: seq<int>, d: int)
    ensures |InsertSorted(ds, d)| == |ds| + 1
  {
  }

  lemma NextLength(trc: Throttle, s: State)
    ensures |s.triggers| <= |ScheduleNext(trc, s).triggers| <= |s.triggers| + 1
  {
    match NextQueue(trc, s.notices, s.now, s.queues)
    case None =>
    case Some(ac) => InsertLength(s.triggers, s.now + trc(s.notices, s.now, TxOf(Get(s.queues, ac).head)));
  }

  lemma RequestLength(trc: Throttle, s: State, job: Job)
    ensures
      var s1 := DropExpired(s);
      |RequestJob(trc, s, job).triggers| ==
        |s.triggers| +
        if NoneQueued(s1.queues) && !TransmitImmediately(trc, s1, Tx(job.profile, job.size, false)) then 1 else 0
  {
    InsertLength(s.triggers, s.now + trc(s.notices, s.now, TxOf(Waiting(job, s.now + job.lifetime))));
  }

  /** Pending triggers become more than one, or more than they were, exactly by such a request. */
  lemma SecondTriggerIff(trc: Throttle, s: State, op: Op, serial: nat)
    ensures |Step(trc, s, op, serial).triggers| > Max(1, |s.triggers|) <==> Superfluous(trc, s, op)
  {
    match op
    case Advance(_) =>
    case SetLimit(_) =>
    case Request(profile, size, lifetime) => RequestLength(trc, s, Job(serial, profile, size, lifetime));
    case Fire =>
      if TriggerDue(s) {
        var s1 := s.(triggers := s.triggers[1..]);
        DequeueKeepsTriggers(trc, s1);
        NextLength(trc, Dequeue(trc, DropExpired(s1)));
      }
    case Reschedule =>
      NextLength(trc, s.(triggers := []));
  }

  lemma DequeueKeepsTriggers(trc: Throttle, s: State)
    ensures Dequeue(trc, DropExpired(s)).triggers == s.triggers
  {
  }

  predicate SingleThroughout(trc: Throttle, t: Trace, ops: seq<Op>)
    decreases |ops|
  {
    |t.state.triggers| <= 1 && (ops != [] ==> SingleThroughout(trc, Extend(trc, t, ops[0]), ops[1..]))
  }

  predicate NoneSuperfluous(trc: Throttle, t: Trace, ops: seq<Op>)
    decreases |ops|
  {
    ops != [] ==> !Superfluous(trc, t.state, ops[0]) && NoneSuperfluous(trc, Extend(trc, t, ops[0]), ops[1..])
  }

  /** At most one trigger is pending at every point of a run exactly if it makes no such request. */
  lemma {:induction false} SingleIff(trc: Throttle, t: Trace, ops: seq<Op>)
    requires |t.state.triggers| <= 1
    ensures SingleThroughout(trc, t, ops) <==> NoneSuperfluous(trc, t, ops)
    decreases |ops|
  {
    if ops != [] {
      SecondTriggerIff(trc, t.state, ops[0], t.requested);
      if !Superfluous(trc, t.state, ops[0]) {
        SingleIff(trc, Extend(trc, t, ops[0]), ops[1..]);
      }
    }
  }

  // ----- counting down

  /** When transmissions are possible again, by what was notified. */
  type Readiness = seq<Notice> -> int

  /** The delay counts down to that time. */
  function Countdown(ready: Readiness): Throttle {
    (notices: seq<Notice>, now: int, tx: Tx) => if now < ready(notices) then ready(notices) - now else 0
  }

  predicate NotBefore(ds: seq<int>, time: int) {
    ds != [] ==> ds[0] >= time && NotBefore(ds[1..], time)
  }

  /** No pending trigger is due before transmissions are possible. */
  predicate Timely(ready: Readiness, s: State) {
    NotBefore(s.triggers, ready(s.notices))
  }

  /** What a step transmits. */
  function Notified(trc: Throttle, s: State, op: Op): Option<Notice> {
    match op
    case Request(profile, size, _) =>
      var tx := Tx(profile, size, false);
      if TransmitImmediately(trc, DropExpired(s), tx) then Some(Notice(tx, s.now)) else None
    case Fire =>
      var s1 := DropExpired(s);
      if !TriggerDue(s) then None
      else
        (match NextQueue(trc, s1.notices, s1.now, s1.queues)
         case None => None
         case Some(ac) => Some(Notice(TxOf(Get(s1.queues, ac).head), s.now)))
    case _ => None
  }

  /** The triggers pending besides the one that fires. */
  function Others(s: State, op: Op): seq<int> {
    if op.Fire? && TriggerDue(s) then s.triggers[1..] else s.triggers
  }

  /** What the step transmits makes none of the other triggers too early. */
  predicate Calm(ready: Readiness, s: State, op: Op) {
    var n := Notified(Countdown(ready), s, op);
    n.Some? ==> NotBefore(Others(s, op), ready(s.notices + [n.value]))
  }

  lemma {:induction false} InsertNotBefore(ds: seq<int>, d: int, time: int)
    requires d >= time
    ensures NotBefore(InsertSorted(ds, d), time) <==> NotBefore(ds, time)
  {
    if ds == [] || d < ds[0] {
      assert ([d] + ds)[1..] == ds;
    } else {
      InsertNotBefore(ds[1..], d, time);
      assert ([ds[0]] + InsertSorted(ds[1..], d))[1..] == InsertSorted(ds[1..], d);
    }
  }

  lemma CountdownWaits(ready: Readiness, notices: seq<Notice>, now: int, tx: Tx)
    ensures now + Countdown(ready)(notices, now, tx) >= ready(notices)
  {
  }

  lemma TriggersDecide(ready: Readiness, s: State, triggers: seq<int>, s': State)
    requires s'.triggers == triggers && s'.notices == s.notices
    requires NotBefore(triggers, ready(s.notices)) <==> NotBefore(s.triggers, ready(s.notices))
    ensures Timely(ready, s') <==> Timely(ready, s)
  {
  }

  /** A trigger scheduled for a packet is never too early by itself. */
  lemma ScheduleTimely(ready: Readiness, s: State, p: Waiting)
    ensures Timely(ready, ScheduleFor(Countdown(ready), s, p)) <==> Timely(ready, s)
  {
    var d := s.now + Countdown(ready)(s.notices, s.now, TxOf(p));
    CountdownWaits(ready, s.notices, s.now, TxOf(p));
    InsertNotBefore(s.triggers, d, ready(s.notices));
    TriggersDecide(ready, s, InsertSorted(s.triggers, d), ScheduleFor(Countdown(ready), s, p));
  }

  lemma NextTimely(ready: Readiness, s: State)
    ensures Timely(ready, ScheduleNext(Countdown(ready), s)) <==> Timely(ready, s)
  {
    match NextQueue(Countdown(ready), s.notices, s.now, s.queues)
    case None =>
    case Some(ac) => ScheduleTimely(ready, s, Get(s.queues, ac).head);
  }

  lemma EnqueueTimely(ready: Readiness, s: State, job: Job)
    ensures Timely(ready, EnqueueJob(Countdown(ready), s, job)) <==> Timely(ready, s)
  {
    var ac, p := MapProfile(job.profile), Waiting(job, s.now + job.lifetime);
    var s1 := s.(queues := Put(s.queues, ac, Push(Trim(Get(s.queues, ac), s.limit), p)));
    ScheduleTimely(ready, s1, p);
    if NoneQueued(s.queues) {
      assert EnqueueJob(Countdown(ready), s, job) == ScheduleFor(Countdown(ready), s1, p);
    } else {
      assert EnqueueJob(Countdown(ready), s, job) == s1;
    }
  }

  lemma RequestTimely(ready: Readiness, s: State, job: Job)
    requires Timely(ready, s)
    ensures Timely(ready, RequestJob(Countdown(ready), s, job)) <==>
      Calm(ready, s, Request(job.profile, job.size, job.lifetime))
  {
    var trc, s1, tx := Countdown(ready), DropExpired(s), Tx(job.profile, job.size, false);
    var op := Request(job.profile, job.size, job.lifetime);
    if TransmitImmediately(trc, s1, tx) {
      assert Notified(trc, s, op) == Some(Notice(tx, s.now));
    } else {
      assert Notified(trc, s, op) == None;
      EnqueueTimely(ready, s1, job);
    }
  }

  lemma DequeueTimely(ready: Readiness, s: State)
    requires Timely(ready, s) && TriggerDue(s)
    ensures
      var s1 := DropExpired(s.(triggers := s.triggers[1..]));
      Timely(ready, Dequeue(Countdown(ready), s1)) <==> Calm(ready, s, Fire)
  {
  }

  lemma TriggerTimely(ready: Readiness, s: State)
    requires Timely(ready, s) && TriggerDue(s)
    ensures Timely(ready, Trigger(Countdown(ready), s.(triggers := s.triggers[1..]))) <==> Calm(ready, s, Fire)
  {
    var s1 := DropExpired(s.(triggers := s.triggers[1..]));
    DequeueTimely(ready, s);
    NextTimely(ready, Dequeue(Countdown(ready), s1));
  }

  lemma RescheduleTimely(ready: Readiness, s: State)
    requires Timely(ready, s)
    ensures Timely(ready, RescheduleAll(Countdown(ready), s))
  {
    NextTimely(ready, s.(triggers := []));
  }

  /** A step keeps all triggers timely exactly if what it transmits makes none of them too early. */
  lemma StepTimely(ready: Readiness, s: State, op: Op, serial: nat)
    requires Timely(ready, s)
    ensures Timely(ready, Step(Countdown(ready), s, op, serial)) <==> Calm(ready, s, op)
  {
    match op
    case Advance(_) =>
    case SetLimit(_) =>
    case Request(profile, size, lifetime) => RequestTimely(ready, s, Job(serial, profile, size, lifetime));
    case Fire =>
      if TriggerDue(s) {
        TriggerTimely(ready, s);
      }
    case Reschedule => RescheduleTimely(ready, s);
  }

  predicate TimelyThroughout(ready: Readiness, t: Trace, ops: seq<Op>)
    decreases |ops|
  {
    && Timely(ready, t.state)
    && (ops != [] ==> TimelyThroughout(ready, Extend(Countdown(ready), t, ops[0]), ops[1..]))
  }

  predicate CalmThroughout(ready: Readiness, t: Trace, ops: seq<Op>)
    decreases |ops|
  {
    ops != [] ==>
      Calm(ready, t.state, ops[0]) && CalmThroughout(ready, Extend(Countdown(ready), t, ops[0]), ops[1..])
  }

  /** All triggers are timely at every point of a run exactly if nothing it transmits makes a pending
      one too early. */
  lemma {:induction false} TimelyIff(ready: Readiness, t: Trace, ops: seq<Op>)
    requires Timely(ready, t.state)
    ensures TimelyThroughout(ready, t, ops) <==> CalmThroughout(ready, t, ops)
    decreases |ops|
  {
    if ops != [] {
      StepTimely(ready, t.state, ops[0], t.requested);
      if Calm(ready, t.state, ops[0]) {
        TimelyIff(ready, Extend(Countdown(ready), t, ops[0]), ops[1..]);
      }
    }
  }

  // ----- timely triggers are not premature, others are

  /** A due trigger sends before the delay has passed. */
  predicate FiresEarly(trc: Throttle, s: State, op: Op) {
    op.Fire? && TriggerDue(s) && Premature(trc, s)
  }

  lemma TimelyNotEarly(ready: Readiness, s: State, op: Op)
    requires Timely(ready, s)
    ensures !FiresEarly(Countdown(ready), s, op)
  {
    if op.Fire? && TriggerDue(s) {
      TriggerPremature(Countdown(ready), s);
    }
  }

  predicate NeverEarly(trc: Throttle, t: Trace, ops: seq<Op>)
    decreases |ops|
  {
    ops != [] ==> !FiresEarly(trc, t.state, ops[0]) && NeverEarly(trc, Extend(trc, t, ops[0]), ops[1..])
  }

  /** No trigger of a calm run sends too early. */
  lemma {:induction false} CalmNeverEarly(ready: Readiness, t: Trace, ops: seq<Op>)
    requires Timely(ready, t.state) && CalmThroughout(ready, t, ops)
    ensures NeverEarly(Countdown(ready), t, ops)
    decreases |ops|
  {
    if ops != [] {
      TimelyNotEarly(ready, t.state, ops[0]);
      StepTimely(ready, t.state, ops[0], t.requested);
      CalmNeverEarly(ready, Extend(Countdown(ready), t, ops[0]), ops[1..]);
    }
  }

  /** Nothing is sent at once while a trigger is pending. */
  predicate NoneSentBetween(trc: Throttle, t: Trace, ops: seq<Op>)
    decreases |ops|
  {
    ops != [] ==>
      && (ops[0].Request? && t.state.triggers != [] ==> Notified(trc, t.state, ops[0]).None?)
      && NoneSentBetween(trc, Extend(trc, t, ops[0]), ops[1..])
  }

  /** In particular, no trigger sends too early while at most one is pending and nothing is notified
      between its scheduling and its firing. */
  lemma {:induction false} SingleNeverEarly(ready: Readiness, t: Trace, ops: seq<Op>)
    requires Timely(ready, t.state) && |t.state.triggers| <= 1
    requires NoneSuperfluous(Countdown(ready), t, ops) && NoneSentBetween(Countdown(ready), t, ops)
    ensures NeverEarly(Countdown(ready), t, ops)
    decreases |ops|
  {
    if ops != [] {
      assert Calm(ready, t.state, ops[0]);
      TimelyNotEarly(ready, t.state, ops[0]);
      StepTimely(ready, t.state, ops[0], t.requested);
      SecondTriggerIff(Countdown(ready), t.state, ops[0], t.requested);
      SingleNeverEarly(ready, Extend(Countdown(ready), t, ops[0]), ops[1..]);
    }
  }

  lemma {:induction false} LivePushed(q: Queue, p: Waiting, now: int)
    requires p.expiry >= now
    ensures Live(Push(q, p), now).Front?
  {
    if q.Front? {
      LivePushed(q.tail, p, now);
    }
  }

  /** A long-lived packet that has to wait, requested now and looked at later. */
  lemma RequestStays(trc: Throttle, s: State, job: Job, later: int)
    requires !TransmitImmediately(trc, DropExpired(s), Tx(job.profile, job.size, false))
    requires s.now + job.lifetime >= later
    ensures
      var s' := RequestJob(trc, s, job);
      Live(Get(s'.queues, MapProfile(job.profile)), later).Front? && s'.notices == s.notices && s'.now == s.now
  {
    var s1, ac, p := DropExpired(s), MapProfile(job.profile), Waiting(job, s.now + job.lifetime);
    LivePushed(Trim(Get(s1.queues, ac), s.limit), p, later);
  }

  /** What is scheduled behind a trigger leaves it in front. */
  lemma FrontStays(ds: seq<int>, d: int)
    requires ds != [] && d >= ds[0]
    ensures InsertSorted(ds, d) != [] && InsertSorted(ds, d)[0] == ds[0]
  {
  }

  lemma RequestFront(ready: Readiness, s: State, job: Job)
    requires s.triggers != [] && s.triggers[0] < ready(s.notices)
    requires !TransmitImmediately(Countdown(ready), DropExpired(s), Tx(job.profile, job.size, false))
    ensures
      var ds := RequestJob(Countdown(ready), s, job).triggers;
      ds != [] && ds[0] == s.triggers[0]
  {
    var p := Waiting(job, s.now + job.lifetime);
    CountdownWaits(ready, s.notices, s.now, TxOf(p));
    FrontStays(s.triggers, s.now + Countdown(ready)(s.notices, s.now, TxOf(p)));
  }

  /** A pending trigger that is too early does send too early, if a packet is requested before it is
      due: the trigger by itself does not keep the delay. */
  lemma UntimelyFiresEarly(ready: Readiness, s: State, serial: nat) returns (lifetime: nat, wait: nat)
    requires s.triggers != [] && Max(s.now, s.triggers[0]) < ready(s.notices)
    requires ready(s.notices) - Max(s.now, s.triggers[0]) < MAX_DELAY
    ensures
      var trc := Countdown(ready);
      var s1 := Step(trc, s, Request(DP0, 0, lifetime), serial);
      FiresEarly(trc, Step(trc, s1, Advance(wait), serial), Fire)
  {
    var trc, at := Countdown(ready), Max(s.now, s.triggers[0]);
    lifetime, wait := at - s.now, at - s.now;
    var job := Job(serial, DP0, 0, lifetime);
    RequestStays(trc, s, job, at);
    RequestFront(ready, s, job);
    var s2 := RequestJob(trc, s, job).(now := at);
    assert Get(DropExpired(s2).queues, VO).Front?;
    TriggerPremature(trc, s2);
  }

  // ----- no packet waits longer than it has to

  /** What is notified never makes transmissions possible earlier. */
  ghost predicate Postpones(ready: Readiness) {
    forall notices, n {:trigger ready(notices + [n])} :: ready(notices) <= ready(notices + [n])
  }

  /** The delay is not indefinite. */
  predicate Soon(ready: Readiness, s: State) {
    ready(s.notices) - s.now < MAX_DELAY
  }

  /** While anything is queued, a trigger is pending for no later than the time at which transmissions
      are possible. */
  predicate Prompt(ready: Readiness, s: State) {
    NoneQueued(s.queues) || (s.triggers != [] && s.triggers[0] <= Max(s.now, ready(s.notices)))
  }

  lemma InsertedFront(ds: seq<int>, d: int)
    ensures InsertSorted(ds, d) != [] && InsertSorted(ds, d)[0] == if ds == [] then d else Min(ds[0], d)
  {
  }

  lemma CountdownEnds(ready: Readiness, notices: seq<Notice>, now: int, tx: Tx)
    ensures now + Countdown(ready)(notices, now, tx) == Max(now, ready(notices))
  {
  }

  lemma SchedulePrompt(ready: Readiness, s: State, p: Waiting)
    ensures Prompt(ready, ScheduleFor(Countdown(ready), s, p))
  {
    CountdownEnds(ready, s.notices, s.now, TxOf(p));
    InsertedFront(s.triggers, s.now + Countdown(ready)(s.notices, s.now, TxOf(p)));
  }

  lemma SomeQueue(qs: Queues)
    ensures NoneQueued(qs) <==> forall ac :: Get(qs, ac).Empty?
  {
    assert Get(qs, VO) == qs.vo && Get(qs, VI) == qs.vi && Get(qs, BE) == qs.be && Get(qs, BK) == qs.bk;
  }

  lemma NextPrompt(ready: Readiness, s: State)
    requires Soon(ready, s)
    ensures Prompt(ready, ScheduleNext(Countdown(ready), s))
  {
    var trc := Countdown(ready);
    match NextQueue(trc, s.notices, s.now, s.queues)
    case None =>
      forall ac ensures Get(s.queues, ac).Empty? {
        if Get(s.queues, ac).Front? {
          NextQueueBest(trc, s.notices, s.now, s.queues, ac);
          assert false;
        }
      }
      SomeQueue(s.queues);
    case Some(ac) => SchedulePrompt(ready, s, Get(s.queues, ac).head);
  }

  lemma LiveNone(qs: Queues, now: int)
    ensures NoneQueued(qs) ==> NoneQueued(AllLive(qs, now))
  {
  }

  lemma EnqueuePrompt(ready: Readiness, s: State, job: Job)
    requires Prompt(ready, s)
    ensures Prompt(ready, EnqueueJob(Countdown(ready), s, job))
  {
    var ac, p := MapProfile(job.profile), Waiting(job, s.now + job.lifetime);
    var s1 := s.(queues := Put(s.queues, ac, Push(Trim(Get(s.queues, ac), s.limit), p)));
    SchedulePrompt(ready, s1, p);
  }

  lemma StepPrompt(ready: Readiness, s: State, op: Op, serial: nat)
    requires Postpones(ready) && Prompt(ready, s) && Soon(ready, Step(Countdown(ready), s, op, serial))
    ensures Prompt(ready, Step(Countdown(ready), s, op, serial))
  {
    var trc := Countdown(ready);
    LiveNone(s.queues, s.now);
    match op
    case Advance(_) =>
    case SetLimit(_) =>
    case Request(profile, size, lifetime) =>
      var s1, tx := DropExpired(s), Tx(profile, size, false);
      if TransmitImmediately(trc, s1, tx) {
        assert ready(s.notices) <= ready(s.notices + [Notice(tx, s.now)]);
      } else {
        EnqueuePrompt(ready, s1, Job(serial, profile, size, lifetime));
      }
    case Fire =>
      if TriggerDue(s) {
        NextPrompt(ready, Dequeue(trc, DropExpired(s.(triggers := s.triggers[1..]))));
      }
    case Reschedule =>
      if NextQueue(trc, s.notices, s.now, s.queues).Some? {
        NextPrompt(ready, s.(triggers := []));
      }
  }

  predicate SoonThroughout(ready: Readiness, t: Trace, ops: seq<Op>)
    decreases |ops|
  {
    ops != [] ==>
      var t' := Extend(Countdown(ready), t, ops[0]);
      Soon(ready, t'.state) && SoonThroughout(ready, t', ops[1..])
  }

  lemma {:induction false} AlwaysPrompt(ready: Readiness, t: Trace, ops: seq<Op>)
    requires Postpones(ready) && Prompt(ready, t.state) && SoonThroughout(ready, t, ops)
    ensures Prompt(ready, Run(Countdown(ready), t, ops).state)
    decreases |ops|
  {
    if ops != [] {
      StepPrompt(ready, t.state, ops[0], t.requested);
      AlwaysPrompt(ready, Extend(Countdown(ready), t, ops[0]), ops[1..]);
    }
  }

  /** In every run no packet waits longer than it has to: once transmissions are possible and no
      trigger is due any more, nothing is queued. */
  lemma NothingWaits(ready: Readiness, start: int, ops: seq<Op>)
    requires Postpones(ready) && SoonThroughout(ready, Initial(start), ops)
    ensures
      var s := Run(Countdown(ready), Initial(start), ops).state;
      s.now >= ready(s.notices) && !TriggerDue(s) ==> NoneQueued(s.queues)
  {
    AlwaysPrompt(ready, Initial(start), ops);
  }
}
