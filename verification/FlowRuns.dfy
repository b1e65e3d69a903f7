/** What holds of the DCC gatekeeper in every run, for every rate control. */
module FlowRuns {
  import opened FlowModel

  // ----- conservation

  function CountQueue(q: Queue, k: nat): nat {
    if q.Empty? then 0 else (if q.head.job.serial == k then 1 else 0) + CountQueue(q.tail, k)
  }

  function CountQueues(qs: Queues, k: nat): nat {
    CountQueue(qs.vo, k) + CountQueue(qs.vi, k) + CountQueue(qs.be, k) + CountQueue(qs.bk, k)
  }

  function CountLog(xs: seq<Outcome>, k: nat): nat {
    if xs == [] then 0 else (if xs[0].job.serial == k then 1 else 0) + CountLog(xs[1..], k)
  }

  lemma {:induction false} CountLogConcat(a: seq<Outcome>, b: seq<Outcome>, k: nat)
    ensures CountLog(a + b, k) == CountLog(a, k) + CountLog(b, k)
  {
    if a == [] {
      assert a + b == b;
    } else {
      assert (a + b)[1..] == a[1..] + b;
      CountLogConcat(a[1..], b, k);
    }
  }

  lemma {:induction false} CountLive(q: Queue, now: int, k: nat)
    ensures CountQueue(q, k) == CountQueue(Live(q, now), k) + CountLog(Stale(q, now), k)
  {
    if q.Front? {
      CountLive(q.tail, now, k);
      if q.head.expiry < now {
        assert Stale(q, now)[1..] == Stale(q.tail, now);
      }
    }
  }

  lemma {:induction false} CountTrim(q: Queue, limit: nat, now: int, k: nat)
    ensures CountQueue(q, k) == CountQueue(Trim(q, limit), k) + CountLog(Trimmed(q, limit, now), k)
  {
    if limit > 0 && q.Front? && Size(q) >= limit {
      CountTrim(q.tail, limit, now, k);
      assert Trimmed(q, limit, now)[1..] == Trimmed(q.tail, limit, now);
    }
  }

  lemma {:induction false} CountPush(q: Queue, p: Waiting, k: nat)
    ensures CountQueue(Push(q, p), k) == CountQueue(q, k) + (if p.job.serial == k then 1 else 0)
  {
    if q.Front? {
      CountPush(q.tail, p, k);
    }
  }

  lemma CountPut(qs: Queues, ac: Ac, q: Queue, k: nat)
    ensures CountQueues(Put(qs, ac, q), k) + CountQueue(Get(qs, ac), k) == CountQueues(qs, k) + CountQueue(q, k)
  {
  }

  lemma CountAllLive(qs: Queues, now: int, k: nat)
    ensures CountQueues(qs, k) == CountQueues(AllLive(qs, now), k) + CountLog(AllStale(qs, now), k)
  {
    CountLive(qs.vo, now, k);
    CountLive(qs.vi, now, k);
    CountLive(qs.be, now, k);
    CountLive(qs.bk, now, k);
    CountLogConcat(Stale(qs.vo, now), Stale(qs.vi, now), k);
    CountLogConcat(Stale(qs.vo, now) + Stale(qs.vi, now), Stale(qs.be, now), k);
    CountLogConcat(Stale(qs.vo, now) + Stale(qs.vi, now) + Stale(qs.be, now), Stale(qs.bk, now), k);
  }

  lemma CountOne(x: Outcome, k: nat)
    ensures CountLog([x], k) == if x.job.serial == k then 1 else 0
  {
    assert [x][1..] == [];
  }

  lemma EnqueueConserves(trc: Throttle, s: State, job: Job, k: nat)
    ensures
      var q := Get(s.queues, MapProfile(job.profile));
      CountQueues(EnqueueJob(trc, s, job).queues, k) + CountLog(Trimmed(q, s.limit, s.now), k)
        == CountQueues(s.queues, k) + (if job.serial == k then 1 else 0)
  {
    var ac := MapProfile(job.profile);
    var q, p := Get(s.queues, ac), Waiting(job, s.now + job.lifetime);
    var q' := Push(Trim(q, s.limit), p);
    CountTrim(q, s.limit, s.now, k);
    CountPush(Trim(q, s.limit), p, k);
    CountPut(s.queues, ac, q', k);
    assert EnqueueJob(trc, s, job).queues == Put(s.queues, ac, q');
  }

  lemma AcceptConserves(trc: Throttle, s: State, job: Job, k: nat)
    ensures CountQueues(Accept(trc, s, job).queues, k) + CountLog(AcceptOutcomes(trc, s, job), k)
      == CountQueues(s.queues, k) + (if job.serial == k then 1 else 0)
  {
    if TransmitImmediately(trc, s, Tx(job.profile, job.size, false)) {
      CountOne(AcceptOutcomes(trc, s, job)[0], k);
    } else {
      EnqueueConserves(trc, s, job, k);
    }
  }

  lemma DequeueConserves(trc: Throttle, s: State, k: nat)
    ensures CountQueues(Dequeue(trc, s).queues, k) + CountLog(DequeueOutcomes(trc, s), k) == CountQueues(s.queues, k)
  {
    match NextQueue(trc, s.notices, s.now, s.queues)
    case None =>
    case Some(ac) =>
      CountPut(s.queues, ac, Get(s.queues, ac).tail, k);
      CountOne(DequeueOutcomes(trc, s)[0], k);
  }

  lemma RequestConserves(trc: Throttle, s: State, job: Job, k: nat)
    ensures CountQueues(RequestJob(trc, s, job).queues, k) + CountLog(RequestOutcomes(trc, s, job), k)
      == CountQueues(s.queues, k) + (if job.serial == k then 1 else 0)
  {
    CountAllLive(s.queues, s.now, k);
    AcceptConserves(trc, DropExpired(s), job, k);
    CountLogConcat(AllStale(s.queues, s.now), AcceptOutcomes(trc, DropExpired(s), job), k);
  }

  lemma TriggerConserves(trc: Throttle, s: State, k: nat)
    ensures CountQueues(Trigger(trc, s).queues, k) + CountLog(TriggerOutcomes(trc, s), k) == CountQueues(s.queues, k)
  {
    CountAllLive(s.queues, s.now, k);
    DequeueConserves(trc, DropExpired(s), k);
    CountLogConcat(AllStale(s.queues, s.now), DequeueOutcomes(trc, DropExpired(s)), k);
  }

  lemma StepConserves(trc: Throttle, s: State, op: Op, serial: nat, k: nat)
    ensures CountQueues(Step(trc, s, op, serial).queues, k) + CountLog(Outcomes(trc, s, op, serial), k)
      == CountQueues(s.queues, k) + (if op.Request? && serial == k then 1 else 0)
  {
    if op.Request? {
      RequestConserves(trc, s, Job(serial, op.profile, op.size, op.lifetime), k);
    } else if op.Fire? && TriggerDue(s) {
      TriggerConserves(trc, s.(triggers := s.triggers[1..]), k);
    } else {
      QuietStep(trc, s, op, serial);
    }
  }

  /** Each request so far is in exactly one place: queued, sent, expired or overflowed. */
  ghost predicate Accounted(t: Trace) {
    forall k: nat :: CountQueues(t.state.queues, k) + CountLog(t.log, k) == if k < t.requested then 1 else 0
  }

  lemma {:induction false} Conservation(trc: Throttle, t: Trace, ops: seq<Op>)
    requires Accounted(t)
    ensures Accounted(Run(trc, t, ops))
    decreases |ops|
  {
    if ops != [] {
      var t' := Extend(trc, t, ops[0]);
      forall k: nat
        ensures CountQueues(t'.state.queues, k) + CountLog(t'.log, k) == if k < t'.requested then 1 else 0
      {
        StepConserves(trc, t.state, ops[0], t.requested, k);
        CountLogConcat(t.log, Outcomes(trc, t.state, ops[0], t.requested), k);
      }
      Conservation(trc, t', ops[1..]);
    }
  }

  // ----- order and expiry

  /** Serials rise strictly from `lo` to below `hi`, all of one category. */
  predicate Ascending(q: Queue, ac: Ac, lo: int, hi: int) {
    q.Front? ==>
      && lo < q.head.job.serial < hi
      && MapProfile(q.head.job.profile) == ac
      && Ascending(q.tail, ac, q.head.job.serial, hi)
  }

  predicate IsSent(x: Outcome, ac: Ac) {
    x.Sent? && MapProfile(x.job.profile) == ac
  }

  /** Serial of the last transmission in a category, `last` if there is none. */
  function LastSent(xs: seq<Outcome>, ac: Ac, last: int): int {
    if xs == [] then last
    else LastSent(xs[1..], ac, if IsSent(xs[0], ac) then xs[0].job.serial else last)
  }

  /** Transmissions in a category follow request order. */
  predicate InOrder(xs: seq<Outcome>, ac: Ac, last: int) {
    xs == [] ||
    if IsSent(xs[0], ac) then last < xs[0].job.serial && InOrder(xs[1..], ac, xs[0].job.serial)
    else InOrder(xs[1..], ac, last)
  }

  /** What was queued is sent no later than its expiry, and dropped as expired only after it. */
  predicate Timely(xs: seq<Outcome>) {
    xs != [] ==>
      && (match xs[0]
          case Sent(_, at, queued, expiry) => queued ==> at <= expiry
          case Expired(_, at, expiry) => at > expiry
          case Overflowed(_, _) => true)
      && Timely(xs[1..])
  }

  lemma {:induction false} LogConcat(a: seq<Outcome>, b: seq<Outcome>, ac: Ac, last: int)
    ensures LastSent(a + b, ac, last) == LastSent(b, ac, LastSent(a, ac, last))
    ensures InOrder(a + b, ac, last) <==> InOrder(a, ac, last) && InOrder(b, ac, LastSent(a, ac, last))
    ensures Timely(a + b) <==> Timely(a) && Timely(b)
  {
    if a == [] {
      assert a + b == b;
    } else {
      assert (a + b)[1..] == a[1..] + b && (a + b)[0] == a[0];
      LogConcat(a[1..], b, ac, if IsSent(a[0], ac) then a[0].job.serial else last);
    }
  }

  lemma {:induction false} DropsOnly(q: Queue, limit: nat, now: int, ac: Ac, last: int)
    ensures LastSent(Stale(q, now), ac, last) == last && InOrder(Stale(q, now), ac, last) && Timely(Stale(q, now))
    ensures LastSent(Trimmed(q, limit, now), ac, last) == last && InOrder(Trimmed(q, limit, now), ac, last)
    ensures Timely(Trimmed(q, limit, now))
  {
    if q.Front? {
      DropsOnly(q.tail, limit, now, ac, last);
      if q.head.expiry < now {
        assert Stale(q, now)[1..] == Stale(q.tail, now);
      }
      if limit > 0 && Size(q) >= limit {
        assert Trimmed(q, limit, now)[1..] == Trimmed(q.tail, limit, now);
      }
    }
  }

  lemma StaleOnly(qs: Queues, now: int, ac: Ac, last: int)
    ensures LastSent(AllStale(qs, now), ac, last) == last
    ensures InOrder(AllStale(qs, now), ac, last) && Timely(AllStale(qs, now))
  {
    DropsOnly(qs.vo, 0, now, ac, last);
    DropsOnly(qs.vi, 0, now, ac, last);
    DropsOnly(qs.be, 0, now, ac, last);
    DropsOnly(qs.bk, 0, now, ac, last);
    LogConcat(Stale(qs.vo, now), Stale(qs.vi, now), ac, last);
    LogConcat(Stale(qs.vo, now) + Stale(qs.vi, now), Stale(qs.be, now), ac, last);
    LogConcat(Stale(qs.vo, now) + Stale(qs.vi, now) + Stale(qs.be, now), Stale(qs.bk, now), ac, last);
  }

  lemma {:induction false} AscendingWeaken(q: Queue, ac: Ac, lo: int, hi: int, lo': int, hi': int)
    requires Ascending(q, ac, lo, hi) && lo' <= lo && hi <= hi'
    ensures Ascending(q, ac, lo', hi')
  {
    if q.Front? {
      AscendingWeaken(q.tail, ac, q.head.job.serial, hi, q.head.job.serial, hi');
    }
  }

  lemma {:induction false} AscendingLive(q: Queue, now: int, ac: Ac, lo: int, hi: int)
    requires Ascending(q, ac, lo, hi)
    ensures Ascending(Live(q, now), ac, lo, hi)
    ensures Live(q, now).Front? ==> now <= Live(q, now).head.expiry
  {
    if q.Front? {
      AscendingLive(q.tail, now, ac, q.head.job.serial, hi);
      if q.head.expiry < now {
        AscendingWeaken(Live(q.tail, now), ac, q.head.job.serial, hi, lo, hi);
      }
    }
  }

  lemma {:induction false} AscendingTrim(q: Queue, limit: nat, ac: Ac, lo: int, hi: int)
    requires Ascending(q, ac, lo, hi)
    ensures Ascending(Trim(q, limit), ac, lo, hi)
  {
    if limit > 0 && q.Front? && Size(q) >= limit {
      AscendingTrim(q.tail, limit, ac, q.head.job.serial, hi);
      AscendingWeaken(Trim(q.tail, limit), ac, q.head.job.serial, hi, lo, hi);
    }
  }

  lemma {:induction false} AscendingPush(q: Queue, p: Waiting, ac: Ac, lo: int, hi: int)
    requires Ascending(q, ac, lo, hi) && lo < hi == p.job.serial && MapProfile(p.job.profile) == ac
    ensures Ascending(Push(q, p), ac, lo, hi + 1)
  {
    if q.Front? {
      AscendingPush(q.tail, p, ac, q.head.job.serial, hi);
    }
  }

  /** In one category: transmissions so far in request order, the queue continuing that order. */
  predicate Fifo(s: State, n: nat, log: seq<Outcome>, ac: Ac) {
    && InOrder(log, ac, -1)
    && LastSent(log, ac, -1) < n
    && Ascending(Get(s.queues, ac), ac, LastSent(log, ac, -1), n)
    && Timely(log)
  }

  /** Dropping what has expired only thins the queue out. */
  lemma DropFifo(s: State, n: nat, log: seq<Outcome>, ac: Ac)
    requires Fifo(s, n, log, ac)
    ensures Fifo(DropExpired(s), n, log + AllStale(s.queues, s.now), ac)
    ensures Get(DropExpired(s).queues, ac).Front? ==> s.now <= Get(DropExpired(s).queues, ac).head.expiry
  {
    StaleOnly(s.queues, s.now, ac, LastSent(log, ac, -1));
    AscendingLive(Get(s.queues, ac), s.now, ac, LastSent(log, ac, -1), n);
    LogConcat(log, AllStale(s.queues, s.now), ac, -1);
  }

  lemma SendFifo(s: State, n: nat, log: seq<Outcome>, x: Outcome, ac: Ac)
    requires Fifo(s, n, log, ac) && x.Sent? && x.job.serial == n && !x.queued
    requires MapProfile(x.job.profile) == ac ==> Get(s.queues, ac).Empty?
    ensures Fifo(s, n + 1, log + [x], ac)
  {
    AscendingWeaken(Get(s.queues, ac), ac, LastSent(log, ac, -1), n, LastSent(log, ac, -1), n + 1);
    LogConcat(log, [x], ac, -1);
    assert [x][1..] == [];
  }

  lemma EnqueueFifo(trc: Throttle, s: State, job: Job, log: seq<Outcome>, ac: Ac)
    requires Fifo(s, job.serial, log, ac)
    ensures Fifo(EnqueueJob(trc, s, job), job.serial + 1,
      log + Trimmed(Get(s.queues, MapProfile(job.profile)), s.limit, s.now), ac)
  {
    var n, last := job.serial, LastSent(log, ac, -1);
    var q := Get(s.queues, MapProfile(job.profile));
    LogConcat(log, Trimmed(q, s.limit, s.now), ac, -1);
    DropsOnly(q, s.limit, s.now, ac, last);
    if ac == MapProfile(job.profile) {
      AscendingTrim(q, s.limit, ac, last, n);
      AscendingPush(Trim(q, s.limit), Waiting(job, s.now + job.lifetime), ac, last, n);
    } else {
      AscendingWeaken(Get(s.queues, ac), ac, last, n, last, n + 1);
    }
  }

  lemma AcceptFifo(trc: Throttle, s: State, job: Job, log: seq<Outcome>, ac: Ac)
    requires Fifo(s, job.serial, log, ac)
    ensures Fifo(Accept(trc, s, job), job.serial + 1, log + AcceptOutcomes(trc, s, job), ac)
  {
    if TransmitImmediately(trc, s, Tx(job.profile, job.size, false)) {
      SendFifo(s, job.serial, log, AcceptOutcomes(trc, s, job)[0], ac);
    } else {
      EnqueueFifo(trc, s, job, log, ac);
    }
  }

  lemma DequeueFifo(trc: Throttle, s: State, n: nat, log: seq<Outcome>, ac: Ac)
    requires Fifo(s, n, log, ac)
    requires forall a :: Get(s.queues, a).Front? ==> s.now <= Get(s.queues, a).head.expiry
    requires forall a :: Get(s.queues, a).Front? ==> MapProfile(Get(s.queues, a).head.job.profile) == a
    ensures Fifo(Dequeue(trc, s), n, log + DequeueOutcomes(trc, s), ac)
  {
    LogConcat(log, DequeueOutcomes(trc, s), ac, -1);
    match NextQueue(trc, s.notices, s.now, s.queues)
    case None =>
    case Some(best) =>
      assert Get(s.queues, best).Front?;
      assert DequeueOutcomes(trc, s)[1..] == [];
  }

  lemma RequestFifo(trc: Throttle, s: State, job: Job, log: seq<Outcome>, ac: Ac)
    requires Fifo(s, job.serial, log, ac)
    ensures Fifo(RequestJob(trc, s, job), job.serial + 1, log + RequestOutcomes(trc, s, job), ac)
  {
    var stale, out := AllStale(s.queues, s.now), AcceptOutcomes(trc, DropExpired(s), job);
    DropFifo(s, job.serial, log, ac);
    AcceptFifo(trc, DropExpired(s), job, log + stale, ac);
    assert (log + stale) + out == log + (stale + out);
  }

  lemma TriggerFifo(trc: Throttle, s: State, n: nat, log: seq<Outcome>, ac: Ac)
    requires forall a :: Fifo(s, n, log, a)
    ensures Fifo(Trigger(trc, s), n, log + TriggerOutcomes(trc, s), ac)
  {
    var stale, out := AllStale(s.queues, s.now), DequeueOutcomes(trc, DropExpired(s));
    forall a
      ensures Fifo(DropExpired(s), n, log + stale, a)
      ensures Get(DropExpired(s).queues, a).Front? ==> s.now <= Get(DropExpired(s).queues, a).head.expiry
    {
      assert Fifo(s, n, log, a);
      DropFifo(s, n, log, a);
    }
    assert forall a :: Fifo(DropExpired(s), n, log + stale, a);
    DequeueFifo(trc, DropExpired(s), n, log + stale, ac);
    assert (log + stale) + out == log + (stale + out);
  }

  /** The order depends on the queues alone. */
  lemma FifoOfQueues(s: State, s': State, n: nat, log: seq<Outcome>, ac: Ac)
    requires Fifo(s, n, log, ac) && s'.queues == s.queues
    ensures Fifo(s', n, log + [], ac)
  {
    assert log + [] == log;
  }

  lemma QuietStep(trc: Throttle, s: State, op: Op, n: nat)
    requires !op.Request? && (op.Fire? ==> !TriggerDue(s))
    ensures Step(trc, s, op, n).queues == s.queues && Outcomes(trc, s, op, n) == []
  {
  }

  lemma StepFifo(trc: Throttle, t: Trace, op: Op, ac: Ac)
    requires forall a :: Fifo(t.state, t.requested, t.log, a)
    ensures Fifo(Extend(trc, t, op).state, Extend(trc, t, op).requested, Extend(trc, t, op).log, ac)
  {
    var t' := Extend(trc, t, op);
    if op.Request? {
      RequestStep(trc, t, op);
      RequestStepFifo(trc, t, Job(t.requested, op.profile, op.size, op.lifetime), t', ac);
    } else if op.Fire? && TriggerDue(t.state) {
      FireStepFifo(trc, t, t', ac);
    } else {
      QuietStepFifo(trc, t, op, t', ac);
    }
  }

  lemma RequestStepFifo(trc: Throttle, t: Trace, job: Job, t': Trace, ac: Ac)
    requires job.serial == t.requested && Fifo(t.state, job.serial, t.log, ac)
    requires t'.state == RequestJob(trc, t.state, job) && t'.requested == job.serial + 1
    requires t'.log == t.log + RequestOutcomes(trc, t.state, job)
    ensures Fifo(t'.state, t'.requested, t'.log, ac)
  {
    RequestFifo(trc, t.state, job, t.log, ac);
  }

  lemma FireStepFifo(trc: Throttle, t: Trace, t': Trace, ac: Ac)
    requires TriggerDue(t.state) && t' == Extend(trc, t, Fire)
    requires forall a :: Fifo(t.state, t.requested, t.log, a)
    ensures Fifo(t'.state, t'.requested, t'.log, ac)
  {
    FireFifo(trc, t.state, t.requested, t.log, ac);
    FireStep(trc, t);
  }

  lemma QuietStepFifo(trc: Throttle, t: Trace, op: Op, t': Trace, ac: Ac)
    requires !op.Request? && (op.Fire? ==> !TriggerDue(t.state)) && t' == Extend(trc, t, op)
    requires Fifo(t.state, t.requested, t.log, ac)
    ensures Fifo(t'.state, t'.requested, t'.log, ac)
  {
    QuietTrace(trc, t, op);
    FifoOfQueues(t.state, t'.state, t.requested, t.log, ac);
  }

  lemma FireFifo(trc: Throttle, s: State, n: nat, log: seq<Outcome>, ac: Ac)
    requires TriggerDue(s) && forall a :: Fifo(s, n, log, a)
    ensures
      var s1 := s.(triggers := s.triggers[1..]);
      Fifo(Trigger(trc, s1), n, log + TriggerOutcomes(trc, s1), ac)
  {
    var s1 := s.(triggers := s.triggers[1..]);
    forall a ensures Fifo(s1, n, log, a) {
      assert Fifo(s, n, log, a);
    }
    TriggerFifo(trc, s1, n, log, ac);
  }

  lemma QuietTrace(trc: Throttle, t: Trace, op: Op)
    requires !op.Request? && (op.Fire? ==> !TriggerDue(t.state))
    ensures Extend(trc, t, op) == Trace(Step(trc, t.state, op, t.requested), t.requested, t.log + [])
    ensures Step(trc, t.state, op, t.requested).queues == t.state.queues
  {
    QuietStep(trc, t.state, op, t.requested);
  }

  lemma RequestStep(trc: Throttle, t: Trace, op: Op)
    requires op.Request?
    ensures
      var job := Job(t.requested, op.profile, op.size, op.lifetime);
      Extend(trc, t, op)
        == Trace(RequestJob(trc, t.state, job), t.requested + 1, t.log + RequestOutcomes(trc, t.state, job))
  {
  }

  lemma FireStep(trc: Throttle, t: Trace)
    requires TriggerDue(t.state)
    ensures
      var s1 := t.state.(triggers := t.state.triggers[1..]);
      Extend(trc, t, Fire) == Trace(Trigger(trc, s1), t.requested, t.log + TriggerOutcomes(trc, s1))
  {
  }

  /** In every run and every category packets are transmitted in request order; nothing is sent
      from a queue past its expiry, and nothing is dropped as expired before it. */
  lemma {:induction false} AlwaysFifo(trc: Throttle, t: Trace, ops: seq<Op>, ac: Ac)
    requires forall a :: Fifo(t.state, t.requested, t.log, a)
    ensures Fifo(Run(trc, t, ops).state, Run(trc, t, ops).requested, Run(trc, t, ops).log, ac)
    decreases |ops|
  {
    if ops != [] {
      var t' := Extend(trc, t, ops[0]);
      forall a ensures Fifo(t'.state, t'.requested, t'.log, a) {
        StepFifo(trc, t, ops[0], a);
      }
      AlwaysFifo(trc, t', ops[1..], ac);
    } else {
      assert Fifo(t.state, t.requested, t.log, ac);
    }
  }

  // ----- choice of queue

  /** The chosen queue's head has the least delay, ties going to the higher priority; no queue
      is chosen exactly when every head is delayed indefinitely. */
  lemma NextQueueBest(trc: Throttle, notices: seq<Notice>, now: int, qs: Queues, ac: Ac)
    requires Get(qs, ac).Front?
    ensures
      var d := HeadDelay(trc, notices, now, Get(qs, ac));
      match NextQueue(trc, notices, now, qs)
      case None => d >= MAX_DELAY
      case Some(best) =>
        var least := HeadDelay(trc, notices, now, Get(qs, best));
        && least < MAX_DELAY
        && least <= d
        && (Rank(ac) < Rank(best) ==> least < d)
  {
    match ac
    case VO =>
    case VI =>
    case BE =>
    case BK =>
  }

  // ----- pending triggers

  /** Something queued implies a trigger pending. */
  predicate Scheduled(s: State) {
    NoneQueued(s.queues) || s.triggers != []
  }

  ghost predicate FiniteDelays(trc: Throttle) {
    forall notices, now, tx :: trc(notices, now, tx) < MAX_DELAY
  }

  lemma NextExists(trc: Throttle, s: State)
    requires FiniteDelays(trc)
    ensures NextQueue(trc, s.notices, s.now, s.queues).None? <==> NoneQueued(s.queues)
  {
    if !NoneQueued(s.queues) {
      var ac :=
        if s.queues.vo.Front? then VO else if s.queues.vi.Front? then VI else if s.queues.be.Front? then BE else BK;
      NextQueueBest(trc, s.notices, s.now, s.queues, ac);
      assert trc(s.notices, s.now, TxOf(Get(s.queues, ac).head)) < MAX_DELAY;
    }
  }

  lemma StepScheduled(trc: Throttle, s: State, op: Op, serial: nat)
    requires FiniteDelays(trc) && Scheduled(s)
    ensures Scheduled(Step(trc, s, op, serial))
  {
    match op
    case Advance(_) =>
    case SetLimit(_) =>
    case Reschedule => NextExists(trc, s);
    case Fire =>
      if TriggerDue(s) {
        NextExists(trc, Dequeue(trc, DropExpired(s.(triggers := s.triggers[1..]))));
      }
    case Request(profile, size, lifetime) => RequestScheduled(trc, s, Job(serial, profile, size, lifetime));
  }

  lemma RequestScheduled(trc: Throttle, s: State, job: Job)
    requires Scheduled(s)
    ensures Scheduled(RequestJob(trc, s, job))
  {
    if !NoneQueued(DropExpired(s).queues) {
      LiveEmpty(s.queues.vo, s.now);
      LiveEmpty(s.queues.vi, s.now);
      LiveEmpty(s.queues.be, s.now);
      LiveEmpty(s.queues.bk, s.now);
    }
  }

  lemma LiveEmpty(q: Queue, now: int)
    ensures q.Empty? ==> Live(q, now).Empty?
  {
  }

  /** With finite delays, in every run a queued packet has a trigger pending. */
  lemma {:induction false} AlwaysScheduled(trc: Throttle, t: Trace, ops: seq<Op>)
    requires FiniteDelays(trc) && Scheduled(t.state)
    ensures Scheduled(Run(trc, t, ops).state)
    decreases |ops|
  {
    if ops != [] {
      StepScheduled(trc, t.state, ops[0], t.requested);
      AlwaysScheduled(trc, Extend(trc, t, ops[0]), ops[1..]);
    }
  }

  /** Without that assumption: serving the only pending trigger leaves none behind exactly when
      every packet still at the front of a queue is delayed indefinitely. */
  lemma TriggerStalls(trc: Throttle, s: State)
    requires s.triggers == []
    ensures
      var s1 := Dequeue(trc, DropExpired(s));
      Trigger(trc, s).triggers == [] <==>
        forall ac :: Get(s1.queues, ac).Front? ==> HeadDelay(trc, s1.notices, s1.now, Get(s1.queues, ac)) >= MAX_DELAY
  {
    var s1 := Dequeue(trc, DropExpired(s));
    forall ac | Get(s1.queues, ac).Front?
      ensures NextQueue(trc, s1.notices, s1.now, s1.queues).None? ==>
        HeadDelay(trc, s1.notices, s1.now, Get(s1.queues, ac)) >= MAX_DELAY
    {
      NextQueueBest(trc, s1.notices, s1.now, s1.queues, ac);
    }
    match NextQueue(trc, s1.notices, s1.now, s1.queues)
    case None =>
    case Some(best) => NextQueueBest(trc, s1.notices, s1.now, s1.queues, best);
  }

  // ----- immediate transmission, queue length

  /** A request bypasses the queues, and is notified at once, exactly when no live packet of the
      same or a higher category is waiting and the rate control grants a zero delay. */
  lemma ImmediateOnlyUncontended(trc: Throttle, s: State, job: Job)
    ensures
      RequestJob(trc, s, job).notices != s.notices <==>
        && trc(s.notices, s.now, Tx(job.profile, job.size, false)) == 0
        && forall ac :: Rank(ac) <= Rank(MapProfile(job.profile)) ==> Live(Get(s.queues, ac), s.now).Empty?
  {
    var qs := AllLive(s.queues, s.now);
    assert forall ac :: Get(qs, ac) == Live(Get(s.queues, ac), s.now);
    assert Get(qs, VO) == qs.vo && Get(qs, VI) == qs.vi && Get(qs, BE) == qs.be && Get(qs, BK) == qs.bk;
    assert |s.notices + [Notice(Tx(job.profile, job.size, false), s.now)]| == |s.notices| + 1;
  }

  predicate WithinLimit(qs: Queues, limit: nat) {
    limit > 0 ==> Size(qs.vo) <= limit && Size(qs.vi) <= limit && Size(qs.be) <= limit && Size(qs.bk) <= limit
  }

  lemma {:induction false} SizeParts(q: Queue, limit: nat, now: int, p: Waiting)
    ensures Size(Live(q, now)) <= Size(q)
    ensures Size(Push(q, p)) == Size(q) + 1
    ensures limit > 0 ==> Size(Trim(q, limit)) < limit
    ensures Size(Trim(q, limit)) <= Size(q)
  {
    if q.Front? {
      SizeParts(q.tail, limit, now, p);
    }
  }

  lemma AllLiveWithinLimit(qs: Queues, limit: nat, now: int, p: Waiting)
    requires WithinLimit(qs, limit)
    ensures WithinLimit(AllLive(qs, now), limit)
  {
    SizeParts(qs.vo, limit, now, p);
    SizeParts(qs.vi, limit, now, p);
    SizeParts(qs.be, limit, now, p);
    SizeParts(qs.bk, limit, now, p);
  }

  lemma PutWithinLimit(qs: Queues, ac: Ac, q: Queue, limit: nat)
    requires WithinLimit(qs, limit) && (limit > 0 ==> Size(q) <= limit)
    ensures WithinLimit(Put(qs, ac, q), limit)
  {
  }

  lemma AcceptWithinLimit(trc: Throttle, s: State, job: Job)
    requires WithinLimit(s.queues, s.limit)
    ensures WithinLimit(Accept(trc, s, job).queues, s.limit)
  {
    var ac := MapProfile(job.profile);
    var q, p := Get(s.queues, ac), Waiting(job, s.now + job.lifetime);
    SizeParts(q, s.limit, s.now, p);
    SizeParts(Trim(q, s.limit), s.limit, s.now, p);
    PutWithinLimit(s.queues, ac, Push(Trim(q, s.limit), p), s.limit);
  }

  lemma DequeueWithinLimit(trc: Throttle, s: State)
    requires WithinLimit(s.queues, s.limit)
    ensures WithinLimit(Dequeue(trc, s).queues, s.limit)
  {
  }

  /** Queues that respect the length limit keep respecting it. */
  lemma StepWithinLimit(trc: Throttle, s: State, op: Op, serial: nat)
    requires WithinLimit(s.queues, s.limit) && !op.SetLimit?
    ensures Step(trc, s, op, serial).limit == s.limit
    ensures WithinLimit(Step(trc, s, op, serial).queues, s.limit)
  {
    var job := if op.Request? then Job(serial, op.profile, op.size, op.lifetime) else Job(serial, DP0, 0, 0);
    AllLiveWithinLimit(s.queues, s.limit, s.now, Waiting(job, s.now));
    match op
    case Request(_, _, _) => AcceptWithinLimit(trc, DropExpired(s), job);
    case Fire => if TriggerDue(s) { DequeueWithinLimit(trc, DropExpired(s.(triggers := s.triggers[1..]))); }
    case _ =>
  }
}
