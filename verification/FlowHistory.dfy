/** What the gatekeeper does with requests, by the requests themselves: which are sent at once, which
    a trigger sends next, and that whatever is queued, sent or dropped is what was requested. */
module FlowHistory {
  import opened Collections
  import opened FlowModel
  import opened FlowRuns

  // ----- what is queued

  predicate InQueue(p: Waiting, q: Queue) {
    q.Front? && (p == q.head || InQueue(p, q.tail))
  }

  predicate Waits(qs: Queues, p: Waiting) {
    InQueue(p, qs.vo) || InQueue(p, qs.vi) || InQueue(p, qs.be) || InQueue(p, qs.bk)
  }

  predicate LiveAt(p: Waiting, now: int) {
    p.expiry >= now
  }

  lemma {:induction false} InLive(p: Waiting, q: Queue, now: int)
    ensures InQueue(p, Live(q, now)) <==> InQueue(p, q) && LiveAt(p, now)
  {
    if q.Front? {
      InLive(p, q.tail, now);
    }
  }

  lemma {:induction false} InTrim(p: Waiting, q: Queue, limit: nat)
    ensures InQueue(p, Trim(q, limit)) ==> InQueue(p, q)
  {
    if q.Front? {
      InTrim(p, q.tail, limit);
    }
  }

  lemma {:induction false} InPush(p: Waiting, q: Queue, x: Waiting)
    ensures InQueue(p, Push(q, x)) <==> p == x || InQueue(p, q)
  {
    if q.Front? {
      InPush(p, q.tail, x);
    }
  }

  lemma WaitsSomewhere(qs: Queues, p: Waiting)
    ensures Waits(qs, p) <==> exists ac :: InQueue(p, Get(qs, ac))
  {
    assert Get(qs, VO) == qs.vo && Get(qs, VI) == qs.vi && Get(qs, BE) == qs.be && Get(qs, BK) == qs.bk;
  }

  lemma WaitsLive(s: State, p: Waiting)
    ensures Waits(DropExpired(s).queues, p) <==> Waits(s.queues, p) && LiveAt(p, s.now)
  {
    InLive(p, s.queues.vo, s.now);
    InLive(p, s.queues.vi, s.now);
    InLive(p, s.queues.be, s.now);
    InLive(p, s.queues.bk, s.now);
  }

  // ----- profiles

  /** Profiles from the most to the least urgent. */
  function Level(p: Profile): nat {
    match p
    case DP0 => 0
    case DP1 => 1
    case DP2 => 2
    case DP3 => 3
  }

  lemma LevelIsRank(p: Profile)
    ensures Rank(MapProfile(p)) == Level(p)
  {
  }

  lemma OneRank(a: Ac, b: Ac)
    ensures Rank(a) == Rank(b) <==> a == b
  {
  }

  /** Every queue holds packets of one category, in request order. */
  ghost predicate Arranged(s: State, n: int) {
    forall ac :: Ascending(Get(s.queues, ac), ac, -1, n)
  }

  lemma {:induction false} SentAbove(log: seq<Outcome>, ac: Ac, last: int)
    requires InOrder(log, ac, last)
    ensures LastSent(log, ac, last) >= last
  {
    if log != [] {
      SentAbove(log[1..], ac, if IsSent(log[0], ac) then log[0].job.serial else last);
    }
  }

  lemma RunArranged(trc: Throttle, start: int, ops: seq<Op>)
    ensures
      var t := Run(trc, Initial(start), ops);
      Arranged(t.state, t.requested)
  {
    var t := Run(trc, Initial(start), ops);
    assert forall a :: Fifo(Initial(start).state, 0, [], a);
    forall ac ensures Ascending(Get(t.state.queues, ac), ac, -1, t.requested) {
      AlwaysFifo(trc, Initial(start), ops, ac);
      SentAbove(t.log, ac, -1);
      AscendingWeaken(Get(t.state.queues, ac), ac, LastSent(t.log, ac, -1), t.requested, -1, t.requested);
    }
  }

  lemma {:induction false} InAscending(p: Waiting, q: Queue, ac: Ac, lo: int, hi: int)
    requires Ascending(q, ac, lo, hi) && InQueue(p, q)
    ensures lo < p.job.serial && MapProfile(p.job.profile) == ac
    ensures p == q.head || q.head.job.serial < p.job.serial
  {
    if p != q.head {
      InAscending(p, q.tail, ac, q.head.job.serial, hi);
    }
  }

  lemma DropArranged(s: State, n: int)
    requires Arranged(s, n)
    ensures Arranged(DropExpired(s), n)
  {
    forall ac ensures Ascending(Get(DropExpired(s).queues, ac), ac, -1, n) {
      AscendingLive(Get(s.queues, ac), s.now, ac, -1, n);
    }
  }

  /** A queued packet is in the queue of its profile's level. */
  lemma QueueOf(s: State, n: int, p: Waiting, ac: Ac)
    requires Arranged(s, n) && Waits(s.queues, p)
    ensures InQueue(p, Get(s.queues, ac)) <==> Rank(ac) == Level(p.job.profile)
  {
    WaitsSomewhere(s.queues, p);
    var own :| InQueue(p, Get(s.queues, own));
    InAscending(p, Get(s.queues, own), own, -1, n);
    LevelIsRank(p.job.profile);
    OneRank(own, ac);
    if InQueue(p, Get(s.queues, ac)) {
      InAscending(p, Get(s.queues, ac), ac, -1, n);
    }
  }

  lemma HeadWaits(s: State, n: int, ac: Ac)
    requires Arranged(s, n) && Get(s.queues, ac).Front?
    ensures
      var p := Get(s.queues, ac).head;
      Waits(s.queues, p) && Level(p.job.profile) == Rank(ac)
  {
    var p := Get(s.queues, ac).head;
    assert InQueue(p, Get(s.queues, ac));
    WaitsSomewhere(s.queues, p);
    QueueOf(s, n, p, ac);
  }

  // ----- sent at once

  lemma ContendedBy(s: State, n: int, profile: Profile)
    requires Arranged(s, n)
    ensures Contended(s.queues, MapProfile(profile)) <==>
      exists p :: Waits(s.queues, p) && Level(p.job.profile) <= Level(profile)
  {
    var qs, ac := s.queues, MapProfile(profile);
    LevelIsRank(profile);
    assert Get(qs, VO) == qs.vo && Get(qs, VI) == qs.vi && Get(qs, BE) == qs.be && Get(qs, BK) == qs.bk;
    if Contended(qs, ac) {
      var own := if qs.vo.Front? then VO else if qs.vi.Front? && Rank(ac) >= 1 then VI
                 else if qs.be.Front? && Rank(ac) >= 2 then BE else BK;
      HeadWaits(s, n, own);
    }
    forall p | Waits(qs, p) && Level(p.job.profile) <= Level(profile) ensures Contended(qs, ac) {
      WaitsSomewhere(qs, p);
      var own :| InQueue(p, Get(qs, own));
      QueueOf(s, n, p, own);
    }
  }

  /** No packet that has not expired is queued with the same or a more urgent profile. */
  ghost predicate NothingAhead(s: State, profile: Profile) {
    forall p :: Waits(s.queues, p) && LiveAt(p, s.now) ==> Level(p.job.profile) > Level(profile)
  }

  lemma ImmediateIff(trc: Throttle, s: State, n: int, tx: Tx)
    requires Arranged(s, n)
    ensures TransmitImmediately(trc, DropExpired(s), tx) <==>
      trc(s.notices, s.now, tx) == 0 && NothingAhead(s, tx.profile)
  {
    var s1 := DropExpired(s);
    DropArranged(s, n);
    ContendedBy(s1, n, tx.profile);
    forall p ensures Waits(s1.queues, p) <==> Waits(s.queues, p) && LiveAt(p, s.now) {
      WaitsLive(s, p);
    }
  }

  lemma {:induction false} OnlyDrops(q: Queue, limit: nat, now: int)
    ensures forall x :: x in Stale(q, now) ==> x.Expired?
    ensures forall x :: x in Trimmed(q, limit, now) ==> x.Overflowed?
  {
    if q.Front? {
      OnlyDrops(q.tail, limit, now);
    }
  }

  lemma StaleDrops(qs: Queues, now: int)
    ensures forall x :: x in AllStale(qs, now) ==> x.Expired?
  {
    OnlyDrops(qs.vo, 0, now);
    OnlyDrops(qs.vi, 0, now);
    OnlyDrops(qs.be, 0, now);
    OnlyDrops(qs.bk, 0, now);
  }

  lemma EnqueuedWaits(trc: Throttle, s: State, job: Job)
    ensures Waits(EnqueueJob(trc, s, job).queues, Waiting(job, s.now + job.lifetime))
  {
    var ac, p := MapProfile(job.profile), Waiting(job, s.now + job.lifetime);
    InPush(p, Trim(Get(s.queues, ac), s.limit), p);
    WaitsSomewhere(EnqueueJob(trc, s, job).queues, p);
    assert InQueue(p, Get(EnqueueJob(trc, s, job).queues, ac));
  }

  /** What a request makes of a state: the packet is sent at once exactly if its delay is zero and
      nothing is ahead of it, and nothing else is sent; otherwise it waits. */
  ghost predicate SentOrWaits(trc: Throttle, s: State, job: Job, out: seq<Outcome>, s': State) {
    var sent := Sent(job, s.now, false, s.now + job.lifetime);
    && (sent in out <==> trc(s.notices, s.now, Tx(job.profile, job.size, false)) == 0 && NothingAhead(s, job.profile))
    && (forall x :: x in out && x.Sent? ==> x == sent)
    && (sent !in out ==> Waits(s'.queues, Waiting(job, s.now + job.lifetime)))
  }

  lemma RequestSends(trc: Throttle, s: State, n: int, job: Job)
    requires Arranged(s, n)
    ensures SentOrWaits(trc, s, job, RequestOutcomes(trc, s, job), RequestJob(trc, s, job))
  {
    var s1, tx := DropExpired(s), Tx(job.profile, job.size, false);
    ImmediateIff(trc, s, n, tx);
    StaleDrops(s.queues, s.now);
    OnlyDrops(Get(s1.queues, MapProfile(job.profile)), s.limit, s.now);
    EnqueuedWaits(trc, s1, job);
  }

  /** So it is for every request of every run. */
  lemma SentAtOnceIff(trc: Throttle, start: int, ops: seq<Op>, profile: Profile, size: nat, lifetime: int)
    ensures
      var t, op := Run(trc, Initial(start), ops), Request(profile, size, lifetime);
      var job := Job(t.requested, profile, size, lifetime);
      SentOrWaits(trc, t.state, job, Outcomes(trc, t.state, op, t.requested), Step(trc, t.state, op, t.requested))
  {
    var t := Run(trc, Initial(start), ops);
    RunArranged(trc, start, ops);
    RequestSends(trc, t.state, t.requested, Job(t.requested, profile, size, lifetime));
  }

  // ----- sent by a trigger

  /** The packet of its profile that was requested first, among those that have not expired. */
  ghost predicate FirstOfProfile(s: State, p: Waiting) {
    && Waits(s.queues, p) && LiveAt(p, s.now)
    && forall w :: Waits(s.queues, w) && LiveAt(w, s.now) && w.job.profile == p.job.profile ==>
         p.job.serial <= w.job.serial
  }

  function Delay(trc: Throttle, s: State, p: Waiting): int {
    trc(s.notices, s.now, Tx(p.job.profile, p.job.size, true))
  }

  /** The fronts of the queues, once expired packets have gone, are the first of their profiles. */
  lemma FrontIsFirst(s: State, n: int, ac: Ac)
    requires Arranged(s, n) && Get(DropExpired(s).queues, ac).Front?
    ensures
      var p := Get(DropExpired(s).queues, ac).head;
      FirstOfProfile(s, p) && Level(p.job.profile) == Rank(ac)
  {
    var s1 := DropExpired(s);
    var q := Get(s1.queues, ac);
    DropArranged(s, n);
    HeadWaits(s1, n, ac);
    WaitsLive(s, q.head);
    forall w | Waits(s.queues, w) && LiveAt(w, s.now) && w.job.profile == q.head.job.profile
      ensures q.head.job.serial <= w.job.serial
    {
      WaitsLive(s, w);
      QueueOf(s1, n, w, ac);
      InAscending(w, q, ac, -1, n);
    }
  }

  lemma FirstIsFront(s: State, n: int, p: Waiting) returns (ac: Ac)
    requires Arranged(s, n) && FirstOfProfile(s, p)
    ensures Get(DropExpired(s).queues, ac).Front? && Get(DropExpired(s).queues, ac).head == p
  {
    var s1 := DropExpired(s);
    DropArranged(s, n);
    WaitsLive(s, p);
    WaitsSomewhere(s1.queues, p);
    ac :| InQueue(p, Get(s1.queues, ac));
    var q := Get(s1.queues, ac);
    InAscending(p, q, ac, -1, n);
    if p != q.head {
      HeadWaits(s1, n, ac);
      WaitsLive(s, q.head);
      QueueOf(s1, n, p, ac);
      SameProfile(q.head.job.profile, p.job.profile);
    }
  }

  lemma SameProfile(a: Profile, b: Profile)
    ensures Level(a) == Level(b) <==> a == b
  {
  }

  /** `p` has the least delay of all that are the first of their profile, and the most urgent profile
      of those with that delay. */
  ghost predicate Next(trc: Throttle, s: State, p: Waiting) {
    && FirstOfProfile(s, p) && Delay(trc, s, p) < MAX_DELAY
    && forall r :: FirstOfProfile(s, r) ==>
         && Delay(trc, s, p) <= Delay(trc, s, r)
         && (Delay(trc, s, p) == Delay(trc, s, r) ==> Level(p.job.profile) <= Level(r.job.profile))
  }

  lemma ChosenIsNext(trc: Throttle, s: State, n: int, best: Ac)
    requires Arranged(s, n)
    requires NextQueue(trc, s.notices, s.now, DropExpired(s).queues) == Some(best)
    ensures Next(trc, s, Get(DropExpired(s).queues, best).head)
  {
    var qs := DropExpired(s).queues;
    var p := Get(qs, best).head;
    FrontIsFirst(s, n, best);
    NextQueueBest(trc, s.notices, s.now, qs, best);
    forall r | FirstOfProfile(s, r)
      ensures Delay(trc, s, p) <= Delay(trc, s, r)
      ensures Delay(trc, s, p) == Delay(trc, s, r) ==> Level(p.job.profile) <= Level(r.job.profile)
    {
      var ac := FirstIsFront(s, n, r);
      FrontIsFirst(s, n, ac);
      NextQueueBest(trc, s.notices, s.now, qs, ac);
    }
  }

  lemma NoneIsNext(trc: Throttle, s: State, n: int, r: Waiting)
    requires Arranged(s, n) && FirstOfProfile(s, r)
    requires NextQueue(trc, s.notices, s.now, DropExpired(s).queues).None?
    ensures Delay(trc, s, r) >= MAX_DELAY
  {
    var ac := FirstIsFront(s, n, r);
    NextQueueBest(trc, s.notices, s.now, DropExpired(s).queues, ac);
  }

  lemma SomeNext(trc: Throttle, s: State, n: int)
    requires Arranged(s, n)
    ensures (exists p :: Next(trc, s, p)) <==> exists r :: FirstOfProfile(s, r) && Delay(trc, s, r) < MAX_DELAY
  {
    match NextQueue(trc, s.notices, s.now, DropExpired(s).queues)
    case None =>
      forall r | FirstOfProfile(s, r) ensures Delay(trc, s, r) >= MAX_DELAY {
        NoneIsNext(trc, s, n, r);
      }
    case Some(best) => ChosenIsNext(trc, s, n, best);
  }

  lemma TriggerSendsNext(trc: Throttle, s: State, n: int, x: Outcome)
    requires Arranged(s, n)
    ensures x in TriggerOutcomes(trc, s) && x.Sent? <==>
      exists p :: Next(trc, s, p) && x == Sent(p.job, s.now, true, p.expiry)
  {
    var qs := DropExpired(s).queues;
    StaleDrops(s.queues, s.now);
    match NextQueue(trc, s.notices, s.now, qs)
    case None =>
      forall p | FirstOfProfile(s, p) ensures !Next(trc, s, p) {
        NoneIsNext(trc, s, n, p);
      }
    case Some(best) =>
      var chosen := Get(qs, best).head;
      ChosenIsNext(trc, s, n, best);
      forall p | Next(trc, s, p) ensures p == chosen {
        OneNext(trc, s, n, p, best);
      }
  }

  lemma OneNext(trc: Throttle, s: State, n: int, p: Waiting, best: Ac)
    requires Arranged(s, n) && Next(trc, s, p)
    requires NextQueue(trc, s.notices, s.now, DropExpired(s).queues) == Some(best)
    ensures p == Get(DropExpired(s).queues, best).head
  {
    ChosenIsNext(trc, s, n, best);
    FrontIsFirst(s, n, best);
    var ac := FirstIsFront(s, n, p);
    FrontIsFirst(s, n, ac);
    OneRank(ac, best);
  }

  /** In every run a due trigger sends exactly the packet with the least delay of those that are first
      of their profile, the most urgent of them if there are several; and none exactly if all of them
      are delayed indefinitely. */
  lemma TriggerSendsIff(trc: Throttle, start: int, ops: seq<Op>, x: Outcome)
    ensures
      var t := Run(trc, Initial(start), ops);
      TriggerDue(t.state) ==>
        && (x in Outcomes(trc, t.state, Fire, t.requested) && x.Sent? <==>
              exists p :: Next(trc, t.state, p) && x == Sent(p.job, t.state.now, true, p.expiry))
        && ((exists p :: Next(trc, t.state, p)) <==>
              exists r :: FirstOfProfile(t.state, r) && Delay(trc, t.state, r) < MAX_DELAY)
  {
    var t := Run(trc, Initial(start), ops);
    RunArranged(trc, start, ops);
    SomeNext(trc, t.state, t.requested);
    TriggerSendsNext(trc, t.state, t.requested, x);
  }

  // ----- only what was requested

  datatype Asked = Asked(job: Job, at: int)

  /** The requests of a run, with the time of each. */
  function AskedFor(now: int, n: nat, ops: seq<Op>): seq<Asked>
    decreases |ops|
  {
    if ops == [] then []
    else
      match ops[0]
      case Advance(d) => AskedFor(now + d, n, ops[1..])
      case Request(profile, size, lifetime) =>
        [Asked(Job(n, profile, size, lifetime), now)] + AskedFor(now, n + 1, ops[1..])
      case _ => AskedFor(now, n, ops[1..])
  }

  /** Requested, with a lifetime up to `expiry`. */
  predicate Genuine(asked: seq<Asked>, job: Job, expiry: int) {
    && job.serial < |asked| && asked[job.serial].job == job
    && expiry == asked[job.serial].at + job.lifetime
  }

  predicate GenuineOutcome(asked: seq<Asked>, x: Outcome) {
    match x
    case Sent(job, _, _, expiry) => Genuine(asked, job, expiry)
    case Expired(job, _, expiry) => Genuine(asked, job, expiry)
    case Overflowed(job, _) => job.serial < |asked| && asked[job.serial].job == job
  }

  ghost predicate AllGenuine(t: Trace, asked: seq<Asked>) {
    && |asked| == t.requested
    && (forall p :: Waits(t.state.queues, p) ==> Genuine(asked, p.job, p.expiry))
    && (forall x :: x in t.log ==> GenuineOutcome(asked, x))
  }

  /** The packet of a request. */
  function Requested(s: State, op: Op, serial: nat): Waiting
    requires op.Request?
  {
    Waiting(Job(serial, op.profile, op.size, op.lifetime), s.now + op.lifetime)
  }

  lemma InPut(qs: Queues, ac: Ac, q: Queue, p: Waiting)
    ensures Waits(Put(qs, ac, q), p) ==> Waits(qs, p) || InQueue(p, q)
  {
  }

  lemma InGet(qs: Queues, ac: Ac, p: Waiting)
    ensures InQueue(p, Get(qs, ac)) ==> Waits(qs, p)
  {
  }

  lemma DequeueWaits(trc: Throttle, s: State, p: Waiting)
    ensures Waits(Dequeue(trc, s).queues, p) ==> Waits(s.queues, p)
  {
    match NextQueue(trc, s.notices, s.now, s.queues)
    case None =>
    case Some(ac) =>
      InPut(s.queues, ac, Get(s.queues, ac).tail, p);
      InGet(s.queues, ac, p);
  }

  lemma EnqueueWaits(trc: Throttle, s: State, job: Job, p: Waiting)
    ensures Waits(EnqueueJob(trc, s, job).queues, p) ==>
      Waits(s.queues, p) || p == Waiting(job, s.now + job.lifetime)
  {
    var ac, w := MapProfile(job.profile), Waiting(job, s.now + job.lifetime);
    var q := Trim(Get(s.queues, ac), s.limit);
    InPush(p, q, w);
    InTrim(p, Get(s.queues, ac), s.limit);
    InGet(s.queues, ac, p);
    InPut(s.queues, ac, Push(q, w), p);
  }

  lemma ScheduleQueues(trc: Throttle, s: State)
    ensures ScheduleNext(trc, s).queues == s.queues
  {
  }

  /** Whatever is queued after a step was queued before or has just been requested. */
  lemma WaitsBefore(trc: Throttle, s: State, op: Op, serial: nat, p: Waiting)
    requires Waits(Step(trc, s, op, serial).queues, p)
    ensures Waits(s.queues, p) || (op.Request? && p == Requested(s, op, serial))
  {
    WaitsLive(s, p);
    match op
    case Request(profile, size, lifetime) =>
      EnqueueWaits(trc, DropExpired(s), Job(serial, profile, size, lifetime), p);
    case Fire =>
      if TriggerDue(s) {
        var s1 := s.(triggers := s.triggers[1..]);
        WaitsLive(s1, p);
        DequeueWaits(trc, DropExpired(s1), p);
        ScheduleQueues(trc, Dequeue(trc, DropExpired(s1)));
      }
    case Reschedule => ScheduleQueues(trc, s.(triggers := []));
    case Advance(_) =>
    case SetLimit(_) =>
  }

  /** The outcome is about a packet of the queue. */
  predicate AboutQueued(x: Outcome, q: Queue, p: Waiting) {
    InQueue(p, q) && x.job == p.job && (!x.Overflowed? ==> x.expiry == p.expiry)
  }

  lemma {:induction false} StaleWas(q: Queue, now: int, x: Outcome) returns (p: Waiting)
    requires x in Stale(q, now)
    ensures AboutQueued(x, q, p) && x.at == now
  {
    p := q.head;
    if q.head.expiry >= now || x != Expired(q.head.job, now, q.head.expiry) {
      p := StaleWas(q.tail, now, x);
    }
  }

  lemma {:induction false} TrimmedWas(q: Queue, limit: nat, now: int, x: Outcome) returns (p: Waiting)
    requires x in Trimmed(q, limit, now)
    ensures AboutQueued(x, q, p) && x.at == now
  {
    p := q.head;
    if x != Overflowed(q.head.job, now) {
      p := TrimmedWas(q.tail, limit, now, x);
    }
  }

  predicate About(x: Outcome, qs: Queues, p: Waiting) {
    Waits(qs, p) && x.job == p.job && (!x.Overflowed? ==> x.expiry == p.expiry)
  }

  lemma AllStaleWas(qs: Queues, now: int, x: Outcome) returns (p: Waiting)
    requires x in AllStale(qs, now)
    ensures About(x, qs, p) && x.at == now
  {
    if x in Stale(qs.vo, now) {
      p := StaleWas(qs.vo, now, x);
    } else if x in Stale(qs.vi, now) {
      p := StaleWas(qs.vi, now, x);
    } else if x in Stale(qs.be, now) {
      p := StaleWas(qs.be, now, x);
    } else {
      p := StaleWas(qs.bk, now, x);
    }
  }

  /** Whatever a step sends or drops, then and there, was queued, or has just been requested and is sent
      at once. */
  lemma OutcomeWas(trc: Throttle, s: State, op: Op, serial: nat, x: Outcome) returns (p: Waiting)
    requires x in Outcomes(trc, s, op, serial)
    ensures
      || About(x, s.queues, p)
      || (op.Request? && p == Requested(s, op, serial) && x == Sent(p.job, s.now, false, p.expiry))
    ensures x.at == s.now
  {
    if x in AllStale(s.queues, s.now) {
      p := AllStaleWas(s.queues, s.now, x);
    } else if op.Request? {
      var job, s1 := Job(serial, op.profile, op.size, op.lifetime), DropExpired(s);
      p := Requested(s, op, serial);
      if !TransmitImmediately(trc, s1, Tx(op.profile, op.size, false)) {
        var ac := MapProfile(job.profile);
        p := TrimmedWas(Get(s1.queues, ac), s.limit, s.now, x);
        InGet(s1.queues, ac, p);
        WaitsLive(s, p);
      }
    } else {
      var s1 := DropExpired(s.(triggers := s.triggers[1..]));
      var ac := NextQueue(trc, s1.notices, s1.now, s1.queues).value;
      p := Get(s1.queues, ac).head;
      assert InQueue(p, Get(s1.queues, ac));
      InGet(s1.queues, ac, p);
      WaitsLive(s, p);
    }
  }

  function AskedBy(s: State, op: Op, n: nat): seq<Asked> {
    if op.Request? then [Asked(Job(n, op.profile, op.size, op.lifetime), s.now)] else []
  }

  lemma StepGenuine(trc: Throttle, t: Trace, op: Op, asked: seq<Asked>)
    requires AllGenuine(t, asked)
    ensures AllGenuine(Extend(trc, t, op), asked + AskedBy(t.state, op, t.requested))
  {
    var t', more := Extend(trc, t, op), asked + AskedBy(t.state, op, t.requested);
    forall p | Waits(t'.state.queues, p) ensures Genuine(more, p.job, p.expiry) {
      WaitsBefore(trc, t.state, op, t.requested, p);
      assert Waits(t.state.queues, p) ==> Genuine(asked, p.job, p.expiry);
    }
    forall x | x in t'.log ensures GenuineOutcome(more, x) {
      if x !in t.log {
        var p := OutcomeWas(trc, t.state, op, t.requested, x);
        assert Waits(t.state.queues, p) ==> Genuine(asked, p.job, p.expiry);
      } else {
        assert GenuineOutcome(asked, x);
      }
    }
  }

  lemma StepTime(trc: Throttle, s: State, op: Op, serial: nat)
    ensures Step(trc, s, op, serial).now == if op.Advance? then s.now + op.d else s.now
  {
  }

  lemma {:induction false} StaysGenuine(trc: Throttle, t: Trace, ops: seq<Op>, asked: seq<Asked>)
    requires AllGenuine(t, asked)
    ensures AllGenuine(Run(trc, t, ops), asked + AskedFor(t.state.now, t.requested, ops))
    decreases |ops|
  {
    if ops == [] {
      assert asked + [] == asked;
    } else {
      var added := AskedBy(t.state, ops[0], t.requested);
      var t' := Extend(trc, t, ops[0]);
      StepGenuine(trc, t, ops[0], asked);
      StepTime(trc, t.state, ops[0], t.requested);
      StaysGenuine(trc, t', ops[1..], asked + added);
      var later := AskedFor(t'.state.now, t'.requested, ops[1..]);
      assert AskedFor(t.state.now, t.requested, ops) == added + later;
      assert asked + added + later == asked + (added + later);
    }
  }

  /** In every run whatever is queued, sent, expired or overflowed is a packet as it was requested, and
      expires its lifetime after the time of that request. */
  lemma OnlyAsRequested(trc: Throttle, start: int, ops: seq<Op>)
    ensures AllGenuine(Run(trc, Initial(start), ops), AskedFor(start, 0, ops))
  {
    StaysGenuine(trc, Initial(start), ops, []);
    assert [] + AskedFor(start, 0, ops) == AskedFor(start, 0, ops);
  }

  /** The rate control's notice of what is sent. */
  function NoticesOf(xs: seq<Outcome>): seq<Notice> {
    if xs == [] then []
    else
      (match xs[0]
       case Sent(job, at, queued, _) => [Notice(Tx(job.profile, job.size, queued), at)]
       case Expired(_, _, _) => []
       case Overflowed(_, _) => [])
      + NoticesOf(xs[1..])
  }

  lemma {:induction false} NoticesConcat(a: seq<Outcome>, b: seq<Outcome>)
    ensures NoticesOf(a + b) == NoticesOf(a) + NoticesOf(b)
  {
    if a == [] {
      assert a + b == b;
    } else {
      assert (a + b)[0] == a[0] && (a + b)[1..] == a[1..] + b;
      NoticesConcat(a[1..], b);
      assert NoticesOf(a + b) == NoticesOf([a[0]]) + (NoticesOf(a[1..]) + NoticesOf(b)) by {
        assert [a[0]][1..] == [];
      }
      assert NoticesOf(a) == NoticesOf([a[0]]) + NoticesOf(a[1..]) by {
        assert [a[0]][1..] == [];
      }
    }
  }

  lemma {:induction false} DropsUnnoticed(xs: seq<Outcome>)
    requires forall x :: x in xs ==> !x.Sent?
    ensures NoticesOf(xs) == []
  {
    if xs != [] {
      DropsUnnoticed(xs[1..]);
    }
  }

  lemma SentNoticed(x: Outcome)
    requires x.Sent?
    ensures NoticesOf([x]) == [Notice(Tx(x.job.profile, x.job.size, x.queued), x.at)]
  {
    assert [x][1..] == [];
  }

  lemma AcceptNoticed(trc: Throttle, s: State, job: Job)
    ensures Accept(trc, s, job).notices == s.notices + NoticesOf(AcceptOutcomes(trc, s, job))
  {
    if TransmitImmediately(trc, s, Tx(job.profile, job.size, false)) {
      SentNoticed(Sent(job, s.now, false, s.now + job.lifetime));
    } else {
      OnlyDrops(Get(s.queues, MapProfile(job.profile)), s.limit, s.now);
      DropsUnnoticed(AcceptOutcomes(trc, s, job));
    }
  }

  lemma DequeueNoticed(trc: Throttle, s: State)
    ensures Dequeue(trc, s).notices == s.notices + NoticesOf(DequeueOutcomes(trc, s))
  {
    match NextQueue(trc, s.notices, s.now, s.queues)
    case None =>
    case Some(ac) =>
      var p := Get(s.queues, ac).head;
      SentNoticed(Sent(p.job, s.now, true, p.expiry));
  }

  lemma ScheduleUnnoticed(trc: Throttle, s: State)
    ensures ScheduleNext(trc, s).notices == s.notices
  {
  }

  lemma StepNoticed(trc: Throttle, s: State, op: Op, serial: nat)
    ensures Step(trc, s, op, serial).notices == s.notices + NoticesOf(Outcomes(trc, s, op, serial))
  {
    StaleDrops(s.queues, s.now);
    DropsUnnoticed(AllStale(s.queues, s.now));
    match op
    case Request(profile, size, lifetime) =>
      var job := Job(serial, profile, size, lifetime);
      AcceptNoticed(trc, DropExpired(s), job);
      NoticesConcat(AllStale(s.queues, s.now), AcceptOutcomes(trc, DropExpired(s), job));
    case Fire =>
      if TriggerDue(s) {
        var s1 := DropExpired(s.(triggers := s.triggers[1..]));
        DequeueNoticed(trc, s1);
        ScheduleUnnoticed(trc, Dequeue(trc, s1));
        NoticesConcat(AllStale(s.queues, s.now), DequeueOutcomes(trc, s1));
      }
    case Reschedule => ScheduleUnnoticed(trc, s.(triggers := []));
    case Advance(_) =>
    case SetLimit(_) =>
  }

  /** In every run the rate control is notified of exactly what is sent, in order and when it is sent. */
  lemma {:induction false} NotifiedOfSent(trc: Throttle, t: Trace, ops: seq<Op>)
    requires t.state.notices == NoticesOf(t.log)
    ensures Run(trc, t, ops).state.notices == NoticesOf(Run(trc, t, ops).log)
    decreases |ops|
  {
    if ops != [] {
      StepNoticed(trc, t.state, ops[0], t.requested);
      NoticesConcat(t.log, Outcomes(trc, t.state, ops[0], t.requested));
      NotifiedOfSent(trc, Extend(trc, t, ops[0]), ops[1..]);
    }
  }

  // ----- hooks, overflow, rescheduling

  /** Every outcome is reported once, in order: what is sent to the transmit hook and what is dropped
      to the drop hook, with the category of its profile. */
  lemma {:induction false} HooksByKind(xs: seq<Outcome>, arriving: nat, i: nat)
    requires i < |xs|
    ensures
      var h := Hooks(xs, arriving);
      && |h| == |xs|
      && (h[i].TransmitHook? <==> xs[i].Sent?)
      && Rank(h[i].ac) == Level(xs[i].job.profile)
      && h[i].serial == if xs[i].Overflowed? then arriving else xs[i].job.serial
  {
    LevelIsRank(xs[i].job.profile);
    if i > 0 {
      HooksByKind(xs[1..], arriving, i - 1);
    } else if |xs| > 1 {
      HooksByKind(xs[1..], arriving, 0);
    } else {
      assert Hooks(xs[1..], arriving) == [];
    }
  }

  lemma {:induction false} TrimmedCount(q: Queue, limit: nat, now: int)
    ensures |Trimmed(q, limit, now)| == if limit == 0 then 0 else Max(0, Size(q) - (limit - 1))
    ensures Size(Trim(q, limit)) == Size(q) - |Trimmed(q, limit, now)|
  {
    if q.Front? {
      TrimmedCount(q.tail, limit, now);
    }
  }

  lemma AcceptDrops(trc: Throttle, s: State, job: Job)
    requires !TransmitImmediately(trc, s, Tx(job.profile, job.size, false))
    ensures
      var ac := MapProfile(job.profile);
      && AcceptOutcomes(trc, s, job) == Trimmed(Get(s.queues, ac), s.limit, s.now)
      && Get(Accept(trc, s, job).queues, ac)
        == Push(Trim(Get(s.queues, ac), s.limit), Waiting(job, s.now + job.lifetime))
  {
  }

  /** A request that is not sent at once drops no more than needed to stay within the limit. */
  lemma OverflowsExactly(trc: Throttle, s: State, job: Job)
    requires !TransmitImmediately(trc, DropExpired(s), Tx(job.profile, job.size, false))
    ensures
      var waiting := Size(Live(Get(s.queues, MapProfile(job.profile)), s.now));
      && |AcceptOutcomes(trc, DropExpired(s), job)| == (if s.limit == 0 then 0 else Max(0, waiting - (s.limit - 1)))
      && Size(Get(RequestJob(trc, s, job).queues, MapProfile(job.profile)))
          == 1 + if s.limit == 0 then waiting else Min(waiting, s.limit - 1)
  {
    var ac := MapProfile(job.profile);
    var q := Get(DropExpired(s).queues, ac);
    AcceptDrops(trc, DropExpired(s), job);
    TrimmedCount(q, s.limit, s.now);
    SizeParts(Trim(q, s.limit), s.limit, s.now, Waiting(job, s.now + job.lifetime));
  }

  /** Delay of a queue's front, if it is not empty. */
  function FrontDelay(trc: Throttle, s: State, ac: Ac): Option<int> {
    var q := Get(s.queues, ac);
    if q.Empty? then None else Some(HeadDelay(trc, s.notices, s.now, q))
  }

  predicate AllIndefinite(trc: Throttle, s: State) {
    forall ac :: FrontDelay(trc, s, ac).Some? ==> FrontDelay(trc, s, ac).value >= MAX_DELAY
  }

  /** The least delay of all that is at the front of a queue. */
  predicate IsLeast(trc: Throttle, s: State, d: int) {
    && (exists ac :: FrontDelay(trc, s, ac) == Some(d))
    && (forall ac :: FrontDelay(trc, s, ac).Some? ==> d <= FrontDelay(trc, s, ac).value)
  }

  lemma LeastChosen(trc: Throttle, s: State)
    ensures match NextQueue(trc, s.notices, s.now, s.queues)
      case None => AllIndefinite(trc, s)
      case Some(best) =>
        var d := FrontDelay(trc, s, best); !AllIndefinite(trc, s) && d.Some? && IsLeast(trc, s, d.value)
  {
    var chosen := NextQueue(trc, s.notices, s.now, s.queues);
    if chosen.Some? {
      NextQueueBest(trc, s.notices, s.now, s.queues, chosen.value);
      assert FrontDelay(trc, s, chosen.value).value < MAX_DELAY;
    }
    forall ac | FrontDelay(trc, s, ac).Some?
      ensures match chosen
        case None => FrontDelay(trc, s, ac).value >= MAX_DELAY
        case Some(best) => FrontDelay(trc, s, best).value <= FrontDelay(trc, s, ac).value
    {
      NextQueueBest(trc, s.notices, s.now, s.queues, ac);
    }
  }

  lemma RescheduledFor(trc: Throttle, s: State, best: Ac)
    requires NextQueue(trc, s.notices, s.now, s.queues) == Some(best)
    ensures RescheduleAll(trc, s) == s.(triggers := [s.now + HeadDelay(trc, s.notices, s.now, Get(s.queues, best))])
  {
  }

  /** Rescheduling leaves one trigger pending, after the least delay of all that is at the front of a
      queue; and changes nothing if all of them are delayed indefinitely. */
  lemma ReschedulesExactly(trc: Throttle, s: State)
    ensures
      var s' := Step(trc, s, Reschedule, 0);
      if AllIndefinite(trc, s) then s' == s
      else exists d :: IsLeast(trc, s, d) && s' == s.(triggers := [s.now + d])
  {
    LeastChosen(trc, s);
    match NextQueue(trc, s.notices, s.now, s.queues)
    case None =>
    case Some(best) =>
      RescheduledFor(trc, s, best);
      assert IsLeast(trc, s, FrontDelay(trc, s, best).value);
  }
}
