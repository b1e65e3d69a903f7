/** The gatekeeper as it is stored: a map from access category to packet list, triggers held by
    the runtime, and the rate control it asks and notifies. */
module FlowControls {
  import opened Collections
  import opened Runtimes
  import opened FlowModel

  type Lists = map<Ac, seq<Waiting>>

  /** Iteration order of the queue map: descending priority. */
  const ORDER: seq<Ac> := [VO, VI, BE, BK]

  function ListOf(queues: Lists, ac: Ac): seq<Waiting> {
    if ac in queues then queues[ac] else []
  }

  /** Every packet is in the list of its own category. */
  ghost predicate Filed(queues: Lists) {
    forall ac, p :: p in ListOf(queues, ac) ==> MapProfile(p.job.profile) == ac
  }

  function ToQueue(s: seq<Waiting>): Queue {
    if s == [] then Empty else Front(s[0], ToQueue(s[1..]))
  }

  function ToQueues(queues: Lists): Queues {
    Queues(ToQueue(ListOf(queues, VO)), ToQueue(ListOf(queues, VI)),
      ToQueue(ListOf(queues, BE)), ToQueue(ListOf(queues, BK)))
  }

  lemma {:induction false} ToQueuePush(s: seq<Waiting>, p: Waiting)
    ensures ToQueue(s + [p]) == Push(ToQueue(s), p)
  {
    if s == [] {
      assert ToQueue([p]) == Front(p, ToQueue([p][1..]));
    } else {
      assert (s + [p])[1..] == s[1..] + [p];
      ToQueuePush(s[1..], p);
    }
  }

  lemma {:induction false} ToQueueSize(s: seq<Waiting>)
    ensures Size(ToQueue(s)) == |s|
  {
    if s != [] {
      ToQueueSize(s[1..]);
    }
  }

  lemma ToQueuesUpdate(queues: Lists, ac: Ac, s: seq<Waiting>)
    ensures ToQueues(queues[ac := s]) == Put(ToQueues(queues), ac, ToQueue(s))
    ensures forall a :: Get(ToQueues(queues), a) == ToQueue(ListOf(queues, a))
  {
  }

  lemma FiledUpdate(queues: Lists, ac: Ac, s: seq<Waiting>)
    requires Filed(queues) && forall p :: p in s ==> MapProfile(p.job.profile) == ac
    ensures Filed(queues[ac := s])
  {
    var updated := queues[ac := s];
    assert forall a :: a != ac ==> ListOf(updated, a) == ListOf(queues, a);
    assert ListOf(updated, ac) == s;
  }

  function Chain(a: Queue, b: Queue): Queue {
    if a.Empty? then b else Front(a.head, Chain(a.tail, b))
  }

  lemma {:induction false} ChainPush(a: Queue, p: Waiting, b: Queue)
    ensures Chain(Push(a, p), b) == Chain(a, Front(p, b))
  {
    if a.Front? {
      ChainPush(a.tail, p, b);
    }
  }

  lemma {:induction false} ChainEmpty(a: Queue)
    ensures Chain(a, Empty) == a
  {
    if a.Front? {
      ChainEmpty(a.tail);
    }
  }

  lemma {:induction false} HooksConcat(a: seq<Outcome>, b: seq<Outcome>, arriving: nat)
    ensures Hooks(a + b, arriving) == Hooks(a, arriving) + Hooks(b, arriving)
  {
    if a == [] {
      assert a + b == b;
    } else {
      assert (a + b)[1..] == a[1..] + b;
      HooksConcat(a[1..], b, arriving);
    }
  }

  /** Queue after the first i categories have been considered. */
  function Best(trc: Throttle, notices: seq<Notice>, now: int, qs: Queues, i: nat): (best: Option<Ac>)
    requires i <= 4
    ensures best.Some? ==> Get(qs, best.value).Front?
  {
    if i == 0 then None else Better(trc, notices, now, qs, Best(trc, notices, now, qs, i - 1), ORDER[i - 1])
  }

  lemma BestIsNext(trc: Throttle, notices: seq<Notice>, now: int, qs: Queues)
    ensures Best(trc, notices, now, qs, 4) == NextQueue(trc, notices, now, qs)
  {
    assert Best(trc, notices, now, qs, 2) == Better(trc, notices, now, qs, Best(trc, notices, now, qs, 1), VI);
    assert Best(trc, notices, now, qs, 1) == Better(trc, notices, now, qs, None, VO);
  }

  function SentJobs(xs: seq<Outcome>): seq<Job> {
    if xs == [] then [] else SentJob(xs[0]) + SentJobs(xs[1..])
  }

  function SentJob(x: Outcome): seq<Job> {
    if x.Sent? then [x.job] else []
  }

  lemma {:induction false} SentJobsConcat(a: seq<Outcome>, b: seq<Outcome>)
    ensures SentJobs(a + b) == SentJobs(a) + SentJobs(b)
  {
    if a == [] {
      assert a + b == b;
    } else {
      assert (a + b)[0] == a[0] && (a + b)[1..] == a[1..] + b;
      SentJobsConcat(a[1..], b);
      assert SentJobs(a + b) == SentJob(a[0]) + (SentJobs(a[1..]) + SentJobs(b));
    }
  }

  /** What is handed to the access layer: the jobs of what is sent, in order. */
  lemma {:induction false} AccessedIffSent(xs: seq<Outcome>, i: nat) returns (k: nat)
    requires i < |xs| && xs[i].Sent?
    ensures k < |SentJobs(xs)| && SentJobs(xs)[k] == xs[i].job && k == |SentJobs(xs[..i])|
  {
    if i == 0 {
      k := 0;
    } else {
      var j := AccessedIffSent(xs[1..], i - 1);
      assert xs[..i][1..] == xs[1..][..i - 1] && xs[..i][0] == xs[0];
      k := |SentJob(xs[0])| + j;
    }
  }

  lemma {:induction false} DropsSendNothing(q: Queue, limit: nat, now: int)
    ensures SentJobs(Stale(q, now)) == [] && SentJobs(Trimmed(q, limit, now)) == []
  {
    if q.Front? {
      DropsSendNothing(q.tail, limit, now);
      if q.head.expiry < now {
        assert Stale(q, now)[1..] == Stale(q.tail, now);
      }
      if limit > 0 && Size(q) >= limit {
        assert Trimmed(q, limit, now)[1..] == Trimmed(q.tail, limit, now);
      }
    }
  }

  lemma StaleSendsNothing(qs: Queues, now: int)
    ensures SentJobs(AllStale(qs, now)) == []
  {
    DropsSendNothing(qs.vo, 0, now);
    DropsSendNothing(qs.vi, 0, now);
    DropsSendNothing(qs.be, 0, now);
    DropsSendNothing(qs.bk, 0, now);
    SentJobsConcat(Stale(qs.vo, now), Stale(qs.vi, now));
    SentJobsConcat(Stale(qs.vo, now) + Stale(qs.vi, now), Stale(qs.be, now));
    SentJobsConcat(Stale(qs.vo, now) + Stale(qs.vi, now) + Stale(qs.be, now), Stale(qs.bk, now));
  }

  /** Queues and drops after the first i categories have been cleared of expired packets. */
  function LiveUpTo(qs: Queues, now: int, i: nat): Queues
    requires i <= 4
  {
    Queues(if i > 0 then Live(qs.vo, now) else qs.vo, if i > 1 then Live(qs.vi, now) else qs.vi,
      if i > 2 then Live(qs.be, now) else qs.be, if i > 3 then Live(qs.bk, now) else qs.bk)
  }

  function StaleUpTo(qs: Queues, now: int, i: nat): seq<Outcome>
    requires i <= 4
  {
    if i == 0 then [] else StaleUpTo(qs, now, i - 1) + Stale(Get(qs, ORDER[i - 1]), now)
  }

  lemma StaleUpToAll(qs: Queues, now: int)
    ensures StaleUpTo(qs, now, 4) == AllStale(qs, now)
  {
    assert StaleUpTo(qs, now, 1) == Stale(qs.vo, now);
    assert StaleUpTo(qs, now, 2) == Stale(qs.vo, now) + Stale(qs.vi, now);
    assert StaleUpTo(qs, now, 3) == Stale(qs.vo, now) + Stale(qs.vi, now) + Stale(qs.be, now);
  }

  lemma LiveUpToStep(qs: Queues, now: int, i: nat)
    requires i < 4
    ensures LiveUpTo(qs, now, i + 1) == Put(LiveUpTo(qs, now, i), ORDER[i], Live(Get(qs, ORDER[i]), now))
    ensures Get(LiveUpTo(qs, now, i), ORDER[i]) == Get(qs, ORDER[i])
    ensures LiveUpTo(qs, now, 0) == qs && LiveUpTo(qs, now, 4) == AllLive(qs, now)
  {
  }

  lemma HooksAppend(xs: seq<Outcome>, x: Outcome, arriving: nat)
    ensures Hooks(xs + [x], arriving) == Hooks(xs, arriving) + [HookOf(x, arriving)]
  {
    HooksConcat(xs, [x], arriving);
    assert [x][1..] == [];
  }

  /** Progress of removing expired packets: the first i are sorted into kept and dropped. */
  ghost predicate Clearing(list: seq<Waiting>, i: nat, now: int, kept: seq<Waiting>, dropped: seq<Outcome>)
    requires i <= |list|
  {
    && (forall p :: p in kept ==> p in list)
    && Chain(ToQueue(kept), Live(ToQueue(list[i..]), now)) == Live(ToQueue(list), now)
    && dropped + Stale(ToQueue(list[i..]), now) == Stale(ToQueue(list), now)
  }

  lemma ClearStep(list: seq<Waiting>, i: nat, now: int, kept: seq<Waiting>, dropped: seq<Outcome>)
    requires i < |list| && Clearing(list, i, now, kept, dropped)
    ensures
      if list[i].expiry < now
      then Clearing(list, i + 1, now, kept, dropped + [Expired(list[i].job, now, list[i].expiry)])
      else Clearing(list, i + 1, now, kept + [list[i]], dropped)
  {
    var p, rest := list[i], ToQueue(list[i + 1..]);
    assert list[i..][1..] == list[i + 1..] && p in list;
    if p.expiry < now {
      var x := Expired(p.job, now, p.expiry);
      assert dropped + ([x] + Stale(rest, now)) == (dropped + [x]) + Stale(rest, now);
    } else {
      ToQueuePush(kept, p);
      ChainPush(ToQueue(kept), p, Live(rest, now));
    }
  }

  lemma ClearDone(list: seq<Waiting>, now: int, kept: seq<Waiting>, dropped: seq<Outcome>)
    requires Clearing(list, |list|, now, kept, dropped)
    ensures ToQueue(kept) == Live(ToQueue(list), now) && dropped == Stale(ToQueue(list), now)
    ensures forall p :: p in kept ==> p in list
  {
    assert list[|list|..] == [];
    ChainEmpty(ToQueue(kept));
  }

  /** With `dropped` already gone, trimming what is left completes trimming the whole list. */
  ghost predicate Trimming(list: seq<Waiting>, limit: nat, now: int, dropped: seq<Outcome>, whole: seq<Waiting>) {
    && (forall p :: p in list ==> p in whole)
    && Trim(ToQueue(list), limit) == Trim(ToQueue(whole), limit)
    && dropped + Trimmed(ToQueue(list), limit, now) == Trimmed(ToQueue(whole), limit, now)
  }

  lemma TrimStart(whole: seq<Waiting>, limit: nat, now: int)
    ensures Trimming(whole, limit, now, [], whole)
  {
    var all := Trimmed(ToQueue(whole), limit, now);
    assert [] + all == all;
  }

  lemma TrimStep(list: seq<Waiting>, limit: nat, now: int, dropped: seq<Outcome>, whole: seq<Waiting>)
    requires Trimming(list, limit, now, dropped, whole) && 0 < limit <= |list|
    ensures Trimming(list[1..], limit, now, dropped + [Overflowed(list[0].job, now)], whole)
  {
    ToQueueSize(list);
  }

  lemma TrimDone(queues: Lists, ac: Ac, list: seq<Waiting>, limit: nat, now: int, dropped: seq<Outcome>)
    requires Filed(queues) && (limit == 0 || |list| < limit)
    requires Trimming(list, limit, now, dropped, ListOf(queues, ac))
    ensures Filed(queues[ac := list])
    ensures ToQueues(queues[ac := list]) == Put(ToQueues(queues), ac, Trim(ToQueue(ListOf(queues, ac)), limit))
    ensures dropped == Trimmed(ToQueue(ListOf(queues, ac)), limit, now)
  {
    ToQueueSize(list);
    assert dropped + [] == dropped;
    ToQueuesUpdate(queues, ac, list);
    FiledUpdate(queues, ac, list);
  }

  /** The rate control: its verdict depends on what it was notified about. */
  class TransmitRateControl {
    const throttle: Throttle
    var notices: seq<Notice>

    constructor (throttle: Throttle)
      ensures this.throttle == throttle && notices == []
    {
      this.throttle, notices := throttle, [];
    }

    function Delay(now: int, tx: Tx): int
      reads this
    {
      throttle(notices, now, tx)
    }

    method Notify(tx: Tx, now: int)
      modifies this
      ensures notices == old(notices) + [Notice(tx, now)]
    {
      notices := notices + [Notice(tx, now)];
    }
  }

  /** The runtime's queue after scheduling a trigger, and the state that it shows. */
  lemma TriggerPending(trc: Throttle, q: seq<Event>, scope: nat, s: State, p: Waiting, delay: int)
    requires Ordered(q) && s.triggers == Pending(q, scope) && delay == trc(s.notices, s.now, TxOf(p))
    ensures
      var q' := Enqueue(q, Event(s.now + delay, scope, scope));
      && Ordered(q') && OthersUntouched(q, q', scope)
      && ScheduleFor(trc, s, p) == s.(triggers := Pending(q', scope))
  {
    EnqueuePending(q, Event(s.now + delay, scope, scope));
  }

  lemma EnqueueParts(trc: Throttle, s: State, job: Job, s1: State)
    requires
      var ac, p := MapProfile(job.profile), Waiting(job, s.now + job.lifetime);
      s1 == s.(queues := Put(s.queues, ac, Push(Trim(Get(s.queues, ac), s.limit), p)))
    ensures EnqueueJob(trc, s, job) ==
      if NoneQueued(s.queues) then ScheduleFor(trc, s1, Waiting(job, s.now + job.lifetime)) else s1
  {
  }

  class FlowControl {
    const runtime: ManualRuntime
    const trc: TransmitRateControl
    const scope: nat

    var queues: Lists
    var limit: nat
    var access: seq<Job> // requests handed to the access layer so far

    ghost predicate Valid()
      reads this, runtime
    {
      runtime.Valid() && scope != 0 && Filed(queues)
    }

    ghost function View(): State
      reads this, runtime, trc
    {
      State(runtime.now, ToQueues(queues), trc.notices, Pending(runtime.queue, scope), limit)
    }

    constructor (runtime: ManualRuntime, trc: TransmitRateControl, scope: nat)
      requires runtime.Valid() && scope != 0 && Pending(runtime.queue, scope) == [] && trc.notices == []
      ensures this.runtime == runtime && this.trc == trc && this.scope == scope
      ensures Valid() && View() == Initial(runtime.now).state && access == []
    {
      this.runtime, this.trc, this.scope := runtime, trc, scope;
      queues, limit, access := map[], 0, [];
    }

    /** Remove the expired packets of one list, reporting each to the drop hook. */
    method RemoveExpired(ac: Ac, ghost arriving: nat) returns (ghost dropped: seq<Outcome>, hooks: seq<Hook>)
      requires Filed(queues)
      modifies this`queues
      ensures Filed(queues)
      ensures dropped == Stale(ToQueue(old(ListOf(queues, ac))), runtime.now) && hooks == Hooks(dropped, arriving)
      ensures ToQueues(queues) == Put(old(ToQueues(queues)), ac, Live(ToQueue(old(ListOf(queues, ac))), runtime.now))
    {
      var list, kept, i := ListOf(queues, ac), [], 0;
      dropped, hooks := [], [];
      while i < |list|
        invariant i <= |list| && unchanged(this`queues)
        invariant Clearing(list, i, runtime.now, kept, dropped)
        invariant hooks == Hooks(dropped, arriving)
      {
        var p := list[i];
        ClearStep(list, i, runtime.now, kept, dropped);
        if p.expiry < runtime.now {
          HooksAppend(dropped, Outcome.Expired(p.job, runtime.now, p.expiry), arriving);
          dropped := dropped + [Outcome.Expired(p.job, runtime.now, p.expiry)];
          hooks := hooks + [DropHook(ac, p.job.serial)];
        } else {
          kept := kept + [p];
        }
        i := i + 1;
      }
      ClearDone(list, runtime.now, kept, dropped);
      ToQueuesUpdate(queues, ac, kept);
      FiledUpdate(queues, ac, kept);
      queues := queues[ac := kept];
    }

    method DropAllExpired(ghost arriving: nat) returns (ghost dropped: seq<Outcome>, hooks: seq<Hook>)
      requires Valid()
      modifies this`queues
      ensures Valid() && View() == DropExpired(old(View()))
      ensures dropped == AllStale(old(View()).queues, runtime.now) && hooks == Hooks(dropped, arriving)
    {
      dropped, hooks := [], [];
      ghost var qs := ToQueues(queues);
      LiveUpToStep(qs, runtime.now, 0);
      var i := 0;
      while i < 4
        invariant i <= 4 && Filed(queues)
        invariant ToQueues(queues) == LiveUpTo(qs, runtime.now, i)
        invariant dropped == StaleUpTo(qs, runtime.now, i)
        invariant hooks == Hooks(dropped, arriving)
      {
        LiveUpToStep(qs, runtime.now, i);
        ToQueuesUpdate(queues, ORDER[i], ListOf(queues, ORDER[i]));
        ghost var more;
        var moreHooks;
        more, moreHooks := RemoveExpired(ORDER[i], arriving);
        HooksConcat(dropped, more, arriving);
        dropped, hooks := dropped + more, hooks + moreHooks;
        i := i + 1;
      }
      StaleUpToAll(qs, runtime.now);
      LiveUpToStep(qs, runtime.now, 3);
    }

    /** The non-empty queue whose head has the least delay, earlier (higher) categories winning ties. */
    method FindNext() returns (next: Option<Ac>)
      requires Valid()
      ensures next == NextQueue(trc.throttle, trc.notices, runtime.now, ToQueues(queues))
      ensures next.Some? ==> ListOf(queues, next.value) != []
    {
      next := None;
      var minDelay := MAX_DELAY;
      ghost var qs := ToQueues(queues);
      var i := 0;
      while i < 4
        invariant i <= 4
        invariant next == Best(trc.throttle, trc.notices, runtime.now, qs, i)
        invariant minDelay ==
          if next.None? then MAX_DELAY else HeadDelay(trc.throttle, trc.notices, runtime.now, Get(qs, next.value))
      {
        ToQueuesUpdate(queues, ORDER[i], []);
        var list := ListOf(queues, ORDER[i]);
        if list != [] {
          var delay := trc.Delay(runtime.now, TxOf(list[0]));
          if delay < minDelay {
            minDelay, next := delay, Some(ORDER[i]);
          }
        }
        i := i + 1;
      }
      BestIsNext(trc.throttle, trc.notices, runtime.now, qs);
      ToQueuesUpdate(queues, VO, []);
    }

    method ScheduleTrigger(p: Waiting)
      requires Valid()
      modifies runtime`queue
      ensures Valid() && View() == ScheduleFor(trc.throttle, old(View()), p)
      ensures OthersUntouched(old(runtime.queue), runtime.queue, scope)
    {
      ghost var s, q := View(), runtime.queue;
      var delay := trc.Delay(runtime.now, TxOf(p));
      TriggerPending(trc.throttle, q, scope, s, p, delay);
      runtime.ScheduleAfter(delay, scope, scope);
    }

    method ScheduleNextTrigger()
      requires Valid()
      modifies runtime`queue
      ensures Valid() && View() == ScheduleNext(trc.throttle, old(View()))
      ensures OthersUntouched(old(runtime.queue), runtime.queue, scope)
    {
      var next := FindNext();
      if next.Some? {
        ToQueuesUpdate(queues, next.value, []);
        ScheduleTrigger(ListOf(queues, next.value)[0]);
      }
    }

    predicate AllEmpty()
      reads this
    {
      forall i :: 0 <= i < 4 ==> ListOf(queues, ORDER[i]) == []
    }

    /** Is anything of the same or a higher category waiting? */
    method FindContention(ac: Ac) returns (contention: bool)
      ensures contention == Contended(ToQueues(queues), ac)
    {
      contention := false;
      var i := 0;
      while i < 4 && !contention
        invariant i <= 4
        invariant contention <==> exists j :: 0 <= j < i && Rank(ORDER[j]) <= Rank(ac) && ListOf(queues, ORDER[j]) != []
      {
        contention := Rank(ORDER[i]) <= Rank(ac) && ListOf(queues, ORDER[i]) != [];
        i := i + 1;
      }
      assert ORDER[0] == VO && ORDER[1] == VI && ORDER[2] == BE && ORDER[3] == BK;
      if !contention {
        assert forall j :: 0 <= j < 4 ==> !(Rank(ORDER[j]) <= Rank(ac) && ListOf(queues, ORDER[j]) != []);
      }
    }

    /** Drop from the front of one list until one more packet fits. */
    method Overflow(ac: Ac, arriving: nat) returns (ghost dropped: seq<Outcome>, hooks: seq<Hook>)
      requires Filed(queues)
      modifies this`queues
      ensures Filed(queues)
      ensures dropped == Trimmed(ToQueue(old(ListOf(queues, ac))), limit, runtime.now)
      ensures hooks == Hooks(dropped, arriving)
      ensures ToQueues(queues) == Put(old(ToQueues(queues)), ac, Trim(ToQueue(old(ListOf(queues, ac))), limit))
      ensures ListOf(queues, ac) == [] || ac in queues
    {
      dropped, hooks := [], [];
      var list := ListOf(queues, ac);
      ghost var whole := list;
      TrimStart(whole, limit, runtime.now);
      while limit > 0 && |list| >= limit
        invariant unchanged(this`queues) && Trimming(list, limit, runtime.now, dropped, whole)
        invariant hooks == Hooks(dropped, arriving)
        decreases |list|
      {
        TrimStep(list, limit, runtime.now, dropped, whole);
        HooksAppend(dropped, Overflowed(list[0].job, runtime.now), arriving);
        dropped := dropped + [Overflowed(list[0].job, runtime.now)];
        hooks := hooks + [DropHook(ac, arriving)];
        list := list[1..];
      }
      TrimDone(queues, ac, list, limit, runtime.now, dropped);
      queues := queues[ac := list];
    }

    /** Append to the list of the packet's category after making room. */
    method Append(p: Waiting) returns (ghost dropped: seq<Outcome>, hooks: seq<Hook>)
      requires Filed(queues)
      modifies this`queues
      ensures Filed(queues)
      ensures dropped == Trimmed(Get(old(ToQueues(queues)), MapProfile(p.job.profile)), limit, runtime.now)
      ensures hooks == Hooks(dropped, p.job.serial)
      ensures
        var ac := MapProfile(p.job.profile);
        ToQueues(queues) == Put(old(ToQueues(queues)), ac, Push(Trim(Get(old(ToQueues(queues)), ac), limit), p))
    {
      var ac := MapProfile(p.job.profile);
      ghost var qs := ToQueues(queues);
      ToQueuesUpdate(queues, ac, []);
      dropped, hooks := Overflow(ac, p.job.serial);
      var list := ListOf(queues, ac);
      ToQueuesUpdate(queues, ac, list + [p]);
      ToQueuePush(list, p);
      PutTwice(qs, ac, Trim(Get(qs, ac), limit), Push(Trim(Get(qs, ac), limit), p));
      FiledUpdate(queues, ac, list + [p]);
      queues := queues[ac := list + [p]];
    }

    /** The first packet queued brings a trigger. */
    method EnqueuePacket(job: Job) returns (ghost dropped: seq<Outcome>, hooks: seq<Hook>)
      requires Valid()
      modifies this`queues, runtime`queue
      ensures Valid() && View() == EnqueueJob(trc.throttle, old(View()), job)
      ensures dropped == Trimmed(Get(old(View()).queues, MapProfile(job.profile)), limit, runtime.now)
      ensures hooks == Hooks(dropped, job.serial)
      ensures OthersUntouched(old(runtime.queue), runtime.queue, scope)
    {
      ghost var s := View();
      NothingListed(queues);
      var firstPacket := AllEmpty();
      var p := Waiting(job, runtime.now + job.lifetime);
      dropped, hooks := Append(p);
      assert View() == s.(queues := Put(s.queues, MapProfile(job.profile),
        Push(Trim(Get(s.queues, MapProfile(job.profile)), s.limit), p)));
      ghost var s1 := View();
      EnqueueParts(trc.throttle, s, job, s1);
      if firstPacket {
        ScheduleTrigger(p);
      }
    }

    /** Transmit at once if nothing comes first and there is no delay, or enqueue. */
    method AcceptPacket(job: Job) returns (ghost out: seq<Outcome>, hooks: seq<Hook>)
      requires Valid()
      modifies this, trc, runtime`queue
      ensures Valid() && View() == Accept(trc.throttle, old(View()), job)
      ensures out == AcceptOutcomes(trc.throttle, old(View()), job) && hooks == Hooks(out, job.serial)
      ensures access == old(access) +
        if TransmitImmediately(trc.throttle, old(View()), Tx(job.profile, job.size, false)) then [job] else []
      ensures OthersUntouched(old(runtime.queue), runtime.queue, scope)
    {
      var tx := Tx(job.profile, job.size, false);
      var contention := FindContention(MapProfile(job.profile));
      if !contention && trc.Delay(runtime.now, tx) == 0 {
        trc.Notify(tx, runtime.now);
        out := [Sent(job, runtime.now, false, runtime.now + job.lifetime)];
        hooks := [TransmitHook(MapProfile(job.profile), job.serial)];
        access := access + [job];
      } else {
        out, hooks := EnqueuePacket(job);
      }
    }

    method Request(job: Job) returns (hooks: seq<Hook>)
      requires Valid()
      modifies this, trc, runtime`queue
      ensures Valid() && View() == RequestJob(trc.throttle, old(View()), job)
      ensures hooks == Hooks(RequestOutcomes(trc.throttle, old(View()), job), job.serial)
      ensures access == old(access) + SentJobs(RequestOutcomes(trc.throttle, old(View()), job))
      ensures OthersUntouched(old(runtime.queue), runtime.queue, scope)
    {
      ghost var s := View();
      ghost var stale, out;
      var moreHooks;
      stale, hooks := DropAllExpired(job.serial);
      out, moreHooks := AcceptPacket(job);
      RequestReport(trc.throttle, s, job, stale, out);
      hooks := hooks + moreHooks;
    }

    /** The runtime's callback. */
    method OnTrigger() returns (hooks: seq<Hook>)
      requires Valid()
      modifies this, trc, runtime`queue
      ensures Valid() && View() == Trigger(trc.throttle, old(View()))
      ensures hooks == Hooks(TriggerOutcomes(trc.throttle, old(View())), 0)
      ensures access == old(access) + SentJobs(TriggerOutcomes(trc.throttle, old(View())))
      ensures OthersUntouched(old(runtime.queue), runtime.queue, scope)
    {
      ghost var s := View();
      ghost var stale;
      stale, hooks := DropAllExpired(0);
      var moreHooks := TransmitNext();
      TriggerReport(trc.throttle, s);
      hooks := hooks + moreHooks;
      ScheduleNextTrigger();
    }

    /** Dequeue the next packet, if any, and transmit it. */
    method TransmitNext() returns (hooks: seq<Hook>)
      requires Valid()
      modifies this, trc
      ensures Valid() && View() == Dequeue(trc.throttle, old(View()))
      ensures hooks == Hooks(DequeueOutcomes(trc.throttle, old(View())), 0)
      ensures access == old(access) + SentJobs(DequeueOutcomes(trc.throttle, old(View())))
    {
      hooks := [];
      var next := FindNext();
      if next.Some? {
        var ac := next.value;
        var list := ListOf(queues, ac);
        var p := list[0];
        ToQueuesUpdate(queues, ac, list[1..]);
        queues := queues[ac := list[1..]];
        trc.Notify(TxOf(p), runtime.now);
        access := access + [p.job];
        hooks := [TransmitHook(MapProfile(p.job.profile), p.job.serial)];
        ghost var x := Sent(p.job, runtime.now, true, p.expiry);
        assert [x][1..] == [];
      }
    }

    method Reschedule()
      requires Valid()
      modifies runtime`queue
      ensures Valid() && View() == RescheduleAll(trc.throttle, old(View()))
      ensures OthersUntouched(old(runtime.queue), runtime.queue, scope)
    {
      var next := FindNext();
      if next.Some? {
        CancelPending(runtime.queue, scope);
        runtime.CancelScope(scope);
        ScheduleNextTrigger();
      }
    }

    method QueueLength(length: nat)
      requires Valid()
      modifies this`limit
      ensures Valid() && View() == old(View()).(limit := length)
    {
      limit := length;
    }
  }

  lemma NothingListed(queues: Lists)
    ensures NoneQueued(ToQueues(queues)) <==> forall i :: 0 <= i < 4 ==> ListOf(queues, ORDER[i]) == []
  {
    assert ORDER[0] == VO && ORDER[1] == VI && ORDER[2] == BE && ORDER[3] == BK;
  }

  lemma PutTwice(qs: Queues, ac: Ac, q: Queue, r: Queue)
    ensures Put(Put(qs, ac, q), ac, r) == Put(qs, ac, r)
    ensures Get(Put(qs, ac, q), ac) == q
  {
  }

  lemma RequestReport(trc: Throttle, s: State, job: Job, stale: seq<Outcome>, out: seq<Outcome>)
    requires stale == AllStale(s.queues, s.now) && out == AcceptOutcomes(trc, DropExpired(s), job)
    ensures Hooks(RequestOutcomes(trc, s, job), job.serial) == Hooks(stale, job.serial) + Hooks(out, job.serial)
    ensures SentJobs(RequestOutcomes(trc, s, job)) ==
      if TransmitImmediately(trc, DropExpired(s), Tx(job.profile, job.size, false)) then [job] else []
  {
    HooksConcat(stale, out, job.serial);
    SentJobsConcat(stale, out);
    StaleSendsNothing(s.queues, s.now);
    DropsSendNothing(Get(DropExpired(s).queues, MapProfile(job.profile)), s.limit, s.now);
    if out != [] {
      assert [out[0]][1..] == [];
    }
  }

  lemma TriggerReport(trc: Throttle, s: State)
    ensures Hooks(TriggerOutcomes(trc, s), 0)
      == Hooks(AllStale(s.queues, s.now), 0) + Hooks(DequeueOutcomes(trc, DropExpired(s)), 0)
    ensures SentJobs(TriggerOutcomes(trc, s)) == SentJobs(DequeueOutcomes(trc, DropExpired(s)))
  {
    HooksConcat(AllStale(s.queues, s.now), DequeueOutcomes(trc, DropExpired(s)), 0);
    SentJobsConcat(AllStale(s.queues, s.now), DequeueOutcomes(trc, DropExpired(s)));
    StaleSendsNothing(s.queues, s.now);
  }
}
