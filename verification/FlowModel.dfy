/** The DCC gatekeeper as a state machine: one queue per access category, a transmit rate
    control that is an arbitrary function of what it was notified about, and pending triggers. */
module FlowModel {
  import opened Collections
  import opened Runtimes

  /** Access categories from highest to lowest priority. */
  datatype Ac = VO | VI | BE | BK

  datatype Profile = DP0 | DP1 | DP2 | DP3

  function MapProfile(p: Profile): Ac {
    match p
    case DP0 => VO
    case DP1 => VI
    case DP2 => BE
    case DP3 => BK
  }

  /** What the rate control sees of a transmission; the data rate is known only once queued. */
  datatype Tx = Tx(profile: Profile, size: nat, rated: bool)

  datatype Notice = Notice(tx: Tx, at: int)

  /** Delay as a function of the transmissions notified so far, the time and the candidate. */
  type Throttle = (seq<Notice>, int, Tx) -> int

  /** The largest duration; a queue whose head is delayed that long is never chosen. */
  const MAX_DELAY: int := 0x7fff_ffff_ffff_ffff

  datatype Job = Job(serial: nat, profile: Profile, size: nat, lifetime: int)

  datatype Waiting = Waiting(job: Job, expiry: int)

  /** A queue from front to back. */
  datatype Queue = Empty | Front(head: Waiting, tail: Queue)

  datatype Queues = Queues(vo: Queue, vi: Queue, be: Queue, bk: Queue)

  datatype State = State(now: int, queues: Queues, notices: seq<Notice>, triggers: seq<int>, limit: nat)

  datatype Outcome =
    | Sent(job: Job, at: int, queued: bool, expiry: int)
    | Expired(job: Job, at: int, expiry: int)
    | Overflowed(job: Job, at: int)

  datatype Hook = DropHook(ac: Ac, serial: nat) | TransmitHook(ac: Ac, serial: nat)

  datatype Op =
    | Advance(d: nat)
    | Request(profile: Profile, size: nat, lifetime: int)
    | Fire
    | Reschedule
    | SetLimit(length: nat)

  // ----- queues

  function Get(qs: Queues, ac: Ac): Queue {
    match ac
    case VO => qs.vo
    case VI => qs.vi
    case BE => qs.be
    case BK => qs.bk
  }

  function Put(qs: Queues, ac: Ac, q: Queue): Queues {
    match ac
    case VO => qs.(vo := q)
    case VI => qs.(vi := q)
    case BE => qs.(be := q)
    case BK => qs.(bk := q)
  }

  function Size(q: Queue): nat {
    if q.Empty? then 0 else 1 + Size(q.tail)
  }

  function Push(q: Queue, p: Waiting): Queue {
    if q.Empty? then Front(p, Empty) else Front(q.head, Push(q.tail, p))
  }

  function Live(q: Queue, now: int): Queue {
    if q.Empty? then Empty
    else if q.head.expiry < now then Live(q.tail, now)
    else Front(q.head, Live(q.tail, now))
  }

  function Stale(q: Queue, now: int): seq<Outcome> {
    if q.Empty? then []
    else if q.head.expiry < now then [Expired(q.head.job, now, q.head.expiry)] + Stale(q.tail, now)
    else Stale(q.tail, now)
  }

  /** Make room for one more element under a length limit (0 for none). */
  function Trim(q: Queue, limit: nat): Queue {
    if limit > 0 && q.Front? && Size(q) >= limit then Trim(q.tail, limit) else q
  }

  function Trimmed(q: Queue, limit: nat, now: int): seq<Outcome> {
    if limit > 0 && q.Front? && Size(q) >= limit
    then [Overflowed(q.head.job, now)] + Trimmed(q.tail, limit, now)
    else []
  }

  function AllLive(qs: Queues, now: int): Queues {
    Queues(Live(qs.vo, now), Live(qs.vi, now), Live(qs.be, now), Live(qs.bk, now))
  }

  function AllStale(qs: Queues, now: int): seq<Outcome> {
    Stale(qs.vo, now) + Stale(qs.vi, now) + Stale(qs.be, now) + Stale(qs.bk, now)
  }

  predicate NoneQueued(qs: Queues) {
    qs.vo.Empty? && qs.vi.Empty? && qs.be.Empty? && qs.bk.Empty?
  }

  // ----- choosing

  function Rank(ac: Ac): nat {
    match ac
    case VO => 0
    case VI => 1
    case BE => 2
    case BK => 3
  }

  /** Whether a packet of equal or higher priority is waiting. */
  predicate Contended(qs: Queues, ac: Ac) {
    || qs.vo.Front?
    || (Rank(ac) >= 1 && qs.vi.Front?)
    || (Rank(ac) >= 2 && qs.be.Front?)
    || (Rank(ac) >= 3 && qs.bk.Front?)
  }

  function TxOf(p: Waiting): Tx {
    Tx(p.job.profile, p.job.size, true)
  }

  /** Delay of the packet at the front of a queue. */
  function HeadDelay(trc: Throttle, notices: seq<Notice>, now: int, q: Queue): int
    requires q.Front?
  {
    trc(notices, now, TxOf(q.head))
  }

  /** One more queue considered, in descending priority. */
  function Better(trc: Throttle, notices: seq<Notice>, now: int, qs: Queues, best: Option<Ac>, ac: Ac): Option<Ac>
    requires best.Some? ==> Get(qs, best.value).Front?
  {
    var q := Get(qs, ac);
    if q.Empty? then best
    else
      var bound := if best.None? then MAX_DELAY else HeadDelay(trc, notices, now, Get(qs, best.value));
      if HeadDelay(trc, notices, now, q) < bound then Some(ac) else best
  }

  function NextQueue(trc: Throttle, notices: seq<Notice>, now: int, qs: Queues): (best: Option<Ac>)
    ensures best.Some? ==> Get(qs, best.value).Front?
  {
    var b0 := Better(trc, notices, now, qs, None, VO);
    var b1 := Better(trc, notices, now, qs, b0, VI);
    var b2 := Better(trc, notices, now, qs, b1, BE);
    Better(trc, notices, now, qs, b2, BK)
  }

  // ----- operations

  function DropExpired(s: State): State {
    s.(queues := AllLive(s.queues, s.now))
  }

  /** Pending trigger for a packet after its current delay. */
  function ScheduleFor(trc: Throttle, s: State, p: Waiting): State {
    s.(triggers := InsertSorted(s.triggers, s.now + trc(s.notices, s.now, TxOf(p))))
  }

  predicate TransmitImmediately(trc: Throttle, s: State, tx: Tx) {
    !Contended(s.queues, MapProfile(tx.profile)) && trc(s.notices, s.now, tx) == 0
  }

  function EnqueueJob(trc: Throttle, s: State, job: Job): State {
    var ac := MapProfile(job.profile);
    var p := Waiting(job, s.now + job.lifetime);
    var s1 := s.(queues := Put(s.queues, ac, Push(Trim(Get(s.queues, ac), s.limit), p)));
    if NoneQueued(s.queues) then ScheduleFor(trc, s1, p) else s1
  }

  /** A request once expired packets are gone: sent at once or enqueued. */
  function Accept(trc: Throttle, s: State, job: Job): State {
    var tx := Tx(job.profile, job.size, false);
    if TransmitImmediately(trc, s, tx)
    then s.(notices := s.notices + [Notice(tx, s.now)])
    else EnqueueJob(trc, s, job)
  }

  function AcceptOutcomes(trc: Throttle, s: State, job: Job): seq<Outcome> {
    if TransmitImmediately(trc, s, Tx(job.profile, job.size, false))
    then [Sent(job, s.now, false, s.now + job.lifetime)]
    else Trimmed(Get(s.queues, MapProfile(job.profile)), s.limit, s.now)
  }

  function RequestJob(trc: Throttle, s: State, job: Job): State {
    Accept(trc, DropExpired(s), job)
  }

  function RequestOutcomes(trc: Throttle, s: State, job: Job): seq<Outcome> {
    AllStale(s.queues, s.now) + AcceptOutcomes(trc, DropExpired(s), job)
  }

  /** Take the chosen packet out of its queue and notify the rate control. */
  function Dequeue(trc: Throttle, s: State): State {
    match NextQueue(trc, s.notices, s.now, s.queues)
    case None => s
    case Some(ac) =>
      var q := Get(s.queues, ac);
      s.(queues := Put(s.queues, ac, q.tail), notices := s.notices + [Notice(TxOf(q.head), s.now)])
  }

  function DequeueOutcomes(trc: Throttle, s: State): seq<Outcome> {
    match NextQueue(trc, s.notices, s.now, s.queues)
    case None => []
    case Some(ac) =>
      var p := Get(s.queues, ac).head;
      [Sent(p.job, s.now, true, p.expiry)]
  }

  function ScheduleNext(trc: Throttle, s: State): State {
    match NextQueue(trc, s.notices, s.now, s.queues)
    case None => s
    case Some(ac) => ScheduleFor(trc, s, Get(s.queues, ac).head)
  }

  function Trigger(trc: Throttle, s: State): State {
    ScheduleNext(trc, Dequeue(trc, DropExpired(s)))
  }

  function TriggerOutcomes(trc: Throttle, s: State): seq<Outcome> {
    AllStale(s.queues, s.now) + DequeueOutcomes(trc, DropExpired(s))
  }

  function RescheduleAll(trc: Throttle, s: State): State {
    if NextQueue(trc, s.notices, s.now, s.queues).None? then s
    else ScheduleNext(trc, s.(triggers := []))
  }

  predicate TriggerDue(s: State) {
    s.triggers != [] && s.triggers[0] <= s.now
  }

  /** One step; a fired trigger is consumed by the runtime first. `serial` numbers requests. */
  function Step(trc: Throttle, s: State, op: Op, serial: nat): State {
    match op
    case Advance(d) => s.(now := s.now + d)
    case Request(profile, size, lifetime) => RequestJob(trc, s, Job(serial, profile, size, lifetime))
    case Fire => if TriggerDue(s) then Trigger(trc, s.(triggers := s.triggers[1..])) else s
    case Reschedule => RescheduleAll(trc, s)
    case SetLimit(length) => s.(limit := length)
  }

  function Outcomes(trc: Throttle, s: State, op: Op, serial: nat): seq<Outcome> {
    match op
    case Request(profile, size, lifetime) => RequestOutcomes(trc, s, Job(serial, profile, size, lifetime))
    case Fire => if TriggerDue(s) then TriggerOutcomes(trc, s) else []
    case _ => []
  }

  /** The hook invoked for an outcome. An overflow is reported with the packet whose arrival
      caused the drop, not with the dropped one. */
  function HookOf(x: Outcome, arriving: nat): Hook {
    var ac := MapProfile(x.job.profile);
    match x
    case Sent(job, _, _, _) => TransmitHook(ac, job.serial)
    case Expired(job, _, _) => DropHook(ac, job.serial)
    case Overflowed(_, _) => DropHook(ac, arriving)
  }

  function Hooks(xs: seq<Outcome>, arriving: nat): seq<Hook> {
    if xs == [] then [] else [HookOf(xs[0], arriving)] + Hooks(xs[1..], arriving)
  }

  // ----- runs

  datatype Trace = Trace(state: State, requested: nat, log: seq<Outcome>)

  function Initial(start: int): Trace {
    Trace(State(start, Queues(Empty, Empty, Empty, Empty), [], [], 0), 0, [])
  }

  function Extend(trc: Throttle, t: Trace, op: Op): Trace {
    Trace(Step(trc, t.state, op, t.requested),
      if op.Request? then t.requested + 1 else t.requested,
      t.log + Outcomes(trc, t.state, op, t.requested))
  }

  function Run(trc: Throttle, t: Trace, ops: seq<Op>): Trace
    decreases |ops|
  {
    if ops == [] then t else Run(trc, Extend(trc, t, ops[0]), ops[1..])
  }
}
