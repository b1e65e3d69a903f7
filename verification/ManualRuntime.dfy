/** The manually triggered event loop. Callbacks are reactions: a function from everything fired
    so far (the event being served last) to the commands issued by that event's callback. */
module Runtimes {
  import opened Collections

  /** A scheduled callback; scope 0 is the null scope, which cancellation ignores. */
  datatype Event = Event(deadline: int, scope: nat, callback: nat)

  datatype Command = Schedule(event: Event) | Cancel(scope: nat)

  type Reaction = seq<Event> -> seq<Command>

  ghost predicate Ordered(q: seq<Event>) {
    q == [] || ((forall e :: e in q ==> q[0].deadline <= e.deadline) && Ordered(q[1..]))
  }

  // ----- queue operations

  /** Insertion behind all events with the same deadline. */
  function Enqueue(q: seq<Event>, e: Event): (r: seq<Event>)
    ensures |r| == |q| + 1
    ensures forall x :: x in r <==> x == e || x in q
    ensures Ordered(q) ==> Ordered(r)
  {
    if q == [] || e.deadline < q[0].deadline then [e] + q
    else
      var r := Enqueue(q[1..], e);
      assert forall k :: 0 <= k < |r| ==> r[k] in r;
      [q[0]] + r
  }

  function WithoutScope(q: seq<Event>, scope: nat): (r: seq<Event>)
    ensures forall e :: e in r <==> e in q && (scope == 0 || e.scope != scope)
    ensures Ordered(q) ==> Ordered(r)
    ensures |r| <= |q|
  {
    if scope == 0 || q == [] then q
    else if q[0].scope == scope then WithoutScope(q[1..], scope)
    else [q[0]] + WithoutScope(q[1..], scope)
  }

  function Execute(q: seq<Event>, c: Command): (r: seq<Event>)
    ensures Ordered(q) ==> Ordered(r)
  {
    match c
    case Schedule(e) => Enqueue(q, e)
    case Cancel(s) => WithoutScope(q, s)
  }

  function ExecuteAll(q: seq<Event>, cs: seq<Command>): (r: seq<Event>)
    ensures Ordered(q) ==> Ordered(r)
    decreases |cs|
  {
    if cs == [] then q else ExecuteAll(Execute(q, cs[0]), cs[1..])
  }

  /** Deadlines at which events of one scope are pending. */
  function Pending(q: seq<Event>, scope: nat): (ds: seq<int>)
    ensures forall d :: d in ds <==> exists e :: e in q && e.scope == scope && e.deadline == d
  {
    if q == [] then []
    else
      assert q == [q[0]] + q[1..];
      if q[0].scope == scope then [q[0].deadline] + Pending(q[1..], scope)
      else Pending(q[1..], scope)
  }

  function InsertSorted(ds: seq<int>, d: int): seq<int> {
    if ds == [] || d < ds[0] then [d] + ds else [ds[0]] + InsertSorted(ds[1..], d)
  }

  lemma {:induction false} InsertSortedAdds(ds: seq<int>, d: int)
    ensures multiset(InsertSorted(ds, d)) == multiset(ds) + multiset{d}
  {
    if ds != [] && d >= ds[0] {
      InsertSortedAdds(ds[1..], d);
      assert ds == [ds[0]] + ds[1..];
    }
  }

  lemma {:induction false} PendingEnqueue(q: seq<Event>, e: Event, scope: nat)
    requires Ordered(q)
    ensures Pending(Enqueue(q, e), scope) ==
      if e.scope == scope then InsertSorted(Pending(q, scope), e.deadline) else Pending(q, scope)
  {
    if q == [] || e.deadline < q[0].deadline {
      assert ([e] + q)[1..] == q;
      if e.scope == scope && Pending(q, scope) != [] {
        assert Pending(q, scope)[0] in Pending(q, scope);
      }
    } else {
      PendingEnqueue(q[1..], e, scope);
      assert ([q[0]] + Enqueue(q[1..], e))[1..] == Enqueue(q[1..], e);
    }
  }

  lemma {:induction false} PendingWithoutScope(q: seq<Event>, cancelled: nat, scope: nat)
    ensures Pending(WithoutScope(q, cancelled), scope) ==
      if cancelled != 0 && cancelled == scope then [] else Pending(q, scope)
  {
    if cancelled != 0 && q != [] {
      PendingWithoutScope(q[1..], cancelled, scope);
      if q[0].scope != cancelled {
        assert ([q[0]] + WithoutScope(q[1..], cancelled))[1..] == WithoutScope(q[1..], cancelled);
      }
    }
  }

  /** Only events of one scope have changed. */
  ghost predicate OthersUntouched(q: seq<Event>, q': seq<Event>, scope: nat) {
    forall other :: other != scope ==> Pending(q', other) == Pending(q, other)
  }

  lemma EnqueuePending(q: seq<Event>, e: Event)
    requires Ordered(q)
    ensures Pending(Enqueue(q, e), e.scope) == InsertSorted(Pending(q, e.scope), e.deadline)
    ensures OthersUntouched(q, Enqueue(q, e), e.scope)
  {
    PendingEnqueue(q, e, e.scope);
    forall other | other != e.scope ensures Pending(Enqueue(q, e), other) == Pending(q, other) {
      PendingEnqueue(q, e, other);
    }
  }

  lemma CancelPending(q: seq<Event>, scope: nat)
    requires scope != 0
    ensures Pending(WithoutScope(q, scope), scope) == []
    ensures OthersUntouched(q, WithoutScope(q, scope), scope)
  {
    PendingWithoutScope(q, scope, scope);
    forall other | other != scope ensures Pending(WithoutScope(q, scope), other) == Pending(q, other) {
      PendingWithoutScope(q, scope, other);
    }
  }

  // ----- what a trigger fires, without the queue

  predicate Cancels(cs: seq<Command>, scope: nat) {
    scope != 0 && Cancel(scope) in cs
  }

  ghost predicate OnlyLater(cs: seq<Command>, tp: int) {
    forall c :: c in cs && c.Schedule? ==> c.event.deadline > tp
  }

  function CancelAll(q: seq<Event>, cs: seq<Command>): (r: seq<Event>)
    ensures |r| <= |q|
    ensures Ordered(q) ==> Ordered(r)
    ensures forall e :: e in r <==> e in q && !Cancels(cs, e.scope)
    decreases |cs|
  {
    if cs == [] then q
    else if cs[0].Cancel? then CancelAll(WithoutScope(q, cs[0].scope), cs[1..])
    else CancelAll(q, cs[1..])
  }

  /** Serve a fixed list of due events in order, skipping those cancelled on the way. */
  function Drain(due: seq<Event>, history: seq<Event>, react: Reaction): seq<Event>
    decreases |due|
  {
    if due == [] then history
    else
      var h := history + [due[0]];
      Drain(CancelAll(due[1..], react(h)), h, react)
  }

  /** Effect on a queue of the callbacks of the events fired[from..]. */
  function Replay(q: seq<Event>, fired: seq<Event>, from: nat, react: Reaction): seq<Event>
    requires from <= |fired|
    decreases |fired| - from
  {
    if from == |fired| then q
    else Replay(ExecuteAll(q, react(fired[..from + 1])), fired, from + 1, react)
  }

  lemma {:induction false} CancelAllCounts(q: seq<Event>, cs: seq<Command>, e: Event)
    ensures multiset(CancelAll(q, cs))[e] == if Cancels(cs, e.scope) then 0 else multiset(q)[e]
    decreases |cs|
  {
    if cs != [] {
      assert cs == [cs[0]] + cs[1..];
      if cs[0].Cancel? {
        WithoutScopeCounts(q, cs[0].scope, e);
        CancelAllCounts(WithoutScope(q, cs[0].scope), cs[1..], e);
      } else {
        CancelAllCounts(q, cs[1..], e);
      }
    }
  }

  lemma {:induction false} WithoutScopeCounts(q: seq<Event>, scope: nat, e: Event)
    ensures multiset(WithoutScope(q, scope))[e] == if scope != 0 && e.scope == scope then 0 else multiset(q)[e]
  {
    if scope != 0 && q != [] {
      assert q == [q[0]] + q[1..];
      WithoutScopeCounts(q[1..], scope, e);
    }
  }

  /** Commands issued by the callback of the i-th fired event. */
  function Issued(fired: seq<Event>, i: nat, react: Reaction): seq<Command>
    requires i < |fired|
  {
    react(fired[..i + 1])
  }

  /** No firing from index `from` on that precedes or equals e's deadline cancels e's scope. */
  ghost predicate Spared(fired: seq<Event>, from: nat, e: Event, react: Reaction) {
    forall i :: from <= i < |fired| && fired[i].deadline <= e.deadline ==> !Cancels(Issued(fired, i, react), e.scope)
  }

  /** The first firing of a drain and what remains after it. */
  lemma {:induction false} DrainUnfold(due: seq<Event>, history: seq<Event>, react: Reaction)
    ensures history <= Drain(due, history, react)
    ensures due == [] ==> Drain(due, history, react) == history
    ensures due != [] ==>
      && |history| < |Drain(due, history, react)|
      && Drain(due, history, react)[|history|] == due[0]
      && Issued(Drain(due, history, react), |history|, react) == react(history + [due[0]])
      && Drain(due, history, react)[|history|..] == [due[0]] + Drain(due, history, react)[|history| + 1..]
    decreases |due|
  {
    if due != [] {
      var h := history + [due[0]];
      DrainUnfold(CancelAll(due[1..], react(h)), h, react);
      var f := Drain(due, history, react);
      assert f[..|h|] == h;
      assert f[|history|] == f[..|h|][|history|];
      assert f[..|history|] == h[..|history|];
    }
  }

  /** Fired events come from the due list, in deadline order. */
  lemma {:induction false} DrainOrder(due: seq<Event>, history: seq<Event>, f: seq<Event>, react: Reaction)
    requires Ordered(due) && f == Drain(due, history, react)
    ensures |history| <= |f|
    ensures forall k :: |history| <= k < |f| ==> f[k] in due
    ensures forall i, j :: |history| <= i < j < |f| ==> f[i].deadline <= f[j].deadline
    decreases |due|
  {
    DrainUnfold(due, history, react);
    if due != [] {
      var h := history + [due[0]];
      var rest := CancelAll(due[1..], react(h));
      DrainOrder(rest, h, f, react);
      assert forall k :: |h| <= k < |f| ==> f[k] in due[1..];
      forall i, j | |history| <= i < j < |f| ensures f[i].deadline <= f[j].deadline {
        if i == |history| {
          assert f[j] in due[1..];
        }
      }
    }
  }

  /** No event is fired whose scope an earlier firing of the same trigger cancelled. */
  lemma {:induction false} DrainHeedsCancel(due: seq<Event>, history: seq<Event>, f: seq<Event>, react: Reaction)
    requires Ordered(due) && f == Drain(due, history, react)
    ensures |history| <= |f|
    ensures forall i, j :: |history| <= i < j < |f| ==> !Cancels(Issued(f, i, react), f[j].scope)
    decreases |due|
  {
    DrainUnfold(due, history, react);
    if due != [] {
      var h := history + [due[0]];
      var rest := CancelAll(due[1..], react(h));
      DrainOrder(rest, h, f, react);
      DrainHeedsCancel(rest, h, f, react);
      forall i, j | |history| <= i < j < |f| ensures !Cancels(Issued(f, i, react), f[j].scope) {
        if i == |history| {
          assert f[j] in rest;
        }
      }
    }
  }

  /** An event is fired as often as it was due unless an earlier firing cancels its scope. */
  lemma {:induction false} DrainComplete(due: seq<Event>, history: seq<Event>, f: seq<Event>, e: Event, react: Reaction)
    requires Ordered(due) && f == Drain(due, history, react)
    ensures |history| <= |f|
    ensures multiset(f[|history|..])[e] <= multiset(due)[e]
    ensures Spared(f, |history|, e, react) ==> multiset(f[|history|..])[e] == multiset(due)[e]
    decreases |due|
  {
    DrainUnfold(due, history, react);
    if due != [] {
      var h := history + [due[0]];
      var rest := CancelAll(due[1..], react(h));
      DrainComplete(rest, h, f, e, react);
      CancelAllCounts(due[1..], react(h), e);
      assert due == [due[0]] + due[1..];
      assert multiset(due)[e] == multiset{due[0]}[e] + multiset(due[1..])[e];
      assert multiset(f[|history|..])[e] == multiset{due[0]}[e] + multiset(f[|h|..])[e];
      if Spared(f, |history|, e, react) && e in due[1..] {
        assert due[0].deadline <= e.deadline;
      }
    }
  }

  lemma {:induction false} PairwiseOrdered(q: seq<Event>)
    requires forall i, j :: 0 <= i < j < |q| ==> q[i].deadline <= q[j].deadline
    ensures Ordered(q)
  {
    if q != [] {
      PairwiseOrdered(q[1..]);
    }
  }

  /** A trigger fires exactly the due events that no earlier firing cancels, in deadline order. */
  lemma TriggerExact(due: seq<Event>, react: Reaction)
    requires Ordered(due)
    ensures Ordered(Drain(due, [], react))
    ensures multiset(Drain(due, [], react)) <= multiset(due)
    ensures forall e :: Spared(Drain(due, [], react), 0, e, react) ==>
      multiset(Drain(due, [], react))[e] == multiset(due)[e]
    ensures forall e :: multiset(Drain(due, [], react))[e] < multiset(due)[e] ==>
      exists i :: 0 <= i < |Drain(due, [], react)| && Drain(due, [], react)[i].deadline <= e.deadline
        && Cancels(Issued(Drain(due, [], react), i, react), e.scope)
    ensures forall i, j :: 0 <= i < j < |Drain(due, [], react)| ==>
      !Cancels(Issued(Drain(due, [], react), i, react), Drain(due, [], react)[j].scope)
  {
    var f := Drain(due, [], react);
    DrainOrder(due, [], f, react);
    PairwiseOrdered(f);
    DrainHeedsCancel(due, [], f, react);
    assert f[0..] == f;
    forall e
      ensures multiset(f)[e] <= multiset(due)[e]
      ensures Spared(f, 0, e, react) ==> multiset(f)[e] == multiset(due)[e]
    {
      DrainComplete(due, [], f, e, react);
    }
  }

  /** On a queue split at the trigger time, commands act on both parts separately. */
  lemma {:induction false} ExecuteAllSplit(due: seq<Event>, later: seq<Event>, cs: seq<Command>, tp: int)
    requires OnlyLater(cs, tp)
    requires forall e :: e in due ==> e.deadline <= tp
    requires forall e :: e in later ==> e.deadline > tp
    ensures ExecuteAll(due + later, cs) == CancelAll(due, cs) + ExecuteAll(later, cs)
    ensures forall e :: e in ExecuteAll(later, cs) ==> e.deadline > tp
    decreases |cs|
  {
    if cs != [] {
      assert cs[0] in cs;
      match cs[0]
      case Schedule(e) =>
        EnqueueSplit(due, later, e);
        ExecuteAllSplit(due, Enqueue(later, e), cs[1..], tp);
      case Cancel(s) =>
        WithoutScopeSplit(due, later, s);
        ExecuteAllSplit(WithoutScope(due, s), WithoutScope(later, s), cs[1..], tp);
    }
  }

  lemma {:induction false} EnqueueSplit(due: seq<Event>, later: seq<Event>, e: Event)
    requires forall x :: x in due ==> x.deadline <= e.deadline
    ensures Enqueue(due + later, e) == due + Enqueue(later, e)
  {
    if due == [] {
      assert due + later == later;
    } else {
      assert (due + later)[1..] == due[1..] + later;
      EnqueueSplit(due[1..], later, e);
    }
  }

  lemma {:induction false} WithoutScopeSplit(due: seq<Event>, later: seq<Event>, scope: nat)
    ensures WithoutScope(due + later, scope) == WithoutScope(due, scope) + WithoutScope(later, scope)
  {
    if due == [] {
      assert due + later == later;
    } else {
      assert (due + later)[1..] == due[1..] + later;
      WithoutScopeSplit(due[1..], later, scope);
    }
  }

  /** The events at the front of a queue that are due. */
  function DuePart(q: seq<Event>, tp: int): seq<Event> {
    if q != [] && q[0].deadline <= tp then [q[0]] + DuePart(q[1..], tp) else []
  }

  function LaterPart(q: seq<Event>, tp: int): seq<Event> {
    if q != [] && q[0].deadline <= tp then LaterPart(q[1..], tp) else q
  }

  /** Behind everything due up to the same time, in front of everything later. */
  lemma {:induction false} EnqueuedBehind(q: seq<Event>, e: Event)
    ensures Enqueue(q, e) == DuePart(q, e.deadline) + [e] + LaterPart(q, e.deadline)
  {
    if q != [] && q[0].deadline <= e.deadline {
      EnqueuedBehind(q[1..], e);
    }
  }

  lemma {:induction false} ReplayExtend(q: seq<Event>, fired: seq<Event>, e: Event, from: nat, react: Reaction)
    requires from <= |fired|
    ensures Replay(q, fired + [e], from, react) == ExecuteAll(Replay(q, fired, from, react), react(fired + [e]))
    decreases |fired| - from
  {
    var g := fired + [e];
    if from == |fired| {
      assert g[..from + 1] == g;
    } else {
      assert g[..from + 1] == fired[..from + 1];
      ReplayExtend(ExecuteAll(q, react(fired[..from + 1])), fired, e, from + 1, react);
    }
  }

  /** Commands that neither schedule nor cancel events of a scope. */
  predicate LeavesScope(cs: seq<Command>, scope: nat) {
    cs != [] ==>
      && (match cs[0]
          case Schedule(e) => e.scope != scope
          case Cancel(cancelled) => cancelled != scope)
      && LeavesScope(cs[1..], scope)
  }

  lemma {:induction false} CommandsLeave(q: seq<Event>, cs: seq<Command>, scope: nat)
    requires Ordered(q) && LeavesScope(cs, scope)
    ensures Pending(ExecuteAll(q, cs), scope) == Pending(q, scope)
    decreases |cs|
  {
    if cs != [] {
      match cs[0] {
        case Schedule(e) => PendingEnqueue(q, e, scope);
        case Cancel(cancelled) => PendingWithoutScope(q, cancelled, scope);
      }
      CommandsLeave(Execute(q, cs[0]), cs[1..], scope);
    }
  }

  // ----- the trigger loop, whatever callbacks do

  predicate IsDue(q: seq<Event>, tp: int) {
    q != [] && q[0].deadline <= tp
  }

  /** The queue after serving its front event. */
  function AfterServing(q: seq<Event>, fired: seq<Event>, react: Reaction): (r: seq<Event>)
    requires q != []
    ensures Ordered(q) ==> Ordered(r)
  {
    ExecuteAll(q[1..], react(fired + [q[0]]))
  }

  /** At most `n` more rounds of the loop are needed. */
  predicate Settles(q: seq<Event>, fired: seq<Event>, tp: int, react: Reaction, n: nat)
    decreases n
  {
    IsDue(q, tp) ==> n > 0 && Settles(AfterServing(q, fired, react), fired + [q[0]], tp, react, n - 1)
  }

  /** What has been fired and what is left in the queue. */
  datatype Serving = Serving(fired: seq<Event>, queue: seq<Event>)

  /** The loop, for at most `n` rounds. */
  function Serve(q: seq<Event>, fired: seq<Event>, tp: int, react: Reaction, n: nat): Serving
    decreases n
  {
    if n == 0 || !IsDue(q, tp) then Serving(fired, q)
    else Serve(AfterServing(q, fired, react), fired + [q[0]], tp, react, n - 1)
  }

  lemma ServeRound(q: seq<Event>, fired: seq<Event>, tp: int, react: Reaction, n: nat)
    requires n > 0 && IsDue(q, tp)
    ensures Settles(q, fired, tp, react, n) <==>
      Settles(AfterServing(q, fired, react), fired + [q[0]], tp, react, n - 1)
    ensures Serve(q, fired, tp, react, n) == Serve(AfterServing(q, fired, react), fired + [q[0]], tp, react, n - 1)
  {
  }

  lemma {:induction false} ServeMore(q: seq<Event>, fired: seq<Event>, tp: int, react: Reaction, n: nat, m: nat)
    requires n <= m && Settles(q, fired, tp, react, n)
    ensures Settles(q, fired, tp, react, m)
    ensures Serve(q, fired, tp, react, m) == Serve(q, fired, tp, react, n)
    decreases n
  {
    if IsDue(q, tp) {
      var q', fired' := AfterServing(q, fired, react), fired + [q[0]];
      ServeRound(q, fired, tp, react, n);
      ServeRound(q, fired, tp, react, m);
      ServeMore(q', fired', tp, react, n - 1, m - 1);
    }
  }

  /** The loop ends with nothing due, and its end does not depend on the bound. */
  lemma {:induction false} ServeSettles(q: seq<Event>, fired: seq<Event>, tp: int, react: Reaction, n: nat)
    requires Ordered(q) && Settles(q, fired, tp, react, n)
    ensures
      var s := Serve(q, fired, tp, react, n);
      Ordered(s.queue) && fired <= s.fired && forall e :: e in s.queue ==> e.deadline > tp
    decreases n
  {
    if IsDue(q, tp) {
      ServeSettles(AfterServing(q, fired, react), fired + [q[0]], tp, react, n - 1);
    }
  }

  /** A measure that every round decreases bounds the rounds. */
  lemma {:induction false} MeasureSettles(q: seq<Event>, fired: seq<Event>, tp: int, react: Reaction,
    measure: (seq<Event>, seq<Event>) -> nat)
    requires forall p, f :: IsDue(p, tp) ==> measure(AfterServing(p, f, react), f + [p[0]]) < measure(p, f)
    ensures Settles(q, fired, tp, react, measure(q, fired))
    decreases measure(q, fired)
  {
    if IsDue(q, tp) {
      var q', fired' := AfterServing(q, fired, react), fired + [q[0]];
      MeasureSettles(q', fired', tp, react, measure);
      ServeMore(q', fired', tp, react, measure(q', fired'), measure(q, fired) - 1);
    }
  }

  predicate Forward(cs: seq<Command>, tp: int) {
    forall i :: 0 <= i < |cs| && cs[i].Schedule? ==> cs[i].event.deadline >= tp
  }

  lemma {:induction false} ExecuteForward(q: seq<Event>, cs: seq<Command>, tp: int)
    requires Forward(cs, tp) && forall e :: e in q ==> e.deadline >= tp
    ensures forall e :: e in ExecuteAll(q, cs) ==> e.deadline >= tp
    decreases |cs|
  {
    if cs != [] {
      ExecuteForward(Execute(q, cs[0]), cs[1..], tp);
    }
  }

  /** Callbacks that schedule nothing before their own deadline are fired in deadline order, also
      when what they schedule is due at once. */
  lemma {:induction false} ServeOrder(q: seq<Event>, fired: seq<Event>, tp: int, react: Reaction, n: nat)
    requires Ordered(q) && forall h, e :: Forward(react(h + [e]), e.deadline)
    ensures Rising(Serve(q, fired, tp, react, n).fired, fired, if q == [] then tp else q[0].deadline)
    decreases n
  {
    if n > 0 && IsDue(q, tp) {
      var q', fired' := AfterServing(q, fired, react), fired + [q[0]];
      assert forall e :: e in q[1..] ==> q[0].deadline <= e.deadline;
      ExecuteForward(q[1..], react(fired'), q[0].deadline);
      assert q' != [] ==> q'[0] in q';
      ServeOrder(q', fired', tp, react, n - 1);
      RisingMore(Serve(q', fired', tp, react, n - 1).fired, fired, q[0], if q' == [] then tp else q'[0].deadline);
    }
  }

  /** `f` continues `before` in deadline order, with no deadline below `low`. */
  ghost predicate Rising(f: seq<Event>, before: seq<Event>, low: int) {
    && before <= f
    && (forall i :: |before| <= i < |f| ==> low <= f[i].deadline)
    && (forall i, j :: |before| <= i < j < |f| ==> f[i].deadline <= f[j].deadline)
  }

  lemma RisingMore(f: seq<Event>, before: seq<Event>, e: Event, low: int)
    requires Rising(f, before + [e], low) && e.deadline <= low
    ensures Rising(f, before, e.deadline)
  {
    assert f[|before|] == (before + [e])[|before|] == e;
    assert before <= before + [e];
  }

  predicate AllDue(q: seq<Event>, tp: int) {
    q == [] || (q[0].deadline <= tp && AllDue(q[1..], tp))
  }

  predicate AllLater(q: seq<Event>, tp: int) {
    q == [] || (q[0].deadline > tp && AllLater(q[1..], tp))
  }

  lemma {:induction false} AllIsEach(q: seq<Event>, tp: int)
    ensures AllDue(q, tp) <==> forall e :: e in q ==> e.deadline <= tp
    ensures AllLater(q, tp) <==> forall e :: e in q ==> e.deadline > tp
  {
    if q != [] {
      AllIsEach(q[1..], tp);
      assert forall e :: e in q <==> e == q[0] || e in q[1..];
    }
  }

  /** The loop on a queue split at the trigger time: what is due, and what later events became of
      those at the start. */
  predicate Halfway(q: seq<Event>, due: seq<Event>, later: seq<Event>, start: seq<Event>, fired: seq<Event>, tp: int,
    react: Reaction)
  {
    q == due + later && AllDue(due, tp) && AllLater(later, tp) && later == Replay(start, fired, 0, react)
  }

  /** One round for callbacks that only schedule for later. */
  lemma LaterRound(q: seq<Event>, due: seq<Event>, later: seq<Event>, start: seq<Event>, fired: seq<Event>, tp: int,
    react: Reaction) returns (due': seq<Event>, later': seq<Event>)
    requires due != [] && Halfway(q, due, later, start, fired, tp, react) && OnlyLater(react(fired + [due[0]]), tp)
    ensures IsDue(q, tp) && |due'| < |due|
    ensures Halfway(AfterServing(q, fired, react), due', later', start, fired + [q[0]], tp, react)
    ensures Drain(due, fired, react) == Drain(due', fired + [q[0]], react)
  {
    AllIsEach(due, tp);
    AllIsEach(later, tp);
    FrontIsDue(due, later, tp);
    ServeNext(due, later, start, fired, react, tp);
    var fired' := fired + [due[0]];
    due', later' := CancelAll(due[1..], react(fired')), ExecuteAll(later, react(fired'));
    AllIsEach(due', tp);
    AllIsEach(later', tp);
  }

  /** After one round, a loop that ends in `end`. */
  lemma RoundThenEnd(q: seq<Event>, fired: seq<Event>, tp: int, react: Reaction, m: nat, n: nat, end: Serving)
    requires IsDue(q, tp) && m < n
    requires
      var q', fired' := AfterServing(q, fired, react), fired + [q[0]];
      Settles(q', fired', tp, react, m) && Serve(q', fired', tp, react, m) == end
    ensures Settles(q, fired, tp, react, n) && Serve(q, fired, tp, react, n) == end
  {
    ServeMore(AfterServing(q, fired, react), fired + [q[0]], tp, react, m, n - 1);
    ServeRound(q, fired, tp, react, n);
  }

  lemma NothingDue(q: seq<Event>, later: seq<Event>, fired: seq<Event>, tp: int, react: Reaction)
    requires q == [] + later && AllLater(later, tp)
    ensures Settles(q, fired, tp, react, 0) && Serve(q, fired, tp, react, 0) == Serving(fired, later)
  {
  }

  /** What was due at first, drained, and what became of the later events. */
  function Drained(due: seq<Event>, start: seq<Event>, fired: seq<Event>, react: Reaction): Serving {
    var f := Drain(due, fired, react);
    Serving(f, Replay(start, f, 0, react))
  }

  /** Such callbacks settle after the events due at first, with exactly these drained. */
  lemma {:induction false} LaterSettles(q: seq<Event>, due: seq<Event>, later: seq<Event>, start: seq<Event>,
    fired: seq<Event>, tp: int, react: Reaction)
    requires Halfway(q, due, later, start, fired, tp, react) && forall h :: OnlyLater(react(h), tp)
    ensures Settles(q, fired, tp, react, |due|)
    ensures Serve(q, fired, tp, react, |due|) == Drained(due, start, fired, react)
    decreases |due|
  {
    if due == [] {
      NothingDue(q, later, fired, tp, react);
    } else {
      var due', later' := LaterRound(q, due, later, start, fired, tp, react);
      var q', fired' := AfterServing(q, fired, react), fired + [q[0]];
      LaterSettles(q', due', later', start, fired', tp, react);
      RoundThenEnd(q, fired, tp, react, |due'|, |due|, Drained(due', start, fired', react));
    }
  }

  /** How the loop ends, whatever bound on its rounds is assumed. */
  ghost predicate EndsAs(q: seq<Event>, tp: int, react: Reaction, fired: seq<Event>, left: seq<Event>) {
    forall n: nat :: Settles(q, [], tp, react, n) ==> Serve(q, [], tp, react, n) == Serving(fired, left)
  }

  lemma SameEnd(q: seq<Event>, tp: int, react: Reaction, n: nat, m: nat)
    requires Settles(q, [], tp, react, n) && Settles(q, [], tp, react, m)
    ensures Serve(q, [], tp, react, n) == Serve(q, [], tp, react, m)
  {
    if m <= n {
      ServeMore(q, [], tp, react, m, n);
    } else {
      ServeMore(q, [], tp, react, n, m);
    }
  }

  lemma ServeEnds(q: seq<Event>, tp: int, react: Reaction, n: nat)
    requires Settles(q, [], tp, react, n)
    ensures var s := Serve(q, [], tp, react, n); EndsAs(q, tp, react, s.fired, s.queue)
  {
    forall m: nat | Settles(q, [], tp, react, m) ensures Serve(q, [], tp, react, m) == Serve(q, [], tp, react, n) {
      SameEnd(q, tp, react, m, n);
    }
  }

  lemma {:induction false} DueSplit(q: seq<Event>, tp: int)
    requires Ordered(q)
    ensures AllDue(DuePart(q, tp), tp) && AllLater(LaterPart(q, tp), tp)
    ensures DuePart(q, tp) + LaterPart(q, tp) == q
  {
    if IsDue(q, tp) {
      DueSplit(q[1..], tp);
      PrependDue(q[0], DuePart(q[1..], tp), LaterPart(q[1..], tp), tp);
    } else {
      AllIsEach(q, tp);
    }
  }

  lemma PrependDue(e: Event, due: seq<Event>, later: seq<Event>, tp: int)
    requires e.deadline <= tp && AllDue(due, tp)
    ensures AllDue([e] + due, tp) && ([e] + due) + later == [e] + (due + later)
  {
    assert ([e] + due)[1..] == due;
  }

  /** The loop for callbacks that only schedule for later. */
  lemma LaterEnds(q: seq<Event>, tp: int, react: Reaction, n: nat)
    requires Ordered(q) && Settles(q, [], tp, react, n) && forall h :: OnlyLater(react(h), tp)
    ensures
      var s := Serve(q, [], tp, react, n);
      s.fired == Drain(DuePart(q, tp), [], react) && s.queue == Replay(LaterPart(q, tp), s.fired, 0, react)
  {
    var due, later := DuePart(q, tp), LaterPart(q, tp);
    DueSplit(q, tp);
    LaterSettles(q, due, later, later, [], tp, react);
    SameEnd(q, tp, react, n, |due|);
  }

  class ManualRuntime {
    var now: int
    var queue: seq<Event>

    ghost predicate Valid()
      reads this
    {
      Ordered(queue)
    }

    constructor (init: int)
      ensures Valid() && now == init && queue == []
    {
      now, queue := init, [];
    }

    method ScheduleAt(tp: int, scope: nat, callback: nat)
      requires Valid()
      modifies this`queue
      ensures Valid() && queue == Enqueue(old(queue), Event(tp, scope, callback))
    {
      queue := Enqueue(queue, Event(tp, scope, callback));
    }

    method ScheduleAfter(d: int, scope: nat, callback: nat)
      requires Valid()
      modifies this`queue
      ensures Valid() && queue == Enqueue(old(queue), Event(now + d, scope, callback))
    {
      ScheduleAt(now + d, scope, callback);
    }

    method CancelScope(scope: nat)
      requires Valid()
      modifies this`queue
      ensures Valid() && queue == WithoutScope(old(queue), scope)
    {
      queue := WithoutScope(queue, scope);
    }

    method Next() returns (tp: Option<int>)
      requires Valid()
      ensures tp.None? <==> queue == []
      ensures tp.Some? ==> exists e :: e in queue && e.deadline == tp.value
      ensures tp.Some? ==> forall e :: e in queue ==> tp.value <= e.deadline
    {
      if queue == [] {
        return None;
      }
      assert queue[0] in queue;
      return Some(queue[0].deadline);
    }

    /** Run one callback's commands. */
    method Perform(cs: seq<Command>)
      requires Valid()
      modifies this`queue
      ensures Valid() && queue == ExecuteAll(old(queue), cs)
    {
      var i := 0;
      while i < |cs|
        invariant 0 <= i <= |cs|
        invariant Valid()
        invariant ExecuteAll(queue, cs[i..]) == ExecuteAll(old(queue), cs)
      {
        match cs[i] {
          case Schedule(e) => ScheduleAt(e.deadline, e.scope, e.callback);
          case Cancel(s) => CancelScope(s);
        }
        assert cs[i..][1..] == cs[i + 1..];
        i := i + 1;
      }
    }

    /** Fire what is due, also what callbacks make due, which takes at most `n` rounds. */
    method FireDue(react: Reaction, ghost n: nat) returns (fired: seq<Event>)
      requires Valid() && Settles(queue, [], now, react, n)
      modifies this`queue
      ensures Valid() && Serving(fired, queue) == Serve(old(queue), [], now, react, n)
    {
      fired := [];
      ghost var left := n;
      while queue != [] && queue[0].deadline <= now
        invariant Valid() && Settles(queue, fired, now, react, left)
        invariant Serve(queue, fired, now, react, left) == Serve(old(queue), [], now, react, n)
        decreases left
      {
        ghost var q, f := queue, fired;
        var top := queue[0];
        queue := queue[1..];
        fired := fired + [top];
        Perform(react(fired));
        assert queue == AfterServing(q, f, react) && fired == f + [q[0]];
        left := left - 1;
      }
    }

    /** Time progress. The loop ends exactly for callbacks that stop making events due. */
    method Trigger(tp: int, react: Reaction) returns (fired: seq<Event>)
      requires Valid()
      requires tp >= now
      requires exists n: nat :: Settles(queue, [], tp, react, n)
      modifies this
      ensures Valid() && now == tp
      ensures EndsAs(old(queue), tp, react, fired, queue)
      ensures forall e :: e in queue ==> e.deadline > tp
      ensures (forall h :: OnlyLater(react(h), tp)) ==>
        && fired == Drain(DuePart(old(queue), tp), [], react)
        && queue == Replay(LaterPart(old(queue), tp), fired, 0, react)
    {
      ghost var n: nat :| Settles(queue, [], tp, react, n);
      ServeSettles(queue, [], tp, react, n);
      ServeEnds(queue, tp, react, n);
      if forall h :: OnlyLater(react(h), tp) {
        LaterEnds(queue, tp, react, n);
      }
      now := tp;
      fired := FireDue(react, n);
    }
  }

  ghost predicate SplitAt(due: seq<Event>, later: seq<Event>, tp: int) {
    (forall e :: e in due ==> e.deadline <= tp) && (forall e :: e in later ==> e.deadline > tp)
  }

  lemma FrontIsDue(due: seq<Event>, later: seq<Event>, tp: int)
    requires SplitAt(due, later, tp)
    ensures due != [] <==> due + later != [] && (due + later)[0].deadline <= tp
  {
    if due != [] {
      assert (due + later)[0] == due[0];
    } else if later != [] {
      assert (due + later)[0] == later[0];
    }
  }

  /** One round of the trigger loop on a queue split at the trigger time. */
  lemma ServeNext(due: seq<Event>, later: seq<Event>, start: seq<Event>, fired: seq<Event>, react: Reaction, tp: int)
    requires due != [] && SplitAt(due, later, tp)
    requires OnlyLater(react(fired + [due[0]]), tp)
    requires later == Replay(start, fired, 0, react)
    ensures (due + later)[0] == due[0]
    ensures
      var cs := react(fired + [due[0]]);
      && ExecuteAll((due + later)[1..], cs) == CancelAll(due[1..], cs) + ExecuteAll(later, cs)
      && SplitAt(CancelAll(due[1..], cs), ExecuteAll(later, cs), tp)
      && ExecuteAll(later, cs) == Replay(start, fired + [due[0]], 0, react)
  {
    var cs := react(fired + [due[0]]);
    assert (due + later)[1..] == due[1..] + later;
    ExecuteAllSplit(due[1..], later, cs, tp);
    ReplayExtend(start, fired, due[0], 0, react);
  }
}
