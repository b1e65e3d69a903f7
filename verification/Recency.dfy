/** Recency lists, most recent use first, and what a bounded one holds after a history of uses. */
module RecencyModel {
  import opened Collections

  datatype Recent<K> = Never | Used(id: K, earlier: Recent<K>)

  function Size<K>(m: Recent<K>): nat {
    if m.Never? then 0 else 1 + Size(m.earlier)
  }

  predicate Has<K(==)>(m: Recent<K>, k: K) {
    m.Used? && (m.id == k || Has(m.earlier, k))
  }

  predicate Distinct<K(==)>(m: Recent<K>) {
    m.Used? ==> !Has(m.earlier, m.id) && Distinct(m.earlier)
  }

  function Without<K(==)>(m: Recent<K>, k: K): Recent<K> {
    if m.Never? then Never
    else if m.id == k then Without(m.earlier, k)
    else Used(m.id, Without(m.earlier, k))
  }

  /** The `n` most recent. */
  function First<K>(n: nat, m: Recent<K>): Recent<K> {
    if n == 0 || m.Never? then Never else Used(m.id, First(n - 1, m.earlier))
  }

  /** Use `k` in a list of bounded length: a known key moves to the front, an unknown one is put
      there after the last ones have made room. */
  function Touch<K(==)>(m: Recent<K>, capacity: nat, k: K): Recent<K> {
    if Has(m, k) then Used(k, Without(m, k))
    else Used(k, First(if capacity == 0 then 0 else capacity - 1, m))
  }

  // ----- the unbounded reference: a whole history of uses, last one first

  /** The distinct keys of a history, by last use. */
  function ByLastUse<K(==)>(history: Recent<K>): Recent<K> {
    if history.Never? then Never else Used(history.id, Without(ByLastUse(history.earlier), history.id))
  }

  /** The keys used after the last use of `k`. */
  function UsedSince<K(==)>(history: Recent<K>, k: K): set<K> {
    if history.Never? || history.id == k then {}
    else {history.id} + UsedSince(history.earlier, k)
  }

  // ----- facts about lists

  lemma {:induction false} WithoutFacts<K>(m: Recent<K>, k: K, x: K)
    ensures Has(Without(m, k), x) <==> x != k && Has(m, x)
    ensures !Has(m, k) ==> Without(m, k) == m
    ensures Distinct(m) ==> Size(Without(m, k)) == Size(m) - (if Has(m, k) then 1 else 0)
  {
    if m.Used? {
      WithoutFacts(m.earlier, k, x);
    }
  }

  lemma {:induction false} WithoutDistinct<K>(m: Recent<K>, k: K)
    requires Distinct(m)
    ensures Distinct(Without(m, k))
  {
    if m.Used? {
      WithoutDistinct(m.earlier, k);
      WithoutFacts(m.earlier, k, m.id);
    }
  }

  lemma {:induction false} ByLastUseFacts<K>(history: Recent<K>, k: K)
    ensures Distinct(ByLastUse(history))
    ensures Has(ByLastUse(history), k) <==> Has(history, k)
  {
    if history.Used? {
      ByLastUseFacts(history.earlier, k);
      WithoutDistinct(ByLastUse(history.earlier), history.id);
      WithoutFacts(ByLastUse(history.earlier), history.id, k);
      WithoutFacts(ByLastUse(history.earlier), history.id, history.id);
    }
  }

  lemma {:induction false} FirstFacts<K>(n: nat, m: Recent<K>)
    ensures Size(First(n, m)) == Min(n, Size(m))
    ensures n >= Size(m) ==> First(n, m) == m
  {
    if n > 0 && m.Used? {
      FirstFacts(n - 1, m.earlier);
    }
  }

  lemma {:induction false} FirstOfFirst<K>(n: nat, i: nat, m: Recent<K>)
    ensures First(n, First(i, m)) == First(Min(n, i), m)
  {
    if n > 0 && i > 0 && m.Used? {
      FirstOfFirst(n - 1, i - 1, m.earlier);
    }
  }

  lemma {:induction false} FirstSubset<K>(n: nat, i: nat, m: Recent<K>, k: K)
    requires n <= i && Has(First(n, m), k)
    ensures Has(First(i, m), k) && Has(m, k)
  {
    if m.id != k {
      FirstSubset(n - 1, i - 1, m.earlier, k);
    }
  }

  /** Taking commutes with removing: one more is taken where the removed key was among them. */
  lemma {:induction false} FirstWithout<K>(n: nat, m: Recent<K>, k: K)
    requires Distinct(m)
    ensures Without(First(n, m), k) == First(if Has(First(n, m), k) then n - 1 else n, Without(m, k))
  {
    if n > 0 && m.Used? {
      FirstWithout(n - 1, m.earlier, k);
      if m.id == k {
        WithoutFacts(m.earlier, k, k);
        if Has(First(n - 1, m.earlier), k) {
          FirstSubset(n - 1, n - 1, m.earlier, k);
        }
      } else if Has(First(n, m), k) {
        assert Has(First(n - 1, m.earlier), k) && n - 1 > 0;
      }
    }
  }

  // ----- every run

  datatype Memory<K> = Memory(capacity: nat, recent: Recent<K>)

  datatype Op<K> = Use(id: K) | Capacity(num: nat)

  /** The reference of a run: the uses it made, last one first. */
  function Uses<K>(run: Recent<Op<K>>): Recent<K> {
    if run.Never? then Never
    else if run.id.Use? then Used(run.id.id, Uses(run.earlier))
    else Uses(run.earlier)
  }

  /** A capacity below one is raised to one; surplus keys are forgotten at once. */
  function Step<K(==)>(m: Memory<K>, op: Op<K>): Memory<K> {
    match op
    case Use(k) => m.(recent := Touch(m.recent, m.capacity, k))
    case Capacity(num) =>
      var c := if num < 1 then 1 else num;
      Memory(c, First(c, m.recent))
  }

  function Run<K(==)>(run: Recent<Op<K>>): Memory<K> {
    if run.Never? then Memory(1, Never) else Step(Run(run.earlier), run.id)
  }

  lemma {:induction false} TouchRefines<K>(capacity: nat, held: nat, uses: Recent<K>, k: K)
    requires held <= Max(1, capacity)
    ensures
      var m, m' := First(held, ByLastUse(uses)), Touch(First(held, ByLastUse(uses)), capacity, k);
      m' == First(if Has(m, k) then held else Min(Max(1, capacity), held + 1), ByLastUse(Used(k, uses)))
  {
    var all := ByLastUse(uses);
    ByLastUseFacts(uses, k);
    FirstWithout(held, all, k);
    WithoutFacts(First(held, all), k, k);
    if !Has(First(held, all), k) {
      var room: nat := if capacity == 0 then 0 else capacity - 1;
      FirstOfFirst(room, held, all);
      FirstWithout(Min(room, held), all, k);
      WithoutFacts(First(Min(room, held), all), k, k);
      if Has(First(Min(room, held), all), k) {
        FirstSubset(Min(room, held), held, all, k);
        assert false;
      }
    }
  }

  /** Whatever the capacity has been: the memory holds the most recently used keys, as many as
      it holds, in order of their last use. */
  lemma {:induction false} AlwaysMostRecent<K>(run: Recent<Op<K>>)
    ensures
      var m := Run(run);
      && 1 <= m.capacity && Size(m.recent) <= m.capacity
      && m.recent == First(Size(m.recent), ByLastUse(Uses(run)))
  {
    if run.Used? {
      AlwaysMostRecent(run.earlier);
      var m, all := Run(run.earlier), ByLastUse(Uses(run.earlier));
      FirstFacts(Size(m.recent), all);
      match run.id
      case Use(k) =>
        TouchRefines(m.capacity, Size(m.recent), Uses(run.earlier), k);
        var held := if Has(m.recent, k) then Size(m.recent) else Min(m.capacity, Size(m.recent) + 1);
        FirstFacts(held, ByLastUse(Uses(run)));
        FirstSelf(held, ByLastUse(Uses(run)));
      case Capacity(num) =>
        var c: nat := if num < 1 then 1 else num;
        FirstOfFirst(c, Size(m.recent), all);
        FirstFacts(Min(c, Size(m.recent)), all);
        FirstSelf(Min(c, Size(m.recent)), all);
    }
  }

  lemma FirstSelf<K>(n: nat, m: Recent<K>)
    ensures First(n, m) == First(Size(First(n, m)), m)
  {
    FirstFacts(n, m);
    if n > Size(m) {
      FirstFacts(Size(m), m);
    }
  }

  /** Histories of uses only, at one capacity. */
  function After<K(==)>(capacity: nat, history: Recent<K>): Recent<K> {
    if history.Never? then Never else Touch(After(capacity, history.earlier), capacity, history.id)
  }

  /** At a fixed capacity exactly the last `max(1, capacity)` distinct keys are held. */
  lemma {:induction false} HoldsLastDistinct<K>(capacity: nat, history: Recent<K>)
    ensures After(capacity, history) == First(Max(1, capacity), ByLastUse(history))
  {
    if history.Used? {
      HoldsLastDistinct(capacity, history.earlier);
      var c, all := Max(1, capacity), ByLastUse(history.earlier);
      TouchRefines(capacity, c, history.earlier, history.id);
    }
  }

  /** The capacity bounds what is held, except that a capacity of zero lets one key in. */
  lemma WithinCapacityIff<K>(capacity: nat, history: Recent<K>)
    ensures Size(After(capacity, history)) <= capacity <==> capacity >= 1 || history.Never?
  {
    HoldsLastDistinct(capacity, history);
    FirstFacts(Max(1, capacity), ByLastUse(history));
  }

  /** A key is known exactly when it has been used and fewer than `max(1, capacity)` different
      ones have been since. */
  lemma KnownIff<K>(capacity: nat, history: Recent<K>, k: K)
    ensures Has(After(capacity, history), k) <==>
      Has(history, k) && |UsedSince(history, k)| < Max(1, capacity)
  {
    HoldsLastDistinct(capacity, history);
    ByLastUseFacts(history, k);
    if Has(history, k) {
      RankOf(history, k);
      FirstByRank(Max(1, capacity), ByLastUse(history), k);
    } else if Has(After(capacity, history), k) {
      FirstSubset(Max(1, capacity), Max(1, capacity), ByLastUse(history), k);
    }
  }

  /** The keys before `k`. */
  function Before<K(==)>(m: Recent<K>, k: K): set<K> {
    if m.Never? || m.id == k then {} else {m.id} + Before(m.earlier, k)
  }

  lemma {:induction false} RankOf<K>(history: Recent<K>, k: K)
    requires Has(history, k)
    ensures Before(ByLastUse(history), k) == UsedSince(history, k)
  {
    if history.id != k {
      RankOf(history.earlier, k);
      ByLastUseFacts(history.earlier, k);
      BeforeWithout(ByLastUse(history.earlier), history.id, k);
    }
  }

  lemma {:induction false} BeforeWithout<K>(m: Recent<K>, x: K, k: K)
    requires Has(m, k) && x != k
    ensures Before(Without(m, x), k) == Before(m, k) - {x}
  {
    if m.id != k {
      BeforeWithout(m.earlier, x, k);
    }
  }

  lemma {:induction false} BeforeMembers<K>(m: Recent<K>, k: K, x: K)
    requires x in Before(m, k)
    ensures Has(m, x)
  {
    if x != m.id {
      BeforeMembers(m.earlier, k, x);
    }
  }

  lemma {:induction false} FirstByRank<K>(n: nat, m: Recent<K>, k: K)
    requires Distinct(m) && Has(m, k)
    ensures Has(First(n, m), k) <==> |Before(m, k)| < n
  {
    if n > 0 && m.id != k {
      FirstByRank(n - 1, m.earlier, k);
      if m.id in Before(m.earlier, k) {
        BeforeMembers(m.earlier, k, m.id);
      }
    }
  }

  // ----- what a run holds, from its operations alone

  /** The number set last, at least one; one before any has been set. */
  function LastCapacity<K>(run: Recent<Op<K>>): nat {
    if run.Never? then 1
    else if run.id.Capacity? then (if run.id.num < 1 then 1 else run.id.num)
    else LastCapacity(run.earlier)
  }

  /** Used, with fewer than `n` different keys since. */
  predicate Among<K(==)>(n: nat, history: Recent<K>, k: K) {
    Has(history, k) && |UsedSince(history, k)| < n
  }

  /** How many keys are held: one more after the use of a key that is not among them, as long as the
      capacity allows. */
  function Held<K(==)>(run: Recent<Op<K>>): nat {
    if run.Never? then 0
    else
      var n := Held(run.earlier);
      match run.id
      case Capacity(num) => Min(n, LastCapacity(run))
      case Use(k) => if Among(n, Uses(run.earlier), k) then n else Min(n + 1, LastCapacity(run))
  }

  /** The first keys by last use are those with few others used since. */
  lemma AmongFirst<K>(n: nat, history: Recent<K>, k: K)
    ensures Has(First(n, ByLastUse(history)), k) <==> Among(n, history, k)
  {
    ByLastUseFacts(history, k);
    if Has(history, k) {
      RankOf(history, k);
      FirstByRank(n, ByLastUse(history), k);
    } else if Has(First(n, ByLastUse(history)), k) {
      FirstSubset(n, n, ByLastUse(history), k);
    }
  }

  lemma {:induction false} HeldWithinCapacity<K>(run: Recent<Op<K>>)
    ensures 1 <= LastCapacity(run) && Held(run) <= LastCapacity(run)
  {
    if run.Used? {
      HeldWithinCapacity(run.earlier);
    }
  }

  /** In every run the capacity is the number set last, and exactly the most recently used keys are
      held, as many as its operations say. */
  lemma {:induction false} HoldsExactly<K>(run: Recent<Op<K>>)
    ensures Run(run).capacity == LastCapacity(run)
    ensures Run(run).recent == First(Held(run), ByLastUse(Uses(run)))
  {
    if run.Used? {
      HoldsExactly(run.earlier);
      HeldWithinCapacity(run.earlier);
      var n, uses := Held(run.earlier), Uses(run.earlier);
      match run.id
      case Use(k) =>
        AmongFirst(n, uses, k);
        TouchRefines(LastCapacity(run), n, uses, k);
      case Capacity(num) =>
        FirstOfFirst(LastCapacity(run), n, ByLastUse(uses));
    }
  }

  /** And a key is known exactly if fewer others have been used since. */
  lemma KnownInRun<K>(run: Recent<Op<K>>, k: K)
    ensures Has(Run(run).recent, k) <==> Among(Held(run), Uses(run), k)
  {
    HoldsExactly(run);
    AmongFirst(Held(run), Uses(run), k);
  }

  /** The capacity is `c`, and has been since the first use. */
  predicate Steady<K>(run: Recent<Op<K>>, c: nat) {
    && LastCapacity(run) == c
    && (run.Used? && Uses(run).Used? ==> Steady(run.earlier, c))
  }

  lemma {:induction false} SteadyHeld<K>(run: Recent<Op<K>>, c: nat)
    requires Steady(run, c)
    ensures Held(run) == Min(c, Size(ByLastUse(Uses(run))))
  {
    HeldWithinCapacity(run);
    if run.Used? {
      if Uses(run).Never? {
        NothingHeld(run);
      } else if run.id.Use? {
        var uses, k := Uses(run.earlier), run.id.id;
        SteadyHeld(run.earlier, c);
        ByLastUseFacts(uses, k);
        AmongFirst(Held(run.earlier), uses, k);
        FirstFacts(Held(run.earlier), ByLastUse(uses));
        WithoutFacts(ByLastUse(uses), k, k);
        if Has(First(Held(run.earlier), ByLastUse(uses)), k) {
          FirstSubset(Held(run.earlier), Held(run.earlier), ByLastUse(uses), k);
        }
      } else {
        SteadyHeld(run.earlier, c);
      }
    }
  }

  lemma {:induction false} NothingHeld<K>(run: Recent<Op<K>>)
    requires Uses(run).Never?
    ensures Held(run) == 0
  {
    if run.Used? {
      NothingHeld(run.earlier);
    }
  }

  /** Without a change of capacity, the last `c` distinct keys are held, and a key is known exactly if
      fewer than `c` others have been used since. */
  lemma SteadyHoldsLast<K>(run: Recent<Op<K>>, c: nat, k: K)
    requires Steady(run, c)
    ensures Run(run).recent == First(c, ByLastUse(Uses(run)))
    ensures Has(Run(run).recent, k) <==> Among(c, Uses(run), k)
  {
    var all := ByLastUse(Uses(run));
    HoldsExactly(run);
    SteadyHeld(run, c);
    if c > Size(all) {
      FirstFacts(c, all);
      FirstFacts(Size(all), all);
    }
    AmongFirst(c, Uses(run), k);
  }

  // ----- inclusion

  /** The same uses, with capacities never above those of the other run. */
  predicate Tighter<K(==)>(a: Recent<Op<K>>, b: Recent<Op<K>>) {
    if a.Never? || b.Never? then a.Never? && b.Never?
    else
      && Tighter(a.earlier, b.earlier)
      && match a.id
         case Use(k) => b.id == Use(k)
         case Capacity(num) => b.id.Capacity? && num <= b.id.num
  }

  lemma {:induction false} TighterHoldsLess<K>(a: Recent<Op<K>>, b: Recent<Op<K>>)
    requires Tighter(a, b)
    ensures Uses(a) == Uses(b)
    ensures Run(a).capacity <= Run(b).capacity && Size(Run(a).recent) <= Size(Run(b).recent)
  {
    if a.Used? {
      TighterHoldsLess(a.earlier, b.earlier);
      AlwaysMostRecent(a.earlier);
      AlwaysMostRecent(b.earlier);
      var m, n, all := Run(a.earlier), Run(b.earlier), ByLastUse(Uses(a.earlier));
      match a.id
      case Use(k) =>
        ByLastUseFacts(Uses(a.earlier), k);
        TouchSizes(m, n, all, k);
      case Capacity(num) =>
        FirstFacts(Run(a).capacity, m.recent);
        FirstFacts(Run(b).capacity, n.recent);
    }
  }

  lemma TouchSize<K>(m: Recent<K>, capacity: nat, k: K)
    requires Distinct(m) && 1 <= capacity && Size(m) <= capacity
    ensures Size(Touch(m, capacity, k)) == if Has(m, k) then Size(m) else Min(capacity, Size(m) + 1)
  {
    WithoutFacts(m, k, k);
    FirstFacts(capacity - 1, m);
  }

  lemma TouchDistinct<K>(m: Recent<K>, capacity: nat, k: K)
    requires Distinct(m) && 1 <= capacity
    ensures Distinct(Touch(m, capacity, k))
  {
    WithoutDistinct(m, k);
    WithoutFacts(m, k, k);
    FirstDistinct(capacity - 1, m);
    if Has(First(capacity - 1, m), k) {
      FirstSubset(capacity - 1, capacity - 1, m, k);
    }
  }

  lemma TouchSizes<K>(m: Memory<K>, n: Memory<K>, all: Recent<K>, k: K)
    requires Distinct(all) && Size(m.recent) <= Size(n.recent) <= n.capacity
    requires 1 <= m.capacity <= n.capacity && Size(m.recent) <= m.capacity
    requires m.recent == First(Size(m.recent), all) && n.recent == First(Size(n.recent), all)
    ensures Size(Touch(m.recent, m.capacity, k)) <= Size(Touch(n.recent, n.capacity, k))
  {
    FirstDistinct(Size(m.recent), all);
    FirstDistinct(Size(n.recent), all);
    TouchSize(m.recent, m.capacity, k);
    TouchSize(n.recent, n.capacity, k);
    if Has(m.recent, k) {
      FirstSubset(Size(m.recent), Size(n.recent), all, k);
    } else if Size(m.recent) == Size(n.recent) {
      assert m.recent == n.recent;
    }
  }

  lemma {:induction false} FirstDistinct<K>(n: nat, m: Recent<K>)
    requires Distinct(m)
    ensures Distinct(First(n, m))
  {
    if n > 0 && m.Used? {
      FirstDistinct(n - 1, m.earlier);
      if Has(First(n - 1, m.earlier), m.id) {
        FirstSubset(n - 1, n - 1, m.earlier, m.id);
        assert false;
      }
    }
  }

  /** Inclusion: at capacities never smaller, also changing ones, everything the smaller memory
      knows is known, in the same order. */
  lemma Inclusion<K>(a: Recent<Op<K>>, b: Recent<Op<K>>, k: K)
    requires Tighter(a, b)
    ensures Run(a).recent == First(Size(Run(a).recent), Run(b).recent)
    ensures Has(Run(a).recent, k) ==> Has(Run(b).recent, k)
  {
    TighterHoldsLess(a, b);
    AlwaysMostRecent(a);
    AlwaysMostRecent(b);
    var n, i, all := Size(Run(a).recent), Size(Run(b).recent), ByLastUse(Uses(a));
    FirstOfFirst(n, i, all);
    if Has(Run(a).recent, k) {
      FirstSubset(n, i, all, k);
    }
  }
}

/** The memory of packets seen. */
module GbcMemories {
  import opened Collections
  import opened RecencyModel

  /** A queue with its newest element last, as a recency list. */
  function FromBack<K>(s: seq<K>): Recent<K> {
    if s == [] then Never else Used(s[|s| - 1], FromBack(s[..|s| - 1]))
  }

  lemma {:induction false} FromBackFacts<K>(s: seq<K>, k: K)
    ensures Size(FromBack(s)) == |s|
    ensures Has(FromBack(s), k) <==> k in s
  {
    if s != [] {
      FromBackFacts(s[..|s| - 1], k);
      assert s == s[..|s| - 1] + [s[|s| - 1]];
    }
  }

  lemma {:induction false} DropFront<K>(s: seq<K>, n: nat)
    requires n <= |s|
    ensures FromBack(s[|s| - n..]) == First(n, FromBack(s))
  {
    if n > 0 {
      var init := s[..|s| - 1];
      assert init[|init| - (n - 1)..] == s[|s| - n..][..n - 1];
      DropFront(init, n - 1);
    }
  }

  lemma {:induction false} EraseAt<K>(s: seq<K>, i: nat)
    requires i < |s| && Distinct(FromBack(s))
    ensures FromBack(s[..i] + s[i + 1..]) == Without(FromBack(s), s[i])
  {
    var init, x := s[..|s| - 1], s[i];
    if i == |s| - 1 {
      assert s[..i] + s[i + 1..] == init;
      WithoutFacts(FromBack(init), x, x);
    } else {
      EraseAt(init, i);
      var r := s[..i] + s[i + 1..];
      assert r[..|r| - 1] == init[..i] + init[i + 1..];
      FromBackFacts(init, s[|s| - 1]);
    }
  }

  lemma FirstFromBack<K>(s: seq<K>, limit: nat)
    ensures FromBack(if |s| > limit then s[|s| - limit..] else s) == First(limit, FromBack(s))
  {
    FirstFacts(limit, FromBack(s));
    if |s| > limit {
      DropFront(s, limit);
    } else if s != [] {
      FromBackFacts(s, s[0]);
    }
  }

  class GbcMemory<K(==)> {
    var capacity: nat
    var identifiers: seq<K>     // oldest in front

    ghost predicate Valid()
      reads this
    {
      capacity >= 1 && |identifiers| <= capacity && Distinct(FromBack(identifiers))
    }

    ghost function View(): Memory<K>
      reads this
    {
      Memory(capacity, FromBack(identifiers))
    }

    constructor ()
      ensures Valid() && View() == Run(Never)
    {
      capacity, identifiers := 1, [];
    }

    /** Forget the oldest ones until at most `limit` are left. */
    method Shrink(limit: nat)
      requires Distinct(FromBack(identifiers))
      modifies this`identifiers
      ensures FromBack(identifiers) == First(limit, FromBack(old(identifiers)))
      ensures |identifiers| <= limit && Distinct(FromBack(identifiers))
    {
      ghost var before := identifiers;
      while |identifiers| > limit
        invariant |identifiers| <= |before| && identifiers == before[|before| - |identifiers|..]
        invariant |identifiers| >= Min(limit, |before|)
      {
        identifiers := identifiers[1..];
      }
      FirstFromBack(before, limit);
      FirstDistinct(limit, FromBack(before));
    }

    method SetCapacity(num: nat)
      requires Valid()
      modifies this
      ensures Valid() && View() == Step(old(View()), Capacity(num))
    {
      capacity := if num < 1 then 1 else num;
      Shrink(capacity);
    }

    method Remember(k: K) returns (known: bool)
      requires Valid()
      modifies this`identifiers
      ensures Valid() && View() == Step(old(View()), Use(k))
      ensures known <==> Has(old(View()).recent, k)
    {
      FromBackFacts(identifiers, k);
      TouchSize(FromBack(identifiers), capacity, k);
      TouchDistinct(FromBack(identifiers), capacity, k);
      known := k in identifiers;
      if !known {
        PushBack(k);
      } else {
        Relocate(k);
      }
      FromBackFacts(identifiers, k);
    }

    /** Make space for one identifier and add it as the newest. */
    method PushBack(k: K)
      requires Distinct(FromBack(identifiers)) && capacity >= 1
      modifies this`identifiers
      ensures FromBack(identifiers) == Used(k, First(capacity - 1, FromBack(old(identifiers))))
    {
      Shrink(capacity - 1);
      identifiers := identifiers + [k];
      assert identifiers[..|identifiers| - 1] + [k] == identifiers;
    }

    /** Move a known identifier to the end of the queue. */
    method Relocate(k: K)
      requires Distinct(FromBack(identifiers)) && k in identifiers
      modifies this`identifiers
      ensures FromBack(identifiers) == Used(k, Without(FromBack(old(identifiers)), k))
    {
      var i: nat :| i < |identifiers| && identifiers[i] == k;
      EraseAt(identifiers, i);
      identifiers := identifiers[..i] + identifiers[i + 1..] + [k];
      assert identifiers[..|identifiers| - 1] == old(identifiers)[..i] + old(identifiers)[i + 1..];
    }

    method Knows(k: K) returns (known: bool)
      ensures known <==> Has(View().recent, k)
    {
      FromBackFacts(identifiers, k);
      known := k in identifiers;
    }

    method Count() returns (n: nat)
      ensures n == Size(View().recent)
    {
      if identifiers != [] {
        FromBackFacts(identifiers, identifiers[0]);
      }
      n := |identifiers|;
    }
  }
}

/** The cache of generated values. */
module LruCaches {
  import opened Collections
  import opened RecencyModel

  function FromFront<K>(s: seq<K>): Recent<K> {
    if s == [] then Never else Used(s[0], FromFront(s[1..]))
  }

  lemma {:induction false} FromFrontHas<K>(s: seq<K>, k: K)
    ensures Has(FromFront(s), k) <==> k in s
    ensures Size(FromFront(s)) == |s|
  {
    if s != [] {
      FromFrontHas(s[1..], k);
    }
  }

  lemma {:induction false} DropBack<K>(s: seq<K>, n: nat)
    requires n <= |s|
    ensures FromFront(s[..n]) == First(n, FromFront(s))
  {
    if n > 0 {
      assert s[..n][1..] == s[1..][..n - 1];
      DropBack(s[1..], n - 1);
    }
  }

  lemma {:induction false} EraseAt<K>(s: seq<K>, i: nat)
    requires i < |s| && Distinct(FromFront(s))
    ensures FromFront(s[..i] + s[i + 1..]) == Without(FromFront(s), s[i])
  {
    var r := s[..i] + s[i + 1..];
    if i == 0 {
      assert r == s[1..];
      WithoutFacts(FromFront(s[1..]), s[0], s[0]);
    } else {
      EraseAt(s[1..], i - 1);
      assert r[1..] == s[1..][..i - 1] + s[1..][i..];
      FromFrontHas(s[1..], s[0]);
    }
  }

  /** The last of distinct keys is no longer found once removed; the others are. */
  lemma {:induction false} DropLast<K>(s: seq<K>, k: K)
    requires s != [] && Distinct(FromFront(s))
    ensures Distinct(FromFront(s[..|s| - 1]))
    ensures Has(FromFront(s[..|s| - 1]), k) <==> Has(FromFront(s), k) && k != s[|s| - 1]
  {
    var init, last := s[..|s| - 1], s[|s| - 1];
    DropBack(s, |init|);
    FirstDistinct(|init|, FromFront(s));
    FromFrontHas(s, k);
    FromFrontHas(init, k);
    FromFrontHas(init, last);
    assert s == init + [last];
    LastIsNew(s);
  }

  lemma {:induction false} LastIsNew<K>(s: seq<K>)
    requires s != [] && Distinct(FromFront(s))
    ensures s[|s| - 1] !in s[..|s| - 1]
  {
    if |s| > 1 {
      LastIsNew(s[1..]);
      FromFrontHas(s[1..], s[0]);
      assert s[..|s| - 1] == [s[0]] + s[1..][..|s| - 2];
    }
  }

  class LruCache<K(==, !new), V> {
    const generator: K -> V
    const capacity: nat
    var index: seq<K>           // most recent in front
    var cache: map<K, V>

    /** Index and cache hold the same keys, each once; the values are the generator's. */
    ghost predicate Valid()
      reads this
    {
      && Distinct(FromFront(index)) && |index| <= Max(1, capacity)
      && (forall k :: k in cache <==> Has(FromFront(index), k))
      && |cache| == |index|
      && (forall k :: k in cache ==> cache[k] == generator(k))
    }

    ghost function View(): Recent<K>
      reads this
    {
      FromFront(index)
    }

    constructor (generator: K -> V, capacity: nat)
      ensures Valid() && View() == After(capacity, Never)
      ensures this.generator == generator && this.capacity == capacity
    {
      this.generator, this.capacity, index, cache := generator, capacity, [], map[];
    }

    /** Access a key: the value is always the generator's, and the key becomes the most recent. */
    method Access(k: K) returns (v: V)
      requires Valid()
      modifies this`index, this`cache
      ensures Valid() && View() == Touch(old(View()), capacity, k)
      ensures v == generator(k)
    {
      if k !in cache {
        v := Add(k);
      } else {
        v := Refresh(k);
      }
    }

    method Add(k: K) returns (v: V)
      requires Valid() && k !in cache
      modifies this`index, this`cache
      ensures Valid() && View() == Touch(old(View()), capacity, k)
      ensures v == generator(k)
    {
      ghost var room: nat := if capacity == 0 then 0 else capacity - 1;
      FirstFacts(room, View());
      FromFrontHas(index, k);
      if |cache| >= capacity {
        DropBack(index, room);
        Remove();
      }
      FromFrontHas(index, k);
      assert View() == First(room, old(View()));
      index := [k] + index;
      assert index[1..] == old(index)[..|index| - 1];
      v := generator(k);
      cache := cache[k := v];
    }

    /** Move a cached key to the front. */
    method Refresh(k: K) returns (v: V)
      requires Valid() && k in cache
      modifies this`index
      ensures Valid() && View() == Touch(old(View()), capacity, k) && v == generator(k)
    {
      FromFrontHas(index, k);
      var i: nat :| i < |index| && index[i] == k;
      EraseAt(index, i);
      WithoutDistinct(View(), k);
      ghost var before := View();
      index := [k] + (index[..i] + index[i + 1..]);
      assert index[1..] == old(index)[..i] + old(index)[i + 1..];
      forall x ensures x in cache <==> Has(FromFront(index), x) {
        WithoutFacts(before, k, x);
      }
      WithoutFacts(before, k, k);
      v := cache[k];
    }

    /** Erase the least recent key; there is nothing to do for an empty cache. */
    method Remove()
      requires Valid()
      modifies this`index, this`cache
      ensures Valid() && index == if old(index) == [] then [] else old(index)[..|old(index)| - 1]
      ensures forall k :: k in cache ==> k in old(cache)
    {
      if index != [] {
        var last := index[|index| - 1];
        FromFrontHas(index, last);
        assert (cache - {last}).Keys == cache.Keys - {last};
        forall k ensures Distinct(FromFront(index[..|index| - 1]))
            && (Has(FromFront(index[..|index| - 1]), k) <==> Has(FromFront(index), k) && k != last) {
          DropLast(index, k);
        }
        cache := cache - {last};
        index := index[..|index| - 1];
      }
    }
  }
}
