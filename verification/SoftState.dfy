/** A map whose entries expire but stay stored until dropped: a table with handles into a heap
    ordered by expiry. */
module SoftState {
  import opened Collections

  /** A stored value and the time up to which it is visible. */
  datatype Cell<V> = Cell(value: V, expiry: int)

  datatype State<K, V> = State(now: int, lifetime: int, table: map<K, Cell<V>>)

  datatype Op<K, V> =
    | Advance(d: nat)
    | SetLifetime(lifetime: int)
    | GetValue(key: K, created: V)
    | Refresh(key: K, created: V)
    | Write(key: K, value: V)
    | Drop

  // ----- the map by itself

  predicate Visible<K, V>(s: State<K, V>, k: K) {
    k in s.table && s.now <= s.table[k].expiry
  }

  function Lookup<K, V>(s: State<K, V>, k: K): Option<V> {
    if Visible(s, k) then Some(s.table[k].value) else None
  }

  /** Everything visible, as iterated. */
  function Contents<K, V>(s: State<K, V>): map<K, V> {
    map k | k in s.table && s.now <= s.table[k].expiry :: s.table[k].value
  }

  /** The value an access finds: a stored one, even if expired, before a created one. */
  function Found<K, V>(s: State<K, V>, k: K, created: V): V {
    if k in s.table then s.table[k].value else created
  }

  function Renew<K, V>(s: State<K, V>, k: K, created: V): State<K, V> {
    s.(table := s.table[k := Cell(Found(s, k, created), s.now + s.lifetime)])
  }

  function Step<K, V>(s: State<K, V>, op: Op<K, V>): State<K, V> {
    match op
    case Advance(d) => s.(now := s.now + d)
    case SetLifetime(lifetime) => s.(lifetime := lifetime)
    case GetValue(k, created) => if Visible(s, k) then s else Renew(s, k, created)
    case Refresh(k, created) => Renew(s, k, created)
    case Write(k, v) => if k in s.table then s.(table := s.table[k := s.table[k].(value := v)]) else s
    case Drop => s.(table := map k | k in s.table && s.now <= s.table[k].expiry :: s.table[k])
  }

  // ----- visibility, from the operations alone

  function Run<K, V>(s: State<K, V>, ops: seq<Op<K, V>>): State<K, V>
    decreases |ops|
  {
    if |ops| == 0 then s else Run(Step(s, ops[0]), ops[1..])
  }

  /** Reading a visible entry changes no lookup, neither at once nor at any later time: it does not
      prolong what it reads. */
  lemma ReadingChangesNothing<K(!new), V>(s: State<K, V>, k: K, created: V, later: nat)
    requires Visible(s, k)
    ensures forall x ::
      Lookup(Step(Step(s, GetValue(k, created)), Advance(later)), x) == Lookup(Step(s, Advance(later)), x)
  {
  }

  /** When a key was last created, refreshed or resurrected, and the lifetime set at that time. */
  datatype Grant<V> = Grant(value: V, at: int, lifetime: int)

  datatype Watch<V> = Watch(now: int, lifetime: int, grant: Option<Grant<V>>)

  predicate Shown<V>(w: Watch<V>) {
    w.grant.Some? && w.now - w.grant.value.at <= w.grant.value.lifetime
  }

  function Granted<V>(w: Watch<V>, created: V): Watch<V> {
    w.(grant := Some(Grant(if w.grant.Some? then w.grant.value.value else created, w.now, w.lifetime)))
  }

  /** What an operation means for one key. */
  function Watched<K(==), V>(w: Watch<V>, k: K, op: Op<K, V>): Watch<V> {
    match op
    case Advance(d) => w.(now := w.now + d)
    case SetLifetime(lifetime) => w.(lifetime := lifetime)
    case GetValue(key, created) => if key == k && !Shown(w) then Granted(w, created) else w
    case Refresh(key, created) => if key == k then Granted(w, created) else w
    case Write(key, value) =>
      if key == k && w.grant.Some? then w.(grant := Some(w.grant.value.(value := value))) else w
    case Drop => if Shown(w) then w else w.(grant := None)
  }

  function WatchedAll<K(==), V>(w: Watch<V>, k: K, ops: seq<Op<K, V>>): Watch<V>
    decreases |ops|
  {
    if |ops| == 0 then w else WatchedAll(Watched(w, k, ops[0]), k, ops[1..])
  }

  predicate Tells<K, V(==)>(w: Watch<V>, s: State<K, V>, k: K) {
    && w.now == s.now && w.lifetime == s.lifetime
    && (k in s.table <==> w.grant.Some?)
    && (k in s.table ==>
          var g := w.grant.value; s.table[k].value == g.value && s.table[k].expiry == g.at + g.lifetime)
  }

  lemma {:induction false} StaysTold<K, V>(w: Watch<V>, s: State<K, V>, k: K, ops: seq<Op<K, V>>)
    requires Tells(w, s, k)
    ensures Tells(WatchedAll(w, k, ops), Run(s, ops), k)
    decreases |ops|
  {
    if |ops| != 0 {
      StaysTold(Watched(w, k, ops[0]), Step(s, ops[0]), k, ops[1..]);
    }
  }

  /** In every run a key is visible exactly if no more time has passed since it was last created,
      refreshed or resurrected than the lifetime set at that time; and it has the value it was
      created with or last written, unless it has been dropped in between. */
  lemma VisibleExactly<K, V>(start: int, lifetime: int, ops: seq<Op<K, V>>, k: K)
    ensures
      var s, w := Run(State(start, lifetime, map[]), ops), WatchedAll(Watch(start, lifetime, None), k, ops);
      && (Visible(s, k) <==> Shown(w))
      && Lookup(s, k) == (if Shown(w) then Some(w.grant.value.value) else None)
  {
    StaysTold(Watch(start, lifetime, None), State(start, lifetime, map[]), k, ops);
  }

  // ----- dropping changes no result

  /** Dropping removes exactly the invisible keys, and no lookup or iteration can tell, neither
      at once nor at any later time. */
  lemma DropTransparent<K(!new), V>(s: State<K, V>, later: nat)
    ensures forall k :: k in Step(s, Drop).table <==> Visible(s, k)
    ensures forall k :: Lookup(Step(Step(s, Drop), Advance(later)), k) == Lookup(Step(s, Advance(later)), k)
    ensures Contents(Step(Step(s, Drop), Advance(later))) == Contents(Step(s, Advance(later)))
  {
    var a, b := Step(Step(s, Drop), Advance(later)), Step(s, Advance(later));
    assert forall k :: k in Contents(a) <==> k in Contents(b);
  }

  /** Indistinguishable by lookups at this time. */
  ghost predicate Alike<K(!new), V>(a: State<K, V>, b: State<K, V>) {
    a.now == b.now && a.lifetime == b.lifetime && forall k :: Lookup(a, k) == Lookup(b, k)
  }

  /** A key stored in both maps has the same value in both; stored in only one, it has the value
      that the creator would supply to the other. */
  predicate SameStored<K, V(==)>(a: State<K, V>, b: State<K, V>, k: K, created: V) {
    if k in a.table then
      (if k in b.table then a.table[k].value == b.table[k].value else a.table[k].value == created)
    else
      k in b.table ==> b.table[k].value == created
  }

  /** Accessing a key keeps two maps indistinguishable to lookups exactly when they store the same
      for it, or when a negative lifetime hides what is accessed. */
  lemma AccessAlike<K(!new), V>(a: State<K, V>, b: State<K, V>, k: K, created: V)
    requires Alike(a, b)
    ensures Alike(Step(a, Refresh(k, created)), Step(b, Refresh(k, created))) <==>
      SameStored(a, b, k, created) || a.lifetime < 0
  {
    var a', b' := Step(a, Refresh(k, created)), Step(b, Refresh(k, created));
    assert Lookup(a, k) == Lookup(b, k);
    if a.lifetime >= 0 {
      assert Lookup(a', k) == Some(Found(a, k, created)) && Lookup(b', k) == Some(Found(b, k, created));
    } else {
      assert Lookup(a', k) == None == Lookup(b', k);
    }
    forall x | x != k ensures Lookup(a', x) == Lookup(b', x) {
      assert Lookup(a, x) == Lookup(b, x);
    }
  }

  predicate Accesses<K, V>(op: Op<K, V>) {
    op.GetValue? || op.Refresh?
  }

  /** A step of a map that is never dropped. */
  function StepKeeping<K, V>(s: State<K, V>, op: Op<K, V>): State<K, V> {
    if op.Drop? then s else Step(s, op)
  }

  /** `a` is `b` after some expired entries have gone. */
  ghost predicate Thinned<K(!new), V>(a: State<K, V>, b: State<K, V>) {
    && a.now == b.now && a.lifetime == b.lifetime
    && (forall k :: k in a.table ==> k in b.table && a.table[k] == b.table[k])
    && (forall k :: Visible(b, k) ==> k in a.table)
  }

  /** The key is stored, absent from both maps, or was dropped with the value the creator supplies. */
  predicate Clean<K, V(==)>(a: State<K, V>, b: State<K, V>, op: Op<K, V>) {
    Accesses(op) ==> op.key in a.table || op.key !in b.table || b.table[op.key].value == op.created
  }

  predicate CleanThroughout<K, V(==)>(a: State<K, V>, b: State<K, V>, ops: seq<Op<K, V>>)
    decreases |ops|
  {
    ops != [] ==> Clean(a, b, ops[0]) && CleanThroughout(Step(a, ops[0]), StepKeeping(b, ops[0]), ops[1..])
  }

  /** With and without drops, lookups are the same at every point of a run. */
  ghost predicate LooksSameThroughout<K(!new), V>(a: State<K, V>, b: State<K, V>, ops: seq<Op<K, V>>)
    decreases |ops|
  {
    && Alike(a, b)
    && (ops != [] ==> LooksSameThroughout(Step(a, ops[0]), StepKeeping(b, ops[0]), ops[1..]))
  }

  /** And so is what accesses find. */
  ghost predicate SameThroughout<K(!new), V>(a: State<K, V>, b: State<K, V>, ops: seq<Op<K, V>>)
    decreases |ops|
  {
    && Alike(a, b)
    && (ops != [] ==>
          && (Accesses(ops[0]) ==> Found(a, ops[0].key, ops[0].created) == Found(b, ops[0].key, ops[0].created))
          && SameThroughout(Step(a, ops[0]), StepKeeping(b, ops[0]), ops[1..]))
  }

  lemma ThinnedAlike<K(!new), V>(a: State<K, V>, b: State<K, V>)
    requires Thinned(a, b)
    ensures Alike(a, b)
  {
    forall k ensures Lookup(a, k) == Lookup(b, k) {
      assert Visible(b, k) ==> k in a.table;
    }
  }

  lemma StepThinned<K(!new), V>(a: State<K, V>, b: State<K, V>, op: Op<K, V>)
    requires Thinned(a, b) && Clean(a, b, op)
    ensures Thinned(Step(a, op), StepKeeping(b, op))
  {
  }

  /** No result of a run, neither of a lookup at any point nor of an access, tells whether entries
      were dropped exactly when no access meets a key that was dropped with another value than the
      creator supplies. */
  lemma {:induction false} DropsInvisible<K(!new), V>(a: State<K, V>, b: State<K, V>, ops: seq<Op<K, V>>)
    requires Thinned(a, b)
    ensures SameThroughout(a, b, ops) <==> CleanThroughout(a, b, ops)
    decreases |ops|
  {
    ThinnedAlike(a, b);
    if ops != [] {
      if Clean(a, b, ops[0]) {
        StepThinned(a, b, ops[0]);
        DropsInvisible(Step(a, ops[0]), StepKeeping(b, ops[0]), ops[1..]);
      }
    }
  }

  /** Entries live for some time. */
  predicate Lasting<K, V>(lifetime: int, ops: seq<Op<K, V>>) {
    lifetime >= 0 && forall i :: 0 <= i < |ops| && ops[i].SetLifetime? ==> ops[i].lifetime >= 0
  }

  /** Unless lifetimes are negative, lookups alone tell. */
  lemma {:induction false} DropsInvisibleToLookups<K(!new), V>(a: State<K, V>, b: State<K, V>, ops: seq<Op<K, V>>)
    requires Thinned(a, b) && Lasting(a.lifetime, ops)
    ensures LooksSameThroughout(a, b, ops) <==> CleanThroughout(a, b, ops)
    decreases |ops|
  {
    ThinnedAlike(a, b);
    if ops != [] {
      var a', b' := Step(a, ops[0]), StepKeeping(b, ops[0]);
      if Clean(a, b, ops[0]) {
        StepThinned(a, b, ops[0]);
        DropsInvisibleToLookups(a', b', ops[1..]);
      } else {
        assert Lookup(a', ops[0].key) == Some(ops[0].created);
        assert Lookup(b', ops[0].key) == Some(b.table[ops[0].key].value);
      }
    }
  }

  /** A refreshed entry keeps its old value unless it was dropped in between. */
  lemma DropTells()
    ensures exists ops: seq<Op<int, int>> ::
      var start: State<int, int> := State(0, 10, map[]);
      !LooksSameThroughout(start, start, ops)
  {
    var start: State<int, int> := State(0, 10, map[]);
    var ops: seq<Op<int, int>> := [GetValue(0, 7), Advance(11), Drop, Refresh(0, 0)];
    var s1 := Step(start, ops[0]);
    assert s1.table == map[0 := Cell(7, 10)];
    var s2 := Step(s1, ops[1]);
    var s3 := Step(s2, ops[2]);
    assert 0 !in s3.table && s2.table[0] == Cell(7, 10);
    assert ops[1..][1..] == ops[2..] && ops[2..][1..] == ops[3..];
    assert !Clean(s3, s2, ops[3..][0]);
    assert !CleanThroughout(s3, s2, ops[3..]);
    assert !CleanThroughout(s2, s2, ops[2..]);
    assert !CleanThroughout(s1, s1, ops[1..]);
    DropsInvisibleToLookups(start, start, ops);
  }

  /** Thinning that leaves nothing expired is dropping. */
  lemma ThinnedToVisible<K(!new), V>(a: State<K, V>, b: State<K, V>)
    requires Thinned(a, b) && forall k :: k in a.table ==> Visible(a, k)
    ensures a == Step(b, Drop)
  {
    assert a.table == Step(b, Drop).table;
  }

  // ----- heap and table

  datatype Item<K> = Item(expiry: int, key: K)

  datatype Slot<V> = Slot(value: V, handle: nat)

  type Heap<K> = map<nat, Item<K>>

  /** Table slots and heap items point at each other, one to one. */
  ghost predicate Agree<K(!new), V>(heap: Heap<K>, slots: map<K, Slot<V>>) {
    && (forall k :: k in slots ==> slots[k].handle in heap && heap[slots[k].handle].key == k)
    && (forall h :: h in heap ==> heap[h].key in slots && slots[heap[h].key].handle == h)
  }

  ghost function Table<K(!new), V>(heap: Heap<K>, slots: map<K, Slot<V>>): map<K, Cell<V>>
    requires Agree(heap, slots)
  {
    map k | k in slots :: Cell(slots[k].value, heap[slots[k].handle].expiry)
  }

  predicate IsTop<K(==)>(heap: Heap<K>, h: nat) {
    h in heap && forall g :: g in heap ==> heap[h].expiry <= heap[g].expiry
  }

  lemma {:induction false} TopExists<K>(heap: Heap<K>)
    requires heap != map[]
    ensures exists h :: IsTop(heap, h)
    decreases |heap|
  {
    var g :| g in heap;
    var rest := heap - {g};
    if rest == map[] {
      assert forall x :: x in heap ==> x == g by {
        assert forall x :: x in heap && x != g ==> x in rest;
      }
      assert IsTop(heap, g);
    } else {
      assert rest.Keys == heap.Keys - {g};
      TopExists(rest);
      var t :| IsTop(rest, t);
      assert forall x :: x in heap ==> x == g || x in rest;
      assert IsTop(heap, if heap[g].expiry <= heap[t].expiry then g else t);
    }
  }

  /** The expired entries still in the table are those of the heap, so an unexpired top means
      that nothing expired is left. */
  lemma TopDecides<K(!new), V>(heap: Heap<K>, slots: map<K, Slot<V>>, h: nat, now: int)
    requires Agree(heap, slots) && IsTop(heap, h) && now <= heap[h].expiry
    ensures forall k :: k in slots ==> now <= Table(heap, slots)[k].expiry
  {
  }

  /** Erasing an item and its slot keeps the agreement and erases exactly that entry. */
  lemma EraseEntry<K(!new), V>(heap: Heap<K>, slots: map<K, Slot<V>>, h: nat)
    requires Agree(heap, slots) && h in heap
    ensures Agree(heap - {h}, slots - {heap[h].key})
    ensures Table(heap - {h}, slots - {heap[h].key}) == Table(heap, slots) - {heap[h].key}
    ensures |heap - {h}| < |heap|
  {
    var k := heap[h].key;
    var heap', slots' := heap - {h}, slots - {k};
    assert heap'.Keys == heap.Keys - {h};
    forall x | x in slots' ensures slots'[x].handle in heap' && heap'[slots'[x].handle].key == x {
      assert x in slots && x != k;
    }
    forall g | g in heap' ensures heap'[g].key in slots' && slots'[heap'[g].key].handle == g {
      assert g in heap && g != h;
    }
    assert Table(heap', slots') == Table(heap, slots) - {k};
  }

  class SoftStateMap<K(==, !new), V> {
    var now: int        // the runtime's clock
    var lifetime: int
    var heap: Heap<K>
    var slots: map<K, Slot<V>>
    var nextHandle: nat

    ghost predicate Valid()
      reads this
    {
      Agree(heap, slots) && forall h :: h in heap ==> h < nextHandle
    }

    ghost function View(): State<K, V>
      reads this
      requires Valid()
    {
      State(now, lifetime, Table(heap, slots))
    }

    constructor (now: int, lifetime: int)
      ensures Valid() && View() == State(now, lifetime, map[])
    {
      this.now, this.lifetime, heap, slots, nextHandle := now, lifetime, map[], map[], 0;
    }

    predicate IsExpired(item: Item<K>)
      reads this
    {
      now > item.expiry
    }

    method AdvanceClock(d: nat)
      requires Valid()
      modifies this`now
      ensures Valid() && View() == Step(old(View()), Advance(d))
    {
      now := now + d;
    }

    method ChangeLifetime(l: int)
      requires Valid()
      modifies this`lifetime
      ensures Valid() && View() == Step(old(View()), SetLifetime(l))
    {
      lifetime := l;
    }

    /** Give an existing entry a new lifetime through its handle. */
    method RefreshHandle(h: nat)
      requires Valid() && h in heap
      modifies this`heap
      ensures Valid() && View() == old(View()).(table := old(View()).table[old(heap)[h].key :=
        Cell(slots[old(heap)[h].key].value, now + lifetime)])
    {
      assert heap[h].key in slots;
      heap := heap[h := heap[h].(expiry := now + lifetime)];
    }

    method Insert(k: K, v: V)
      requires Valid() && k !in slots
      modifies this
      ensures Valid() && View() == old(View()).(table := old(View()).table[k := Cell(v, now + lifetime)])
      ensures k in slots && slots[k].value == v
    {
      heap := heap[nextHandle := Item(now + lifetime, k)];
      slots := slots[k := Slot(v, nextHandle)];
      nextHandle := nextHandle + 1;
    }

    method GetData(k: K, created: V) returns (v: V)
      requires Valid()
      modifies this
      ensures Valid() && View() == Step(old(View()), GetValue(k, created))
      ensures v == Found(old(View()), k, created)
    {
      if k !in slots {
        Insert(k, created);
      } else if IsExpired(heap[slots[k].handle]) {
        RefreshHandle(slots[k].handle);
      }
      v := slots[k].value;
    }

    method GetValuePtr(k: K) returns (v: Option<V>)
      requires Valid()
      ensures v == Lookup(View(), k)
    {
      if k in slots && !IsExpired(heap[slots[k].handle]) {
        return Some(slots[k].value);
      }
      return None;
    }

    method HasValue(k: K) returns (has: bool)
      requires Valid()
      ensures has <==> Visible(View(), k)
    {
      var v := GetValuePtr(k);
      has := v.Some?;
    }

    /** All entries that have not expired. */
    method Map() returns (m: map<K, V>)
      requires Valid()
      ensures m == Contents(View())
    {
      m := map k | k in slots && !IsExpired(heap[slots[k].handle]) :: slots[k].value;
    }

    method RefreshKey(k: K, created: V) returns (v: V)
      requires Valid()
      modifies this
      ensures Valid() && View() == Step(old(View()), Refresh(k, created))
      ensures v == Found(old(View()), k, created)
    {
      if k in slots {
        RefreshHandle(slots[k].handle);
        v := slots[k].value;
      } else {
        v := GetData(k, created);
      }
    }

    /** Writing through the reference an access has returned. */
    method WriteValue(k: K, v: V)
      requires Valid()
      modifies this`slots
      ensures Valid() && View() == Step(old(View()), Write(k, v))
    {
      if k in slots {
        slots := slots[k := slots[k].(value := v)];
      }
    }

    /** Any item of least expiry; ties are up to the heap. */
    method Top() returns (h: nat)
      requires heap != map[]
      ensures IsTop(heap, h)
    {
      TopExists(heap);
      h :| h in heap && IsTop(heap, h);
    }

    /** Remove the entry of the earliest expiry, if that has passed. */
    method PopExpired() returns (more: bool)
      requires Valid()
      modifies this`heap, this`slots
      ensures Valid() && Thinned(View(), old(View()))
      ensures more ==> |heap| < |old(heap)|
      ensures !more ==> forall k :: k in View().table ==> Visible(View(), k)
    {
      if heap == map[] {
        return false;
      }
      var h := Top();
      if !IsExpired(heap[h]) {
        TopDecides(heap, slots, h, now);
        return false;
      }
      EraseEntry(heap, slots, h);
      slots := slots - {heap[h].key};
      heap := heap - {h};
      return true;
    }

    method DropExpired()
      requires Valid()
      modifies this`heap, this`slots
      ensures Valid() && View() == Step(old(View()), Drop)
    {
      ghost var before := View();
      var more := true;
      while more
        invariant Valid() && Thinned(View(), before)
        invariant !more ==> forall k :: k in View().table ==> Visible(View(), k)
        decreases more, |heap|
      {
        more := PopExpired();
      }
      ThinnedToVisible(View(), before);
    }
  }
}
