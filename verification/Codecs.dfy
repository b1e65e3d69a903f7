/** Fixed-size codecs over octets and how they compose. */
module Codecs {
  import opened Octets

  /** `put` writes a value in front of what follows; `get` and `after` split it off again. */
  datatype Codec<!T> = Codec(size: nat, put: (T, Octets) -> Octets, get: Octets -> T, after: Octets -> Octets)

  datatype Both<+A, +B> = Both(first: A, second: B)

  /** Every value is read back, whatever follows, and any octets, if there are enough of them, are
      those written for the value read. */
  ghost predicate Lawful<T(!new)>(c: Codec<T>) {
    && (forall x, t ::
          c.get(c.put(x, t)) == x && c.after(c.put(x, t)) == t && Length(c.put(x, t)) == Length(t) + c.size)
    && (forall d {:trigger c.get(d)} {:trigger c.after(d)} :: Length(d) >= c.size ==>
          c.put(c.get(d), c.after(d)) == d && Length(c.after(d)) == Length(d) - c.size)
  }

  function Pair<A, B>(a: Codec<A>, b: Codec<B>): Codec<Both<A, B>> {
    Codec(a.size + b.size,
      (p: Both<A, B>, t) => a.put(p.first, b.put(p.second, t)),
      d => Both(a.get(d), b.get(a.after(d))),
      d => b.after(a.after(d)))
  }

  lemma PairLawful<A(!new), B(!new)>(a: Codec<A>, b: Codec<B>)
    requires Lawful(a) && Lawful(b)
    ensures Lawful(Pair(a, b))
  {
    var c := Pair(a, b);
    forall p: Both<A, B>, t
      ensures c.get(c.put(p, t)) == p && c.after(c.put(p, t)) == t && Length(c.put(p, t)) == Length(t) + c.size
    {
      assert Length(b.put(p.second, t)) == Length(t) + b.size;
    }
    forall d | Length(d) >= c.size
      ensures c.put(c.get(d), c.after(d)) == d && Length(c.after(d)) == Length(d) - c.size
    {
      assert Length(a.after(d)) == Length(d) - a.size;
    }
  }

  function Mapped<A, B>(c: Codec<A>, f: A -> B, g: B -> A): Codec<B> {
    Codec(c.size, (y, t) => c.put(g(y), t), d => f(c.get(d)), c.after)
  }

  ghost predicate Inverse<A(!new), B(!new)>(f: A -> B, g: B -> A) {
    (forall x :: g(f(x)) == x) && (forall y :: f(g(y)) == y)
  }

  lemma MappedLawful<A(!new), B(!new)>(c: Codec<A>, f: A -> B, g: B -> A)
    requires Lawful(c) && Inverse(f, g)
    ensures Lawful(Mapped(c, f, g))
  {
    var m := Mapped(c, f, g);
    forall y, t
      ensures m.get(m.put(y, t)) == y && m.after(m.put(y, t)) == t && Length(m.put(y, t)) == Length(t) + m.size
    {
      assert c.get(c.put(g(y), t)) == g(y);
    }
    forall d | Length(d) >= m.size
      ensures m.put(m.get(d), m.after(d)) == d && Length(m.after(d)) == Length(d) - m.size
    {
      assert g(f(c.get(d))) == c.get(d);
    }
  }

  // ----- integers in network byte order

  type int32 = x: int | -0x8000_0000 <= x < 0x8000_0000

  function PutByte(x: byte, t: Octets): Octets {
    Octet(x, t)
  }

  function GetByte(d: Octets): byte {
    if d.Octet? then d.first else 0
  }

  function AfterByte(d: Octets): Octets {
    if d.Octet? then d.more else Nil
  }

  function U8(): Codec<byte> {
    Codec(1, PutByte, GetByte, AfterByte)
  }

  lemma U8Lawful()
    ensures Lawful(U8())
  {
  }

  function Join16(p: Both<byte, byte>): uint16 {
    var high: int := p.first;
    high * 0x100 + p.second
  }

  function Split16(n: uint16): Both<byte, byte> {
    Both(n / 0x100, n % 0x100)
  }

  lemma Split16Join(p: Both<byte, byte>)
    ensures Split16(Join16(p)) == p
  {
  }

  lemma Join16Split(n: uint16)
    ensures Join16(Split16(n)) == n
  {
  }

  function U16(): Codec<uint16> {
    Mapped(Pair(U8(), U8()), Join16, Split16)
  }

  lemma U16Lawful()
    ensures Lawful(U16())
  {
    U8Lawful();
    PairLawful(U8(), U8());
    forall p ensures Split16(Join16(p)) == p {
      Split16Join(p);
    }
    forall n ensures Join16(Split16(n)) == n {
      Join16Split(n);
    }
    MappedLawful(Pair(U8(), U8()), Join16, Split16);
  }

  function Join32(p: Both<uint16, uint16>): uint32 {
    var high: int := p.first;
    high * 0x1_0000 + p.second
  }

  function Split32(n: uint32): Both<uint16, uint16> {
    Both(n / 0x1_0000, n % 0x1_0000)
  }

  lemma Split32Join(p: Both<uint16, uint16>)
    ensures Split32(Join32(p)) == p
  {
  }

  lemma Join32Split(n: uint32)
    ensures Join32(Split32(n)) == n
  {
  }

  function U32(): Codec<uint32> {
    Mapped(Pair(U16(), U16()), Join32, Split32)
  }

  lemma U32Lawful()
    ensures Lawful(U32())
  {
    U16Lawful();
    PairLawful(U16(), U16());
    forall p ensures Split32(Join32(p)) == p {
      Split32Join(p);
    }
    forall n ensures Join32(Split32(n)) == n {
      Join32Split(n);
    }
    MappedLawful(Pair(U16(), U16()), Join32, Split32);
  }

  function Signed(n: uint32): int32 {
    if n < 0x8000_0000 then n else n - 0x1_0000_0000
  }

  function Unsigned(x: int32): uint32 {
    if x >= 0 then x else x + 0x1_0000_0000
  }

  function I32(): Codec<int32> {
    Mapped(U32(), Signed, Unsigned)
  }

  lemma I32Lawful()
    ensures Lawful(I32())
  {
    U32Lawful();
    MappedLawful(U32(), Signed, Unsigned);
  }

  // ----- octet by octet

  lemma PutPair<A, B>(a: Codec<A>, b: Codec<B>, x: A, y: B, t: Octets)
    ensures Pair(a, b).put(Both(x, y), t) == a.put(x, b.put(y, t))
  {
  }

  lemma PutMapped<A, B>(c: Codec<A>, f: A -> B, g: B -> A, y: B, t: Octets)
    ensures Mapped(c, f, g).put(y, t) == c.put(g(y), t)
  {
  }

  lemma U8Octet(x: byte, t: Octets)
    ensures U8().put(x, t) == Octet(x, t)
  {
  }

  lemma U16Octets(n: uint16, t: Octets)
    ensures U16().put(n, t) == Octet(n / 0x100, Octet(n % 0x100, t))
  {
    PutMapped(Pair(U8(), U8()), Join16, Split16, n, t);
    PutPair(U8(), U8(), n / 0x100, n % 0x100, t);
    U8Octet(n % 0x100, t);
    U8Octet(n / 0x100, Octet(n % 0x100, t));
  }

  lemma U32Octets(n: uint32, t: Octets)
    ensures U32().put(n, t) == U16().put(n / 0x1_0000, U16().put(n % 0x1_0000, t))
  {
    PutMapped(Pair(U16(), U16()), Join32, Split32, n, t);
    PutPair(U16(), U16(), n / 0x1_0000, n % 0x1_0000, t);
  }

  /** Two's complement. */
  lemma I32Octets(x: int32, t: Octets)
    ensures I32().put(x, t) == U32().put(if x < 0 then x + 0x1_0000_0000 else x, t)
  {
    PutMapped(U32(), Signed, Unsigned, x, t);
  }

  // ----- reading without function values

  function GetU16(d: Octets): uint16 {
    Join16(Both(GetByte(d), GetByte(AfterByte(d))))
  }

  function AfterU16(d: Octets): Octets {
    AfterByte(AfterByte(d))
  }

  function GetU32(d: Octets): uint32 {
    Join32(Both(GetU16(d), GetU16(AfterU16(d))))
  }

  function AfterU32(d: Octets): Octets {
    AfterU16(AfterU16(d))
  }

  function GetI32(d: Octets): int32 {
    Signed(GetU32(d))
  }

  lemma SplitOff(d: Octets)
    ensures U8().get(d) == GetByte(d) && U8().after(d) == AfterByte(d)
    ensures U16().get(d) == GetU16(d) && U16().after(d) == AfterU16(d)
    ensures U32().get(d) == GetU32(d) && U32().after(d) == AfterU32(d)
    ensures I32().get(d) == GetI32(d) && I32().after(d) == AfterU32(d)
  {
  }

  /** How reading `n` octets from an archive went: they were split off, or there were too few of
      them, which are used up. */
  ghost predicate Took(n: nat, before: Octets, ok: bool, after: Octets, expected: Octets) {
    && (ok <==> Length(before) >= n)
    && (if ok then after == expected && Length(before) == Length(after) + n else after == Nil)
  }

  class InputArchive {
    const data: seq<byte>
    var position: nat
    var good: bool

    ghost predicate Valid()
      reads this
    {
      position <= |data|
    }

    ghost function Rest(): Octets
      reads this
    {
      From(data, position)
    }

    constructor (data: seq<byte>)
      ensures Valid() && good && this.data == data && Rest() == From(data, 0)
    {
      this.data, position, good := data, 0, true;
    }

    /** An incomplete read uses up what there is. */
    method Load(n: nat) returns (ok: bool, b: seq<byte>)
      requires Valid()
      modifies this
      ensures Valid() && |b| == n && ok == (Length(old(Rest())) >= n)
      ensures good == (old(good) && ok)
      ensures ok ==> old(position) + n <= |data| && b == data[old(position)..old(position) + n]
      ensures ok ==> position == old(position) + n && Length(old(Rest())) == Length(Rest()) + n
      ensures !ok ==> Rest() == Nil
    {
      FromLength(data, position);
      ok := |data| - position >= n;
      if ok {
        b := data[position..position + n];
        position := position + n;
        FromLength(data, position);
      } else {
        b := seq(n, _ => 0);
        position := |data|;
        good := false;
      }
    }

    method ReadU8() returns (ok: bool, x: byte)
      requires Valid()
      modifies this
      ensures Valid() && good == (old(good) && ok)
      ensures Took(1, old(Rest()), ok, Rest(), AfterByte(old(Rest()))) && (ok ==> x == GetByte(old(Rest())))
    {
      var b;
      ok, b := Load(1);
      x := b[0];
    }

    method ReadU16() returns (ok: bool, x: uint16)
      requires Valid()
      modifies this
      ensures Valid() && good == (old(good) && ok)
      ensures Took(2, old(Rest()), ok, Rest(), AfterU16(old(Rest()))) && (ok ==> x == GetU16(old(Rest())))
    {
      var b;
      ok, b := Load(2);
      x := Join16(Both(b[0], b[1]));
      if ok {
        TwoAt(data, old(position));
      }
    }

    method ReadU32() returns (ok: bool, x: uint32)
      requires Valid()
      modifies this
      ensures Valid() && good == (old(good) && ok)
      ensures Took(4, old(Rest()), ok, Rest(), AfterU32(old(Rest()))) && (ok ==> x == GetU32(old(Rest())))
    {
      var b;
      ok, b := Load(4);
      x := Join32(Both(Join16(Both(b[0], b[1])), Join16(Both(b[2], b[3]))));
      if ok {
        TwoAt(data, old(position));
        TwoAt(data, old(position) + 2);
      }
    }

    method ReadI32() returns (ok: bool, x: int32)
      requires Valid()
      modifies this
      ensures Valid() && good == (old(good) && ok)
      ensures Took(4, old(Rest()), ok, Rest(), AfterU32(old(Rest()))) && (ok ==> x == GetI32(old(Rest())))
    {
      var n;
      ok, n := ReadU32();
      x := Signed(n);
    }
  }

  lemma TwoAt(data: seq<byte>, i: nat)
    requires i + 2 <= |data|
    ensures From(data, i) == Octet(data[i], Octet(data[i + 1], From(data, i + 2)))
  {
  }
}
