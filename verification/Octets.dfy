/** Octets in a row, as inductive lists that are read from the front and written before what follows. */
module Octets {

  type byte = x: int | 0 <= x < 256

  type uint16 = x: int | 0 <= x < 0x1_0000

  type uint32 = x: int | 0 <= x < 0x1_0000_0000

  datatype Octets = Nil | Octet(first: byte, more: Octets)

  function Length(d: Octets): nat {
    if d.Nil? then 0 else 1 + Length(d.more)
  }

  function Append(d: Octets, t: Octets): Octets {
    if d.Nil? then t else Octet(d.first, Append(d.more, t))
  }

  /** The first `n`, or as many as there are. */
  function First(n: nat, d: Octets): Octets {
    if n == 0 || d.Nil? then Nil else Octet(d.first, First(n - 1, d.more))
  }

  /** What follows the first `n`. */
  function Skip(n: nat, d: Octets): Octets {
    if n == 0 || d.Nil? then d else Skip(n - 1, d.more)
  }

  lemma {:induction false} AppendParts(d: Octets, t: Octets)
    ensures Length(Append(d, t)) == Length(d) + Length(t)
    ensures First(Length(d), Append(d, t)) == d && Skip(Length(d), Append(d, t)) == t
  {
    if d.Octet? {
      AppendParts(d.more, t);
    }
  }

  lemma {:induction false} Parts(n: nat, d: Octets)
    requires n <= Length(d)
    ensures Append(First(n, d), Skip(n, d)) == d
    ensures Length(First(n, d)) == n && Length(Skip(n, d)) == Length(d) - n
  {
    if n > 0 {
      Parts(n - 1, d.more);
    }
  }

  /** The octets of a buffer from an offset on. */
  function From(data: seq<byte>, offset: nat): Octets
    decreases |data| - offset
  {
    if offset >= |data| then Nil else Octet(data[offset], From(data, offset + 1))
  }

  lemma {:induction false} FromLength(data: seq<byte>, offset: nat)
    requires offset <= |data|
    ensures Length(From(data, offset)) == |data| - offset
    decreases |data| - offset
  {
    if offset < |data| {
      FromLength(data, offset + 1);
    }
  }

  lemma {:induction false} FromSkip(data: seq<byte>, offset: nat, n: nat)
    requires offset + n <= |data|
    ensures Skip(n, From(data, offset)) == From(data, offset + n)
    decreases n
  {
    if n > 0 {
      FromSkip(data, offset + 1, n - 1);
    }
  }

  lemma {:induction false} FromWindow(data: seq<byte>, offset: nat, i: nat, n: nat)
    requires i <= n && offset + n <= |data|
    ensures From(data[offset..offset + n], i) == First(n - i, From(data, offset + i))
    decreases n - i
  {
    if i < n {
      FromWindow(data, offset, i + 1, n);
    }
  }

  // ----- numbers of four octets

  /** Four octets, the most significant one first. */
  datatype Word = Word(a: byte, b: byte, c: byte, d: byte)

  function Number(w: Word): uint32 {
    w.a * 0x100_0000 + w.b * 0x1_0000 + w.c * 0x100 + w.d
  }

  /** A word from or to the order in which its octets are sent. */
  function Ordered(w: Word, little: bool): Word {
    if little then Word(w.d, w.c, w.b, w.a) else w
  }

  lemma SameWord(v: Word, w: Word)
    requires Number(v) == Number(w)
    ensures v == w
  {
    LastDigit(v.a * 0x1_0000 + v.b * 0x100 + v.c, v.d, w.a * 0x1_0000 + w.b * 0x100 + w.c, w.d);
    LastDigit(v.a * 0x100 + v.b, v.c, w.a * 0x100 + w.b, w.c);
    LastDigit(v.a, v.b, w.a, w.b);
  }

  lemma LastDigit(m: nat, a: byte, n: nat, b: byte)
    requires m * 0x100 + a == n * 0x100 + b
    ensures a == b && m == n
  {
  }

  lemma WordExists(n: uint32)
    ensures exists w :: Number(w) == n
  {
    var high, low := n / 0x1_0000, n % 0x1_0000;
    assert Number(Word(high / 0x100, high % 0x100, low / 0x100, low % 0x100)) == n;
  }

  /** The word of a number of at most 32 bits; of a greater one it keeps the low bits. */
  ghost function Spelled(n: nat): (w: Word)
    ensures Number(w) == n % 0x1_0000_0000
  {
    WordExists(n % 0x1_0000_0000);
    var w :| Number(w) == n % 0x1_0000_0000;
    w
  }

  lemma SpelledBack(w: Word)
    ensures Spelled(Number(w)) == w
  {
    var n: nat := Number(w);
    assert n % 0x1_0000_0000 == n;
    SameWord(Spelled(n), w);
  }
}
