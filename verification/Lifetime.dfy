/** The one-byte packet lifetime (multiplier and base) and its reduction by queuing time.
    Durations are integer microseconds. */
module Lifetimes {
  import opened Collections

  type Byte = b: int | 0 <= b < 256

  /** Duration represented by multiplier 1 in the given base. */
  function Unit(base: nat): (u: int)
    requires base < 4
    ensures u > 0
  {
    match base
    case 0 => 50_000
    case 1 => 1_000_000
    case 2 => 10_000_000
    case _ => 100_000_000
  }

  function Base(raw: Byte): (b: nat)
    ensures b < 4
  {
    raw % 4
  }

  function Multiplier(raw: Byte): (m: nat)
    ensures m < 64
  {
    raw / 4
  }

  /** The six-bit multiplier keeps only the low bits of what it is given. */
  function Pack(base: nat, multiplier: int): Byte
    requires base < 4
  {
    (multiplier % 64) * 4 + base
  }

  function Decode(raw: Byte): (d: int)
    ensures 0 <= d <= 6_300_000_000
  {
    match Base(raw)
    case 0 => Multiplier(raw) * 50_000
    case 1 => Multiplier(raw) * 1_000_000
    case 2 => Multiplier(raw) * 10_000_000
    case _ => Multiplier(raw) * 100_000_000
  }

  function SelectedBase(d: int): (b: nat)
    ensures b < 4
  {
    if d >= 630_000_000 then 3
    else if d >= 63_000_000 then 2
    else if d >= 3_150_000 then 1
    else 0
  }

  /** Nearest multiple, halves away from zero. */
  function RoundToUnits(d: int, u: int): int
    requires u > 0
  {
    if d >= 0 then (2 * d + u) / (2 * u) else -((-2 * d + u) / (2 * u))
  }

  function Encode(d: int): Byte {
    if d >= 630_000_000 then Pack(3, RoundToUnits(d, 100_000_000))
    else if d >= 63_000_000 then Pack(2, RoundToUnits(d, 10_000_000))
    else if d >= 3_150_000 then Pack(1, RoundToUnits(d, 1_000_000))
    else Pack(0, RoundToUnits(d, 50_000))
  }

  lemma PackUnpack(base: nat, multiplier: nat)
    requires base < 4 && multiplier < 64
    ensures Base(Pack(base, multiplier)) == base && Multiplier(Pack(base, multiplier)) == multiplier
  {
  }

  lemma RoundToUnitsNearest(d: int, u: int)
    requires d >= 0 && u > 0
    ensures -u <= 2 * (d - RoundToUnits(d, u) * u) < u
  {
    var n, w := 2 * d + u, 2 * u;
    assert n == (n / w) * w + n % w && 0 <= n % w < w;
    assert (n / w) * w == 2 * ((n / w) * u);
  }

  /** `out` holds the multiple of d's selected unit nearest to d, halves upwards. */
  predicate Nearest(d: int, out: Byte) {
    && Base(out) == SelectedBase(d)
    && (Base(out) == 0 ==> -50_000 <= 2 * (d - Multiplier(out) * 50_000) < 50_000)
    && (Base(out) == 1 ==> -1_000_000 <= 2 * (d - Multiplier(out) * 1_000_000) < 1_000_000)
    && (Base(out) == 2 ==> -10_000_000 <= 2 * (d - Multiplier(out) * 10_000_000) < 10_000_000)
    && (Base(out) == 3 ==> -100_000_000 <= 2 * (d - Multiplier(out) * 100_000_000) < 100_000_000)
  }

  /** For every duration on which six bits suffice, encoding picks the nearest value. */
  lemma EncodeNearest(d: int)
    requires 0 <= d < 6_350_000_000
    ensures Nearest(d, Encode(d))
  {
    if d >= 630_000_000 {
      RoundToUnitsNearest(d, 100_000_000);
      PackUnpack(3, RoundToUnits(d, 100_000_000));
    } else if d >= 63_000_000 {
      RoundToUnitsNearest(d, 10_000_000);
      PackUnpack(2, RoundToUnits(d, 10_000_000));
    } else if d >= 3_150_000 {
      RoundToUnitsNearest(d, 1_000_000);
      PackUnpack(1, RoundToUnits(d, 1_000_000));
    } else {
      RoundToUnitsNearest(d, 50_000);
      PackUnpack(0, RoundToUnits(d, 50_000));
    }
  }

  /** Encoding loses at most half a unit of the selected base exactly for the durations
      below 6350 s; from there on the six-bit multiplier wraps. */
  lemma EncodeAccuracy(d: int)
    requires d >= 0
    ensures 2 * Abs(Decode(Encode(d)) - d) <= Unit(SelectedBase(d)) <==> d < 6_350_000_000
  {
    if d < 6_350_000_000 {
      EncodeNearest(d);
      NearestAccurate(d, Encode(d));
    }
  }

  lemma NearestAccurate(d: int, out: Byte)
    requires Nearest(d, out)
    ensures 2 * Abs(Decode(out) - d) <= Unit(SelectedBase(d))
  {
  }

  /** A received lifetime survives decoding and encoding unless it is the topmost
      multiplier of one of the three finer bases. */
  lemma ValueRoundTrip(raw: Byte)
    ensures Decode(Encode(Decode(raw))) == Decode(raw) <==> !(Multiplier(raw) == 63 && Base(raw) < 3)
  {
    EncodeNearest(Decode(raw));
    NearestValue(raw, Encode(Decode(raw)));
  }

  /** The byte itself is reproduced exactly when its base is the one its value selects. */
  lemma RawRoundTrip(raw: Byte)
    ensures Encode(Decode(raw)) == raw <==>
      (match Base(raw)
       case 0 => Multiplier(raw) <= 62
       case 1 => 4 <= Multiplier(raw) <= 62
       case 2 => 7 <= Multiplier(raw) <= 62
       case _ => 7 <= Multiplier(raw))
  {
    EncodeNearest(Decode(raw));
    NearestByte(raw, Encode(Decode(raw)));
  }

  lemma NearestValue(raw: Byte, out: Byte)
    requires Nearest(Decode(raw), out)
    ensures Decode(out) == Decode(raw) <==> !(Multiplier(raw) == 63 && Base(raw) < 3)
  {
    match Base(raw)
    case 0 => NearestValue0(raw, out);
    case 1 => NearestValue1(raw, out);
    case 2 => NearestValue2(raw, out);
    case _ => NearestValue3(raw, out);
  }

  lemma NearestValue0(raw: Byte, out: Byte)
    requires Nearest(Decode(raw), out) && Base(raw) == 0
    ensures Decode(out) == Decode(raw) <==> Multiplier(raw) != 63
  {
  }

  lemma NearestValue1(raw: Byte, out: Byte)
    requires Nearest(Decode(raw), out) && Base(raw) == 1
    ensures Decode(out) == Decode(raw) <==> Multiplier(raw) != 63
  {
  }

  lemma NearestValue2(raw: Byte, out: Byte)
    requires Nearest(Decode(raw), out) && Base(raw) == 2
    ensures Decode(out) == Decode(raw) <==> Multiplier(raw) != 63
  {
  }

  lemma NearestValue3(raw: Byte, out: Byte)
    requires Nearest(Decode(raw), out) && Base(raw) == 3
    ensures Decode(out) == Decode(raw)
  {
  }

  lemma NearestByte(raw: Byte, out: Byte)
    requires Nearest(Decode(raw), out)
    ensures out == raw <==>
      (match Base(raw)
       case 0 => Multiplier(raw) <= 62
       case 1 => 4 <= Multiplier(raw) <= 62
       case 2 => 7 <= Multiplier(raw) <= 62
       case _ => 7 <= Multiplier(raw))
  {
    ByteParts(raw, out);
    match Base(raw)
    case 0 =>
    case 1 =>
    case 2 =>
    case _ =>
  }

  lemma ByteParts(raw: Byte, out: Byte)
    ensures raw == out <==> Multiplier(raw) == Multiplier(out) && Base(raw) == Base(out)
  {
  }

  /** The pairs on which the order of two durations is inverted by encoding: the shorter is
      rounded up in the finer base, the longer is rounded down to the same boundary in the coarser one. */
  predicate Inverted(d1: int, d2: int) {
    || (3_025_000 <= d1 < 3_150_000 <= d2 < 3_500_000)
    || (60_500_000 <= d1 < 63_000_000 <= d2 < 65_000_000)
    || (605_000_000 <= d1 < 630_000_000 <= d2 < 650_000_000)
  }

  lemma EncodeOrder(d1: int, d2: int)
    requires 0 <= d1 <= d2 < 6_350_000_000
    ensures Decode(Encode(d1)) <= Decode(Encode(d2)) <==> !Inverted(d1, d2)
  {
    EncodeNearest(d1);
    EncodeNearest(d2);
    NearestOrder(d1, Encode(d1), d2, Encode(d2));
  }

  lemma NearestOrder(d1: int, o1: Byte, d2: int, o2: Byte)
    requires 0 <= d1 <= d2 && Nearest(d1, o1) && Nearest(d2, o2)
    ensures Decode(o1) <= Decode(o2) <==> !Inverted(d1, d2)
  {
  }

  /** Reduction of a lifetime by queuing time: the new byte and the remaining time. */
  function Reduce(raw: Byte, queuing: int): (Byte, int) {
    var lifetime := Decode(raw);
    if queuing <= 0 then (raw, lifetime)
    else if queuing < lifetime then (Encode(lifetime - queuing), lifetime - queuing)
    else (0, 0)
  }

  /** Below a decodable value, rounding cannot climb over it: that value is itself a multiple
      of the unit selected for anything smaller. */
  lemma EncodeNeverGains(raw: Byte, left: int)
    requires 0 < left < Decode(raw)
    ensures Decode(Encode(left)) <= Decode(raw)
  {
    EncodeNearest(left);
    NearestBelow(raw, left, Encode(left));
  }

  lemma NearestBelow(raw: Byte, left: int, out: Byte)
    requires 0 < left < Decode(raw) && Nearest(left, out)
    ensures Decode(out) <= Decode(raw)
  {
  }

  /** The returned remainder is exact; the byte on the wire never gains lifetime and is off
      by at most half a unit. */
  lemma ReduceSound(raw: Byte, queuing: int)
    ensures Reduce(raw, queuing).1 == Max(0, Decode(raw) - Max(0, queuing))
    ensures Decode(Reduce(raw, queuing).0) <= Decode(raw)
    ensures Reduce(raw, queuing).1 == 0 ==> Decode(Reduce(raw, queuing).0) == 0
    ensures
      2 * Abs(Decode(Reduce(raw, queuing).0) - Reduce(raw, queuing).1) <= Unit(SelectedBase(Reduce(raw, queuing).1))
  {
    var lifetime := Decode(raw);
    if 0 < queuing < lifetime {
      var left := lifetime - queuing;
      EncodeNeverGains(raw, left);
      EncodeAccuracy(left);
    }
  }

  /** The multiple of its selected unit nearest to a duration, halves upwards. */
  function Rounded(d: int): int {
    match SelectedBase(d)
    case 0 => RoundToUnits(d, 50_000) * 50_000
    case 1 => RoundToUnits(d, 1_000_000) * 1_000_000
    case 2 => RoundToUnits(d, 10_000_000) * 10_000_000
    case _ => RoundToUnits(d, 100_000_000) * 100_000_000
  }

  /** What is left of a lifetime after queuing for some time, as far as it can be encoded. */
  function Aged(left: int, queuing: int): int {
    if queuing <= 0 then left else if queuing < left then Rounded(left - queuing) else 0
  }

  lemma MultiplesApart(r: int, m: int, u: int)
    requires u > 0
    ensures m > r ==> m * u - r * u >= u
  {
    var k := m - r - 1;
    assert k * u == m * u - r * u - u;
    if k >= 0 {
      assert k * u >= 0;
    }
  }

  lemma SameMultiple(r: int, m: int, u: int)
    requires u > 0 && -u < m * u - r * u < u
    ensures m == r
  {
    MultiplesApart(r, m, u);
    MultiplesApart(m, r, u);
  }

  lemma OneMultiple(d: int, u: int, m: int, r: int)
    requires d >= 0 && u > 0 && -u <= 2 * (d - m * u) < u && r == RoundToUnits(d, u)
    ensures r == m
  {
    RoundToUnitsNearest(d, u);
    SameMultiple(r, m, u);
  }

  lemma NearestRounded(d: int, out: Byte)
    requires 0 <= d && Nearest(d, out)
    ensures Decode(out) == Rounded(d)
  {
    match Base(out)
    case 0 => OneMultiple(d, 50_000, Multiplier(out), RoundToUnits(d, 50_000));
    case 1 => OneMultiple(d, 1_000_000, Multiplier(out), RoundToUnits(d, 1_000_000));
    case 2 => OneMultiple(d, 10_000_000, Multiplier(out), RoundToUnits(d, 10_000_000));
    case _ => OneMultiple(d, 100_000_000, Multiplier(out), RoundToUnits(d, 100_000_000));
  }

  /** The octet after a reduction means what is left, rounded. */
  lemma ReduceAges(raw: Byte, queuing: int)
    ensures Decode(Reduce(raw, queuing).0) == Aged(Decode(raw), queuing)
  {
    var left := Decode(raw) - queuing;
    if queuing > 0 && left > 0 {
      EncodeNearest(left);
      NearestRounded(left, Encode(left));
    }
  }

  /** Rounding what is left of a lifetime moves it by at most half the unit that the lifetime was
      given in, and never beyond that lifetime. */
  lemma AgedBound(raw: Byte, left: int, queuing: int)
    requires 0 <= left <= Decode(raw) && queuing >= 0
    ensures 0 <= Aged(left, queuing) <= Decode(raw)
    ensures 2 * Abs(Aged(left, queuing) - Max(0, left - queuing)) <= Unit(Base(raw))
  {
    if 0 < queuing < left {
      var d := left - queuing;
      EncodeNearest(d);
      NearestRounded(d, Encode(d));
      EncodeNeverGains(raw, d);
      NearestAccurate(d, Encode(d));
      CoarserUnit(raw, d);
    }
  }

  lemma CoarserUnit(raw: Byte, d: int)
    requires d < Decode(raw)
    ensures Unit(SelectedBase(d)) <= Unit(Base(raw))
  {
  }

  /** Lifetime object of a GeoNetworking basic header. */
  class Lifetime {
    var raw: Byte

    constructor ()
      ensures raw == 0
    {
      raw := 0;
    }

    method Set(base: nat, multiplier: int)
      requires base < 4
      modifies this
      ensures Base(raw) == base && Multiplier(raw) == multiplier % 64
    {
      raw := (multiplier % 64) * 4 + base;
    }

    method EncodeDuration(d: int)
      modifies this
      ensures raw == Encode(d)
      ensures 0 <= d < 6_350_000_000 ==> 2 * Abs(Decode(raw) - d) <= Unit(SelectedBase(d))
    {
      if d >= 630_000_000 {
        Set(3, RoundToUnits(d, 100_000_000));
      } else if d >= 63_000_000 {
        Set(2, RoundToUnits(d, 10_000_000));
      } else if d >= 3_150_000 {
        Set(1, RoundToUnits(d, 1_000_000));
      } else {
        Set(0, RoundToUnits(d, 50_000));
      }
      if d >= 0 {
        EncodeAccuracy(d);
      }
    }
  }

  /** A packet on hold: its basic header's lifetime (absent without a PDU) and its sizes. */
  class PendingPacket {
    var lifetime: Lifetime?
    var pduLength: nat
    var payloadLength: nat

    constructor (lifetime: Lifetime?, pduLength: nat, payloadLength: nat)
      requires lifetime == null ==> pduLength == 0
      ensures this.lifetime == lifetime && this.pduLength == pduLength && this.payloadLength == payloadLength
    {
      this.lifetime, this.pduLength, this.payloadLength := lifetime, pduLength, payloadLength;
    }

    function Length(): nat
      reads this
    {
      pduLength + payloadLength
    }

    method ReduceLifetime(queuing: int) returns (remaining: int)
      modifies lifetime
      ensures Length() == old(Length())
      ensures lifetime == null ==> remaining == 0
      ensures lifetime != null ==>
        && remaining == Max(0, Decode(old(lifetime.raw)) - Max(0, queuing))
        && (lifetime.raw, remaining) == Reduce(old(lifetime.raw), queuing)
        && Decode(lifetime.raw) <= Decode(old(lifetime.raw))
    {
      remaining := 0;
      if lifetime != null {
        ReduceSound(lifetime.raw, queuing);
        var packetLifetime := Decode(lifetime.raw);
        if queuing <= 0 {
          remaining := packetLifetime;
        } else if queuing < packetLifetime {
          remaining := packetLifetime - queuing;
          lifetime.EncodeDuration(remaining);
        } else {
          lifetime.raw := 0;
        }
      }
    }
  }
}
