/** Binary polygons (OGC 06-103r4, clause 8) as values: a reader, a writer, and proofs that each
    undoes the other. Writers put octets in front of those that follow. */
module Wkb {
  import opened Octets

  // ----- words

  predicate HasWord(d: Octets) {
    d.Octet? && d.more.Octet? && d.more.more.Octet? && d.more.more.more.Octet?
  }

  lemma HasWordLength(d: Octets)
    ensures HasWord(d) <==> Length(d) >= 4
    ensures HasWord(d) ==> Length(AfterWord(d)) == Length(d) - 4
  {
    if d.Octet? {
      assert Length(d) == 1 + Length(d.more);
      if d.more.Octet? && d.more.more.Octet? {
        assert Length(d.more) == 2 + Length(d.more.more.more);
      }
    }
  }

  function FirstWord(d: Octets): Word {
    if HasWord(d) then Word(d.first, d.more.first, d.more.more.first, d.more.more.more.first)
    else Word(0, 0, 0, 0)
  }

  function AfterWord(d: Octets): Octets {
    if HasWord(d) then d.more.more.more.more else Nil
  }

  function PutWord(w: Word, t: Octets): Octets {
    Octet(w.a, Octet(w.b, Octet(w.c, Octet(w.d, t))))
  }

  function ReadWord(d: Octets, little: bool): Word {
    Ordered(FirstWord(d), little)
  }

  function Read32(d: Octets, little: bool): uint32 {
    Number(ReadWord(d, little))
  }

  ghost function Write32(n: nat, little: bool, t: Octets): Octets {
    PutWord(Ordered(Spelled(n), little), t)
  }

  predicate Fits32(n: nat) {
    n < 0x1_0000_0000
  }

  lemma Written32(n: nat, little: bool, t: Octets)
    requires Fits32(n)
    ensures
      var d := Write32(n, little, t);
      HasWord(d) && Read32(d, little) == n && AfterWord(d) == t
  {
  }

  lemma Read32Back(d: Octets, little: bool)
    requires HasWord(d)
    ensures Write32(Read32(d, little), little, AfterWord(d)) == d
  {
    SpelledBack(ReadWord(d, little));
  }

  // ----- repetition

  /** What is left when reading stops tells the position, whatever the reading is part of. */
  datatype Outcome<T> = Parsed(value: T, rest: Octets) | Failed(message: string, rest: Octets)

  type Reader<!T> = Octets -> Outcome<T>

  type Writer<!T> = (T, Octets) -> Octets

  /** What a partly finished reading adds to what it already has. */
  function Continue<T>(done: seq<T>, o: Outcome<seq<T>>): Outcome<seq<T>> {
    match o
    case Parsed(more, rest) => Parsed(done + more, rest)
    case Failed(message, rest) => o
  }

  function ReadMany<T>(read: Reader<T>, d: Octets, n: nat): Outcome<seq<T>>
    decreases n
  {
    if n == 0 then Parsed([], d)
    else
      match read(d)
      case Failed(message, rest) => Failed(message, rest)
      case Parsed(x, rest) => Continue([x], ReadMany(read, rest, n - 1))
  }

  function WriteMany<T>(write: Writer<T>, xs: seq<T>, t: Octets): Octets {
    if xs == [] then t else write(xs[0], WriteMany(write, xs[1..], t))
  }

  /** What is written for a fitting value is read as that value, whatever follows. */
  ghost predicate ReadsWritten<T(!new)>(read: Reader<T>, write: Writer<T>, fits: T -> bool) {
    forall x, t :: fits(x) ==> read(write(x, t)) == Parsed(x, t)
  }

  /** What is read is what would be written for the value. */
  ghost predicate WritesRead<T(!new)>(read: Reader<T>, write: Writer<T>, fits: T -> bool) {
    forall d :: read(d).Parsed? ==> fits(read(d).value) && write(read(d).value, read(d).rest) == d
  }

  /** Reading stops somewhere in what there is. */
  ghost predicate InBounds<T(!new)>(read: Reader<T>) {
    forall d :: Length(read(d).rest) <= Length(d)
  }

  lemma {:induction false} ManyInBounds<T(!new)>(read: Reader<T>, d: Octets, n: nat)
    requires InBounds(read)
    ensures Length(ReadMany(read, d, n).rest) <= Length(d)
    decreases n
  {
    if n > 0 && read(d).Parsed? {
      ManyInBounds(read, read(d).rest, n - 1);
    }
  }

  lemma {:induction false} ManyWritten<T(!new)>(
      read: Reader<T>, write: Writer<T>, fits: T -> bool, xs: seq<T>, t: Octets)
    requires ReadsWritten(read, write, fits) && forall x :: x in xs ==> fits(x)
    ensures ReadMany(read, WriteMany(write, xs, t), |xs|) == Parsed(xs, t)
  {
    if xs != [] {
      assert fits(xs[0]);
      ManyWritten(read, write, fits, xs[1..], t);
      assert xs == [xs[0]] + xs[1..];
    }
  }

  lemma {:induction false} ManyRead<T(!new)>(read: Reader<T>, write: Writer<T>, fits: T -> bool, d: Octets, n: nat)
    requires WritesRead(read, write, fits) && ReadMany(read, d, n).Parsed?
    ensures
      var o := ReadMany(read, d, n);
      && |o.value| == n && (forall x :: x in o.value ==> fits(x))
      && WriteMany(write, o.value, o.rest) == d
    decreases n
  {
    if n > 0 {
      var x := read(d);
      var o := ReadMany(read, x.rest, n - 1);
      ManyRead(read, write, fits, x.rest, n - 1);
      assert ([x.value] + o.value)[1..] == o.value;
    }
  }

  // ----- points and rings

  /** The bits of a floating-point coordinate. */
  datatype Coordinate = Bits(high: Word, low: Word)

  datatype Point = Point(lon: Coordinate, lat: Coordinate)

  type Ring = seq<Point>

  function ReadCoordinate(d: Octets, little: bool): Coordinate {
    var first, second := ReadWord(d, little), ReadWord(AfterWord(d), little);
    if little then Bits(second, first) else Bits(first, second)
  }

  function AfterCoordinate(d: Octets): Octets {
    AfterWord(AfterWord(d))
  }

  function WriteCoordinate(c: Coordinate, little: bool, t: Octets): Octets {
    var first, second := if little then c.low else c.high, if little then c.high else c.low;
    PutWord(Ordered(first, little), PutWord(Ordered(second, little), t))
  }

  predicate HasCoordinate(d: Octets) {
    HasWord(d) && HasWord(AfterWord(d))
  }

  lemma CoordinateWritten(c: Coordinate, little: bool, t: Octets)
    ensures
      var d := WriteCoordinate(c, little, t);
      ReadCoordinate(d, little) == c && AfterCoordinate(d) == t && Length(d) == Length(t) + 8
  {
    var first, second := if little then c.low else c.high, if little then c.high else c.low;
    HasWordLength(PutWord(Ordered(second, little), t));
    HasWordLength(PutWord(Ordered(first, little), PutWord(Ordered(second, little), t)));
  }

  lemma CoordinateRead(d: Octets, little: bool)
    requires HasCoordinate(d)
    ensures WriteCoordinate(ReadCoordinate(d, little), little, AfterCoordinate(d)) == d
  {
  }

  function ReadPoint(d: Octets, little: bool): Point {
    Point(ReadCoordinate(d, little), ReadCoordinate(AfterCoordinate(d), little))
  }

  function AfterPoint(d: Octets): Octets {
    AfterCoordinate(AfterCoordinate(d))
  }

  function WritePoint(p: Point, little: bool, t: Octets): Octets {
    WriteCoordinate(p.lon, little, WriteCoordinate(p.lat, little, t))
  }

  lemma PointWritten(p: Point, little: bool, t: Octets)
    ensures
      var d := WritePoint(p, little, t);
      ReadPoint(d, little) == p && AfterPoint(d) == t && Length(d) == Length(t) + 16
  {
    CoordinateWritten(p.lat, little, t);
    CoordinateWritten(p.lon, little, WriteCoordinate(p.lat, little, t));
  }

  lemma PointRead(d: Octets, little: bool)
    requires Length(d) >= 16
    ensures WritePoint(ReadPoint(d, little), little, AfterPoint(d)) == d
    ensures Length(AfterPoint(d)) == Length(d) - 16
  {
    HasWordLength(d);
    HasWordLength(AfterWord(d));
    HasWordLength(AfterCoordinate(d));
    HasWordLength(AfterWord(AfterCoordinate(d)));
    CoordinateRead(d, little);
    CoordinateRead(AfterCoordinate(d), little);
  }

  function ReadPoints(d: Octets, n: nat, little: bool): (points: seq<Point>)
    ensures |points| == n
    decreases n
  {
    if n == 0 then [] else [ReadPoint(d, little)] + ReadPoints(AfterPoint(d), n - 1, little)
  }

  function AfterPoints(d: Octets, n: nat): Octets
    decreases n
  {
    if n == 0 then d else AfterPoints(AfterPoint(d), n - 1)
  }

  function WritePoints(points: seq<Point>, little: bool, t: Octets): Octets {
    if points == [] then t else WritePoint(points[0], little, WritePoints(points[1..], little, t))
  }

  lemma {:induction false} PointsWritten(points: seq<Point>, little: bool, t: Octets)
    ensures
      var d := WritePoints(points, little, t);
      && ReadPoints(d, |points|, little) == points
      && AfterPoints(d, |points|) == t && Length(d) == Length(t) + 16 * |points|
  {
    if points != [] {
      PointsWritten(points[1..], little, t);
      PointWritten(points[0], little, WritePoints(points[1..], little, t));
      assert points == [points[0]] + points[1..];
    }
  }

  lemma {:induction false} PointsRead(d: Octets, n: nat, little: bool)
    requires Length(d) >= 16 * n
    ensures WritePoints(ReadPoints(d, n, little), little, AfterPoints(d, n)) == d
    ensures Length(AfterPoints(d, n)) == Length(d) - 16 * n
    decreases n
  {
    if n > 0 {
      PointRead(d, little);
      PointsRead(AfterPoint(d), n - 1, little);
      var more := ReadPoints(AfterPoint(d), n - 1, little);
      assert ([ReadPoint(d, little)] + more)[1..] == more;
    }
  }

  function ReadRing(d: Octets, little: bool): Outcome<Ring> {
    if !HasWord(d) then Failed("truncated polygon: missing point count", d)
    else
      var count, body := Read32(d, little), AfterWord(d);
      if Length(body) < 16 * count then Failed("truncated polygon: missinsg point data", body)
      else Parsed(ReadPoints(body, count, little), AfterPoints(body, count))
  }

  ghost function WriteRing(r: Ring, little: bool, t: Octets): Octets {
    Write32(|r|, little, WritePoints(r, little, t))
  }

  predicate RingFits(r: Ring) {
    Fits32(|r|)
  }

  lemma RingWritten(r: Ring, little: bool, t: Octets)
    requires RingFits(r)
    ensures ReadRing(WriteRing(r, little, t), little) == Parsed(r, t)
  {
    PointsWritten(r, little, t);
    Written32(|r|, little, WritePoints(r, little, t));
  }

  lemma RingRead(d: Octets, little: bool)
    ensures
      var o := ReadRing(d, little);
      && Length(o.rest) <= Length(d)
      && (o.Parsed? ==> RingFits(o.value) && WriteRing(o.value, little, o.rest) == d)
  {
    HasWordLength(d);
    if ReadRing(d, little).Parsed? {
      PointsRead(AfterWord(d), Read32(d, little), little);
      Read32Back(d, little);
    }
  }

  // ----- polygons

  function RingReader(little: bool): Reader<Ring> {
    d => ReadRing(d, little)
  }

  ghost function RingWriter(little: bool): Writer<Ring> {
    (r, t) => WriteRing(r, little, t)
  }

  lemma RingCodec(little: bool)
    ensures InBounds(RingReader(little))
    ensures ReadsWritten(RingReader(little), RingWriter(little), RingFits)
    ensures WritesRead(RingReader(little), RingWriter(little), RingFits)
  {
    forall r, t | RingFits(r) ensures ReadRing(WriteRing(r, little, t), little) == Parsed(r, t) {
      RingWritten(r, little, t);
    }
    forall d ensures
        var o := ReadRing(d, little);
        && Length(o.rest) <= Length(d)
        && (o.Parsed? ==> RingFits(o.value) && WriteRing(o.value, little, o.rest) == d) {
      RingRead(d, little);
    }
  }

  function ReadBody(d: Octets, little: bool): Outcome<seq<Ring>> {
    if !HasWord(d) then Failed("truncated polygon: missing ring count", d)
    else ReadMany(RingReader(little), AfterWord(d), Read32(d, little))
  }

  ghost function WriteBody(rings: seq<Ring>, little: bool, t: Octets): Octets {
    Write32(|rings|, little, WriteMany(RingWriter(little), rings, t))
  }

  predicate RingsFit(rings: seq<Ring>) {
    Fits32(|rings|) && forall r :: r in rings ==> RingFits(r)
  }

  lemma BodyWritten(rings: seq<Ring>, little: bool, t: Octets)
    requires RingsFit(rings)
    ensures ReadBody(WriteBody(rings, little, t), little) == Parsed(rings, t)
  {
    RingCodec(little);
    ManyWritten(RingReader(little), RingWriter(little), RingFits, rings, t);
    Written32(|rings|, little, WriteMany(RingWriter(little), rings, t));
  }

  lemma BodyRead(d: Octets, little: bool)
    ensures
      var o := ReadBody(d, little);
      && Length(o.rest) <= Length(d)
      && (o.Parsed? ==> RingsFit(o.value) && WriteBody(o.value, little, o.rest) == d)
  {
    HasWordLength(d);
    if HasWord(d) {
      RingCodec(little);
      ManyInBounds(RingReader(little), AfterWord(d), Read32(d, little));
      if ReadBody(d, little).Parsed? {
        ManyRead(RingReader(little), RingWriter(little), RingFits, AfterWord(d), Read32(d, little));
        Read32Back(d, little);
      }
    }
  }

  /** A polygon with its byte order mark, of which only the value 1 means little endian. */
  datatype WkbPolygon = WkbPolygon(order: byte, rings: seq<Ring>)

  predicate Little(order: byte) {
    order == 1
  }

  /** A byte order mark and a geometry type. */
  predicate HasHeader(d: Octets) {
    d.Octet? && HasWord(d.more)
  }

  function Kind(d: Octets): uint32
    requires HasHeader(d)
  {
    Read32(d.more, Little(d.first))
  }

  function AfterHeader(d: Octets): Octets
    requires HasHeader(d)
  {
    AfterWord(d.more)
  }

  ghost function WriteHeader(order: byte, kind: nat, t: Octets): Octets {
    Octet(order, Write32(kind, Little(order), t))
  }

  /** A polygon inside a multi-polygon. */
  function ReadPolygon(d: Octets): Outcome<WkbPolygon> {
    if !HasHeader(d) then Failed("truncated multi-polygon: missing polygon header", d)
    else if Kind(d) != 3 then Failed("unexpected geometry type inside multi-polygon", d.more)
    else
      match ReadBody(AfterHeader(d), Little(d.first))
      case Failed(message, rest) => Failed(message, rest)
      case Parsed(rings, rest) => Parsed(WkbPolygon(d.first, rings), rest)
  }

  ghost function WritePolygon(p: WkbPolygon, t: Octets): Octets {
    WriteHeader(p.order, 3, WriteBody(p.rings, Little(p.order), t))
  }

  predicate PolygonFits(p: WkbPolygon) {
    RingsFit(p.rings)
  }

  lemma PolygonWritten(p: WkbPolygon, t: Octets)
    requires PolygonFits(p)
    ensures ReadPolygon(WritePolygon(p, t)) == Parsed(p, t)
  {
    BodyWritten(p.rings, Little(p.order), t);
    Written32(3, Little(p.order), WriteBody(p.rings, Little(p.order), t));
  }

  lemma PolygonRead(d: Octets)
    ensures
      var o := ReadPolygon(d);
      && Length(o.rest) <= Length(d)
      && (o.Parsed? ==> PolygonFits(o.value) && WritePolygon(o.value, o.rest) == d)
  {
    if HasHeader(d) {
      HasWordLength(d.more);
      BodyRead(AfterHeader(d), Little(d.first));
      Read32Back(d.more, Little(d.first));
    }
  }

  // ----- multi-polygons

  ghost function PolygonWriter(): Writer<WkbPolygon> {
    (p, t) => WritePolygon(p, t)
  }

  lemma PolygonCodec()
    ensures InBounds(ReadPolygon)
    ensures ReadsWritten(ReadPolygon, PolygonWriter(), PolygonFits)
    ensures WritesRead(ReadPolygon, PolygonWriter(), PolygonFits)
  {
    forall p, t | PolygonFits(p) ensures ReadPolygon(WritePolygon(p, t)) == Parsed(p, t) {
      PolygonWritten(p, t);
    }
    forall d ensures
        var o := ReadPolygon(d);
        && Length(o.rest) <= Length(d)
        && (o.Parsed? ==> PolygonFits(o.value) && WritePolygon(o.value, o.rest) == d) {
      PolygonRead(d);
    }
  }

  function ReadPolygons(d: Octets, little: bool): Outcome<seq<WkbPolygon>> {
    if !HasWord(d) then Failed("truncated multi-polygon: missing polygon count", d)
    else ReadMany(ReadPolygon, AfterWord(d), Read32(d, little))
  }

  ghost function WritePolygons(ps: seq<WkbPolygon>, little: bool, t: Octets): Octets {
    Write32(|ps|, little, WriteMany(PolygonWriter(), ps, t))
  }

  predicate PolygonsFit(ps: seq<WkbPolygon>) {
    Fits32(|ps|) && forall p :: p in ps ==> PolygonFits(p)
  }

  lemma PolygonsWritten(ps: seq<WkbPolygon>, little: bool, t: Octets)
    requires PolygonsFit(ps)
    ensures ReadPolygons(WritePolygons(ps, little, t), little) == Parsed(ps, t)
  {
    PolygonCodec();
    ManyWritten(ReadPolygon, PolygonWriter(), PolygonFits, ps, t);
    Written32(|ps|, little, WriteMany(PolygonWriter(), ps, t));
  }

  lemma PolygonsRead(d: Octets, little: bool)
    ensures
      var o := ReadPolygons(d, little);
      && Length(o.rest) <= Length(d)
      && (o.Parsed? ==> PolygonsFit(o.value) && WritePolygons(o.value, little, o.rest) == d)
  {
    HasWordLength(d);
    if HasWord(d) {
      PolygonCodec();
      ManyInBounds(ReadPolygon, AfterWord(d), Read32(d, little));
      if ReadPolygons(d, little).Parsed? {
        ManyRead(ReadPolygon, PolygonWriter(), PolygonFits, AfterWord(d), Read32(d, little));
        Read32Back(d, little);
      }
    }
  }

  // ----- geometries

  datatype Geometry = Single(polygon: WkbPolygon) | Multi(order: byte, polygons: seq<WkbPolygon>)

  function ReadGeometry(d: Octets): Outcome<Geometry> {
    if !HasHeader(d) then Failed("WKB too short for header", d)
    else if Kind(d) == 3 then
      match ReadBody(AfterHeader(d), Little(d.first))
      case Parsed(rings, rest) => Parsed(Single(WkbPolygon(d.first, rings)), rest)
      case Failed(message, rest) => Failed(message, rest)
    else if Kind(d) == 6 then
      match ReadPolygons(AfterHeader(d), Little(d.first))
      case Parsed(polygons, rest) => Parsed(Multi(d.first, polygons), rest)
      case Failed(message, rest) => Failed(message, rest)
    else Failed("unsupported WKB geometry type", d.more)
  }

  ghost function WriteGeometry(g: Geometry, t: Octets): Octets {
    match g
    case Single(p) => WritePolygon(p, t)
    case Multi(order, ps) => WriteHeader(order, 6, WritePolygons(ps, Little(order), t))
  }

  /** No count exceeds its 32 bits. */
  predicate GeometryFits(g: Geometry) {
    match g
    case Single(p) => PolygonFits(p)
    case Multi(_, ps) => PolygonsFit(ps)
  }

  /** Whatever geometry is written is read back, in either byte order, nested or not, and what
      follows it is left alone. */
  lemma GeometryWritten(g: Geometry, t: Octets)
    requires GeometryFits(g)
    ensures ReadGeometry(WriteGeometry(g, t)) == Parsed(g, t)
  {
    match g
    case Single(p) =>
      BodyWritten(p.rings, Little(p.order), t);
      Written32(3, Little(p.order), WriteBody(p.rings, Little(p.order), t));
    case Multi(order, ps) =>
      PolygonsWritten(ps, Little(order), t);
      Written32(6, Little(order), WritePolygons(ps, Little(order), t));
  }

  /** Reading stops within the data, and whatever is accepted is exactly what is written for the
      geometry read. */
  lemma GeometryRead(d: Octets)
    ensures
      var o := ReadGeometry(d);
      && Length(o.rest) <= Length(d)
      && (o.Parsed? ==> GeometryFits(o.value) && WriteGeometry(o.value, o.rest) == d)
  {
    if HasHeader(d) {
      HasWordLength(d.more);
      Read32Back(d.more, Little(d.first));
      if Kind(d) == 3 {
        BodyRead(AfterHeader(d), Little(d.first));
      } else if Kind(d) == 6 {
        PolygonsRead(AfterHeader(d), Little(d.first));
      }
    }
  }

  // ----- layout

  /** With the least significant octet first, or last. */
  lemma WordLayout(w: Word, t: Octets)
    ensures Write32(Number(w), true, t) == Octet(w.d, Octet(w.c, Octet(w.b, Octet(w.a, t))))
    ensures Write32(Number(w), false, t) == Octet(w.a, Octet(w.b, Octet(w.c, Octet(w.d, t))))
    ensures Number(w) == ((w.a * 0x100 + w.b) * 0x100 + w.c) * 0x100 + w.d
  {
    SpelledBack(w);
  }

  /** Order mark 1 means that the least significant octet comes first, any other that it comes last;
      3 is a polygon and 6 a multi-polygon. */
  lemma GeometryLayout(g: Geometry, t: Octets)
    ensures
      match g
      case Single(WkbPolygon(1, rings)) =>
        WriteGeometry(g, t) == Octet(1, Octet(3, Octet(0, Octet(0, Octet(0, WriteBody(rings, true, t))))))
      case Single(WkbPolygon(order, rings)) =>
        WriteGeometry(g, t) == Octet(order, Octet(0, Octet(0, Octet(0, Octet(3, WriteBody(rings, false, t))))))
      case Multi(1, ps) =>
        WriteGeometry(g, t) == Octet(1, Octet(6, Octet(0, Octet(0, Octet(0, WritePolygons(ps, true, t))))))
      case Multi(order, ps) =>
        WriteGeometry(g, t) == Octet(order, Octet(0, Octet(0, Octet(0, Octet(6, WritePolygons(ps, false, t))))))
  {
    assert Number(Word(0, 0, 0, 3)) == 3 && Number(Word(0, 0, 0, 6)) == 6;
    SpelledBack(Word(0, 0, 0, 3));
    SpelledBack(Word(0, 0, 0, 6));
  }

  /** The longitude comes first; the octets of each coordinate go from the most significant of its
      high word to the least significant of its low word, or back. */
  lemma PointLayout(p: Point, t: Octets)
    ensures WritePoint(p, false, t) ==
      PutWord(p.lon.high, PutWord(p.lon.low, PutWord(p.lat.high, PutWord(p.lat.low, t))))
    ensures WritePoint(p, true, t) ==
      PutWord(Backwards(p.lon.low), PutWord(Backwards(p.lon.high),
        PutWord(Backwards(p.lat.low), PutWord(Backwards(p.lat.high), t))))
  {
  }

  function Backwards(w: Word): Word {
    Word(w.d, w.c, w.b, w.a)
  }
}
