/** The country data file: a version and a sequence of codes with their geometry. */
module CountryFile {
  import opened Collections
  import opened Octets
  import opened Wkb

  predicate HasTwo(d: Octets) {
    d.Octet? && d.more.Octet?
  }

  /** The number in the first two octets, least significant first. */
  function Read16(d: Octets): uint16
    requires HasTwo(d)
  {
    d.first + d.more.first * 0x100
  }

  function Write16(n: uint16, t: Octets): Octets {
    Octet(n % 0x100, Octet(n / 0x100, t))
  }

  lemma Read16Back(d: Octets)
    requires HasTwo(d)
    ensures Write16(Read16(d), d.more.more) == d
  {
    var low: nat, high: nat := d.first, d.more.first;
    assert (low + high * 0x100) % 0x100 == low && (low + high * 0x100) / 0x100 == high;
  }

  /** An entry of a file; octets after the geometry within its announced size are ignored. */
  datatype Entry = Entry(code: uint16, geometry: Geometry, ignored: Octets)

  predicate HasEntryHeader(d: Octets) {
    HasTwo(d) && HasWord(d.more.more)
  }

  /** A geometry within an announced size, and the octets ignored behind it. */
  datatype Blob = Blob(geometry: Geometry, ignored: Octets)

  function ReadBlob(size: nat, d: Octets): Outcome<Blob> {
    if Length(d) < size then Failed("invalid WKB payload size exceeding remaining data", d)
    else
      match ReadGeometry(First(size, d))
      case Failed(message, rest) => Failed(message, Append(rest, Skip(size, d)))
      case Parsed(g, ignored) => Parsed(Blob(g, ignored), Skip(size, d))
  }

  lemma BlobRead(size: nat, d: Octets)
    ensures
      var o := ReadBlob(size, d);
      && Length(o.rest) <= Length(d)
      && (o.Parsed? ==>
            var w := WriteGeometry(o.value.geometry, o.value.ignored);
            GeometryFits(o.value.geometry) && Length(w) == size && Append(w, o.rest) == d)
  {
    if Length(d) >= size {
      Parts(size, d);
      GeometryRead(First(size, d));
      AppendParts(ReadGeometry(First(size, d)).rest, Skip(size, d));
    }
  }

  /** The next entry: its header, and what the announced size covers. */
  function ReadEntry(d: Octets): Outcome<Entry> {
    if !HasEntryHeader(d) then Failed("truncated entry header", d)
    else
      match ReadBlob(Read32(d.more.more, true), AfterWord(d.more.more))
      case Failed(message, rest) => Failed(message, rest)
      case Parsed(blob, rest) => Parsed(Entry(Read16(d), blob.geometry, blob.ignored), rest)
  }

  ghost function WriteEntry(e: Entry, t: Octets): Octets {
    var blob := WriteGeometry(e.geometry, e.ignored);
    Write16(e.code, Write32(Length(blob), true, Append(blob, t)))
  }

  ghost predicate EntryFits(e: Entry) {
    GeometryFits(e.geometry) && Fits32(Length(WriteGeometry(e.geometry, e.ignored)))
  }

  /** A written entry is the next one read, whatever follows it. */
  lemma EntryWritten(e: Entry, t: Octets)
    requires EntryFits(e)
    ensures ReadEntry(WriteEntry(e, t)) == Parsed(e, t)
  {
    var blob := WriteGeometry(e.geometry, e.ignored);
    Written32(Length(blob), true, Append(blob, t));
    AppendParts(blob, t);
    GeometryWritten(e.geometry, e.ignored);
  }

  lemma EntryHeaderRead(d: Octets)
    requires HasEntryHeader(d)
    ensures Write16(Read16(d), Write32(Read32(d.more.more, true), true, AfterWord(d.more.more))) == d
    ensures Length(AfterWord(d.more.more)) == Length(d) - 6
  {
    HasWordLength(d.more.more);
    assert Length(d) == 2 + Length(d.more.more);
    Read32Back(d.more.more, true);
    Read16Back(d);
  }

  /** Reading an entry consumes some of the data, and exactly what is written for it. */
  lemma EntryRead(d: Octets)
    ensures
      var o := ReadEntry(d);
      && Length(o.rest) <= Length(d)
      && (o.Parsed? ==> Length(o.rest) < Length(d) && EntryFits(o.value) && WriteEntry(o.value, o.rest) == d)
  {
    if HasEntryHeader(d) {
      var size, body := Read32(d.more.more, true), AfterWord(d.more.more);
      EntryHeaderRead(d);
      BlobRead(size, body);
      var o := ReadBlob(size, body);
      if o.Parsed? {
        var w := WriteGeometry(o.value.geometry, o.value.ignored);
        assert Append(w, o.rest) == body && Length(w) == size;
      }
    }
  }

  /** The entries read up to the end of the data or the first fault. */
  datatype Reading = Reading(entries: seq<Entry>, fault: Option<string>, rest: Octets)

  function ReadEntries(d: Octets): Reading
    decreases Length(d)
  {
    if d == Nil then Reading([], None, d)
    else
      EntryRead(d);
      match ReadEntry(d)
      case Failed(message, rest) => Reading([], Some(message), rest)
      case Parsed(e, rest) =>
        var r := ReadEntries(rest);
        Reading([e] + r.entries, r.fault, r.rest)
  }

  function ReadFile(d: Octets): Reading {
    if !HasTwo(d) then Reading([], Some("truncated file header: missing version field"), d)
    else if Read16(d) != 1 then Reading([], Some("unsupported country data format version"), d)
    else ReadEntries(d.more.more)
  }

  ghost function WriteEntries(es: seq<Entry>, t: Octets): Octets {
    if es == [] then t else WriteEntry(es[0], WriteEntries(es[1..], t))
  }

  ghost function WriteFile(es: seq<Entry>, t: Octets): Octets {
    Write16(1, WriteEntries(es, t))
  }

  ghost predicate EntriesFit(es: seq<Entry>) {
    forall e :: e in es ==> EntryFits(e)
  }

  /** The code and the size of an entry have their least significant octets first. */
  lemma EntryLayout(e: Entry, high: byte, low: byte, size: Word, t: Octets)
    requires e.code == high * 0x100 + low && Number(size) == Length(WriteGeometry(e.geometry, e.ignored))
    ensures WriteEntry(e, t) ==
      Octet(low, Octet(high, Octet(size.d, Octet(size.c, Octet(size.b, Octet(size.a,
        Append(WriteGeometry(e.geometry, e.ignored), t)))))))
  {
    var rest := Append(WriteGeometry(e.geometry, e.ignored), t);
    CodeOctets(high, low, Write32(Number(size), true, rest));
    WordLayout(size, rest);
  }

  /** And so has the version, which precedes the entries. */
  lemma FileLayout(es: seq<Entry>, t: Octets)
    ensures WriteFile(es, t) == Octet(1, Octet(0, WriteEntries(es, t)))
    ensures es != [] ==> WriteEntries(es, t) == WriteEntry(es[0], WriteEntries(es[1..], t))
  {
    CodeOctets(0, 1, WriteEntries(es, t));
  }

  lemma CodeOctets(high: byte, low: byte, t: Octets)
    ensures Write16(high * 0x100 + low, t) == Octet(low, Octet(high, t))
  {
    var h: nat, l: nat := high, low;
    assert (h * 0x100 + l) % 0x100 == l && (h * 0x100 + l) / 0x100 == h;
  }

  // ----- reading and writing are inverse

  lemma {:induction false} EntriesWritten(es: seq<Entry>)
    requires EntriesFit(es)
    ensures ReadEntries(WriteEntries(es, Nil)) == Reading(es, None, Nil)
  {
    if es != [] {
      assert es[0] in es;
      EntriesWritten(es[1..]);
      var t := WriteEntries(es[1..], Nil);
      EntryWritten(es[0], t);
      EntryThenMore(WriteEntry(es[0], t), es[0], t);
      assert es == [es[0]] + es[1..];
    }
  }

  lemma EntryThenMore(d: Octets, e: Entry, t: Octets)
    requires ReadEntry(d) == Parsed(e, t)
    ensures ReadEntries(d) == Reading([e] + ReadEntries(t).entries, ReadEntries(t).fault, ReadEntries(t).rest)
  {
    EntryRead(d);
  }

  /** Every list of entries that can be written is read back, to the end of the file. */
  lemma FileWritten(es: seq<Entry>)
    requires EntriesFit(es)
    ensures ReadFile(WriteFile(es, Nil)) == Reading(es, None, Nil)
  {
    EntriesWritten(es);
  }

  /** Whether the next thing in the data is a whole entry that can be written. */
  ghost predicate StartsWithEntry(d: Octets) {
    exists e, t :: EntryFits(e) && WriteEntry(e, t) == d
  }

  lemma StartsReadably(d: Octets)
    ensures StartsWithEntry(d) <==> ReadEntry(d).Parsed?
  {
    if e, t :| EntryFits(e) && WriteEntry(e, t) == d {
      EntryWritten(e, t);
    }
    EntryRead(d);
  }

  /** The data is the writing of what was read followed by `tail`; that is empty without a fault,
      and with one it does not start with another entry and holds the position of the fault. */
  ghost predicate ReadUpTo(d: Octets, r: Reading, tail: Octets) {
    && EntriesFit(r.entries) && WriteEntries(r.entries, tail) == d
    && Length(r.rest) <= Length(tail) <= Length(d)
    && (r.fault == None <==> tail == Nil)
    && (r.fault == None ==> r.rest == Nil)
    && !StartsWithEntry(tail)
  }

  lemma {:induction false} EntriesRead(d: Octets) returns (tail: Octets)
    ensures ReadUpTo(d, ReadEntries(d), tail)
    decreases Length(d)
  {
    StartsReadably(d);
    EntryRead(d);
    if d != Nil && ReadEntry(d).Parsed? {
      var o := ReadEntry(d);
      tail := EntriesRead(o.rest);
      var r := ReadEntries(o.rest);
      assert ([o.value] + r.entries)[1..] == r.entries;
    } else {
      tail := d;
    }
  }

  /** A file is accepted exactly when it is one that can be written, and then it is the one
      written for the entries read. */
  lemma AcceptedExactly(d: Octets)
    ensures ReadFile(d).fault == None <==> exists es :: EntriesFit(es) && WriteFile(es, Nil) == d
    ensures ReadFile(d).fault == None ==>
      EntriesFit(ReadFile(d).entries) && WriteFile(ReadFile(d).entries, Nil) == d && ReadFile(d).rest == Nil
  {
    var r := ReadFile(d);
    if r.fault == None {
      var tail := EntriesRead(d.more.more);
      Read16Back(d);
      assert EntriesFit(r.entries) && WriteFile(r.entries, Nil) == d;
    }
    if es :| EntriesFit(es) && WriteFile(es, Nil) == d {
      FileWritten(es);
    }
  }

  /** A rejected file with a readable header starts with the writing of the entries handed on
      before the fault; no further entry could have been, and the fault lies behind them. */
  lemma RejectedAtFault(d: Octets) returns (tail: Octets)
    requires HasTwo(d) && Read16(d) == 1 && ReadFile(d).fault != None
    ensures
      var r := ReadFile(d);
      && EntriesFit(r.entries) && WriteFile(r.entries, tail) == d
      && Length(r.rest) <= Length(tail) && !StartsWithEntry(tail)
  {
    tail := EntriesRead(d.more.more);
    Read16Back(d);
  }

  // ----- what the reader hands on

  /** A polygon without its byte order; the first ring is the outer one. */
  datatype Polygon = Polygon(outer: Ring, inners: seq<Ring>)

  function ToPolygon(rings: seq<Ring>): Polygon {
    if rings == [] then Polygon([], []) else Polygon(rings[0], rings[1..])
  }

  function ToPolygons(ps: seq<WkbPolygon>): seq<Polygon> {
    seq(|ps|, i requires 0 <= i < |ps| => ToPolygon(ps[i].rings))
  }

  function Shapes(g: Geometry): seq<Polygon> {
    match g
    case Single(p) => [ToPolygon(p.rings)]
    case Multi(_, ps) => ToPolygons(ps)
  }

  datatype Call = Call(code: uint16, polygons: seq<Polygon>)

  function Calls(es: seq<Entry>): seq<Call> {
    if es == [] then [] else [Call(es[0].code, Shapes(es[0].geometry))] + Calls(es[1..])
  }

  /** The first ring of a polygon is handed on as the outer one, the others as they follow. */
  lemma RingsHandedOn(rings: seq<Ring>)
    ensures rings != [] ==> [ToPolygon(rings).outer] + ToPolygon(rings).inners == rings
    ensures rings == [] ==> ToPolygon(rings).outer == [] && ToPolygon(rings).inners == []
  {
  }

  lemma {:induction false} CallsAppend(es: seq<Entry>, fs: seq<Entry>)
    ensures Calls(es + fs) == Calls(es) + Calls(fs)
  {
    if es == [] {
      assert es + fs == fs;
    } else {
      assert (es + fs)[1..] == es[1..] + fs;
      CallsAppend(es[1..], fs);
    }
  }

  // ----- the converter

  /** A shapefile's record: a numeric code, if it has one, and a shape. */
  datatype Shape = PolygonShape(rings: seq<Ring>) | MultiPolygonShape(polygons: seq<seq<Ring>>) | OtherShape

  datatype Record = Record(code: Option<int>, shape: Shape)

  predicate Convertible(r: Record) {
    r.code.Some? && 0 <= r.code.value <= 65535 && !r.shape.OtherShape?
  }

  /** Every shape becomes a multi-polygon, all in little endian. */
  function Converted(r: Record): Entry
    requires Convertible(r)
  {
    var polygons := if r.shape.PolygonShape? then [r.shape.rings] else r.shape.polygons;
    Entry(r.code.value, Multi(1, seq(|polygons|, i requires 0 <= i < |polygons| => WkbPolygon(1, polygons[i]))), Nil)
  }

  /** The entries the converter writes; it skips records without a code or polygons. */
  function Kept(rs: seq<Record>): seq<Entry> {
    if rs == [] then []
    else (if Convertible(rs[0]) then [Converted(rs[0])] else []) + Kept(rs[1..])
  }

  /** What the converter writes, the reader hands on: the kept records in order, the first ring
      of each polygon as its outer ring. */
  lemma ConvertedIsRead(rs: seq<Record>)
    requires EntriesFit(Kept(rs))
    ensures ReadFile(WriteFile(Kept(rs), Nil)) == Reading(Kept(rs), None, Nil)
    ensures Calls(Kept(rs)) == Expected(rs)
  {
    FileWritten(Kept(rs));
    CallsOfKept(rs);
  }

  function Polygons(shapes: seq<seq<Ring>>): seq<Polygon> {
    seq(|shapes|, i requires 0 <= i < |shapes| => ToPolygon(shapes[i]))
  }

  function Expected(rs: seq<Record>): seq<Call> {
    if rs == [] then []
    else
      (if !Convertible(rs[0]) then []
       else if rs[0].shape.PolygonShape? then [Call(rs[0].code.value, [ToPolygon(rs[0].shape.rings)])]
       else [Call(rs[0].code.value, Polygons(rs[0].shape.polygons))])
      + Expected(rs[1..])
  }

  lemma {:induction false} CallsOfKept(rs: seq<Record>)
    ensures Calls(Kept(rs)) == Expected(rs)
  {
    if rs != [] {
      CallsOfKept(rs[1..]);
      if Convertible(rs[0]) {
        var e := Converted(rs[0]);
        assert ([e] + Kept(rs[1..]))[1..] == Kept(rs[1..]);
        assert Shapes(e.geometry) ==
          if rs[0].shape.PolygonShape? then [ToPolygon(rs[0].shape.rings)] else Polygons(rs[0].shape.polygons);
      } else {
        assert Kept(rs) == Kept(rs[1..]) && Expected(rs) == Expected(rs[1..]);
      }
    }
  }

  // ----- the reader

  datatype Result = Success(position: nat) | Failure(message: string, position: nat)

  function AddOffset(r: Result, offset: nat): Result {
    r.(position := r.position + offset)
  }

  /** How reading at `start` is reported: on success, where it ends, else where the fault is. */
  ghost predicate Answers<T>(data: seq<byte>, start: nat, o: Outcome<T>, result: Result) {
    && start <= result.position == |data| - Length(o.rest)
    && match o
       case Parsed(_, rest) => result.Success? && From(data, result.position) == rest
       case Failed(message, _) => result.Failure? && result.message == message
  }

  /** A word in a buffer. */
  lemma WordAt(data: seq<byte>, offset: nat)
    requires offset <= |data|
    ensures HasWord(From(data, offset)) <==> |data| - offset >= 4
    ensures |data| - offset >= 4 ==>
      && AfterWord(From(data, offset)) == From(data, offset + 4)
      && FirstWord(From(data, offset)) == Word(data[offset], data[offset + 1], data[offset + 2], data[offset + 3])
  {
    FromLength(data, offset);
    HasWordLength(From(data, offset));
    if |data| - offset >= 4 {
      assert From(data, offset + 2).more.more == From(data, offset + 4);
      assert From(data, offset).more.more == From(data, offset + 2);
    }
  }

  method ReadU16(data: seq<byte>, offset: nat) returns (n: uint16)
    requires offset + 2 <= |data|
    ensures HasTwo(From(data, offset)) && n == Read16(From(data, offset))
  {
    var high: int := data[offset + 1];
    n := data[offset] + high * 0x100;
  }

  method ReadU32(data: seq<byte>, offset: nat, little: bool) returns (n: nat)
    requires offset + 4 <= |data|
    ensures n == Read32(From(data, offset), little) && Fits32(n)
    ensures HasWord(From(data, offset)) && AfterWord(From(data, offset)) == From(data, offset + 4)
  {
    WordAt(data, offset);
    n := Number(Ordered(Word(data[offset], data[offset + 1], data[offset + 2], data[offset + 3]), little));
  }

  method ReadF64(data: seq<byte>, offset: nat, little: bool) returns (c: Coordinate)
    requires offset + 8 <= |data|
    ensures c == ReadCoordinate(From(data, offset), little)
    ensures AfterCoordinate(From(data, offset)) == From(data, offset + 8)
  {
    WordAt(data, offset);
    WordAt(data, offset + 4);
    var first := Word(data[offset], data[offset + 1], data[offset + 2], data[offset + 3]);
    var second := Word(data[offset + 4], data[offset + 5], data[offset + 6], data[offset + 7]);
    c := if little then Bits(Ordered(second, true), Ordered(first, true)) else Bits(first, second);
  }

  /** With `done` already read, `n` more points complete `whole` and end at `rest`. */
  ghost predicate PointsLeft(done: seq<Point>, d: Octets, n: nat, little: bool, whole: seq<Point>, rest: Octets) {
    done + ReadPoints(d, n, little) == whole && AfterPoints(d, n) == rest
  }

  lemma PointsBegin(d: Octets, n: nat, little: bool)
    ensures PointsLeft([], d, n, little, ReadPoints(d, n, little), AfterPoints(d, n))
  {
  }

  lemma PointsStep(done: seq<Point>, d: Octets, n: nat, little: bool, whole: seq<Point>, rest: Octets)
    requires n > 0 && PointsLeft(done, d, n, little, whole, rest)
    ensures PointsLeft(done + [ReadPoint(d, little)], AfterPoint(d), n - 1, little, whole, rest)
  {
  }

  lemma PointsEnd(done: seq<Point>, d: Octets, little: bool, whole: seq<Point>, rest: Octets)
    ensures PointsLeft(done, d, 0, little, whole, rest) <==> done == whole && d == rest
  {
    assert done + [] == done;
  }

  method ReadPointAt(data: seq<byte>, start: nat, little: bool) returns (p: Point)
    requires start + 16 <= |data|
    ensures p == ReadPoint(From(data, start), little) && AfterPoint(From(data, start)) == From(data, start + 16)
  {
    var offset := start;
    var lon := ReadF64(data, offset, little);
    offset := offset + 8;
    var lat := ReadF64(data, offset, little);
    p := Point(lon, lat);
  }

  method ParseRing(data: seq<byte>, start: nat, count: nat, little: bool) returns (ring: Ring)
    requires start + 16 * count <= |data|
    ensures ring == ReadPoints(From(data, start), count, little)
    ensures AfterPoints(From(data, start), count) == From(data, start + 16 * count)
  {
    ring := [];
    var offset := start;
    ghost var d := From(data, start);
    ghost var whole, rest := ReadPoints(d, count, little), AfterPoints(d, count);
    PointsBegin(d, count, little);
    for i := 0 to count
      invariant offset == start + 16 * i <= |data|
      invariant d == From(data, offset) && PointsLeft(ring, d, count - i, little, whole, rest)
    {
      PointsStep(ring, d, count - i, little, whole, rest);
      var point := ReadPointAt(data, offset, little);
      ring := ring + [point];
      offset := offset + 16;
      d := AfterPoint(d);
    }
    PointsEnd(ring, d, little, whole, rest);
  }

  lemma RingParts(d: Octets, little: bool)
    requires HasWord(d) && Length(AfterWord(d)) >= 16 * Read32(d, little)
    ensures
      var count := Read32(d, little);
      ReadRing(d, little) == Parsed(ReadPoints(AfterWord(d), count, little), AfterPoints(AfterWord(d), count))
  {
  }

  method ParseRingAt(data: seq<byte>, start: nat, little: bool) returns (result: Result, ring: Ring)
    requires start <= |data|
    ensures Answers(data, start, ReadRing(From(data, start), little), result)
    ensures result.Success? ==> ring == ReadRing(From(data, start), little).value
  {
    ring := [];
    WordAt(data, start);
    FromLength(data, start);
    if |data| - start < 4 {
      return Failure("truncated polygon: missing point count", start), ring;
    }
    var numPoints := ReadU32(data, start, little);
    var offset := start + 4;
    FromLength(data, offset);
    if |data| - offset < 16 * numPoints {
      return Failure("truncated polygon: missinsg point data", offset), ring;
    }
    RingParts(From(data, start), little);
    ring := ParseRing(data, offset, numPoints, little);
    offset := offset + 16 * numPoints;
    FromLength(data, offset);
    result := Success(offset);
  }

  /** Having read `done`, `n` more items from `offset` on complete the reading of `whole`. */
  ghost predicate Progress<T>(
    read: Reader<T>, done: seq<T>, data: seq<byte>, offset: nat, n: nat, whole: Outcome<seq<T>>)
  {
    Continue(done, ReadMany(read, From(data, offset), n)) == whole
  }

  lemma ProgressStart<T>(read: Reader<T>, data: seq<byte>, start: nat, n: nat)
    ensures Progress(read, [], data, start, n, ReadMany(read, From(data, start), n))
  {
    var whole := ReadMany(read, From(data, start), n);
    if whole.Parsed? {
      assert [] + whole.value == whole.value;
    }
  }

  lemma ProgressStep<T>(read: Reader<T>, done: seq<T>, data: seq<byte>, offset: nat, n: nat, whole: Outcome<seq<T>>,
    at: Result)
    requires n > 0 && Progress(read, done, data, offset, n, whole)
    requires Answers(data, offset, read(From(data, offset)), at)
    ensures at.Success? ==> Progress(read, done + [read(From(data, offset)).value], data, at.position, n - 1, whole)
    ensures at.Failure? ==> Answers(data, offset, whole, at)
  {
    if at.Success? {
      var x, o := read(From(data, offset)).value, ReadMany(read, From(data, at.position), n - 1);
      if o.Parsed? {
        assert done + ([x] + o.value) == (done + [x]) + o.value;
      }
    }
  }

  lemma ProgressEnd<T>(read: Reader<T>, done: seq<T>, data: seq<byte>, offset: nat, whole: Outcome<seq<T>>)
    requires offset <= |data| && Progress(read, done, data, offset, 0, whole)
    ensures whole == Parsed(done, From(data, offset)) && Answers(data, offset, whole, Success(offset))
  {
    assert done + [] == done;
    FromLength(data, offset);
  }

  lemma AppendRing(rings: seq<Ring>, ring: Ring)
    ensures ToPolygon(rings + [ring]) ==
      var p := ToPolygon(rings);
      if rings == [] then p.(outer := ring) else p.(inners := p.inners + [ring])
  {
  }

  /** The next ring, as part of reading `whole`. */
  method NextRing(data: seq<byte>, offset: nat, little: bool, ghost n: nat, ghost rings: seq<Ring>,
    ghost whole: Outcome<seq<Ring>>) returns (at: Result, ring: Ring)
    requires n > 0 && offset <= |data| && Progress(RingReader(little), rings, data, offset, n, whole)
    ensures at.Success? ==>
      offset <= at.position <= |data| && Progress(RingReader(little), rings + [ring], data, at.position, n - 1, whole)
    ensures at.Failure? ==> Answers(data, offset, whole, at)
  {
    at, ring := ParseRingAt(data, offset, little);
    ProgressStep(RingReader(little), rings, data, offset, n, whole, at);
  }

  /** Rings one after another from `start` on. */
  method ParseRings(data: seq<byte>, start: nat, numRings: nat, little: bool) returns (result: Result, out: Polygon)
    requires start <= |data|
    ensures Answers(data, start, ReadMany(RingReader(little), From(data, start), numRings), result)
    ensures result.Success? ==> out == ToPolygon(ReadMany(RingReader(little), From(data, start), numRings).value)
  {
    ghost var whole := ReadMany(RingReader(little), From(data, start), numRings);
    ghost var rings: seq<Ring> := [];
    var offset := start;
    out := Polygon([], []);
    ProgressStart(RingReader(little), data, start, numRings);
    for r := 0 to numRings
      invariant start <= offset <= |data| && |rings| == r && out == ToPolygon(rings)
      invariant Progress(RingReader(little), rings, data, offset, numRings - r, whole)
    {
      var at, ring := NextRing(data, offset, little, numRings - r, rings, whole);
      if at.Failure? {
        return at, out;
      }
      offset := at.position;
      AppendRing(rings, ring);
      if r == 0 {
        out := out.(outer := ring);
      } else {
        out := out.(inners := out.inners + [ring]);
      }
      rings := rings + [ring];
    }
    ProgressEnd(RingReader(little), rings, data, offset, whole);
    result := Success(offset);
  }

  method ParsePolygonBody(data: seq<byte>, little: bool) returns (result: Result, out: Polygon)
    ensures Answers(data, 0, ReadBody(From(data, 0), little), result)
    ensures result.Success? ==> out == ToPolygon(ReadBody(From(data, 0), little).value)
  {
    WordAt(data, 0);
    FromLength(data, 0);
    if |data| < 4 {
      return Failure("truncated polygon: missing ring count", 0), Polygon([], []);
    }
    var numRings := ReadU32(data, 0, little);
    result, out := ParseRings(data, 4, numRings, little);
  }

  /** An answer about a part of the data, as one about all of it. */
  lemma ShiftAnswer<T>(data: seq<byte>, offset: nat, o: Outcome<T>, result: Result)
    requires offset <= |data| && Answers(data[offset..], 0, o, result)
    ensures Answers(data, offset, o, AddOffset(result, offset))
  {
    SuffixFrom(data, offset, result.position);
  }

  lemma {:induction false} SuffixFrom(data: seq<byte>, offset: nat, i: nat)
    requires offset <= |data|
    ensures From(data[offset..], i) == From(data, offset + i)
    decreases |data| - i
  {
    if offset + i < |data| {
      SuffixFrom(data, offset, i + 1);
    }
  }

  /** The header of a geometry in a buffer. */
  lemma HeaderAt(data: seq<byte>, offset: nat)
    requires offset <= |data|
    ensures HasHeader(From(data, offset)) <==> |data| - offset >= 5
    ensures Length(From(data, offset)) == |data| - offset
    ensures |data| - offset >= 5 ==>
      var d := From(data, offset);
      && d.first == data[offset] && d.more == From(data, offset + 1) && Length(d.more) == |data| - offset - 1
      && AfterHeader(d) == From(data, offset + 5)
  {
    FromLength(data, offset);
    if offset < |data| {
      WordAt(data, offset + 1);
      FromLength(data, offset + 1);
    }
  }

  lemma PolygonOf(d: Octets, body: Outcome<seq<Ring>>)
    requires HasHeader(d) && body == ReadBody(AfterHeader(d), Little(d.first))
    ensures ReadPolygon(d) ==
      if Kind(d) != 3 then Failed("unexpected geometry type inside multi-polygon", d.more)
      else match body
        case Failed(message, rest) => Failed(message, rest)
        case Parsed(rings, rest) => Parsed(WkbPolygon(d.first, rings), rest)
  {
  }

  /** A polygon's answer is its body's. */
  lemma PolygonAnswer(data: seq<byte>, start: nat, result: Result)
    requires start + 5 <= |data| && HasHeader(From(data, start)) && Kind(From(data, start)) == 3
    requires AfterHeader(From(data, start)) == From(data, start + 5)
    requires Answers(data, start + 5, ReadBody(From(data, start + 5), Little(data[start])), result)
    ensures Answers(data, start, ReadPolygon(From(data, start)), result)
    ensures result.Success? ==>
      ReadPolygon(From(data, start)).value.rings == ReadBody(From(data, start + 5), Little(data[start])).value
  {
    PolygonOf(From(data, start), ReadBody(From(data, start + 5), Little(data[start])));
  }

  /** A polygon inside a multi-polygon. */
  method ParsePolygonAt(data: seq<byte>, start: nat) returns (result: Result, out: Polygon)
    requires start <= |data|
    ensures Answers(data, start, ReadPolygon(From(data, start)), result)
    ensures result.Success? ==> out == ToPolygon(ReadPolygon(From(data, start)).value.rings)
  {
    out := Polygon([], []);
    HeaderAt(data, start);
    if |data| - start < 5 {
      return Failure("truncated multi-polygon: missing polygon header", start), out;
    }
    var little := data[start] == 1;
    var polyType := ReadU32(data, start + 1, little);
    if polyType != 3 {
      return Failure("unexpected geometry type inside multi-polygon", start + 1), out;
    }
    var offset := start + 5;
    result, out := ParsePolygonBody(data[offset..], little);
    SuffixFrom(data, offset, 0);
    ShiftAnswer(data, offset, ReadBody(From(data, offset), little), result);
    result := AddOffset(result, offset);
    PolygonAnswer(data, start, result);
  }

  lemma AppendPolygon(ps: seq<WkbPolygon>, p: WkbPolygon)
    ensures ToPolygons(ps + [p]) == ToPolygons(ps) + [ToPolygon(p.rings)]
  {
  }

  /** The next polygon, as part of reading `whole`. */
  method NextPolygon(data: seq<byte>, offset: nat, ghost n: nat, ghost polygons: seq<WkbPolygon>,
    ghost whole: Outcome<seq<WkbPolygon>>) returns (at: Result, polygon: Polygon, ghost next: WkbPolygon)
    requires n > 0 && offset <= |data| && Progress(ReadPolygon, polygons, data, offset, n, whole)
    ensures at.Success? ==>
      && offset <= at.position <= |data| && polygon == ToPolygon(next.rings)
      && Progress(ReadPolygon, polygons + [next], data, at.position, n - 1, whole)
    ensures at.Failure? ==> Answers(data, offset, whole, at)
  {
    at, polygon := ParsePolygonAt(data, offset);
    ProgressStep(ReadPolygon, polygons, data, offset, n, whole, at);
    next := if at.Success? then ReadPolygon(From(data, offset)).value else WkbPolygon(0, []);
  }

  method ParsePolygons(data: seq<byte>, start: nat, numPolygons: nat) returns (result: Result, out: seq<Polygon>)
    requires start <= |data|
    ensures Answers(data, start, ReadMany(ReadPolygon, From(data, start), numPolygons), result)
    ensures result.Success? ==> out == ToPolygons(ReadMany(ReadPolygon, From(data, start), numPolygons).value)
  {
    ghost var whole := ReadMany(ReadPolygon, From(data, start), numPolygons);
    ghost var polygons: seq<WkbPolygon> := [];
    var offset := start;
    out := [];
    ProgressStart(ReadPolygon, data, start, numPolygons);
    for i := 0 to numPolygons
      invariant start <= offset <= |data| && out == ToPolygons(polygons)
      invariant Progress(ReadPolygon, polygons, data, offset, numPolygons - i, whole)
    {
      ghost var next;
      var at, polygon;
      at, polygon, next := NextPolygon(data, offset, numPolygons - i, polygons, whole);
      if at.Failure? {
        return at, out;
      }
      offset := at.position;
      AppendPolygon(polygons, next);
      out := out + [polygon];
      polygons := polygons + [next];
    }
    ProgressEnd(ReadPolygon, polygons, data, offset, whole);
    result := Success(offset);
  }

  method ParseMultiPolygon(data: seq<byte>, little: bool) returns (result: Result, out: seq<Polygon>)
    requires |data| >= 5
    ensures Answers(data, 5, ReadPolygons(From(data, 5), little), result)
    ensures result.Success? ==> out == ToPolygons(ReadPolygons(From(data, 5), little).value)
  {
    WordAt(data, 5);
    FromLength(data, 5);
    if |data| < 5 + 4 {
      return Failure("truncated multi-polygon: missing polygon count", 5), [];
    }
    var numPolygons := ReadU32(data, 5, little);
    result, out := ParsePolygons(data, 9, numPolygons);
  }

  method ParseWkb(data: seq<byte>) returns (result: Result, out: seq<Polygon>)
    ensures Answers(data, 0, ReadGeometry(From(data, 0)), result)
    ensures result.Success? ==> out == Shapes(ReadGeometry(From(data, 0)).value)
  {
    out := [];
    HeaderAt(data, 0);
    if |data| < 5 {
      return Failure("WKB too short for header", 0), out;
    }
    var little := data[0] == 1;
    var kind := ReadU32(data, 1, little);
    if kind == 3 {
      var inner, polygon := ParsePolygonBody(data[5..], little);
      SuffixFrom(data, 5, 0);
      ShiftAnswer(data, 5, ReadBody(From(data, 5), little), inner);
      if inner.Success? {
        out := out + [polygon];
      }
      result := AddOffset(inner, 5);
    } else if kind == 6 {
      result, out := ParseMultiPolygon(data, little);
    } else {
      result := Failure("unsupported WKB geometry type", 1);
    }
  }

  /** The geometry in the `size` octets at `start`. */
  method ParseBlob(data: seq<byte>, start: nat, size: nat) returns (result: Result, out: seq<Polygon>)
    requires start + size <= |data|
    ensures
      var answer := if result.Success? then Success(start + size) else result;
      Answers(data, start, ReadBlob(size, From(data, start)), answer)
    ensures result.Success? ==> out == Shapes(ReadBlob(size, From(data, start)).value.geometry)
  {
    result, out := ParseWkb(data[start..start + size]);
    FromWindow(data, start, 0, size);
    BlobAnswer(data, start, size, result);
    result := AddOffset(result, start);
  }

  /** An answer about a geometry's octets as one about the blob they are. */
  lemma BlobAnswer(data: seq<byte>, start: nat, size: nat, inner: Result)
    requires start + size <= |data|
    requires Answers(data[start..start + size], 0, ReadGeometry(From(data[start..start + size], 0)), inner)
    ensures Answers(data, start, ReadBlob(size, From(data, start)),
      if inner.Success? then Success(start + size) else AddOffset(inner, start))
  {
    var body, o := From(data, start), ReadGeometry(From(data[start..start + size], 0));
    BlobParts(data, start, size);
    BlobIs(size, body, o);
    if o.Failed? {
      AppendParts(o.rest, Skip(size, body));
    }
  }

  /** The octets of a blob and those behind it. */
  lemma BlobParts(data: seq<byte>, start: nat, size: nat)
    requires start + size <= |data|
    ensures Length(From(data, start)) == |data| - start
    ensures First(size, From(data, start)) == From(data[start..start + size], 0)
    ensures Skip(size, From(data, start)) == From(data, start + size)
    ensures Length(From(data, start + size)) == |data| - start - size
  {
    FromWindow(data, start, 0, size);
    FromLength(data, start);
    FromLength(data, start + size);
    FromSkip(data, start, size);
  }

  lemma BlobIs(size: nat, d: Octets, o: Outcome<Geometry>)
    requires Length(d) >= size && o == ReadGeometry(First(size, d))
    ensures ReadBlob(size, d) == match o
      case Failed(message, rest) => Failed(message, Append(rest, Skip(size, d)))
      case Parsed(g, ignored) => Parsed(Blob(g, ignored), Skip(size, d))
  {
  }

  /** The header of an entry in a buffer. */
  lemma EntryAt(data: seq<byte>, offset: nat)
    requires offset <= |data|
    ensures HasEntryHeader(From(data, offset)) <==> |data| - offset >= 6
    ensures Length(From(data, offset)) == |data| - offset
    ensures |data| - offset >= 6 ==>
      var d := From(data, offset);
      && d.first == data[offset] && d.more.first == data[offset + 1] && d.more.more == From(data, offset + 2)
      && AfterWord(d.more.more) == From(data, offset + 6) && Length(From(data, offset + 6)) == |data| - offset - 6
  {
    FromLength(data, offset);
    if |data| - offset >= 2 {
      WordAt(data, offset + 2);
      assert From(data, offset).more.more == From(data, offset + 2);
    }
    if |data| - offset >= 6 {
      FromLength(data, offset + 6);
    }
  }

  /** One entry at `start`: on success, where it ends, and the call to make for it. */
  method ReadEntryAt(data: seq<byte>, start: nat) returns (result: Result, call: Call)
    requires start <= |data|
    ensures Answers(data, start, ReadEntry(From(data, start)), result)
    ensures result.Success? ==>
      var e := ReadEntry(From(data, start)).value;
      call == Call(e.code, Shapes(e.geometry)) && start < result.position
  {
    call := Call(0, []);
    EntryAt(data, start);
    if |data| - start < 6 {
      return Failure("truncated entry header", start), call;
    }
    var offset := start;
    var m49 := ReadU16(data, offset);
    offset := offset + 2;
    var wkbSize := ReadU32(data, offset, true);
    offset := offset + 4;
    if |data| - offset < wkbSize {
      return Failure("invalid WKB payload size exceeding remaining data", offset), call;
    }
    var inner, polygon := ParseBlob(data, offset, wkbSize);
    if inner.Failure? {
      return inner, call;
    }
    result := Success(offset + wkbSize);
    call := Call(m49, polygon);
  }

  /** A reading that has already found some entries. */
  function Resumed(done: seq<Entry>, r: Reading): Reading {
    Reading(done + r.entries, r.fault, r.rest)
  }

  lemma ResumedStep(done: seq<Entry>, d: Octets)
    requires d != Nil && ReadEntry(d).Parsed?
    ensures Resumed(done, ReadEntries(d)) == Resumed(done + [ReadEntry(d).value], ReadEntries(ReadEntry(d).rest))
  {
    EntryRead(d);
    var e, r := ReadEntry(d).value, ReadEntries(ReadEntry(d).rest);
    assert done + ([e] + r.entries) == (done + [e]) + r.entries;
  }

  lemma AppendCall(es: seq<Entry>, e: Entry)
    ensures Calls(es + [e]) == Calls(es) + [Call(e.code, Shapes(e.geometry))]
  {
    CallsAppend(es, [e]);
  }

  /** The answer for a whole file. */
  ghost predicate Reports(data: seq<byte>, r: Reading, result: Result, calls: seq<Call>) {
    && calls == Calls(r.entries)
    && result.position == |data| - Length(r.rest) && 0 <= result.position <= |data|
    && match r.fault
       case None => result == Success(|data|)
       case Some(message) => result.Failure? && result.message == message
  }

  lemma ReadingEnds(data: seq<byte>, done: seq<Entry>, offset: nat, at: Result)
    requires offset <= |data|
    requires offset == |data| || (at.Failure? && Answers(data, offset, ReadEntry(From(data, offset)), at))
    ensures Reports(data, Resumed(done, ReadEntries(From(data, offset))),
      if offset == |data| then Success(offset) else at, Calls(done))
  {
    FromLength(data, offset);
    EntryRead(From(data, offset));
    assert done + [] == done;
  }

  /** Hand on each entry of a file in order, up to its end or the first fault. */
  method ReadCountryData(data: seq<byte>) returns (result: Result, calls: seq<Call>)
    ensures Reports(data, ReadFile(From(data, 0)), result, calls)
  {
    calls := [];
    FromLength(data, 0);
    if |data| < 2 {
      return Failure("truncated file header: missing version field", 0), calls;
    }
    assert From(data, 0).more.more == From(data, 2);
    var version := ReadU16(data, 0);
    if version != 1 {
      return Failure("unsupported country data format version", 0), calls;
    }
    ghost var entries: seq<Entry> := [];
    var offset := 2;
    ghost var whole := ReadEntries(From(data, 2));
    assert [] + whole.entries == whole.entries;
    while offset < |data|
      invariant 2 <= offset <= |data| && calls == Calls(entries)
      invariant whole == Resumed(entries, ReadEntries(From(data, offset)))
      decreases |data| - offset
    {
      var at, call := ReadEntryAt(data, offset);
      if at.Failure? {
        ReadingEnds(data, entries, offset, at);
        return at, calls;
      }
      ghost var e := ReadEntry(From(data, offset)).value;
      ResumedStep(entries, From(data, offset));
      AppendCall(entries, e);
      calls := calls + [call];
      entries := entries + [e];
      offset := at.position;
    }
    ReadingEnds(data, entries, offset, Success(0));
    result := Success(offset);
  }
}
