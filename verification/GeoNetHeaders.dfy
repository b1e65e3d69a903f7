/** GeoNetworking headers (ETSI EN 302 636-4-1 V1.2.1, section 8.6 for the basic header) as codecs:
    basic and common header, position vectors, and the extended headers the parser knows. */
module GeoNetHeaders {
  import opened Octets
  import opened Codecs

  type bits4 = x: int | 0 <= x < 16

  type bits5 = x: int | 0 <= x < 32

  type bits10 = x: int | 0 <= x < 1024

  type bits15 = x: int | 0 <= x < 0x8000

  // ----- basic header

  datatype Basic = Basic(version: bits4, nextHeader: bits4, reserved: byte, lifetime: byte, hopLimit: byte)

  type BasicFields = Both<byte, Both<byte, Both<byte, byte>>>

  /** Two numbers of four bits in an octet. */
  function Nibbles(high: bits4, low: bits4): byte {
    high * 16 + low
  }

  function ToBasic(f: BasicFields): Basic {
    Basic(f.first / 16, f.first % 16, f.second.first, f.second.second.first, f.second.second.second)
  }

  function OfBasic(h: Basic): BasicFields {
    Both(Nibbles(h.version, h.nextHeader), Both(h.reserved, Both(h.lifetime, h.hopLimit)))
  }

  function BasicFieldsCodec(): Codec<BasicFields> {
    Pair(U8(), Pair(U8(), Pair(U8(), U8())))
  }

  function BasicCodec(): Codec<Basic> {
    Mapped(BasicFieldsCodec(), ToBasic, OfBasic)
  }

  lemma BasicFieldsLawful()
    ensures Lawful(BasicFieldsCodec()) && BasicFieldsCodec().size == 4
  {
    U8Lawful();
    PairLawful(U8(), U8());
    PairLawful(U8(), Pair(U8(), U8()));
    PairLawful(U8(), Pair(U8(), Pair(U8(), U8())));
  }

  lemma BasicInverse()
    ensures Inverse(ToBasic, OfBasic)
  {
  }

  lemma BasicLawful()
    ensures Lawful(BasicCodec()) && BasicCodec().size == 4
  {
    BasicFieldsLawful();
    BasicInverse();
    MappedLawful(BasicFieldsCodec(), ToBasic, OfBasic);
  }

  // ----- common header

  datatype Common = Common(nextHeader: bits4, reserved1: bits4, headerType: byte, trafficClass: byte, flags: byte,
    payload: uint16, maximumHopLimit: byte, reserved2: byte)

  type CommonFields = Both<BasicFields, Both<uint16, Both<byte, byte>>>

  function ToCommon(f: CommonFields): Common {
    var (first, second) := (f.first, f.second);
    Common(first.first / 16, first.first % 16, first.second.first, first.second.second.first,
      first.second.second.second, second.first, second.second.first, second.second.second)
  }

  function OfCommon(h: Common): CommonFields {
    Both(Both(Nibbles(h.nextHeader, h.reserved1), Both(h.headerType, Both(h.trafficClass, h.flags))),
      Both(h.payload, Both(h.maximumHopLimit, h.reserved2)))
  }

  function CommonTailCodec(): Codec<Both<uint16, Both<byte, byte>>> {
    Pair(U16(), Pair(U8(), U8()))
  }

  function CommonFieldsCodec(): Codec<CommonFields> {
    Pair(BasicFieldsCodec(), CommonTailCodec())
  }

  function CommonCodec(): Codec<Common> {
    Mapped(CommonFieldsCodec(), ToCommon, OfCommon)
  }

  lemma CommonTailLawful()
    ensures Lawful(CommonTailCodec()) && CommonTailCodec().size == 4
  {
    U8Lawful();
    U16Lawful();
    PairLawful(U8(), U8());
    PairLawful(U16(), Pair(U8(), U8()));
  }

  lemma CommonFieldsLawful()
    ensures Lawful(CommonFieldsCodec()) && CommonFieldsCodec().size == 8
  {
    BasicFieldsLawful();
    CommonTailLawful();
    PairLawful(BasicFieldsCodec(), CommonTailCodec());
  }

  lemma CommonInverse()
    ensures Inverse(ToCommon, OfCommon)
  {
  }

  lemma CommonLawful()
    ensures Lawful(CommonCodec()) && CommonCodec().size == 8
  {
    CommonFieldsLawful();
    CommonInverse();
    MappedLawful(CommonFieldsCodec(), ToCommon, OfCommon);
  }

  // ----- addresses

  datatype Mac = Mac(o0: byte, o1: byte, o2: byte, o3: byte, o4: byte, o5: byte)

  type MacFields = Both<BasicFields, Both<byte, byte>>

  function ToMac(f: MacFields): Mac {
    Mac(f.first.first, f.first.second.first, f.first.second.second.first, f.first.second.second.second,
      f.second.first, f.second.second)
  }

  function OfMac(m: Mac): MacFields {
    Both(Both(m.o0, Both(m.o1, Both(m.o2, m.o3))), Both(m.o4, m.o5))
  }

  function MacFieldsCodec(): Codec<MacFields> {
    Pair(BasicFieldsCodec(), Pair(U8(), U8()))
  }

  function MacCodec(): Codec<Mac> {
    Mapped(MacFieldsCodec(), ToMac, OfMac)
  }

  lemma MacFieldsLawful()
    ensures Lawful(MacFieldsCodec()) && MacFieldsCodec().size == 6
  {
    U8Lawful();
    BasicFieldsLawful();
    PairLawful(U8(), U8());
    PairLawful(BasicFieldsCodec(), Pair(U8(), U8()));
  }

  lemma MacInverse()
    ensures Inverse(ToMac, OfMac)
  {
  }

  lemma MacLawful()
    ensures Lawful(MacCodec()) && MacCodec().size == 6
  {
    MacFieldsLawful();
    MacInverse();
    MappedLawful(MacFieldsCodec(), ToMac, OfMac);
  }

  datatype Address = Address(manual: bool, station: bits5, country: bits10, mid: Mac)

  type AddressFields = Both<uint16, Mac>

  function ToAddress(f: AddressFields): Address {
    Address(f.first >= 0x8000, f.first / 1024 % 32, f.first % 1024, f.second)
  }

  function OfAddress(a: Address): AddressFields {
    Both((if a.manual then 0x8000 else 0) + a.station * 1024 + a.country, a.mid)
  }

  function AddressFieldsCodec(): Codec<AddressFields> {
    Pair(U16(), MacCodec())
  }

  function AddressCodec(): Codec<Address> {
    Mapped(AddressFieldsCodec(), ToAddress, OfAddress)
  }

  lemma AddressFieldsLawful()
    ensures Lawful(AddressFieldsCodec()) && AddressFieldsCodec().size == 8
  {
    U16Lawful();
    MacLawful();
    PairLawful(U16(), MacCodec());
  }

  lemma AddressInverse()
    ensures Inverse(ToAddress, OfAddress)
  {
    forall f: AddressFields ensures OfAddress(ToAddress(f)) == f {
      SixteenBits(f.first);
    }
  }

  /** A flag, five bits and ten bits. */
  lemma SixteenBits(n: uint16)
    ensures n == (if n >= 0x8000 then 0x8000 else 0) + (n / 1024 % 32) * 1024 + n % 1024
  {
  }

  lemma AddressLawful()
    ensures Lawful(AddressCodec()) && AddressCodec().size == 8
  {
    AddressFieldsLawful();
    AddressInverse();
    MappedLawful(AddressFieldsCodec(), ToAddress, OfAddress);
  }

  // ----- position vectors

  datatype Lpv = Lpv(address: Address, timestamp: uint32, latitude: int32, longitude: int32, accurate: bool,
    speed: bits15, heading: uint16)

  type LpvFields = Both<Both<Address, uint32>, Both<Both<int32, int32>, Both<uint16, uint16>>>

  function ToLpv(f: LpvFields): Lpv {
    var packed := f.second.second.first;
    Lpv(f.first.first, f.first.second, f.second.first.first, f.second.first.second, packed >= 0x8000,
      packed % 0x8000, f.second.second.second)
  }

  function OfLpv(l: Lpv): LpvFields {
    Both(Both(l.address, l.timestamp),
      Both(Both(l.latitude, l.longitude), Both((if l.accurate then 0x8000 else 0) + l.speed, l.heading)))
  }

  function LpvHeadCodec(): Codec<Both<Address, uint32>> {
    Pair(AddressCodec(), U32())
  }

  function LpvTailCodec(): Codec<Both<Both<int32, int32>, Both<uint16, uint16>>> {
    Pair(Pair(I32(), I32()), Pair(U16(), U16()))
  }

  function LpvFieldsCodec(): Codec<LpvFields> {
    Pair(LpvHeadCodec(), LpvTailCodec())
  }

  function LpvCodec(): Codec<Lpv> {
    Mapped(LpvFieldsCodec(), ToLpv, OfLpv)
  }

  lemma LpvHeadLawful()
    ensures Lawful(LpvHeadCodec()) && LpvHeadCodec().size == 12
  {
    AddressLawful();
    U32Lawful();
    PairLawful(AddressCodec(), U32());
  }

  lemma LpvTailLawful()
    ensures Lawful(LpvTailCodec()) && LpvTailCodec().size == 12
  {
    I32Lawful();
    U16Lawful();
    PairLawful(I32(), I32());
    PairLawful(U16(), U16());
    PairLawful(Pair(I32(), I32()), Pair(U16(), U16()));
  }

  lemma LpvFieldsLawful()
    ensures Lawful(LpvFieldsCodec()) && LpvFieldsCodec().size == 24
  {
    LpvHeadLawful();
    LpvTailLawful();
    PairLawful(LpvHeadCodec(), LpvTailCodec());
  }

  lemma LpvInverse()
    ensures Inverse(ToLpv, OfLpv)
  {
  }

  lemma LpvLawful()
    ensures Lawful(LpvCodec()) && LpvCodec().size == 24
  {
    LpvFieldsLawful();
    LpvInverse();
    MappedLawful(LpvFieldsCodec(), ToLpv, OfLpv);
  }

  // ----- extended headers

  datatype Area = Area(latitude: int32, longitude: int32, distanceA: uint16, distanceB: uint16, angle: uint16)

  datatype Extended =
    | Beacon(source: Lpv)
    | SingleHop(source: Lpv, dcc: uint32)
    | MultiHop(sequenceNumber: uint16, reserved: uint16, source: Lpv)
    | GeoBroadcast(sequenceNumber: uint16, reserved: uint16, source: Lpv, area: Area, reserved2: uint16)

  type Counted = Both<Both<uint16, uint16>, Lpv>

  type AreaFields = Both<Both<int32, int32>, Both<Both<uint16, uint16>, uint16>>

  function ToArea(f: AreaFields): Area {
    Area(f.first.first, f.first.second, f.second.first.first, f.second.first.second, f.second.second)
  }

  function OfArea(a: Area): AreaFields {
    Both(Both(a.latitude, a.longitude), Both(Both(a.distanceA, a.distanceB), a.angle))
  }

  function AreaFieldsCodec(): Codec<AreaFields> {
    Pair(Pair(I32(), I32()), Pair(Pair(U16(), U16()), U16()))
  }

  function AreaCodec(): Codec<Area> {
    Mapped(AreaFieldsCodec(), ToArea, OfArea)
  }

  lemma AreaFieldsLawful()
    ensures Lawful(AreaFieldsCodec()) && AreaFieldsCodec().size == 14
  {
    I32Lawful();
    U16Lawful();
    PairLawful(I32(), I32());
    PairLawful(U16(), U16());
    PairLawful(Pair(U16(), U16()), U16());
    PairLawful(Pair(I32(), I32()), Pair(Pair(U16(), U16()), U16()));
  }

  lemma AreaInverse()
    ensures Inverse(ToArea, OfArea)
  {
  }

  lemma AreaLawful()
    ensures Lawful(AreaCodec()) && AreaCodec().size == 14
  {
    AreaFieldsLawful();
    AreaInverse();
    MappedLawful(AreaFieldsCodec(), ToArea, OfArea);
  }

  function SingleHopCodec(): Codec<Both<Lpv, uint32>> {
    Pair(LpvCodec(), U32())
  }

  function MultiHopCodec(): Codec<Counted> {
    Pair(Pair(U16(), U16()), LpvCodec())
  }

  function GeoBroadcastCodec(): Codec<Both<Counted, Both<Area, uint16>>> {
    Pair(MultiHopCodec(), Pair(AreaCodec(), U16()))
  }

  lemma SingleHopLawful()
    ensures Lawful(SingleHopCodec()) && SingleHopCodec().size == 28
  {
    LpvLawful();
    U32Lawful();
    PairLawful(LpvCodec(), U32());
  }

  lemma MultiHopLawful()
    ensures Lawful(MultiHopCodec()) && MultiHopCodec().size == 28
  {
    LpvLawful();
    U16Lawful();
    PairLawful(U16(), U16());
    PairLawful(Pair(U16(), U16()), LpvCodec());
  }

  lemma GeoBroadcastLawful()
    ensures Lawful(GeoBroadcastCodec()) && GeoBroadcastCodec().size == 44
  {
    MultiHopLawful();
    AreaLawful();
    U16Lawful();
    PairLawful(AreaCodec(), U16());
    PairLawful(MultiHopCodec(), Pair(AreaCodec(), U16()));
  }

  /** Which extended header follows a common header. */
  datatype Kind = BeaconKind | SingleHopKind | MultiHopKind | GeoBroadcastKind | Unsupported

  function KindOf(headerType: byte): Kind {
    if headerType == 0x50 then SingleHopKind
    else if headerType == 0x51 then MultiHopKind
    else if 0x40 <= headerType <= 0x42 then GeoBroadcastKind
    else if headerType == 0x10 then BeaconKind
    else Unsupported
  }

  function KindSize(k: Kind): nat {
    match k
    case BeaconKind => 24
    case SingleHopKind => 28
    case MultiHopKind => 28
    case GeoBroadcastKind => 44
    case Unsupported => 0
  }

  function ExtendedKind(e: Extended): Kind {
    match e
    case Beacon(_) => BeaconKind
    case SingleHop(_, _) => SingleHopKind
    case MultiHop(_, _, _) => MultiHopKind
    case GeoBroadcast(_, _, _, _, _) => GeoBroadcastKind
  }

  /** The codecs of all headers. */
  datatype Layout = Layout(basic: Codec<Basic>, common: Codec<Common>, beacon: Codec<Lpv>,
    singleHop: Codec<Both<Lpv, uint32>>, multiHop: Codec<Counted>,
    geoBroadcast: Codec<Both<Counted, Both<Area, uint16>>>)

  ghost predicate LawfulLayout(l: Layout) {
    && Lawful(l.basic) && l.basic.size == 4 && Lawful(l.common) && l.common.size == 8
    && Lawful(l.beacon) && l.beacon.size == 24 && Lawful(l.singleHop) && l.singleHop.size == 28
    && Lawful(l.multiHop) && l.multiHop.size == 28 && Lawful(l.geoBroadcast) && l.geoBroadcast.size == 44
  }

  function Headers(): Layout {
    Layout(BasicCodec(), CommonCodec(), LpvCodec(), SingleHopCodec(), MultiHopCodec(), GeoBroadcastCodec())
  }

  lemma HeadersLawful()
    ensures LawfulLayout(Headers())
  {
    BasicLawful();
    CommonLawful();
    LpvLawful();
    SingleHopLawful();
    MultiHopLawful();
    GeoBroadcastLawful();
  }

  function PutExtended(l: Layout, e: Extended, t: Octets): Octets {
    match e
    case Beacon(v) => l.beacon.put(v, t)
    case SingleHop(v, dcc) => l.singleHop.put(Both(v, dcc), t)
    case MultiHop(n, r, v) => l.multiHop.put(Both(Both(n, r), v), t)
    case GeoBroadcast(n, r, v, a, r2) => l.geoBroadcast.put(Both(Both(Both(n, r), v), Both(a, r2)), t)
  }

  function GetExtended(l: Layout, k: Kind, d: Octets): Extended
    requires k != Unsupported
  {
    match k
    case BeaconKind => Beacon(l.beacon.get(d))
    case SingleHopKind =>
      var f := l.singleHop.get(d);
      SingleHop(f.first, f.second)
    case MultiHopKind =>
      var f := l.multiHop.get(d);
      MultiHop(f.first.first, f.first.second, f.second)
    case GeoBroadcastKind =>
      var f := l.geoBroadcast.get(d);
      GeoBroadcast(f.first.first.first, f.first.first.second, f.first.second, f.second.first, f.second.second)
  }

  function AfterExtended(l: Layout, k: Kind, d: Octets): Octets
    requires k != Unsupported
  {
    match k
    case BeaconKind => l.beacon.after(d)
    case SingleHopKind => l.singleHop.after(d)
    case MultiHopKind => l.multiHop.after(d)
    case GeoBroadcastKind => l.geoBroadcast.after(d)
  }

  lemma ExtendedWritten(l: Layout, e: Extended, t: Octets)
    requires LawfulLayout(l)
    ensures
      var k, d := ExtendedKind(e), PutExtended(l, e, t);
      GetExtended(l, k, d) == e && AfterExtended(l, k, d) == t && Length(d) == Length(t) + KindSize(k)
  {
  }

  lemma ExtendedRead(l: Layout, k: Kind, d: Octets)
    requires LawfulLayout(l) && k != Unsupported && Length(d) >= KindSize(k)
    ensures ExtendedKind(GetExtended(l, k, d)) == k
    ensures PutExtended(l, GetExtended(l, k, d), AfterExtended(l, k, d)) == d
    ensures Length(AfterExtended(l, k, d)) == Length(d) - KindSize(k)
  {
  }

  // ----- layout, octet by octet and field by field

  lemma FourLayout(f: BasicFields, t: Octets)
    ensures BasicFieldsCodec().put(f, t) ==
      Octet(f.first, Octet(f.second.first, Octet(f.second.second.first, Octet(f.second.second.second, t))))
  {
    var c, d := f.second.second.first, f.second.second.second;
    PutPair(U8(), Pair(U8(), Pair(U8(), U8())), f.first, f.second, t);
    PutPair(U8(), Pair(U8(), U8()), f.second.first, f.second.second, t);
    PutPair(U8(), U8(), c, d, t);
    U8Octet(d, t);
    U8Octet(c, Octet(d, t));
    U8Octet(f.second.first, Octet(c, Octet(d, t)));
    U8Octet(f.first, Octet(f.second.first, Octet(c, Octet(d, t))));
  }

  lemma TwoLayout(a: byte, b: byte, t: Octets)
    ensures Pair(U8(), U8()).put(Both(a, b), t) == Octet(a, Octet(b, t))
  {
    PutPair(U8(), U8(), a, b, t);
    U8Octet(b, t);
    U8Octet(a, Octet(b, t));
  }

  lemma BasicLayout(h: Basic, t: Octets)
    ensures BasicCodec().put(h, t) ==
      Octet(Nibbles(h.version, h.nextHeader), Octet(h.reserved, Octet(h.lifetime, Octet(h.hopLimit, t))))
  {
    PutMapped(BasicFieldsCodec(), ToBasic, OfBasic, h, t);
    FourLayout(OfBasic(h), t);
  }

  lemma CommonLayout(h: Common, t: Octets)
    ensures CommonCodec().put(h, t) ==
      Octet(Nibbles(h.nextHeader, h.reserved1), Octet(h.headerType, Octet(h.trafficClass, Octet(h.flags,
        CommonTailCodec().put(Both(h.payload, Both(h.maximumHopLimit, h.reserved2)), t)))))
  {
    var f := OfCommon(h);
    PutMapped(CommonFieldsCodec(), ToCommon, OfCommon, h, t);
    PutPair(BasicFieldsCodec(), CommonTailCodec(), f.first, f.second, t);
    FourLayout(f.first, CommonTailCodec().put(f.second, t));
  }

  lemma CommonTailLayout(payload: uint16, maximumHopLimit: byte, reserved2: byte, t: Octets)
    ensures CommonTailCodec().put(Both(payload, Both(maximumHopLimit, reserved2)), t) ==
      U16().put(payload, Octet(maximumHopLimit, Octet(reserved2, t)))
  {
    PutPair(U16(), Pair(U8(), U8()), payload, Both(maximumHopLimit, reserved2), t);
    TwoLayout(maximumHopLimit, reserved2, t);
  }

  lemma MacLayout(m: Mac, t: Octets)
    ensures MacCodec().put(m, t) ==
      Octet(m.o0, Octet(m.o1, Octet(m.o2, Octet(m.o3, Octet(m.o4, Octet(m.o5, t))))))
  {
    var f := OfMac(m);
    PutMapped(MacFieldsCodec(), ToMac, OfMac, m, t);
    PutPair(BasicFieldsCodec(), Pair(U8(), U8()), f.first, f.second, t);
    TwoLayout(m.o4, m.o5, t);
    FourLayout(f.first, Octet(m.o4, Octet(m.o5, t)));
  }

  lemma AddressLayout(a: Address, t: Octets)
    ensures AddressCodec().put(a, t) ==
      U16().put((if a.manual then 0x8000 else 0) + a.station * 1024 + a.country, MacCodec().put(a.mid, t))
  {
    var f := OfAddress(a);
    PutMapped(AddressFieldsCodec(), ToAddress, OfAddress, a, t);
    PutPair(U16(), MacCodec(), f.first, f.second, t);
  }

  lemma LpvLayout(l: Lpv, t: Octets)
    ensures LpvCodec().put(l, t) ==
      AddressCodec().put(l.address, U32().put(l.timestamp, I32().put(l.latitude, I32().put(l.longitude,
        U16().put((if l.accurate then 0x8000 else 0) + l.speed, U16().put(l.heading, t))))))
  {
    var f := OfLpv(l);
    var rest := U16().put(f.second.second.first, U16().put(l.heading, t));
    PutMapped(LpvFieldsCodec(), ToLpv, OfLpv, l, t);
    PutPair(LpvHeadCodec(), LpvTailCodec(), f.first, f.second, t);
    PutPair(Pair(I32(), I32()), Pair(U16(), U16()), f.second.first, f.second.second, t);
    PutPair(U16(), U16(), f.second.second.first, l.heading, t);
    PutPair(I32(), I32(), l.latitude, l.longitude, rest);
    PutPair(AddressCodec(), U32(), l.address, l.timestamp, I32().put(l.latitude, I32().put(l.longitude, rest)));
  }

  lemma AreaLayout(a: Area, t: Octets)
    ensures AreaCodec().put(a, t) ==
      I32().put(a.latitude,
        I32().put(a.longitude, U16().put(a.distanceA, U16().put(a.distanceB, U16().put(a.angle, t)))))
  {
    var f := OfArea(a);
    PutMapped(AreaFieldsCodec(), ToArea, OfArea, a, t);
    PutPair(Pair(I32(), I32()), Pair(Pair(U16(), U16()), U16()), f.first, f.second, t);
    PutPair(Pair(U16(), U16()), U16(), f.second.first, a.angle, t);
    PutPair(U16(), U16(), a.distanceA, a.distanceB, U16().put(a.angle, t));
    PutPair(I32(), I32(), a.latitude, a.longitude,
      U16().put(a.distanceA, U16().put(a.distanceB, U16().put(a.angle, t))));
  }

  lemma MultiHopLayout(n: uint16, r: uint16, l: Lpv, t: Octets)
    ensures MultiHopCodec().put(Both(Both(n, r), l), t) == U16().put(n, U16().put(r, LpvCodec().put(l, t)))
  {
    PutPair(Pair(U16(), U16()), LpvCodec(), Both(n, r), l, t);
    PutPair(U16(), U16(), n, r, LpvCodec().put(l, t));
  }

  lemma GeoBroadcastLayout(n: uint16, r: uint16, l: Lpv, a: Area, r2: uint16, t: Octets)
    ensures GeoBroadcastCodec().put(Both(Both(Both(n, r), l), Both(a, r2)), t) ==
      U16().put(n, U16().put(r, LpvCodec().put(l, AreaCodec().put(a, U16().put(r2, t)))))
  {
    PutPair(MultiHopCodec(), Pair(AreaCodec(), U16()), Both(Both(n, r), l), Both(a, r2), t);
    PutPair(AreaCodec(), U16(), a, r2, t);
    MultiHopLayout(n, r, l, AreaCodec().put(a, U16().put(r2, t)));
  }

  // ----- packets

  datatype Pdu = Pdu(basic: Basic, common: Common, extended: Extended)

  /** The header type announces the extended header that follows. */
  predicate Consistent(p: Pdu) {
    KindOf(p.common.headerType) == ExtendedKind(p.extended)
  }

  function PutPdu(l: Layout, p: Pdu, t: Octets): Octets {
    l.basic.put(p.basic, l.common.put(p.common, PutExtended(l, p.extended, t)))
  }

  function PduLength(p: Pdu): nat {
    4 + 8 + KindSize(ExtendedKind(p.extended))
  }

  /** How far parsing has come, the octets it counts as parsed, and what follows. */
  datatype Progress =
    | Complete(pdu: Pdu, parsed: nat, rest: Octets)
    | Stopped(parsed: nat, rest: Octets)

  /** A header that is cut short uses up the octets, but they do not count as parsed. */
  function ParsePdu(l: Layout, d: Octets): Progress {
    if Length(d) < 4 then Stopped(0, Nil)
    else
      var d1 := l.basic.after(d);
      if Length(d1) < 8 then Stopped(4, Nil)
      else
        var common, d2 := l.common.get(d1), l.common.after(d1);
        var k := KindOf(common.headerType);
        if k == Unsupported then Stopped(12, d2)
        else if Length(d2) < KindSize(k) then Stopped(12, Nil)
        else Complete(Pdu(l.basic.get(d), common, GetExtended(l, k, d2)), 12 + KindSize(k), AfterExtended(l, k, d2))
  }

  lemma WrittenIsParsed(l: Layout, p: Pdu, t: Octets)
    requires LawfulLayout(l) && Consistent(p)
    ensures ParsePdu(l, PutPdu(l, p, t)) == Complete(p, PduLength(p), t)
    ensures Length(PutPdu(l, p, t)) == PduLength(p) + Length(t)
  {
    ExtendedWritten(l, p.extended, t);
    var d2 := PutExtended(l, p.extended, t);
    var d1 := l.common.put(p.common, d2);
    assert l.common.get(d1) == p.common && l.common.after(d1) == d2 && Length(d1) == Length(d2) + 8;
    var d := l.basic.put(p.basic, d1);
    assert l.basic.get(d) == p.basic && l.basic.after(d) == d1 && Length(d) == Length(d1) + 4;
  }

  lemma ParsedIsWritten(l: Layout, d: Octets)
    requires LawfulLayout(l) && ParsePdu(l, d).Complete?
    ensures
      var r := ParsePdu(l, d);
      && Consistent(r.pdu) && PutPdu(l, r.pdu, r.rest) == d
      && r.parsed == PduLength(r.pdu) == Length(d) - Length(r.rest)
  {
    var d1 := l.basic.after(d);
    var d2 := l.common.after(d1);
    ExtendedRead(l, KindOf(l.common.get(d1).headerType), d2);
    assert l.common.put(l.common.get(d1), d2) == d1;
    assert l.basic.put(l.basic.get(d), d1) == d;
  }
}
