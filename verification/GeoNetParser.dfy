/** Headers read from an archive field by field, and the parser of received packets. */
module GeoNetParsers {
  import opened Collections
  import opened Octets
  import opened Codecs
  import opened GeoNetHeaders

  // ----- what the fields of each header are

  function GetFour(d: Octets): BasicFields {
    Both(GetByte(d), Both(GetByte(AfterByte(d)), Both(GetByte(AfterU16(d)), GetByte(AfterByte(AfterU16(d))))))
  }

  function GetMac(d: Octets): Mac {
    ToMac(Both(GetFour(d), Both(GetByte(AfterU32(d)), GetByte(AfterByte(AfterU32(d))))))
  }

  function AfterMac(d: Octets): Octets {
    AfterU16(AfterU32(d))
  }

  function GetAddress(d: Octets): Address {
    ToAddress(Both(GetU16(d), GetMac(AfterU16(d))))
  }

  function AfterAddress(d: Octets): Octets {
    AfterMac(AfterU16(d))
  }

  function GetPlace(d: Octets): Both<int32, int32> {
    Both(GetI32(d), GetI32(AfterU32(d)))
  }

  function AfterPlace(d: Octets): Octets {
    AfterU32(AfterU32(d))
  }

  function GetTwo16(d: Octets): Both<uint16, uint16> {
    Both(GetU16(d), GetU16(AfterU16(d)))
  }

  function GetLpv(d: Octets): Lpv {
    var d1 := AfterU32(AfterAddress(d));
    ToLpv(Both(Both(GetAddress(d), GetU32(AfterAddress(d))), Both(GetPlace(d1), GetTwo16(AfterPlace(d1)))))
  }

  function AfterLpv(d: Octets): Octets {
    AfterU32(AfterPlace(AfterU32(AfterAddress(d))))
  }

  function GetBasic(d: Octets): Basic {
    ToBasic(GetFour(d))
  }

  function GetCommon(d: Octets): Common {
    var d1 := AfterU32(d);
    ToCommon(Both(GetFour(d), Both(GetU16(d1), Both(GetByte(AfterU16(d1)), GetByte(AfterByte(AfterU16(d1)))))))
  }

  function AfterCommon(d: Octets): Octets {
    AfterU32(AfterU32(d))
  }

  function GetArea(d: Octets): Area {
    var d1 := AfterPlace(d);
    ToArea(Both(GetPlace(d), Both(GetTwo16(d1), GetU16(AfterU32(d1)))))
  }

  function AfterArea(d: Octets): Octets {
    AfterU16(AfterU32(AfterPlace(d)))
  }

  /** These are the fields of the codecs. */
  lemma FourFields(d: Octets)
    ensures BasicFieldsCodec().get(d) == GetFour(d) && BasicFieldsCodec().after(d) == AfterU32(d)
  {
    SplitOff(d);
  }

  lemma MacFieldsAre(d: Octets)
    ensures MacCodec().get(d) == GetMac(d) && MacCodec().after(d) == AfterMac(d)
  {
    FourFields(d);
    SplitOff(AfterU32(d));
  }

  lemma AddressFieldsAre(d: Octets)
    ensures AddressCodec().get(d) == GetAddress(d) && AddressCodec().after(d) == AfterAddress(d)
  {
    SplitOff(d);
    MacFieldsAre(AfterU16(d));
  }

  lemma PlaceFields(d: Octets)
    ensures Pair(I32(), I32()).get(d) == GetPlace(d) && Pair(I32(), I32()).after(d) == AfterPlace(d)
  {
    SplitOff(d);
    SplitOff(AfterU32(d));
  }

  lemma Two16Fields(d: Octets)
    ensures Pair(U16(), U16()).get(d) == GetTwo16(d) && Pair(U16(), U16()).after(d) == AfterU32(d)
  {
    SplitOff(d);
    SplitOff(AfterU16(d));
  }

  lemma LpvHeadFields(d: Octets)
    ensures LpvHeadCodec().get(d) == Both(GetAddress(d), GetU32(AfterAddress(d)))
    ensures LpvHeadCodec().after(d) == AfterU32(AfterAddress(d))
  {
    AddressFieldsAre(d);
    SplitOff(AfterAddress(d));
  }

  lemma LpvTailFields(d: Octets)
    ensures LpvTailCodec().get(d) == Both(GetPlace(d), GetTwo16(AfterPlace(d)))
    ensures LpvTailCodec().after(d) == AfterU32(AfterPlace(d))
  {
    PlaceFields(d);
    Two16Fields(AfterPlace(d));
  }

  lemma LpvFieldsAre(d: Octets)
    ensures LpvCodec().get(d) == GetLpv(d) && LpvCodec().after(d) == AfterLpv(d)
  {
    LpvHeadFields(d);
    LpvTailFields(AfterU32(AfterAddress(d)));
  }

  lemma BasicFieldsAre(d: Octets)
    ensures BasicCodec().get(d) == GetBasic(d) && BasicCodec().after(d) == AfterU32(d)
  {
    FourFields(d);
  }

  lemma CommonTailFields(d: Octets)
    ensures CommonTailCodec().get(d) == Both(GetU16(d), Both(GetByte(AfterU16(d)), GetByte(AfterByte(AfterU16(d)))))
    ensures CommonTailCodec().after(d) == AfterU32(d)
  {
    SplitOff(d);
  }

  lemma CommonFieldsAre(d: Octets)
    ensures CommonCodec().get(d) == GetCommon(d) && CommonCodec().after(d) == AfterCommon(d)
  {
    FourFields(d);
    CommonTailFields(AfterU32(d));
  }

  lemma AreaFieldsAre(d: Octets)
    ensures AreaCodec().get(d) == GetArea(d) && AreaCodec().after(d) == AfterArea(d)
  {
    var d1 := AfterPlace(d);
    PlaceFields(d);
    Two16Fields(d1);
    SplitOff(AfterU32(d1));
  }

  // ----- deserialization

  method DeserializeFour(ar: InputArchive) returns (ok: bool, f: BasicFields)
    requires ar.Valid()
    modifies ar
    ensures ar.Valid() && ar.good == (old(ar.good) && ok)
    ensures Took(4, old(ar.Rest()), ok, ar.Rest(), AfterU32(old(ar.Rest()))) && (ok ==> f == GetFour(old(ar.Rest())))
  {
    var a, b, c, d: byte := 0, 0, 0, 0;
    f := Both(0, Both(0, Both(0, 0)));
    ok, a := ar.ReadU8();
    if !ok { return; }
    ok, b := ar.ReadU8();
    if !ok { return; }
    ok, c := ar.ReadU8();
    if !ok { return; }
    ok, d := ar.ReadU8();
    f := Both(a, Both(b, Both(c, d)));
  }

  const NO_MAC := Mac(0, 0, 0, 0, 0, 0)

  const NO_ADDRESS := Address(false, 0, 0, NO_MAC)

  const NO_LPV := Lpv(NO_ADDRESS, 0, 0, 0, false, 0, 0)

  method DeserializeMac(ar: InputArchive) returns (ok: bool, m: Mac)
    requires ar.Valid()
    modifies ar
    ensures ar.Valid() && ar.good == (old(ar.good) && ok)
    ensures Took(6, old(ar.Rest()), ok, ar.Rest(), AfterMac(old(ar.Rest()))) && (ok ==> m == GetMac(old(ar.Rest())))
  {
    var f, a, b;
    m := NO_MAC;
    ok, f := DeserializeFour(ar);
    if !ok { return; }
    ok, a := ar.ReadU8();
    if !ok { return; }
    ok, b := ar.ReadU8();
    m := ToMac(Both(f, Both(a, b)));
  }

  method DeserializeAddress(ar: InputArchive) returns (ok: bool, a: Address)
    requires ar.Valid()
    modifies ar
    ensures ar.Valid() && ar.good == (old(ar.good) && ok)
    ensures Took(8, old(ar.Rest()), ok, ar.Rest(), AfterAddress(old(ar.Rest())))
    ensures ok ==> a == GetAddress(old(ar.Rest()))
  {
    var bits, mid;
    a := NO_ADDRESS;
    ok, bits := ar.ReadU16();
    if !ok { return; }
    ok, mid := DeserializeMac(ar);
    a := Address(bits >= 0x8000, bits / 1024 % 32, bits % 1024, mid);
  }

  /** Two angles of a position. */
  method DeserializePlace(ar: InputArchive) returns (ok: bool, p: Both<int32, int32>)
    requires ar.Valid()
    modifies ar
    ensures ar.Valid() && ar.good == (old(ar.good) && ok)
    ensures Took(8, old(ar.Rest()), ok, ar.Rest(), AfterPlace(old(ar.Rest()))) && (ok ==> p == GetPlace(old(ar.Rest())))
  {
    var lat, lon;
    p := Both(0, 0);
    ok, lat := ar.ReadI32();
    if !ok { return; }
    ok, lon := ar.ReadI32();
    p := Both(lat, lon);
  }

  method DeserializeTwo16(ar: InputArchive) returns (ok: bool, p: Both<uint16, uint16>)
    requires ar.Valid()
    modifies ar
    ensures ar.Valid() && ar.good == (old(ar.good) && ok)
    ensures Took(4, old(ar.Rest()), ok, ar.Rest(), AfterU32(old(ar.Rest()))) && (ok ==> p == GetTwo16(old(ar.Rest())))
  {
    var a, b;
    p := Both(0, 0);
    ok, a := ar.ReadU16();
    if !ok { return; }
    ok, b := ar.ReadU16();
    p := Both(a, b);
  }

  method DeserializeLpv(ar: InputArchive) returns (ok: bool, l: Lpv)
    requires ar.Valid()
    modifies ar
    ensures ar.Valid() && ar.good == (old(ar.good) && ok)
    ensures Took(24, old(ar.Rest()), ok, ar.Rest(), AfterLpv(old(ar.Rest()))) && (ok ==> l == GetLpv(old(ar.Rest())))
  {
    var address, timestamp, place, rest;
    l := NO_LPV;
    ok, address := DeserializeAddress(ar);
    if !ok { return; }
    ok, timestamp := ar.ReadU32();
    if !ok { return; }
    ok, place := DeserializePlace(ar);
    if !ok { return; }
    ok, rest := DeserializeTwo16(ar);
    var paiAndSpeed := rest.first;
    l := Lpv(address, timestamp, place.first, place.second, paiAndSpeed >= 0x8000, paiAndSpeed % 0x8000, rest.second);
  }

  method DeserializeBasic(ar: InputArchive) returns (ok: bool, h: Basic)
    requires ar.Valid()
    modifies ar
    ensures ar.Valid() && ar.good == (old(ar.good) && ok)
    ensures Took(4, old(ar.Rest()), ok, ar.Rest(), AfterU32(old(ar.Rest()))) && (ok ==> h == GetBasic(old(ar.Rest())))
  {
    var f;
    ok, f := DeserializeFour(ar);
    var versionAndNextHeader := f.first;
    h := Basic(versionAndNextHeader / 16, versionAndNextHeader % 16, f.second.first, f.second.second.first,
      f.second.second.second);
  }

  method DeserializeCommon(ar: InputArchive) returns (ok: bool, h: Common)
    requires ar.Valid()
    modifies ar
    ensures ar.Valid() && ar.good == (old(ar.good) && ok)
    ensures Took(8, old(ar.Rest()), ok, ar.Rest(), AfterCommon(old(ar.Rest())))
    ensures ok ==> h == GetCommon(old(ar.Rest()))
  {
    var f, payload, maximumHopLimit, reserved2;
    h := Common(0, 0, 0, 0, 0, 0, 0, 0);
    ok, f := DeserializeFour(ar);
    if !ok { return; }
    ok, payload := ar.ReadU16();
    if !ok { return; }
    ok, maximumHopLimit := ar.ReadU8();
    if !ok { return; }
    ok, reserved2 := ar.ReadU8();
    h := ToCommon(Both(f, Both(payload, Both(maximumHopLimit, reserved2))));
  }

  method DeserializeArea(ar: InputArchive) returns (ok: bool, a: Area)
    requires ar.Valid()
    modifies ar
    ensures ar.Valid() && ar.good == (old(ar.good) && ok)
    ensures Took(14, old(ar.Rest()), ok, ar.Rest(), AfterArea(old(ar.Rest()))) && (ok ==> a == GetArea(old(ar.Rest())))
  {
    var place, distances, angle;
    a := Area(0, 0, 0, 0, 0);
    ok, place := DeserializePlace(ar);
    if !ok { return; }
    ok, distances := DeserializeTwo16(ar);
    if !ok { return; }
    ok, angle := ar.ReadU16();
    a := Area(place.first, place.second, distances.first, distances.second, angle);
  }

  // ----- extended headers

  function GetExtendedFields(k: Kind, d: Octets): Extended
    requires k != Unsupported
  {
    match k
    case BeaconKind => Beacon(GetLpv(d))
    case SingleHopKind => SingleHop(GetLpv(d), GetU32(AfterLpv(d)))
    case MultiHopKind => MultiHop(GetTwo16(d).first, GetTwo16(d).second, GetLpv(AfterU32(d)))
    case GeoBroadcastKind =>
      var d1 := AfterLpv(AfterU32(d));
      GeoBroadcast(GetTwo16(d).first, GetTwo16(d).second, GetLpv(AfterU32(d)), GetArea(d1), GetU16(AfterArea(d1)))
  }

  function AfterExtendedFields(k: Kind, d: Octets): Octets
    requires k != Unsupported
  {
    match k
    case BeaconKind => AfterLpv(d)
    case SingleHopKind => AfterU32(AfterLpv(d))
    case MultiHopKind => AfterLpv(AfterU32(d))
    case GeoBroadcastKind => AfterU16(AfterArea(AfterLpv(AfterU32(d))))
  }

  lemma SingleHopFields(d: Octets)
    ensures SingleHopCodec().get(d) == GetSingleHop(d)
    ensures SingleHopCodec().after(d) == AfterU32(AfterLpv(d))
  {
    LpvFieldsAre(d);
    SplitOff(AfterLpv(d));
  }

  lemma MultiHopFields(d: Octets)
    ensures MultiHopCodec().get(d) == GetMultiHop(d)
    ensures MultiHopCodec().after(d) == AfterLpv(AfterU32(d))
  {
    Two16Fields(d);
    LpvFieldsAre(AfterU32(d));
  }

  lemma AreaTailFields(d: Octets)
    ensures Pair(AreaCodec(), U16()).get(d) == Both(GetArea(d), GetU16(AfterArea(d)))
    ensures Pair(AreaCodec(), U16()).after(d) == AfterU16(AfterArea(d))
  {
    AreaFieldsAre(d);
    SplitOff(AfterArea(d));
  }

  lemma GeoBroadcastFields(d: Octets)
    ensures GeoBroadcastCodec().get(d) == GetGeoBroadcast(d)
    ensures GeoBroadcastCodec().after(d) == AfterGeoBroadcast(d)
  {
    MultiHopFields(d);
    AreaTailFields(AfterLpv(AfterU32(d)));
  }

  /** Parsing as the sequence of fields that are read. */
  function ParseFields(d: Octets): Progress {
    if Length(d) < 4 then Stopped(0, Nil)
    else
      var d1 := AfterU32(d);
      if Length(d1) < 8 then Stopped(4, Nil)
      else
        var common, d2 := GetCommon(d1), AfterCommon(d1);
        var k := KindOf(common.headerType);
        if k == Unsupported then Stopped(12, d2)
        else if Length(d2) < KindSize(k) then Stopped(12, Nil)
        else Complete(Pdu(GetBasic(d), common, GetExtendedFields(k, d2)), 12 + KindSize(k), AfterExtendedFields(k, d2))
  }

  /** A layout whose codecs read those fields. */
  ghost predicate ReadsFields(l: Layout) {
    && (forall d :: l.basic.get(d) == GetBasic(d) && l.basic.after(d) == AfterU32(d))
    && (forall d :: l.common.get(d) == GetCommon(d) && l.common.after(d) == AfterCommon(d))
    && (forall d :: l.beacon.get(d) == GetLpv(d) && l.beacon.after(d) == AfterLpv(d))
    && (forall d :: l.singleHop.get(d) == GetSingleHop(d) && l.singleHop.after(d) == AfterU32(AfterLpv(d)))
    && (forall d :: l.multiHop.get(d) == GetMultiHop(d) && l.multiHop.after(d) == AfterLpv(AfterU32(d)))
    && (forall d :: l.geoBroadcast.get(d) == GetGeoBroadcast(d) && l.geoBroadcast.after(d) == AfterGeoBroadcast(d))
  }

  function GetSingleHop(d: Octets): Both<Lpv, uint32> {
    Both(GetLpv(d), GetU32(AfterLpv(d)))
  }

  function GetMultiHop(d: Octets): Counted {
    Both(GetTwo16(d), GetLpv(AfterU32(d)))
  }

  function GetGeoBroadcast(d: Octets): Both<Counted, Both<Area, uint16>> {
    var d1 := AfterLpv(AfterU32(d));
    Both(GetMultiHop(d), Both(GetArea(d1), GetU16(AfterArea(d1))))
  }

  function AfterGeoBroadcast(d: Octets): Octets {
    AfterU16(AfterArea(AfterLpv(AfterU32(d))))
  }

  lemma BasicAndCommonRead(basic: Codec<Basic>, common: Codec<Common>)
    requires basic == BasicCodec() && common == CommonCodec()
    ensures forall d :: basic.get(d) == GetBasic(d) && basic.after(d) == AfterU32(d)
    ensures forall d :: common.get(d) == GetCommon(d) && common.after(d) == AfterCommon(d)
  {
    forall d ensures basic.get(d) == GetBasic(d) && basic.after(d) == AfterU32(d) {
      BasicFieldsAre(d);
    }
    forall d ensures common.get(d) == GetCommon(d) && common.after(d) == AfterCommon(d) {
      CommonFieldsAre(d);
    }
  }

  lemma HopsRead(beacon: Codec<Lpv>, singleHop: Codec<Both<Lpv, uint32>>)
    requires beacon == LpvCodec() && singleHop == SingleHopCodec()
    ensures forall d :: beacon.get(d) == GetLpv(d) && beacon.after(d) == AfterLpv(d)
    ensures forall d :: singleHop.get(d) == GetSingleHop(d) && singleHop.after(d) == AfterU32(AfterLpv(d))
  {
    forall d ensures beacon.get(d) == GetLpv(d) && beacon.after(d) == AfterLpv(d) {
      LpvFieldsAre(d);
    }
    forall d ensures singleHop.get(d) == GetSingleHop(d) && singleHop.after(d) == AfterU32(AfterLpv(d)) {
      SingleHopFields(d);
    }
  }

  lemma MultiHopRead(multiHop: Codec<Counted>)
    requires multiHop == MultiHopCodec()
    ensures forall d :: multiHop.get(d) == GetMultiHop(d) && multiHop.after(d) == AfterLpv(AfterU32(d))
  {
    forall d ensures multiHop.get(d) == GetMultiHop(d) && multiHop.after(d) == AfterLpv(AfterU32(d)) {
      MultiHopFields(d);
    }
  }

  lemma GeoBroadcastRead(geoBroadcast: Codec<Both<Counted, Both<Area, uint16>>>)
    requires geoBroadcast == GeoBroadcastCodec()
    ensures forall d :: geoBroadcast.get(d) == GetGeoBroadcast(d) && geoBroadcast.after(d) == AfterGeoBroadcast(d)
  {
    forall d ensures geoBroadcast.get(d) == GetGeoBroadcast(d) && geoBroadcast.after(d) == AfterGeoBroadcast(d) {
      GeoBroadcastFields(d);
    }
  }

  lemma HeadersReadFields()
    ensures ReadsFields(Headers())
  {
    var l := Headers();
    BasicAndCommonRead(l.basic, l.common);
    HopsRead(l.beacon, l.singleHop);
    MultiHopRead(l.multiHop);
    GeoBroadcastRead(l.geoBroadcast);
  }

  ghost predicate SameExtended(l: Layout, k: Kind, d: Octets)
    requires k != Unsupported
  {
    GetExtended(l, k, d) == GetExtendedFields(k, d) && AfterExtended(l, k, d) == AfterExtendedFields(k, d)
  }

  lemma ExtendedByFields(l: Layout, k: Kind, d: Octets)
    requires k != Unsupported
    requires k.BeaconKind? ==> l.beacon.get(d) == GetLpv(d) && l.beacon.after(d) == AfterLpv(d)
    requires k.SingleHopKind? ==> l.singleHop.get(d) == GetSingleHop(d) && l.singleHop.after(d) == AfterU32(AfterLpv(d))
    requires k.MultiHopKind? ==> l.multiHop.get(d) == GetMultiHop(d) && l.multiHop.after(d) == AfterLpv(AfterU32(d))
    requires k.GeoBroadcastKind? ==>
      l.geoBroadcast.get(d) == GetGeoBroadcast(d) && l.geoBroadcast.after(d) == AfterGeoBroadcast(d)
    ensures SameExtended(l, k, d)
  {
  }

  lemma ParseByFieldsIf(l: Layout, d: Octets)
    requires l.basic.get(d) == GetBasic(d) && l.basic.after(d) == AfterU32(d)
    requires
      var d1 := AfterU32(d);
      && l.common.get(d1) == GetCommon(d1) && l.common.after(d1) == AfterCommon(d1)
      && var k := KindOf(GetCommon(d1).headerType);
         k != Unsupported ==> SameExtended(l, k, AfterCommon(d1))
    ensures ParsePdu(l, d) == ParseFields(d)
  {
  }

  lemma ParseByFields(l: Layout, d: Octets)
    requires ReadsFields(l)
    ensures ParsePdu(l, d) == ParseFields(d)
  {
    var d1 := AfterU32(d);
    var k := KindOf(GetCommon(d1).headerType);
    if k != Unsupported {
      ExtendedByFields(l, k, AfterCommon(d1));
    }
    ParseByFieldsIf(l, d);
  }

  // ----- packets

  /** Every consistent packet is parsed from its serialization, whatever payload follows, and the
      parsed octets are those of its headers. */
  lemma PduWritten(p: Pdu, t: Octets)
    requires Consistent(p)
    ensures ParseFields(PutPdu(Headers(), p, t)) == Complete(p, PduLength(p), t)
    ensures Length(PutPdu(Headers(), p, t)) == PduLength(p) + Length(t)
  {
    HeadersLawful();
    HeadersReadFields();
    WrittenIsParsed(Headers(), p, t);
    ParseByFields(Headers(), PutPdu(Headers(), p, t));
  }

  /** Whatever octets parse as a packet are, byte for byte, the serialization of that packet and
      what follows it. */
  lemma PduRead(d: Octets)
    requires ParseFields(d).Complete?
    ensures
      var r := ParseFields(d);
      && Consistent(r.pdu) && PutPdu(Headers(), r.pdu, r.rest) == d
      && r.parsed == PduLength(r.pdu) == Length(d) - Length(r.rest)
  {
    HeadersLawful();
    HeadersReadFields();
    ParseByFields(Headers(), d);
    ParsedIsWritten(Headers(), d);
  }

  /** The octet that holds the header type. */
  function HeaderTypeIn(d: Octets): byte {
    GetByte(AfterByte(AfterU32(d)))
  }

  /** Parsing is complete exactly when the sixth octet names an extended header the parser knows
      and the data is long enough for it. */
  lemma ParsesExactly(d: Octets)
    ensures ParseFields(d).Complete? <==>
      Length(d) >= 12 &&
      var k := KindOf(HeaderTypeIn(d));
      k != Unsupported && Length(d) >= 12 + KindSize(k)
  {
    FourOff(d);
    FourOff(AfterU32(d));
    FourOff(AfterU32(AfterU32(d)));
  }

  lemma HeaderTypeRead(d: Octets)
    requires ParseFields(d).Complete?
    ensures ParseFields(d).pdu.common == GetCommon(AfterU32(d))
    ensures GetCommon(AfterU32(d)).headerType == HeaderTypeIn(d)
  {
  }

  lemma TypesOf(p: Pdu)
    requires Consistent(p)
    ensures p.extended.Beacon? <==> p.common.headerType == 0x10
    ensures p.extended.GeoBroadcast? <==> 0x40 <= p.common.headerType <= 0x42
    ensures p.extended.SingleHop? <==> p.common.headerType == 0x50
    ensures p.extended.MultiHop? <==> p.common.headerType == 0x51
  {
  }

  /** The sixth octet of whatever is parsed tells which extended header follows. */
  lemma HeaderTypes(d: Octets)
    requires ParseFields(d).Complete?
    ensures
      var p, kind := ParseFields(d).pdu, HeaderTypeIn(d);
      && (p.extended.Beacon? <==> kind == 0x10)
      && (p.extended.GeoBroadcast? <==> 0x40 <= kind <= 0x42)
      && (p.extended.SingleHop? <==> kind == 0x50)
      && (p.extended.MultiHop? <==> kind == 0x51)
  {
    PduRead(d);
    HeaderTypeRead(d);
    TypesOf(ParseFields(d).pdu);
  }

  lemma FourOff(d: Octets)
    ensures Length(AfterU32(d)) == if Length(d) >= 4 then Length(d) - 4 else 0
  {
    OneOff(d);
    OneOff(AfterByte(d));
    OneOff(AfterU16(d));
    OneOff(AfterByte(AfterU16(d)));
  }

  lemma OneOff(d: Octets)
    ensures Length(AfterByte(d)) == if Length(d) >= 1 then Length(d) - 1 else 0
  {
  }

  method DeserializeSingleHop(ar: InputArchive) returns (ok: bool, e: Extended)
    requires ar.Valid()
    modifies ar
    ensures ar.Valid() && ar.good == (old(ar.good) && ok)
    ensures Took(28, old(ar.Rest()), ok, ar.Rest(), AfterExtendedFields(SingleHopKind, old(ar.Rest())))
    ensures ok ==> e == GetExtendedFields(SingleHopKind, old(ar.Rest()))
  {
    var source, dcc;
    e := SingleHop(NO_LPV, 0);
    ok, source := DeserializeLpv(ar);
    if !ok { return; }
    ok, dcc := ar.ReadU32();
    e := SingleHop(source, dcc);
  }

  method DeserializeMultiHop(ar: InputArchive) returns (ok: bool, e: Extended)
    requires ar.Valid()
    modifies ar
    ensures ar.Valid() && ar.good == (old(ar.good) && ok)
    ensures Took(28, old(ar.Rest()), ok, ar.Rest(), AfterExtendedFields(MultiHopKind, old(ar.Rest())))
    ensures ok ==> e == GetExtendedFields(MultiHopKind, old(ar.Rest()))
  {
    var counted, source;
    e := MultiHop(0, 0, NO_LPV);
    ok, counted := DeserializeTwo16(ar);
    if !ok { return; }
    ok, source := DeserializeLpv(ar);
    e := MultiHop(counted.first, counted.second, source);
  }

  method DeserializeGeoBroadcast(ar: InputArchive) returns (ok: bool, e: Extended)
    requires ar.Valid()
    modifies ar
    ensures ar.Valid() && ar.good == (old(ar.good) && ok)
    ensures Took(44, old(ar.Rest()), ok, ar.Rest(), AfterExtendedFields(GeoBroadcastKind, old(ar.Rest())))
    ensures ok ==> e == GetExtendedFields(GeoBroadcastKind, old(ar.Rest()))
  {
    var counted, source, area, reserved2;
    e := GeoBroadcast(0, 0, NO_LPV, Area(0, 0, 0, 0, 0), 0);
    ok, counted := DeserializeTwo16(ar);
    if !ok { return; }
    ok, source := DeserializeLpv(ar);
    if !ok { return; }
    ok, area := DeserializeArea(ar);
    if !ok { return; }
    ok, reserved2 := ar.ReadU16();
    e := GeoBroadcast(counted.first, counted.second, source, area, reserved2);
  }

  // ----- the parser

  class Parser {
    const archive: InputArchive
    var readBytes: nat

    ghost predicate Valid()
      reads this, archive
    {
      archive.Valid()
    }

    constructor (data: seq<byte>)
      ensures Valid() && fresh(archive) && archive.Rest() == From(data, 0) && readBytes == 0
    {
      archive := new InputArchive(data);
      readBytes := 0;
    }

    /** A header cut short counts for nothing. */
    method ParseBasic() returns (bytes: nat, h: Option<Basic>)
      requires Valid()
      modifies this, archive
      ensures Valid() && readBytes == old(readBytes) + bytes
      ensures
        var d := old(archive.Rest());
        if Length(d) >= 4 then
          bytes == 4 && h == Some(GetBasic(d)) && archive.Rest() == AfterU32(d)
        else bytes == 0 && h == None && archive.Rest() == Nil
    {
      bytes, h := 0, None;
      var ok, basic := DeserializeBasic(archive);
      if ok {
        bytes, h := 4, Some(basic);
      }
      readBytes := readBytes + bytes;
    }

    method ParseCommon() returns (bytes: nat, h: Option<Common>)
      requires Valid()
      modifies this, archive
      ensures Valid() && readBytes == old(readBytes) + bytes
      ensures
        var d := old(archive.Rest());
        if Length(d) >= 8 then
          bytes == 8 && h == Some(GetCommon(d)) && archive.Rest() == AfterCommon(d)
        else bytes == 0 && h == None && archive.Rest() == Nil
    {
      bytes, h := 0, None;
      var ok, common := DeserializeCommon(archive);
      if ok {
        bytes, h := 8, Some(common);
      }
      readBytes := readBytes + bytes;
    }

    /** Header types without an implementation leave the archive alone. */
    method ParseExtended(headerType: byte) returns (bytes: nat, h: Option<Extended>)
      requires Valid()
      modifies this, archive
      ensures Valid() && readBytes == old(readBytes) + bytes
      ensures
        var d, k := old(archive.Rest()), KindOf(headerType);
        if k == Unsupported then bytes == 0 && h == None && archive.Rest() == d
        else if Length(d) >= KindSize(k) then
          && bytes == KindSize(k) && h == Some(GetExtendedFields(k, d))
          && archive.Rest() == AfterExtendedFields(k, d)
        else bytes == 0 && h == None && archive.Rest() == Nil
    {
      bytes, h := 0, None;
      var ok, source, e := false, NO_LPV, Beacon(NO_LPV);
      if headerType == 0x50 {
        ok, e := DeserializeSingleHop(archive);
        bytes := if ok then 28 else 0;
      } else if headerType == 0x51 {
        ok, e := DeserializeMultiHop(archive);
        bytes := if ok then 28 else 0;
      } else if headerType == 0x40 || headerType == 0x41 || headerType == 0x42 {
        ok, e := DeserializeGeoBroadcast(archive);
        bytes := if ok then 44 else 0;
      } else if headerType == 0x10 {
        ok, source := DeserializeLpv(archive);
        e := Beacon(source);
        bytes := if ok then 24 else 0;
      }
      h := if ok then Some(e) else None;
      readBytes := readBytes + bytes;
    }
  }
}
