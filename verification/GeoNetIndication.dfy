/** What a router makes of received octets: which packets reach the processing of their extended
    header, and why others are dropped. */
module GeoNetIndication {
  import opened Octets
  import opened Codecs
  import opened GeoNetHeaders
  import opened GeoNetParsers

  /** The router's protocol version, whether it uses security, and whether it then insists on it. */
  datatype Mib = Mib(version: nat, security: bool, strict: bool)

  datatype Reason =
    | ParseBasicHeader
    | ItsProtocolVersion
    | DecapUnsuccessfulStrict
    | ParseCommonHeader
    | HopLimit
    | ParseExtendedHeader
    | PayloadSize

  /** A packet is handed to the processing of its extended header, which decides whether it is
      passed up; or it is dropped. Secured packets go on to decapsulation instead; other next headers
      are ignored. */
  datatype Verdict =
    | Processed(pdu: Pdu, payload: Octets)
    | Dropped(reason: Reason)
    | ToSecurity(basic: Basic)
    | Ignored

  function IndicateExtended(basic: Basic, common: Common, d: Octets): Verdict {
    var k := KindOf(common.headerType);
    if k == Unsupported || Length(d) < KindSize(k) then Dropped(ParseExtendedHeader)
    else
      var rest := AfterExtendedFields(k, d);
      if Length(rest) < common.payload then Dropped(PayloadSize)
      else Processed(Pdu(basic, common, GetExtendedFields(k, d)), First(common.payload, rest))
  }

  function IndicateCommon(basic: Basic, d: Octets): Verdict {
    if Length(d) < 8 then Dropped(ParseCommonHeader)
    else if GetCommon(d).maximumHopLimit < basic.hopLimit then Dropped(HopLimit)
    else IndicateExtended(basic, GetCommon(d), AfterCommon(d))
  }

  function IndicateBasic(mib: Mib, d: Octets): Verdict {
    if Length(d) < 4 then Dropped(ParseBasicHeader)
    else
      var basic := GetBasic(d);
      if basic.version != mib.version then Dropped(ItsProtocolVersion)
      else if basic.nextHeader == 2 then ToSecurity(basic)
      else if basic.nextHeader == 1 then
        if !mib.security || !mib.strict then IndicateCommon(basic, AfterU32(d)) else Dropped(DecapUnsuccessfulStrict)
      else Ignored
  }

  /** The headers of a packet that the router may take as unsecured. */
  predicate Acceptable(mib: Mib, p: Pdu) {
    && p.basic.version == mib.version && p.basic.nextHeader == 1 && (!mib.security || !mib.strict)
    && p.basic.hopLimit <= p.common.maximumHopLimit
  }

  /** Processing from parsing: the headers are complete and acceptable, and the payload they
      announce is there. */
  lemma ProcessedIff(mib: Mib, d: Octets, p: Pdu, payload: Octets)
    ensures IndicateBasic(mib, d) == Processed(p, payload) <==>
      var r := ParseFields(d);
      && r.Complete? && r.pdu == p && Acceptable(mib, p)
      && p.common.payload <= Length(r.rest) && payload == First(p.common.payload, r.rest)
  {
  }

  /** The first octet: the version above, the next header below. */
  predicate Starts(d: Octets, version: nat, nextHeader: nat) {
    Length(d) >= 4 && d.first / 16 == version && d.first % 16 == nextHeader
  }

  /** Secured packets, of next header 2, and no others go on to decapsulation, with their basic header;
      next headers other than 1 and 2 are ignored. */
  lemma HandedOnIff(mib: Mib, d: Octets)
    ensures IndicateBasic(mib, d).ToSecurity? <==> Starts(d, mib.version, 2)
    ensures IndicateBasic(mib, d).ToSecurity? ==> IndicateBasic(mib, d).basic == GetBasic(d)
    ensures IndicateBasic(mib, d) == Ignored <==>
      exists next :: 0 <= next < 16 && next != 1 && next != 2 && Starts(d, mib.version, next)
  {
    if Length(d) >= 4 {
      BasicOctet(d);
      assert Starts(d, d.first / 16, d.first % 16);
    }
  }

  lemma BasicOctet(d: Octets)
    requires Length(d) >= 4
    ensures GetBasic(d).version == d.first / 16 && GetBasic(d).nextHeader == d.first % 16
  {
  }

  /** What is wrong with a packet that is dropped before its common header is looked at. */
  lemma DroppedAtOnce(mib: Mib, d: Octets)
    ensures IndicateBasic(mib, d) == Dropped(ParseBasicHeader) <==> Length(d) < 4
    ensures IndicateBasic(mib, d) == Dropped(ItsProtocolVersion) <==> Length(d) >= 4 && d.first / 16 != mib.version
    ensures IndicateBasic(mib, d) == Dropped(DecapUnsuccessfulStrict) <==>
      Starts(d, mib.version, 1) && mib.security && mib.strict
    ensures
      var v := IndicateBasic(mib, d);
      v.Dropped? && v.reason !in {ParseBasicHeader, ItsProtocolVersion, DecapUnsuccessfulStrict} ==> Unsecured(mib, d)
  {
    if Length(d) >= 4 {
      BasicOctet(d);
    }
  }

  /** Of an unsecured packet, the first thing that is wrong with it. */
  lemma DroppedIff(mib: Mib, d: Octets)
    requires Unsecured(mib, d)
    ensures IndicateBasic(mib, d) == Dropped(ParseCommonHeader) <==> Length(d) < 12
    ensures IndicateBasic(mib, d) == Dropped(HopLimit) <==> Length(d) >= 12 && !HopsFit(d)
    ensures IndicateBasic(mib, d) == Dropped(ParseExtendedHeader) <==>
      Length(d) >= 12 && HopsFit(d) && !ParseFields(d).Complete?
    ensures IndicateBasic(mib, d) == Dropped(PayloadSize) <==>
      && ParseFields(d).Complete? && HopsFit(d)
      && ParseFields(d).pdu.common.payload > Length(ParseFields(d).rest)
  {
    BasicOctet(d);
    FourOff(d);
    CommonDecides(mib, d);
  }

  lemma CommonDecides(mib: Mib, d: Octets)
    requires Unsecured(mib, d)
    ensures IndicateBasic(mib, d) == IndicateCommon(GetBasic(d), AfterU32(d))
  {
    BasicOctet(d);
  }

  /** A basic header that the router takes as unsecured. */
  predicate Unsecured(mib: Mib, d: Octets) {
    Starts(d, mib.version, 1) && !(mib.security && mib.strict)
  }

  predicate HopsFit(d: Octets) {
    GetBasic(d).hopLimit <= GetCommon(AfterU32(d)).maximumHopLimit
  }

  /** A router processes exactly the octets that are the serialization of an acceptable, consistent
      packet, its payload of the announced length, and anything behind it. */
  lemma ProcessedExactly(mib: Mib, d: Octets, p: Pdu, payload: Octets)
    ensures IndicateBasic(mib, d) == Processed(p, payload) <==>
      && Acceptable(mib, p) && Consistent(p) && Length(payload) == p.common.payload
      && exists padding :: d == PutPdu(Headers(), p, Append(payload, padding))
  {
    ProcessedIff(mib, d, p, payload);
    var r, n := ParseFields(d), p.common.payload;
    if IndicateBasic(mib, d) == Processed(p, payload) {
      PduRead(d);
      Parts(n, r.rest);
      assert d == PutPdu(Headers(), p, Append(payload, Skip(n, r.rest)));
    }
    if Acceptable(mib, p) && Consistent(p) && Length(payload) == n {
      if padding :| d == PutPdu(Headers(), p, Append(payload, padding)) {
        PduWritten(p, Append(payload, padding));
        AppendParts(payload, padding);
      }
    }
  }

  /** Parse and check the headers one after the other, and trim what follows to the payload. */
  method Indicate(mib: Mib, data: seq<byte>) returns (verdict: Verdict, payload: seq<byte>)
    ensures IndicateBasic(mib, From(data, 0)) == verdict
    ensures verdict.Processed? ==> From(payload, 0) == verdict.payload
  {
    payload := [];
    var parser := new Parser(data);
    var basicBytes, basic := parser.ParseBasic();
    if basic.None? {
      return Dropped(ParseBasicHeader), payload;
    } else if basic.value.version != mib.version {
      return Dropped(ItsProtocolVersion), payload;
    } else if basic.value.nextHeader == 2 {
      return ToSecurity(basic.value), payload;
    } else if basic.value.nextHeader != 1 {
      return Ignored, payload;
    } else if mib.security && mib.strict {
      return Dropped(DecapUnsuccessfulStrict), payload;
    }
    var commonBytes, common := parser.ParseCommon();
    if common.None? {
      return Dropped(ParseCommonHeader), payload;
    } else if common.value.maximumHopLimit < basic.value.hopLimit {
      return Dropped(HopLimit), payload;
    }
    verdict, payload := FinishIndication(parser, basic.value, common.value);
  }

  /** The extended header, and what is left of the data for the payload. */
  method FinishIndication(parser: Parser, basic: Basic, common: Common) returns (verdict: Verdict, payload: seq<byte>)
    requires parser.Valid()
    modifies parser, parser.archive
    ensures verdict == IndicateExtended(basic, common, old(parser.archive.Rest()))
    ensures verdict.Processed? ==> From(payload, 0) == verdict.payload
  {
    payload := [];
    var bytes, extended := parser.ParseExtended(common.headerType);
    if extended.None? {
      return Dropped(ParseExtendedHeader), payload;
    }
    var data, start := parser.archive.data, parser.archive.position;
    FromLength(data, start);
    if |data| - start < common.payload {
      return Dropped(PayloadSize), payload;
    }
    payload := data[start..start + common.payload];
    FromWindow(data, start, 0, common.payload);
    verdict := Processed(Pdu(basic, common, extended.value), From(payload, 0));
  }
}
