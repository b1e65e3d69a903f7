/** Packets over a byte stream: each is preceded by its size, and the receiver cuts the stream
    back into packets, however it arrives. */
module TcpFraming {
  import opened Octets

  const ETHERNET_HEADER_LENGTH := 14

  type Packet = seq<byte>

  // ----- sizes

  /** Keep the lowest 16 bits, as a narrowing conversion does. */
  function Truncate16(n: nat): (r: uint16)
    ensures r == n <==> n < 0x1_0000
  {
    n % 0x1_0000
  }

  function Prefix(n: uint16): (b: seq<byte>)
    ensures |b| == 2 && Size(b) == n
  {
    [n / 256, n % 256]
  }

  function Size(b: seq<byte>): uint16
    requires |b| == 2
  {
    var high: int := b[0];
    high * 256 + b[1]
  }

  lemma PrefixBack(b: seq<byte>)
    requires |b| == 2
    ensures Prefix(Size(b)) == b
  {
    assert Size(b) / 256 == b[0] && Size(b) % 256 == b[1];
  }

  // ----- sending

  function Frame(p: Packet): seq<byte> {
    Prefix(Truncate16(|p|)) + p
  }

  function Stream(ps: seq<Packet>): seq<byte> {
    if ps == [] then [] else Frame(ps[0]) + Stream(ps[1..])
  }

  function Concat(layers: seq<seq<byte>>): seq<byte> {
    if layers == [] then [] else layers[0] + Concat(layers[1..])
  }

  predicate AllFit(ps: seq<Packet>) {
    forall p :: p in ps ==> |p| < 0x1_0000
  }

  /** The size comes first, most significant octet first. */
  lemma FrameLayout(p: Packet, high: byte, low: byte)
    requires |p| == high * 0x100 + low
    ensures Frame(p) == [high, low] + p
  {
  }

  // ----- receiving

  function NextSize(store: seq<byte>): uint16 {
    if |store| >= 2 then Size(store[..2]) else 0
  }

  predicate HasPacket(store: seq<byte>) {
    |store| >= NextSize(store) + 2
  }

  function NextPacket(store: seq<byte>): Packet
    requires HasPacket(store)
  {
    store[2..NextSize(store) + 2]
  }

  function AfterNext(store: seq<byte>): seq<byte>
    requires HasPacket(store)
  {
    store[NextSize(store) + 2..]
  }

  /** The packets a byte stream is cut into. */
  function Packets(s: seq<byte>): seq<Packet>
    decreases |s|
  {
    if HasPacket(s) then [NextPacket(s)] + Packets(AfterNext(s)) else []
  }

  /** What remains of it. */
  function Rest(s: seq<byte>): seq<byte>
    decreases |s|
  {
    if HasPacket(s) then Rest(AfterNext(s)) else s
  }

  // ----- cutting and framing are inverse

  /** A stream is the framing of its packets followed by an incomplete packet. */
  lemma {:induction false} NothingLost(s: seq<byte>)
    ensures Stream(Packets(s)) + Rest(s) == s
    decreases |s|
  {
    if HasPacket(s) {
      var later := AfterNext(s);
      NothingLost(later);
      FrameOfNext(s);
      StreamCons(NextPacket(s), Packets(later));
      AppendAssoc(Frame(NextPacket(s)), Stream(Packets(later)), Rest(later));
    }
  }

  lemma {:induction false} RestIncomplete(s: seq<byte>)
    ensures !HasPacket(Rest(s)) && AllFit(Packets(s))
    decreases |s|
  {
    if HasPacket(s) {
      RestIncomplete(AfterNext(s));
    }
  }

  lemma FrameOfNext(s: seq<byte>)
    requires HasPacket(s)
    ensures Frame(NextPacket(s)) + AfterNext(s) == s
  {
    PrefixBack(s[..2]);
    assert s == s[..2] + NextPacket(s) + AfterNext(s);
  }

  lemma StreamCons(p: Packet, ps: seq<Packet>)
    ensures Stream([p] + ps) == Frame(p) + Stream(ps)
  {
    assert ([p] + ps)[1..] == ps;
  }

  lemma FrameFirst(p: Packet, t: seq<byte>)
    ensures HasPacket(Frame(p) + t)
    ensures NextPacket(Frame(p) + t) == p[..Truncate16(|p|)]
    ensures AfterNext(Frame(p) + t) == p[Truncate16(|p|)..] + t
  {
    var s := Frame(p) + t;
    assert s[..2] == Prefix(Truncate16(|p|));
    assert s[2..] == p + t;
    assert NextPacket(s) == s[2..][..NextSize(s)];
    assert AfterNext(s) == s[2..][NextSize(s)..];
  }

  /** That decomposition is the only one: packets of at most 65535 bytes come out as they went
      in, and the rest is what no packet can be cut from. */
  lemma {:induction false} OnlyFraming(ps: seq<Packet>, t: seq<byte>)
    requires AllFit(ps) && !HasPacket(t)
    ensures Packets(Stream(ps) + t) == ps && Rest(Stream(ps) + t) == t
  {
    if ps == [] {
      assert Stream(ps) + t == t;
    } else {
      var more := Stream(ps[1..]) + t;
      assert Stream(ps) + t == Frame(ps[0]) + more;
      FrameFirst(ps[0], more);
      assert ps[0] in ps;
      assert forall p :: p in ps[1..] ==> p in ps;
      OnlyFraming(ps[1..], t);
    }
  }

  /** Packets survive the stream exactly when each has at most 65535 bytes: the size of a longer
      one does not fit its prefix. */
  lemma {:induction false} RoundTripExact(ps: seq<Packet>)
    ensures Packets(Stream(ps)) == ps <==> AllFit(ps)
  {
    if AllFit(ps) {
      OnlyFraming(ps, []);
      assert Stream(ps) + [] == Stream(ps);
    } else {
      FrameFirst(ps[0], Stream(ps[1..]));
      if |ps[0]| < 0x1_0000 {
        assert AfterNext(Stream(ps)) == Stream(ps[1..]);
        RoundTripExact(ps[1..]);
        assert forall p :: p in ps ==> p == ps[0] || p in ps[1..];
        assert Packets(Stream(ps))[1..] == Packets(Stream(ps[1..]));
      } else {
        assert |Packets(Stream(ps))[0]| < |ps[0]|;
      }
    }
  }

  // ----- arrival in chunks

  /** Cutting what has arrived early changes nothing: what is cut later continues from the rest. */
  lemma {:induction false} CutEarly(s: seq<byte>, t: seq<byte>)
    ensures Packets(s + t) == Packets(s) + Packets(Rest(s) + t)
    ensures Rest(s + t) == Rest(Rest(s) + t)
    decreases |s|
  {
    if HasPacket(s) {
      assert (s + t)[..2] == s[..2];
      assert NextPacket(s + t) == NextPacket(s);
      assert AfterNext(s + t) == AfterNext(s) + t;
      CutEarly(AfterNext(s), t);
    }
  }

  /** The store after receiving chunks, and the packets passed up on the way. */
  datatype Reception = Reception(passed: seq<Packet>, store: seq<byte>)

  function Receive(r: Reception, chunk: seq<byte>): Reception {
    Reception(r.passed + Packets(r.store + chunk), Rest(r.store + chunk))
  }

  function ReceiveAll(r: Reception, chunks: seq<seq<byte>>): Reception
    decreases |chunks|
  {
    if chunks == [] then r else ReceiveAll(Receive(r, chunks[0]), chunks[1..])
  }

  /** Receiving two chunks is receiving them at once. */
  lemma ReceiveTwice(r: Reception, a: seq<byte>, b: seq<byte>)
    ensures Receive(Receive(r, a), b) == Receive(r, a + b)
  {
    CutEarly(r.store + a, b);
    assert r.store + a + b == r.store + (a + b);
    AppendAssoc(r.passed, Packets(r.store + a), Packets(Rest(r.store + a) + b));
  }

  lemma AppendAssoc<T>(a: seq<T>, b: seq<T>, c: seq<T>)
    ensures a + (b + c) == a + b + c
  {
  }

  lemma {:induction false} ChunksContinue(r: Reception, chunks: seq<seq<byte>>)
    requires !HasPacket(r.store)
    ensures ReceiveAll(r, chunks) == Receive(r, Concat(chunks))
    decreases |chunks|
  {
    if chunks == [] {
      assert r.store + [] == r.store;
      assert r.passed + [] == r.passed;
    } else {
      RestIncomplete(r.store + chunks[0]);
      ChunksContinue(Receive(r, chunks[0]), chunks[1..]);
      ReceiveTwice(r, chunks[0], Concat(chunks[1..]));
    }
  }

  /** However a stream is cut into chunks, the packets passed up are those of the whole stream,
      and the bytes kept are the rest of it. */
  lemma ChunksDoNotMatter(chunks: seq<seq<byte>>)
    ensures ReceiveAll(Reception([], []), chunks) == Reception(Packets(Concat(chunks)), Rest(Concat(chunks)))
  {
    ChunksContinue(Reception([], []), chunks);
    assert [] + Concat(chunks) == Concat(chunks);
    assert [] + Packets(Concat(chunks)) == Packets(Concat(chunks));
  }

  /** A sender's packets, all fitting, arrive in order, whole and once; of those not fully arrived,
      exactly the received part is kept. */
  lemma Delivery(ps: seq<Packet>, chunks: seq<seq<byte>>, outstanding: seq<byte>)
    requires AllFit(ps) && Stream(ps) == Concat(chunks) + outstanding
    ensures
      var r := ReceiveAll(Reception([], []), chunks);
      && r.passed <= ps
      && r.store + outstanding == Stream(ps[|r.passed|..])
      && (outstanding == [] ==> r.passed == ps && r.store == [])
  {
    ChunksDoNotMatter(chunks);
    DeliveredSoFar(ps, Concat(chunks), outstanding);
    if outstanding == [] {
      OnlyFraming(ps, []);
      assert Stream(ps) + [] == Stream(ps);
      assert Concat(chunks) + [] == Concat(chunks);
    }
  }

  lemma DeliveredSoFar(ps: seq<Packet>, arrived: seq<byte>, outstanding: seq<byte>)
    requires AllFit(ps) && Stream(ps) == arrived + outstanding
    ensures Packets(arrived) <= ps
    ensures Rest(arrived) + outstanding == Stream(ps[|Packets(arrived)|..])
  {
    CutEarly(arrived, outstanding);
    RoundTripExact(ps);
    var passed, rest := Packets(arrived), Rest(arrived);
    var later := ps[|passed|..];
    assert ps == passed + later;
    NothingLost(arrived);
    StreamAppend(passed, later);
    SamePrefix(Stream(passed), rest + outstanding, Stream(later)) by {
      AppendAssoc(Stream(passed), rest, outstanding);
    }
  }

  lemma SamePrefix<T>(a: seq<T>, b: seq<T>, c: seq<T>)
    requires a + b == a + c
    ensures b == c
  {
    assert (a + b)[|a|..] == b && (a + c)[|a|..] == c;
  }

  lemma {:induction false} StreamAppend(a: seq<Packet>, b: seq<Packet>)
    ensures Stream(a + b) == Stream(a) + Stream(b)
  {
    if a == [] {
      assert a + b == b;
    } else {
      assert (a + b)[1..] == a[1..] + b;
      StreamAppend(a[1..], b);
    }
  }

  // ----- indications

  type MacAddress = a: seq<byte> | |a| == 6 witness [0, 0, 0, 0, 0, 0]

  datatype EthernetHeader = EthernetHeader(destination: MacAddress, source: MacAddress, proto: uint16)

  function CreateHeader(h: EthernetHeader): (b: seq<byte>)
    ensures |b| == ETHERNET_HEADER_LENGTH
  {
    h.destination + h.source + [h.proto / 256, h.proto % 256]
  }

  function DecodeHeader(b: seq<byte>): EthernetHeader
    requires |b| >= ETHERNET_HEADER_LENGTH
  {
    EthernetHeader(b[..6], b[6..12], Size(b[12..14]))
  }

  /** A header and its first 14 octets determine each other; what follows does not matter. */
  lemma HeaderBack(h: EthernetHeader, t: seq<byte>)
    ensures DecodeHeader(CreateHeader(h) + t) == h
  {
    var b := CreateHeader(h) + t;
    assert b[12..14] == Prefix(h.proto);
    assert b[..6] == h.destination && b[6..12] == h.source;
  }

  /** Destination, source, and the type with its most significant octet first. */
  lemma HeaderLayout(h: EthernetHeader, high: byte, low: byte)
    requires h.proto == high * 0x100 + low
    ensures CreateHeader(h) == h.destination + h.source + [high, low]
  {
  }

  lemma HeaderExact(b: seq<byte>)
    requires |b| >= ETHERNET_HEADER_LENGTH
    ensures CreateHeader(DecodeHeader(b)) == b[..ETHERNET_HEADER_LENGTH]
  {
    PrefixBack(b[12..14]);
    assert b[..6] + b[6..12] + b[12..14] == b[..14];
  }

  datatype Indication = Indication(header: EthernetHeader, packet: seq<byte>)

  /** What is indicated of the packets passed up: those long enough for an Ethernet header. */
  function Indicated(ps: seq<Packet>): seq<Indication> {
    if ps == [] then [] else IndicatedOf(ps[0]) + Indicated(ps[1..])
  }

  function IndicatedOf(p: Packet): seq<Indication> {
    if |p| < ETHERNET_HEADER_LENGTH then []
    else [Indication(DecodeHeader(p[..ETHERNET_HEADER_LENGTH]), p[ETHERNET_HEADER_LENGTH..])]
  }

  lemma {:induction false} IndicatedAppend(a: seq<Packet>, p: Packet)
    ensures Indicated(a + [p]) == Indicated(a) + IndicatedOf(p)
  {
    if a == [] {
      assert a + [p] == [p];
      assert Indicated([]) == [];
    } else {
      assert (a + [p])[1..] == a[1..] + [p];
      IndicatedAppend(a[1..], p);
      AppendAssoc(IndicatedOf(a[0]), Indicated(a[1..]), IndicatedOf(p));
    }
  }

  /** Link-layer packets: an Ethernet header in front of the payload. */
  function Linked(sent: seq<Indication>): seq<Packet> {
    if sent == [] then [] else [CreateHeader(sent[0].header) + sent[0].packet] + Linked(sent[1..])
  }

  /** What an upper layer sent with Ethernet headers is indicated, with these headers. */
  lemma {:induction false} SentIsIndicated(sent: seq<Indication>)
    ensures Indicated(Linked(sent)) == sent
  {
    if sent != [] {
      var h, p := CreateHeader(sent[0].header), CreateHeader(sent[0].header) + sent[0].packet;
      assert p[..ETHERNET_HEADER_LENGTH] == h && p[ETHERNET_HEADER_LENGTH..] == sent[0].packet;
      HeaderBack(sent[0].header, []);
      assert h + [] == h;
      SentIsIndicated(sent[1..]);
    }
  }

  /** And nothing else is: the packets indicated are those with a header, octet for octet. */
  lemma {:induction false} IndicatedWasSent(ps: seq<Packet>)
    ensures Linked(Indicated(ps)) == LongEnough(ps)
  {
    if ps != [] {
      IndicatedWasSent(ps[1..]);
      if |ps[0]| >= ETHERNET_HEADER_LENGTH {
        HeaderExact(ps[0][..ETHERNET_HEADER_LENGTH]);
        assert ps[0][..ETHERNET_HEADER_LENGTH][..ETHERNET_HEADER_LENGTH] == ps[0][..ETHERNET_HEADER_LENGTH];
        assert ps[0][..ETHERNET_HEADER_LENGTH] + ps[0][ETHERNET_HEADER_LENGTH..] == ps[0];
        assert (IndicatedOf(ps[0]) + Indicated(ps[1..]))[1..] == Indicated(ps[1..]);
      } else {
        assert [] + Indicated(ps[1..]) == Indicated(ps[1..]);
      }
    }
  }

  function LongEnough(ps: seq<Packet>): seq<Packet> {
    if ps == [] then []
    else (if |ps[0]| >= ETHERNET_HEADER_LENGTH then [ps[0]] else []) + LongEnough(ps[1..])
  }

  /** From sender to upper layer: once all octets have arrived, in whatever chunks, exactly what
      was sent has been indicated; the packets come out whole exactly if each fits its size prefix. */
  lemma EndToEnd(sent: seq<Indication>, chunks: seq<seq<byte>>)
    requires Concat(chunks) == Stream(Linked(sent))
    ensures ReceiveAll(Reception([], []), chunks).passed == Linked(sent) <==> AllFit(Linked(sent))
    ensures AllFit(Linked(sent)) ==> Indicated(ReceiveAll(Reception([], []), chunks).passed) == sent
  {
    ChunksDoNotMatter(chunks);
    RoundTripExact(Linked(sent));
    SentIsIndicated(sent);
  }

  /** Write the layers of a packet, link layer first, behind a prefix of their total size. */
  method Request(layers: seq<seq<byte>>) returns (wire: seq<byte>)
    ensures wire == Frame(Concat(layers))
  {
    var size := 0;
    for i := 0 to |layers|
      invariant size == |Concat(layers[..i])|
    {
      ConcatAppend(layers[..i], layers[i]);
      assert layers[..i + 1] == layers[..i] + [layers[i]];
      size := size + |layers[i]|;
    }
    assert layers[..|layers|] == layers;
    var packetSize := Truncate16(size);
    wire := [packetSize / 256, packetSize % 256];
    for i := 0 to |layers|
      invariant wire == Prefix(packetSize) + Concat(layers[..i])
    {
      ConcatAppend(layers[..i], layers[i]);
      assert layers[..i + 1] == layers[..i] + [layers[i]];
      wire := wire + layers[i];
    }
  }

  lemma {:induction false} ConcatAppend(layers: seq<seq<byte>>, last: seq<byte>)
    ensures Concat(layers + [last]) == Concat(layers) + last
  {
    if layers == [] {
      assert [last][1..] == [];
    } else {
      assert (layers + [last])[1..] == layers[1..] + [last];
      ConcatAppend(layers[1..], last);
    }
  }

  datatype Status = Undefined | Connected | Accepting | Error

  class TcpSocket {
    var status: Status
    var rxBuffer: array<byte>
    var rxStore: seq<byte>
    const listening: bool               // whether an indication callback is set
    var indications: seq<Indication>    // the calls of that callback
    ghost var passed: seq<Packet>

    /** No complete packet is kept, and the callback has seen what was long enough for it. */
    ghost predicate Valid()
      reads this
    {
      !HasPacket(rxStore) && (listening ==> indications == Indicated(passed))
    }

    ghost function View(): Reception
      reads this
    {
      Reception(passed, rxStore)
    }

    constructor (listening: bool)
      ensures Valid() && View() == Reception([], []) && indications == []
      ensures fresh(rxBuffer) && rxBuffer.Length == 2560 && this.listening == listening
    {
      status := Undefined;
      rxBuffer := new byte[2560];
      rxStore, indications, passed, this.listening := [], [], [], listening;
    }

    /** Bytes have arrived in the receive buffer, or the connection has failed. */
    method ReceiveHandler(error: bool, length: nat)
      requires Valid() && length <= rxBuffer.Length
      modifies this`status, this`rxStore, this`indications, this`passed
      ensures Valid()
      ensures status == if error then Error else Connected
      ensures View() == if error then old(View()) else Receive(old(View()), rxBuffer[..length])
      ensures !listening ==> indications == old(indications)
    {
      if error {
        status := Error;
        return;
      }
      status := Connected;
      rxStore := rxStore + rxBuffer[..length];
      ghost var whole := Receive(old(View()), rxBuffer[..length]);
      while |rxStore| >= GetNextPacketSize() + 2
        invariant whole == Reception(passed + Packets(rxStore), Rest(rxStore))
        invariant listening ==> indications == Indicated(passed)
        invariant !listening ==> indications == old(indications)
        invariant status == Connected
        decreases |rxStore|
      {
        var packetLength := GetNextPacketSize() + 2;
        var packet := rxStore[2..packetLength];
        assert whole.passed == (passed + [packet]) + Packets(AfterNext(rxStore));
        PassUp(packet);
        rxStore := rxStore[packetLength..];
      }
      assert passed + [] == passed;
    }

    function GetNextPacketSize(): (n: uint16)
      reads this
      ensures n == NextSize(rxStore)
    {
      if |rxStore| >= 2 then
        var high: int := rxStore[0];
        high * 256 + rxStore[1]
      else 0
    }

    method PassUp(packet: Packet)
      modifies this`indications, this`passed
      ensures passed == old(passed) + [packet]
      ensures listening && old(indications) == Indicated(old(passed)) ==> indications == Indicated(passed)
      ensures !listening ==> indications == old(indications)
    {
      IndicatedAppend(passed, packet);
      passed := passed + [packet];
      if |packet| >= ETHERNET_HEADER_LENGTH && listening {
        var link := packet[..ETHERNET_HEADER_LENGTH];
        var high: int := link[12];
        var header := EthernetHeader(link[..6], link[6..12], high * 256 + link[13]);
        indications := indications + [Indication(header, packet[ETHERNET_HEADER_LENGTH..])];
      }
    }
  }
}
