/**
  Packets written field by field are read back: Ethernet with VLAN tags, IPv4 with
  options or IPv6 with extension headers, TCP with options or UDP, payload and
  padding. The header builders of tests/PacketBuilders.hpp are instances.
*/
module DecodeRoundTrip {
  import opened Bytes
  import opened Packet
  import opened Decode
  import opened Transparency

  type Mac = s: seq<byte> | |s| == 6 witness seq(6, _ => 0)

  // ----- writers

  type octal = n: int | 0 <= n < 8

  /** Options of an IPv4 or a TCP header: whole words, at most ten. */
  type Options = s: seq<byte> | |s| % 4 == 0 && |s| <= 40

  datatype V4Fields = V4Fields(tos: byte, id: port, flags: octal, ttl: byte, checksum: port)

  /** An unfragmented IPv4 header; `flags` holds the reserved, DF and MF bits. */
  function V4Bytes(total: port, protocol: byte, source: Quad, destination: Quad, options: Options, f: V4Fields)
    : (h: seq<byte>)
    ensures |h| == 20 + |options|
  {
    [69 + |options| / 4, f.tos, Hi(total), Lo(total), Hi(f.id), Lo(f.id), f.flags * 32, 0,
     f.ttl, protocol, Hi(f.checksum), Lo(f.checksum)] + source + destination + options
  }

  /** An IPv6 extension header that the decoder steps over. */
  datatype Ext6 = Ext6(kind: byte, length: byte, body: seq<byte>) {
    /** The extent section 4 of RFC 8200 and section 2.2 of RFC 4302 give the header. */
    predicate Valid() {
      (kind in {0, 43, 60, 135} && 2 + |body| == (length as int + 1) * 8)
      || (kind == 44 && 2 + |body| == 8)
      || (kind == 51 && 2 + |body| == (length as int + 2) * 4)
    }
  }

  type Ext6Header = e: Ext6 | e.Valid() witness Ext6(44, 0, [0, 0, 0, 0, 0, 0])

  function FirstKind(exts: seq<Ext6Header>, last: byte): byte {
    if exts == [] then last else exts[0].kind
  }

  /** Each header announces the next; the last one announces `last`. */
  function ChainBytes(exts: seq<Ext6Header>, last: byte): seq<byte> {
    if exts == [] then []
    else [FirstKind(exts[1..], last), exts[0].length] + exts[0].body + ChainBytes(exts[1..], last)
  }

  datatype V6Fields = V6Fields(class0: byte, class1: byte, flow: port, hops: byte)

  function V6Bytes(payload: port, protocol: byte, source: Sixteen, destination: Sixteen, exts: seq<Ext6Header>, f: V6Fields)
    : (h: seq<byte>)
    ensures |h| == 40 + |ChainBytes(exts, protocol)|
  {
    [96 + f.class0 % 16, f.class1, Hi(f.flow), Lo(f.flow), Hi(payload), Lo(payload), FirstKind(exts, protocol), f.hops]
    + source + destination + ChainBytes(exts, protocol)
  }

  datatype TcpFields = TcpFields(
    source: port, destination: port, sequence: uint32,
    fin: bool, syn: bool, rst: bool, psh: bool, ack: bool, high: octal,
    acknowledgement: Quad, reserved: byte, window: port, checksum: port, urgent: port)

  function Bit(b: bool): (r: byte)
    ensures r <= 1
  {
    if b then 1 else 0
  }

  function FlagByte(f: TcpFields): byte {
    Bit(f.fin) + 2 * Bit(f.syn) + 4 * Bit(f.rst) + 8 * Bit(f.psh) + 16 * Bit(f.ack) + 32 * f.high
  }

  function Long(n: uint32): (s: seq<byte>)
    ensures |s| == 4 && U32(s, 0) == n
  {
    [n / 256 / 256 / 256, n / 256 / 256 % 256, n / 256 % 256, n % 256]
  }

  function PortBytes(source: port, destination: port): (h: seq<byte>)
    ensures |h| == 4 && U16(h, 0) == source && U16(h, 2) == destination
  {
    [Hi(source), Lo(source), Hi(destination), Lo(destination)]
  }

  /** From the data offset on. */
  function ControlBytes(f: TcpFields, options: Options): (h: seq<byte>)
    ensures |h| == 8 && h[0] as int / 16 == 5 + |options| / 4 && h[1] == FlagByte(f)
  {
    [(5 + |options| / 4) * 16 + f.reserved % 16, FlagByte(f), Hi(f.window), Lo(f.window),
     Hi(f.checksum), Lo(f.checksum), Hi(f.urgent), Lo(f.urgent)]
  }

  /** A TCP header, section 3.1 of RFC 9293. */
  function TcpBytes(f: TcpFields, options: Options): (h: seq<byte>)
    ensures |h| == 20 + |options|
  {
    PortBytes(f.source, f.destination) + Long(f.sequence) + f.acknowledgement + ControlBytes(f, options) + options
  }

  function UdpBytes(source: port, destination: port, length: port, checksum: port): (h: seq<byte>)
    ensures |h| == 8
  {
    [Hi(source), Lo(source), Hi(destination), Lo(destination), Hi(length), Lo(length), Hi(checksum), Lo(checksum)]
  }

  datatype Tag = Tag(kind: port, control: port)
  type VlanTag = t: Tag | t.kind in {0x8100, 0x88A8, 0x9100} witness Tag(0x8100, 0)

  function FirstType(tags: seq<VlanTag>, etherType: port): port {
    if tags == [] then etherType else tags[0].kind
  }

  /** Each tag's control word is followed by the type of what comes next. */
  function TagBytes(tags: seq<VlanTag>, etherType: port): seq<byte> {
    if tags == [] then []
    else
      var next := FirstType(tags[1..], etherType);
      [Hi(tags[0].control), Lo(tags[0].control), Hi(next), Lo(next)] + TagBytes(tags[1..], etherType)
  }

  function EthernetBytes(destination: Mac, source: Mac, tags: seq<VlanTag>, etherType: port): (h: seq<byte>)
    ensures |h| == 14 + |TagBytes(tags, etherType)|
  {
    var first := FirstType(tags, etherType);
    destination + source + [Hi(first), Lo(first)] + TagBytes(tags, etherType)
  }

  // ----- readers, header by header

  lemma {:induction false} TagsAreRead(t: seq<byte>, pos: nat, tags: seq<VlanTag>, etherType: port)
    requires LiesAt(t, pos, TagBytes(tags, etherType)) && etherType !in {0x8100, 0x88A8, 0x9100}
    ensures pos + |TagBytes(tags, etherType)| <= |t|
    ensures SkipVlans(t, pos, |t|, FirstType(tags, etherType))
            == Some(Frame(pos + |TagBytes(tags, etherType)|, etherType))
    decreases |tags|
  {
    if tags != [] {
      var next := FirstType(tags[1..], etherType);
      var first := [Hi(tags[0].control), Lo(tags[0].control), Hi(next), Lo(next)];
      var rest := TagBytes(tags[1..], etherType);
      LiesAtSplit(t, pos, first, rest);
      MovedU16(first, t, pos, 2);
      TagsAreRead(t, pos + 4, tags[1..], etherType);
    }
  }

  lemma EthernetIsRead(t: seq<byte>, destination: Mac, source: Mac, tags: seq<VlanTag>, etherType: port)
    requires LiesAt(t, 0, EthernetBytes(destination, source, tags, etherType)) && etherType !in {0x8100, 0x88A8, 0x9100}
    ensures LinkFrame(t, Ethernet)
            == Some(Frame(|EthernetBytes(destination, source, tags, etherType)|, etherType))
  {
    hide SkipVlans;
    var first := FirstType(tags, etherType);
    LiesAtSplit(t, 0, destination + source + [Hi(first), Lo(first)], TagBytes(tags, etherType));
    LiesAtSplit(t, 0, destination + source, [Hi(first), Lo(first)]);
    MovedU16([Hi(first), Lo(first)], t, 12, 0);
    TagsAreRead(t, 14, tags, etherType);
  }

  lemma {:induction false} ChainIsRead(h: seq<byte>, pos: nat, exts: seq<Ext6Header>, last: byte)
    requires LiesAt(h, pos, ChainBytes(exts, last)) && pos + |ChainBytes(exts, last)| == |h|
    requires last !in {0, 43, 44, 51, 60, 135}
    ensures V6Upper(h, pos, |h|, FirstKind(exts, last)) == Extension(last, |h|)
    decreases |exts|
  {
    if exts != [] {
      var first := [FirstKind(exts[1..], last), exts[0].length] + exts[0].body;
      LiesAtSplit(h, pos, first, ChainBytes(exts[1..], last));
      MovedU16(first, h, pos, 0);
      assert h[pos + 1] == first[1];
      var next := pos + |first|;
      assert V6Extension(h, pos, |h|, exts[0].kind) == Some(Extension(FirstKind(exts[1..], last), next));
      ChainIsRead(h, next, exts[1..], last);
    }
  }

  lemma V4IsCarrier(total: port, protocol: byte, source: Quad, destination: Quad, options: Options, f: V4Fields)
    ensures var h := V4Bytes(total, protocol, source, destination, options, f);
            && V4Carrier(h, protocol, total)
            && Ipv4Text(h, 12) == [4] + source && Ipv4Text(h, 16) == [4] + destination
  {
    var h := V4Bytes(total, protocol, source, destination, options, f);
    var fixed := [69 + |options| / 4, f.tos, Hi(total), Lo(total), Hi(f.id), Lo(f.id), f.flags * 32, 0,
                  f.ttl, protocol, Hi(f.checksum), Lo(f.checksum)];
    assert h[..12] == fixed;
    assert h[0] == fixed[0] && h[2] == fixed[2] && h[3] == fixed[3] && h[6] == fixed[6] && h[7] == fixed[7]
        && h[9] == fixed[9];
    assert h[12..16] == source;
    assert h[16..20] == destination;
  }

  lemma V6IsCarrier(payload: port, protocol: byte, source: Sixteen, destination: Sixteen, exts: seq<Ext6Header>, f: V6Fields)
    requires protocol !in {0, 43, 44, 51, 60, 135}
    ensures var h := V6Bytes(payload, protocol, source, destination, exts, f);
            && V6Carrier(h, protocol, 40 + payload)
            && Ipv6Text(h, 8) == [6] + source && Ipv6Text(h, 24) == [6] + destination
  {
    hide V6Upper, ChainBytes;
    var h := V6Bytes(payload, protocol, source, destination, exts, f);
    var fixed := [96 + f.class0 % 16, f.class1, Hi(f.flow), Lo(f.flow), Hi(payload), Lo(payload),
                  FirstKind(exts, protocol), f.hops];
    var chain := ChainBytes(exts, protocol);
    assert h[..8] == fixed;
    assert h[0] == fixed[0] && h[4] == fixed[4] && h[5] == fixed[5] && h[6] == fixed[6];
    assert h[8..24] == source;
    assert h[24..40] == destination;
    LiesAtSplit(h, 0, fixed + source + destination, chain);
    ChainIsRead(h, 40, exts, protocol);
  }

  lemma FlagsAreRead(f: TcpFields)
    ensures var b: nat := FlagByte(f);
            && (b % 2 != 0) == f.fin && (b / 2 % 2 != 0) == f.syn
            && (b / 4 % 2 != 0) == f.rst && (b / 16 % 2 != 0) == f.ack
  {
    hide Bit, FlagByte;
    FlagSum(f);
    LowFlags(FlagByte(f), f, Bit(f.rst) as int + 2 * Bit(f.psh) as int + 4 * Bit(f.ack) as int + 8 * f.high);
    HighFlags(FlagByte(f), f, Bit(f.fin) as int + 2 * Bit(f.syn) as int);
  }

  lemma LowFlags(b: nat, f: TcpFields, above: nat)
    requires b == Bit(f.fin) as int + 2 * Bit(f.syn) as int + 4 * above
    ensures (b % 2 != 0) == f.fin && (b / 2 % 2 != 0) == f.syn
  {
    hide Bit;
    FlagIsRead(b, 1, 0, f.fin, Bit(f.syn) as int + 2 * above);
    FlagIsRead(b, 2, Bit(f.fin), f.syn, above);
  }

  lemma HighFlags(b: nat, f: TcpFields, below: nat)
    requires below < 4
    requires b == below + 4 * Bit(f.rst) as int + 8 * Bit(f.psh) as int + 16 * Bit(f.ack) as int + 32 * f.high
    ensures (b / 4 % 2 != 0) == f.rst && (b / 16 % 2 != 0) == f.ack
  {
    hide Bit;
    FlagIsRead(b, 4, below, f.rst, Bit(f.psh) as int + 2 * Bit(f.ack) as int + 4 * f.high);
    FlagIsRead(b, 16, below + 4 * Bit(f.rst) as int + 8 * Bit(f.psh) as int, f.ack, f.high);
  }

  lemma FlagSum(f: TcpFields)
    ensures FlagByte(f) as int
            == Bit(f.fin) as int + 2 * Bit(f.syn) as int + 4 * Bit(f.rst) as int + 8 * Bit(f.psh) as int
               + 16 * Bit(f.ack) as int + 32 * f.high
  {
    hide Bit;
  }

  lemma FlagIsRead(b: nat, weight: nat, below: nat, flag: bool, above: nat)
    requires weight in {1, 2, 4, 16} && below < weight
    requires b == below + weight * (Bit(flag) as int + 2 * above)
    ensures (b / weight % 2 != 0) == flag
  {
    assert b / weight == Bit(flag) as int + 2 * above;
  }

  lemma TcpHeaderIsRead(f: TcpFields, options: Options)
    ensures var h := TcpBytes(f, options);
            && U16(h, 0) == f.source && U16(h, 2) == f.destination && U32(h, 4) == f.sequence
            && h[12] as int / 16 * 4 == |h| && h[13] == FlagByte(f)
  {
    hide FlagByte, PortBytes, ControlBytes, Long, U16, U32, LiesAt;
    var h := TcpBytes(f, options);
    var ports, sequence, control := PortBytes(f.source, f.destination), Long(f.sequence), ControlBytes(f, options);
    PiecesLie(h, ports, sequence, f.acknowledgement, control, options);
    MovedU16(ports, h, 0, 0);
    MovedU16(ports, h, 0, 2);
    MovedU32(sequence, h, 4, 0);
    MovedU16(control, h, 12, 0);
    MovedU16(control, h, 12, 1);
  }

  lemma PiecesLie(h: seq<byte>, a: seq<byte>, b: seq<byte>, c: seq<byte>, e: seq<byte>, rest: seq<byte>)
    requires h == a + b + c + e + rest
    ensures LiesAt(h, 0, a) && LiesAt(h, |a|, b) && LiesAt(h, |a| + |b| + |c|, e)
  {
    LiesAtSplit(h, 0, a + b + c + e, rest);
    LiesAtSplit(h, 0, a + b + c, e);
    LiesAtSplit(h, 0, a + b, c);
    LiesAtSplit(h, 0, a, b);
  }

  /** What a TCP segment adds to the record. */
  function TcpRead(p: Packet, f: TcpFields, at: nat, payload: seq<byte>): Packet {
    var q := p.(protocol := Tcp, srcPort := f.source, dstPort := f.destination, tcpSeq := f.sequence,
                tcpFin := f.fin, tcpSyn := f.syn, tcpRst := f.rst, tcpAck := f.ack);
    if payload == [] then q else q.(payloadOffset := at, payloadLength := |payload|)
  }

  lemma TcpIsRead(t: seq<byte>, at: nat, f: TcpFields, options: Options, payload: seq<byte>, p: Packet)
    requires LiesAt(t, at, TcpBytes(f, options) + payload)
    ensures at + 20 + |options| + |payload| <= |t|
    ensures DecodeTcp(t, at, at + 20 + |options| + |payload|, p) == TcpRead(p, f, at + 20 + |options|, payload)
  {
    hide TcpBytes, U16, U32, FlagByte;
    var h := TcpBytes(f, options);
    LiesAtSplit(t, at, h, payload);
    TcpHeaderIsRead(f, options);
    FlagsAreRead(f);
    MovedU16(h, t, at, 0);
    MovedU16(h, t, at, 2);
    MovedU32(h, t, at, 4);
    MovedU16(h, t, at, 12);
    MovedU16(h, t, at, 13);
  }

  /** The ports that announce a tunnel. */
  predicate TunnelPort(n: port) {
    n == 4789 || n == 6081
  }

  function UdpRead(p: Packet, source: port, destination: port, at: nat, payload: seq<byte>): Packet {
    var q := p.(protocol := Udp, srcPort := source, dstPort := destination);
    if payload == [] then q else q.(payloadOffset := at, payloadLength := |payload|)
  }

  lemma UdpIsRead(
      t: seq<byte>, at: nat, end: nat, source: port, destination: port, checksum: port, payload: seq<byte>, p: Packet, depth: nat)
    requires |payload| < 0x1_0000 - 8 && depth <= MAX_TUNNEL_DEPTH
    requires LiesAt(t, at, UdpBytes(source, destination, 8 + |payload|, checksum) + payload)
    requires at + 8 + |payload| <= end <= |t|
    requires payload != [] ==> !TunnelPort(source) && !TunnelPort(destination)
    ensures DecodeUdp(t, at, end, p, depth) == UdpRead(p, source, destination, at + 8, payload)
  {
    var h := UdpBytes(source, destination, 8 + |payload|, checksum);
    LiesAtSplit(t, at, h, payload);
    MovedU16(h, t, at, 0);
    MovedU16(h, t, at, 2);
    MovedU16(h, t, at, 4);
  }

  // ----- whole packets

  /** A network layer header: which protocol it announces and how long a payload. */
  datatype Ip =
    | Ip4(source4: Quad, destination4: Quad, options: Options, fields4: V4Fields)
    | Ip6(source6: Sixteen, destination6: Sixteen, exts: seq<Ext6Header>, fields6: V6Fields)
  {
    function Type(): port { if Ip4? then 0x0800 else 0x86DD }

    function Source(): Text { if Ip4? then [4] + source4 else [6] + source6 }

    function Destination(): Text { if Ip4? then [4] + destination4 else [6] + destination6 }

    function Size(protocol: byte): nat {
      if Ip4? then 20 + |options| else 40 + |ChainBytes(exts, protocol)|
    }

    /** The length fields are 16 bits wide. */
    predicate Fits(protocol: byte, n: nat) {
      if Ip4? then Size(protocol) + n < 0x1_0000 else Size(protocol) - 40 + n < 0x1_0000
    }

    function Bytes(protocol: byte, n: nat): (h: seq<byte>)
      requires Fits(protocol, n)
      ensures |h| == Size(protocol)
    {
      if Ip4? then V4Bytes(Size(protocol) + n, protocol, source4, destination4, options, fields4)
      else V6Bytes(Size(protocol) - 40 + n, protocol, source6, destination6, exts, fields6)
    }
  }

  lemma IpIsRead(t: seq<byte>, at: nat, end: nat, ip: Ip, protocol: byte, n: nat)
    requires ip.Fits(protocol, n) && LiesAt(t, at, ip.Bytes(protocol, n))
    requires at + ip.Size(protocol) + n <= end <= |t|
    requires ip.Ip6? ==> protocol !in {0, 43, 44, 51, 60, 135}
    ensures IpHeaderAt(t, at, end, ip.Type())
            == Some(IpHeader(ip.Source(), ip.Destination(), protocol, at + ip.Size(protocol), at + ip.Size(protocol) + n, false))
  {
    hide V4Header, V6Header, V4Bytes, V6Bytes, V4Carrier, V6Carrier, Ipv4Text, Ipv6Text, ChainBytes;
    var h := ip.Bytes(protocol, n);
    var total := ip.Size(protocol) + n;
    match ip
    case Ip4(source, destination, options, fields) =>
      V4IsCarrier(total, protocol, source, destination, options, fields);
      V4CarrierIsRead(t, at, end, h, protocol, total);
    case Ip6(source, destination, exts, fields) =>
      V6IsCarrier(total - 40, protocol, source, destination, exts, fields);
      V6CarrierIsRead(t, at, end, h, protocol, total);
  }

  /** An Ethernet frame around an IP packet, padded as the link may. */
  function FrameBytes(destination: Mac, source: Mac, tags: seq<VlanTag>, ip: Ip, protocol: byte, segment: seq<byte>, padding: seq<byte>)
    : seq<byte>
    requires ip.Fits(protocol, |segment|)
  {
    EthernetBytes(destination, source, tags, ip.Type()) + ip.Bytes(protocol, |segment|) + segment + padding
  }

  lemma FrameIsRead(
      destination: Mac, source: Mac, tags: seq<VlanTag>, ip: Ip, protocol: byte, segment: seq<byte>, padding: seq<byte>,
      timestamp: int, length: uint32)
    requires ip.Fits(protocol, |segment|) && (ip.Ip6? ==> protocol !in {0, 43, 44, 51, 60, 135})
    ensures var s := FrameBytes(destination, source, tags, ip, protocol, segment, padding);
            var at := |EthernetBytes(destination, source, tags, ip.Type())| + ip.Size(protocol);
            && LiesAt(s, at, segment) && at + |segment| <= |s|
            && Parse(s, Ethernet, timestamp, length)
               == DecodeTransport(s, at, at + |segment|, protocol,
                                  Start(timestamp, length).(srcIP := ip.Source(), dstIP := ip.Destination()), 0)
  {
    hide EthernetBytes, LinkFrame, IpHeaderAt, DecodeTransport, Ip.Bytes, Ip.Size, Ip.Fits, Ip.Source, Ip.Destination;
    var s := FrameBytes(destination, source, tags, ip, protocol, segment, padding);
    var eth := EthernetBytes(destination, source, tags, ip.Type());
    var h := ip.Bytes(protocol, |segment|);
    LiesAtSplit(s, 0, eth + h + segment, padding);
    LiesAtSplit(s, 0, eth + h, segment);
    LiesAtSplit(s, 0, eth, h);
    EthernetIsRead(s, destination, source, tags, ip.Type());
    IpIsRead(s, |eth|, |s|, ip, protocol, |segment|);
    var start := Start(timestamp, length);
    var header := IpHeaderAt(s, |eth|, |s|, ip.Type()).value;
    assert DecodeNetwork(s, |eth|, |s|, ip.Type(), start, 0) == DecodeIp(s, header, start, 0);
  }

  /** Every field written is the field read: a TCP segment in a frame. */
  lemma TcpFrameIsRead(
      destination: Mac, source: Mac, tags: seq<VlanTag>, ip: Ip, f: TcpFields, options: Options, payload: seq<byte>,
      padding: seq<byte>, timestamp: int, length: uint32)
    requires ip.Fits(6, 20 + |options| + |payload|)
    ensures var s := FrameBytes(destination, source, tags, ip, 6, TcpBytes(f, options) + payload, padding);
            var r := Parse(s, Ethernet, timestamp, length);
            && r == Start(timestamp, length).(protocol := Tcp, srcIP := ip.Source(), dstIP := ip.Destination(),
                 srcPort := f.source, dstPort := f.destination, tcpSeq := f.sequence,
                 tcpFin := f.fin, tcpSyn := f.syn, tcpRst := f.rst, tcpAck := f.ack,
                 payloadOffset := r.payloadOffset, payloadLength := |payload|)
            && Payload(s, r) == payload
  {
    hide FrameBytes, TcpBytes, DecodeTcp, Parse, Ip.Size, Ip.Bytes, Ip.Fits, EthernetBytes, Ip.Source, Ip.Destination;
    var h := TcpBytes(f, options);
    var segment := h + payload;
    FrameIsRead(destination, source, tags, ip, 6, segment, padding, timestamp, length);
    var s := FrameBytes(destination, source, tags, ip, 6, segment, padding);
    var at := |EthernetBytes(destination, source, tags, ip.Type())| + ip.Size(6);
    TcpIsRead(s, at, f, options, payload, Start(timestamp, length).(srcIP := ip.Source(), dstIP := ip.Destination()));
    LiesAtSplit(s, at, h, payload);
    LiesAtSlice(s, at + |h|, payload);
  }

  /** A UDP datagram in a frame, on ports that announce no tunnel. */
  lemma UdpFrameIsRead(
      destination: Mac, source: Mac, tags: seq<VlanTag>, ip: Ip, from: port, dest: port, checksum: port, payload: seq<byte>,
      padding: seq<byte>, timestamp: int, length: uint32)
    requires |payload| < 0x1_0000 - 8 && ip.Fits(17, 8 + |payload|)
    requires payload != [] ==> !TunnelPort(from) && !TunnelPort(dest)
    ensures var s := FrameBytes(destination, source, tags, ip, 17,
                                UdpBytes(from, dest, 8 + |payload|, checksum) + payload, padding);
            var r := Parse(s, Ethernet, timestamp, length);
            && r == Start(timestamp, length).(protocol := Udp, srcIP := ip.Source(), dstIP := ip.Destination(),
                 srcPort := from, dstPort := dest, payloadOffset := r.payloadOffset, payloadLength := |payload|)
            && Payload(s, r) == payload
  {
    hide FrameBytes, UdpBytes, DecodeUdp, Parse, Ip.Size, Ip.Bytes, Ip.Fits, EthernetBytes, Ip.Source, Ip.Destination;
    var h := UdpBytes(from, dest, 8 + |payload|, checksum);
    var segment := h + payload;
    FrameIsRead(destination, source, tags, ip, 17, segment, padding, timestamp, length);
    var s := FrameBytes(destination, source, tags, ip, 17, segment, padding);
    var at := |EthernetBytes(destination, source, tags, ip.Type())| + ip.Size(17);
    UdpIsRead(s, at, at + |segment|, from, dest, checksum, payload,
              Start(timestamp, length).(srcIP := ip.Source(), dstIP := ip.Destination()), 0);
    LiesAtSplit(s, at, h, payload);
    LiesAtSlice(s, at + 8, payload);
  }

  // ----- other link layers, and ARP

  /** The address families of IPv4 everywhere, and of IPv6 on Linux, Windows and the BSDs. */
  type family = n: byte | n in {2, 10, 23, 24, 28, 30} witness 2

  function Little(n: byte): seq<byte> { [n, 0, 0, 0] }

  function Big(n: byte): seq<byte> { [0, 0, 0, n] }

  function FamilyType(af: family): nat {
    if af == 2 then ETH_IPV4 else ETH_IPV6
  }

  /** A loopback header is read in either byte order; an OpenBSD one in network order. */
  lemma LoopbackIsRead(t: seq<byte>, af: family)
    ensures LiesAt(t, 0, Little(af)) || LiesAt(t, 0, Big(af)) ==>
              LinkFrame(t, NullLoopback) == Some(Frame(4, FamilyType(af)))
    ensures LiesAt(t, 0, Big(af)) ==> LinkFrame(t, Loop) == Some(Frame(4, FamilyType(af)))
  {
    if LiesAt(t, 0, Little(af)) {
      var w := Little(af);
      assert t[0] == w[0] && t[1] == w[1] && t[2] == w[2] && t[3] == w[3];
      assert U32([t[3], t[2], t[1], t[0]], 0) == af;
    }
    if LiesAt(t, 0, Big(af)) {
      var w := Big(af);
      assert t[0] == w[0] && t[1] == w[1] && t[2] == w[2] && t[3] == w[3];
      assert U32(t, 0) == af;
      assert U32([t[3], t[2], t[1], t[0]], 0) == 0x100_0000 * af;
    }
  }

  /** The two cooked headers keep their EtherType at the end and at the front. */
  lemma CookedIsRead(t: seq<byte>, fields: seq<byte>, etherType: port)
    ensures |fields| == 14 && LiesAt(t, 0, fields + [Hi(etherType), Lo(etherType)]) ==>
              LinkFrame(t, LinuxSLL) == Some(Frame(16, etherType))
    ensures |fields| == 18 && LiesAt(t, 0, [Hi(etherType), Lo(etherType)] + fields) ==>
              LinkFrame(t, LinuxSLL2) == Some(Frame(20, etherType))
  {
    var w := [Hi(etherType), Lo(etherType)];
    LiesAtSplit(t, 0, fields, w);
    LiesAtSplit(t, 0, w, fields);
    if LiesAt(t, |fields|, w) { MovedU16(w, t, |fields|, 0); }
    if LiesAt(t, 0, w) { MovedU16(w, t, 0, 0); }
  }

  type Hardware = s: seq<byte> | |s| < 256

  /** An ARP message for IPv4, with hardware addresses of any one length. */
  function ArpBytes(hardware: port, operation: port, sha: Hardware, spa: Quad, tha: Hardware, tpa: Quad): seq<byte> {
    [Hi(hardware), Lo(hardware), 0x08, 0x00, |sha|, 4, Hi(operation), Lo(operation)] + sha + spa + tha + tpa
  }

  /** Sender and target protocol addresses are what ARP reports. */
  lemma ArpIsRead(
      t: seq<byte>, at: nat, end: nat, hardware: port, operation: port, sha: Hardware, spa: Quad, tha: Hardware, tpa: Quad,
      p: Packet)
    requires |sha| == |tha| && LiesAt(t, at, ArpBytes(hardware, operation, sha, spa, tha, tpa))
    requires at + |ArpBytes(hardware, operation, sha, spa, tha, tpa)| <= end <= |t|
    ensures DecodeArp(t, at, end, p) == p.(protocol := Arp, srcIP := [4] + spa, dstIP := [4] + tpa)
  {
    var fixed := [Hi(hardware), Lo(hardware), 0x08, 0x00, |sha|, 4, Hi(operation), Lo(operation)];
    var n := |sha|;
    LiesAtSplit(t, at, fixed + sha + spa + tha, tpa);
    LiesAtSplit(t, at, fixed + sha + spa, tha);
    LiesAtSplit(t, at, fixed + sha, spa);
    LiesAtSplit(t, at, fixed, sha);
    MovedU16(fixed, t, at, 2);
    MovedU16(fixed, t, at, 4);
    LiesAtSlice(t, at + 8 + n, spa);
    LiesAtSlice(t, at + 12 + 2 * n, tpa);
  }
}
