/**
  The header builders of tests/PacketBuilders.hpp, and a packet assembled with
  them: what is built is what the decoder reads.
*/
module PacketBuilders {
  import opened Bytes
  import opened Packet
  import opened Decode
  import opened Hops
  import opened UdpTunnels
  import opened Transparency
  import opened DecodeRoundTrip

  method AppendU32BE(bytes: seq<byte>, value: uint32) returns (out: seq<byte>)
    ensures out == bytes + Long(value)
  {
    out := bytes + [value / 256 / 256 / 256];
    out := out + [value / 256 / 256 % 256];
    out := out + [value / 256 % 256];
    out := out + [value % 256];
  }

  const TEST_DESTINATION: Mac := [0x00, 0x11, 0x22, 0x33, 0x44, 0x55]
  const TEST_SOURCE: Mac := [0x66, 0x77, 0x88, 0x99, 0xAA, 0xBB]
  const TEST_V4: V4Fields := V4Fields(0, 1, 2, 64, 0)
  const TEST_V6: V6Fields := V6Fields(0, 0, 0, 64)

  method AppendEthernetHeader(bytes: seq<byte>, etherType: port) returns (out: seq<byte>)
    ensures out == bytes + EthernetBytes(TEST_DESTINATION, TEST_SOURCE, [], etherType)
  {
    out := bytes + [0x00, 0x11, 0x22, 0x33, 0x44, 0x55];
    out := out + [0x66, 0x77, 0x88, 0x99, 0xAA, 0xBB];
    out := AppendU16(out, etherType);
  }

  method AppendIPv4Header(bytes: seq<byte>, totalLength: port, protocol: byte, source: Quad, destination: Quad)
    returns (out: seq<byte>)
    ensures out == bytes + V4Bytes(totalLength, protocol, source, destination, [], TEST_V4)
  {
    out := bytes + [0x45, 0x00];
    out := AppendU16(out, totalLength);
    out := out + [0x00, 0x01, 0x40, 0x00, 64, protocol, 0x00, 0x00];
    out := out + source;
    out := out + destination;
  }

  method AppendIPv6Header(bytes: seq<byte>, payloadLength: port, nextHeader: byte, source: Sixteen, destination: Sixteen)
    returns (out: seq<byte>)
    ensures out == bytes + V6Bytes(payloadLength, nextHeader, source, destination, [], TEST_V6)
  {
    out := bytes + [0x60, 0x00, 0x00, 0x00];
    out := AppendU16(out, payloadLength);
    out := out + [nextHeader];
    out := out + [64];
    out := out + source;
    out := out + destination;
  }

  /** Whether the bit of this weight is set. */
  predicate Flag(flags: byte, weight: nat)
    requires weight > 0
  {
    flags / weight % 2 != 0
  }

  /** The segment that appendTcpHeader opens, for any byte of flags. */
  function Segment(sourcePort: port, destinationPort: port, sequence: uint32, flags: byte): TcpFields {
    TcpFields(sourcePort, destinationPort, sequence,
              Flag(flags, 1), Flag(flags, 2), Flag(flags, 4), Flag(flags, 8), Flag(flags, 16), flags / 32,
              [0, 0, 0, 0], 0, 0xFFFF, 0, 0)
  }

  /** Every byte is the flag byte of its own bits. */
  lemma SegmentFlags(sourcePort: port, destinationPort: port, sequence: uint32, flags: byte)
    ensures FlagByte(Segment(sourcePort, destinationPort, sequence, flags)) == flags
  {
    hide FlagByte, Flag;
    var f := Segment(sourcePort, destinationPort, sequence, flags);
    FlagSum(f);
    LowBit(flags, 1);
    LowBit(flags, 2);
    LowBit(flags, 4);
    LowBit(flags, 8);
    LowBit(flags, 16);
  }

  lemma LowBit(flags: byte, weight: nat)
    requires weight in {1, 2, 4, 8, 16}
    ensures flags as int / weight == Bit(Flag(flags, weight)) as int + 2 * (flags as int / (2 * weight))
  {
  }

  method AppendTcpHeader(bytes: seq<byte>, sourcePort: port, destinationPort: port, sequence: uint32, flags: byte)
    returns (out: seq<byte>)
    ensures out == bytes + TcpBytes(Segment(sourcePort, destinationPort, sequence, flags), [])
  {
    hide FlagByte, Long, Flag;
    SegmentFlags(sourcePort, destinationPort, sequence, flags);
    out := AppendU16(bytes, sourcePort);
    out := AppendU16(out, destinationPort);
    out := AppendU32BE(out, sequence);
    assert Long(0) == [0, 0, 0, 0] by { ZeroWord(); }
    out := AppendU32BE(out, 0);
    out := out + [0x50];
    out := out + [flags];
    out := AppendU16(out, 0xFFFF);
    out := AppendU16(out, 0x0000);
    out := AppendU16(out, 0x0000);
  }

  lemma ZeroWord()
    ensures Long(0) == [0, 0, 0, 0]
  {
  }

  method AppendUdpHeader(bytes: seq<byte>, sourcePort: port, destinationPort: port, payloadLength: port)
    returns (out: seq<byte>)
    ensures out == bytes + UdpBytes(sourcePort, destinationPort, (8 + payloadLength) % 0x1_0000, 0)
  {
    out := AppendU16(bytes, sourcePort);
    out := AppendU16(out, destinationPort);
    out := AppendU16(out, (8 + payloadLength) % 0x1_0000);
    out := AppendU16(out, 0x0000);
  }

  /**
    A TCP packet as the tests assemble it, and what the decoder makes of it: the
    payload comes back exactly when the IPv4 length field can hold its length.
  */
  method MakeTcpPacket(source: Quad, destination: Quad, sourcePort: port, destinationPort: port, sequence: uint32,
                       flags: byte, payload: seq<byte>, ghost timestamp: int, ghost length: uint32)
    returns (packet: seq<byte>)
    ensures var r := Parse(packet, Ethernet, timestamp, length);
            && (40 + |payload| < 0x1_0000 ==>
                  r == Start(timestamp, length).(protocol := Tcp, srcIP := [4] + source, dstIP := [4] + destination,
                         srcPort := sourcePort, dstPort := destinationPort, tcpSeq := sequence,
                         tcpFin := Flag(flags, 1), tcpSyn := Flag(flags, 2),
                         tcpRst := Flag(flags, 4), tcpAck := Flag(flags, 16),
                         payloadOffset := r.payloadOffset, payloadLength := |payload|))
            && (Payload(packet, r) == payload <==> 40 + |payload| < 0x1_0000)
  {
    hide EthernetBytes, V4Bytes, TcpBytes, Parse, FrameBytes, Flag;
    ghost var f := Segment(sourcePort, destinationPort, sequence, flags);
    packet := [];
    packet := AppendEthernetHeader(packet, 0x0800);
    assert packet == EthernetBytes(TEST_DESTINATION, TEST_SOURCE, [], 0x0800);
    packet := AppendIPv4Header(packet, (20 + 20 + |payload|) % 0x1_0000, 6, source, destination);
    packet := AppendTcpHeader(packet, sourcePort, destinationPort, sequence, flags);
    packet := packet + payload;
    if 40 + |payload| < 0x1_0000 {
      AssembledIsRead(packet, Ip4(source, destination, [], TEST_V4), f, payload, timestamp, length);
    } else {
      TooLongForIPv4(packet, source, destination, (40 + |payload|) % 0x1_0000, TcpBytes(f, []) + payload, timestamp, length);
    }
  }

  lemma AssembledIsRead(packet: seq<byte>, ip: Ip, f: TcpFields, payload: seq<byte>, timestamp: int, length: uint32)
    requires ip.Ip4? && ip.options == [] && 40 + |payload| < 0x1_0000
    requires packet == EthernetBytes(TEST_DESTINATION, TEST_SOURCE, [], 0x0800)
                       + V4Bytes(40 + |payload|, 6, ip.source4, ip.destination4, [], ip.fields4) + TcpBytes(f, []) + payload
    ensures var r := Parse(packet, Ethernet, timestamp, length);
            && r == Start(timestamp, length).(protocol := Tcp, srcIP := [4] + ip.source4, dstIP := [4] + ip.destination4,
                 srcPort := f.source, dstPort := f.destination, tcpSeq := f.sequence,
                 tcpFin := f.fin, tcpSyn := f.syn, tcpRst := f.rst, tcpAck := f.ack,
                 payloadOffset := r.payloadOffset, payloadLength := |payload|)
            && Payload(packet, r) == payload
  {
    hide EthernetBytes, V4Bytes, TcpBytes, Parse, FrameBytes;
    Assembled(ip, TcpBytes(f, []), payload);
    TcpFrameIsRead(TEST_DESTINATION, TEST_SOURCE, [], ip, f, [], payload, [], timestamp, length);
  }

  /** No IPv4 packet with a TCP segment yields more payload than its length field can say. */
  lemma TooLongForIPv4(packet: seq<byte>, source: Quad, destination: Quad, total: port, segment: seq<byte>,
                       timestamp: int, length: uint32)
    requires packet == EthernetBytes(TEST_DESTINATION, TEST_SOURCE, [], 0x0800)
                       + V4Bytes(total, 6, source, destination, [], TEST_V4) + segment
    ensures Parse(packet, Ethernet, timestamp, length).payloadLength < 0x1_0000 - 40
  {
    hide EthernetBytes, V4Bytes, DecodeTcp, LinkFrame;
    var eth := EthernetBytes(TEST_DESTINATION, TEST_SOURCE, [], 0x0800);
    var h := V4Bytes(total, 6, source, destination, [], TEST_V4);
    LiesAtSplit(packet, 0, eth + h, segment);
    LiesAtSplit(packet, 0, eth, h);
    EthernetIsRead(packet, TEST_DESTINATION, TEST_SOURCE, [], 0x0800);
    V4IsCarrier(total, 6, source, destination, [], TEST_V4);
    MovedU16(h, packet, |eth|, 9);
    SegmentIsShort(packet, |eth|, Start(timestamp, length));
  }

  lemma SegmentIsShort(s: seq<byte>, at: nat, p: Packet)
    requires at + 20 <= |s| && s[at + 9] == 6 && p.payloadLength == 0
    ensures DecodeNetwork(s, at, |s|, ETH_IPV4, p, 0).payloadLength < 0x1_0000 - 40
  {
    hide U16, DecodeTcp, Ipv4Text, V4Header;
    V4HeaderIsShort(s, at);
    var h := V4Header(s, at, |s|);
    if h.Some? {
      assert DecodeNetwork(s, at, |s|, ETH_IPV4, p, 0) == DecodeIp(s, h.value, p, 0);
      TcpPayloadIsShort(s, h.value.start, h.value.stop, p.(srcIP := h.value.src, dstIP := h.value.dst));
    }
  }

  lemma V4HeaderIsShort(s: seq<byte>, at: nat)
    requires at + 20 <= |s|
    ensures var h := V4Header(s, at, |s|);
            h.Some? ==> h.value.protocol == s[at + 9] && h.value.stop - h.value.start < 0x1_0000 - 20
  {
    hide U16, Ipv4Text;
  }

  lemma TcpPayloadIsShort(s: seq<byte>, start: nat, stop: nat, p: Packet)
    requires start <= stop <= |s| && p.payloadLength == 0
    ensures DecodeTcp(s, start, stop, p).payloadLength <= if stop - start < 20 then 0 else stop - start - 20
  {
    hide U16, U32;
  }

  lemma Assembled(ip: Ip, h: seq<byte>, payload: seq<byte>)
    requires ip.Ip4? && ip.options == [] && |h| == 20 && 40 + |payload| < 0x1_0000
    ensures FrameBytes(TEST_DESTINATION, TEST_SOURCE, [], ip, 6, h + payload, [])
            == EthernetBytes(TEST_DESTINATION, TEST_SOURCE, [], 0x0800)
               + V4Bytes(40 + |payload|, 6, ip.source4, ip.destination4, [], ip.fields4) + h + payload
  {
    hide EthernetBytes, V4Bytes;
  }

  /** An empty UDP datagram in IPv4, decoded with nothing around it. */
  lemma DatagramAlone(ip: Ip, sourcePort: port, destinationPort: port, inner: seq<byte>, timestamp: int, length: uint32)
    requires ip.Ip4? && ip.options == []
    requires inner == ip.Bytes(17, 8) + UdpBytes(sourcePort, destinationPort, 8, 0)
    ensures IpHeaderAt(inner, 0, |inner|, ETH_IPV4).Some?
    ensures Parse(inner, LinkIPv4, timestamp, length)
            == Start(timestamp, length).(protocol := Udp, srcIP := [4] + ip.source4, dstIP := [4] + ip.destination4,
                                         srcPort := sourcePort, dstPort := destinationPort)
  {
    hide UdpBytes, IpHeaderAt, DecodeUdp, Ip.Bytes;
    var udp := UdpBytes(sourcePort, destinationPort, 8, 0);
    LiesAtSplit(inner, 0, ip.Bytes(17, 8), udp);
    IpIsRead(inner, 0, |inner|, ip, 17, 8);
    var h := IpHeaderAt(inner, 0, |inner|, ETH_IPV4).value;
    var start := Start(timestamp, length);
    var q := start.(srcIP := h.src, dstIP := h.dst);
    assert udp + [] == udp;
    UdpIsRead(inner, 20, |inner|, sourcePort, destinationPort, 0, [], q, 0);
    assert DecodeNetwork(inner, 0, |inner|, ETH_IPV4, start, 0) == DecodeIp(inner, h, start, 0);
    assert DecodeIp(inner, h, start, 0) == DecodeTransport(inner, 20, |inner|, 17, q, 0);
  }

  /** The tunnelled packet of the tests: GRE without optional fields between two IPv4 headers. */
  method MakeGrePacket(outerSource: Quad, outerDestination: Quad, source: Quad, destination: Quad,
                       sourcePort: port, destinationPort: port, ghost timestamp: int)
    returns (packet: seq<byte>)
    ensures |packet| == 66
    ensures Parse(packet, Ethernet, timestamp, 66)
            == Start(timestamp, 66).(protocol := Udp, srcIP := [4] + source, dstIP := [4] + destination,
                 srcPort := sourcePort, dstPort := destinationPort, tunnel := [GreTunnel],
                 outerSrcIP := [4] + outerSource, outerDstIP := [4] + outerDestination)
  {
    hide EthernetBytes, V4Bytes, UdpBytes, Parse;
    var inner := AppendIPv4Header([], 28, 17, source, destination);
    inner := AppendUdpHeader(inner, sourcePort, destinationPort, 0);

    packet := AppendEthernetHeader([], 0x0800);
    packet := AppendIPv4Header(packet, 20 + 4 + |inner|, 47, outerSource, outerDestination);
    packet := AppendU16(packet, 0x0000);
    packet := AppendU16(packet, 0x0800);
    packet := packet + inner;

    ghost var eth := EthernetBytes(TEST_DESTINATION, TEST_SOURCE, [], 0x0800);
    ghost var header := V4Bytes(52, 47, outerSource, outerDestination, [], TEST_V4);
    GreIsTransparent(packet, eth, header, outerSource, outerDestination, source, destination,
                     sourcePort, destinationPort, inner, timestamp);
  }

  lemma GreIsTransparent(
      packet: seq<byte>, eth: seq<byte>, header: seq<byte>, outerSource: Quad, outerDestination: Quad, source: Quad,
      destination: Quad, sourcePort: port, destinationPort: port, inner: seq<byte>, timestamp: int)
    requires eth == EthernetBytes(TEST_DESTINATION, TEST_SOURCE, [], 0x0800)
    requires header == V4Bytes(52, 47, outerSource, outerDestination, [], TEST_V4)
    requires inner == V4Bytes(28, 17, source, destination, [], TEST_V4) + UdpBytes(sourcePort, destinationPort, 8, 0)
    requires packet == eth + header + [0, 0, 8, 0] + inner
    ensures Parse(packet, Ethernet, timestamp, 66)
            == Start(timestamp, 66).(protocol := Udp, srcIP := [4] + source, dstIP := [4] + destination,
                 srcPort := sourcePort, dstPort := destinationPort, tunnel := [GreTunnel],
                 outerSrcIP := [4] + outerSource, outerDstIP := [4] + outerDestination)
  {
    hide EthernetBytes, V4Bytes, UdpBytes, Parse, V4Carrier, IpHeaderAt, LinkFrame, Ipv4Text, Payload;
    var l := Layer(GreTunnel, ETH_IPV4, header, [0, 0, 8, 0]);
    OneLayer(l, inner);
    GreOfTests();
    V4IsCarrier(52, 47, outerSource, outerDestination, [], TEST_V4);
    DatagramAlone(Ip4(source, destination, [], TEST_V4), sourcePort, destinationPort, inner, timestamp, 66);
    LiesAtSplit(packet, 0, eth, Wrap([l], inner));
    assert packet == eth + Wrap([l], inner);
    EthernetIsRead(packet, TEST_DESTINATION, TEST_SOURCE, [], 0x0800);
    EncapsulationIsTransparent(packet, Ethernet, |eth|, [l], inner, ETH_IPV4, timestamp, 66);
    assert Kinds([l]) == [GreTunnel];
  }

  lemma OneLayer(l: Layer, inner: seq<byte>)
    ensures Wrap([l], inner) == l.header + l.gre + inner
    ensures WellFormed([l], inner, ETH_IPV4) <==> Carrier(l, l.Size() + |inner|) && Carries(l, ETH_IPV4)
    ensures Kinds([l]) == [l.kind]
  {
    hide Carrier, Carries;
    assert [l][1..] == [];
    assert Kinds([l]) == [l.kind] + Kinds([]);
  }

  lemma GreOfTests()
    ensures GreLength([0, 0, 8, 0], 0, 4) == Some(4) && U16([0, 0, 8, 0], 2) == ETH_IPV4
  {
  }

  const TEST_VXLAN: seq<byte> := [0x08, 0x00, 0x00, 0x00, 0x00, 0x00, 0x64, 0x00]

  /** An Ethernet frame with an empty UDP datagram. */
  function EmptyDatagram(source: Quad, destination: Quad, sourcePort: port, destinationPort: port): (frame: seq<byte>)
    ensures |frame| == 42
  {
    EthernetBytes(TEST_DESTINATION, TEST_SOURCE, [], 0x0800) + V4Bytes(28, 17, source, destination, [], TEST_V4)
    + UdpBytes(sourcePort, destinationPort, 8, 0)
  }

  /**
    The VXLAN packet of the tests, whose inner datagram is empty: addresses and ports
    are the inner packet's, but the payload recorded is the whole VXLAN datagram,
    while the inner frame alone has none.
  */
  method MakeVxlanPacket(outerSource: Quad, outerDestination: Quad, outerPort: port, source: Quad, destination: Quad,
                         sourcePort: port, destinationPort: port, ghost timestamp: int, ghost length: uint32)
    returns (packet: seq<byte>, innerFrame: seq<byte>)
    ensures Parse(innerFrame, Ethernet, timestamp, length)
            == Start(timestamp, length).(protocol := Udp, srcIP := [4] + source, dstIP := [4] + destination,
                 srcPort := sourcePort, dstPort := destinationPort)
    ensures Parse(packet, Ethernet, timestamp, length)
            == Start(timestamp, length).(protocol := Udp, srcIP := [4] + source, dstIP := [4] + destination,
                 srcPort := sourcePort, dstPort := destinationPort, payloadOffset := 42, payloadLength := 50,
                 tunnel := [Vxlan], outerSrcIP := [4] + outerSource, outerDstIP := [4] + outerDestination)
  {
    hide EthernetBytes, V4Bytes, UdpBytes, Parse;
    innerFrame := AppendEthernetHeader([], 0x0800);
    innerFrame := AppendIPv4Header(innerFrame, 28, 17, source, destination);
    innerFrame := AppendUdpHeader(innerFrame, sourcePort, destinationPort, 0);
    assert innerFrame == EmptyDatagram(source, destination, sourcePort, destinationPort);

    var vxlan: seq<byte> := [0x08, 0x00, 0x00, 0x00, 0x00, 0x00, 0x64, 0x00];
    vxlan := vxlan + innerFrame;

    packet := AppendEthernetHeader([], 0x0800);
    packet := AppendIPv4Header(packet, 20 + 8 + |vxlan|, 17, outerSource, outerDestination);
    packet := AppendUdpHeader(packet, outerPort, 4789, |vxlan|);
    packet := packet + vxlan;
    EmptyIsRead(source, destination, sourcePort, destinationPort, timestamp, length);
    VxlanIsRead(packet, outerSource, outerDestination, outerPort, source, destination, sourcePort, destinationPort,
                timestamp, length);
  }

  lemma EmptyIsRead(source: Quad, destination: Quad, sourcePort: port, destinationPort: port, timestamp: int, length: uint32)
    ensures var frame := EmptyDatagram(source, destination, sourcePort, destinationPort);
            var h := IpHeader([4] + source, [4] + destination, 17, 34, 42, false);
            && EthernetFrame(frame, 0, 42) == Some(Frame(14, ETH_IPV4))
            && IpHeaderAt(frame, 14, 42, ETH_IPV4) == Some(h)
            && Parse(frame, Ethernet, timestamp, length)
               == Start(timestamp, length).(protocol := Udp, srcIP := [4] + source, dstIP := [4] + destination,
                    srcPort := sourcePort, dstPort := destinationPort)
            && DecodeNetwork(frame, 14, 42, ETH_IPV4, Start(timestamp, length), 0)
               == Parse(frame, Ethernet, timestamp, length)
            && Own(frame, 14, ETH_IPV4) == 0
  {
    hide EthernetBytes, V4Bytes, UdpBytes, EthernetFrame, IpHeaderAt, DecodeNetwork, DecodeUdp, Own, LiesAt, Keeps;
    var frame := EmptyDatagram(source, destination, sourcePort, destinationPort);
    var eth, udp := EthernetBytes(TEST_DESTINATION, TEST_SOURCE, [], 0x0800), UdpBytes(sourcePort, destinationPort, 8, 0);
    var ip := Ip4(source, destination, [], TEST_V4);
    EmptyLies(frame, eth, ip.Bytes(17, 8), udp);
    EthernetIsRead(frame, TEST_DESTINATION, TEST_SOURCE, [], 0x0800);
    IpIsRead(frame, 14, 42, ip, 17, 8);
    EmptyLeadsNowhere(frame, 14, IpHeader([4] + source, [4] + destination, 17, 34, 42, false));
    assert FrameBytes(TEST_DESTINATION, TEST_SOURCE, [], ip, 17, udp, []) == frame;
    FrameIsRead(TEST_DESTINATION, TEST_SOURCE, [], ip, 17, udp, [], timestamp, length);
    assert udp + [] == udp;
    UdpIsRead(frame, 34, 42, sourcePort, destinationPort, 0, [],
              Start(timestamp, length).(srcIP := [4] + source, dstIP := [4] + destination), 0);
  }

  lemma EmptyLies(frame: seq<byte>, eth: seq<byte>, ip: seq<byte>, udp: seq<byte>)
    requires frame == eth + ip + udp && |eth| == 14 && |ip| == 20
    ensures LiesAt(frame, 0, eth) && LiesAt(frame, 14, ip) && LiesAt(frame, 34, udp) && LiesAt(frame, 34, udp + [])
  {
    LiesAtSplit(frame, 0, eth + ip, udp);
    LiesAtSplit(frame, 0, eth, ip);
  }

  /** The chain of hops ends at a datagram without payload. */
  lemma EmptyLeadsNowhere(frame: seq<byte>, at: nat, h: IpHeader)
    requires at <= |frame| && IpHeaderAt(frame, at, |frame|, ETH_IPV4) == Some(h)
    requires h.protocol == 17 && h.start + 8 == h.stop <= |frame|
    ensures Own(frame, at, ETH_IPV4) == 0
  {
    hide IpHeaderAt, U16;
    assert NextHop(frame, at, |frame|, ETH_IPV4) == None;
  }

  lemma VxlanIsRead(packet: seq<byte>, outerSource: Quad, outerDestination: Quad, outerPort: port, source: Quad,
                    destination: Quad, sourcePort: port, destinationPort: port, timestamp: int, length: uint32)
    requires packet == EthernetBytes(TEST_DESTINATION, TEST_SOURCE, [], 0x0800)
                       + V4Bytes(78, 17, outerSource, outerDestination, [], TEST_V4) + UdpBytes(outerPort, 4789, 58, 0)
                       + (TEST_VXLAN + EmptyDatagram(source, destination, sourcePort, destinationPort))
    ensures Parse(packet, Ethernet, timestamp, length)
            == Start(timestamp, length).(protocol := Udp, srcIP := [4] + source, dstIP := [4] + destination,
                 srcPort := sourcePort, dstPort := destinationPort, payloadOffset := 42, payloadLength := 50,
                 tunnel := [Vxlan], outerSrcIP := [4] + outerSource, outerDstIP := [4] + outerDestination)
  {
    hide EthernetBytes, V4Bytes, UdpBytes, EthernetFrame, IpHeaderAt, DecodeNetwork, DecodeUdp, EmptyDatagram, Parse,
      LiesAt, FrameBytes, Own, BringsPorts, BringsPayload;
    var frame := EmptyDatagram(source, destination, sourcePort, destinationPort);
    var udp := UdpBytes(outerPort, 4789, 58, 0);
    var ip := Ip4(outerSource, outerDestination, [], TEST_V4);
    var segment := udp + (TEST_VXLAN + frame);
    VxlanFrame(packet, ip, udp, TEST_VXLAN + frame);
    FrameIsRead(TEST_DESTINATION, TEST_SOURCE, [], ip, 17, segment, [], timestamp, length);
    LiesAtSplit(packet, 34, udp, TEST_VXLAN + frame);
    LiesAtSplit(packet, 42, TEST_VXLAN, frame);
    EmptyIsRead(source, destination, sourcePort, destinationPort, timestamp, length);
    var p := Start(timestamp, length).(srcIP := [4] + outerSource, dstIP := [4] + outerDestination);
    VxlanIsTransparentIffPayload(packet, 34, 92, outerPort, 4789, 0, TEST_VXLAN, frame, 14, ETH_IPV4, p, 0);
    EmptyBringsNothing(frame, IpHeader([4] + source, [4] + destination, 17, 34, 42, false));
  }

  lemma VxlanFrame(packet: seq<byte>, ip: Ip, udp: seq<byte>, rest: seq<byte>)
    requires ip.Ip4? && ip.options == [] && |udp| == 8 && |rest| == 50
    requires packet == EthernetBytes(TEST_DESTINATION, TEST_SOURCE, [], 0x0800)
                       + V4Bytes(78, 17, ip.source4, ip.destination4, [], ip.fields4) + udp + rest
    ensures packet == FrameBytes(TEST_DESTINATION, TEST_SOURCE, [], ip, 17, udp + rest, [])
  {
    hide EthernetBytes, V4Bytes;
  }

  lemma EmptyBringsNothing(frame: seq<byte>, h: IpHeader)
    requires h.protocol == 17 && !h.fragment && h.start + 8 == h.stop <= |frame|
    ensures BringsPorts(frame, h) && !BringsPayload(frame, h)
  {
  }
}
