/**
  The decoders as they run: each writes fields of one packet record in place and
  moves offsets over the captured buffer. Their contracts say that the record
  ends up as the functions of module Decode describe.
*/
module PacketDecoder {
  import opened Bytes
  import opened Packet
  import opened Decode

  class ParsedPacket {
    var timestamp: int
    var length: uint32
    var protocol: Protocol
    var srcIP: Text
    var dstIP: Text
    var srcPort: port
    var dstPort: port
    var tcpSyn: bool
    var tcpAck: bool
    var tcpFin: bool
    var tcpRst: bool
    var tcpSeq: uint32
    var payloadOffset: nat
    var payloadLength: nat
    var tunnel: seq<Label>
    var outerSrcIP: Text
    var outerDstIP: Text
    var encryptedTunnel: bool

    ghost function View(): Packet
      reads this
    {
      Packet(timestamp, length, protocol, srcIP, dstIP, srcPort, dstPort, tcpSyn, tcpAck, tcpFin, tcpRst, tcpSeq,
             payloadOffset, payloadLength, tunnel, outerSrcIP, outerDstIP, encryptedTunnel)
    }

    constructor (timestamp: int, length: uint32)
      ensures View() == Start(timestamp, length)
    {
      this.timestamp, this.length, protocol := timestamp, length, Unknown;
      srcIP, dstIP, srcPort, dstPort := [], [], 0, 0;
      tcpSyn, tcpAck, tcpFin, tcpRst, tcpSeq := false, false, false, false, 0;
      payloadOffset, payloadLength := 0, 0;
      tunnel, outerSrcIP, outerDstIP, encryptedTunnel := [], [], [], false;
    }
  }

  method PushTunnel(p: ParsedPacket, name: Label)
    modifies p
    ensures p.View() == Push(old(p.View()), name)
  {
    if p.outerSrcIP == [] && p.srcIP != [] {
      p.outerSrcIP := p.srcIP;
      p.outerDstIP := p.dstIP;
    }
    p.tunnel := p.tunnel + [name];
  }

  /** The Ethernet branch of decodeLinkLayer: 802.1Q tags stack ahead of the real EtherType. */
  method DecodeEthernet(buffer: seq<byte>, start: nat, end: nat)
    returns (ok: bool, outOffset: nat, outEtherType: nat)
    requires start <= end <= |buffer|
    ensures EthernetFrame(buffer, start, end) == if ok then Some(Frame(outOffset, outEtherType)) else None
  {
    ok, outOffset, outEtherType := false, start, 0;
    if end - start < 14 { return; }
    outOffset := start + 14;
    outEtherType := U16(buffer, start + 12);
    while outEtherType == 0x8100 || outEtherType == 0x88A8 || outEtherType == 0x9100
      invariant outOffset <= end
      invariant SkipVlans(buffer, outOffset, end, outEtherType) == EthernetFrame(buffer, start, end)
      decreases end - outOffset
    {
      if end < outOffset + 4 { return; }
      outEtherType := U16(buffer, outOffset + 2);
      outOffset := outOffset + 4;
    }
    ok := true;
  }

  method DecodeLinkLayer(buffer: seq<byte>, link: LinkType) returns (ok: bool, outOffset: nat, outEtherType: nat)
    ensures LinkFrame(buffer, link) == if ok then Some(Frame(outOffset, outEtherType)) else None
  {
    ok, outOffset, outEtherType := false, 0, 0;
    var size := |buffer|;
    match link
    case Ethernet =>
      ok, outOffset, outEtherType := DecodeEthernet(buffer, 0, size);
    case LinuxSLL =>
      if size < 16 { return; }
      return true, 16, U16(buffer, 14);
    case LinuxSLL2 =>
      if size < 20 { return; }
      return true, 20, U16(buffer, 0);
    case NullLoopback =>
      if size < 4 { return; }
      var families := [U32([buffer[3], buffer[2], buffer[1], buffer[0]], 0), U32(buffer, 0)];
      for i := 0 to 2
        invariant forall j :: 0 <= j < i ==> families[j] != 2 && !IsV6Family(families[j])
      {
        if families[i] == 2 { return true, 4, ETH_IPV4; }
        if IsV6Family(families[i]) { return true, 4, ETH_IPV6; }
      }
      assert families[0] != 2 && !IsV6Family(families[0]) && families[1] != 2 && !IsV6Family(families[1]);
      ok, outOffset, outEtherType := SniffVersion(buffer, 4);
    case Loop =>
      if size < 4 { return; }
      var af := U32(buffer, 0);
      if af == 2 { return true, 4, ETH_IPV4; }
      if IsV6Family(af) { return true, 4, ETH_IPV6; }
      ok, outOffset, outEtherType := SniffVersion(buffer, 4);
    case RawIP =>
      ok, outOffset, outEtherType := SniffVersion(buffer, 0);
    case LinkIPv4 => return true, 0, ETH_IPV4;
    case LinkIPv6 => return true, 0, ETH_IPV6;
    case Unsupported =>
  }

  method SniffVersion(buffer: seq<byte>, at: nat) returns (ok: bool, outOffset: nat, outEtherType: nat)
    ensures ByIpVersion(buffer, at) == if ok then Some(Frame(outOffset, outEtherType)) else None
  {
    if at >= |buffer| { return false, at, 0; }
    var version := buffer[at] / 16;
    if version == 4 { return true, at, ETH_IPV4; }
    if version == 6 { return true, at, ETH_IPV6; }
    return false, at, 0;
  }

  /** `ok` is false when the header is not an extension or is cut short. */
  method WalkV6Extension(nh: byte, buffer: seq<byte>, size: nat, pos: nat)
    returns (ok: bool, next: byte, newPos: nat)
    requires pos <= size <= |buffer|
    ensures V6Extension(buffer, pos, size, nh) == if ok then Some(Extension(next, newPos)) else None
  {
    ok, next, newPos := false, nh, pos;
    if nh == 0 || nh == 43 || nh == 60 || nh == 135 {
      if size < pos + 2 { return; }
      var newNh := buffer[pos];
      var hdrLen := (buffer[pos + 1] as int + 1) * 8;
      if size < pos + hdrLen { return; }
      return true, newNh, pos + hdrLen;
    } else if nh == 44 {
      if size < pos + 8 { return; }
      return true, buffer[pos], pos + 8;
    } else if nh == 51 {
      if size < pos + 2 { return; }
      next := buffer[pos];
      var hdrLen := (buffer[pos + 1] as int + 2) * 4;
      if size < pos + hdrLen { return; }
      return true, next, pos + hdrLen;
    }
  }

  method WritePorts(p: ParsedPacket, src: port, dst: port)
    modifies p
    ensures p.View() == old(p.View()).(srcPort := src, dstPort := dst)
  {
    p.srcPort := src;
    p.dstPort := dst;
  }

  method WritePayload(p: ParsedPacket, offset: nat, length: nat)
    modifies p
    ensures p.View() == old(p.View()).(payloadOffset := offset, payloadLength := length)
  {
    p.payloadOffset := offset;
    p.payloadLength := length;
  }

  method WriteTcpFlags(p: ParsedPacket, tcpFlags: nat)
    modifies p
    ensures p.View() == old(p.View()).(tcpFin := tcpFlags % 2 != 0, tcpSyn := tcpFlags / 2 % 2 != 0,
                                       tcpRst := tcpFlags / 4 % 2 != 0, tcpAck := tcpFlags / 16 % 2 != 0)
  {
    p.tcpFin := tcpFlags % 2 != 0;
    p.tcpSyn := tcpFlags / 2 % 2 != 0;
    p.tcpRst := tcpFlags / 4 % 2 != 0;
    p.tcpAck := tcpFlags / 16 % 2 != 0;
  }

  method WriteSequence(p: ParsedPacket, tcpSeq: uint32)
    modifies p
    ensures p.View() == old(p.View()).(tcpSeq := tcpSeq)
  {
    p.tcpSeq := tcpSeq;
  }

  method WriteAddresses(p: ParsedPacket, src: Text, dst: Text)
    modifies p
    ensures p.View() == old(p.View()).(srcIP := src, dstIP := dst)
  {
    p.srcIP := src;
    p.dstIP := dst;
  }

  method WriteProtocol(p: ParsedPacket, protocol: Protocol)
    modifies p
    ensures p.View() == old(p.View()).(protocol := protocol)
  {
    p.protocol := protocol;
  }

  method RunTcp(buffer: seq<byte>, end: nat, offset: nat, p: ParsedPacket)
    requires offset <= end <= |buffer|
    modifies p
    ensures p.View() == DecodeTcp(buffer, offset, end, old(p.View()))
  {
    hide U16, U32;
    WriteProtocol(p, Tcp);
    if end < offset + 20 { return; }
    WritePorts(p, U16(buffer, offset), U16(buffer, offset + 2));
    WriteSequence(p, U32(buffer, offset + 4));
    WriteTcpFlags(p, buffer[offset + 13]);

    var tcpHeaderLen := (buffer[offset + 12] as int / 16) * 4;
    if tcpHeaderLen < 20 || end < offset + tcpHeaderLen { return; }
    var payloadOffset := offset + tcpHeaderLen;
    if payloadOffset < end {
      WritePayload(p, payloadOffset, end - payloadOffset);
    }
  }

  method RunUdp(buffer: seq<byte>, end: nat, offset: nat, p: ParsedPacket, depth: nat)
    requires offset <= end <= |buffer| && depth <= MAX_TUNNEL_DEPTH
    modifies p
    ensures p.View() == DecodeUdp(buffer, offset, end, old(p.View()), depth)
    decreases MAX_TUNNEL_DEPTH + 1 - depth, 5
  {
    hide DecodeUdpPayload, U16;
    WriteProtocol(p, Udp);
    if end < offset + 8 { return; }
    WritePorts(p, U16(buffer, offset), U16(buffer, offset + 2));

    var udpLength := U16(buffer, offset + 4);
    var declaredEnd := if udpLength >= 8 then offset + udpLength else end;
    var udpEnd := Min(end, declaredEnd);
    var payloadOffset := offset + 8;
    if payloadOffset >= udpEnd { return; }

    WritePayload(p, payloadOffset, udpEnd - payloadOffset);
    RunUdpPayload(buffer, udpEnd, payloadOffset, p, depth);
  }

  /** Descends into a UDP-borne tunnel, if the ports say there is one. */
  method RunUdpPayload(buffer: seq<byte>, end: nat, offset: nat, p: ParsedPacket, depth: nat)
    requires offset <= end <= |buffer| && depth <= MAX_TUNNEL_DEPTH
    modifies p
    ensures p.View() == DecodeUdpPayload(buffer, offset, end, old(p.View()), depth)
    decreases MAX_TUNNEL_DEPTH + 1 - depth, 4
  {
    hide DecodeVxlan, DecodeGeneve;
    if depth < MAX_TUNNEL_DEPTH {
      if p.dstPort == 4789 || p.srcPort == 4789 {
        RunVxlan(buffer, end, offset, p, depth);
        return;
      }
      if p.dstPort == 6081 || p.srcPort == 6081 {
        RunGeneve(buffer, end, offset, p, depth);
        return;
      }
    }
  }

  method RunTransport(buffer: seq<byte>, end: nat, offset: nat, l4Proto: byte, p: ParsedPacket, depth: nat)
    requires offset <= end <= |buffer| && depth <= MAX_TUNNEL_DEPTH
    modifies p
    ensures p.View() == DecodeTransport(buffer, offset, end, l4Proto, old(p.View()), depth)
    decreases MAX_TUNNEL_DEPTH + 1 - depth, 6
  {
    hide DecodeTcp, DecodeUdp, DecodeNetwork, DecodeGre, Keeps;
    if l4Proto == 6 {
      RunTcp(buffer, end, offset, p);
    } else if l4Proto == 17 {
      RunUdp(buffer, end, offset, p, depth);
    } else if l4Proto == 1 {
      p.protocol := Icmp;
    } else if l4Proto == 58 {
      p.protocol := Icmpv6;
    } else if l4Proto == 4 && depth < MAX_TUNNEL_DEPTH {
      PushTunnel(p, IpInIp);
      RunNetwork(buffer, end, offset, ETH_IPV4, p, depth + 1);
    } else if l4Proto == 41 && depth < MAX_TUNNEL_DEPTH {
      PushTunnel(p, SixInFour);
      RunNetwork(buffer, end, offset, ETH_IPV6, p, depth + 1);
    } else if l4Proto == 47 && depth < MAX_TUNNEL_DEPTH {
      RunGre(buffer, end, offset, p, depth);
      if p.protocol == Unknown { p.protocol := Gre; }
    } else if l4Proto == 50 {
      p.protocol := Esp;
      p.encryptedTunnel := true;
    } else if l4Proto in {2, 33, 51, 89, 103, 112, 132} {
      p.protocol := NamedIp(l4Proto);
    } else {
      p.protocol := OtherIp(l4Proto);
    }
  }

  method RunInnerEthernet(buffer: seq<byte>, end: nat, offset: nat, p: ParsedPacket, depth: nat)
    requires offset <= end <= |buffer| && depth < MAX_TUNNEL_DEPTH
    modifies p
    ensures p.View() == DecodeInnerEthernet(buffer, offset, end, old(p.View()), depth)
    decreases MAX_TUNNEL_DEPTH + 1 - depth, 1
  {
    hide DecodeNetwork, EthernetFrame;
    if offset >= end { return; }
    var ok, innerOffset, innerEtherType := DecodeEthernet(buffer, offset, end);
    if !ok { return; }
    RunNetwork(buffer, end, innerOffset, innerEtherType, p, depth + 1);
  }

  /** The shared tail of the GRE and GENEVE decoders. */
  method RunInner(buffer: seq<byte>, end: nat, offset: nat, innerType: nat, p: ParsedPacket, depth: nat)
    requires offset <= end <= |buffer| && depth < MAX_TUNNEL_DEPTH
    modifies p
    ensures p.View() == DecodeInner(buffer, offset, end, innerType, old(p.View()), depth)
    decreases MAX_TUNNEL_DEPTH + 1 - depth, 2
  {
    hide DecodeNetwork, DecodeInnerEthernet;
    if innerType == ETH_BRIDGE {
      RunInnerEthernet(buffer, end, offset, p, depth);
    } else if innerType == ETH_IPV4 || innerType == ETH_IPV6 {
      RunNetwork(buffer, end, offset, innerType, p, depth + 1);
    }
  }

  method RunGre(buffer: seq<byte>, end: nat, offset: nat, p: ParsedPacket, depth: nat)
    requires offset <= end <= |buffer| && depth < MAX_TUNNEL_DEPTH
    modifies p
    ensures p.View() == DecodeGre(buffer, offset, end, old(p.View()), depth)
    decreases MAX_TUNNEL_DEPTH + 1 - depth, 3
  {
    hide DecodeInner;
    if end < offset + 4 { return; }
    var flags := U16(buffer, offset);
    var innerType := U16(buffer, offset + 2);
    if flags % 8 != 0 { return; }
    var headerLen := 4;
    if flags / 0x8000 % 2 != 0 { headerLen := headerLen + 4; }
    if flags / 0x2000 % 2 != 0 { headerLen := headerLen + 4; }
    if flags / 0x1000 % 2 != 0 { headerLen := headerLen + 4; }
    if end < offset + headerLen { return; }
    PushTunnel(p, GreTunnel);
    RunInner(buffer, end, offset + headerLen, innerType, p, depth);
  }

  method RunVxlan(buffer: seq<byte>, end: nat, offset: nat, p: ParsedPacket, depth: nat)
    requires offset <= end <= |buffer| && depth < MAX_TUNNEL_DEPTH
    modifies p
    ensures p.View() == DecodeVxlan(buffer, offset, end, old(p.View()), depth)
    decreases MAX_TUNNEL_DEPTH + 1 - depth, 2
  {
    hide DecodeInnerEthernet;
    if end < offset + 8 { return; }
    if buffer[offset] / 8 % 2 == 0 { return; }
    PushTunnel(p, Vxlan);
    RunInnerEthernet(buffer, end, offset + 8, p, depth);
  }

  method RunGeneve(buffer: seq<byte>, end: nat, offset: nat, p: ParsedPacket, depth: nat)
    requires offset <= end <= |buffer| && depth < MAX_TUNNEL_DEPTH
    modifies p
    ensures p.View() == DecodeGeneve(buffer, offset, end, old(p.View()), depth)
    decreases MAX_TUNNEL_DEPTH + 1 - depth, 3
  {
    hide DecodeInner;
    if end < offset + 8 { return; }
    var verOptLen := buffer[offset];
    if verOptLen / 64 != 0 { return; }
    var optionsLen := (verOptLen as int % 64) * 4;
    var innerType := U16(buffer, offset + 2);
    var innerOffset := offset + 8 + optionsLen;
    if end < innerOffset { return; }
    PushTunnel(p, Geneve);
    RunInner(buffer, end, innerOffset, innerType, p, depth);
  }

  method RunMpls(buffer: seq<byte>, end: nat, offset: nat, p: ParsedPacket, depth: nat)
    requires offset <= end <= |buffer| && depth <= MAX_TUNNEL_DEPTH
    modifies p
    ensures p.View() == DecodeMpls(buffer, offset, end, old(p.View()), depth)
    decreases MAX_TUNNEL_DEPTH + 1 - depth, 6
  {
    hide DecodeNetwork;
    var pos: nat := offset;
    for n := 0 to 8
      invariant pos <= end && p.View() == old(p.View())
      invariant MplsBottom(buffer, pos, end, 8 - n) == MplsBottom(buffer, offset, end, 8)
    {
      if end < pos + 4 { return; }
      var bottomOfStack := buffer[pos + 2] % 2 != 0;
      pos := pos + 4;
      if !bottomOfStack { continue; }
      if pos >= end { return; }
      var version := buffer[pos] / 16;
      if version != 4 && version != 6 { return; }
      PushTunnel(p, MplsTunnel);
      RunNetwork(buffer, end, pos, if version == 4 then ETH_IPV4 else ETH_IPV6, p, depth + 1);
      return;
    }
  }

  method RunPppoe(buffer: seq<byte>, end: nat, offset: nat, p: ParsedPacket, depth: nat)
    requires offset <= end <= |buffer| && depth <= MAX_TUNNEL_DEPTH
    modifies p
    ensures p.View() == DecodePppoe(buffer, offset, end, old(p.View()), depth)
    decreases MAX_TUNNEL_DEPTH + 1 - depth, 6
  {
    hide DecodeNetwork;
    if end < offset + 8 { return; }
    var pppProtocol := U16(buffer, offset + 6);
    var innerType := 0;
    if pppProtocol == 0x0021 { innerType := ETH_IPV4; }
    else if pppProtocol == 0x0057 { innerType := ETH_IPV6; }
    else { return; }
    PushTunnel(p, PppoeTunnel);
    RunNetwork(buffer, end, offset + 8, innerType, p, depth + 1);
  }

  method RunIPv4(buffer: seq<byte>, end: nat, offset: nat, p: ParsedPacket, depth: nat)
    requires offset <= end <= |buffer| && depth <= MAX_TUNNEL_DEPTH
    modifies p
    ensures p.View() == DecodeNetwork(buffer, offset, end, ETH_IPV4, old(p.View()), depth)
    decreases MAX_TUNNEL_DEPTH + 1 - depth, 7
  {
    hide DecodeTransport, U16;
    if end < offset + 20 { return; }
    var versionHlen := buffer[offset];
    var ihl := (versionHlen as int % 16) * 4;
    if versionHlen / 16 != 4 || ihl < 20 || end < offset + ihl { return; }
    var totalLength := U16(buffer, offset + 2);
    if totalLength < ihl { return; }
    var packetEnd := Min(end, offset + totalLength);
    WriteAddresses(p, Ipv4Text(buffer, offset + 12), Ipv4Text(buffer, offset + 16));
    var flagsFragOff := U16(buffer, offset + 6);
    if flagsFragOff % 0x2000 != 0 {
      WriteProtocol(p, Ipv4Fragment);
      return;
    }
    RunTransport(buffer, packetEnd, offset + ihl, buffer[offset + 9], p, depth);
  }

  method RunIPv6(buffer: seq<byte>, end: nat, offset: nat, p: ParsedPacket, depth: nat)
    requires offset <= end <= |buffer| && depth <= MAX_TUNNEL_DEPTH
    modifies p
    ensures p.View() == DecodeNetwork(buffer, offset, end, ETH_IPV6, old(p.View()), depth)
    decreases MAX_TUNNEL_DEPTH + 1 - depth, 7
  {
    hide DecodeTransport, V6Extension, U16;
    if end < offset + 40 { return; }
    var payloadLen := U16(buffer, offset + 4);
    var packetEnd := Min(end, offset + 40 + payloadLen);
    WriteAddresses(p, Ipv6Text(buffer, offset + 8), Ipv6Text(buffer, offset + 24));
    var nextHeader := buffer[offset + 6];
    var pos := offset + 40;
    ghost var written := p.View();
    while true
      invariant pos <= packetEnd && p.View() == written
      invariant V6Upper(buffer, pos, packetEnd, nextHeader) == V6Upper(buffer, offset + 40, packetEnd, buffer[offset + 6])
      decreases packetEnd - pos
    {
      var ok, newNext, newPos := WalkV6Extension(nextHeader, buffer, packetEnd, pos);
      if !ok { break; }
      nextHeader, pos := newNext, newPos;
    }
    RunTransport(buffer, packetEnd, pos, nextHeader, p, depth);
  }

  method RunArp(buffer: seq<byte>, end: nat, offset: nat, p: ParsedPacket)
    requires offset <= end <= |buffer|
    modifies p
    ensures p.View() == DecodeArp(buffer, offset, end, old(p.View()))
  {
    p.protocol := Arp;
    if end < offset + 8 { return; }
    var ptype := U16(buffer, offset + 2);
    var hlen: nat := buffer[offset + 4];
    var plen: nat := buffer[offset + 5];
    var arpBody := offset + 8;
    if ptype == ETH_IPV4 && plen == 4 && end >= arpBody + 2 * (hlen + plen) {
      WriteAddresses(p, Ipv4Text(buffer, arpBody + hlen), Ipv4Text(buffer, arpBody + 2 * hlen + plen));
    }
  }

  method RunNetwork(buffer: seq<byte>, end: nat, offset: nat, etherType: nat, p: ParsedPacket, depth: nat)
    requires offset <= end <= |buffer| && depth <= MAX_TUNNEL_DEPTH + 1
    modifies p
    ensures p.View() == DecodeNetwork(buffer, offset, end, etherType, old(p.View()), depth)
    decreases MAX_TUNNEL_DEPTH + 1 - depth, 8
  {
    hide DecodeMpls, DecodePppoe, DecodeIp, DecodeArp, IpHeaderAt;
    if depth > MAX_TUNNEL_DEPTH { return; }
    if etherType == ETH_MPLS_UNI || etherType == ETH_MPLS_MUL {
      RunMpls(buffer, end, offset, p, depth);
      if p.protocol == Unknown { p.protocol := Mpls; }
    } else if etherType == ETH_PPPOE_SESSION {
      RunPppoe(buffer, end, offset, p, depth);
      if p.protocol == Unknown { p.protocol := Pppoe; }
    } else if etherType == ETH_IPV4 {
      RunIPv4(buffer, end, offset, p, depth);
    } else if etherType == ETH_IPV6 {
      RunIPv6(buffer, end, offset, p, depth);
    } else if etherType == ETH_ARP {
      RunArp(buffer, end, offset, p);
    } else if HasEtherName(etherType) {
      p.protocol := NamedEther(etherType);
    } else {
      p.protocol := NonIp;
    }
  }

  /** The decoding half of parse. */
  method RunParse(buffer: seq<byte>, link: LinkType, timestamp: int, length: uint32) returns (p: ParsedPacket)
    ensures fresh(p) && p.View() == Parse(buffer, link, timestamp, length)
  {
    hide DecodeNetwork, LinkFrame;
    p := new ParsedPacket(timestamp, length);
    if |buffer| == 0 { return; }
    var ok, offset, etherType := DecodeLinkLayer(buffer, link);
    if !ok {
      p.protocol := if link == Unsupported then UnsupportedLink else Truncated;
      return;
    }
    RunNetwork(buffer, |buffer|, offset, etherType, p, 0);
  }
}
