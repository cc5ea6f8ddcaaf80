/**
  Decoding does not care where a packet lies, what surrounds it, or how deep in
  tunnels it was found: decoding `s` inside a larger buffer, below carriers that
  are already recorded, gives the record of `s` alone, moved and re-labelled.
  (src/core/ProtocolParser.cpp:139-148, 241-573)
*/
module DecodeLift {
  import opened Bytes
  import opened Packet
  import opened Decode
  import opened Hops

  /**
    The record of a packet decoded on its own, as it reads when the packet starts
    at position `d` of a larger buffer and below the carriers recorded in `base`.
  */
  function Lift(p: Packet, base: Packet, d: nat): Packet {
    p.(timestamp := base.timestamp, length := base.length, tunnel := base.tunnel + p.tunnel,
       outerSrcIP := if base.outerSrcIP == [] then p.outerSrcIP else base.outerSrcIP,
       outerDstIP := if base.outerSrcIP == [] then p.outerDstIP else base.outerDstIP,
       payloadOffset := if p.payloadLength == 0 then p.payloadOffset else d + p.payloadOffset)
  }

  /**
    `n` further levels leave the decoding from `p` to `r` within its depth budget:
    one level for each label, and one more to find a GRE header unreadable.
  */
  predicate Room(p: Packet, r: Packet, depth: nat, n: nat, atGre: bool) {
    n > 0 ==> |r.tunnel| + depth + n + (if atGre then 1 else 0) <= |p.tunnel| + MAX_TUNNEL_DEPTH
  }

  lemma PushLifts(p: Packet, base: Packet, d: nat, name: Label)
    ensures Push(Lift(p, base, d), name) == Lift(Push(p, name), base, d)
  {
    assert base.tunnel + p.tunnel + [name] == base.tunnel + (p.tunnel + [name]);
  }

  lemma LiftNames(p: Packet, base: Packet, d: nat, protocol: Protocol)
    ensures Lift(p.(protocol := protocol), base, d) == Lift(p, base, d).(protocol := protocol)
    ensures Lift(p, base, d).protocol == p.protocol
  {
  }

  lemma LiftAddresses(p: Packet, base: Packet, d: nat, src: Text, dst: Text)
    ensures Lift(p.(srcIP := src, dstIP := dst), base, d) == Lift(p, base, d).(srcIP := src, dstIP := dst)
  {
  }

  lemma LiftPorts(p: Packet, base: Packet, d: nat, src: port, dst: port)
    ensures Lift(p.(srcPort := src, dstPort := dst), base, d) == Lift(p, base, d).(srcPort := src, dstPort := dst)
    ensures Lift(p, base, d).srcPort == p.srcPort && Lift(p, base, d).dstPort == p.dstPort
  {
  }

  lemma LiftWindow(p: Packet, base: Packet, d: nat, offset: nat, length: nat)
    requires length > 0
    ensures Lift(p.(payloadOffset := offset, payloadLength := length), base, d)
            == Lift(p, base, d).(payloadOffset := d + offset, payloadLength := length)
  {
  }

  lemma LiftSegment(p: Packet, base: Packet, d: nat, src: port, dst: port, sequence: uint32,
                    fin: bool, syn: bool, rst: bool, ack: bool)
    ensures Lift(p.(srcPort := src, dstPort := dst, tcpSeq := sequence,
                    tcpFin := fin, tcpSyn := syn, tcpRst := rst, tcpAck := ack), base, d)
            == Lift(p, base, d).(srcPort := src, dstPort := dst, tcpSeq := sequence,
                                 tcpFin := fin, tcpSyn := syn, tcpRst := rst, tcpAck := ack)
  {
  }

  lemma PushAdds(p: Packet, name: Label)
    ensures Push(p, name).tunnel == p.tunnel + [name] && Push(p, name).protocol == p.protocol
  {
  }

  // ----- reads that move with the buffer

  function MovedFrame(f: Option<Frame>, d: nat): Option<Frame> {
    match f
    case None => None
    case Some(frame) => Some(Frame(d + frame.offset, frame.etherType))
  }

  function MovedHeader(h: IpHeader, d: nat): IpHeader {
    h.(start := d + h.start, stop := d + h.stop)
  }

  lemma {:induction false} MovedSkipVlans(s: seq<byte>, t: seq<byte>, d: nat, offset: nat, end: nat, etherType: nat)
    requires LiesAt(t, d, s) && offset <= end <= |s|
    ensures SkipVlans(t, d + offset, d + end, etherType) == MovedFrame(SkipVlans(s, offset, end, etherType), d)
    decreases end - offset
  {
    if IsVlan(etherType) && offset + 4 <= end {
      MovedU16(s, t, d, offset + 2);
      MovedSkipVlans(s, t, d, offset + 4, end, U16(s, offset + 2));
    }
  }

  lemma MovedEthernetFrame(s: seq<byte>, t: seq<byte>, d: nat, start: nat, end: nat)
    requires LiesAt(t, d, s) && start <= end <= |s|
    ensures EthernetFrame(t, d + start, d + end) == MovedFrame(EthernetFrame(s, start, end), d)
  {
    if start + 14 <= end {
      MovedU16(s, t, d, start + 12);
      MovedSkipVlans(s, t, d, start + 14, end, U16(s, start + 12));
    }
  }

  lemma MovedV6Extension(s: seq<byte>, t: seq<byte>, d: nat, pos: nat, end: nat, next: byte)
    requires LiesAt(t, d, s) && pos <= end <= |s|
    ensures var e := V6Extension(s, pos, end, next);
            V6Extension(t, d + pos, d + end, next) == if e.None? then None else Some(e.value.(pos := d + e.value.pos))
  {
    if pos + 2 <= end {
      MovedU16(s, t, d, pos);
      assert s[pos + 1] == t[d + (pos + 1)];
    }
  }

  lemma {:induction false} MovedV6Upper(s: seq<byte>, t: seq<byte>, d: nat, pos: nat, end: nat, next: byte)
    requires LiesAt(t, d, s) && pos <= end <= |s|
    ensures var e := V6Upper(s, pos, end, next);
            V6Upper(t, d + pos, d + end, next) == e.(pos := d + e.pos)
    decreases end - pos
  {
    hide V6Extension;
    MovedV6Extension(s, t, d, pos, end, next);
    var e := V6Extension(s, pos, end, next);
    if e.Some? {
      MovedV6Upper(s, t, d, e.value.pos, end, e.value.next);
    }
  }

  lemma MovedAddresses(s: seq<byte>, t: seq<byte>, d: nat, i: nat)
    requires LiesAt(t, d, s)
    ensures i + 4 <= |s| ==> Ipv4Text(t, d + i) == Ipv4Text(s, i)
    ensures i + 16 <= |s| ==> Ipv6Text(t, d + i) == Ipv6Text(s, i)
  {
    if i + 4 <= |s| { MovedSlice(s, t, d, i, i + 4); }
    if i + 16 <= |s| { MovedSlice(s, t, d, i, i + 16); }
  }

  lemma MovedV4Header(s: seq<byte>, t: seq<byte>, d: nat, offset: nat, end: nat)
    requires LiesAt(t, d, s) && offset <= end <= |s|
    ensures var h := V4Header(s, offset, end);
            V4Header(t, d + offset, d + end) == if h.None? then None else Some(MovedHeader(h.value, d))
  {
    hide Ipv4Text;
    if offset + 20 <= end {
      MovedU16(s, t, d, offset);
      MovedU16(s, t, d, offset + 2);
      MovedU16(s, t, d, offset + 6);
      MovedU16(s, t, d, offset + 9);
      MovedAddresses(s, t, d, offset + 12);
      MovedAddresses(s, t, d, offset + 16);
    }
  }

  lemma MovedV6Header(s: seq<byte>, t: seq<byte>, d: nat, offset: nat, end: nat)
    requires LiesAt(t, d, s) && offset <= end <= |s|
    ensures var h := V6Header(s, offset, end);
            V6Header(t, d + offset, d + end) == if h.None? then None else Some(MovedHeader(h.value, d))
  {
    hide Ipv6Text, V6Upper;
    if offset + 40 <= end {
      MovedU16(s, t, d, offset + 4);
      MovedU16(s, t, d, offset + 6);
      MovedAddresses(s, t, d, offset + 8);
      MovedAddresses(s, t, d, offset + 24);
      MovedV6Upper(s, t, d, offset + 40, Min(end, offset + 40 + U16(s, offset + 4)), s[offset + 6]);
    }
  }

  lemma MovedIpHeader(s: seq<byte>, t: seq<byte>, d: nat, offset: nat, end: nat, etherType: nat)
    requires LiesAt(t, d, s) && offset <= end <= |s|
    ensures var h := IpHeaderAt(s, offset, end, etherType);
            IpHeaderAt(t, d + offset, d + end, etherType) == if h.None? then None else Some(MovedHeader(h.value, d))
  {
    hide V4Header, V6Header;
    MovedV4Header(s, t, d, offset, end);
    MovedV6Header(s, t, d, offset, end);
  }

  lemma MovedGreLength(s: seq<byte>, t: seq<byte>, d: nat, offset: nat, end: nat)
    requires LiesAt(t, d, s) && offset <= end <= |s|
    ensures GreLength(t, d + offset, d + end) == GreLength(s, offset, end)
  {
    if offset + 4 <= end { MovedU16(s, t, d, offset); }
  }

  lemma {:induction false} MovedMplsBottom(s: seq<byte>, t: seq<byte>, d: nat, pos: nat, end: nat, labels: nat)
    requires LiesAt(t, d, s) && pos <= end <= |s|
    ensures var b := MplsBottom(s, pos, end, labels);
            MplsBottom(t, d + pos, d + end, labels) == if b.None? then None else Some(d + b.value)
    decreases labels
  {
    if labels > 0 && pos + 4 <= end {
      MovedU16(s, t, d, pos + 2);
      MovedMplsBottom(s, t, d, pos + 4, end, labels - 1);
    }
  }

  // ----- the decoders, in the order of the recursion

  lemma TcpFixedLifts(s: seq<byte>, t: seq<byte>, d: nat, offset: nat, p: Packet, base: Packet)
    requires LiesAt(t, d, s) && offset + 20 <= |s|
    ensures TcpFixed(t, d + offset, Lift(p, base, d)) == Lift(TcpFixed(s, offset, p), base, d)
  {
    hide U16, U32, Lift;
    MovedU16(s, t, d, offset);
    MovedU16(s, t, d, offset + 2);
    MovedU32(s, t, d, offset + 4);
    MovedU16(s, t, d, offset + 13);
    var flags: nat := s[offset + 13];
    LiftSegment(p, base, d, U16(s, offset), U16(s, offset + 2), U32(s, offset + 4),
                flags % 2 != 0, flags / 2 % 2 != 0, flags / 4 % 2 != 0, flags / 16 % 2 != 0);
  }

  lemma TcpLifts(s: seq<byte>, t: seq<byte>, d: nat, offset: nat, end: nat, p: Packet, base: Packet)
    requires LiesAt(t, d, s) && offset <= end <= |s|
    ensures DecodeTcp(t, d + offset, d + end, Lift(p, base, d)) == Lift(DecodeTcp(s, offset, end, p), base, d)
  {
    hide TcpFixed, Lift;
    LiftNames(p, base, d, Tcp);
    if offset + 20 <= end {
      MovedU16(s, t, d, offset + 12);
      TcpFixedLifts(s, t, d, offset, p.(protocol := Tcp), base);
      var payload := offset + (s[offset + 12] as int / 16) * 4;
      if payload < end {
        LiftWindow(TcpFixed(s, offset, p.(protocol := Tcp)), base, d, payload, end - payload);
      }
    }
  }

  lemma ArpLifts(s: seq<byte>, t: seq<byte>, d: nat, offset: nat, end: nat, p: Packet, base: Packet)
    requires LiesAt(t, d, s) && offset <= end <= |s|
    ensures DecodeArp(t, d + offset, d + end, Lift(p, base, d)) == Lift(DecodeArp(s, offset, end, p), base, d)
  {
    hide U16, Ipv4Text, Ipv6Text, Lift;
    LiftNames(p, base, d, Arp);
    if offset + 8 <= end {
      MovedU16(s, t, d, offset + 2);
      MovedU16(s, t, d, offset + 4);
      MovedU16(s, t, d, offset + 5);
      var hlen: nat, plen: nat := s[offset + 4], s[offset + 5];
      if offset + 8 + 2 * (hlen + plen) <= end && plen == 4 {
        LiftAddresses(p.(protocol := Arp), base, d,
                      Ipv4Text(s, offset + 8 + hlen), Ipv4Text(s, offset + 8 + 2 * hlen + plen));
      }
      MovedAddresses(s, t, d, offset + 8 + hlen);
      MovedAddresses(s, t, d, offset + 8 + 2 * hlen + plen);
    }
  }

  lemma {:induction false} UdpLifts(
      s: seq<byte>, t: seq<byte>, d: nat, offset: nat, end: nat, p: Packet, base: Packet, depth: nat, n: nat)
    requires LiesAt(t, d, s) && offset <= end <= |s| && depth + n <= MAX_TUNNEL_DEPTH
    requires Room(p, DecodeUdp(s, offset, end, p, depth), depth, n, Leads(s, UdpHop(s, offset, end)))
    ensures DecodeUdp(t, d + offset, d + end, Lift(p, base, d), depth + n)
            == Lift(DecodeUdp(s, offset, end, p, depth), base, d)
    decreases MAX_TUNNEL_DEPTH + 1 - depth, 5
  {
    hide U16, DecodeUdpPayload, Lift, Leads, UdpPayloadHop, Ungated;
    var q := p.(protocol := Udp);
    LiftNames(p, base, d, Udp);
    if offset + 8 <= end {
      MovedU16(s, t, d, offset);
      MovedU16(s, t, d, offset + 2);
      MovedU16(s, t, d, offset + 4);
      var u := q.(srcPort := U16(s, offset), dstPort := U16(s, offset + 2));
      LiftPorts(q, base, d, U16(s, offset), U16(s, offset + 2));
      var stop := UdpEnd(s, offset, end);
      if offset + 8 < stop {
        var w := u.(payloadOffset := offset + 8, payloadLength := stop - (offset + 8));
        LiftWindow(u, base, d, offset + 8, stop - (offset + 8));
        UdpPayloadLifts(s, t, d, offset + 8, stop, w, base, depth, n);
      }
    }
  }

  /** Where the budget is spent, the tunnel over UDP was unreadable anyway. */
  lemma UdpTunnelFits(s: seq<byte>, offset: nat, end: nat, p: Packet, depth: nat, n: nat, atGre: bool)
    requires offset <= end <= |s| && depth < MAX_TUNNEL_DEPTH <= depth + n
    ensures Room(p, DecodeVxlan(s, offset, end, p, depth), depth, n, atGre) ==>
              DecodeVxlan(s, offset, end, p, depth) == p
    ensures Room(p, DecodeGeneve(s, offset, end, p, depth), depth, n, atGre) ==>
              DecodeGeneve(s, offset, end, p, depth) == p
  {
    hide DecodeInnerEthernet, DecodeInner;
  }

  lemma {:induction false} UdpPayloadLifts(
      s: seq<byte>, t: seq<byte>, d: nat, offset: nat, end: nat, p: Packet, base: Packet, depth: nat, n: nat)
    requires LiesAt(t, d, s) && offset <= end <= |s| && depth + n <= MAX_TUNNEL_DEPTH
    requires Room(p, DecodeUdpPayload(s, offset, end, p, depth), depth, n, Leads(s, UdpPayloadHop(s, offset, end, p.srcPort, p.dstPort)))
    ensures DecodeUdpPayload(t, d + offset, d + end, Lift(p, base, d), depth + n)
            == Lift(DecodeUdpPayload(s, offset, end, p, depth), base, d)
    decreases MAX_TUNNEL_DEPTH + 1 - depth, 4
  {
    hide DecodeVxlan, DecodeGeneve, Lift, Room;
    LiftPorts(p, base, d, p.srcPort, p.dstPort);
    if depth < MAX_TUNNEL_DEPTH {
      if depth + n == MAX_TUNNEL_DEPTH {
        UdpTunnelFits(s, offset, end, p, depth, n, Leads(s, UdpPayloadHop(s, offset, end, p.srcPort, p.dstPort)));
      } else if p.dstPort == 4789 || p.srcPort == 4789 {
        VxlanLifts(s, t, d, offset, end, p, base, depth, n);
      } else if p.dstPort == 6081 || p.srcPort == 6081 {
        GeneveLifts(s, t, d, offset, end, p, base, depth, n);
      }
    }
  }

  lemma {:induction false} VxlanLifts(
      s: seq<byte>, t: seq<byte>, d: nat, offset: nat, end: nat, p: Packet, base: Packet, depth: nat, n: nat)
    requires LiesAt(t, d, s) && offset <= end <= |s| && depth + n < MAX_TUNNEL_DEPTH
    requires Room(p, DecodeVxlan(s, offset, end, p, depth), depth, n, Leads(s, VxlanHop(s, offset, end)))
    ensures DecodeVxlan(t, d + offset, d + end, Lift(p, base, d), depth + n)
            == Lift(DecodeVxlan(s, offset, end, p, depth), base, d)
    decreases MAX_TUNNEL_DEPTH + 1 - depth, 2
  {
    hide DecodeInnerEthernet, Push, Lift;
    if offset + 8 <= end {
      MovedU16(s, t, d, offset);
      if s[offset] / 8 % 2 != 0 {
        PushLifts(p, base, d, Vxlan);
        PushAdds(p, Vxlan);
        InnerEthernetLifts(s, t, d, offset + 8, end, Push(p, Vxlan), base, depth, n);
      }
    }
  }

  lemma {:induction false} GeneveLifts(
      s: seq<byte>, t: seq<byte>, d: nat, offset: nat, end: nat, p: Packet, base: Packet, depth: nat, n: nat)
    requires LiesAt(t, d, s) && offset <= end <= |s| && depth + n < MAX_TUNNEL_DEPTH
    requires Room(p, DecodeGeneve(s, offset, end, p, depth), depth, n, Leads(s, GeneveHop(s, offset, end)))
    ensures DecodeGeneve(t, d + offset, d + end, Lift(p, base, d), depth + n)
            == Lift(DecodeGeneve(s, offset, end, p, depth), base, d)
    decreases MAX_TUNNEL_DEPTH + 1 - depth, 3
  {
    hide DecodeInner, Push, Lift;
    if offset + 8 <= end {
      MovedU16(s, t, d, offset);
      MovedU16(s, t, d, offset + 2);
      var inner := offset + 8 + (s[offset] as int % 64) * 4;
      if s[offset] < 64 && inner <= end {
        PushLifts(p, base, d, Geneve);
        PushAdds(p, Geneve);
        InnerLifts(s, t, d, inner, end, U16(s, offset + 2), Push(p, Geneve), base, depth, n);
      }
    }
  }

  lemma {:induction false} InnerEthernetLifts(
      s: seq<byte>, t: seq<byte>, d: nat, offset: nat, end: nat, p: Packet, base: Packet, depth: nat, n: nat)
    requires LiesAt(t, d, s) && offset <= end <= |s| && depth + n < MAX_TUNNEL_DEPTH
    requires Room(p, DecodeInnerEthernet(s, offset, end, p, depth), depth + 1, n, Leads(s, EthernetHop(s, offset, end)))
    ensures DecodeInnerEthernet(t, d + offset, d + end, Lift(p, base, d), depth + n)
            == Lift(DecodeInnerEthernet(s, offset, end, p, depth), base, d)
    decreases MAX_TUNNEL_DEPTH + 1 - depth, 1
  {
    hide DecodeNetwork, EthernetFrame, Lift, Room;
    MovedEthernetFrame(s, t, d, offset, end);
    if offset < end {
      var f := EthernetFrame(s, offset, end);
      if f.Some? {
        NetworkLifts(s, t, d, f.value.offset, end, f.value.etherType, p, base, depth + 1, n);
      }
    }
  }

  lemma {:induction false} InnerLifts(
      s: seq<byte>, t: seq<byte>, d: nat, offset: nat, end: nat, innerType: nat, p: Packet, base: Packet, depth: nat, n: nat)
    requires LiesAt(t, d, s) && offset <= end <= |s| && depth + n < MAX_TUNNEL_DEPTH
    requires Room(p, DecodeInner(s, offset, end, innerType, p, depth), depth + 1, n, Leads(s, InnerHop(s, offset, end, innerType)))
    ensures DecodeInner(t, d + offset, d + end, innerType, Lift(p, base, d), depth + n)
            == Lift(DecodeInner(s, offset, end, innerType, p, depth), base, d)
    decreases MAX_TUNNEL_DEPTH + 1 - depth, 2
  {
    hide DecodeInnerEthernet, DecodeNetwork, Lift, Room;
    if innerType == ETH_BRIDGE {
      InnerEthernetLifts(s, t, d, offset, end, p, base, depth, n);
    } else if innerType == ETH_IPV4 || innerType == ETH_IPV6 {
      NetworkLifts(s, t, d, offset, end, innerType, p, base, depth + 1, n);
    }
  }

  lemma {:induction false} GreLifts(
      s: seq<byte>, t: seq<byte>, d: nat, offset: nat, end: nat, p: Packet, base: Packet, depth: nat, n: nat)
    requires LiesAt(t, d, s) && offset <= end <= |s| && depth + n < MAX_TUNNEL_DEPTH
    requires Room(p, DecodeGre(s, offset, end, p, depth), depth, n, Leads(s, GreHop(s, offset, end)))
    ensures DecodeGre(t, d + offset, d + end, Lift(p, base, d), depth + n)
            == Lift(DecodeGre(s, offset, end, p, depth), base, d)
    decreases MAX_TUNNEL_DEPTH + 1 - depth, 3
  {
    hide DecodeInner, Push, Lift, GreLength;
    MovedGreLength(s, t, d, offset, end);
    var g := GreLength(s, offset, end);
    if g.Some? {
      MovedU16(s, t, d, offset + 2);
      PushLifts(p, base, d, GreTunnel);
      PushAdds(p, GreTunnel);
      InnerLifts(s, t, d, offset + g.value, end, U16(s, offset + 2), Push(p, GreTunnel), base, depth, n);
    }
  }

  predicate TransportEnds(s: seq<byte>, offset: nat, end: nat, protocol: byte)
    requires offset <= end <= |s|
  {
    (protocol == 47 && GreLength(s, offset, end).None?) || Leads(s, TransportHop(s, offset, end, protocol))
  }

  /** The room left for a GRE payload, before its protocol is named. */
  lemma GreRoom(s: seq<byte>, offset: nat, end: nat, p: Packet, depth: nat, n: nat)
    requires offset <= end <= |s| && depth < MAX_TUNNEL_DEPTH
    requires Room(p, DecodeTransport(s, offset, end, 47, p, depth), depth, n, TransportEnds(s, offset, end, 47))
    ensures Room(p, DecodeGre(s, offset, end, p, depth), depth, n, Leads(s, GreHop(s, offset, end)))
    ensures n > 0 ==> depth + n < MAX_TUNNEL_DEPTH
  {
    hide DecodeInner, Leads, GreLength;
  }

  /** The protocols that are only named. */
  lemma LiftNamed(p: Packet, base: Packet, d: nat, protocol: byte)
    ensures Lift(p.(protocol := Icmp), base, d) == Lift(p, base, d).(protocol := Icmp)
    ensures Lift(p.(protocol := Icmpv6), base, d) == Lift(p, base, d).(protocol := Icmpv6)
    ensures Lift(p.(protocol := Esp, encryptedTunnel := true), base, d)
            == Lift(p, base, d).(protocol := Esp, encryptedTunnel := true)
    ensures Lift(p.(protocol := NamedIp(protocol)), base, d) == Lift(p, base, d).(protocol := NamedIp(protocol))
    ensures Lift(p.(protocol := OtherIp(protocol)), base, d) == Lift(p, base, d).(protocol := OtherIp(protocol))
  {
    LiftNames(p, base, d, Icmp);
    LiftNames(p, base, d, Icmpv6);
    LiftNames(p, base, d, NamedIp(protocol));
    LiftNames(p, base, d, OtherIp(protocol));
  }

  lemma {:induction false} TransportLifts(
      s: seq<byte>, t: seq<byte>, d: nat, offset: nat, end: nat, protocol: byte, p: Packet, base: Packet, depth: nat, n: nat)
    requires LiesAt(t, d, s) && offset <= end <= |s| && depth + n <= MAX_TUNNEL_DEPTH
    requires Room(p, DecodeTransport(s, offset, end, protocol, p, depth), depth, n, TransportEnds(s, offset, end, protocol))
    ensures DecodeTransport(t, d + offset, d + end, protocol, Lift(p, base, d), depth + n)
            == Lift(DecodeTransport(s, offset, end, protocol, p, depth), base, d)
    decreases MAX_TUNNEL_DEPTH + 1 - depth, 6
  {
    hide DecodeTcp, DecodeUdp, DecodeNetwork, DecodeGre, Push, Lift, EndsAtGre, GreLength, Ungated, UdpHop, GreHop;
    if protocol == 6 {
      TcpLifts(s, t, d, offset, end, p, base);
    } else if protocol == 17 {
      UdpLifts(s, t, d, offset, end, p, base, depth, n);
    } else if protocol == 4 && depth < MAX_TUNNEL_DEPTH {
      PushLifts(p, base, d, IpInIp);
      PushAdds(p, IpInIp);
      NetworkLifts(s, t, d, offset, end, ETH_IPV4, Push(p, IpInIp), base, depth + 1, n);
    } else if protocol == 41 && depth < MAX_TUNNEL_DEPTH {
      PushLifts(p, base, d, SixInFour);
      PushAdds(p, SixInFour);
      NetworkLifts(s, t, d, offset, end, ETH_IPV6, Push(p, SixInFour), base, depth + 1, n);
    } else if protocol == 47 && depth < MAX_TUNNEL_DEPTH {
      GreRoom(s, offset, end, p, depth, n);
      GreLifts(s, t, d, offset, end, p, base, depth, n);
      LiftNames(DecodeGre(s, offset, end, p, depth), base, d, Gre);
    } else {
      LiftNamed(p, base, d, protocol);
    }
  }

  lemma {:induction false} MplsLifts(
      s: seq<byte>, t: seq<byte>, d: nat, offset: nat, end: nat, p: Packet, base: Packet, depth: nat, n: nat)
    requires LiesAt(t, d, s) && offset <= end <= |s| && depth + n <= MAX_TUNNEL_DEPTH
    requires Room(p, DecodeMpls(s, offset, end, p, depth), depth, n, Leads(s, MplsHop(s, offset, end)))
    ensures DecodeMpls(t, d + offset, d + end, Lift(p, base, d), depth + n)
            == Lift(DecodeMpls(s, offset, end, p, depth), base, d)
    decreases MAX_TUNNEL_DEPTH + 1 - depth, 6
  {
    hide DecodeNetwork, Push, Lift, MplsBottom;
    MovedMplsBottom(s, t, d, offset, end, 8);
    var b := MplsBottom(s, offset, end, 8);
    if b.Some? && b.value < end {
      assert s[b.value] == t[d + b.value];
      if s[b.value] / 16 == 4 || s[b.value] / 16 == 6 {
        PushLifts(p, base, d, MplsTunnel);
        PushAdds(p, MplsTunnel);
        NetworkLifts(s, t, d, b.value, end, if s[b.value] / 16 == 4 then ETH_IPV4 else ETH_IPV6,
                     Push(p, MplsTunnel), base, depth + 1, n);
      }
    }
  }

  lemma {:induction false} PppoeLifts(
      s: seq<byte>, t: seq<byte>, d: nat, offset: nat, end: nat, p: Packet, base: Packet, depth: nat, n: nat)
    requires LiesAt(t, d, s) && offset <= end <= |s| && depth + n <= MAX_TUNNEL_DEPTH
    requires Room(p, DecodePppoe(s, offset, end, p, depth), depth, n, Leads(s, PppoeHop(s, offset, end)))
    ensures DecodePppoe(t, d + offset, d + end, Lift(p, base, d), depth + n)
            == Lift(DecodePppoe(s, offset, end, p, depth), base, d)
    decreases MAX_TUNNEL_DEPTH + 1 - depth, 6
  {
    hide DecodeNetwork, Push, Lift;
    if offset + 8 <= end {
      MovedU16(s, t, d, offset + 6);
      if U16(s, offset + 6) == 0x0021 || U16(s, offset + 6) == 0x0057 {
        PushLifts(p, base, d, PppoeTunnel);
        PushAdds(p, PppoeTunnel);
        NetworkLifts(s, t, d, offset + 8, end, if U16(s, offset + 6) == 0x0021 then ETH_IPV4 else ETH_IPV6,
                     Push(p, PppoeTunnel), base, depth + 1, n);
      }
    }
  }

  lemma {:induction false} IpLifts(
      s: seq<byte>, t: seq<byte>, d: nat, h: IpHeader, p: Packet, base: Packet, depth: nat, n: nat)
    requires LiesAt(t, d, s) && h.start <= h.stop <= |s| && depth + n <= MAX_TUNNEL_DEPTH
    requires Room(p, DecodeIp(s, h, p, depth), depth, n, UnreadGre(s, h) || Leads(s, IpHop(s, h)))
    ensures DecodeIp(t, MovedHeader(h, d), Lift(p, base, d), depth + n) == Lift(DecodeIp(s, h, p, depth), base, d)
    decreases MAX_TUNNEL_DEPTH + 1 - depth, 7
  {
    hide DecodeTransport, Lift;
    LiftAddresses(p, base, d, h.src, h.dst);
    LiftNames(p.(srcIP := h.src, dstIP := h.dst), base, d, Ipv4Fragment);
    if !h.fragment {
      TransportLifts(s, t, d, h.start, h.stop, h.protocol, p.(srcIP := h.src, dstIP := h.dst), base, depth, n);
    }
  }

  /**
    Decoding commutes with moving the packet, hanging it under other carriers and
    starting deeper, as long as the tunnels inside it still fit the depth budget;
    with n == 0, always. In particular no byte outside the packet's window matters.
  */
  lemma {:induction false} NetworkLifts(
      s: seq<byte>, t: seq<byte>, d: nat, offset: nat, end: nat, etherType: nat, p: Packet, base: Packet, depth: nat, n: nat)
    requires LiesAt(t, d, s) && offset <= end <= |s| && depth + n <= MAX_TUNNEL_DEPTH + 1
    requires Room(p, DecodeNetwork(s, offset, end, etherType, p, depth), depth, n, EndsAtGre(s, offset, end, etherType))
    ensures DecodeNetwork(t, d + offset, d + end, etherType, Lift(p, base, d), depth + n)
            == Lift(DecodeNetwork(s, offset, end, etherType, p, depth), base, d)
    decreases MAX_TUNNEL_DEPTH + 1 - depth, 8
  {
    hide DecodeMpls, DecodePppoe, DecodeIp, DecodeArp, IpHeaderAt, Lift;
    var r := DecodeNetwork(s, offset, end, etherType, p, depth);
    assert |p.tunnel| <= |r.tunnel|;
    if depth + n <= MAX_TUNNEL_DEPTH {
      if etherType == ETH_MPLS_UNI || etherType == ETH_MPLS_MUL {
        MplsLifts(s, t, d, offset, end, p, base, depth, n);
        LiftNames(DecodeMpls(s, offset, end, p, depth), base, d, Mpls);
      } else if etherType == ETH_PPPOE_SESSION {
        PppoeLifts(s, t, d, offset, end, p, base, depth, n);
        LiftNames(DecodePppoe(s, offset, end, p, depth), base, d, Pppoe);
      } else if etherType == ETH_IPV4 || etherType == ETH_IPV6 {
        MovedIpHeader(s, t, d, offset, end, etherType);
        var h := IpHeaderAt(s, offset, end, etherType);
        if h.Some? { IpLifts(s, t, d, h.value, p, base, depth, n); }
      } else if etherType == ETH_ARP {
        ArpLifts(s, t, d, offset, end, p, base);
      } else {
        LiftNames(p, base, d, NamedEther(etherType));
        LiftNames(p, base, d, NonIp);
      }
    }
  }
}
