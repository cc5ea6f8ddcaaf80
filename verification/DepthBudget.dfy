/**
  The depth budget is exactly what it seems: one level per label, and one more to
  find a GRE header unreadable. Deeper than that, a packet decodes differently.
  (src/core/ProtocolParser.cpp:399, 450-469, 491)
*/
module DepthBudget {
  import opened Bytes
  import opened Packet
  import opened Decode
  import opened Hops
  import opened DecodeLift

  // ----- hops move with the packet

  function MovedHop(hop: Option<Hop>, d: nat): Option<Hop> {
    match hop
    case None => None
    case Some(h) => Some(Hop(d + h.offset, d + h.end, h.etherType))
  }

  lemma MovedInnerHop(s: seq<byte>, t: seq<byte>, d: nat, offset: nat, end: nat, innerType: nat)
    requires LiesAt(t, d, s) && offset <= end <= |s|
    ensures EthernetHop(t, d + offset, d + end) == MovedHop(EthernetHop(s, offset, end), d)
    ensures InnerHop(t, d + offset, d + end, innerType) == MovedHop(InnerHop(s, offset, end, innerType), d)
  {
    hide EthernetFrame;
    MovedEthernetFrame(s, t, d, offset, end);
  }

  lemma MovedGreHop(s: seq<byte>, t: seq<byte>, d: nat, offset: nat, end: nat)
    requires LiesAt(t, d, s) && offset <= end <= |s|
    ensures GreHop(t, d + offset, d + end) == MovedHop(GreHop(s, offset, end), d)
  {
    hide InnerHop, GreLength;
    MovedGreLength(s, t, d, offset, end);
    var n := GreLength(s, offset, end);
    if n.Some? {
      MovedU16(s, t, d, offset + 2);
      MovedInnerHop(s, t, d, offset + n.value, end, U16(s, offset + 2));
    }
  }

  lemma MovedUdpPayloadHop(s: seq<byte>, t: seq<byte>, d: nat, offset: nat, end: nat, src: nat, dst: nat)
    requires LiesAt(t, d, s) && offset <= end <= |s|
    ensures UdpPayloadHop(t, d + offset, d + end, src, dst) == MovedHop(UdpPayloadHop(s, offset, end, src, dst), d)
  {
    hide EthernetHop, InnerHop;
    if offset + 8 <= end {
      MovedU16(s, t, d, offset);
      MovedU16(s, t, d, offset + 2);
      MovedInnerHop(s, t, d, offset + 8, end, 0);
      var inner := offset + 8 + (s[offset] as int % 64) * 4;
      if inner <= end { MovedInnerHop(s, t, d, inner, end, U16(s, offset + 2)); }
    }
  }

  lemma MovedUdpHop(s: seq<byte>, t: seq<byte>, d: nat, offset: nat, end: nat)
    requires LiesAt(t, d, s) && offset <= end <= |s|
    ensures UdpHop(t, d + offset, d + end) == MovedHop(UdpHop(s, offset, end), d)
  {
    hide UdpPayloadHop, U16;
    if offset + 8 <= end {
      MovedU16(s, t, d, offset);
      MovedU16(s, t, d, offset + 2);
      MovedU16(s, t, d, offset + 4);
      if offset + 8 < UdpEnd(s, offset, end) {
        MovedUdpPayloadHop(s, t, d, offset + 8, UdpEnd(s, offset, end), U16(s, offset), U16(s, offset + 2));
      }
    }
  }

  lemma MovedIpHop(s: seq<byte>, t: seq<byte>, d: nat, h: IpHeader)
    requires LiesAt(t, d, s) && h.start <= h.stop <= |s|
    ensures IpHop(t, MovedHeader(h, d)) == MovedHop(IpHop(s, h), d)
    ensures UnreadGre(t, MovedHeader(h, d)) == UnreadGre(s, h)
  {
    hide GreHop, UdpHop, GreLength;
    MovedGreHop(s, t, d, h.start, h.stop);
    MovedUdpHop(s, t, d, h.start, h.stop);
    MovedGreLength(s, t, d, h.start, h.stop);
  }

  lemma MovedNextHop(s: seq<byte>, t: seq<byte>, d: nat, offset: nat, end: nat, etherType: nat)
    requires LiesAt(t, d, s) && offset <= end <= |s|
    ensures NextHop(t, d + offset, d + end, etherType) == MovedHop(NextHop(s, offset, end, etherType), d)
    ensures StopsAtGre(t, d + offset, d + end, etherType) == StopsAtGre(s, offset, end, etherType)
  {
    hide IpHeaderAt, MplsBottom, IpHop, UnreadGre;
    MovedMplsBottom(s, t, d, offset, end, 8);
    var b := MplsBottom(s, offset, end, 8);
    if b.Some? && b.value < end { assert s[b.value] == t[d + b.value]; }
    if offset + 8 <= end { MovedU16(s, t, d, offset + 6); }
    MovedIpHeader(s, t, d, offset, end, etherType);
    var h := IpHeaderAt(s, offset, end, etherType);
    if h.Some? { MovedIpHop(s, t, d, h.value); }
  }

  lemma {:induction false} MovedEndsAtGre(s: seq<byte>, t: seq<byte>, d: nat, offset: nat, end: nat, etherType: nat)
    requires LiesAt(t, d, s) && offset <= end <= |s|
    ensures EndsAtGre(t, d + offset, d + end, etherType) == EndsAtGre(s, offset, end, etherType)
    ensures HopsToGre(t, d + offset, d + end, etherType) == HopsToGre(s, offset, end, etherType)
    decreases end - offset
  {
    hide NextHop, StopsAtGre, LiesAt;
    MovedNextHop(s, t, d, offset, end, etherType);
    var hop := NextHop(s, offset, end, etherType);
    if hop.Some? { MovedEndsAtGre(s, t, d, hop.value.offset, hop.value.end, hop.value.etherType); }
  }

  // ----- the decoder follows the hops

  /** What one hop did to the record before the next network layer was entered. */
  predicate Entering(p: Packet, q: Packet) {
    |q.tunnel| == |p.tunnel| + 1 && (q.protocol == p.protocol || q.protocol == Udp)
  }

  /** What decoding an inner network layer leaves to its carrier: at most to name an unknown protocol. */
  predicate Shows(r: Packet, inner: Packet) {
    r.tunnel == inner.tunnel && (inner.protocol != Unknown ==> r.protocol == inner.protocol)
  }

  function AtHop(s: seq<byte>, hop: Hop, q: Packet, depth: nat): Packet
    requires hop.offset <= hop.end <= |s| && depth <= MAX_TUNNEL_DEPTH + 1
  {
    DecodeNetwork(s, hop.offset, hop.end, hop.etherType, q, depth)
  }

  lemma InnerFollows(s: seq<byte>, offset: nat, end: nat, innerType: nat, p: Packet, depth: nat)
    requires offset <= end <= |s| && depth < MAX_TUNNEL_DEPTH
    ensures var hop := EthernetHop(s, offset, end);
            hop.Some? ==> DecodeInnerEthernet(s, offset, end, p, depth) == AtHop(s, hop.value, p, depth + 1)
    ensures var hop := InnerHop(s, offset, end, innerType);
            hop.Some? ==> DecodeInner(s, offset, end, innerType, p, depth) == AtHop(s, hop.value, p, depth + 1)
  {
    hide DecodeNetwork, EthernetFrame, Keeps;
  }

  lemma GreFollows(s: seq<byte>, offset: nat, end: nat, p: Packet, depth: nat)
    requires offset <= end <= |s| && depth < MAX_TUNNEL_DEPTH && GreHop(s, offset, end).Some?
    ensures DecodeGre(s, offset, end, p, depth)
            == AtHop(s, GreHop(s, offset, end).value, Push(p, GreTunnel), depth + 1)
  {
    hide DecodeInner, InnerHop, GreLength, AtHop, Push, Keeps;
    var n := GreLength(s, offset, end);
    InnerFollows(s, offset + n.value, end, U16(s, offset + 2), Push(p, GreTunnel), depth);
  }

  lemma UdpPayloadFollows(s: seq<byte>, offset: nat, end: nat, p: Packet, depth: nat) returns (name: Label)
    requires offset <= end <= |s| && depth < MAX_TUNNEL_DEPTH
    requires UdpPayloadHop(s, offset, end, p.srcPort, p.dstPort).Some?
    ensures DecodeUdpPayload(s, offset, end, p, depth)
            == AtHop(s, UdpPayloadHop(s, offset, end, p.srcPort, p.dstPort).value, Push(p, name), depth + 1)
  {
    hide DecodeInner, DecodeInnerEthernet, EthernetHop, InnerHop, AtHop, Push, Keeps;
    if p.dstPort == 4789 || p.srcPort == 4789 {
      name := Vxlan;
      InnerFollows(s, offset + 8, end, 0, Push(p, Vxlan), depth);
      assert DecodeUdpPayload(s, offset, end, p, depth) == DecodeVxlan(s, offset, end, p, depth);
    } else {
      name := Geneve;
      InnerFollows(s, offset + 8 + (s[offset] as int % 64) * 4, end, U16(s, offset + 2), Push(p, Geneve), depth);
      assert DecodeUdpPayload(s, offset, end, p, depth) == DecodeGeneve(s, offset, end, p, depth);
    }
  }

  lemma UdpFollows(s: seq<byte>, offset: nat, end: nat, p: Packet, depth: nat) returns (q: Packet)
    requires offset <= end <= |s| && depth < MAX_TUNNEL_DEPTH && UdpHop(s, offset, end).Some?
    ensures Entering(p, q) && DecodeUdp(s, offset, end, p, depth) == AtHop(s, UdpHop(s, offset, end).value, q, depth + 1)
  {
    hide DecodeUdpPayload, UdpPayloadHop, AtHop, Push, Keeps, U16;
    var stop := UdpEnd(s, offset, end);
    var w := p.(protocol := Udp, srcPort := U16(s, offset), dstPort := U16(s, offset + 2),
                payloadOffset := offset + 8, payloadLength := stop - (offset + 8));
    var name := UdpPayloadFollows(s, offset + 8, stop, w, depth);
    q := Push(w, name);
    PushAdds(w, name);
  }

  lemma TransportFollows(s: seq<byte>, offset: nat, end: nat, protocol: byte, p: Packet, depth: nat) returns (q: Packet)
    requires offset <= end <= |s| && depth < MAX_TUNNEL_DEPTH && TransportHop(s, offset, end, protocol).Some?
    ensures Entering(p, q)
    ensures Shows(DecodeTransport(s, offset, end, protocol, p, depth),
                  AtHop(s, TransportHop(s, offset, end, protocol).value, q, depth + 1))
  {
    hide DecodeNetwork, DecodeUdp, DecodeGre, UdpHop, GreHop, Push, Keeps;
    if protocol == 4 {
      q := Push(p, IpInIp);
      PushAdds(p, IpInIp);
    } else if protocol == 41 {
      q := Push(p, SixInFour);
      PushAdds(p, SixInFour);
    } else if protocol == 47 {
      q := Push(p, GreTunnel);
      PushAdds(p, GreTunnel);
      GreFollows(s, offset, end, p, depth);
    } else {
      q := UdpFollows(s, offset, end, p, depth);
    }
  }

  lemma NetworkFollows(s: seq<byte>, offset: nat, end: nat, etherType: nat, p: Packet, depth: nat) returns (q: Packet)
    requires offset <= end <= |s| && depth < MAX_TUNNEL_DEPTH && NextHop(s, offset, end, etherType).Some?
    ensures Entering(p, q)
    ensures Shows(DecodeNetwork(s, offset, end, etherType, p, depth),
                  AtHop(s, NextHop(s, offset, end, etherType).value, q, depth + 1))
  {
    hide DecodeTransport, TransportHop, MplsBottom, IpHeaderAt, Push, Keeps, U16;
    if etherType == ETH_MPLS_UNI || etherType == ETH_MPLS_MUL {
      q := Push(p, MplsTunnel);
      PushAdds(p, MplsTunnel);
      assert DecodeMpls(s, offset, end, p, depth) == AtHop(s, MplsHop(s, offset, end).value, q, depth + 1);
    } else if etherType == ETH_PPPOE_SESSION {
      q := Push(p, PppoeTunnel);
      PushAdds(p, PppoeTunnel);
      assert DecodePppoe(s, offset, end, p, depth) == AtHop(s, PppoeHop(s, offset, end).value, q, depth + 1);
    } else {
      var h := IpHeaderAt(s, offset, end, etherType).value;
      HeaderIsIp(s, offset, end, etherType);
      q := TransportFollows(s, h.start, h.stop, h.protocol, p.(srcIP := h.src, dstIP := h.dst), depth);
      assert DecodeNetwork(s, offset, end, etherType, p, depth) == DecodeIp(s, h, p, depth);
    }
  }

  lemma HeaderIsIp(s: seq<byte>, offset: nat, end: nat, etherType: nat)
    requires offset <= end <= |s| && IpHeaderAt(s, offset, end, etherType).Some?
    ensures etherType == ETH_IPV4 || etherType == ETH_IPV6
  {
  }

  // ----- how a chain that ends at an unreadable GRE header is reported

  lemma StopIsNamed(s: seq<byte>, offset: nat, end: nat, etherType: nat, p: Packet, depth: nat)
    requires offset <= end <= |s| && depth <= MAX_TUNNEL_DEPTH && StopsAtGre(s, offset, end, etherType)
    ensures NextHop(s, offset, end, etherType).None?
    ensures var r := DecodeNetwork(s, offset, end, etherType, p, depth);
            r.tunnel == p.tunnel
            && r.protocol == (if depth == MAX_TUNNEL_DEPTH then OtherIp(47)
                              else if p.protocol == Unknown then Gre else p.protocol)
  {
    hide IpHeaderAt, GreLength, Keeps;
    var h := IpHeaderAt(s, offset, end, etherType).value;
    var q := p.(srcIP := h.src, dstIP := h.dst);
    HeaderIsIp(s, offset, end, etherType);
    assert DecodeNetwork(s, offset, end, etherType, p, depth) == DecodeIp(s, h, p, depth);
    assert DecodeIp(s, h, p, depth) == DecodeTransport(s, h.start, h.stop, 47, q, depth);
    if depth < MAX_TUNNEL_DEPTH { assert DecodeGre(s, h.start, h.stop, q, depth) == q; }
    assert GreHop(s, h.start, h.stop).None?;
    assert IpHop(s, h).None?;
  }

  /** Within the budget the header is named GRE, or after the UDP tunnel around it; at its limit it is a number. */
  lemma {:induction false} GreEndIsNamed(s: seq<byte>, offset: nat, end: nat, etherType: nat, p: Packet, depth: nat)
    requires offset <= end <= |s| && depth <= MAX_TUNNEL_DEPTH && EndsAtGre(s, offset, end, etherType)
    requires p.protocol == Unknown || p.protocol == Udp
    ensures var r, hops := DecodeNetwork(s, offset, end, etherType, p, depth), HopsToGre(s, offset, end, etherType);
            if depth + hops > MAX_TUNNEL_DEPTH then |r.tunnel| + depth >= |p.tunnel| + MAX_TUNNEL_DEPTH
            else |r.tunnel| == |p.tunnel| + hops
                 && if depth + hops == MAX_TUNNEL_DEPTH then r.protocol == OtherIp(47)
                    else r.protocol == Gre || r.protocol == Udp
    decreases end - offset
  {
    hide DecodeNetwork, NextHop, StopsAtGre;
    if StopsAtGre(s, offset, end, etherType) {
      StopIsNamed(s, offset, end, etherType, p, depth);
    } else if depth < MAX_TUNNEL_DEPTH {
      var hop := NextHop(s, offset, end, etherType).value;
      var q := NetworkFollows(s, offset, end, etherType, p, depth);
      GreEndIsNamed(s, hop.offset, hop.end, hop.etherType, q, depth + 1);
    }
  }

  // ----- how a chain that is cut short at an MPLS or PPPoE label is reported

  /** Where the chain ends, at most the label of an opaque tunnel is added. */
  lemma InnerAddsNothing(s: seq<byte>, offset: nat, end: nat, innerType: nat, p: Packet, depth: nat)
    requires offset <= end <= |s| && depth < MAX_TUNNEL_DEPTH
    ensures EthernetHop(s, offset, end).None? ==> DecodeInnerEthernet(s, offset, end, p, depth) == p
    ensures InnerHop(s, offset, end, innerType).None? ==> DecodeInner(s, offset, end, innerType, p, depth) == p
  {
    hide DecodeNetwork, EthernetFrame, Keeps;
  }

  lemma UdpPayloadEndsChain(s: seq<byte>, offset: nat, end: nat, p: Packet, depth: nat)
    requires offset <= end <= |s| && depth < MAX_TUNNEL_DEPTH
    requires UdpPayloadHop(s, offset, end, p.srcPort, p.dstPort).None?
    ensures |DecodeUdpPayload(s, offset, end, p, depth).tunnel| <= |p.tunnel| + 1
  {
    hide DecodeInner, DecodeInnerEthernet, EthernetHop, InnerHop, Push, Keeps;
    PushAdds(p, Vxlan);
    PushAdds(p, Geneve);
    if offset + 8 <= end {
      InnerAddsNothing(s, offset + 8, end, 0, Push(p, Vxlan), depth);
      var inner := offset + 8 + (s[offset] as int % 64) * 4;
      if inner <= end { InnerAddsNothing(s, inner, end, U16(s, offset + 2), Push(p, Geneve), depth); }
    }
  }

  lemma UdpEndsChain(s: seq<byte>, offset: nat, end: nat, p: Packet, depth: nat)
    requires offset <= end <= |s| && depth < MAX_TUNNEL_DEPTH && UdpHop(s, offset, end).None?
    ensures |DecodeUdp(s, offset, end, p, depth).tunnel| <= |p.tunnel| + 1
  {
    hide DecodeUdpPayload, UdpPayloadHop, Keeps, U16;
    if offset + 8 <= end && offset + 8 < UdpEnd(s, offset, end) {
      var stop := UdpEnd(s, offset, end);
      UdpPayloadEndsChain(s, offset + 8, stop,
                          p.(protocol := Udp, srcPort := U16(s, offset), dstPort := U16(s, offset + 2),
                             payloadOffset := offset + 8, payloadLength := stop - (offset + 8)), depth);
    }
  }

  lemma GreEndsChain(s: seq<byte>, offset: nat, end: nat, p: Packet, depth: nat)
    requires offset <= end <= |s| && depth < MAX_TUNNEL_DEPTH && GreHop(s, offset, end).None?
    ensures |DecodeGre(s, offset, end, p, depth).tunnel| <= |p.tunnel| + 1
  {
    hide DecodeInner, InnerHop, GreLength, Push, Keeps, U16;
    PushAdds(p, GreTunnel);
    var n := GreLength(s, offset, end);
    if n.Some? { InnerAddsNothing(s, offset + n.value, end, U16(s, offset + 2), Push(p, GreTunnel), depth); }
  }

  lemma TransportEndsChain(s: seq<byte>, offset: nat, end: nat, protocol: byte, p: Packet, depth: nat)
    requires offset <= end <= |s| && depth < MAX_TUNNEL_DEPTH && TransportHop(s, offset, end, protocol).None?
    ensures |DecodeTransport(s, offset, end, protocol, p, depth).tunnel| <= |p.tunnel| + 1
  {
    hide DecodeNetwork, DecodeUdp, DecodeGre, UdpHop, GreHop, Keeps, U16;
    if protocol == 47 {
      GreEndsChain(s, offset, end, p, depth);
    } else if protocol == 17 {
      UdpEndsChain(s, offset, end, p, depth);
    }
  }

  lemma NetworkEndsChain(s: seq<byte>, offset: nat, end: nat, etherType: nat, p: Packet, depth: nat)
    requires offset <= end <= |s| && depth < MAX_TUNNEL_DEPTH && NextHop(s, offset, end, etherType).None?
    ensures |DecodeNetwork(s, offset, end, etherType, p, depth).tunnel| <= |p.tunnel| + 1
  {
    hide DecodeTransport, TransportHop, MplsBottom, IpHeaderAt, Push, Keeps, U16;
    var h := IpHeaderAt(s, offset, end, etherType);
    if h.Some? {
      HeaderIsIp(s, offset, end, etherType);
      if !h.value.fragment {
        TransportEndsChain(s, h.value.start, h.value.stop, h.value.protocol,
                           p.(srcIP := h.value.src, dstIP := h.value.dst), depth);
      }
    }
  }

  lemma PlainAddsNoLabel(s: seq<byte>, offset: nat, end: nat, p: Packet)
    requires offset <= end <= |s|
    ensures DecodeTcp(s, offset, end, p).tunnel == p.tunnel
    ensures DecodeUdp(s, offset, end, p, MAX_TUNNEL_DEPTH).tunnel == p.tunnel
  {
    hide UdpEnd, Keeps, U16, U32, DecodeVxlan, DecodeGeneve;
  }

  lemma NoLabelAtLimit(s: seq<byte>, offset: nat, end: nat, protocol: byte, p: Packet)
    requires offset <= end <= |s|
    ensures DecodeTransport(s, offset, end, protocol, p, MAX_TUNNEL_DEPTH).tunnel == p.tunnel
  {
    hide DecodeNetwork, DecodeGre, DecodeTcp, DecodeUdp, Keeps;
    PlainAddsNoLabel(s, offset, end, p);
  }

  lemma IpAtLimit(s: seq<byte>, h: IpHeader, p: Packet)
    requires h.start <= h.stop <= |s|
    ensures DecodeIp(s, h, p, MAX_TUNNEL_DEPTH).tunnel == p.tunnel
  {
    hide DecodeTransport, Keeps;
    NoLabelAtLimit(s, h.start, h.stop, h.protocol, p.(srcIP := h.src, dstIP := h.dst));
  }

  lemma LabelAtLimit(s: seq<byte>, offset: nat, end: nat, p: Packet)
    requires offset <= end <= |s|
    ensures DecodeMpls(s, offset, end, p, MAX_TUNNEL_DEPTH).protocol == p.protocol
    ensures DecodePppoe(s, offset, end, p, MAX_TUNNEL_DEPTH).protocol == p.protocol
  {
    hide MplsBottom, Keeps, U16, DecodeIp, DecodeArp, IpHeaderAt;
  }

  /** At the last level a label is pushed and nothing behind it is read. */
  lemma LastLevelIsNamed(s: seq<byte>, offset: nat, end: nat, etherType: nat, p: Packet)
    requires offset <= end <= |s| && (p.protocol == Unknown || p.protocol == Udp)
    requires |DecodeNetwork(s, offset, end, etherType, p, MAX_TUNNEL_DEPTH).tunnel| > |p.tunnel|
    ensures DecodeNetwork(s, offset, end, etherType, p, MAX_TUNNEL_DEPTH).protocol in {Mpls, Pppoe, Udp}
  {
    hide IpHeaderAt, DecodeIp, DecodeMpls, DecodePppoe, Keeps;
    LabelAtLimit(s, offset, end, p);
    var h := IpHeaderAt(s, offset, end, etherType);
    if h.Some? {
      HeaderIsIp(s, offset, end, etherType);
      IpAtLimit(s, h.value, p);
    }
  }

  /** One label more than there are levels: the packet behind it stays unread. */
  lemma {:induction false} OverflowIsNamed(s: seq<byte>, offset: nat, end: nat, etherType: nat, p: Packet, depth: nat)
    requires offset <= end <= |s| && depth <= MAX_TUNNEL_DEPTH && (p.protocol == Unknown || p.protocol == Udp)
    requires |DecodeNetwork(s, offset, end, etherType, p, depth).tunnel| + depth > |p.tunnel| + MAX_TUNNEL_DEPTH
    ensures Ungated(DecodeNetwork(s, offset, end, etherType, p, depth).tunnel)
    ensures DecodeNetwork(s, offset, end, etherType, p, depth).protocol in {Mpls, Pppoe, Udp}
    decreases end - offset
  {
    hide DecodeNetwork, NextHop;
    if depth == MAX_TUNNEL_DEPTH {
      LastLevelIsNamed(s, offset, end, etherType, p);
    } else {
      var hop := NextHop(s, offset, end, etherType);
      if hop.None? {
        NetworkEndsChain(s, offset, end, etherType, p, depth);
      } else {
        var q := NetworkFollows(s, offset, end, etherType, p, depth);
        OverflowIsNamed(s, hop.value.offset, hop.value.end, hop.value.etherType, q, depth + 1);
      }
    }
  }

  // ----- the budget is exact

  /** The last label is MPLS or PPPoE, and the record may say no more than that. */
  predicate LabelOnly(r: Packet) {
    Ungated(r.tunnel) && r.protocol in {Mpls, Pppoe, Udp}
  }

  lemma LastLabel(a: seq<Label>, b: seq<Label>)
    requires b != []
    ensures Ungated(a + b) == Ungated(b)
  {
  }

  /** Beyond the budget the labels or the protocol give it away. */
  lemma OverBudget(
      s: seq<byte>, t: seq<byte>, d: nat, offset: nat, end: nat, etherType: nat, p: Packet, base: Packet, depth: nat, n: nat)
    requires LiesAt(t, d, s) && offset <= end <= |s| && depth + n <= MAX_TUNNEL_DEPTH && p.protocol == Unknown
    requires var r := DecodeNetwork(s, offset, end, etherType, p, depth);
             && (|r.tunnel| > |p.tunnel| ==> !LabelOnly(r))
             && !Room(p, r, depth, n, EndsAtGre(s, offset, end, etherType))
    ensures var r := DecodeNetwork(s, offset, end, etherType, p, depth);
            var deeper := DecodeNetwork(t, d + offset, d + end, etherType, Lift(p, base, d), depth + n);
            deeper.tunnel != base.tunnel + r.tunnel || (deeper.protocol != Unknown && deeper.protocol != r.protocol)
  {
    hide DecodeNetwork, EndsAtGre, HopsToGre;
    var r := DecodeNetwork(s, offset, end, etherType, p, depth);
    var lifted := Lift(p, base, d);
    var deeper := DecodeNetwork(t, d + offset, d + end, etherType, lifted, depth + n);
    if |r.tunnel| + depth + n > |p.tunnel| + MAX_TUNNEL_DEPTH {
      LastLabel(base.tunnel, r.tunnel);
      if |deeper.tunnel| + depth + n > |lifted.tunnel| + MAX_TUNNEL_DEPTH {
        OverflowIsNamed(t, d + offset, d + end, etherType, lifted, depth + n);
        assert deeper.protocol in {Mpls, Pppoe, Udp};
      } else {
        assert |deeper.tunnel| < |base.tunnel + r.tunnel|;
      }
    } else {
      MovedEndsAtGre(s, t, d, offset, end, etherType);
      GreEndIsNamed(s, offset, end, etherType, p, depth);
      GreEndIsNamed(t, d + offset, d + end, etherType, lifted, depth + n);
    }
  }

  /**
    Deeper by `n` levels a packet decodes the same if and only if `n` levels are
    left. (A last label of MPLS or PPPoE looks one level further: the record of a
    packet that is no more than that label may fit there, too.)
  */
  lemma LiftsIffRoom(
      s: seq<byte>, t: seq<byte>, d: nat, offset: nat, end: nat, etherType: nat, p: Packet, base: Packet, depth: nat, n: nat)
    requires LiesAt(t, d, s) && offset <= end <= |s| && depth + n <= MAX_TUNNEL_DEPTH && p.protocol == Unknown
    requires var r := DecodeNetwork(s, offset, end, etherType, p, depth); |r.tunnel| > |p.tunnel| ==> !LabelOnly(r)
    ensures var r := DecodeNetwork(s, offset, end, etherType, p, depth);
            DecodeNetwork(t, d + offset, d + end, etherType, Lift(p, base, d), depth + n) == Lift(r, base, d)
            <==> Room(p, r, depth, n, EndsAtGre(s, offset, end, etherType))
  {
    hide DecodeNetwork, EndsAtGre, LiesAt, Room, LabelOnly;
    if Room(p, DecodeNetwork(s, offset, end, etherType, p, depth), depth, n, EndsAtGre(s, offset, end, etherType)) {
      NetworkLifts(s, t, d, offset, end, etherType, p, base, depth, n);
    } else {
      OverBudget(s, t, d, offset, end, etherType, p, base, depth, n);
    }
  }
}
