/**
  Tunnels over UDP (src/core/ProtocolParser.cpp:284-312, 377-409). The record
  already holds the outer datagram's ports and payload window when the inner frame
  is decoded, so encapsulation is transparent exactly when the inner packet brings
  a payload of its own.
*/
module UdpTunnels {
  import opened Bytes
  import opened Packet
  import opened Decode
  import opened Hops
  import opened DecodeLift
  import opened Transparency
  import opened DecodeRoundTrip

  /** The outer datagram, as the record has it when its tunnel is entered. */
  function Outer(p: Packet, source: port, destination: port, offset: nat, length: nat): Packet {
    p.(protocol := Udp, srcPort := source, dstPort := destination, payloadOffset := offset, payloadLength := length)
  }

  /** The inner packet carries a complete TCP or UDP header, so it brings its own ports. */
  predicate BringsPorts(t: seq<byte>, h: IpHeader)
    requires h.start <= h.stop <= |t|
  {
    !h.fragment
    && ((h.protocol == 6 && h.start + 20 <= h.stop) || (h.protocol == 17 && h.start + 8 <= h.stop))
  }

  /** Bytes follow that header, as far as the length fields and the capture reach. */
  predicate BringsPayload(t: seq<byte>, h: IpHeader)
    requires h.start <= h.stop <= |t|
  {
    BringsPorts(t, h)
    && if h.protocol == 6 then 20 <= (t[h.start + 12] as int / 16) * 4 < h.stop - h.start
       else h.start + 8 < UdpEnd(t, h.start, h.stop)
  }

  /**
    What the outer datagram leaves in the record of the inner packet: its ports
    where the inner has none, its payload window where the inner has none, and its
    protocol in place of the name GRE, which is given to an unknown protocol only.
  */
  function Beneath(alone: Packet, source: port, destination: port, offset: nat, length: nat, ports: bool, payload: bool)
    : Packet
  {
    alone.(srcPort := if ports then alone.srcPort else source,
           dstPort := if ports then alone.dstPort else destination,
           payloadOffset := if payload then alone.payloadOffset else offset,
           payloadLength := if payload then alone.payloadLength else length,
           protocol := if alone.protocol == Gre then Udp else alone.protocol)
  }

  /** The whole record of an inner packet that holds no tunnel, below an outer datagram. */
  lemma InnerHidesOuter(
      t: seq<byte>, h: IpHeader, q: Packet, source: port, destination: port, offset: nat, length: nat, depth: nat)
    requires h.start <= h.stop <= |t| && depth <= MAX_TUNNEL_DEPTH && Fresh(q)
    requires DecodeIp(t, h, q, depth).tunnel == q.tunnel
    ensures var alone := DecodeIp(t, h, q, depth);
            && DecodeIp(t, h, Outer(q, source, destination, offset, length), depth)
               == Beneath(alone, source, destination, offset, length, BringsPorts(t, h), BringsPayload(t, h))
            && (alone.payloadLength > 0 <==> BringsPayload(t, h))
            && (alone.payloadLength > 0 ==> alone.protocol != Gre)
  {
    hide DecodeTransport;
    if !h.fragment {
      TransportHidesOuter(t, h, q.(srcIP := h.src, dstIP := h.dst), source, destination, offset, length, depth);
    }
  }

  lemma TransportHidesOuter(
      t: seq<byte>, h: IpHeader, q: Packet, source: port, destination: port, offset: nat, length: nat, depth: nat)
    requires h.start <= h.stop <= |t| && depth <= MAX_TUNNEL_DEPTH && Fresh(q) && !h.fragment
    requires DecodeTransport(t, h.start, h.stop, h.protocol, q, depth).tunnel == q.tunnel
    ensures var alone := DecodeTransport(t, h.start, h.stop, h.protocol, q, depth);
            && DecodeTransport(t, h.start, h.stop, h.protocol, Outer(q, source, destination, offset, length), depth)
               == Beneath(alone, source, destination, offset, length, BringsPorts(t, h), BringsPayload(t, h))
            && (alone.payloadLength > 0 <==> BringsPayload(t, h))
            && (alone.payloadLength > 0 ==> alone.protocol != Gre)
  {
    hide DecodeTcp, DecodeUdp, DecodeTransport, Outer, Fresh, Beneath, UdpEnd;
    if h.protocol == 6 {
      TcpHidesOuter(t, h, q, source, destination, offset, length, depth);
    } else if h.protocol == 17 {
      UdpHidesOuter(t, h, q, source, destination, offset, length, depth);
    } else {
      OtherShowsOuter(t, h, q, source, destination, offset, length, depth);
    }
  }

  lemma TcpHidesOuter(
      t: seq<byte>, h: IpHeader, q: Packet, source: port, destination: port, offset: nat, length: nat, depth: nat)
    requires h.start <= h.stop <= |t| && depth <= MAX_TUNNEL_DEPTH && Fresh(q) && !h.fragment && h.protocol == 6
    ensures var alone := DecodeTransport(t, h.start, h.stop, h.protocol, q, depth);
            && DecodeTransport(t, h.start, h.stop, h.protocol, Outer(q, source, destination, offset, length), depth)
               == Beneath(alone, source, destination, offset, length, BringsPorts(t, h), BringsPayload(t, h))
            && (alone.payloadLength > 0 <==> BringsPayload(t, h))
            && (alone.payloadLength > 0 ==> alone.protocol != Gre)
  {
    hide U16, U32;
  }

  lemma UdpHidesOuter(
      t: seq<byte>, h: IpHeader, q: Packet, source: port, destination: port, offset: nat, length: nat, depth: nat)
    requires h.start <= h.stop <= |t| && depth <= MAX_TUNNEL_DEPTH && Fresh(q) && !h.fragment && h.protocol == 17
    requires DecodeTransport(t, h.start, h.stop, h.protocol, q, depth).tunnel == q.tunnel
    ensures var alone := DecodeTransport(t, h.start, h.stop, h.protocol, q, depth);
            && DecodeTransport(t, h.start, h.stop, h.protocol, Outer(q, source, destination, offset, length), depth)
               == Beneath(alone, source, destination, offset, length, BringsPorts(t, h), BringsPayload(t, h))
            && (alone.payloadLength > 0 <==> BringsPayload(t, h))
            && (alone.payloadLength > 0 ==> alone.protocol != Gre)
  {
    hide U16, DecodeUdpPayload, UdpEnd, Keeps, DecodeNetwork, DecodeTcp, DecodeGre, Push;
    if h.start + 8 <= h.stop && h.start + 8 < UdpEnd(t, h.start, h.stop) {
      var stop := UdpEnd(t, h.start, h.stop);
      var w := q.(protocol := Udp, srcPort := U16(t, h.start), dstPort := U16(t, h.start + 2),
                  payloadOffset := h.start + 8, payloadLength := stop - (h.start + 8));
      PayloadAddsNothing(t, h.start + 8, stop, w, depth);
    }
  }

  /** Every other protocol leaves ports and window alone; an unreadable GRE header leaves the protocol, too. */
  lemma OtherShowsOuter(
      t: seq<byte>, h: IpHeader, q: Packet, source: port, destination: port, offset: nat, length: nat, depth: nat)
    requires h.start <= h.stop <= |t| && depth <= MAX_TUNNEL_DEPTH && Fresh(q)
    requires h.protocol != 6 && h.protocol != 17
    requires DecodeTransport(t, h.start, h.stop, h.protocol, q, depth).tunnel == q.tunnel
    ensures var alone := DecodeTransport(t, h.start, h.stop, h.protocol, q, depth);
            && DecodeTransport(t, h.start, h.stop, h.protocol, Outer(q, source, destination, offset, length), depth)
               == Beneath(alone, source, destination, offset, length, false, false)
            && alone.payloadLength == 0
  {
    hide DecodeNetwork, DecodeGre, DecodeTcp, DecodeUdp, Push;
    var p := Outer(q, source, destination, offset, length);
    PushAdds(q, IpInIp);
    PushAdds(q, SixInFour);
    if h.protocol == 47 && depth < MAX_TUNNEL_DEPTH {
      GreAddsNothing(t, h.start, h.stop, q, depth);
      GreAddsNothing(t, h.start, h.stop, p, depth);
    }
  }

  lemma PayloadAddsNothing(t: seq<byte>, offset: nat, end: nat, w: Packet, depth: nat)
    requires offset <= end <= |t| && depth <= MAX_TUNNEL_DEPTH
    requires DecodeUdpPayload(t, offset, end, w, depth).tunnel == w.tunnel
    ensures DecodeUdpPayload(t, offset, end, w, depth) == w
  {
    hide DecodeInnerEthernet, DecodeInner;
  }

  /** GRE either adds a label or leaves the record alone. */
  lemma GreAddsNothing(t: seq<byte>, offset: nat, end: nat, w: Packet, depth: nat)
    requires offset <= end <= |t| && depth < MAX_TUNNEL_DEPTH
    ensures DecodeGre(t, offset, end, w, depth).tunnel == w.tunnel <==> GreLength(t, offset, end).None?
    ensures GreLength(t, offset, end).None? ==> DecodeGre(t, offset, end, w, depth) == w
  {
    hide DecodeInner, GreLength;
  }

  // ----- whole datagrams

  /** The frame a tunnel of this EtherType carries holds an IP packet at `at`. */
  predicate HoldsIp(frame: seq<byte>, outerType: nat, at: nat, innerType: nat) {
    && at <= |frame| && IpHeaderAt(frame, at, |frame|, innerType).Some?
    && (if outerType == ETH_BRIDGE then EthernetFrame(frame, 0, |frame|) == Some(Frame(at, innerType))
        else at == 0 && outerType == innerType)
  }

  /** The inner packet, decoded as if nothing carried it. */
  function Alone(frame: seq<byte>, at: nat, innerType: nat, p: Packet): Packet
    requires at <= |frame|
  {
    DecodeNetwork(frame, at, |frame|, innerType, Start(p.timestamp, p.length), 0)
  }

  /** The levels that an inner packet without tunnels needs of its own: one, to find a GRE header unreadable. */
  function Own(frame: seq<byte>, at: nat, innerType: nat): nat
    requires at <= |frame|
  {
    if EndsAtGre(frame, at, |frame|, innerType) then 1 else 0
  }

  /** The inner packet's IP header. */
  function InnerHeader(frame: seq<byte>, at: nat, innerType: nat): (h: IpHeader)
    requires at <= |frame| && IpHeaderAt(frame, at, |frame|, innerType).Some?
    ensures h.start <= h.stop <= |frame|
  {
    IpHeaderAt(frame, at, |frame|, innerType).value
  }

  /** What a datagram's tunnel leads to: the inner packet's record, moved and labelled, with what the outer datagram leaves in it. */
  function Revealed(frame: seq<byte>, at: nat, innerType: nat, base: Packet, d: nat,
                    source: port, destination: port, offset: nat, length: nat): Packet
    requires at <= |frame| && IpHeaderAt(frame, at, |frame|, innerType).Some?
  {
    var h := InnerHeader(frame, at, innerType);
    Beneath(Lift(Alone(frame, at, innerType, base), base, d), source, destination, offset, length,
            BringsPorts(frame, h), BringsPayload(frame, h))
  }

  lemma MovedBrings(s: seq<byte>, t: seq<byte>, d: nat, h: IpHeader)
    requires LiesAt(t, d, s) && h.start <= h.stop <= |s|
    ensures BringsPorts(t, MovedHeader(h, d)) == BringsPorts(s, h)
    ensures BringsPayload(t, MovedHeader(h, d)) == BringsPayload(s, h)
  {
    hide U16;
    if h.start + 20 <= h.stop { MovedU16(s, t, d, h.start + 12); }
    if h.start + 8 <= h.stop { MovedU16(s, t, d, h.start + 4); }
  }

  /** The outer datagram leaves no trace exactly in packets that bring a payload. */
  lemma RevealedIsLifted(frame: seq<byte>, at: nat, innerType: nat, base: Packet, d: nat,
                         source: port, destination: port, offset: nat, length: nat)
    requires at <= |frame| && IpHeaderAt(frame, at, |frame|, innerType).Some? && length > 0
    requires var alone := Alone(frame, at, innerType, base);
             && (alone.payloadLength > 0 <==> BringsPayload(frame, InnerHeader(frame, at, innerType)))
             && (alone.payloadLength > 0 ==> alone.protocol != Gre)
    ensures Revealed(frame, at, innerType, base, d, source, destination, offset, length)
            == Lift(Alone(frame, at, innerType, base), base, d)
       <==> BringsPayload(frame, InnerHeader(frame, at, innerType))
  {
    hide Alone, InnerHeader, UdpEnd;
  }

  lemma InnerIsRevealed(
      t: seq<byte>, d: nat, frame: seq<byte>, outerType: nat, at: nat, innerType: nat, base: Packet,
      source: port, destination: port, offset: nat, length: nat, depth: nat)
    requires LiesAt(t, d, frame) && HoldsIp(frame, outerType, at, innerType) && Fresh(base)
    requires depth < MAX_TUNNEL_DEPTH
    requires var alone := Alone(frame, at, innerType, base);
             alone.tunnel == [] && depth + 1 + Own(frame, at, innerType) <= MAX_TUNNEL_DEPTH
    ensures DecodeInner(t, d, d + |frame|, outerType, Outer(base, source, destination, offset, length), depth)
            == Revealed(frame, at, innerType, base, d, source, destination, offset, length)
    ensures length > 0 ==>
              (Revealed(frame, at, innerType, base, d, source, destination, offset, length)
               == Lift(Alone(frame, at, innerType, base), base, d)
               <==> BringsPayload(frame, InnerHeader(frame, at, innerType)))
  {
    hide DecodeIp, IpHeaderAt, EthernetFrame, Lift, Outer, Fresh, Beneath, BringsPorts, BringsPayload, EndsAtGre, LiesAt, Keeps,
      DecodeMpls, DecodePppoe;
    var start := Start(base.timestamp, base.length);
    var p := Outer(base, source, destination, offset, length);
    var h := MovedHeader(InnerHeader(frame, at, innerType), d);
    HeaderKnown(frame, at, innerType);
    LiesWithin(t, d, frame);
    MovedIpHeader(frame, t, d, at, |frame|, innerType);
    MovedEthernetFrame(frame, t, d, 0, |frame|);
    MovedBrings(frame, t, d, InnerHeader(frame, at, innerType));
    NetworkLifts(frame, t, d, at, |frame|, innerType, start, base, 0, depth + 1);
    HeaderOverwrites(t, h, base, depth + 1, d);
    assert DecodeIp(t, h, base, depth + 1) == Lift(Alone(frame, at, innerType, base), base, d);
    LiftTunnel(Alone(frame, at, innerType, base), base, d);
    InnerHidesOuter(t, h, base, source, destination, offset, length, depth + 1);
    assert DecodeNetwork(t, d + at, d + |frame|, innerType, p, depth + 1) == DecodeIp(t, h, p, depth + 1);
    if length > 0 {
      RevealedIsLifted(frame, at, innerType, base, d, source, destination, offset, length);
    }
  }

  lemma HeaderKnown(frame: seq<byte>, at: nat, innerType: nat)
    requires at <= |frame| && IpHeaderAt(frame, at, |frame|, innerType).Some?
    ensures at < |frame| && (innerType == ETH_IPV4 || innerType == ETH_IPV6)
  {
  }

  lemma LiftTunnel(alone: Packet, base: Packet, d: nat)
    ensures Lift(alone, base, d).tunnel == base.tunnel + alone.tunnel
    ensures Lift(alone, base, d).payloadLength == alone.payloadLength && Lift(alone, base, d).protocol == alone.protocol
  {
  }

  /** A datagram to a tunnel port: UDP header, tunnel header, frame. */
  ghost predicate Datagram(t: seq<byte>, at: nat, end: nat, source: port, destination: port, checksum: port,
                           header: seq<byte>, frame: seq<byte>) {
    && |header| + |frame| < 0x1_0000 - 8
    && at + 8 + |header| + |frame| <= end <= |t|
    && LiesAt(t, at, UdpBytes(source, destination, 8 + |header| + |frame|, checksum))
    && LiesAt(t, at + 8, header) && LiesAt(t, at + 8 + |header|, frame)
  }

  lemma UdpHeaderIsRead(
      t: seq<byte>, at: nat, end: nat, source: port, destination: port, checksum: port, length: nat, p: Packet, depth: nat)
    requires 0 < length < 0x1_0000 - 8 && at + 8 + length <= end <= |t| && depth <= MAX_TUNNEL_DEPTH
    requires LiesAt(t, at, UdpBytes(source, destination, 8 + length, checksum))
    ensures DecodeUdp(t, at, end, p, depth)
            == DecodeUdpPayload(t, at + 8, at + 8 + length, Outer(p, source, destination, at + 8, length), depth)
  {
    hide DecodeUdpPayload, U16, UdpBytes;
    var h := UdpBytes(source, destination, 8 + length, checksum);
    UdpFields(source, destination, 8 + length, checksum);
    MovedU16(h, t, at, 0);
    MovedU16(h, t, at, 2);
    MovedU16(h, t, at, 4);
  }

  lemma UdpFields(source: port, destination: port, length: port, checksum: port)
    ensures var h := UdpBytes(source, destination, length, checksum);
            U16(h, 0) == source && U16(h, 2) == destination && U16(h, 4) == length
  {
  }

  lemma PushOuter(p: Packet, name: Label, source: port, destination: port, offset: nat, length: nat)
    requires Fresh(p) && (p.srcIP == [] ==> p.outerSrcIP != [] || p.dstIP == [])
    ensures Push(Outer(p, source, destination, offset, length), name)
            == Outer(Push(p, name), source, destination, offset, length)
    ensures Fresh(Push(p, name)) && Push(p, name).timestamp == p.timestamp && Push(p, name).length == p.length
  {
  }

  lemma VxlanIsOpened(t: seq<byte>, at: nat, stop: nat, header: seq<byte>, u: Packet, depth: nat)
    requires LiesAt(t, at, header) && |header| == 8 && at + 8 <= stop <= |t| && header[0] / 8 % 2 == 1
    requires (u.srcPort == 4789 || u.dstPort == 4789) && depth < MAX_TUNNEL_DEPTH
    ensures DecodeUdpPayload(t, at, stop, u, depth) == DecodeInner(t, at + 8, stop, ETH_BRIDGE, Push(u, Vxlan), depth)
  {
    hide DecodeInnerEthernet, Push;
    MovedU16(header, t, at, 0);
    assert DecodeUdpPayload(t, at, stop, u, depth) == DecodeVxlan(t, at, stop, u, depth);
    assert DecodeInner(t, at + 8, stop, ETH_BRIDGE, Push(u, Vxlan), depth)
        == DecodeInnerEthernet(t, at + 8, stop, Push(u, Vxlan), depth);
  }

  /** VXLAN is transparent exactly for inner packets that bring a payload. */
  lemma VxlanIsTransparentIffPayload(
      t: seq<byte>, at: nat, end: nat, source: port, destination: port, checksum: port, header: seq<byte>,
      frame: seq<byte>, inner: nat, innerType: nat, p: Packet, depth: nat)
    requires Datagram(t, at, end, source, destination, checksum, header, frame)
    requires source == 4789 || destination == 4789
    requires |header| == 8 && header[0] / 8 % 2 == 1
    requires HoldsIp(frame, ETH_BRIDGE, inner, innerType) && Fresh(p) && p.srcIP != [] && depth < MAX_TUNNEL_DEPTH
    requires var alone := Alone(frame, inner, innerType, p);
             alone.tunnel == [] && depth + 1 + Own(frame, inner, innerType) <= MAX_TUNNEL_DEPTH
    ensures var alone := Alone(frame, inner, innerType, p);
            var r := DecodeUdp(t, at, end, p, depth);
            && r == Revealed(frame, inner, innerType, Push(p, Vxlan), at + 16, source, destination, at + 8, 8 + |frame|)
            && (r == Lift(alone, Push(p, Vxlan), at + 16) <==> BringsPayload(frame, InnerHeader(frame, inner, innerType)))
  {
    hide DecodeUdp, DecodeUdpPayload, DecodeInner, IpHeaderAt, EthernetFrame, Outer, Push, Fresh, UdpBytes, Lift, Beneath, BringsPorts, BringsPayload;
    UdpHeaderIsRead(t, at, end, source, destination, checksum, |header| + |frame|, p, depth);
    PushOuter(p, Vxlan, source, destination, at + 8, 8 + |frame|);
    var u := Outer(p, source, destination, at + 8, 8 + |frame|);
    OuterPorts(p, source, destination, at + 8, 8 + |frame|);
    var stop := at + 16 + |frame|;
    VxlanIsOpened(t, at + 8, stop, header, u, depth);
    InnerIsRevealed(t, at + 16, frame, ETH_BRIDGE, inner, innerType, Push(p, Vxlan), source, destination,
                       at + 8, 8 + |frame|, depth);
  }

  lemma OuterPorts(p: Packet, source: port, destination: port, offset: nat, length: nat)
    ensures var u := Outer(p, source, destination, offset, length);
            u.srcPort == source && u.dstPort == destination
  {
  }

  /** A GENEVE header: version 0, its options complete, and the type of what it carries. */
  predicate GeneveHeader(header: seq<byte>, outerType: nat) {
    8 <= |header| && header[0] < 64 && |header| == 8 + 4 * header[0] as int && U16(header, 2) == outerType
  }

  lemma GeneveIsOpened(t: seq<byte>, at: nat, stop: nat, header: seq<byte>, outerType: nat, u: Packet, depth: nat)
    requires LiesAt(t, at, header) && at + |header| <= stop <= |t| && GeneveHeader(header, outerType)
    requires (u.srcPort == 6081 || u.dstPort == 6081) && u.srcPort != 4789 && u.dstPort != 4789
    requires depth < MAX_TUNNEL_DEPTH
    ensures DecodeUdpPayload(t, at, stop, u, depth)
            == DecodeInner(t, at + |header|, stop, outerType, Push(u, Geneve), depth)
  {
    hide DecodeInner, Push;
    MovedU16(header, t, at, 0);
    MovedU16(header, t, at, 2);
    assert DecodeUdpPayload(t, at, stop, u, depth) == DecodeGeneve(t, at, stop, u, depth);
  }

  /** GENEVE is transparent exactly for inner packets that bring a payload. */
  lemma GeneveIsTransparentIffPayload(
      t: seq<byte>, at: nat, end: nat, source: port, destination: port, checksum: port, header: seq<byte>,
      frame: seq<byte>, outerType: nat, inner: nat, innerType: nat, p: Packet, depth: nat)
    requires Datagram(t, at, end, source, destination, checksum, header, frame)
    requires (source == 6081 || destination == 6081) && source != 4789 && destination != 4789
    requires GeneveHeader(header, outerType)
    requires HoldsIp(frame, outerType, inner, innerType) && Fresh(p) && p.srcIP != [] && depth < MAX_TUNNEL_DEPTH
    requires var alone := Alone(frame, inner, innerType, p);
             alone.tunnel == [] && depth + 1 + Own(frame, inner, innerType) <= MAX_TUNNEL_DEPTH
    ensures var alone := Alone(frame, inner, innerType, p);
            var r := DecodeUdp(t, at, end, p, depth);
            && r == Revealed(frame, inner, innerType, Push(p, Geneve), at + 8 + |header|, source, destination,
                             at + 8, |header| + |frame|)
            && (r == Lift(alone, Push(p, Geneve), at + 8 + |header|)
                <==> BringsPayload(frame, InnerHeader(frame, inner, innerType)))
  {
    hide DecodeUdp, DecodeUdpPayload, DecodeInner, IpHeaderAt, EthernetFrame, Outer, Push, Fresh, UdpBytes, Lift, Beneath, BringsPorts, BringsPayload;
    UdpHeaderIsRead(t, at, end, source, destination, checksum, |header| + |frame|, p, depth);
    PushOuter(p, Geneve, source, destination, at + 8, |header| + |frame|);
    var u := Outer(p, source, destination, at + 8, |header| + |frame|);
    OuterPorts(p, source, destination, at + 8, |header| + |frame|);
    var stop := at + 8 + |header| + |frame|;
    GeneveIsOpened(t, at + 8, stop, header, outerType, u, depth);
    InnerIsRevealed(t, at + 8 + |header|, frame, outerType, inner, innerType, Push(p, Geneve), source, destination,
                       at + 8, |header| + |frame|, depth);
  }
}
