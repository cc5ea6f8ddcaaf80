/**
  Encapsulation is transparent (src/core/ProtocolParser.cpp:139-148, 261-281,
  440-547): a packet wrapped in IP-in-IP, 6in4 and GRE layers is decoded as it
  would be alone, with the wrappers recorded beside it.
*/
module Transparency {
  import opened Bytes
  import opened Packet
  import opened Decode
  import opened Hops
  import opened DecodeLift
  import opened DepthBudget

  /**
    One layer of encapsulation: the carrier's IP header with its options or
    extension headers, and the GRE header where there is one.
  */
  datatype Layer = Layer(kind: Label, carrier: nat, header: seq<byte>, gre: seq<byte>) {
    function Size(): nat {
      |header| + |gre|
    }

    /** The protocol number that announces what the carrier carries. */
    function Number(): byte {
      if kind == IpInIp then 4 else if kind == SixInFour then 41 else 47
    }
  }

  /** A complete, unfragmented IPv4 header, with options, of a datagram of `total` bytes. */
  predicate V4Carrier(h: seq<byte>, protocol: byte, total: nat) {
    && 20 <= |h| <= 60 && |h| % 4 == 0 && h[0] as int == 0x40 + |h| / 4
    && U16(h, 2) == total && U16(h, 6) % 0x2000 == 0 && h[9] == protocol
  }

  /** A complete IPv6 header, with its extension headers, of a datagram of `total` bytes. */
  predicate V6Carrier(h: seq<byte>, protocol: byte, total: nat) {
    && 40 <= |h| && h[0] / 16 == 6 && 40 + U16(h, 4) == total
    && V6Upper(h, 40, |h|, h[6]) == Extension(protocol, |h|)
  }

  predicate Carrier(l: Layer, total: nat) {
    if l.carrier == ETH_IPV4 then V4Carrier(l.header, l.Number(), total)
    else l.carrier == ETH_IPV6 && V6Carrier(l.header, l.Number(), total)
  }

  /** What the layer says it carries is what follows. */
  predicate Carries(l: Layer, innerType: nat) {
    match l.kind
    case IpInIp => l.gre == [] && innerType == ETH_IPV4
    case SixInFour => l.gre == [] && innerType == ETH_IPV6
    case GreTunnel =>
      GreLength(l.gre, 0, |l.gre|) == Some(|l.gre|) && U16(l.gre, 2) == innerType
      && (innerType == ETH_IPV4 || innerType == ETH_IPV6)
    case _ => false
  }

  /** The inner packet behind its wrappers, outermost first. */
  function Wrap(layers: seq<Layer>, inner: seq<byte>): (s: seq<byte>)
    ensures |s| == Overhead(layers) + |inner|
  {
    if layers == [] then inner else layers[0].header + layers[0].gre + Wrap(layers[1..], inner)
  }

  function Overhead(layers: seq<Layer>): nat {
    if layers == [] then 0 else layers[0].Size() + Overhead(layers[1..])
  }

  function TypeOf(layers: seq<Layer>, innerType: nat): nat {
    if layers == [] then innerType else layers[0].carrier
  }

  function Kinds(layers: seq<Layer>): seq<Label> {
    if layers == [] then [] else [layers[0].kind] + Kinds(layers[1..])
  }

  predicate WellFormed(layers: seq<Layer>, inner: seq<byte>, innerType: nat) {
    layers != [] ==>
      && Carrier(layers[0], |Wrap(layers, inner)|)
      && Carries(layers[0], TypeOf(layers[1..], innerType))
      && WellFormed(layers[1..], inner, innerType)
  }

  function SourceOf(l: Layer, total: nat): (t: Text)
    requires Carrier(l, total)
    ensures t != []
  {
    if l.carrier == ETH_IPV4 then Ipv4Text(l.header, 12) else Ipv6Text(l.header, 8)
  }

  function DestinationOf(l: Layer, total: nat): Text
    requires Carrier(l, total)
  {
    if l.carrier == ETH_IPV4 then Ipv4Text(l.header, 16) else Ipv6Text(l.header, 24)
  }

  // ----- a carrier's header is read as written

  /** Walking extension headers does not depend on how much follows them. */
  lemma {:induction false} LongerWindow(s: seq<byte>, t: seq<byte>, d: nat, pos: nat, end: nat, stop: nat, next: byte)
    requires LiesAt(t, d, s) && pos <= end == |s| && d + end <= stop <= |t|
    requires V6Upper(s, pos, end, next).pos == end
    requires V6Upper(s, pos, end, next).next !in {0, 43, 44, 51, 60, 135}
    ensures var e := V6Upper(s, pos, end, next);
            V6Upper(t, d + pos, stop, next) == e.(pos := d + e.pos)
    decreases end - pos
  {
    if pos + 2 <= end {
      assert s[pos] == t[d + pos] && s[pos + 1] == t[d + (pos + 1)];
    }
    var e := V6Extension(s, pos, end, next);
    if e.Some? {
      assert V6Extension(t, d + pos, stop, next) == Some(Extension(e.value.next, d + e.value.pos));
      LongerWindow(s, t, d, e.value.pos, end, stop, e.value.next);
    }
  }

  lemma V4CarrierIsRead(t: seq<byte>, at: nat, end: nat, h: seq<byte>, protocol: byte, total: nat)
    requires LiesAt(t, at, h) && V4Carrier(h, protocol, total) && |h| <= total && at + total <= end <= |t|
    ensures V4Header(t, at, end)
            == Some(IpHeader(Ipv4Text(h, 12), Ipv4Text(h, 16), protocol, at + |h|, at + total, false))
  {
    hide Ipv4Text;
    MovedU16(h, t, at, 0);
    MovedU16(h, t, at, 2);
    MovedU16(h, t, at, 6);
    MovedU16(h, t, at, 9);
    MovedAddresses(h, t, at, 12);
    MovedAddresses(h, t, at, 16);
  }

  lemma V6CarrierIsRead(t: seq<byte>, at: nat, end: nat, h: seq<byte>, protocol: byte, total: nat)
    requires LiesAt(t, at, h) && V6Carrier(h, protocol, total) && |h| <= total && at + total <= end <= |t|
    requires protocol !in {0, 43, 44, 51, 60, 135}
    ensures V6Header(t, at, end)
            == Some(IpHeader(Ipv6Text(h, 8), Ipv6Text(h, 24), protocol, at + |h|, at + total, false))
  {
    hide Ipv6Text, V6Upper;
    MovedU16(h, t, at, 4);
    MovedU16(h, t, at, 6);
    MovedAddresses(h, t, at, 8);
    MovedAddresses(h, t, at, 24);
    LongerWindow(h, t, at, 40, |h|, at + total, h[6]);
  }

  lemma CarrierIsRead(t: seq<byte>, at: nat, end: nat, l: Layer, total: nat)
    requires LiesAt(t, at, l.header) && Carrier(l, total) && |l.header| <= total && at + total <= end <= |t|
    ensures IpHeaderAt(t, at, end, l.carrier)
            == Some(IpHeader(SourceOf(l, total), DestinationOf(l, total), l.Number(), at + |l.header|, at + total, false))
  {
    hide V4Header, V6Header, V4Carrier, V6Carrier, Ipv4Text, Ipv6Text;
    if l.carrier == ETH_IPV4 {
      V4CarrierIsRead(t, at, end, l.header, l.Number(), total);
    } else {
      V6CarrierIsRead(t, at, end, l.header, l.Number(), total);
    }
  }

  lemma GreIsRead(t: seq<byte>, at: nat, end: nat, g: seq<byte>)
    requires LiesAt(t, at, g) && GreLength(g, 0, |g|) == Some(|g|) && at + |g| <= end <= |t|
    ensures GreLength(t, at, end) == Some(|g|) && U16(t, at + 2) == U16(g, 2)
  {
    MovedU16(g, t, at, 0);
    MovedU16(g, t, at, 2);
  }

  // ----- one layer

  /** The record after one carrier has been stepped into. */
  function Inside(p: Packet, l: Layer, total: nat): Packet
    requires Carrier(l, total)
  {
    Push(p.(srcIP := SourceOf(l, total), dstIP := DestinationOf(l, total)), l.kind)
  }

  /** The payload of a carrier is handed on, under one more label. */
  lemma PayloadStep(t: seq<byte>, at: nat, end: nat, l: Layer, innerType: nat, q: Packet, depth: nat)
    requires LiesAt(t, at, l.gre) && at + |l.gre| <= end <= |t| && depth < MAX_TUNNEL_DEPTH && Carries(l, innerType)
    ensures var r := DecodeNetwork(t, at + |l.gre|, end, innerType, Push(q, l.kind), depth + 1);
            DecodeTransport(t, at, end, l.Number(), q, depth)
            == if r.protocol == Unknown && l.kind == GreTunnel then r.(protocol := Gre) else r
  {
    hide GreLength, Push, DecodeNetwork;
    if l.kind == GreTunnel {
      GreIsRead(t, at, end, l.gre);
      assert DecodeGre(t, at, end, q, depth)
          == DecodeInner(t, at + |l.gre|, end, innerType, Push(q, GreTunnel), depth);
    }
  }

  /** A carrier adds its label and its addresses, and hands its whole payload on. */
  lemma LayerStep(t: seq<byte>, at: nat, end: nat, l: Layer, total: nat, innerType: nat, p: Packet, depth: nat)
    requires LiesAt(t, at, l.header) && LiesAt(t, at + |l.header|, l.gre)
    requires l.Size() <= total && at + total <= end <= |t| && depth < MAX_TUNNEL_DEPTH
    requires Carrier(l, total) && Carries(l, innerType)
    ensures var r := DecodeNetwork(t, at + l.Size(), at + total, innerType, Inside(p, l, total), depth + 1);
            DecodeNetwork(t, at, end, l.carrier, p, depth)
            == if r.protocol == Unknown && l.kind == GreTunnel then r.(protocol := Gre) else r
  {
    hide IpHeaderAt, SourceOf, DestinationOf, Push, Carrier, Carries, DecodeTransport, LiesAt, DecodeMpls, DecodePppoe, DecodeArp;
    CarrierType(l, total);
    CarrierIsRead(t, at, end, l, total);
    var h := IpHeaderAt(t, at, end, l.carrier).value;
    assert DecodeNetwork(t, at, end, l.carrier, p, depth) == DecodeIp(t, h, p, depth);
    PayloadStep(t, h.start, h.stop, l, innerType, p.(srcIP := h.src, dstIP := h.dst), depth);
  }

  lemma CarrierType(l: Layer, total: nat)
    requires Carrier(l, total)
    ensures l.carrier == ETH_IPV4 || l.carrier == ETH_IPV6
  {
  }

  // ----- all layers

  /** A record that has learnt nothing but where it came from. */
  predicate Fresh(p: Packet) {
    && (p.outerSrcIP == [] ==> p.outerDstIP == [])
    && p == Start(p.timestamp, p.length).(srcIP := p.srcIP, dstIP := p.dstIP, tunnel := p.tunnel,
                                             outerSrcIP := p.outerSrcIP, outerDstIP := p.outerDstIP)
  }

  /** The record after all carriers have been stepped into. */
  function InsideAll(p: Packet, layers: seq<Layer>, inner: seq<byte>, innerType: nat): Packet
    requires WellFormed(layers, inner, innerType)
    decreases |layers|
  {
    if layers == [] then p
    else InsideAll(Inside(p, layers[0], |Wrap(layers, inner)|), layers[1..], inner, innerType)
  }

  lemma InsideMeans(p: Packet, l: Layer, total: nat)
    requires Carrier(l, total)
    ensures var q := Inside(p, l, total);
            && q.timestamp == p.timestamp && q.length == p.length && q.tunnel == p.tunnel + [l.kind]
            && (Fresh(p) ==> Fresh(q))
            && q.outerSrcIP != []
            && (p.outerSrcIP != [] ==> q.outerSrcIP == p.outerSrcIP && q.outerDstIP == p.outerDstIP)
            && (p.outerSrcIP == [] ==> q.outerSrcIP == SourceOf(l, total) && q.outerDstIP == DestinationOf(l, total))
  {
    hide Carrier, DestinationOf;
  }

  lemma {:induction false} InsideAllMeans(p: Packet, layers: seq<Layer>, inner: seq<byte>, innerType: nat)
    requires WellFormed(layers, inner, innerType)
    ensures var q := InsideAll(p, layers, inner, innerType);
            && q.timestamp == p.timestamp && q.length == p.length && q.tunnel == p.tunnel + Kinds(layers)
            && (Fresh(p) ==> Fresh(q))
            && (p.outerSrcIP != [] ==> q.outerSrcIP == p.outerSrcIP && q.outerDstIP == p.outerDstIP)
            && (layers != [] && p.outerSrcIP == [] ==>
                  q.outerSrcIP == SourceOf(layers[0], |Wrap(layers, inner)|)
                  && q.outerDstIP == DestinationOf(layers[0], |Wrap(layers, inner)|))
    decreases |layers|
  {
    hide Carrier, Carries, SourceOf, DestinationOf, Inside, Fresh, Wrap;
    if layers != [] {
      var next := Inside(p, layers[0], |Wrap(layers, inner)|);
      InsideMeans(p, layers[0], |Wrap(layers, inner)|);
      InsideAllMeans(next, layers[1..], inner, innerType);
      assert p.tunnel + Kinds(layers) == (p.tunnel + [layers[0].kind]) + Kinds(layers[1..]);
    }
  }

  lemma HeaderType(s: seq<byte>, etherType: nat)
    requires IpHeaderAt(s, 0, |s|, etherType).Some?
    ensures etherType == ETH_IPV4 || etherType == ETH_IPV6
    ensures s != [] && LinkFrame(s, AloneLink(etherType)) == Some(Frame(0, etherType))
  {
  }

  /** A packet behind its IP header: what the header overwrites does not matter. */
  lemma InnerAsLifted(inner: seq<byte>, t: seq<byte>, at: nat, innerType: nat, p: Packet, depth: nat)
    requires LiesAt(t, at, inner) && depth <= MAX_TUNNEL_DEPTH && Fresh(p)
    requires IpHeaderAt(inner, 0, |inner|, innerType).Some?
    ensures DecodeNetwork(t, at, at + |inner|, innerType, p, depth)
            == DecodeNetwork(t, at, at + |inner|, innerType, Lift(Start(p.timestamp, p.length), p, at), depth)
  {
    hide IpHeaderAt, DecodeIp, Lift, Fresh;
    HeaderType(inner, innerType);
    MovedIpHeader(inner, t, at, 0, |inner|, innerType);
    HeaderOverwrites(t, MovedHeader(IpHeaderAt(inner, 0, |inner|, innerType).value, at), p, depth, at);
  }

  lemma InnerIsLifted(inner: seq<byte>, t: seq<byte>, at: nat, innerType: nat, p: Packet, depth: nat)
    requires LiesAt(t, at, inner) && depth <= MAX_TUNNEL_DEPTH && Fresh(p)
    requires IpHeaderAt(inner, 0, |inner|, innerType).Some?
    requires var alone := DecodeNetwork(inner, 0, |inner|, innerType, Start(p.timestamp, p.length), 0);
             Room(Start(p.timestamp, p.length), alone, 0, depth, EndsAtGre(inner, 0, |inner|, innerType))
    ensures var alone := DecodeNetwork(inner, 0, |inner|, innerType, Start(p.timestamp, p.length), 0);
            DecodeNetwork(t, at, at + |inner|, innerType, p, depth) == Lift(alone, p, at)
  {
    hide IpHeaderAt, DecodeNetwork, Lift, Fresh, Room, EndsAtGre;
    InnerAsLifted(inner, t, at, innerType, p, depth);
    NetworkLifts(inner, t, at, 0, |inner|, innerType, Start(p.timestamp, p.length), p, 0, depth);
  }

  lemma HeaderOverwrites(t: seq<byte>, h: IpHeader, p: Packet, depth: nat, d: nat)
    requires h.start <= h.stop <= |t| && depth <= MAX_TUNNEL_DEPTH && Fresh(p)
    ensures DecodeIp(t, h, Lift(Start(p.timestamp, p.length), p, d), depth) == DecodeIp(t, h, p, depth)
  {
    hide DecodeTransport;
    assert p.tunnel + [] == p.tunnel;
    assert Lift(Start(p.timestamp, p.length), p, d).(srcIP := h.src, dstIP := h.dst)
        == p.(srcIP := h.src, dstIP := h.dst);
  }

  /** The carriers lead to the inner packet, and at most give a name to a protocol that stays unknown. */
  lemma {:induction false} Descent(
      t: seq<byte>, at: nat, end: nat, layers: seq<Layer>, inner: seq<byte>, innerType: nat, p: Packet, depth: nat)
    requires LiesAt(t, at, Wrap(layers, inner)) && at + |Wrap(layers, inner)| <= end <= |t|
    requires layers == [] ==> end == at + |inner|
    requires WellFormed(layers, inner, innerType) && depth + |layers| <= MAX_TUNNEL_DEPTH
    ensures var start := at + Overhead(layers);
            var r := DecodeNetwork(t, start, start + |inner|, innerType, InsideAll(p, layers, inner, innerType),
                                   depth + |layers|);
            Shows(DecodeNetwork(t, at, end, TypeOf(layers, innerType), p, depth), r)
            && (r.protocol != Unknown ==> DecodeNetwork(t, at, end, TypeOf(layers, innerType), p, depth) == r)
    decreases |layers|
  {
    hide DecodeNetwork, Carrier, Carries, LiesAt, Inside, SourceOf, DestinationOf, Push, Kinds, Keeps;
    if layers != [] {
      var l := layers[0];
      var total := |Wrap(layers, inner)|;
      LiesAtSplit(t, at, l.header + l.gre, Wrap(layers[1..], inner));
      LiesAtSplit(t, at, l.header, l.gre);
      var next := Inside(p, l, total);
      LiesWithin(t, at, Wrap(layers, inner));
      Descent(t, at + l.Size(), at + total, layers[1..], inner, innerType, next, depth + 1);
      LayerStep(t, at, end, l, total, TypeOf(layers[1..], innerType), p, depth);
    }
  }

  lemma LiftKeepsName(p: Packet, base: Packet, d: nat)
    ensures Lift(p, base, d).protocol == p.protocol
  {
  }

  lemma FreshStart(timestamp: int, length: uint32)
    ensures Fresh(Start(timestamp, length))
  {
  }

  lemma {:induction false} InnerLies(s: seq<byte>, at: nat, layers: seq<Layer>, inner: seq<byte>)
    requires LiesAt(s, at, Wrap(layers, inner))
    ensures LiesAt(s, at + Overhead(layers), inner)
    decreases |layers|
  {
    if layers != [] {
      LiesAtSplit(s, at, layers[0].header + layers[0].gre, Wrap(layers[1..], inner));
      InnerLies(s, at + layers[0].Size(), layers[1..], inner);
    }
  }

  /** The bytes the decoder found to be the packet's payload. */
  function Payload(s: seq<byte>, r: Packet): seq<byte>
    requires r.payloadOffset + r.payloadLength <= |s|
  {
    s[r.payloadOffset..r.payloadOffset + r.payloadLength]
  }

  lemma LiftMeans(alone: Packet, inner: seq<byte>, s: seq<byte>, base: Packet, d: nat)
    requires LiesAt(s, d, inner) && InBounds(alone, |inner|) && base.outerSrcIP != []
    requires InBounds(Lift(alone, base, d), |s|)
    requires base.timestamp == alone.timestamp && base.length == alone.length
    ensures var r := Lift(alone, base, d);
            && Payload(s, r) == Payload(inner, alone)
            && r.tunnel == base.tunnel + alone.tunnel
            && r.outerSrcIP == base.outerSrcIP && r.outerDstIP == base.outerDstIP
            && r == alone.(tunnel := r.tunnel, outerSrcIP := r.outerSrcIP, outerDstIP := r.outerDstIP,
                           payloadOffset := r.payloadOffset)
            && r.payloadOffset == alone.payloadOffset + if alone.payloadLength == 0 then 0 else d
  {
    MovedSlice(inner, s, d, alone.payloadOffset, alone.payloadOffset + alone.payloadLength);
  }

  /** Decoding never touches what the capture recorded. */
  lemma CaptureIsKept(s: seq<byte>, offset: nat, end: nat, etherType: nat, p: Packet, depth: nat)
    requires offset <= end <= |s| && depth <= MAX_TUNNEL_DEPTH
    ensures var r := DecodeNetwork(s, offset, end, etherType, p, depth);
            r.timestamp == p.timestamp && r.length == p.length
  {
    hide DecodeNetwork;
    var base := Start(p.timestamp, p.length);
    assert [] + p.tunnel == p.tunnel;
    assert Lift(p, base, 0) == p;
    NetworkLifts(s, s, 0, offset, end, etherType, p, base, depth, 0);
  }

  /** The levels that a packet needs of its own: one per label, and one more to find a GRE header unreadable. */
  function Levels(inner: seq<byte>, innerType: nat, alone: Packet): nat {
    |alone.tunnel| + if EndsAtGre(inner, 0, |inner|, innerType) then 1 else 0
  }

  function AloneLink(innerType: nat): LinkType {
    if innerType == ETH_IPV4 then LinkIPv4 else LinkIPv6
  }

  lemma DescentFromTop(s: seq<byte>, at: nat, layers: seq<Layer>, inner: seq<byte>, innerType: nat, p: Packet, d: nat, base: Packet)
    requires layers != [] && LiesAt(s, at, Wrap(layers, inner)) && WellFormed(layers, inner, innerType)
    requires |layers| <= MAX_TUNNEL_DEPTH
    requires d == at + Overhead(layers) && base == InsideAll(p, layers, inner, innerType)
    ensures d + |inner| <= |s|
    ensures var r := DecodeNetwork(s, d, d + |inner|, innerType, base, |layers|);
            var w := DecodeNetwork(s, at, |s|, TypeOf(layers, innerType), p, 0);
            w.tunnel == r.tunnel && (r.protocol != Unknown ==> w == r)
  {
    hide DecodeNetwork, WellFormed, Wrap, Overhead, InsideAll, LiesAt;
    LiesWithin(s, at, Wrap(layers, inner));
    Descent(s, at, |s|, layers, inner, innerType, p, 0);
  }

  /** The wrapped packet's record is the inner one's, moved behind the carriers and put below them. */
  lemma WrappedIsLifted(
      s: seq<byte>, at: nat, layers: seq<Layer>, inner: seq<byte>, innerType: nat, p: Packet, d: nat, base: Packet)
    requires layers != [] && LiesAt(s, at, Wrap(layers, inner)) && WellFormed(layers, inner, innerType)
    requires d == at + Overhead(layers) && base == InsideAll(p, layers, inner, innerType) && LiesAt(s, d, inner)
    requires IpHeaderAt(inner, 0, |inner|, innerType).Some? && |layers| <= MAX_TUNNEL_DEPTH
    requires Fresh(base) && base.timestamp == p.timestamp && base.length == p.length
    requires var alone := DecodeNetwork(inner, 0, |inner|, innerType, Start(p.timestamp, p.length), 0);
             && Room(Start(p.timestamp, p.length), alone, 0, |layers|, EndsAtGre(inner, 0, |inner|, innerType))
             && alone.protocol != Unknown
    ensures DecodeNetwork(s, at, |s|, TypeOf(layers, innerType), p, 0)
            == Lift(DecodeNetwork(inner, 0, |inner|, innerType, Start(p.timestamp, p.length), 0), base, d)
  {
    hide DecodeNetwork, WellFormed, Wrap, InsideAll, Overhead, Fresh, IpHeaderAt, EndsAtGre, Room, Lift, Start, Keeps,
      LiesAt, TypeOf;
    DescentFromTop(s, at, layers, inner, innerType, p, d, base);
    InnerIsLifted(inner, s, d, innerType, base, |layers|);
    LiftKeepsName(DecodeNetwork(inner, 0, |inner|, innerType, Start(p.timestamp, p.length), 0), base, d);
  }

  /**
    A packet that decodes alone is decoded the same behind 1 to 4 well-formed
    layers, under any link layer and with any padding behind it: same addresses,
    ports, flags, sequence number and payload bytes. The labels of the layers come
    first, outermost first, and the outer addresses are the outermost carrier's.
    The inner packet may hold tunnels of its own, as long as the budget lasts.
  */
  lemma EncapsulationIsTransparent(
      s: seq<byte>, link: LinkType, at: nat, layers: seq<Layer>, inner: seq<byte>, innerType: nat,
      timestamp: int, length: uint32)
    requires layers != [] && WellFormed(layers, inner, innerType)
    requires IpHeaderAt(inner, 0, |inner|, innerType).Some?
    requires LinkFrame(s, link) == Some(Frame(at, layers[0].carrier)) && LiesAt(s, at, Wrap(layers, inner))
    requires var alone := Parse(inner, AloneLink(innerType), timestamp, length);
             alone.protocol != Unknown && |layers| + Levels(inner, innerType, alone) <= 4
    ensures var alone := Parse(inner, AloneLink(innerType), timestamp, length);
            var r := Parse(s, link, timestamp, length);
            && Payload(s, r) == Payload(inner, alone)
            && r.tunnel == Kinds(layers) + alone.tunnel
            && r.outerSrcIP == SourceOf(layers[0], |Wrap(layers, inner)|)
            && r.outerDstIP == DestinationOf(layers[0], |Wrap(layers, inner)|)
            && r == alone.(tunnel := r.tunnel, outerSrcIP := r.outerSrcIP, outerDstIP := r.outerDstIP,
                           payloadOffset := r.payloadOffset)
            && r.payloadOffset == alone.payloadOffset + if alone.payloadLength == 0 then 0 else at + Overhead(layers)
  {
    hide DecodeNetwork, Carrier, Carries, SourceOf, DestinationOf, Lift, IpHeaderAt, LinkFrame, Fresh, InsideAll, Kinds,
      Payload, WellFormed, Wrap, Overhead, EndsAtGre;
    var start := Start(timestamp, length);
    FreshStart(timestamp, length);
    HeaderType(inner, innerType);
    var alone := DecodeNetwork(inner, 0, |inner|, innerType, start, 0);
    CaptureIsKept(inner, 0, |inner|, innerType, start, 0);
    InsideAllMeans(start, layers, inner, innerType);
    InnerLies(s, at, layers, inner);
    WrappedIsLifted(s, at, layers, inner, innerType, start, at + Overhead(layers), InsideAll(start, layers, inner, innerType));
    LiftMeans(alone, inner, s, InsideAll(start, layers, inner, innerType), at + Overhead(layers));
  }

  // ----- beyond the depth budget

  /** At the last level a carrier is named, not opened. */
  lemma CarrierIsNamed(t: seq<byte>, at: nat, end: nat, l: Layer, total: nat, innerType: nat, p: Packet)
    requires LiesAt(t, at, l.header) && |l.header| <= total && at + total <= end <= |t|
    requires Carrier(l, total) && Carries(l, innerType)
    ensures DecodeNetwork(t, at, end, l.carrier, p, MAX_TUNNEL_DEPTH)
            == p.(srcIP := SourceOf(l, total), dstIP := DestinationOf(l, total), protocol := OtherIp(l.Number()))
  {
    hide IpHeaderAt, SourceOf, DestinationOf, Carrier;
    CarrierType(l, total);
    CarrierIsRead(t, at, end, l, total);
    var h := IpHeaderAt(t, at, end, l.carrier).value;
    assert DecodeNetwork(t, at, end, l.carrier, p, MAX_TUNNEL_DEPTH) == DecodeIp(t, h, p, MAX_TUNNEL_DEPTH);
  }

  lemma {:induction false} DescentStops(
      t: seq<byte>, at: nat, end: nat, layers: seq<Layer>, inner: seq<byte>, innerType: nat, p: Packet, depth: nat)
    requires LiesAt(t, at, Wrap(layers, inner)) && at + |Wrap(layers, inner)| <= end <= |t|
    requires WellFormed(layers, inner, innerType) && depth <= MAX_TUNNEL_DEPTH < depth + |layers|
    ensures var r := DecodeNetwork(t, at, end, TypeOf(layers, innerType), p, depth);
            && r.protocol == OtherIp(layers[MAX_TUNNEL_DEPTH - depth].Number())
            && r.tunnel == p.tunnel + Kinds(layers[..MAX_TUNNEL_DEPTH - depth])
    decreases |layers|
  {
    hide IpHeaderAt, DecodeNetwork, Carrier, Carries, SourceOf, DestinationOf, Inside, LiesAt, Kinds, Keeps;
    var l := layers[0];
    var total := |Wrap(layers, inner)|;
    LiesAtSplit(t, at, l.header + l.gre, Wrap(layers[1..], inner));
    LiesAtSplit(t, at, l.header, l.gre);
    KindsOfPrefix(p.tunnel, layers, MAX_TUNNEL_DEPTH - depth);
    if depth == MAX_TUNNEL_DEPTH {
      CarrierIsNamed(t, at, end, l, total, TypeOf(layers[1..], innerType), p);
    } else {
      var next := Inside(p, l, total);
      InsideMeans(p, l, total);
      DescentStops(t, at + l.Size(), at + total, layers[1..], inner, innerType, next, depth + 1);
      LayerStep(t, at, end, l, total, TypeOf(layers[1..], innerType), p, depth);
    }
  }

  lemma KindsOfPrefix(tunnel: seq<Label>, layers: seq<Layer>, k: nat)
    requires k < |layers|
    ensures if k == 0 then tunnel + Kinds(layers[..k]) == tunnel
            else tunnel + Kinds(layers[..k]) == (tunnel + [layers[0].kind]) + Kinds(layers[1..][..k - 1])
  {
    if k > 0 {
      assert layers[..k][1..] == layers[1..][..k - 1];
      assert layers[..k][0] == layers[0];
    }
  }

  lemma {:induction false} KindsLength(layers: seq<Layer>)
    ensures |Kinds(layers)| == |layers|
  {
    if layers != [] { KindsLength(layers[1..]); }
  }

  /** With more layers than the inner packet leaves levels for, labels or protocol differ. */
  lemma TooDeep(s: seq<byte>, link: LinkType, at: nat, layers: seq<Layer>, inner: seq<byte>, innerType: nat,
                timestamp: int, length: uint32)
    requires layers != [] && WellFormed(layers, inner, innerType)
    requires IpHeaderAt(inner, 0, |inner|, innerType).Some?
    requires LinkFrame(s, link) == Some(Frame(at, layers[0].carrier)) && LiesAt(s, at, Wrap(layers, inner))
    requires var alone := Parse(inner, AloneLink(innerType), timestamp, length);
             !LabelOnly(alone) && |layers| + Levels(inner, innerType, alone) > 4
    ensures var alone := Parse(inner, AloneLink(innerType), timestamp, length);
            var r := Parse(s, link, timestamp, length);
            r.tunnel != Kinds(layers) + alone.tunnel || r.protocol != alone.protocol
  {
    hide DecodeNetwork, Carrier, Carries, SourceOf, DestinationOf, Lift, IpHeaderAt, LinkFrame, Fresh, InsideAll, Kinds,
      WellFormed, Wrap, Overhead, EndsAtGre, LabelOnly;
    var start := Start(timestamp, length);
    HeaderType(inner, innerType);
    FreshStart(timestamp, length);
    if |layers| > MAX_TUNNEL_DEPTH {
      TooManyLayers(s, at, layers, inner, innerType, start, Parse(inner, AloneLink(innerType), timestamp, length).tunnel);
    } else {
      InnerTooDeep(s, at, layers, inner, innerType, start);
    }
  }

  lemma TooManyLayers(s: seq<byte>, at: nat, layers: seq<Layer>, inner: seq<byte>, innerType: nat, p: Packet, labels: seq<Label>)
    requires LiesAt(s, at, Wrap(layers, inner)) && WellFormed(layers, inner, innerType)
    requires |layers| > MAX_TUNNEL_DEPTH && p.tunnel == []
    ensures DecodeNetwork(s, at, |s|, TypeOf(layers, innerType), p, 0).tunnel != Kinds(layers) + labels
  {
    hide DecodeNetwork, Kinds, WellFormed, Wrap;
    KindsLength(layers);
    KindsLength(layers[..MAX_TUNNEL_DEPTH]);
    DescentStops(s, at, |s|, layers, inner, innerType, p, 0);
  }

  lemma InnerTooDeep(s: seq<byte>, at: nat, layers: seq<Layer>, inner: seq<byte>, innerType: nat, p: Packet)
    requires layers != [] && LiesAt(s, at, Wrap(layers, inner)) && WellFormed(layers, inner, innerType)
    requires IpHeaderAt(inner, 0, |inner|, innerType).Some? && |layers| <= MAX_TUNNEL_DEPTH && Fresh(p) && p.tunnel == []
    requires var start := Start(p.timestamp, p.length);
             var alone := DecodeNetwork(inner, 0, |inner|, innerType, start, 0);
             !LabelOnly(alone) && !Room(start, alone, 0, |layers|, EndsAtGre(inner, 0, |inner|, innerType))
    ensures var alone := DecodeNetwork(inner, 0, |inner|, innerType, Start(p.timestamp, p.length), 0);
            var r := DecodeNetwork(s, at, |s|, TypeOf(layers, innerType), p, 0);
            r.tunnel != Kinds(layers) + alone.tunnel || r.protocol != alone.protocol
  {
    hide DecodeNetwork, Lift, IpHeaderAt, Fresh, InsideAll, Kinds, WellFormed, Wrap, Overhead, EndsAtGre, LabelOnly, LiesAt,
      Keeps, SourceOf, DestinationOf, Room, TypeOf, Start;
    var base, d := InsideAll(p, layers, inner, innerType), at + Overhead(layers);
    DescentFromTop(s, at, layers, inner, innerType, p, d, base);
    InsideAllMeans(p, layers, inner, innerType);
    assert [] + Kinds(layers) == Kinds(layers);
    InnerLiesAt(s, at, layers, inner, d);
    InnerOverBudget(inner, s, d, innerType, base, |layers|);
  }

  lemma InnerLiesAt(s: seq<byte>, at: nat, layers: seq<Layer>, inner: seq<byte>, d: nat)
    requires LiesAt(s, at, Wrap(layers, inner)) && d == at + Overhead(layers)
    ensures LiesAt(s, d, inner)
  {
    InnerLies(s, at, layers, inner);
  }

  lemma InnerOverBudget(inner: seq<byte>, t: seq<byte>, at: nat, innerType: nat, p: Packet, depth: nat)
    requires LiesAt(t, at, inner) && depth <= MAX_TUNNEL_DEPTH && Fresh(p)
    requires IpHeaderAt(inner, 0, |inner|, innerType).Some?
    requires var start := Start(p.timestamp, p.length);
             var alone := DecodeNetwork(inner, 0, |inner|, innerType, start, 0);
             !LabelOnly(alone) && !Room(start, alone, 0, depth, EndsAtGre(inner, 0, |inner|, innerType))
    ensures var alone := DecodeNetwork(inner, 0, |inner|, innerType, Start(p.timestamp, p.length), 0);
            var r := DecodeNetwork(t, at, at + |inner|, innerType, p, depth);
            r.tunnel != p.tunnel + alone.tunnel || (r.protocol != Unknown && r.protocol != alone.protocol)
  {
    hide IpHeaderAt, DecodeNetwork, Lift, Fresh, Room, EndsAtGre, LabelOnly;
    InnerAsLifted(inner, t, at, innerType, p, depth);
    OverBudget(inner, t, at, 0, |inner|, innerType, Start(p.timestamp, p.length), p, 0, depth);
  }

  /**
    Wrapping is transparent if and only if the layers and the levels that the inner
    packet needs of its own fit the budget: for TCP or UDP without tunnels, up to
    4 layers. (Left out: inner packets of which no more than a last label of MPLS or
    PPPoE may be known, which can do with one level less.)
  */
  lemma TransparentIffWithinBudget(
      s: seq<byte>, link: LinkType, at: nat, layers: seq<Layer>, inner: seq<byte>, innerType: nat,
      timestamp: int, length: uint32)
    requires layers != [] && WellFormed(layers, inner, innerType)
    requires IpHeaderAt(inner, 0, |inner|, innerType).Some?
    requires LinkFrame(s, link) == Some(Frame(at, layers[0].carrier)) && LiesAt(s, at, Wrap(layers, inner))
    requires var alone := Parse(inner, AloneLink(innerType), timestamp, length);
             alone.protocol != Unknown && !LabelOnly(alone)
    ensures var alone := Parse(inner, AloneLink(innerType), timestamp, length);
            var r := Parse(s, link, timestamp, length);
            |layers| + Levels(inner, innerType, alone) <= 4
            <==> r == alone.(tunnel := Kinds(layers) + alone.tunnel,
                             outerSrcIP := SourceOf(layers[0], |Wrap(layers, inner)|),
                             outerDstIP := DestinationOf(layers[0], |Wrap(layers, inner)|),
                             payloadOffset := r.payloadOffset)
                 && Payload(s, r) == Payload(inner, alone)
  {
    hide Parse, Carrier, Carries, SourceOf, DestinationOf, IpHeaderAt, LinkFrame, WellFormed, Wrap, Overhead,
      Payload, Kinds, Levels, LabelOnly;
    var alone := Parse(inner, AloneLink(innerType), timestamp, length);
    if |layers| + Levels(inner, innerType, alone) <= MAX_TUNNEL_DEPTH {
      EncapsulationIsTransparent(s, link, at, layers, inner, innerType, timestamp, length);
    } else {
      TooDeep(s, link, at, layers, inner, innerType, timestamp, length);
    }
  }

  /** A TCP or UDP packet that opens no tunnel needs no level of its own. */
  lemma PlainNeedsNoLevel(inner: seq<byte>, innerType: nat, timestamp: int, length: uint32)
    requires IpHeaderAt(inner, 0, |inner|, innerType).Some?
    requires var alone := Parse(inner, AloneLink(innerType), timestamp, length);
             alone.tunnel == [] && (alone.protocol == Tcp || alone.protocol == Udp)
    ensures Levels(inner, innerType, Parse(inner, AloneLink(innerType), timestamp, length)) == 0
  {
    hide DecodeNetwork, LinkFrame, IpHeaderAt, EndsAtGre, HopsToGre, StopsAtGre;
    HeaderType(inner, innerType);
    var start := Start(timestamp, length);
    if EndsAtGre(inner, 0, |inner|, innerType) {
      GreEndIsNamed(inner, 0, |inner|, innerType, start, 0);
      NoHopNoLabel(inner, innerType, start);
    }
  }

  lemma NoHopNoLabel(inner: seq<byte>, innerType: nat, start: Packet)
    requires EndsAtGre(inner, 0, |inner|, innerType) && start.protocol == Unknown
    requires HopsToGre(inner, 0, |inner|, innerType) == 0
    ensures DecodeNetwork(inner, 0, |inner|, innerType, start, 0).protocol == Gre
  {
    hide DecodeNetwork, NextHop, StopsAtGre;
    StopIsNamed(inner, 0, |inner|, innerType, start, 0);
  }

  // ----- the carriers below IP

  /** A stack of at most 8 labels, the last one marked. */
  predicate LabelStack(m: seq<byte>) {
    4 <= |m| <= 32 && |m| % 4 == 0
    && forall i :: 0 <= i < |m| ==> (i % 4 == 2 ==> (m[i] % 2 != 0 <==> i == |m| - 2))
  }

  lemma {:induction false} StackIsWalked(t: seq<byte>, at: nat, end: nat, m: seq<byte>, pos: nat, labels: nat)
    requires LiesAt(t, at, m) && LabelStack(m) && at + |m| <= end <= |t|
    requires pos % 4 == 0 && pos < |m| && |m| - pos <= 4 * labels
    ensures MplsBottom(t, at + pos, end, labels) == Some(at + |m|)
    decreases labels
  {
    assert m[pos + 2] == t[at + (pos + 2)];
    if pos + 4 < |m| { StackIsWalked(t, at, end, m, pos + 4, labels - 1); }
  }

  /** At any depth and into any record: the stack adds its label and hands on the packet behind it. */
  lemma MplsStep(
      t: seq<byte>, at: nat, end: nat, m: seq<byte>, mpls: nat, innerType: nat, p: Packet, depth: nat)
    requires LiesAt(t, at, m) && LabelStack(m) && at + |m| < end <= |t| && depth <= MAX_TUNNEL_DEPTH
    requires (mpls == ETH_MPLS_UNI || mpls == ETH_MPLS_MUL)
    requires (innerType == ETH_IPV4 && t[at + |m|] / 16 == 4) || (innerType == ETH_IPV6 && t[at + |m|] / 16 == 6)
    ensures var r := DecodeNetwork(t, at + |m|, end, innerType, Push(p, MplsTunnel), depth + 1);
            DecodeNetwork(t, at, end, mpls, p, depth) == if r.protocol == Unknown then r.(protocol := Mpls) else r
  {
    hide MplsBottom, DecodeIp, IpHeaderAt, LabelStack, Push;
    StackSize(m);
    StackIsWalked(t, at, end, m, 0, 8);
    assert DecodeMpls(t, at, end, p, depth) == DecodeNetwork(t, at + |m|, end, innerType, Push(p, MplsTunnel), depth + 1);
  }

  /** An IP packet under an MPLS label stack decodes as it does alone, labelled MPLS, wherever it is met. */
  lemma MplsIsTransparent(
      t: seq<byte>, at: nat, m: seq<byte>, mpls: nat, inner: seq<byte>, innerType: nat, p: Packet, depth: nat)
    requires LiesAt(t, at, m + inner) && LabelStack(m) && (mpls == ETH_MPLS_UNI || mpls == ETH_MPLS_MUL)
    requires inner != [] && inner[0] / 16 == (if innerType == ETH_IPV4 then 4 else 6)
    requires IpHeaderAt(inner, 0, |inner|, innerType).Some? && Fresh(p) && depth < MAX_TUNNEL_DEPTH
    requires var alone := Parse(inner, AloneLink(innerType), p.timestamp, p.length);
             alone.protocol != Unknown && depth + 1 + Levels(inner, innerType, alone) <= MAX_TUNNEL_DEPTH
    ensures DecodeNetwork(t, at, at + |m| + |inner|, mpls, p, depth)
            == Lift(Parse(inner, AloneLink(innerType), p.timestamp, p.length), Push(p, MplsTunnel), at + |m|)
  {
    hide IpHeaderAt, DecodeNetwork, LinkFrame, Lift, LabelStack, Push, Fresh;
    HeaderType(inner, innerType);
    LiesAtSplit(t, at, m, inner);
    assert t[at + |m| + 0] == inner[0];
    MplsStep(t, at, at + |m| + |inner|, m, mpls, innerType, p, depth);
    PushKeepsFresh(p, MplsTunnel);
    InnerIsLifted(inner, t, at + |m|, innerType, Push(p, MplsTunnel), depth + 1);
    LiftKeepsName(Parse(inner, AloneLink(innerType), p.timestamp, p.length), Push(p, MplsTunnel), at + |m|);
  }

  lemma PushKeepsFresh(p: Packet, name: Label)
    requires Fresh(p)
    ensures Push(p, name).timestamp == p.timestamp && Push(p, name).length == p.length && Fresh(Push(p, name))
    ensures p.srcIP == [] ==> Push(p, name) == p.(tunnel := p.tunnel + [name])
  {
  }

  lemma StackSize(m: seq<byte>)
    requires LabelStack(m)
    ensures 4 <= |m| <= 32 && |m| % 4 == 0
  {
  }

  /** A PPPoE session header and the number of the protocol it carries. */
  predicate SessionHeader(m: seq<byte>, innerType: nat) {
    |m| == 8 && U16(m, 6) == (if innerType == ETH_IPV4 then 0x0021 else 0x0057)
  }

  /** At any depth and into any record: the session adds its label and hands on the packet behind it. */
  lemma PppoeStep(t: seq<byte>, at: nat, end: nat, m: seq<byte>, innerType: nat, p: Packet, depth: nat)
    requires LiesAt(t, at, m) && SessionHeader(m, innerType) && at + 8 <= end <= |t| && depth <= MAX_TUNNEL_DEPTH
    requires innerType == ETH_IPV4 || innerType == ETH_IPV6
    ensures var r := DecodeNetwork(t, at + 8, end, innerType, Push(p, PppoeTunnel), depth + 1);
            DecodeNetwork(t, at, end, ETH_PPPOE_SESSION, p, depth)
            == if r.protocol == Unknown then r.(protocol := Pppoe) else r
  {
    hide DecodeIp, IpHeaderAt, Push;
    MovedU16(m, t, at, 6);
    assert DecodePppoe(t, at, end, p, depth) == DecodeNetwork(t, at + 8, end, innerType, Push(p, PppoeTunnel), depth + 1);
  }

  /** An IP packet in a PPPoE session decodes as it does alone, labelled PPPoE, wherever it is met. */
  lemma PppoeIsTransparent(
      t: seq<byte>, at: nat, m: seq<byte>, inner: seq<byte>, innerType: nat, p: Packet, depth: nat)
    requires LiesAt(t, at, m + inner) && SessionHeader(m, innerType)
    requires IpHeaderAt(inner, 0, |inner|, innerType).Some? && Fresh(p) && depth < MAX_TUNNEL_DEPTH
    requires var alone := Parse(inner, AloneLink(innerType), p.timestamp, p.length);
             alone.protocol != Unknown && depth + 1 + Levels(inner, innerType, alone) <= MAX_TUNNEL_DEPTH
    ensures DecodeNetwork(t, at, at + 8 + |inner|, ETH_PPPOE_SESSION, p, depth)
            == Lift(Parse(inner, AloneLink(innerType), p.timestamp, p.length), Push(p, PppoeTunnel), at + 8)
  {
    hide IpHeaderAt, DecodeNetwork, LinkFrame, Lift, Push, Fresh;
    HeaderType(inner, innerType);
    LiesAtSplit(t, at, m, inner);
    PppoeStep(t, at, at + 8 + |inner|, m, innerType, p, depth);
    PushKeepsFresh(p, PppoeTunnel);
    InnerIsLifted(inner, t, at + 8, innerType, Push(p, PppoeTunnel), depth + 1);
    LiftKeepsName(Parse(inner, AloneLink(innerType), p.timestamp, p.length), Push(p, PppoeTunnel), at + 8);
  }

  /** The same for a whole capture: any link layer, then a label stack or a session header, then the packet. */
  lemma LabelledFrameIsTransparent(
      s: seq<byte>, link: LinkType, at: nat, etherType: nat, m: seq<byte>, inner: seq<byte>, innerType: nat,
      timestamp: int, length: uint32)
    requires LinkFrame(s, link) == Some(Frame(at, etherType)) && LiesAt(s, at, m + inner) && |s| == at + |m| + |inner|
    requires IpHeaderAt(inner, 0, |inner|, innerType).Some?
    requires if etherType == ETH_PPPOE_SESSION then SessionHeader(m, innerType)
             else (etherType == ETH_MPLS_UNI || etherType == ETH_MPLS_MUL) && LabelStack(m)
                  && inner != [] && inner[0] / 16 == if innerType == ETH_IPV4 then 4 else 6
    requires var alone := Parse(inner, AloneLink(innerType), timestamp, length);
             alone.protocol != Unknown && 1 + Levels(inner, innerType, alone) <= MAX_TUNNEL_DEPTH
    ensures var name := if etherType == ETH_PPPOE_SESSION then PppoeTunnel else MplsTunnel;
            Parse(s, link, timestamp, length)
            == Lift(Parse(inner, AloneLink(innerType), timestamp, length),
                    Start(timestamp, length).(tunnel := [name]), at + |m|)
  {
    hide IpHeaderAt, DecodeNetwork, LinkFrame, Lift, Push, Fresh, LabelStack;
    var start := Start(timestamp, length);
    HeaderType(inner, innerType);
    FreshStart(timestamp, length);
    if etherType == ETH_PPPOE_SESSION {
      PushKeepsFresh(start, PppoeTunnel);
      assert start.tunnel + [PppoeTunnel] == [PppoeTunnel];
      PppoeIsTransparent(s, at, m, inner, innerType, start, 0);
    } else {
      PushKeepsFresh(start, MplsTunnel);
      assert start.tunnel + [MplsTunnel] == [MplsTunnel];
      MplsIsTransparent(s, at, m, etherType, inner, innerType, start, 0);
    }
  }
}
