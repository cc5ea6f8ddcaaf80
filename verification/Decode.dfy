/**
  The layered packet decoder (src/core/ProtocolParser.cpp): link layer, network
  layer, transport layer and the tunnels that lead back to the network layer.
  Each function says what a decoder makes of a packet record, given the bytes
  buffer[offset..end) that its layer may read.
*/
module Decode {
  import opened Bytes
  import opened Packet

  const ETH_IPV4: nat := 0x0800
  const ETH_ARP: nat := 0x0806
  const ETH_IPV6: nat := 0x86DD
  const ETH_MPLS_UNI: nat := 0x8847
  const ETH_MPLS_MUL: nat := 0x8848
  const ETH_PPPOE_SESSION: nat := 0x8864
  const ETH_BRIDGE: nat := 0x6558

  const MAX_TUNNEL_DEPTH: nat := 4

  datatype LinkType =
    | Ethernet | RawIP | NullLoopback | Loop | LinuxSLL | LinuxSLL2 | LinkIPv4 | LinkIPv6 | Unsupported

  /** Printed addresses: any injective function of the bytes to non-empty text would do. */
  function Ipv4Text(s: seq<byte>, at: nat): (t: Text)
    requires at + 4 <= |s|
    ensures t != []
  {
    [4] + s[at..at + 4]
  }

  function Ipv6Text(s: seq<byte>, at: nat): (t: Text)
    requires at + 16 <= |s|
    ensures t != []
  {
    [6] + s[at..at + 16]
  }

  // ----- link layer

  datatype Frame = Frame(offset: nat, etherType: nat)

  predicate IsVlan(etherType: nat) {
    etherType == 0x8100 || etherType == 0x88A8 || etherType == 0x9100
  }

  /** Where the VLAN tags that start at `offset` end, and the EtherType behind them. */
  function SkipVlans(s: seq<byte>, offset: nat, end: nat, etherType: nat): (f: Option<Frame>)
    requires offset <= end <= |s|
    ensures f.Some? ==> offset <= f.value.offset <= end
    decreases end - offset
  {
    if !IsVlan(etherType) then Some(Frame(offset, etherType))
    else if end < offset + 4 then None
    else SkipVlans(s, offset + 4, end, U16(s, offset + 2))
  }

  function EthernetFrame(s: seq<byte>, start: nat, end: nat): (f: Option<Frame>)
    requires start <= end <= |s|
    ensures f.Some? ==> start <= f.value.offset <= end
  {
    if end < start + 14 then None else SkipVlans(s, start + 14, end, U16(s, start + 12))
  }

  function ByIpVersion(s: seq<byte>, at: nat): Option<Frame> {
    if at >= |s| then None
    else if s[at] / 16 == 4 then Some(Frame(at, ETH_IPV4))
    else if s[at] / 16 == 6 then Some(Frame(at, ETH_IPV6))
    else None
  }

  predicate IsV6Family(af: nat) {
    af == 10 || af == 23 || af == 24 || af == 28 || af == 30
  }

  function LinkFrame(s: seq<byte>, link: LinkType): (f: Option<Frame>)
    ensures f.Some? ==> f.value.offset <= |s|
  {
    match link
    case Ethernet => EthernetFrame(s, 0, |s|)
    case LinuxSLL => if |s| < 16 then None else Some(Frame(16, U16(s, 14)))
    case LinuxSLL2 => if |s| < 20 then None else Some(Frame(20, U16(s, 0)))
    case NullLoopback =>
      if |s| < 4 then None
      else
        var little := U32([s[3], s[2], s[1], s[0]], 0);
        var big := U32(s, 0);
        if little == 2 then Some(Frame(4, ETH_IPV4))
        else if IsV6Family(little) then Some(Frame(4, ETH_IPV6))
        else if big == 2 then Some(Frame(4, ETH_IPV4))
        else if IsV6Family(big) then Some(Frame(4, ETH_IPV6))
        else ByIpVersion(s, 4)
    case Loop =>
      if |s| < 4 then None
      else
        var af := U32(s, 0);
        if af == 2 then Some(Frame(4, ETH_IPV4))
        else if IsV6Family(af) then Some(Frame(4, ETH_IPV6))
        else ByIpVersion(s, 4)
    case RawIP => ByIpVersion(s, 0)
    case LinkIPv4 => Some(Frame(0, ETH_IPV4))
    case LinkIPv6 => Some(Frame(0, ETH_IPV6))
    case Unsupported => None
  }

  // ----- IP headers

  datatype Extension = Extension(next: byte, pos: nat)

  /** One IPv6 extension header, stepped over. */
  function V6Extension(s: seq<byte>, pos: nat, end: nat, next: byte): (e: Option<Extension>)
    requires pos <= end <= |s|
    ensures e.Some? ==> pos + 8 <= e.value.pos <= end
  {
    if next == 0 || next == 43 || next == 60 || next == 135 then
      if end < pos + 2 || end < pos + (s[pos + 1] as int + 1) * 8 then None
      else Some(Extension(s[pos], pos + (s[pos + 1] as int + 1) * 8))
    else if next == 44 then
      if end < pos + 8 then None else Some(Extension(s[pos], pos + 8))
    else if next == 51 then
      if end < pos + 2 || end < pos + (s[pos + 1] as int + 2) * 4 then None
      else Some(Extension(s[pos], pos + (s[pos + 1] as int + 2) * 4))
    else None
  }

  /** The upper-layer protocol behind a chain of extension headers. */
  function V6Upper(s: seq<byte>, pos: nat, end: nat, next: byte): (e: Extension)
    requires pos <= end <= |s|
    ensures pos <= e.pos <= end
    decreases end - pos
  {
    match V6Extension(s, pos, end, next)
    case None => Extension(next, pos)
    case Some(e) => V6Upper(s, e.pos, end, e.next)
  }

  /** An IP header read: addresses, upper-layer protocol, and the window of its payload. */
  datatype IpHeader = IpHeader(src: Text, dst: Text, protocol: byte, start: nat, stop: nat, fragment: bool)

  function V4Header(s: seq<byte>, offset: nat, end: nat): (h: Option<IpHeader>)
    requires offset <= end <= |s|
    ensures h.Some? ==> offset < h.value.start <= h.value.stop <= end && h.value.src != []
  {
    if end < offset + 20 then None
    else
      var ihl := (s[offset] as int % 16) * 4;
      if s[offset] / 16 != 4 || ihl < 20 || end < offset + ihl then None
      else
        var totalLength := U16(s, offset + 2);
        if totalLength < ihl then None
        else
          Some(IpHeader(Ipv4Text(s, offset + 12), Ipv4Text(s, offset + 16), s[offset + 9], offset + ihl,
                        Min(end, offset + totalLength), U16(s, offset + 6) % 0x2000 != 0))
  }

  function V6Header(s: seq<byte>, offset: nat, end: nat): (h: Option<IpHeader>)
    requires offset <= end <= |s|
    ensures h.Some? ==> offset < h.value.start <= h.value.stop <= end && h.value.src != []
  {
    if end < offset + 40 then None
    else
      var stop := Min(end, offset + 40 + U16(s, offset + 4));
      var upper := V6Upper(s, offset + 40, stop, s[offset + 6]);
      Some(IpHeader(Ipv6Text(s, offset + 8), Ipv6Text(s, offset + 24), upper.next, upper.pos, stop, false))
  }

  function IpHeaderAt(s: seq<byte>, offset: nat, end: nat, etherType: nat): (h: Option<IpHeader>)
    requires offset <= end <= |s|
    ensures h.Some? ==> offset < h.value.start <= h.value.stop <= end && h.value.src != []
  {
    if etherType == ETH_IPV4 then V4Header(s, offset, end)
    else if etherType == ETH_IPV6 then V6Header(s, offset, end)
    else None
  }

  // ----- what every decoder keeps

  /** The payload window lies inside the captured bytes. */
  predicate InBounds(p: Packet, size: nat) {
    p.payloadOffset + p.payloadLength <= size
  }

  /** MPLS and PPPoE add their label before the depth is looked at. */
  predicate Ungated(labels: seq<Label>) {
    labels != [] && (labels[|labels| - 1] == MplsTunnel || labels[|labels| - 1] == PppoeTunnel)
  }

  /** At most one tunnel label is added per level of depth that is left, one more by MPLS or PPPoE; none is ever removed. */
  predicate Extends(p: Packet, r: Packet, depth: nat) {
    p.tunnel <= r.tunnel
    && if depth > MAX_TUNNEL_DEPTH then r.tunnel == p.tunnel
       else |r.tunnel| + depth <= |p.tunnel| + MAX_TUNNEL_DEPTH + if Ungated(r.tunnel) then 1 else 0
  }

  predicate Keeps(p: Packet, r: Packet, size: nat, depth: nat) {
    (InBounds(p, size) ==> InBounds(r, size)) && Extends(p, r, depth)
  }

  function Push(p: Packet, name: Label): Packet {
    var q := if p.outerSrcIP == [] && p.srcIP != [] then p.(outerSrcIP := p.srcIP, outerDstIP := p.dstIP) else p;
    q.(tunnel := q.tunnel + [name])
  }

  // ----- transport layer

  /** The fixed fields of a TCP header. */
  function TcpFixed(s: seq<byte>, offset: nat, p: Packet): Packet
    requires offset + 20 <= |s|
  {
    var flags: nat := s[offset + 13];
    p.(srcPort := U16(s, offset), dstPort := U16(s, offset + 2), tcpSeq := U32(s, offset + 4),
       tcpFin := flags % 2 != 0, tcpSyn := flags / 2 % 2 != 0,
       tcpRst := flags / 4 % 2 != 0, tcpAck := flags / 16 % 2 != 0)
  }

  function DecodeTcp(s: seq<byte>, offset: nat, end: nat, p: Packet): Packet
    requires offset <= end <= |s|
  {
    var q := p.(protocol := Tcp);
    if end < offset + 20 then q
    else
      var r := TcpFixed(s, offset, q);
      var headerLength := (s[offset + 12] as int / 16) * 4;
      if headerLength < 20 || end <= offset + headerLength then r
      else r.(payloadOffset := offset + headerLength, payloadLength := end - (offset + headerLength))
  }

  /** Where a UDP datagram ends: what its length field says, or what was captured. */
  function UdpEnd(s: seq<byte>, offset: nat, end: nat): (stop: nat)
    requires offset + 8 <= end <= |s|
    ensures stop <= end
  {
    var udpLength := U16(s, offset + 4);
    Min(end, if udpLength >= 8 then offset + udpLength else end)
  }

  function DecodeUdp(s: seq<byte>, offset: nat, end: nat, p: Packet, depth: nat): (r: Packet)
    requires offset <= end <= |s| && depth <= MAX_TUNNEL_DEPTH
    ensures Keeps(p, r, |s|, depth)
    decreases MAX_TUNNEL_DEPTH + 1 - depth, 5
  {
    var q := p.(protocol := Udp);
    if end < offset + 8 then q
    else
      var u := q.(srcPort := U16(s, offset), dstPort := U16(s, offset + 2));
      var stop := UdpEnd(s, offset, end);
      if offset + 8 >= stop then u
      else
        DecodeUdpPayload(s, offset + 8, stop,
                         u.(payloadOffset := offset + 8, payloadLength := stop - (offset + 8)), depth)
  }

  /** UDP-borne tunnels carry a whole inner frame; the ports tell. */
  function DecodeUdpPayload(s: seq<byte>, offset: nat, end: nat, p: Packet, depth: nat): (r: Packet)
    requires offset <= end <= |s| && depth <= MAX_TUNNEL_DEPTH
    ensures Keeps(p, r, |s|, depth)
    decreases MAX_TUNNEL_DEPTH + 1 - depth, 4
  {
    if depth >= MAX_TUNNEL_DEPTH then p
    else if p.dstPort == 4789 || p.srcPort == 4789 then DecodeVxlan(s, offset, end, p, depth)
    else if p.dstPort == 6081 || p.srcPort == 6081 then DecodeGeneve(s, offset, end, p, depth)
    else p
  }

  function DecodeTransport(s: seq<byte>, offset: nat, end: nat, protocol: byte, p: Packet, depth: nat): (r: Packet)
    requires offset <= end <= |s| && depth <= MAX_TUNNEL_DEPTH
    ensures Keeps(p, r, |s|, depth)
    decreases MAX_TUNNEL_DEPTH + 1 - depth, 6
  {
    if protocol == 6 then DecodeTcp(s, offset, end, p)
    else if protocol == 17 then DecodeUdp(s, offset, end, p, depth)
    else if protocol == 1 then p.(protocol := Icmp)
    else if protocol == 58 then p.(protocol := Icmpv6)
    else if protocol == 4 && depth < MAX_TUNNEL_DEPTH then
      DecodeNetwork(s, offset, end, ETH_IPV4, Push(p, IpInIp), depth + 1)
    else if protocol == 41 && depth < MAX_TUNNEL_DEPTH then
      DecodeNetwork(s, offset, end, ETH_IPV6, Push(p, SixInFour), depth + 1)
    else if protocol == 47 && depth < MAX_TUNNEL_DEPTH then
      var q := DecodeGre(s, offset, end, p, depth);
      if q.protocol == Unknown then q.(protocol := Gre) else q
    else if protocol == 50 then p.(protocol := Esp, encryptedTunnel := true)
    else if protocol in {2, 33, 51, 89, 103, 112, 132} then p.(protocol := NamedIp(protocol))
    else p.(protocol := OtherIp(protocol))
  }

  // ----- tunnels

  function DecodeInnerEthernet(s: seq<byte>, offset: nat, end: nat, p: Packet, depth: nat): (r: Packet)
    requires offset <= end <= |s| && depth < MAX_TUNNEL_DEPTH
    ensures Keeps(p, r, |s|, depth + 1)
    decreases MAX_TUNNEL_DEPTH + 1 - depth, 1
  {
    if offset >= end then p
    else
      match EthernetFrame(s, offset, end)
      case None => p
      case Some(f) => DecodeNetwork(s, f.offset, end, f.etherType, p, depth + 1)
  }

  /** What follows a GRE or GENEVE header: an Ethernet frame, an IP packet, or something opaque. */
  function DecodeInner(s: seq<byte>, offset: nat, end: nat, innerType: nat, p: Packet, depth: nat): (r: Packet)
    requires offset <= end <= |s| && depth < MAX_TUNNEL_DEPTH
    ensures Keeps(p, r, |s|, depth + 1)
    decreases MAX_TUNNEL_DEPTH + 1 - depth, 2
  {
    if innerType == ETH_BRIDGE then DecodeInnerEthernet(s, offset, end, p, depth)
    else if innerType == ETH_IPV4 || innerType == ETH_IPV6 then
      DecodeNetwork(s, offset, end, innerType, p, depth + 1)
    else p
  }

  /** The length of a GRE header, when it is a version 0 header and complete. */
  function GreLength(s: seq<byte>, offset: nat, end: nat): (n: Option<nat>)
    requires offset <= end <= |s|
    ensures n.Some? ==> 4 <= n.value && offset + n.value <= end
  {
    if end < offset + 4 then None
    else
      var flags := U16(s, offset);
      var n := 4 + (if flags / 0x8000 % 2 != 0 then 4 else 0) + (if flags / 0x2000 % 2 != 0 then 4 else 0)
               + (if flags / 0x1000 % 2 != 0 then 4 else 0);
      if flags % 8 != 0 || end < offset + n then None else Some(n)
  }

  function DecodeGre(s: seq<byte>, offset: nat, end: nat, p: Packet, depth: nat): (r: Packet)
    requires offset <= end <= |s| && depth < MAX_TUNNEL_DEPTH
    ensures Keeps(p, r, |s|, depth)
    decreases MAX_TUNNEL_DEPTH + 1 - depth, 3
  {
    match GreLength(s, offset, end)
    case None => p
    case Some(n) => DecodeInner(s, offset + n, end, U16(s, offset + 2), Push(p, GreTunnel), depth)
  }

  function DecodeVxlan(s: seq<byte>, offset: nat, end: nat, p: Packet, depth: nat): (r: Packet)
    requires offset <= end <= |s| && depth < MAX_TUNNEL_DEPTH
    ensures Keeps(p, r, |s|, depth)
    decreases MAX_TUNNEL_DEPTH + 1 - depth, 2
  {
    if end < offset + 8 || s[offset] / 8 % 2 == 0 then p
    else DecodeInnerEthernet(s, offset + 8, end, Push(p, Vxlan), depth)
  }

  function DecodeGeneve(s: seq<byte>, offset: nat, end: nat, p: Packet, depth: nat): (r: Packet)
    requires offset <= end <= |s| && depth < MAX_TUNNEL_DEPTH
    ensures Keeps(p, r, |s|, depth)
    decreases MAX_TUNNEL_DEPTH + 1 - depth, 3
  {
    if end < offset + 8 || s[offset] >= 64 then p
    else
      var inner := offset + 8 + (s[offset] as int % 64) * 4;
      if end < inner then p else DecodeInner(s, inner, end, U16(s, offset + 2), Push(p, Geneve), depth)
  }

  /** Just past the bottom of an MPLS label stack of at most `labels` labels. */
  function MplsBottom(s: seq<byte>, pos: nat, end: nat, labels: nat): (bottom: Option<nat>)
    requires pos <= end <= |s|
    ensures bottom.Some? ==> pos < bottom.value <= end
    decreases labels
  {
    if labels == 0 || end < pos + 4 then None
    else if s[pos + 2] % 2 != 0 then Some(pos + 4)
    else MplsBottom(s, pos + 4, end, labels - 1)
  }

  function DecodeMpls(s: seq<byte>, offset: nat, end: nat, p: Packet, depth: nat): (r: Packet)
    requires offset <= end <= |s| && depth <= MAX_TUNNEL_DEPTH
    ensures Keeps(p, r, |s|, depth)
    decreases MAX_TUNNEL_DEPTH + 1 - depth, 6
  {
    match MplsBottom(s, offset, end, 8)
    case None => p
    case Some(pos) =>
      if pos >= end || (s[pos] / 16 != 4 && s[pos] / 16 != 6) then p
      else
        DecodeNetwork(s, pos, end, if s[pos] / 16 == 4 then ETH_IPV4 else ETH_IPV6, Push(p, MplsTunnel), depth + 1)
  }

  function DecodePppoe(s: seq<byte>, offset: nat, end: nat, p: Packet, depth: nat): (r: Packet)
    requires offset <= end <= |s| && depth <= MAX_TUNNEL_DEPTH
    ensures Keeps(p, r, |s|, depth)
    decreases MAX_TUNNEL_DEPTH + 1 - depth, 6
  {
    if end < offset + 8 then p
    else if U16(s, offset + 6) == 0x0021 then
      DecodeNetwork(s, offset + 8, end, ETH_IPV4, Push(p, PppoeTunnel), depth + 1)
    else if U16(s, offset + 6) == 0x0057 then
      DecodeNetwork(s, offset + 8, end, ETH_IPV6, Push(p, PppoeTunnel), depth + 1)
    else p
  }

  // ----- network layer

  function DecodeIp(s: seq<byte>, h: IpHeader, p: Packet, depth: nat): (r: Packet)
    requires h.start <= h.stop <= |s| && depth <= MAX_TUNNEL_DEPTH
    ensures Keeps(p, r, |s|, depth)
    decreases MAX_TUNNEL_DEPTH + 1 - depth, 7
  {
    var q := p.(srcIP := h.src, dstIP := h.dst);
    if h.fragment then q.(protocol := Ipv4Fragment)
    else DecodeTransport(s, h.start, h.stop, h.protocol, q, depth)
  }

  function DecodeArp(s: seq<byte>, offset: nat, end: nat, p: Packet): Packet
    requires offset <= end <= |s|
  {
    var q := p.(protocol := Arp);
    if end < offset + 8 then q
    else
      var hlen: nat, plen: nat := s[offset + 4], s[offset + 5];
      var body := offset + 8;
      if U16(s, offset + 2) == ETH_IPV4 && plen == 4 && end >= body + 2 * (hlen + plen) then
        q.(srcIP := Ipv4Text(s, body + hlen), dstIP := Ipv4Text(s, body + 2 * hlen + plen))
      else q
  }

  predicate HasEtherName(etherType: nat) {
    etherType in {0x88CC, 0x888E, 0x8863, 0x8100, 0x88A8, 0x9100, 0x8137, 0x88F7, 0x22EA, 0x8035, 0x9000, 0x88A4, 0x8892}
  }

  function DecodeNetwork(s: seq<byte>, offset: nat, end: nat, etherType: nat, p: Packet, depth: nat): (r: Packet)
    requires offset <= end <= |s| && depth <= MAX_TUNNEL_DEPTH + 1
    ensures Keeps(p, r, |s|, depth)
    decreases MAX_TUNNEL_DEPTH + 1 - depth, 8
  {
    if depth > MAX_TUNNEL_DEPTH then p
    else if etherType == ETH_MPLS_UNI || etherType == ETH_MPLS_MUL then
      var q := DecodeMpls(s, offset, end, p, depth);
      if q.protocol == Unknown then q.(protocol := Mpls) else q
    else if etherType == ETH_PPPOE_SESSION then
      var q := DecodePppoe(s, offset, end, p, depth);
      if q.protocol == Unknown then q.(protocol := Pppoe) else q
    else if etherType == ETH_IPV4 || etherType == ETH_IPV6 then
      match IpHeaderAt(s, offset, end, etherType)
      case None => p
      case Some(h) => DecodeIp(s, h, p, depth)
    else if etherType == ETH_ARP then DecodeArp(s, offset, end, p)
    else if HasEtherName(etherType) then p.(protocol := NamedEther(etherType))
    else p.(protocol := NonIp)
  }

  // ----- the whole packet

  /** A record before anything is known of its packet. */
  function Start(timestamp: int, length: uint32): Packet {
    Packet(timestamp, length, Unknown, [], [], 0, 0, false, false, false, false, 0, 0, 0, [], [], [], false)
  }

  /** The decoding half of parse; service names and payload inspection are not modelled. */
  function Parse(s: seq<byte>, link: LinkType, timestamp: int, length: uint32): (p: Packet)
    ensures p.payloadOffset + p.payloadLength <= |s|
    ensures |p.tunnel| <= 5
  {
    var p := Start(timestamp, length);
    if s == [] then p
    else
      match LinkFrame(s, link)
      case None => p.(protocol := if link == Unsupported then UnsupportedLink else Truncated)
      case Some(f) => DecodeNetwork(s, f.offset, |s|, f.etherType, p, 0)
  }
}
