/**
  Where the decoder re-enters the network layer, read off the headers alone: the
  chain of hops from one IP packet, MPLS stack or PPPoE session to the next inner
  one. (src/core/ProtocolParser.cpp:241-573)
*/
module Hops {
  import opened Bytes
  import opened Decode

  datatype Hop = Hop(offset: nat, end: nat, etherType: nat)

  function EthernetHop(s: seq<byte>, offset: nat, end: nat): (hop: Option<Hop>)
    requires offset <= end <= |s|
    ensures hop.Some? ==> offset <= hop.value.offset <= hop.value.end <= end
  {
    if offset >= end then None
    else
      match EthernetFrame(s, offset, end)
      case None => None
      case Some(f) => Some(Hop(f.offset, end, f.etherType))
  }

  function InnerHop(s: seq<byte>, offset: nat, end: nat, innerType: nat): (hop: Option<Hop>)
    requires offset <= end <= |s|
    ensures hop.Some? ==> offset <= hop.value.offset <= hop.value.end <= end
  {
    if innerType == ETH_BRIDGE then EthernetHop(s, offset, end)
    else if innerType == ETH_IPV4 || innerType == ETH_IPV6 then Some(Hop(offset, end, innerType))
    else None
  }

  function GreHop(s: seq<byte>, offset: nat, end: nat): (hop: Option<Hop>)
    requires offset <= end <= |s|
    ensures hop.Some? ==> offset <= hop.value.offset <= hop.value.end <= end
  {
    match GreLength(s, offset, end)
    case None => None
    case Some(n) => InnerHop(s, offset + n, end, U16(s, offset + 2))
  }

  function VxlanHop(s: seq<byte>, offset: nat, end: nat): (hop: Option<Hop>)
    requires offset <= end <= |s|
    ensures hop.Some? ==> offset <= hop.value.offset <= hop.value.end <= end
  {
    if end < offset + 8 || s[offset] / 8 % 2 == 0 then None else EthernetHop(s, offset + 8, end)
  }

  function GeneveHop(s: seq<byte>, offset: nat, end: nat): (hop: Option<Hop>)
    requires offset <= end <= |s|
    ensures hop.Some? ==> offset <= hop.value.offset <= hop.value.end <= end
  {
    if end < offset + 8 || s[offset] >= 64 then None
    else
      var inner := offset + 8 + (s[offset] as int % 64) * 4;
      if end < inner then None else InnerHop(s, inner, end, U16(s, offset + 2))
  }

  function UdpPayloadHop(s: seq<byte>, offset: nat, end: nat, src: nat, dst: nat): (hop: Option<Hop>)
    requires offset <= end <= |s|
    ensures hop.Some? ==> offset <= hop.value.offset <= hop.value.end <= end
  {
    if dst == 4789 || src == 4789 then VxlanHop(s, offset, end)
    else if dst == 6081 || src == 6081 then GeneveHop(s, offset, end)
    else None
  }

  function UdpHop(s: seq<byte>, offset: nat, end: nat): (hop: Option<Hop>)
    requires offset <= end <= |s|
    ensures hop.Some? ==> offset <= hop.value.offset <= hop.value.end <= end
  {
    if end < offset + 8 || offset + 8 >= UdpEnd(s, offset, end) then None
    else UdpPayloadHop(s, offset + 8, UdpEnd(s, offset, end), U16(s, offset), U16(s, offset + 2))
  }

  function TransportHop(s: seq<byte>, offset: nat, end: nat, protocol: byte): (hop: Option<Hop>)
    requires offset <= end <= |s|
    ensures hop.Some? ==> offset <= hop.value.offset <= hop.value.end <= end
  {
    if protocol == 4 then Some(Hop(offset, end, ETH_IPV4))
    else if protocol == 41 then Some(Hop(offset, end, ETH_IPV6))
    else if protocol == 47 then GreHop(s, offset, end)
    else if protocol == 17 then UdpHop(s, offset, end)
    else None
  }

  function IpHop(s: seq<byte>, h: IpHeader): (hop: Option<Hop>)
    requires h.start <= h.stop <= |s|
    ensures hop.Some? ==> h.start <= hop.value.offset <= hop.value.end <= h.stop
  {
    if h.fragment then None else TransportHop(s, h.start, h.stop, h.protocol)
  }

  function MplsHop(s: seq<byte>, offset: nat, end: nat): (hop: Option<Hop>)
    requires offset <= end <= |s|
    ensures hop.Some? ==> offset < hop.value.offset <= hop.value.end <= end
  {
    match MplsBottom(s, offset, end, 8)
    case None => None
    case Some(pos) =>
      if pos >= end || (s[pos] / 16 != 4 && s[pos] / 16 != 6) then None
      else Some(Hop(pos, end, if s[pos] / 16 == 4 then ETH_IPV4 else ETH_IPV6))
  }

  function PppoeHop(s: seq<byte>, offset: nat, end: nat): (hop: Option<Hop>)
    requires offset <= end <= |s|
    ensures hop.Some? ==> offset < hop.value.offset <= hop.value.end <= end
  {
    if end < offset + 8 then None
    else if U16(s, offset + 6) == 0x0021 then Some(Hop(offset + 8, end, ETH_IPV4))
    else if U16(s, offset + 6) == 0x0057 then Some(Hop(offset + 8, end, ETH_IPV6))
    else None
  }

  /** The next network layer inside the one at `offset`, with no regard to the depth. */
  function NextHop(s: seq<byte>, offset: nat, end: nat, etherType: nat): (hop: Option<Hop>)
    requires offset <= end <= |s|
    ensures hop.Some? ==> offset < hop.value.offset <= hop.value.end <= end
  {
    if etherType == ETH_MPLS_UNI || etherType == ETH_MPLS_MUL then MplsHop(s, offset, end)
    else if etherType == ETH_PPPOE_SESSION then PppoeHop(s, offset, end)
    else
      match IpHeaderAt(s, offset, end, etherType)
      case None => None
      case Some(h) => IpHop(s, h)
  }

  /** The packet announces a GRE header that cannot be read. */
  predicate UnreadGre(s: seq<byte>, h: IpHeader)
    requires h.start <= h.stop <= |s|
  {
    !h.fragment && h.protocol == 47 && GreLength(s, h.start, h.stop).None?
  }

  predicate StopsAtGre(s: seq<byte>, offset: nat, end: nat, etherType: nat)
    requires offset <= end <= |s|
  {
    var h := IpHeaderAt(s, offset, end, etherType);
    h.Some? && UnreadGre(s, h.value)
  }

  /** The chain of hops ends at a GRE header that cannot be read. */
  predicate EndsAtGre(s: seq<byte>, offset: nat, end: nat, etherType: nat)
    requires offset <= end <= |s|
    decreases end - offset
  {
    var hop := NextHop(s, offset, end, etherType);
    StopsAtGre(s, offset, end, etherType)
    || (hop.Some? && EndsAtGre(s, hop.value.offset, hop.value.end, hop.value.etherType))
  }

  predicate Leads(s: seq<byte>, hop: Option<Hop>)
    requires hop.Some? ==> hop.value.offset <= hop.value.end <= |s|
  {
    hop.Some? && EndsAtGre(s, hop.value.offset, hop.value.end, hop.value.etherType)
  }

  /** How many hops lead to that header. */
  function HopsToGre(s: seq<byte>, offset: nat, end: nat, etherType: nat): nat
    requires offset <= end <= |s|
    decreases end - offset
  {
    var hop := NextHop(s, offset, end, etherType);
    if hop.None? then 0 else 1 + HopsToGre(s, hop.value.offset, hop.value.end, hop.value.etherType)
  }
}
