/**
  Continuation fragments (src/core/ProtocolParser.cpp:88-129, 504-547): an IPv4
  one is named and left alone, an IPv6 one is decoded as if a transport header
  began where its data begins.
*/
module Fragments {
  import opened Bytes
  import opened Packet
  import opened Decode
  import opened Transparency
  import opened DecodeRoundTrip

  /** A fragment header with an offset other than 0 is on the chain that starts at `pos`. */
  predicate V6Continues(s: seq<byte>, pos: nat, end: nat, next: byte)
    requires pos <= end <= |s|
    decreases end - pos
  {
    var e := V6Extension(s, pos, end, next);
    e.Some? && ((next == 44 && U16(s, pos + 2) / 8 != 0) || V6Continues(s, e.value.pos, end, e.value.next))
  }

  /** The datagram at `offset` is a fragment, and not the first. */
  predicate IsContinuation(s: seq<byte>, offset: nat, end: nat, etherType: nat)
    requires offset <= end <= |s| && IpHeaderAt(s, offset, end, etherType).Some?
  {
    if etherType == ETH_IPV4 then U16(s, offset + 6) % 0x2000 != 0
    else V6Continues(s, offset + 40, Min(end, offset + 40 + U16(s, offset + 4)), s[offset + 6])
  }

  /**
    From a continuation fragment the transport decoder is reached if and only if
    the carrier is IPv6; under IPv4 only addresses and the protocol are recorded.
  */
  lemma ContinuationReachesTransportIffV6(s: seq<byte>, offset: nat, end: nat, etherType: nat, p: Packet, depth: nat)
    requires offset <= end <= |s| && depth <= MAX_TUNNEL_DEPTH
    requires IpHeaderAt(s, offset, end, etherType).Some? && IsContinuation(s, offset, end, etherType)
    ensures var h := IpHeaderAt(s, offset, end, etherType).value;
            var q := p.(srcIP := h.src, dstIP := h.dst);
            && (h.fragment <==> etherType == ETH_IPV4)
            && DecodeNetwork(s, offset, end, etherType, p, depth)
               == if etherType == ETH_IPV6 then DecodeTransport(s, h.start, h.stop, h.protocol, q, depth)
                  else q.(protocol := Ipv4Fragment)
  {
    hide DecodeTransport, V6Upper, V6Continues, Ipv4Text, Ipv6Text;
    var h := IpHeaderAt(s, offset, end, etherType).value;
    assert DecodeNetwork(s, offset, end, etherType, p, depth) == DecodeIp(s, h, p, depth);
  }

  /** And only a continuation fragment stops the IPv4 decoder there. */
  lemma V4FragmentIffContinuation(s: seq<byte>, offset: nat, end: nat)
    requires offset <= end <= |s| && V4Header(s, offset, end).Some?
    ensures V4Header(s, offset, end).value.fragment <==> IsContinuation(s, offset, end, ETH_IPV4)
  {
  }

  /** A fragment header: where its data belongs, in units of 8 bytes, and whether more follows. */
  function FragmentHeader(position: nat, more: bool, id: Quad): Ext6Header
    requires position < 0x2000
  {
    Ext6(44, 0, Word(position * 8 + if more then 1 else 0) + id)
  }

  /** The bytes of a fragment from the middle of a TCP segment are reported as ports, sequence number and flags. */
  lemma MiddleIsReadAsHeader(
      destination: Mac, source: Mac, from: Sixteen, dest: Sixteen, position: nat, more: bool, id: Quad, fields: V6Fields,
      middle: TcpFields, rest: seq<byte>, timestamp: int, length: uint32)
    requires 0 < position < 0x2000 && |rest| < 0x1_0000 - 28
    ensures Ip6(from, dest, [FragmentHeader(position, more, id)], fields).Fits(6, 20 + |rest|)
    ensures var ip := Ip6(from, dest, [FragmentHeader(position, more, id)], fields);
            var s := FrameBytes(destination, source, [], ip, 6, TcpBytes(middle, []) + rest, []);
            var at := |EthernetBytes(destination, source, [], ETH_IPV6)|;
            var r := Parse(s, Ethernet, timestamp, length);
            && IpHeaderAt(s, at, |s|, ETH_IPV6).Some? && IsContinuation(s, at, |s|, ETH_IPV6)
            && r.protocol == Tcp && r.srcPort == middle.source && r.dstPort == middle.destination
            && r.tcpSeq == middle.sequence && r.tcpSyn == middle.syn && Payload(s, r) == rest
  {
    hide Parse, EthernetBytes, TcpBytes, IpHeaderAt, IsContinuation, FragmentHeader, V6Bytes, ChainBytes, LiesAt, Payload, DecodeNetwork, LinkFrame;
    var ip := Ip6(from, dest, [FragmentHeader(position, more, id)], fields);
    ChainSize(position, more, id);
    var segment := TcpBytes(middle, []) + rest;
    TcpFrameIsRead(destination, source, [], ip, middle, [], rest, [], timestamp, length);
    var s := FrameBytes(destination, source, [], ip, 6, segment, []);
    var eth, h := EthernetBytes(destination, source, [], ip.Type()), ip.Bytes(6, |segment|);
    LiesInMiddle([], eth + h + segment, []);
    assert [] + (eth + h + segment) + [] == s;
    LiesAtSplit(s, 0, eth + h, segment);
    LiesAtSplit(s, 0, eth, h);
    IpIsRead(s, |eth|, |s|, ip, 6, |segment|);
    ChainContinues(s, |eth|, position, more, id, from, dest, fields, |segment|);
  }

  lemma ChainSize(position: nat, more: bool, id: Quad)
    requires position < 0x2000
    ensures |ChainBytes([FragmentHeader(position, more, id)], 6)| == 8
  {
    assert [FragmentHeader(position, more, id)][1..] == [];
  }

  lemma ChainContinues(
      s: seq<byte>, at: nat, position: nat, more: bool, id: Quad, from: Sixteen, dest: Sixteen, fields: V6Fields, n: nat)
    requires 0 < position < 0x2000 && 8 + n < 0x1_0000 && at + 48 + n <= |s|
    requires |ChainBytes([FragmentHeader(position, more, id)], 6)| == 8
    requires LiesAt(s, at, V6Bytes(8 + n, 6, from, dest, [FragmentHeader(position, more, id)], fields))
    requires IpHeaderAt(s, at, |s|, ETH_IPV6).Some?
    ensures IsContinuation(s, at, |s|, ETH_IPV6)
  {
    hide V6Upper, V6Header, IpHeaderAt;
    var e := FragmentHeader(position, more, id);
    assert [e][1..] == [];
    var chain := [6, 0] + (Word(position * 8 + if more then 1 else 0) + id);
    assert ChainBytes([e], 6) == chain;
    var h := V6Bytes(8 + n, 6, from, dest, [e], fields);
    var fixed := [96 + fields.class0 % 16, fields.class1, Hi(fields.flow), Lo(fields.flow), Hi(8 + n), Lo(8 + n), 44, fields.hops];
    assert h == fixed + from + dest + chain;
    LiesAtSplit(s, at, fixed + from + dest, chain);
    LiesAtSplit(s, at, fixed + from, dest);
    LiesAtSplit(s, at, fixed, from);
    MovedU16(fixed, s, at, 4);
    MovedU16(fixed, s, at, 6);
    MovedU16(chain, s, at + 40, 2);
    FragmentWord(position, more, id);
  }

  lemma FragmentWord(position: nat, more: bool, id: Quad)
    requires 0 < position < 0x2000
    ensures var chain := [6, 0] + (Word(position * 8 + if more then 1 else 0) + id);
            U16(chain, 2) / 8 == position
  {
    var n := position * 8 + if more then 1 else 0;
    var chain := [6, 0] + (Word(n) + id);
    assert chain[2] == Word(n)[0] && chain[3] == Word(n)[1];
    assert U16(chain, 2) == n;
  }
}
