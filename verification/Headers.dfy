/**
  Every header, with any values in its fields and cut off anywhere by the window it
  lies in: exactly what the decoder reads from it, and what a header that it refuses
  leaves in the record. (src/core/ProtocolParser.cpp:154-409, 489-573)
*/
module Headers {
  import opened Bytes
  import opened Packet
  import opened Decode
  import opened DecodeRoundTrip

  type nibble = n: int | 0 <= n < 16

  // ----- IPv4

  type FragmentOffset = n: int | 0 <= n < 0x2000

  /** The fixed part of an IPv4 header (section 3.1 of RFC 791); `words` is its IHL field. */
  datatype V4Fixed = V4Fixed(
    version: nibble, words: nibble, tos: byte, total: port, id: port, flags: octal, offset: FragmentOffset,
    ttl: byte, protocol: byte, checksum: port, source: Quad, destination: Quad)
  {
    function Control(): port { flags * 0x2000 + offset }

    function Fixed(): (h: seq<byte>)
      ensures |h| == 12
    {
      [version * 16 + words, tos, Hi(total), Lo(total), Hi(id), Lo(id), Hi(Control()), Lo(Control()),
       ttl, protocol, Hi(checksum), Lo(checksum)]
    }

    function Bytes(): (h: seq<byte>)
      ensures |h| == 20
    {
      Fixed() + source + destination
    }
  }

  lemma V4FieldsAreRead(t: seq<byte>, at: nat, h: V4Fixed)
    requires LiesAt(t, at, h.Bytes())
    ensures at + 20 <= |t|
    ensures t[at] as int / 16 == h.version && t[at] as int % 16 == h.words && t[at + 9] == h.protocol
    ensures U16(t, at + 2) == h.total && U16(t, at + 6) == h.Control()
    ensures Ipv4Text(t, at + 12) == [4] + h.source && Ipv4Text(t, at + 16) == [4] + h.destination
  {
    hide V4Fixed.Control;
    var fixed := h.Fixed();
    LiesAtSplit(t, at, fixed + h.source, h.destination);
    LiesAtSplit(t, at, fixed, h.source);
    LiesAtSlice(t, at + 12, h.source);
    LiesAtSlice(t, at + 16, h.destination);
    MovedU16(fixed, t, at, 0);
    MovedU16(fixed, t, at, 2);
    MovedU16(fixed, t, at, 6);
    MovedU16(fixed, t, at, 9);
  }

  /** A header is read if it is a version 4 header, complete, and not longer than its datagram. */
  lemma V4HeaderIsRead(t: seq<byte>, at: nat, end: nat, h: V4Fixed)
    requires LiesAt(t, at, h.Bytes()) && at <= end <= |t|
    ensures IpHeaderAt(t, at, end, 0x0800)
            == if at + 20 <= end && h.version == 4 && 5 <= h.words && at + 4 * h.words <= end && 4 * h.words <= h.total
               then Some(IpHeader([4] + h.source, [4] + h.destination, h.protocol, at + 4 * h.words,
                                  if at + h.total < end then at + h.total else end, h.offset != 0))
               else None
  {
    hide V4Fixed.Bytes, Ipv4Text;
    V4FieldsAreRead(t, at, h);
    assert h.Control() % 0x2000 == h.offset;
  }

  // ----- IPv6

  /** The fixed part of an IPv6 header (section 3 of RFC 8200); the version is not looked at. */
  datatype V6Fixed = V6Fixed(
    first: byte, second: byte, flow: port, payload: port, next: byte, hops: byte, source: Sixteen, destination: Sixteen)
  {
    function Bytes(): (h: seq<byte>)
      ensures |h| == 40
    {
      [first, second, Hi(flow), Lo(flow), Hi(payload), Lo(payload), next, hops] + source + destination
    }
  }

  /** The upper-layer protocol is looked for within what the payload length and the capture leave. */
  lemma V6HeaderIsRead(t: seq<byte>, at: nat, end: nat, h: V6Fixed)
    requires LiesAt(t, at, h.Bytes()) && at <= end <= |t|
    ensures IpHeaderAt(t, at, end, 0x86DD)
            == if end < at + 40 then None
               else
                 var stop := if at + 40 + h.payload < end then at + 40 + h.payload else end;
                 var upper := V6Upper(t, at + 40, stop, h.next);
                 Some(IpHeader([6] + h.source, [6] + h.destination, upper.next, upper.pos, stop, false))
  {
    hide V6Upper;
    var fixed := [h.first, h.second, Hi(h.flow), Lo(h.flow), Hi(h.payload), Lo(h.payload), h.next, h.hops];
    LiesAtSplit(t, at, fixed + h.source, h.destination);
    LiesAtSplit(t, at, fixed, h.source);
    LiesAtSlice(t, at + 8, h.source);
    LiesAtSlice(t, at + 24, h.destination);
    MovedU16(fixed, t, at, 4);
    MovedU16(fixed, t, at, 6);
  }

  /** A chain that is cut off inside its header `i` leads no further than that header. */
  lemma {:induction false} ChainIsCut(t: seq<byte>, pos: nat, end: nat, exts: seq<Ext6Header>, last: byte, i: nat)
    requires LiesAt(t, pos, ChainBytes(exts, last)) && i < |exts|
    requires pos + |ChainBytes(exts[..i], exts[i].kind)| <= end <= |t|
    requires end < pos + |ChainBytes(exts[..i], exts[i].kind)| + 2 + |exts[i].body|
    ensures V6Upper(t, pos, end, FirstKind(exts, last))
            == Extension(exts[i].kind, pos + |ChainBytes(exts[..i], exts[i].kind)|)
    decreases |exts|
  {
    var first := [FirstKind(exts[1..], last), exts[0].length] + exts[0].body;
    LiesAtSplit(t, pos, first, ChainBytes(exts[1..], last));
    MovedU16(first, t, pos, 0);
    assert t[pos + 1] == first[1];
    if i == 0 {
      assert V6Extension(t, pos, end, exts[0].kind) == None;
    } else {
      assert exts[..i][0] == exts[0] && exts[..i][1..] == exts[1..][..i - 1];
      assert V6Extension(t, pos, end, exts[0].kind) == Some(Extension(FirstKind(exts[1..], last), pos + |first|));
      ChainIsCut(t, pos + |first|, end, exts[1..], last, i - 1);
    }
  }

  /** A complete chain leads to its end, whatever the window has behind it. */
  lemma {:induction false} ChainIsPassed(t: seq<byte>, pos: nat, end: nat, exts: seq<Ext6Header>, last: byte)
    requires LiesAt(t, pos, ChainBytes(exts, last)) && pos + |ChainBytes(exts, last)| <= end <= |t|
    requires last !in {0, 43, 44, 51, 60, 135}
    ensures V6Upper(t, pos, end, FirstKind(exts, last)) == Extension(last, pos + |ChainBytes(exts, last)|)
    decreases |exts|
  {
    if exts != [] {
      var first := [FirstKind(exts[1..], last), exts[0].length] + exts[0].body;
      LiesAtSplit(t, pos, first, ChainBytes(exts[1..], last));
      MovedU16(first, t, pos, 0);
      assert t[pos + 1] == first[1];
      assert V6Extension(t, pos, end, exts[0].kind) == Some(Extension(FirstKind(exts[1..], last), pos + |first|));
      ChainIsPassed(t, pos + |first|, end, exts[1..], last);
    }
  }

  /** No header, no change: the record stays as it was. */
  lemma UnreadIsSkipped(t: seq<byte>, at: nat, end: nat, etherType: nat, p: Packet, depth: nat)
    requires at <= end <= |t| && depth <= 5 && (etherType == 0x0800 || etherType == 0x86DD)
    ensures IpHeaderAt(t, at, end, etherType).None? ==> DecodeNetwork(t, at, end, etherType, p, depth) == p
    ensures depth == 5 ==> DecodeNetwork(t, at, end, etherType, p, depth) == p
  {
    hide IpHeaderAt, DecodeIp;
  }

  // ----- TCP and UDP

  /** A TCP header (section 3.1 of RFC 9293) with any data offset. */
  function TcpFixedBytes(f: TcpFields, words: nibble): (h: seq<byte>)
    ensures |h| == 20
  {
    PortBytes(f.source, f.destination) + Long(f.sequence) + f.acknowledgement
    + [words * 16 + f.reserved % 16, FlagByte(f), Hi(f.window), Lo(f.window),
       Hi(f.checksum), Lo(f.checksum), Hi(f.urgent), Lo(f.urgent)]
  }

  lemma TcpFieldsAreRead(t: seq<byte>, at: nat, f: TcpFields, words: nibble)
    requires LiesAt(t, at, TcpFixedBytes(f, words))
    ensures at + 20 <= |t|
    ensures U16(t, at) == f.source && U16(t, at + 2) == f.destination && U32(t, at + 4) == f.sequence
    ensures t[at + 12] as int / 16 == words && t[at + 13] == FlagByte(f)
  {
    hide FlagByte, PortBytes, Long, U16, U32;
    var ports, sequence := PortBytes(f.source, f.destination), Long(f.sequence);
    var control := [words * 16 + f.reserved % 16, FlagByte(f), Hi(f.window), Lo(f.window),
                    Hi(f.checksum), Lo(f.checksum), Hi(f.urgent), Lo(f.urgent)];
    LiesAtSplit(t, at, ports + sequence + f.acknowledgement, control);
    LiesAtSplit(t, at, ports + sequence, f.acknowledgement);
    LiesAtSplit(t, at, ports, sequence);
    MovedU16(ports, t, at, 0);
    MovedU16(ports, t, at, 2);
    MovedU32(sequence, t, at + 4, 0);
    MovedU16(control, t, at + 12, 0);
    MovedU16(control, t, at + 12, 1);
  }

  /** Ports and flags need the fixed part; a payload needs a data offset behind it and before the end. */
  lemma AnyTcpIsRead(t: seq<byte>, at: nat, end: nat, f: TcpFields, words: nibble, p: Packet)
    requires LiesAt(t, at, TcpFixedBytes(f, words)) && at <= end <= |t|
    ensures DecodeTcp(t, at, end, p)
            == if end < at + 20 then p.(protocol := Tcp)
               else
                 var q := p.(protocol := Tcp, srcPort := f.source, dstPort := f.destination, tcpSeq := f.sequence,
                             tcpFin := f.fin, tcpSyn := f.syn, tcpRst := f.rst, tcpAck := f.ack);
                 if 5 <= words && at + 4 * words < end
                 then q.(payloadOffset := at + 4 * words, payloadLength := end - (at + 4 * words)) else q
  {
    hide TcpFixedBytes, U16, U32, FlagByte;
    TcpFieldsAreRead(t, at, f, words);
    FlagsAreRead(f);
  }

  /** A datagram ends where its length says, unless that is shorter than a header or beyond the capture. */
  lemma AnyUdpIsRead(
      t: seq<byte>, at: nat, end: nat, source: port, destination: port, length: port, checksum: port, p: Packet, depth: nat)
    requires LiesAt(t, at, UdpBytes(source, destination, length, checksum)) && at <= end <= |t|
    requires depth == 4 || (depth < 4 && !TunnelPort(source) && !TunnelPort(destination))
    ensures DecodeUdp(t, at, end, p, depth)
            == if end < at + 8 then p.(protocol := Udp)
               else
                 var q := p.(protocol := Udp, srcPort := source, dstPort := destination);
                 var stop := if length < 8 || end < at + length then end else at + length;
                 if at + 8 < stop then q.(payloadOffset := at + 8, payloadLength := stop - (at + 8)) else q
  {
    hide U16, DecodeVxlan, DecodeGeneve;
    UdpFieldsAreRead(t, at, source, destination, length, checksum);
  }

  lemma UdpFieldsAreRead(t: seq<byte>, at: nat, source: port, destination: port, length: port, checksum: port)
    requires LiesAt(t, at, UdpBytes(source, destination, length, checksum))
    ensures at + 8 <= |t| && U16(t, at) == source && U16(t, at + 2) == destination && U16(t, at + 4) == length
  {
    var h := UdpBytes(source, destination, length, checksum);
    MovedU16(h, t, at, 0);
    MovedU16(h, t, at, 2);
    MovedU16(h, t, at, 4);
  }

  // ----- tunnels

  /** A GRE header (RFC 2784, RFC 2890): three optional fields, and every other bit of the first word. */
  datatype GreHeader = GreHeader(
    checksum: Option<Quad>, routing: bool, key: Option<Quad>, sequence: Option<Quad>, low: FlagBits, version: octal,
    etherType: port)
  {
    function Flags(): port {
      (if checksum.Some? then 0x8000 else 0) + (if routing then 0x4000 else 0) + (if key.Some? then 0x2000 else 0)
      + (if sequence.Some? then 0x1000 else 0) + 8 * low + version
    }

    function Bytes(): seq<byte> {
      Word(Flags()) + Word(etherType) + Field(checksum) + Field(key) + Field(sequence)
    }
  }

  type FlagBits = n: int | 0 <= n < 0x200

  function Field(f: Option<Quad>): (b: seq<byte>)
    ensures |b| == if f.Some? then 4 else 0
  {
    if f.Some? then f.value else []
  }

  lemma GreFlags(h: GreHeader)
    ensures var n := h.Flags();
            && n / 0x8000 % 2 == (if h.checksum.Some? then 1 else 0) && n / 0x2000 % 2 == (if h.key.Some? then 1 else 0)
            && n / 0x1000 % 2 == (if h.sequence.Some? then 1 else 0) && n % 8 == h.version
  {
  }

  /** A version 0 header is stepped over with all its fields, if it is complete; any other is not. */
  lemma GreHeaderIsRead(t: seq<byte>, at: nat, end: nat, h: GreHeader)
    requires LiesAt(t, at, h.Bytes()) && at <= end <= |t|
    ensures GreLength(t, at, end) == if h.version == 0 && at + |h.Bytes()| <= end then Some(|h.Bytes()|) else None
    ensures at + 4 <= |t| && U16(t, at + 2) == h.etherType
  {
    hide U16, Word, GreHeader.Flags;
    var a, b := Word(h.Flags()), Word(h.etherType);
    LiesAtSplit(t, at, a + b + Field(h.checksum) + Field(h.key), Field(h.sequence));
    LiesAtSplit(t, at, a + b + Field(h.checksum), Field(h.key));
    LiesAtSplit(t, at, a + b, Field(h.checksum));
    LiesAtSplit(t, at, a, b);
    WordIsRead(t, at, h.Flags());
    WordIsRead(t, at + 2, h.etherType);
    GreFlags(h);
  }

  /** A VXLAN header (section 5 of RFC 7348) by its I bit, and the bits around it. */
  function VxlanBytes(high: nibble, valid: bool, low: octal, rest: seq<byte>): (h: seq<byte>)
    requires |rest| == 7
    ensures |h| == 8
  {
    [high * 16 + 8 * Bit(valid) + low] + rest
  }

  lemma VxlanHeaderIsRead(
      t: seq<byte>, at: nat, end: nat, high: nibble, valid: bool, low: octal, rest: seq<byte>, p: Packet, depth: nat)
    requires |rest| == 7 && LiesAt(t, at, VxlanBytes(high, valid, low, rest)) && at <= end <= |t| && depth < 4
    ensures DecodeVxlan(t, at, end, p, depth)
            == if valid && at + 8 <= end then DecodeInnerEthernet(t, at + 8, end, Push(p, Vxlan), depth) else p
  {
    hide DecodeInnerEthernet, Push;
    MovedU16(VxlanBytes(high, valid, low, rest), t, at, 0);
  }

  type SixBits = n: int | 0 <= n < 64
  type TwoBits = n: int | 0 <= n < 4

  /** The base of a GENEVE header (section 3.4 of RFC 8926). */
  function GeneveBytes(version: TwoBits, words: SixBits, second: byte, etherType: port, rest: Quad): (h: seq<byte>)
    ensures |h| == 8
  {
    [version * 64 + words, second, Hi(etherType), Lo(etherType)] + rest
  }

  lemma GeneveHeaderIsRead(
      t: seq<byte>, at: nat, end: nat, version: TwoBits, words: SixBits, second: byte, etherType: port, rest: Quad,
      p: Packet, depth: nat)
    requires LiesAt(t, at, GeneveBytes(version, words, second, etherType, rest)) && at <= end <= |t| && depth < 4
    ensures DecodeGeneve(t, at, end, p, depth)
            == if version == 0 && at + 8 + 4 * words <= end
               then DecodeInner(t, at + 8 + 4 * words, end, etherType, Push(p, Geneve), depth) else p
  {
    hide DecodeInner, Push;
    var h := GeneveBytes(version, words, second, etherType, rest);
    MovedU16(h, t, at, 0);
    MovedU16(h, t, at, 2);
  }

  /** Inside GRE and GENEVE: an Ethernet frame, an IP packet, or nothing the decoder opens. */
  lemma InnerIsRead(t: seq<byte>, at: nat, end: nat, innerType: nat, p: Packet, depth: nat)
    requires at <= end <= |t| && depth < 4
    ensures DecodeInner(t, at, end, innerType, p, depth)
            == if innerType == 0x6558 then
                 (match EthernetFrame(t, at, end)
                  case None => p
                  case Some(f) => DecodeNetwork(t, f.offset, end, f.etherType, p, depth + 1))
               else if innerType == 0x0800 || innerType == 0x86DD then DecodeNetwork(t, at, end, innerType, p, depth + 1)
               else p
  {
    hide DecodeNetwork;
  }

  /** Label `i` of the stack at `at` is complete and marked as the bottom. */
  predicate Marked(t: seq<byte>, at: nat, end: nat, i: nat)
    requires end <= |t|
  {
    at + 4 * i + 4 <= end && t[at + 4 * i + 2] % 2 == 1
  }

  /** The bottom of an MPLS stack is its first marked label, if that is one of the first 8. */
  lemma {:induction false} BottomIsFirstMarked(t: seq<byte>, at: nat, end: nat, k: nat)
    requires k <= 8 && at + 4 * k <= end <= |t| && forall i: nat :: i < k ==> !Marked(t, at, end, i)
    ensures var b := MplsBottom(t, at + 4 * k, end, 8 - k);
            && (b.None? ==> forall i: nat :: i < 8 ==> !Marked(t, at, end, i))
            && (b.Some? ==> exists i: nat :: i < 8 && b.value == at + 4 * i + 4 && Marked(t, at, end, i)
                              && forall j: nat :: j < i ==> !Marked(t, at, end, j))
    decreases 8 - k
  {
    var pos := at + 4 * k;
    if k < 8 && pos + 4 <= end {
      if t[pos + 2] % 2 != 0 {
        assert Marked(t, at, end, k);
        assert MplsBottom(t, pos, end, 8 - k) == Some(at + 4 * k + 4);
      } else {
        BottomIsFirstMarked(t, at, end, k + 1);
        assert MplsBottom(t, pos, end, 8 - k) == MplsBottom(t, at + 4 * (k + 1), end, 8 - (k + 1));
      }
    }
  }

  /** A stack without a bottom, or with anything but IP below it, is only named. */
  lemma OpaqueMpls(t: seq<byte>, at: nat, end: nat, mpls: nat, p: Packet, depth: nat)
    requires at <= end <= |t| && depth <= 4 && (mpls == 0x8847 || mpls == 0x8848)
    requires var b := MplsBottom(t, at, end, 8);
             b.Some? ==> b.value == end || (t[b.value] / 16 != 4 && t[b.value] / 16 != 6)
    ensures DecodeNetwork(t, at, end, mpls, p, depth) == if p.protocol == Unknown then p.(protocol := Mpls) else p
  {
    hide MplsBottom, DecodeIp, IpHeaderAt;
  }

  /** A PPPoE session header (section 4 of RFC 2516) with the PPP protocol number behind it. */
  lemma PppoeHeaderIsRead(t: seq<byte>, at: nat, end: nat, head: seq<byte>, ppp: port, p: Packet, depth: nat)
    requires |head| == 6 && LiesAt(t, at, head + Word(ppp)) && at <= end <= |t| && depth <= 4
    ensures var r := if at + 8 <= end && ppp == 0x0021
                     then DecodeNetwork(t, at + 8, end, 0x0800, Push(p, PppoeTunnel), depth + 1)
                     else if at + 8 <= end && ppp == 0x0057
                     then DecodeNetwork(t, at + 8, end, 0x86DD, Push(p, PppoeTunnel), depth + 1)
                     else p;
            DecodeNetwork(t, at, end, 0x8864, p, depth) == if r.protocol == Unknown then r.(protocol := Pppoe) else r
  {
    hide DecodeIp, IpHeaderAt, Push, Word, U16;
    LiesAtSplit(t, at, head, Word(ppp));
    WordIsRead(t, at + 6, ppp);
    assert DecodeNetwork(t, at, end, 0x8864, p, depth)
        == (var q := DecodePppoe(t, at, end, p, depth); if q.protocol == Unknown then q.(protocol := Pppoe) else q);
  }

  // ----- ARP

  /** The fixed part of an ARP message (RFC 826). */
  function ArpFixed(hardware: port, protocolType: port, hlen: byte, plen: byte, operation: port): (h: seq<byte>)
    ensures |h| == 8
  {
    [Hi(hardware), Lo(hardware), Hi(protocolType), Lo(protocolType), hlen, plen, Hi(operation), Lo(operation)]
  }

  /** Addresses are taken only from a complete message about IPv4. */
  lemma ArpHeaderIsRead(
      t: seq<byte>, at: nat, end: nat, hardware: port, protocolType: port, hlen: byte, plen: byte, operation: port, p: Packet,
      depth: nat)
    requires LiesAt(t, at, ArpFixed(hardware, protocolType, hlen, plen, operation)) && at <= end <= |t| && depth <= 4
    ensures DecodeNetwork(t, at, end, 0x0806, p, depth)
            == if at + 8 <= end && protocolType == 0x0800 && plen == 4 && at + 16 + 2 * hlen as int <= end
               then p.(protocol := Arp, srcIP := [4] + t[at + 8 + hlen as int..at + 12 + hlen as int],
                       dstIP := [4] + t[at + 12 + 2 * hlen as int..at + 16 + 2 * hlen as int])
               else p.(protocol := Arp)
  {
    var h := ArpFixed(hardware, protocolType, hlen, plen, operation);
    MovedU16(h, t, at, 2);
    MovedU16(h, t, at, 4);
  }

  // ----- link layers

  /** A frame cut off inside its Ethernet header or its VLAN tags has no network layer. */
  lemma {:induction false} TagsAreCut(t: seq<byte>, pos: nat, end: nat, tags: seq<VlanTag>, etherType: port)
    requires LiesAt(t, pos, TagBytes(tags, etherType)) && pos <= end <= |t|
    requires end < pos + |TagBytes(tags, etherType)|
    ensures SkipVlans(t, pos, end, FirstType(tags, etherType)).None?
    decreases |tags|
  {
    var next := FirstType(tags[1..], etherType);
    var first := [Hi(tags[0].control), Lo(tags[0].control), Hi(next), Lo(next)];
    LiesAtSplit(t, pos, first, TagBytes(tags[1..], etherType));
    MovedU16(first, t, pos, 2);
    if pos + 4 <= end { TagsAreCut(t, pos + 4, end, tags[1..], etherType); }
  }

  lemma FrameIsCut(t: seq<byte>, end: nat, destination: Mac, source: Mac, tags: seq<VlanTag>, etherType: port)
    requires LiesAt(t, 0, EthernetBytes(destination, source, tags, etherType)) && end <= |t|
    requires end < |EthernetBytes(destination, source, tags, etherType)|
    ensures EthernetFrame(t, 0, end).None?
  {
    hide SkipVlans;
    var first := FirstType(tags, etherType);
    LiesAtSplit(t, 0, destination + source + [Hi(first), Lo(first)], TagBytes(tags, etherType));
    LiesAtSplit(t, 0, destination + source, [Hi(first), Lo(first)]);
    MovedU16([Hi(first), Lo(first)], t, 12, 0);
    if end >= 14 { TagsAreCut(t, 14, end, tags, etherType); }
  }

  /** A capture without a link layer is told by the first four bits of the packet, and so is an unknown loopback family. */
  lemma RawIsSniffed(s: seq<byte>, timestamp: int, length: uint32)
    requires s != []
    ensures Parse(s, RawIP, timestamp, length)
            == if s[0] / 16 == 4 then Parse(s, LinkIPv4, timestamp, length)
               else if s[0] / 16 == 6 then Parse(s, LinkIPv6, timestamp, length)
               else Start(timestamp, length).(protocol := Truncated)
  {
    hide DecodeNetwork;
  }

  /** Without a link layer, decoding begins with the first byte. */
  lemma BareIsRead(s: seq<byte>, timestamp: int, length: uint32)
    requires s != []
    ensures Parse(s, LinkIPv4, timestamp, length) == DecodeNetwork(s, 0, |s|, 0x0800, Start(timestamp, length), 0)
    ensures Parse(s, LinkIPv6, timestamp, length) == DecodeNetwork(s, 0, |s|, 0x86DD, Start(timestamp, length), 0)
  {
    hide DecodeNetwork;
  }

  /** A family that is neither byte order of a known one: the packet behind it is told by its first four bits. */
  lemma UnknownFamilyIsSniffed(s: seq<byte>, link: LinkType, a: byte, b: byte, c: byte, d: byte)
    requires LiesAt(s, 0, [a, b, c, d]) && (link == NullLoopback || link == Loop)
    requires !(a == b == c == 0 && d in {2, 10, 23, 24, 28, 30})
    requires link == NullLoopback ==> !(b == c == d == 0 && a in {2, 10, 23, 24, 28, 30})
    ensures LinkFrame(s, link)
            == if |s| > 4 && s[4] / 16 == 4 then Some(Frame(4, 0x0800))
               else if |s| > 4 && s[4] / 16 == 6 then Some(Frame(4, 0x86DD)) else None
  {
    var w := [a, b, c, d];
    assert s[0] == w[0] && s[1] == w[1] && s[2] == w[2] && s[3] == w[3];
  }

  /** What is reported when there is no network layer to decode. */
  lemma NoNetworkLayer(s: seq<byte>, link: LinkType, timestamp: int, length: uint32)
    ensures s == [] ==>
              Parse(s, link, timestamp, length)
              == Packet(timestamp, length, Unknown, [], [], 0, 0, false, false, false, false, 0, 0, 0, [], [], [], false)
              == Start(timestamp, length)
    ensures s != [] && link == Unsupported ==>
              Parse(s, link, timestamp, length) == Start(timestamp, length).(protocol := UnsupportedLink)
    ensures s != [] && link != Unsupported && LinkFrame(s, link).None? ==>
              Parse(s, link, timestamp, length) == Start(timestamp, length).(protocol := Truncated)
    ensures |s| < 16 ==> LinkFrame(s, LinuxSLL).None?
    ensures |s| < 20 ==> LinkFrame(s, LinuxSLL2).None?
    ensures |s| < 4 ==> LinkFrame(s, NullLoopback).None? && LinkFrame(s, Loop).None?
    ensures |s| < 14 ==> LinkFrame(s, Ethernet).None?
  {
    hide DecodeNetwork;
  }
}
