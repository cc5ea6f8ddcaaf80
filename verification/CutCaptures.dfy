/**
  Captures cut short anywhere (src/core/ProtocolParser.cpp:352-409, 489-547,
  683-702): a frame of which only the first `n` bytes were captured yields what
  those bytes say, and no more.
*/
module CutCaptures {
  import opened Bytes
  import opened Packet
  import opened Decode
  import opened DecodeLift
  import opened Transparency
  import opened DecodeRoundTrip
  import opened Headers

  /** Decoding the first `n` bytes is decoding the whole capture within a window of `n` bytes. */
  lemma CutIsWindow(s: seq<byte>, n: nat, timestamp: int, length: uint32)
    requires 0 < n <= |s|
    ensures Parse(s[..n], Ethernet, timestamp, length)
            == match EthernetFrame(s, 0, n)
               case None => Start(timestamp, length).(protocol := Truncated)
               case Some(f) => DecodeNetwork(s, f.offset, n, f.etherType, Start(timestamp, length), 0)
  {
    hide EthernetFrame, DecodeNetwork;
    var t, start := s[..n], Start(timestamp, length);
    MovedEthernetFrame(t, s, 0, 0, n);
    var f := EthernetFrame(t, 0, n);
    if f.Some? {
      assert Lift(start, start, 0) == start;
      NetworkLifts(t, s, 0, f.value.offset, n, f.value.etherType, start, start, 0, 0);
      CaptureIsKept(t, f.value.offset, n, f.value.etherType, start, 0);
      LiftInPlace(DecodeNetwork(t, f.value.offset, n, f.value.etherType, start, 0), start);
    }
  }

  lemma LiftInPlace(r: Packet, start: Packet)
    requires start == Start(r.timestamp, r.length)
    ensures Lift(r, start, 0) == r
  {
    assert [] + r.tunnel == r.tunnel;
  }

  lemma V4BytesAre(total: port, protocol: byte, source: Quad, destination: Quad, options: Options, f: V4Fields) returns (h: V4Fixed)
    ensures h == V4Fixed(4, 5 + |options| / 4, f.tos, total, f.id, f.flags, 0, f.ttl, protocol, f.checksum, source, destination)
    ensures V4Bytes(total, protocol, source, destination, options, f) == h.Bytes() + options
  {
    h := V4Fixed(4, 5 + |options| / 4, f.tos, total, f.id, f.flags, 0, f.ttl, protocol, f.checksum, source, destination);
    assert Hi(h.Control()) == f.flags * 32 && Lo(h.Control()) == 0;
  }

  lemma V6BytesAre(payload: port, protocol: byte, source: Sixteen, destination: Sixteen, exts: seq<Ext6Header>, f: V6Fields)
    ensures V6Bytes(payload, protocol, source, destination, exts, f)
            == V6Fixed(96 + f.class0 % 16, f.class1, f.flow, payload, FirstKind(exts, protocol), f.hops, source, destination)
               .Bytes() + ChainBytes(exts, protocol)
  {
    hide ChainBytes;
  }

  /** A cut IP header: complete, it ends its packet at the cut at the latest; an IPv4 one cut short is not read. */
  lemma CutIpIsRead(t: seq<byte>, at: nat, end: nat, ip: Ip, protocol: byte, n: nat)
    requires ip.Fits(protocol, n) && LiesAt(t, at, ip.Bytes(protocol, n)) && at <= end <= |t|
    requires protocol !in {0, 43, 44, 51, 60, 135}
    ensures at + ip.Size(protocol) <= end ==>
              IpHeaderAt(t, at, end, ip.Type())
              == Some(IpHeader(ip.Source(), ip.Destination(), protocol, at + ip.Size(protocol),
                               Min(end, at + ip.Size(protocol) + n), false))
    ensures end < at + (if ip.Ip4? then ip.Size(protocol) else 40) ==> IpHeaderAt(t, at, end, ip.Type()).None?
  {
    hide V6Upper, ChainBytes, IpHeaderAt, LiesAt;
    match ip
    case Ip4(source, destination, options, fields) =>
      var h := V4BytesAre(ip.Size(protocol) + n, protocol, source, destination, options, fields);
      LiesAtSplit(t, at, h.Bytes(), options);
      V4HeaderIsRead(t, at, end, h);
    case Ip6(source, destination, exts, fields) =>
      var h := V6Fixed(96 + fields.class0 % 16, fields.class1, fields.flow, ip.Size(protocol) - 40 + n,
                       FirstKind(exts, protocol), fields.hops, source, destination);
      V6BytesAre(ip.Size(protocol) - 40 + n, protocol, source, destination, exts, fields);
      LiesAtSplit(t, at, h.Bytes(), ChainBytes(exts, protocol));
      V6HeaderIsRead(t, at, end, h);
      if at + ip.Size(protocol) <= end {
        ChainIsPassed(t, at + 40, Min(end, at + ip.Size(protocol) + n), exts, protocol);
      }
  }

  /** An IPv6 packet cut in extension header `i` is named after that header. */
  lemma CutChainIsNamed(
      t: seq<byte>, at: nat, end: nat, ip: Ip, protocol: byte, n: nat, i: nat, p: Packet)
    requires ip.Ip6? && ip.Fits(protocol, n) && LiesAt(t, at, ip.Bytes(protocol, n)) && end <= |t| && i < |ip.exts|
    requires var before := at + 40 + |ChainBytes(ip.exts[..i], ip.exts[i].kind)|;
             before <= end < before + 2 + |ip.exts[i].body| && end <= at + ip.Size(protocol) + n
    ensures DecodeNetwork(t, at, end, 0x86DD, p, 0)
            == p.(srcIP := ip.Source(), dstIP := ip.Destination(),
                  protocol := if ip.exts[i].kind == 51 then NamedIp(51) else OtherIp(ip.exts[i].kind))
  {
    hide V6Upper, ChainBytes, IpHeaderAt, LiesAt, DecodeNetwork, DecodeTransport, V6Bytes, Keeps;
    V6BytesAre(ip.Size(protocol) - 40 + n, protocol, ip.source6, ip.destination6, ip.exts, ip.fields6);
    var h := V6Fixed(96 + ip.fields6.class0 % 16, ip.fields6.class1, ip.fields6.flow, ip.Size(protocol) - 40 + n,
                     FirstKind(ip.exts, protocol), ip.fields6.hops, ip.source6, ip.destination6);
    LiesAtSplit(t, at, h.Bytes(), ChainBytes(ip.exts, protocol));
    V6HeaderIsRead(t, at, end, h);
    ChainIsCut(t, at + 40, end, ip.exts, protocol, i);
    CutNetworkIsRead(t, at, end, 0x86DD, p);
    var header := IpHeaderAt(t, at, end, 0x86DD).value;
    ExtensionIsNamed(t, header.start, header.stop, header.protocol, p.(srcIP := header.src, dstIP := header.dst));
  }

  /** The number of an extension header is no transport protocol. */
  lemma ExtensionIsNamed(t: seq<byte>, at: nat, end: nat, kind: byte, p: Packet)
    requires at <= end <= |t| && kind in {0, 43, 44, 51, 60, 135}
    ensures DecodeTransport(t, at, end, kind, p, 0)
            == p.(protocol := if kind == 51 then NamedIp(51) else OtherIp(kind))
  {
    hide DecodeTcp, DecodeUdp, DecodeGre, DecodeNetwork;
  }

  /** Whatever the cut, down to the transport header; the window ends at the cut at the latest. */
  lemma CutFrameIsRead(
      s: seq<byte>, destination: Mac, source: Mac, tags: seq<VlanTag>, ip: Ip, protocol: byte, segment: seq<byte>,
      padding: seq<byte>, n: nat, timestamp: int, length: uint32)
    requires ip.Fits(protocol, |segment|) && protocol !in {0, 43, 44, 51, 60, 135}
    requires s == FrameBytes(destination, source, tags, ip, protocol, segment, padding) && n <= |s|
    ensures var e := |EthernetBytes(destination, source, tags, ip.Type())|;
            var at := e + ip.Size(protocol);
            var start := Start(timestamp, length);
            var r := Parse(s[..n], Ethernet, timestamp, length);
            && at + |segment| <= |s| && LiesAt(s, at, segment)
            && (n == 0 ==> r == start)
            && (0 < n < e ==> r == start.(protocol := Truncated))
            && (e <= n < e + (if ip.Ip4? then ip.Size(protocol) else 40) ==> r == start)
            && (at <= n ==> r == DecodeTransport(s, at, Min(n, at + |segment|), protocol,
                                                 start.(srcIP := ip.Source(), dstIP := ip.Destination()), 0))
  {
    hide EthernetBytes, IpHeaderAt, DecodeTransport, Ip.Bytes, Ip.Size, Ip.Fits, Ip.Source, Ip.Destination, LiesAt, EthernetFrame,
      Parse, FrameBytes, DecodeNetwork;
    var eth := EthernetBytes(destination, source, tags, ip.Type());
    PiecesOfFrame(s, destination, source, tags, ip, protocol, segment, padding);
    if n == 0 {
      NoNetworkLayer(s[..0], Ethernet, timestamp, length);
      assert s[..0] == [];
    } else {
      CutIsWindow(s, n, timestamp, length);
      if n < |eth| {
        FrameIsCut(s, n, destination, source, tags, ip.Type());
      } else {
        SizeOf(ip, protocol);
        FrameIsWhole(s, n, destination, source, tags, ip.Type());
        CutIpIsRead(s, |eth|, n, ip, protocol, |segment|);
        CutNetworkIsRead(s, |eth|, n, ip.Type(), Start(timestamp, length));
      }
    }
  }

  lemma PiecesOfFrame(s: seq<byte>, destination: Mac, source: Mac, tags: seq<VlanTag>, ip: Ip, protocol: byte,
                      segment: seq<byte>, padding: seq<byte>)
    requires ip.Fits(protocol, |segment|) && s == FrameBytes(destination, source, tags, ip, protocol, segment, padding)
    ensures var e := |EthernetBytes(destination, source, tags, ip.Type())|;
            && LiesAt(s, 0, EthernetBytes(destination, source, tags, ip.Type()))
            && LiesAt(s, e, ip.Bytes(protocol, |segment|))
            && LiesAt(s, e + ip.Size(protocol), segment) && e + ip.Size(protocol) + |segment| <= |s|
  {
    hide EthernetBytes, Ip.Bytes, Ip.Size, Ip.Fits, LiesAt;
    FourPieces(s, EthernetBytes(destination, source, tags, ip.Type()), ip.Bytes(protocol, |segment|), segment, padding);
  }

  lemma FourPieces(s: seq<byte>, a: seq<byte>, b: seq<byte>, c: seq<byte>, d: seq<byte>)
    requires s == a + b + c + d
    ensures LiesAt(s, 0, a) && LiesAt(s, |a|, b) && LiesAt(s, |a| + |b|, c)
  {
    LiesAtSplit(s, 0, a + b + c, d);
    LiesAtSplit(s, 0, a + b, c);
    LiesAtSplit(s, 0, a, b);
  }

  lemma SizeOf(ip: Ip, protocol: byte)
    ensures ip.Size(protocol) >= if ip.Ip4? then 20 else 40
    ensures ip.Type() == 0x0800 || ip.Type() == 0x86DD
  {
  }

  lemma CutNetworkIsRead(t: seq<byte>, at: nat, end: nat, etherType: nat, p: Packet)
    requires at <= end <= |t| && (etherType == 0x0800 || etherType == 0x86DD)
    ensures var h := IpHeaderAt(t, at, end, etherType);
            DecodeNetwork(t, at, end, etherType, p, 0)
            == if h.None? then p
               else if h.value.fragment then p.(srcIP := h.value.src, dstIP := h.value.dst, protocol := Ipv4Fragment)
               else DecodeTransport(t, h.value.start, h.value.stop, h.value.protocol,
                                    p.(srcIP := h.value.src, dstIP := h.value.dst), 0)
  {
    hide IpHeaderAt, DecodeTransport;
  }

  lemma {:induction false} TagsAreWhole(t: seq<byte>, pos: nat, end: nat, tags: seq<VlanTag>, etherType: port)
    requires LiesAt(t, pos, TagBytes(tags, etherType)) && etherType !in {0x8100, 0x88A8, 0x9100}
    requires pos + |TagBytes(tags, etherType)| <= end <= |t|
    ensures SkipVlans(t, pos, end, FirstType(tags, etherType))
            == Some(Frame(pos + |TagBytes(tags, etherType)|, etherType))
    decreases |tags|
  {
    if tags != [] {
      var next := FirstType(tags[1..], etherType);
      var first := [Hi(tags[0].control), Lo(tags[0].control), Hi(next), Lo(next)];
      LiesAtSplit(t, pos, first, TagBytes(tags[1..], etherType));
      MovedU16(first, t, pos, 2);
      TagsAreWhole(t, pos + 4, end, tags[1..], etherType);
    }
  }

  lemma FrameIsWhole(t: seq<byte>, end: nat, destination: Mac, source: Mac, tags: seq<VlanTag>, etherType: port)
    requires LiesAt(t, 0, EthernetBytes(destination, source, tags, etherType)) && etherType !in {0x8100, 0x88A8, 0x9100}
    requires |EthernetBytes(destination, source, tags, etherType)| <= end <= |t|
    ensures EthernetFrame(t, 0, end) == Some(Frame(|EthernetBytes(destination, source, tags, etherType)|, etherType))
  {
    hide SkipVlans;
    var first := FirstType(tags, etherType);
    LiesAtSplit(t, 0, destination + source + [Hi(first), Lo(first)], TagBytes(tags, etherType));
    LiesAtSplit(t, 0, destination + source, [Hi(first), Lo(first)]);
    MovedU16([Hi(first), Lo(first)], t, 12, 0);
    TagsAreWhole(t, 14, end, tags, etherType);
  }

  /** What a TCP segment at `at` says when bytes up to `end` are there: its header, with options, is `header` long. */
  function TcpSeen(p: Packet, f: TcpFields, at: nat, header: nat, end: nat): Packet {
    if end < at + 20 then p.(protocol := Tcp)
    else
      var q := p.(protocol := Tcp, srcPort := f.source, dstPort := f.destination, tcpSeq := f.sequence,
                  tcpFin := f.fin, tcpSyn := f.syn, tcpRst := f.rst, tcpAck := f.ack);
      if end <= at + header then q else q.(payloadOffset := at + header, payloadLength := end - (at + header))
  }

  lemma CutTcpIsRead(t: seq<byte>, at: nat, end: nat, f: TcpFields, options: Options, p: Packet)
    requires LiesAt(t, at, TcpBytes(f, options)) && at <= end <= |t|
    ensures DecodeTransport(t, at, end, 6, p, 0) == TcpSeen(p, f, at, 20 + |options|, end)
  {
    hide TcpBytes, DecodeTcp, LiesAt, FlagByte, PortBytes, Long, DecodeTransport, TcpFixedBytes;
    TcpBytesAre(f, options);
    LiesAtSplit(t, at, TcpFixedBytes(f, 5 + |options| / 4), options);
    AnyTcpIsRead(t, at, end, f, 5 + |options| / 4, p);
    TransportIsTcp(t, at, end, p);
  }

  /**
    A TCP frame of which `n` bytes were captured: nothing but its protocol before
    the fixed header is there, ports and flags from then on, and of the payload what
    was captured.
  */
  lemma CutTcpFrameIsRead(
      destination: Mac, source: Mac, tags: seq<VlanTag>, ip: Ip, f: TcpFields, options: Options, payload: seq<byte>,
      padding: seq<byte>, n: nat, timestamp: int, length: uint32)
    requires ip.Fits(6, 20 + |options| + |payload|)
    requires n <= |FrameBytes(destination, source, tags, ip, 6, TcpBytes(f, options) + payload, padding)|
    requires n >= |EthernetBytes(destination, source, tags, ip.Type())| + ip.Size(6)
    ensures var s := FrameBytes(destination, source, tags, ip, 6, TcpBytes(f, options) + payload, padding);
            var at := |EthernetBytes(destination, source, tags, ip.Type())| + ip.Size(6);
            var behind := at + 20 + |options|;
            var end := Min(n, behind + |payload|);
            var r := Parse(s[..n], Ethernet, timestamp, length);
            && r == TcpSeen(Start(timestamp, length).(srcIP := ip.Source(), dstIP := ip.Destination()), f, at, 20 + |options|, end)
            && (end > behind ==> Payload(s[..n], r) == payload[..end - behind])
  {
    hide FrameBytes, TcpBytes, DecodeTcp, Parse, Ip.Size, Ip.Fits, EthernetBytes, Ip.Source, Ip.Destination, LiesAt, DecodeTransport;
    var segment := TcpBytes(f, options) + payload;
    var s := FrameBytes(destination, source, tags, ip, 6, segment, padding);
    var at := |EthernetBytes(destination, source, tags, ip.Type())| + ip.Size(6);
    CutFrameIsRead(s, destination, source, tags, ip, 6, segment, padding, n, timestamp, length);
    LiesAtSplit(s, at, TcpBytes(f, options), payload);
    CutTcpIsRead(s, at, Min(n, at + |segment|), f, options,
                 Start(timestamp, length).(srcIP := ip.Source(), dstIP := ip.Destination()));
    CutPayload(s, n, at + 20 + |options|, payload);
  }

  lemma TransportIsTcp(s: seq<byte>, at: nat, end: nat, p: Packet)
    requires at <= end <= |s|
    ensures DecodeTransport(s, at, end, 6, p, 0) == DecodeTcp(s, at, end, p)
    ensures DecodeTransport(s, at, end, 17, p, 0) == DecodeUdp(s, at, end, p, 0)
  {
    hide DecodeTcp, DecodeUdp;
  }

  lemma TcpBytesAre(f: TcpFields, options: Options)
    ensures TcpBytes(f, options) == TcpFixedBytes(f, 5 + |options| / 4) + options
  {
    hide FlagByte, PortBytes, Long;
  }

  lemma CutPayload(s: seq<byte>, n: nat, at: nat, payload: seq<byte>)
    requires LiesAt(s, at, payload) && n <= |s|
    ensures var got := Min(n, at + |payload|) - at; got > 0 ==> s[..n][at..at + got] == payload[..got]
  {
    LiesAtSlice(s, at, payload);
    var got := Min(n, at + |payload|) - at;
    if got > 0 {
      SliceOfSlice(s, at, at + |payload|, 0, got);
      assert s[..n][at..at + got] == s[at..at + got];
    }
  }

  /** The same for a UDP datagram: its length field does not reach beyond the capture. */
  lemma CutUdpFrameIsRead(
      destination: Mac, source: Mac, tags: seq<VlanTag>, ip: Ip, from: port, dest: port, checksum: port, payload: seq<byte>,
      padding: seq<byte>, n: nat, timestamp: int, length: uint32)
    requires |payload| < 0x1_0000 - 8 && ip.Fits(17, 8 + |payload|) && !TunnelPort(from) && !TunnelPort(dest)
    requires n <= |FrameBytes(destination, source, tags, ip, 17, UdpBytes(from, dest, 8 + |payload|, checksum) + payload, padding)|
    requires n >= |EthernetBytes(destination, source, tags, ip.Type())| + ip.Size(17)
    ensures var s := FrameBytes(destination, source, tags, ip, 17, UdpBytes(from, dest, 8 + |payload|, checksum) + payload, padding);
            var at := |EthernetBytes(destination, source, tags, ip.Type())| + ip.Size(17);
            var r := Parse(s[..n], Ethernet, timestamp, length);
            var named := Start(timestamp, length).(protocol := Udp, srcIP := ip.Source(), dstIP := ip.Destination());
            var read := named.(srcPort := from, dstPort := dest);
            var got := Min(n, at + 8 + |payload|) - (at + 8);
            if n < at + 8 then r == named
            else if got <= 0 then r == read
            else r == read.(payloadOffset := at + 8, payloadLength := got) && Payload(s[..n], r) == payload[..got]
  {
    hide FrameBytes, UdpBytes, DecodeUdp, Parse, Ip.Size, Ip.Fits, EthernetBytes, Ip.Source, Ip.Destination, LiesAt, DecodeTransport;
    var h := UdpBytes(from, dest, 8 + |payload|, checksum);
    var s := FrameBytes(destination, source, tags, ip, 17, h + payload, padding);
    var at := |EthernetBytes(destination, source, tags, ip.Type())| + ip.Size(17);
    CutFrameIsRead(s, destination, source, tags, ip, 17, h + payload, padding, n, timestamp, length);
    LiesAtSplit(s, at, h, payload);
    var end := Min(n, at + 8 + |payload|);
    var p := Start(timestamp, length).(srcIP := ip.Source(), dstIP := ip.Destination());
    AnyUdpIsRead(s, at, end, from, dest, 8 + |payload|, checksum, p, 0);
    TransportIsTcp(s, at, end, p);
    CutPayload(s, n, at + 8, payload);
  }
}
