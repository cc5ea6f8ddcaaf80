/**
  Protocols that are only named (src/core/ProtocolParser.cpp:49-83, 440-487, 560-573):
  which number of an IP header and which EtherType gets which name, for whole packets.
*/
module ProtocolNames {
  import opened Bytes
  import opened Packet
  import opened Decode
  import opened DecodeRoundTrip

  /**
    A packet whose protocol is neither TCP, UDP nor a tunnel: its addresses and the
    protocol's name are all that is recorded. (Under IPv6 the numbers of extension
    headers announce those, AH among them.)
  */
  lemma ProtocolIsNamed(
      destination: Mac, source: Mac, tags: seq<VlanTag>, ip: Ip, protocol: byte, segment: seq<byte>, padding: seq<byte>,
      timestamp: int, length: uint32)
    requires ip.Fits(protocol, |segment|) && (ip.Ip6? ==> protocol !in {0, 43, 44, 51, 60, 135})
    requires protocol !in {4, 6, 17, 41, 47}
    ensures var s := FrameBytes(destination, source, tags, ip, protocol, segment, padding);
            Parse(s, Ethernet, timestamp, length)
            == Start(timestamp, length).(
                 srcIP := ip.Source(), dstIP := ip.Destination(), encryptedTunnel := protocol == 50,
                 protocol := if protocol == 1 then Icmp
                             else if protocol == 58 then Icmpv6
                             else if protocol == 50 then Esp
                             else if protocol in {2, 33, 51, 89, 103, 112, 132} then NamedIp(protocol)
                             else OtherIp(protocol))
  {
    hide FrameBytes, Parse, Ip.Size, Ip.Bytes, Ip.Fits, EthernetBytes, Ip.Source, Ip.Destination;
    FrameIsRead(destination, source, tags, ip, protocol, segment, padding, timestamp, length);
  }

  /** A frame whose EtherType the decoder does not open: only the type is recorded, whatever link it came over. */
  lemma EtherTypeIsNamed(s: seq<byte>, link: LinkType, at: nat, etherType: nat, timestamp: int, length: uint32)
    requires LinkFrame(s, link) == Some(Frame(at, etherType)) && s != []
    requires etherType !in {0x0800, 0x0806, 0x86DD, 0x8847, 0x8848, 0x8864}
    ensures Parse(s, link, timestamp, length)
            == Start(timestamp, length).(
                 protocol := if etherType in {0x88CC, 0x888E, 0x8863, 0x8100, 0x88A8, 0x9100, 0x8137, 0x88F7, 0x22EA,
                                              0x8035, 0x9000, 0x88A4, 0x8892}
                             then NamedEther(etherType) else NonIp)
  {
    hide LinkFrame;
  }

  /** The same for an Ethernet frame with any VLAN tags in front of the type. */
  lemma FrameIsNamed(
      destination: Mac, source: Mac, tags: seq<VlanTag>, etherType: port, body: seq<byte>, timestamp: int, length: uint32)
    requires etherType !in {0x0800, 0x0806, 0x86DD, 0x8847, 0x8848, 0x8864, 0x8100, 0x88A8, 0x9100}
    ensures Parse(EthernetBytes(destination, source, tags, etherType) + body, Ethernet, timestamp, length)
            == Start(timestamp, length).(
                 protocol := if etherType in {0x88CC, 0x888E, 0x8863, 0x8137, 0x88F7, 0x22EA, 0x8035, 0x9000, 0x88A4, 0x8892}
                             then NamedEther(etherType) else NonIp)
  {
    hide LinkFrame, EthernetBytes, Parse;
    var eth := EthernetBytes(destination, source, tags, etherType);
    LiesAtSplit(eth + body, 0, eth, body);
    EthernetIsRead(eth + body, destination, source, tags, etherType);
    EtherTypeIsNamed(eth + body, Ethernet, |eth|, etherType, timestamp, length);
  }

  /** An ARP message about IPv4, over any link layer. */
  lemma ArpFrameIsRead(
      s: seq<byte>, link: LinkType, at: nat, hardware: port, operation: port, sha: Hardware, spa: Quad, tha: Hardware,
      tpa: Quad, timestamp: int, length: uint32)
    requires LinkFrame(s, link) == Some(Frame(at, 0x0806)) && |sha| == |tha|
    requires LiesAt(s, at, ArpBytes(hardware, operation, sha, spa, tha, tpa))
    ensures Parse(s, link, timestamp, length)
            == Start(timestamp, length).(protocol := Arp, srcIP := [4] + spa, dstIP := [4] + tpa)
  {
    hide LinkFrame, DecodeArp, ArpBytes;
    LiesWithin(s, at, ArpBytes(hardware, operation, sha, spa, tha, tpa));
    ArpSize(hardware, operation, sha, spa, tha, tpa);
    ArpIsRead(s, at, |s|, hardware, operation, sha, spa, tha, tpa, Start(timestamp, length));
  }

  lemma ArpSize(hardware: port, operation: port, sha: Hardware, spa: Quad, tha: Hardware, tpa: Quad)
    ensures |ArpBytes(hardware, operation, sha, spa, tha, tpa)| == 16 + |sha| + |tha|
  {
  }
}
