/** A decoded packet (src/core/ParsedPacket.hpp), as a value. */
module Packet {
  import opened Bytes

  type port = word
  type uint32 = n: int | 0 <= n < 0x1_0000_0000

  /** The source's protocol label; the name tables behind the last three cases are not modelled. */
  datatype Protocol =
    | Unknown | Truncated | UnsupportedLink
    | Tcp | Udp | Icmp | Icmpv6
    | Gre | Mpls | Pppoe | Esp | Arp | Ipv4Fragment | NonIp
    | NamedIp(number: byte) | OtherIp(number: byte) | NamedEther(etherType: nat)

  datatype Label = IpInIp | SixInFour | GreTunnel | Vxlan | Geneve | MplsTunnel | PppoeTunnel

  datatype Packet = Packet(
    timestamp: int,
    length: uint32,
    protocol: Protocol,
    srcIP: Text,
    dstIP: Text,
    srcPort: port,
    dstPort: port,
    tcpSyn: bool,
    tcpAck: bool,
    tcpFin: bool,
    tcpRst: bool,
    tcpSeq: uint32,
    payloadOffset: nat,
    payloadLength: nat,
    tunnel: seq<Label>,
    outerSrcIP: Text,
    outerDstIP: Text,
    encryptedTunnel: bool)
}
