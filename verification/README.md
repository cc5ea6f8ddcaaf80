# NetProbe core, modelled and proved in Dafny

NetProbe's `src/core` decodes captured packets, reassembles what spans several of
them, and keeps a table of flows. The code is driven by bytes that a stranger
chose. This project models its stateful and recursive parts and proves what they
promise.

| modules | what they model |
|---|---|
| Bytes, Packet | bytes, big-endian reads, the packet record |
| DnsName, DnsRoundTrip | compressed domain names: reader, writer, round trips |
| DnsMessage, DnsMessageRoundTrip, DnsTruncation | DNS responses: parser, round trip over every record type, messages cut short |
| ClientHello, ClientHelloFacts, ClientHelloRoundTrip, ClientHelloInverse | the two ClientHello parsers, where they agree, a writer, and that what they accept was written |
| TlsReassembler, TlsRuns | in-order reassembly of TLS records over TCP, and whole runs of it |
| QuicFrames, QuicFrameRoundTrip | the frames of a decrypted QUIC Initial, and their inverse |
| QuicTracker, QuicRuns, QuicSinglePacket | out-of-order reassembly of CRYPTO fragments, whole runs, and the single-packet shortcut |
| Decode, PacketDecoder | the layered decoder as functions, and as methods that write one record in place |
| DecodeLift, Transparency, UdpTunnels | decoding commutes with encapsulation |
| Hops, DepthBudget | the chain of headers the decoder follows, and the exact depth budget |
| DecodeRoundTrip, PacketBuilders, Fragments | packets written field by field are read back; continuation fragments |
| Headers, CutCaptures, ProtocolNames | every header with any field values and any cut, captures cut short, protocols that are only named |
| FlowKeys, FlowAggregator, FlowRuns, FlowSequences, FlowSnapshots | the flow table and its snapshots, over whole histories |
| JsonString, JsonFacts | the JSON string writer |
| LruCache | the address cache |

The classes (`TlsReassembler`, `QuicTracker`, `FlowAggregator`, `GeoIPResolver`,
`ParsedPacket`) and the methods with loops follow the code statement by statement.
Each is tied to a function of the old state; the lemmas are about those functions
and about whole runs of them. `dafny verify dfyconfig.toml` checks everything.

Modelling conventions. A `size_t` or `int64_t` is an unbounded integer; 32-bit
sequence numbers and 16-bit fields wrap explicitly. Bit masks and shifts are
written as `/` and `%`. A `std::string` is a sequence of bytes. The printed form
of an address is its bytes behind a tag, which is non-empty and injective as
`inet_ntop` is. The database behind the cache, the decryption of an Initial
(`parseInitial`) and timestamps are parameters. A mutex-protected method is one
step.

Where the code and its comments differ, the model follows the code:

- src/core/ProtocolParser.cpp:368-369 says that payload inspection works on the
  innermost transport payload. Over VXLAN and GENEVE an inner packet without payload
  leaves the outer datagram's window in the record; its ports too, unless the inner TCP
  or UDP header is complete; and the protocol UDP in place of GRE for an inner GRE header
  that cannot be read. `UdpTunnels.InnerHidesOuter` gives the whole record,
  `PacketBuilders.MakeVxlanPacket` a packet.
- src/core/ProtocolParser.cpp:106-107 speaks of first fragments. The code walks through
  every IPv6 fragment header, first or not, and reads what follows as a transport header:
  `Fragments.ContinuationReachesTransportIffV6`, and `Fragments.MiddleIsReadAsHeader` for
  a packet.
- src/core/QuicParser.cpp:311-312 passes over a server name list whose first entry is
  not a host_name; src/core/ProtocolParser.cpp:809-819 looks further down the list, but
  never beyond the first server_name extension. `ClientHelloFacts.ParsersAgree` gives the
  exact condition of agreement on the types of the entries.
- src/core/TlsReassembler.cpp:61-67 speaks of a repeat of the segment held. The code
  ignores any data that ends where the accepted data ends, so the tail of a segment too.
- Neither the reader nor the writer of domain names enforces the limit of 255 bytes of
  section 2.3.4 of RFC 1035 (`DnsRoundTrip.LongNameIsRead`); what the reader returns is
  bounded by the length of the message (`DnsName.NameIsBounded`).

## Model

| member | source | states |
|---|---|---|
| Transparency.EncapsulationIsTransparent | src/core/ProtocolParser.cpp:440-547 | A packet that decodes alone, wrapped in well-formed IP-in-IP, 6in4 and GRE layers (any options, extension headers and GRE fields, any link layer, any padding) within the depth budget, gives the same record and the same payload bytes; `tunnel` gains the wrappers outermost first and the outer addresses are the outermost carrier's. The inner packet may hold tunnels of its own: each takes a level, and so does a GRE header it cannot read. |
| Transparency.TransparentIffWithinBudget | src/core/ProtocolParser.cpp:440-487 | Wrapping is transparent if and only if the layers and the inner packet's own levels are at most 4 together: one level per label it decodes to alone, and one more if its chain of inner packets ends at an unreadable GRE header. |
| Transparency.TooDeep | src/core/ProtocolParser.cpp:448-491 | Beyond that budget it is the labels or the protocol that differ. |
| Transparency.PlainNeedsNoLevel | src/core/ProtocolParser.cpp:440-487 | A TCP or UDP packet that opens no tunnel needs no level of its own, so the bound for it is 4 layers. |
| DepthBudget.LiftsIffRoom | src/core/ProtocolParser.cpp:489-573 | For any network layer found at any depth, in a record whose protocol is not known yet: `n` levels deeper it decodes the same, moved and re-labelled, if and only if `n` levels are left. |
| DepthBudget.OverBudget | src/core/ProtocolParser.cpp:448-491 | Without that room the labels fall short, or the protocol is another. |
| DepthBudget.GreEndIsNamed | src/core/ProtocolParser.cpp:464-469 | A chain that ends at an unreadable GRE header reports GRE (or UDP, below a UDP tunnel) when a level is left for it, and its protocol number at the last level. |
| DepthBudget.OverflowIsNamed | src/core/ProtocolParser.cpp:316-347 | A record with one label more than there are levels ends in an MPLS or PPPoE label, and its protocol is no more than the name of that label or the UDP of a tunnel around it. |
| DepthBudget.NetworkFollows | src/core/ProtocolParser.cpp:489-547 | Decoding a network layer is decoding the next one on its chain of headers, one level deeper and under one more label, but for the name of an unknown protocol. |
| DepthBudget.NetworkEndsChain | src/core/ProtocolParser.cpp:246-347 | Where the chain of headers ends, at most one more label is added. |
| DepthBudget.MovedEndsAtGre | src/core/ProtocolParser.cpp:241-573 | Where the chain of inner packets ends, and after how many hops, does not depend on where the packet lies. |
| Transparency.DescentStops | src/core/ProtocolParser.cpp:448-487 | Behind more layers than the budget allows, the decoder names the carrier it stops at, after exactly as many labels as the budget. |
| Transparency.CarrierIsNamed | src/core/ProtocolParser.cpp:448-487 | At the last level a carrier yields its addresses and its protocol number, and nothing is opened. |
| Transparency.LayerStep | src/core/ProtocolParser.cpp:139-148 | One carrier adds its label, keeps the first carrier's addresses and hands exactly its payload on. |
| Transparency.PayloadStep | src/core/ProtocolParser.cpp:448-469 | The payload of a carrier is decoded as the type it announces, one level deeper; GRE names a protocol that stays unknown. |
| Transparency.Descent | src/core/ProtocolParser.cpp:440-547 | By induction over the layers: decoding the wrapped packet inside any record and at any depth is decoding the inner one behind all carriers, but for the name GRE given to a protocol that stays unknown. |
| Transparency.CarrierIsRead | src/core/ProtocolParser.cpp:504-547 | A complete IPv4 or IPv6 carrier header is read as written: addresses, protocol and payload window, wherever it lies and whatever follows. |
| Transparency.LongerWindow | src/core/ProtocolParser.cpp:88-129 | Walking IPv6 extension headers gives the same upper-layer protocol however many bytes follow the chain. |
| Transparency.GreIsRead | src/core/ProtocolParser.cpp:261-274 | A GRE header with any of its optional fields is stepped over exactly, wherever it lies. |
| Transparency.InsideAllMeans | src/core/ProtocolParser.cpp:139-148 | After all carriers: labels in order, outer addresses set once by the first carrier. |
| Transparency.CaptureIsKept | src/core/ProtocolParser.cpp:489-573 | No decoder touches the timestamp or the captured length. |
| Transparency.MplsStep | src/core/ProtocolParser.cpp:316-334 | At any depth and into any record: a label stack of 1 to 8 labels adds its label and hands on the packet behind it. |
| Transparency.MplsIsTransparent | src/core/ProtocolParser.cpp:316-334 | Wherever in a buffer it is met, at any depth and below any carriers: an IP packet under a label stack decodes as alone, moved, labelled MPLS, while levels are left. |
| Transparency.LabelledFrameIsTransparent | src/core/ProtocolParser.cpp:489-502 | The same for a whole capture of any link layer whose frame holds a label stack or a PPPoE session. |
| Transparency.StackIsWalked | src/core/ProtocolParser.cpp:318-325 | The label loop stops just past the label that is marked as the bottom of the stack. |
| Transparency.PppoeStep | src/core/ProtocolParser.cpp:335-347 | At any depth and into any record: a session header adds its label and hands on the packet behind it. |
| Transparency.PppoeIsTransparent | src/core/ProtocolParser.cpp:335-347 | Wherever in a buffer it is met, at any depth and below any carriers: an IP packet in a PPPoE session decodes as alone, moved, labelled PPPoE, while levels are left. |
| DecodeLift.NetworkLifts | src/core/ProtocolParser.cpp:489-573 | Decoding commutes with moving the packet in a larger buffer, hanging it under other carriers and starting deeper, while its tunnels fit the budget; so no byte outside the window of a layer is ever looked at. |
| DecodeLift.TransportLifts | src/core/ProtocolParser.cpp:440-487 | The same for the transport layer and its gates on the depth. |
| DecodeLift.UdpLifts | src/core/ProtocolParser.cpp:377-409 | The same for UDP, its length field and its tunnel ports. |
| DecodeLift.TcpLifts | src/core/ProtocolParser.cpp:352-375 | The same for TCP. |
| DecodeLift.GreLifts | src/core/ProtocolParser.cpp:261-281 | The same for GRE. |
| DecodeLift.VxlanLifts | src/core/ProtocolParser.cpp:284-291 | The same for VXLAN. |
| DecodeLift.GeneveLifts | src/core/ProtocolParser.cpp:295-314 | The same for GENEVE. |
| DecodeLift.MplsLifts | src/core/ProtocolParser.cpp:316-334 | The same for MPLS. |
| DecodeLift.PppoeLifts | src/core/ProtocolParser.cpp:335-347 | The same for PPPoE. |
| DecodeLift.InnerEthernetLifts | src/core/ProtocolParser.cpp:246-256 | The same for an inner Ethernet frame and its VLAN tags. |
| DecodeLift.IpLifts | src/core/ProtocolParser.cpp:504-547 | The same behind an IP header. |
| DecodeLift.ArpLifts | src/core/ProtocolParser.cpp:549-566 | The same for ARP. |
| DecodeLift.MovedIpHeader | src/core/ProtocolParser.cpp:504-547 | Reading an IP header gives the same fields, and windows moved along, wherever the packet lies. |
| DecodeLift.MovedV6Upper | src/core/ProtocolParser.cpp:538-545 | Walking extension headers moves along with the packet. |
| UdpTunnels.VxlanIsTransparentIffPayload | src/core/ProtocolParser.cpp:284-291 | The whole record of an inner packet without tunnels under VXLAN, and: it is the record decoded alone (moved, labelled) if and only if the inner headers bring a payload, which is a condition on their bytes. Otherwise the outer datagram's window stays; its ports stay unless the inner TCP or UDP header is complete; and its protocol stays where the inner packet alone would be named GRE. |
| UdpTunnels.GeneveIsTransparentIffPayload | src/core/ProtocolParser.cpp:295-314 | The same under GENEVE, with any options and an Ethernet frame or IP packet inside. |
| UdpTunnels.InnerHidesOuter | src/core/ProtocolParser.cpp:352-409 | Field by field, what of the outer datagram survives the decoding of an inner IP packet at any depth; and the inner packet has a payload exactly when it is no IPv4 continuation fragment and its TCP or UDP header is complete with bytes behind it. |
| UdpTunnels.OtherShowsOuter | src/core/ProtocolParser.cpp:440-487 | Every protocol but TCP and UDP leaves the outer ports and window alone; an unreadable GRE header leaves the protocol UDP, too. |
| PacketBuilders.MakeVxlanPacket | tests/parser_test.cpp:1003-1023 | A failing packet: the tests' VXLAN packet, whose inner datagram is empty, reports as its payload the 50 bytes of the outer datagram, while the inner frame alone has none. |
| UdpTunnels.InnerIsRevealed | src/core/ProtocolParser.cpp:246-256 | The step both tunnels share, for an inner Ethernet frame or IP packet. |
| DecodeRoundTrip.TcpFrameIsRead | src/core/ProtocolParser.cpp:683-702 | Every field written is the field read: an Ethernet frame with any VLAN tags, IPv4 with options or IPv6 with extension headers, TCP with any options, any payload and padding. |
| DecodeRoundTrip.UdpFrameIsRead | src/core/ProtocolParser.cpp:377-409 | The same for a UDP datagram on ports that announce no tunnel. |
| DecodeRoundTrip.FrameIsRead | src/core/ProtocolParser.cpp:489-547 | The frame's IP header leads the transport decoder to exactly the segment, not the padding. |
| DecodeRoundTrip.TagsAreRead | src/core/ProtocolParser.cpp:169-175 | Any number of stacked VLAN tags is stepped over, up to the first other EtherType. |
| DecodeRoundTrip.ChainIsRead | src/core/ProtocolParser.cpp:88-129 | Any chain of the six extension headers leads to the protocol it announces, at the first byte after the chain. |
| ProtocolNames.ProtocolIsNamed | src/core/ProtocolParser.cpp:440-487 | The table of protocol numbers, for whole packets: 1 is ICMP, 58 ICMPv6, 50 ESP and encrypted, seven are named, every other one but TCP, UDP and the tunnels is reported by number; nothing else is recorded but the addresses. |
| ProtocolNames.EtherTypeIsNamed | src/core/ProtocolParser.cpp:560-573 | The table of EtherTypes that are not opened, over any link layer. |
| ProtocolNames.FrameIsNamed | src/core/ProtocolParser.cpp:560-573 | The same behind any VLAN tags. |
| ProtocolNames.ArpFrameIsRead | src/core/ProtocolParser.cpp:549-566 | An ARP message over any link layer. |
| Headers.V4HeaderIsRead | src/core/ProtocolParser.cpp:504-527 | For every value of every field and every cut: an IPv4 header is read, with its window ending at its total length or the cut, if and only if it is of version 4, complete and not longer than its datagram. |
| Headers.V6HeaderIsRead | src/core/ProtocolParser.cpp:529-547 | The same for IPv6, whose version is not looked at. |
| Headers.ChainIsPassed | src/core/ProtocolParser.cpp:88-129 | A complete chain of extension headers leads to its end in any window. |
| Headers.ChainIsCut | src/core/ProtocolParser.cpp:88-129 | A chain cut inside one of its headers leads to that header and no further. |
| Headers.UnreadIsSkipped | src/core/ProtocolParser.cpp:489-510 | Without a readable header, or beyond level 4, the record stays as it was. |
| Headers.AnyTcpIsRead | src/core/ProtocolParser.cpp:352-375 | For every TCP header and every cut: ports, sequence number and flags need the 20 fixed bytes, a payload needs a data offset behind them and before the end. |
| Headers.AnyUdpIsRead | src/core/ProtocolParser.cpp:377-409 | For every UDP header and every cut: the datagram ends at its length, or at the cut if that is nearer or the length shorter than a header; at level 4 tunnel ports are ordinary. |
| Headers.GreHeaderIsRead | src/core/ProtocolParser.cpp:261-274 | For every GRE header and every cut: a version 0 header is stepped over with each of its three optional fields, any other is not. |
| Headers.VxlanHeaderIsRead | src/core/ProtocolParser.cpp:284-291 | A VXLAN header is opened if and only if it is complete and its I bit is set. |
| Headers.GeneveHeaderIsRead | src/core/ProtocolParser.cpp:295-314 | A GENEVE header is opened if and only if it is of version 0 and complete with its options. |
| Headers.InnerIsRead | src/core/ProtocolParser.cpp:246-281 | What GRE and GENEVE carry by type: 0x6558, 0x0800 and 0x86DD are opened, nothing else. |
| Headers.BottomIsFirstMarked | src/core/ProtocolParser.cpp:318-325 | The bottom of an MPLS stack is its first marked label, if that is complete and one of the first 8. |
| Headers.OpaqueMpls | src/core/ProtocolParser.cpp:316-334 | A stack without a bottom, or with anything but IP below it, is only named. |
| Headers.PppoeHeaderIsRead | src/core/ProtocolParser.cpp:335-347 | A PPPoE session is opened for the PPP protocols 0x0021 and 0x0057, and otherwise only named. |
| Headers.ArpHeaderIsRead | src/core/ProtocolParser.cpp:549-566 | For every ARP message and every cut: addresses are taken only from a complete one about IPv4. |
| Headers.FrameIsCut | src/core/ProtocolParser.cpp:164-176 | A frame cut inside its Ethernet header or VLAN tags has no network layer. |
| Headers.RawIsSniffed | src/core/ProtocolParser.cpp:223-225 | A raw capture is IPv4 or IPv6 by its first four bits, and truncated by any others. |
| Headers.UnknownFamilyIsSniffed | src/core/ProtocolParser.cpp:191-222 | Behind an unknown address family the packet is told by its first four bits. |
| Headers.NoNetworkLayer | src/core/ProtocolParser.cpp:683-702 | What is reported for no bytes, for a link header cut short and for an unsupported link. |
| CutCaptures.CutTcpFrameIsRead | src/core/ProtocolParser.cpp:352-375 | A TCP frame of which only the first n bytes were captured, for every n from the end of its IP header on: what of its fields and payload is reported. |
| CutCaptures.CutUdpFrameIsRead | src/core/ProtocolParser.cpp:377-409 | The same for a UDP datagram. |
| CutCaptures.CutFrameIsRead | src/core/ProtocolParser.cpp:489-547 | The same for every n and any transport: nothing, truncated, unknown, or the transport decoder on the bytes that are there. |
| CutCaptures.CutChainIsNamed | src/core/ProtocolParser.cpp:529-547 | An IPv6 packet cut in one of its extension headers is named after that header. |
| CutCaptures.CutIsWindow | src/core/ProtocolParser.cpp:683-702 | Decoding a cut capture is decoding the whole one within a window: no byte beyond it matters. |
| Fragments.ContinuationReachesTransportIffV6 | src/core/ProtocolParser.cpp:504-547 | From a continuation fragment the transport decoder is reached if and only if the carrier is IPv6; an IPv4 one keeps ports and payload as they were. |
| Fragments.MiddleIsReadAsHeader | src/core/ProtocolParser.cpp:106-113 | An IPv6 fragment from the middle of a segment: its data bytes are reported as ports, sequence number and flags. |
| Fragments.V4FragmentIffContinuation | src/core/ProtocolParser.cpp:519-526 | An IPv4 datagram is named a fragment if and only if its fragment offset is not 0. |
| DecodeRoundTrip.TcpIsRead | src/core/ProtocolParser.cpp:352-375 | Ports, sequence number, four flags and payload window of a TCP segment. |
| DecodeRoundTrip.FlagsAreRead | src/core/ProtocolParser.cpp:359-363 | The four flags reported are the bits RFC 9293 assigns to them, whatever the other four are. |
| DecodeRoundTrip.LoopbackIsRead | src/core/ProtocolParser.cpp:191-222 | A loopback header is recognised in either byte order, an OpenBSD one in network order. |
| DecodeRoundTrip.CookedIsRead | src/core/ProtocolParser.cpp:177-190 | The cooked headers keep their EtherType at the end and at the front. |
| DecodeRoundTrip.ArpIsRead | src/core/ProtocolParser.cpp:549-566 | ARP reports the sender's and target's protocol addresses, for hardware addresses of any length. |
| PacketBuilders.MakeTcpPacket | tests/analysis_session_test.cpp:33-43 | The packet the tests assemble, for every payload: it decodes to the fields it was assembled from when the IPv4 length field can hold its length, and its payload comes back if and only if it can. |
| PacketBuilders.SegmentFlags | tests/PacketBuilders.hpp:63-74 | Every byte of flags is the flag byte of a segment's eight bits. |
| PacketBuilders.MakeGrePacket | tests/parser_test.cpp:981-1001 | The tests' GRE packet, with any addresses and ports: the inner conversation, the label GRE and the carrier's addresses. An instance of the transparency theorem. |
| PacketBuilders.AppendIPv4Header | tests/PacketBuilders.hpp:52-59 | Appends an IPv4 header as the decoder's round trip understands it. |
| PacketBuilders.AppendIPv6Header | tests/PacketBuilders.hpp:85-93 | Appends an IPv6 header. |
| PacketBuilders.AppendTcpHeader | tests/PacketBuilders.hpp:63-74 | Appends a TCP header without options, for any byte of flags. |
| PacketBuilders.AppendUdpHeader | tests/PacketBuilders.hpp:76-82 | Appends a UDP header; the length field is 16 bits wide and wraps. |
| PacketBuilders.AppendEthernetHeader | tests/PacketBuilders.hpp:46-50 | Appends an Ethernet header. |
| Decode.Parse | src/core/ProtocolParser.cpp:683-702 | Whatever the bytes and the link type: decoding ends, the payload window lies inside the captured bytes, and at most 5 tunnel labels are recorded. |
| Decode.DecodeNetwork | src/core/ProtocolParser.cpp:489-573 | Each level keeps the payload window inside the buffer and the labels recorded so far, and adds at most one label per level of depth left. |
| Decode.SkipVlans | src/core/ProtocolParser.cpp:169-175 | The offset behind the tags stays inside the frame. |
| Decode.V6Extension | src/core/ProtocolParser.cpp:88-129 | A step over an extension header advances by at least 8 bytes and stays inside the window. |
| PacketDecoder.RunParse | src/core/ProtocolParser.cpp:683-702 | The record that the decoders write in place is the one module Decode describes. |
| PacketDecoder.RunNetwork | src/core/ProtocolParser.cpp:489-573 | Refines Decode.DecodeNetwork on the record in place. |
| PacketDecoder.RunIPv4 | src/core/ProtocolParser.cpp:504-527 | Refines the IPv4 branch. |
| PacketDecoder.RunIPv6 | src/core/ProtocolParser.cpp:529-547 | Refines the IPv6 branch with its loop over extension headers. |
| PacketDecoder.RunArp | src/core/ProtocolParser.cpp:549-566 | Refines the ARP branch. |
| PacketDecoder.RunTransport | src/core/ProtocolParser.cpp:440-487 | Refines Decode.DecodeTransport. |
| PacketDecoder.RunTcp | src/core/ProtocolParser.cpp:352-375 | Refines Decode.DecodeTcp, early returns included. |
| PacketDecoder.RunUdp | src/core/ProtocolParser.cpp:377-409 | Refines Decode.DecodeUdp. |
| PacketDecoder.RunGre | src/core/ProtocolParser.cpp:261-281 | Refines Decode.DecodeGre. |
| PacketDecoder.RunVxlan | src/core/ProtocolParser.cpp:284-291 | Refines Decode.DecodeVxlan. |
| PacketDecoder.RunGeneve | src/core/ProtocolParser.cpp:295-314 | Refines Decode.DecodeGeneve. |
| PacketDecoder.RunMpls | src/core/ProtocolParser.cpp:316-334 | Refines Decode.DecodeMpls with its loop over labels. |
| PacketDecoder.RunPppoe | src/core/ProtocolParser.cpp:335-347 | Refines Decode.DecodePppoe. |
| PacketDecoder.RunInnerEthernet | src/core/ProtocolParser.cpp:246-256 | Refines Decode.DecodeInnerEthernet. |
| PacketDecoder.DecodeLinkLayer | src/core/ProtocolParser.cpp:154-238 | Refines Decode.LinkFrame for the nine link types. |
| PacketDecoder.DecodeEthernet | src/core/ProtocolParser.cpp:164-176 | Refines Decode.EthernetFrame with its loop over VLAN tags. |
| PacketDecoder.WalkV6Extension | src/core/ProtocolParser.cpp:88-129 | Refines Decode.V6Extension. |
| PacketDecoder.PushTunnel | src/core/ProtocolParser.cpp:139-148 | Adds a label; snapshots the carrier addresses the first time only. |
| DnsName.ReadName | src/core/DNSParser.cpp:37-71 | Returns n exactly when the unguarded expansion of section 4.1.4 of RFC 1035 ends with n; the pointer counter ends the walk exactly on cyclic chains; on success the position is just past the name's own bytes, and the name is at most 64 times as long as the message. |
| DnsName.NoNameIff | src/core/DNSParser.cpp:42-71 | There is no name exactly where the chain of moves is cyclic or comes to a byte that breaks it: outside the message, of a reserved label type, a label cut short, a pointer out of the message. |
| DnsName.NameIsBounded | src/core/DNSParser.cpp:37-71 | No name read is longer than that bound, by the same pigeonhole on cursors; 255 bytes are no bound. |
| DnsRoundTrip.LongNameIsRead | tests/PacketBuilders.hpp:32-44 | A name of 319 bytes goes through writer and reader: neither enforces section 2.3.4 of RFC 1035. |
| DnsName.LongChainIsCyclic | src/core/DNSParser.cpp:51-52 | A chain with more moves than the message has bytes visits a cursor twice (pigeonhole), so the counter never rejects a name that ends. |
| DnsName.CyclicNeverStops | src/core/DNSParser.cpp:51-52 | A chain that returns to a cursor goes on for ever. |
| DnsName.DenotesIsUnique | src/core/DNSParser.cpp:37-71 | The expansion gives at most one name. |
| DnsRoundTrip.RoundTrip | tests/PacketBuilders.hpp:32-44 | What the writer appended to any message is read back from where it was written, and the position ends just behind it. |
| DnsRoundTrip.CompressedRoundTrip | src/core/DNSParser.cpp:51-58 | Any suffix may be replaced by a 14-bit pointer to where the message already spells it, compressed itself or not. |
| DnsRoundTrip.WriterSpellsLabels | tests/PacketBuilders.hpp:32-44 | On text spelled from labels of 1 to 63 dot-free bytes the writer emits those labels. |
| DnsRoundTrip.AppendDnsName | tests/PacketBuilders.hpp:32-44 | The writer's loop, on any text, well formed or not. |
| DnsRoundTrip.WriteThenRead | tests/PacketBuilders.hpp:32-44 | Writer and reader run one after the other give the text back. |
| DnsMessage.ParseMessage | src/core/DNSParser.cpp:168-287 | Reads a response record by record, as module DnsMessage describes; a record cut short discards everything. |
| DnsMessage.ReadRecord | src/core/DNSParser.cpp:204-281 | What one Internet record adds to the answers, by type, and whether it advertises ECH. |
| DnsMessage.ReadAnswer | src/core/DNSParser.cpp:186-284 | One turn of the loop over records, its bounds checks included. |
| DnsMessage.ReadQuestions | src/core/DNSParser.cpp:179-184 | The loop over questions: the first one's name is the query name. |
| DnsMessage.ReadText | src/core/DNSParser.cpp:246-262 | The loop over the character-strings of a TXT record; never more than 255 bytes. |
| DnsMessage.SvcbAdvertisesEch | src/core/DNSParser.cpp:99-118 | The loop over service parameters. |
| DnsMessage.NameAt | src/core/DNSParser.cpp:37-71 | The name as a value: exactly what the expansion denotes, and its own bytes end inside the message. |
| DnsMessageRoundTrip.MessageIsRead | src/core/DNSParser.cpp:168-287 | A written response, with any names compressed in any way that spells them, with any records and anything behind its answers, means exactly its question and its records in order; a query means nothing. |
| DnsTruncation.CutMeansNothing | src/core/DNSParser.cpp:168-287 | A written response cut anywhere before its last byte means nothing, whatever was read before the cut. |
| DnsTruncation.AnswerNeedsAll | src/core/DNSParser.cpp:168-287 | Whatever the bytes, an answer is given only to a response whose questions and records are all complete. |
| DnsMessageRoundTrip.RecordsAreRead | src/core/DNSParser.cpp:186-284 | The records of a message, one behind the other, by induction. |
| DnsMessageRoundTrip.RecordIsRead | src/core/DNSParser.cpp:187-202 | One record: owner, type, class without its cache-flush bit, length, and data. |
| DnsMessageRoundTrip.DataIsRead | src/core/DNSParser.cpp:204-281 | Addresses, names, services, texts and service bindings are read as written; other types and classes add nothing. |
| DnsMessageRoundTrip.DecimalIsRead | src/core/DNSParser.cpp:242 | The port of a service is written in decimal: a reader of digits gives the number back, and no zero stands in front. |
| DnsMessageRoundTrip.SpellingIsUnique | src/core/DNSParser.cpp:242 | No other digits spell the number without a zero in front. |
| DnsMessageRoundTrip.BrokenIsRead | src/core/DNSParser.cpp:218-245 | A CNAME, PTR or SRV record whose name breaks off, or goes on beyond the record, adds nothing. |
| DnsMessageRoundTrip.NamelessIsRead | src/core/DNSParser.cpp:263-279 | A service binding whose target is no name counts for its owner and advertises no ECH. |
| DnsMessageRoundTrip.StringsAreRead | src/core/DNSParser.cpp:246-262 | The text kept is the first 255 bytes of all strings joined by spaces; a last string that goes beyond the record adds nothing. |
| DnsMessageRoundTrip.ParamsAreRead | src/core/DNSParser.cpp:109-116 | ECH is advertised exactly when one of the parameters before the end, or before one cut short, has key 5 and a value. |
| DnsMessageRoundTrip.QuestionsAreRead | src/core/DNSParser.cpp:179-184 | The questions are stepped over exactly. |
| DnsMessageRoundTrip.MakeDnsResponse | tests/analysis_session_test.cpp:46-64 | The bytes the tests build for any name and address; a name spelled from labels is read back with its question, and with its address if that has 4 bytes. |
| DnsMessageRoundTrip.BuiltIsRead | tests/analysis_session_test.cpp:46-64 | What such a response means, for every address: an address of another length is passed over. |
| ClientHello.SniFromClientHello | src/core/QuicParser.cpp:258-320 | Refines ClientHello.QuicSni: the loop over extensions that passes over entries it cannot use. |
| ClientHello.ParseTlsClientHello | src/core/ProtocolParser.cpp:749-826 | Refines ClientHello.TlsSni: the nested loops over extensions and names. |
| ClientHello.WalkNameList | src/core/ProtocolParser.cpp:809-819 | The inner loop: the first host_name of the list. |
| ClientHello.WalkQuicExtensions | src/core/QuicParser.cpp:299-319 | The loop over extensions of the QUIC parser. |
| ClientHello.WalkTlsExtensions | src/core/ProtocolParser.cpp:795-825 | The loop over extensions of the TLS parser. |
| ClientHelloFacts.ParsersAgree | src/core/QuicParser.cpp:258-320 | For every handshake message, with any number of server_name extensions: which extension each parser takes its name from, and when the QUIC parser and the TLS parser (of the message in a record) agree, stated on the types of the list entries. |
| ClientHelloFacts.ParsersAgreeOnOne | src/core/QuicParser.cpp:258-320 | With at most one server_name extension, a name of the QUIC parser is the TLS parser's; and the two agree if and only if the list does not open with another type and hold a host_name later. |
| ClientHelloFacts.NameListIffHostName | src/core/ProtocolParser.cpp:809-819 | The TLS parser finds a name in a list if and only if 0 is among the types of its complete entries. |
| ClientHelloRoundTrip.ExtensionsDecide | src/core/QuicParser.cpp:268-297 | Both parsers' answers to a whole message are those of their walks over its extension block. |
| ClientHelloFacts.WalksAnswer | src/core/ProtocolParser.cpp:795-825 | The TLS walk answers from the first server_name extension, the QUIC walk from the first that opens with a host_name. |
| ClientHelloRoundTrip.TwoServerNames | src/core/QuicParser.cpp:305-316 | With two server_name extensions the parsers can differ: a whole message. |
| ClientHelloRoundTrip.LateHostName | src/core/QuicParser.cpp:311-312 | With a host_name behind another entry they differ: a whole message. |
| ClientHelloFacts.QuicSniIsLocal | src/core/QuicParser.cpp:258-264 | The QUIC parser's answer depends only on the bytes inside the declared length. |
| ClientHelloFacts.QuicSniNeedsAll | src/core/QuicParser.cpp:264 | It has no answer before all declared bytes are there. |
| ClientHelloFacts.TlsSniIsLocal | src/core/ProtocolParser.cpp:749-770 | The TLS parser's answer depends only on the bytes inside the record. |
| ClientHelloFacts.TlsSniOfRecord | src/core/ProtocolParser.cpp:754-795 | A record that is all there is read as its handshake message is. |
| ClientHelloRoundTrip.RoundTrip | tests/PacketBuilders.hpp:103-129 | A ClientHello with any session id, cipher suites, compression methods and other extensions before and after gives its name back in both parsers. |
| ClientHelloRoundTrip.MessageIsRead | src/core/QuicParser.cpp:268-297 | The block of extensions is found behind the variable-length fields. |
| ClientHelloInverse.FoundIffHello | src/core/QuicParser.cpp:258-297 | The extensions of a message are found if and only if it is a complete ClientHello with all its variable-length fields. |
| ClientHelloInverse.QuicNeedsHello | src/core/QuicParser.cpp:258-297 | The QUIC parser names no server for anything else. |
| ClientHelloInverse.TlsNeedsRecord | src/core/ProtocolParser.cpp:749-795 | The TLS parser needs one in a complete handshake record of version 3.0 to 3.4, and answers as for that record alone. |
| ClientHelloRoundTrip.MakeTlsClientHello | tests/PacketBuilders.hpp:103-129 | The test builder's record, for any hostname; it is read back if and only if the hostname has at most 65479 bytes. |
| ClientHelloRoundTrip.BuiltMessageIsRead | tests/PacketBuilders.hpp:103-129 | The QUIC parser reads the message back if and only if the hostname has at most 65526 bytes. |
| ClientHelloRoundTrip.BuiltRecordIsRead | tests/PacketBuilders.hpp:103-129 | The TLS parser reads the record back if and only if it has at most 65479. |
| TlsRuns.ReassemblyIsOneShot | src/core/TlsReassembler.cpp:25-89 | A record delivered in order in any number of segments, among repeats and any other streams, at a full table too: the completing segment returns what parsing the record at once returns, earlier ones nothing. The first segment needs room or a silent stream to drop; after that, the stream must not be silent for more than 30 seconds when another starts at a full table. |
| TlsRuns.PromptDeliveryIsOneShot | src/core/TlsReassembler.cpp:25-89 | In particular when no segment of the run comes more than 30 seconds after the stream was last heard from. |
| TlsRuns.KeepingUpSpares | src/core/TlsReassembler.cpp:17-23 | Such a stream is never dropped for another, whatever fills the table. |
| TlsRuns.AdmittedIffRoom | src/core/TlsReassembler.cpp:32-56 | A segment starts a stream if and only if it opens a handshake record of at most 65536 bytes that it does not complete, and fewer than 2048 streams are held or one of them was last heard from more than 30 seconds before. |
| TlsRuns.StreamEndsIff | src/core/TlsReassembler.cpp:58-88 | Exactly which segments keep a stream, end it and answer: the next data short of the record, or data ending where the accepted data ends, keep it; the next data that completes the record answers; anything else ends it silently. |
| TlsRuns.KeysAreDirections | src/core/TlsReassembler.cpp:30 | A stream is one direction between two endpoints. |
| TlsRuns.ControlIsIgnored | src/core/TlsReassembler.cpp:28 | Other protocols and segments without data change nothing. |
| TlsRuns.RestOfDelivery | src/core/TlsReassembler.cpp:58-89 | The same from any point of the delivery. |
| TlsRuns.FirstIsBuffered | src/core/TlsReassembler.cpp:33-56 | The opening segment of an incomplete record starts a stream. |
| TlsRuns.NextIsAppended | src/core/TlsReassembler.cpp:72-80 | The next bytes are appended and answer nothing. |
| TlsRuns.LastCompletes | src/core/TlsReassembler.cpp:80-88 | The last bytes answer with the record's name and free the stream. |
| TlsRuns.RepeatIsIgnored | src/core/TlsReassembler.cpp:64-67 | Data that ends where the accepted data ends answers nothing and leaves the buffer and the expected sequence number alone. |
| TlsRuns.OtherStreams | src/core/TlsReassembler.cpp:17-56 | Other streams leave this one alone: it is dropped if and only if one starts at a table of 2048 and this one was last heard from more than 30 seconds before. |
| TlsRuns.RunsStaySound | src/core/TlsReassembler.cpp:41-47 | Over every run at most 2048 streams are held, each an incomplete record of at most 64 KiB. |
| TlsReassembler.StepKeepsSound | src/core/TlsReassembler.cpp:25-89 | Every step keeps those bounds. |
| TlsReassembler.TlsReassembler.Feed | src/core/TlsReassembler.cpp:25-89 | The table and the answer are those of the step function; a name returned was parsed from consecutive segments of one stream, never from bytes spliced at a wrong offset. |
| TlsReassembler.TlsReassembler.StartTracking | src/core/TlsReassembler.cpp:33-56 | The branch for a stream not tracked yet. |
| TlsReassembler.TlsReassembler.ContinueStream | src/core/TlsReassembler.cpp:58-88 | The branch for a tracked stream, with the segments that back its answer. |
| TlsReassembler.TlsReassembler.ExpireStale | src/core/TlsReassembler.cpp:17-23 | Keeps exactly the streams seen within the timeout. |
| TlsReassembler.TlsReassembler.Survivors | src/core/TlsReassembler.cpp:17-23 | The erasing loop. |
| TlsReassembler.TlsReassembler.Clear | src/core/TlsReassembler.cpp:91-93 | Empties the table. |
| QuicFrameRoundTrip.CollectInvertsWriting | src/core/QuicParser.cpp:194-245 | A payload is accepted with fragments f if and only if it is a serialization of PADDING, PING, ACK, ACK-with-ECN and CRYPTO frames whose fragments, in order, are f. |
| QuicFrameRoundTrip.FramesAreRead | src/core/QuicParser.cpp:194-245 | Written frames are read back. |
| QuicFrameRoundTrip.ReadIsFrames | src/core/QuicParser.cpp:194-245 | Whatever is accepted was written by some frames. |
| QuicFrameRoundTrip.VarintIsRead | src/core/QuicParser.cpp:65-76 | A variable-length integer of any of the four widths is read back (section 16 of RFC 9000). |
| QuicFrameRoundTrip.ReadIsVarint | src/core/QuicParser.cpp:65-76 | Whatever is read as an integer is the encoding of it. |
| QuicFrameRoundTrip.AppendVarint | tests/parser_test.cpp:676-689 | The test encoder writes the shortest of the widths it knows. |
| QuicFrameRoundTrip.BuildCryptoFrame | tests/parser_test.cpp:1211-1218 | The test encoder writes one CRYPTO frame. |
| QuicFrames.ReadVarint | src/core/QuicParser.cpp:65-76 | Refines QuicFrames.VarintAt; a refused integer leaves the position. |
| QuicFrames.DropVarints | src/core/QuicParser.cpp:212-222 | The loop over integers that are not kept. |
| QuicFrames.ReadAck | src/core/QuicParser.cpp:204-224 | Steps over an ACK frame with its ranges and ECN counts. |
| QuicFrames.ReadCrypto | src/core/QuicParser.cpp:225-237 | Reads one CRYPTO frame within the bounds on offset and length. |
| QuicFrames.CollectCryptoFrames | src/core/QuicParser.cpp:194-245 | Refines QuicFrames.Collect. |
| QuicRuns.RefinesCoverage | src/core/QuicTracker.cpp:31-76 | From any table that agrees with the message, over every run of fragments cut from it: each packet's answer is the one that a tracker of mere coverage gives. |
| QuicRuns.FirstAnswer | src/core/QuicTracker.cpp:65-75 | The packet that first completes the coverage of the declared ClientHello returns its name, packets before it nothing. |
| QuicRuns.AnsweredWhenCovered | src/core/QuicTracker.cpp:31-76 | A name is returned at some point if and only if the fragments cover the ClientHello between them. |
| QuicRuns.OrderIndependent | src/core/QuicTracker.cpp:49-63 | Runs that bring the same fragments in any order, overlap and repetition agree on whether a name is returned, and on the name. |
| QuicRuns.AnswersAreTheName | src/core/QuicTracker.cpp:70-74 | Whatever is returned is the name of the message. |
| QuicRuns.AnswerIsDue | src/core/QuicTracker.cpp:65-75 | The answer after a packet depends only on what is covered. |
| QuicRuns.PrefixSpans | src/core/QuicTracker.cpp:17-21 | The contiguous prefix spans the declared ClientHello exactly when all of it is covered. |
| QuicRuns.WritesAgree | src/core/QuicTracker.cpp:49-63 | Every byte marked present equals the message's, whatever the order and overlap. |
| QuicRuns.OwnPacket | src/core/QuicTracker.cpp:31-76 | One packet of the connection. |
| QuicRuns.OtherPacket | src/core/QuicTracker.cpp:23-44 | Packets of other connections leave this one alone: it is dropped if and only if one starts at a table of 1024 and this one was last heard from more than 10 seconds before. |
| QuicRuns.RefusedIffFull | src/core/QuicTracker.cpp:36-43 | A connection is admitted if and only if fewer than 1024 are held or one of them was last heard from more than 10 seconds before; a refused packet changes nothing. |
| QuicRuns.KeepingUpSpares | src/core/QuicTracker.cpp:23-29 | A connection that is never silent for more than 10 seconds is not dropped for another, whatever fills the table. |
| QuicRuns.RunsStaySound | src/core/QuicTracker.cpp:38-57 | Over every run at most 1024 connections of at most 64 KiB are held. |
| QuicTracker.StepKeepsSound | src/core/QuicTracker.cpp:31-76 | Every step keeps those bounds. |
| QuicTracker.QuicTracker.Feed | src/core/QuicTracker.cpp:31-76 | The table and the answer are those of the step function. |
| QuicTracker.QuicTracker.ExpireStale | src/core/QuicTracker.cpp:23-29 | Keeps exactly the connections seen within the timeout. |
| QuicTracker.WriteFragment | src/core/QuicTracker.cpp:55-62 | Grow, copy and mark, on one fragment. |
| QuicTracker.WriteFragments | src/core/QuicTracker.cpp:49-63 | The loop over fragments, ended by one beyond the limit. |
| QuicTracker.ContiguousPrefix | src/core/QuicTracker.cpp:17-21 | The length of the run of present bytes at the front. |
| QuicTracker.FindAnswer | src/core/QuicTracker.cpp:65-75 | The name in the contiguous prefix, if it is long enough to try. |
| QuicTracker.ExtractInitialSni | src/core/QuicParser.cpp:409-426 | Refines QuicTracker.ExtractSni: each byte is the last fragment's that wrote it, or zero. |
| QuicTracker.StitchInto | src/core/QuicParser.cpp:421-424 | The loop that copies each fragment over what earlier ones wrote, into a zero-filled buffer. |
| QuicSinglePacket.TrackerVersusShortcut | src/core/QuicParser.cpp:409-426 | On one packet a fresh tracker answers as the shortcut does when the fragments respect the limit and cover the declared ClientHello, and otherwise not at all. |
| QuicSinglePacket.ShortcutCoversTracker | src/core/QuicParser.cpp:409-426 | So a name the tracker finds is the name the shortcut finds. |
| QuicSinglePacket.WritesStitch | src/core/QuicTracker.cpp:46-63 | The tracker's writes and the shortcut's make the same stream. |
| QuicSinglePacket.TooLargeIsRefused | src/core/QuicTracker.cpp:50-54 | A fragment beyond the limit ends the connection, wherever it comes in the packet. |
| QuicSinglePacket.TooLargeEndsConnection | src/core/QuicTracker.cpp:50-54 | A packet with a fragment past 65536 bytes ends its connection without an answer. |
| JsonFacts.WrittenDecodes | src/core/FlowExporter.cpp:57-123 | Decoding the text by section 7 of RFC 8259 gives the input with every byte outside a well-formed UTF-8 sequence replaced by U+FFFD. |
| JsonFacts.WrittenIsUtf8 | src/core/FlowExporter.cpp:57-123 | The text is valid UTF-8 by the table of section 4 of RFC 3629, for every input. |
| JsonFacts.RoundTripIffUtf8 | src/core/FlowExporter.cpp:90-119 | It decodes to the input itself if and only if the input is valid UTF-8. |
| JsonFacts.SanitizedIsUtf8 | src/core/FlowExporter.cpp:112-116 | The repaired input is valid UTF-8. |
| JsonFacts.ValidIsKept | src/core/FlowExporter.cpp:118-119 | Valid input is kept byte for byte. |
| JsonFacts.SanitizedIsLonger | src/core/FlowExporter.cpp:112-116 | Repair never shortens, and lengthens exactly when something was invalid. |
| JsonFacts.EscapedSpells | src/core/FlowExporter.cpp:67-85 | Every ASCII byte is written raw, or as an escape that spells it exactly where JSON demands one; two characters long where there is such an escape, else with lower-case hex digits. |
| JsonString.ArithmeticIsTable | src/core/FlowExporter.cpp:90-110 | The code's masks, shifts and range checks accept exactly the rows of RFC 3629's table. |
| JsonString.CharacterLength | src/core/FlowExporter.cpp:90-110 | The loop over continuation bytes, with its early exit. |
| JsonString.AppendJsonString | src/core/FlowExporter.cpp:57-123 | Appends exactly the written form. |
| JsonString.EscapeAscii | src/core/FlowExporter.cpp:67-85 | The escape of one ASCII byte. |
| LruCache.GeoIPResolver.Lookup | src/core/GeoIPResolver.cpp:120-157 | Every answer equals the uncached lookup; the list is exactly the `capacity` most recently used distinct non-empty addresses, newest first; index and list describe the same keys. |
| LruCache.GeoIPResolver.MoveToFront | src/core/GeoIPResolver.cpp:124-127 | The hit: one node spliced to the front, index untouched. |
| LruCache.GeoIPResolver.Insert | src/core/GeoIPResolver.cpp:150-156 | The miss: a new node, and the oldest one gone when the list is too long. |
| LruCache.GeoIPResolver.Evict | src/core/GeoIPResolver.cpp:152-155 | Removes the oldest node from list and index. |
| LruCache.GeoIPResolver.constructor | src/core/GeoIPResolver.cpp:113-116 | An empty cache; a capacity of 0 counts as 1. |
| LruCache.MostRecentMeans | src/core/GeoIPResolver.cpp:120-127 | The recency list of a history is sorted by last use and holds exactly its non-empty addresses. |
| LruCache.UseKeepsRecency | src/core/GeoIPResolver.cpp:150-156 | Using an address on the truncated list is using it on the full one: eviction never loses a more recent address. |
| FlowKeys.KeysAreCanonical | src/core/FlowAggregator.cpp:47-72 | Two keyed packets have equal keys if and only if they have the same protocol and the same unordered pair of endpoints. |
| FlowKeys.ServerIsDestination | src/core/FlowAggregator.cpp:47-72 | A packet is keyed exactly when it has addresses and is TCP or UDP. With one server port among its two (1 to 1024 and fifteen named ones), that endpoint is the key's destination; otherwise the lesser endpoint is its source. |
| FlowKeys.TextLeIsLexicographic | src/core/FlowAggregator.cpp:69-71 | Addresses are compared at the first byte where they differ. |
| FlowKeys.SentByAnEndpoint | src/core/FlowAggregator.cpp:79-81 | A keyed packet that is not downstream was sent by the key's source. |
| FlowKeys.TextLeIsTotalOrder | src/core/FlowAggregator.cpp:69-71 | The tie-break compares addresses in a total order. |
| FlowAggregator.FlowAggregator.Update | src/core/FlowAggregator.cpp:83-187 | The table is the replay of all packets so far. |
| FlowAggregator.FlowAggregator.Snapshot | src/core/FlowAggregator.cpp:199-216 | Lists every flow exactly once, with its rate. |
| FlowAggregator.UpdateFlow | src/core/FlowAggregator.cpp:95-187 | One packet on one flow: counters, handshake, sequences, window, in the code's order. |
| FlowAggregator.UpdateHandshake | src/core/FlowAggregator.cpp:108-116 | The handshake timer. |
| FlowAggregator.UpdateSequence | src/core/FlowAggregator.cpp:134-164 | The sequence comparison, in 32-bit serial arithmetic. |
| FlowAggregator.PushAndPrune | src/core/FlowAggregator.cpp:182-186 | The sliding window: appended at the back, pruned at the front. |
| FlowAggregator.BytesInWindow | src/core/FlowAggregator.cpp:206-211 | The loop that sums the last second. |
| FlowRuns.Projection | src/core/FlowAggregator.cpp:83-93 | A flow's state is a function of its own packets alone, and a flow exists exactly when it has some. |
| FlowRuns.Conservation | src/core/FlowAggregator.cpp:83-102 | Over any history a snapshot's packet and byte totals equal the number and summed length of the keyed packets. |
| FlowRuns.CountersAreSums | src/core/FlowAggregator.cpp:95-102 | A flow's counters are sums over its packets; bytesDown is what the key's destination sent. |
| FlowRuns.FirstAndLast | src/core/FlowAggregator.cpp:88-103 | firstSeen and lastSeen are the timestamps of the flow's first and last packet, and it is marked encrypted exactly when one of its packets is. |
| FlowRuns.UpIsFromSource | src/core/FlowAggregator.cpp:97-102 | For distinct endpoints bytesUp is exactly what the key's source sent. |
| FlowRuns.LoopbackIsDown | src/core/FlowAggregator.cpp:79-102 | When both endpoints are the same, everything counts as down. |
| FlowRuns.PruningLosesNothing | src/core/FlowAggregator.cpp:182-213 | For any `now` at or after every timestamp, in whatever order packets came, the rate equals the sum over the full history of samples. |
| FlowRuns.WindowIsLastSecond | src/core/FlowAggregator.cpp:203-211 | That sum is the bytes of the packets stamped in the second that ends at `now`. |
| FlowRuns.WindowIsTight | src/core/FlowAggregator.cpp:182-186 | Pruning keeps no more than it needs: the oldest sample kept is at most a second older than the latest packet, and every sample dropped was more than a second older than some later packet. |
| FlowRuns.RttIsFirstAnswer | src/core/FlowAggregator.cpp:105-116 | The initial RTT is non-zero if and only if a later SYN-ACK answers the first SYN; it is then the positive delta of the first such answer. |
| FlowRuns.RttIsFinal | src/core/FlowAggregator.cpp:108 | Once measured it never changes. |
| FlowSnapshots.EntryIsOwnState | src/core/FlowAggregator.cpp:199-216 | Entry i of a snapshot of any history is the state that the packets with its key lead to. |
| FlowSnapshots.EntryCounts | src/core/FlowAggregator.cpp:95-102 | Its counters are sums over those packets, per endpoint. |
| FlowSnapshots.EntrySeen | src/core/FlowAggregator.cpp:88-103 | It was first and last seen when the first and last of those packets were stamped, and is marked encrypted exactly when one of them is. |
| FlowSnapshots.EntryServer | src/core/FlowAggregator.cpp:53-65 | With one server port among its two, the entry points at the server: bytesDown is what the server sent, bytesUp what the other endpoint sent. |
| FlowSnapshots.EntryRate | src/core/FlowAggregator.cpp:199-213 | Its rate is the bytes of those packets that are stamped in the last second. |
| FlowSnapshots.EntryRtt | src/core/FlowAggregator.cpp:105-116 | Its initial RTT is known if and only if a later SYN-ACK answers the first SYN among them, and is that delta. |
| FlowSnapshots.EntryDelivery | src/core/FlowAggregator.cpp:126-172 | Its retransmission and out-of-order counts are those of tracking on unbounded positions. |
| FlowSequences.SequencesRefine | src/core/FlowAggregator.cpp:126-172 | When each segment starts within 2^31 of the high-water mark, the 32-bit tracking equals the unbounded one: next expected byte, retransmissions and out-of-order segments, across wrap-around and resets. |
| FlowSequences.HighIsMax | src/core/FlowAggregator.cpp:134-164 | The high-water mark is the maximum of the segment ends since the last reset. |
| FlowSequences.OneSegment | src/core/FlowAggregator.cpp:137-164 | One segment keeps the two in step. |
| FlowSequences.DifferenceIsTrue | src/core/FlowAggregator.cpp:144-145 | The signed 32-bit difference of positions less than 2^31 apart is their true difference (section 3 of RFC 1982). |
| FlowSequences.TooFarAhead | src/core/FlowAggregator.cpp:144-145 | Beyond 2^31 it has the wrong sign: the bound is needed. |

## Left out

- Decryption of Initial packets, header protection and key derivation (src/core/QuicParser.cpp:85-189, 322-407): foreign cryptography; `parseInitial` is a parameter.
- Payload inspection in `parse` after decoding, service names and port tables: table lookups; the SNI parsers it calls are modelled.
- The names of protocols, EtherTypes and tunnels as text: kept as datatype constructors.
- Operation field of ARP and the ICMP type names, which only set the service text.
- `reverseNameToAddress` and `parseResponse` of the DNS parser: text conversion and port filtering.
- Hostname, service and process labels of flows and `setHostnameForAddress`: plain assignments.
- Rates as doubles: the rate is the integer sum of bytes it is computed from.
- Overflow of 64-bit counters and timestamps: unbounded integers.
- Whole runs of TCP reassembly with gaps: the code drops a stream on out-of-sequence data (TlsRuns.StreamEndsIff); the run theorems cover in-order delivery with repeats of the last segment.
- Tunnels inside a VXLAN or GENEVE payload: the exact condition of transparency is stated for inner packets without tunnels of their own.
- Transparency.TransparentIffWithinBudget: not stated of an inner packet whose last label is MPLS or PPPoE and whose protocol is named after that label or is UDP. These labels are pushed one level beyond the gate, so such a record may need one level less; the budget is then sufficient (Transparency.EncapsulationIsTransparent), not necessary.
- DepthBudget.LiftsIffRoom: leaves out the same packets.
- UdpTunnels.VxlanIsTransparentIffPayload: the outer datagram is complete; a capture that cuts it short is not part of the statement.
- QuicFrameRoundTrip.AppendVarint: widths 1, 2 and 4, which are all the test encoder writes; the decoder's four widths are in QuicFrameRoundTrip.VarintIsRead.
- Capture backends, threads, command line, resource paths, process lookup, packet queue, hostname cache, user interface: input, output and operating system.
- Hash functions of the unordered maps: maps are mathematical maps, and no order of iteration is promised.
