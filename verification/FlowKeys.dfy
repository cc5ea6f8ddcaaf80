/** Canonical flow keys (src/core/FlowAggregator.cpp, keyFor and isDownstream). */
module FlowKeys {
  import opened Bytes
  import opened Packet

  datatype FlowKey = FlowKey(srcIP: Text, dstIP: Text, srcPort: port, dstPort: port, protocol: Protocol)

  predicate IsLikelyServerPort(p: port) {
    p in {1194, 1433, 3306, 3478, 5222, 5432, 5900, 6379, 6443, 8080, 8443, 9092, 9200, 27017, 51820}
    || 0 < p <= 1024
  }

  /** Byte-wise lexicographic order, the order of the source's strings. */
  predicate TextLe(a: Text, b: Text)
    decreases |a|
  {
    a == [] || (b != [] && (a[0] < b[0] || (a[0] == b[0] && TextLe(a[1..], b[1..]))))
  }

  lemma {:induction false} TextLeIsTotalOrder(a: Text, b: Text)
    ensures TextLe(a, b) || TextLe(b, a)
    ensures TextLe(a, b) && TextLe(b, a) <==> a == b
    decreases |a|
  {
    if a != [] && b != [] && a[0] == b[0] {
      TextLeIsTotalOrder(a[1..], b[1..]);
      assert a == [a[0]] + a[1..] && b == [b[0]] + b[1..];
    }
  }

  /** `a` is a beginning of `b`, or smaller at the first byte where they differ. */
  ghost predicate Precedes(a: Text, b: Text) {
    exists k: nat :: k <= |a| && k <= |b| && a[..k] == b[..k] && (k == |a| || (k < |b| && a[k] < b[k]))
  }

  lemma {:induction false} TextLeIsLexicographic(a: Text, b: Text)
    ensures TextLe(a, b) <==> Precedes(a, b)
    decreases |a|
  {
    if a == [] || b == [] || a[0] < b[0] {
      assert a[..0] == b[..0];
    } else if a[0] == b[0] {
      TextLeIsLexicographic(a[1..], b[1..]);
      if TextLe(a, b) {
        var k: nat :| k <= |a[1..]| && k <= |b[1..]| && a[1..][..k] == b[1..][..k]
                      && (k == |a[1..]| || (k < |b[1..]| && a[1..][k] < b[1..][k]));
        assert a[..k + 1] == [a[0]] + a[1..][..k] && b[..k + 1] == [b[0]] + b[1..][..k];
      }
      if Precedes(a, b) {
        var k: nat :| k <= |a| && k <= |b| && a[..k] == b[..k] && (k == |a| || (k < |b| && a[k] < b[k]));
        assert k > 0;
        assert a[1..][..k - 1] == a[..k][1..] && b[1..][..k - 1] == b[..k][1..];
      }
    } else {
      assert forall k: nat :: 0 < k <= |a| && k <= |b| ==> a[..k][0] != b[..k][0];
    }
  }

  /** The order of (address, port) pairs. */
  predicate EndpointLe(ipA: Text, portA: port, ipB: Text, portB: port) {
    if ipA == ipB then portA <= portB else TextLe(ipA, ipB)
  }

  predicate IsKeyed(packet: Packet) {
    packet.srcIP != [] && packet.dstIP != [] && (packet.protocol == Tcp || packet.protocol == Udp)
  }

  function Forward(packet: Packet): FlowKey {
    FlowKey(packet.srcIP, packet.dstIP, packet.srcPort, packet.dstPort, packet.protocol)
  }

  function Reversed(packet: Packet): FlowKey {
    FlowKey(packet.dstIP, packet.srcIP, packet.dstPort, packet.srcPort, packet.protocol)
  }

  function KeyFor(packet: Packet): (key: Option<FlowKey>) {
    if !IsKeyed(packet) then None
    else if IsLikelyServerPort(packet.srcPort) && !IsLikelyServerPort(packet.dstPort) then Some(Reversed(packet))
    else if IsLikelyServerPort(packet.dstPort) && !IsLikelyServerPort(packet.srcPort) then Some(Forward(packet))
    else if EndpointLe(packet.srcIP, packet.srcPort, packet.dstIP, packet.dstPort) then Some(Forward(packet))
    else Some(Reversed(packet))
  }

  /**
    A flow points at its server: where one port alone is a server's, that endpoint
    becomes the key's destination; otherwise the lesser endpoint becomes its source.
  */
  lemma ServerIsDestination(p: Packet)
    ensures KeyFor(p).Some? <==> p.srcIP != [] && p.dstIP != [] && (p.protocol == Tcp || p.protocol == Udp)
    ensures KeyFor(p).Some? ==>
              var isServer := (n: port) =>
                1 <= n <= 1024 || n == 1194 || n == 1433 || n == 3306 || n == 3478 || n == 5222 || n == 5432 || n == 5900
                || n == 6379 || n == 6443 || n == 8080 || n == 8443 || n == 9092 || n == 9200 || n == 27017 || n == 51820;
              var key := KeyFor(p).value;
              var forward := FlowKey(p.srcIP, p.dstIP, p.srcPort, p.dstPort, p.protocol);
              var reversed := FlowKey(p.dstIP, p.srcIP, p.dstPort, p.srcPort, p.protocol);
              if isServer(p.dstPort) && !isServer(p.srcPort) then key == forward
              else if isServer(p.srcPort) && !isServer(p.dstPort) then key == reversed
              else (key == forward || key == reversed)
                   && if key.srcIP == key.dstIP then key.srcPort <= key.dstPort else Precedes(key.srcIP, key.dstIP)
  {
    hide Precedes;
    TextLeIsTotalOrder(p.srcIP, p.dstIP);
    TextLeIsLexicographic(p.srcIP, p.dstIP);
    TextLeIsLexicographic(p.dstIP, p.srcIP);
  }

  predicate IsDownstream(packet: Packet, key: FlowKey) {
    packet.srcIP == key.dstIP && packet.srcPort == key.dstPort
  }

  /** The same two (address, port) endpoints, in the same or the opposite direction. */
  predicate SameEndpoints(p: Packet, q: Packet) {
    || (p.srcIP == q.srcIP && p.srcPort == q.srcPort && p.dstIP == q.dstIP && p.dstPort == q.dstPort)
    || (p.srcIP == q.dstIP && p.srcPort == q.dstPort && p.dstIP == q.srcIP && p.dstPort == q.srcPort)
  }

  /** Keys are canonical: equal exactly for one protocol and one unordered pair of endpoints. */
  lemma KeysAreCanonical(p: Packet, q: Packet)
    requires IsKeyed(p) && IsKeyed(q)
    ensures KeyFor(p) == KeyFor(q) <==> p.protocol == q.protocol && SameEndpoints(p, q)
  {
    TextLeIsTotalOrder(p.srcIP, p.dstIP);
  }

  /** Each packet of a flow was sent by one of the key's two endpoints. */
  lemma SentByAnEndpoint(p: Packet, key: FlowKey)
    requires KeyFor(p) == Some(key)
    ensures IsDownstream(p, key) || (p.srcIP == key.srcIP && p.srcPort == key.srcPort)
  {
  }
}
