/**
  Reassembly of a ClientHello spread over QUIC Initial packets
  (src/core/QuicTracker.cpp), and the single-packet shortcut extractInitialSni
  (src/core/QuicParser.cpp). Decryption is not modelled: both take what
  parseInitial returns.
*/
module QuicTracker {
  import opened Bytes
  import opened ClientHello
  import opened QuicFrames

  const MAX_STREAM_BYTES: nat := 65536
  const CONNECTION_TIMEOUT_MICROSECONDS: int := 10_000_000
  const MAX_TRACKED_CONNECTIONS: nat := 1024

  type ConnectionId = seq<byte>

  /** A decrypted Initial: the connection id and the CRYPTO fragments it carried. */
  datatype Initial = Initial(id: ConnectionId, crypto: seq<Fragment>)

  /** Handshake bytes by offset, and which of them have arrived. */
  datatype Connection = Connection(stream: seq<byte>, present: seq<bool>, lastSeen: int)

  type Connections = map<ConnectionId, Connection>

  // ----- writing fragments into a stream

  function End(f: Fragment): nat {
    f.offset + |f.data|
  }

  predicate Covers(f: Fragment, i: nat) {
    f.offset <= i < End(f)
  }

  /** The stream after one fragment, byte by byte; gaps are zero-filled. */
  function Write(stream: seq<byte>, f: Fragment): (s: seq<byte>) {
    seq(Max(|stream|, End(f)), i requires 0 <= i < Max(|stream|, End(f)) =>
      if Covers(f, i) then f.data[i - f.offset] else if i < |stream| then stream[i] else 0)
  }

  function Mark(present: seq<bool>, f: Fragment): (p: seq<bool>) {
    seq(Max(|present|, End(f)), i requires 0 <= i < Max(|present|, End(f)) =>
      Covers(f, i) || (i < |present| && present[i]))
  }

  /** All fragments of a packet in turn; none when one of them ends past the limit. */
  function WriteAll(c: Connection, fragments: seq<Fragment>): Option<Connection>
    decreases |fragments|
  {
    if fragments == [] then Some(c)
    else if End(fragments[0]) > MAX_STREAM_BYTES then None
    else
      WriteAll(c.(stream := Write(c.stream, fragments[0]), present := Mark(c.present, fragments[0])), fragments[1..])
  }

  /** Length of the longest run of arrived bytes at the start. */
  function Prefix(present: seq<bool>, count: nat): (n: nat)
    requires count <= |present|
    ensures count <= n <= |present|
    ensures forall i :: count <= i < n ==> present[i]
    ensures n < |present| ==> !present[n]
    decreases |present| - count
  {
    if count == |present| || !present[count] then count else Prefix(present, count + 1)
  }

  // ----- one call of feed

  function Expired(connections: Connections, now: int): Connections {
    map k | k in connections && now - connections[k].lastSeen <= CONNECTION_TIMEOUT_MICROSECONDS :: connections[k]
  }

  function Step(connections: Connections, packet: Option<Initial>, now: int): (Connections, Option<Text>) {
    if packet.None? || packet.value.crypto == [] then (connections, None)
    else
      var id := packet.value.id;
      if id in connections then Store(connections, connections[id], packet.value, now)
      else
        var room := if |connections| >= MAX_TRACKED_CONNECTIONS then Expired(connections, now) else connections;
        if |room| >= MAX_TRACKED_CONNECTIONS then (room, None)
        else Store(room, Connection([], [], 0), packet.value, now)
  }

  function Store(connections: Connections, c: Connection, packet: Initial, now: int): (Connections, Option<Text>) {
    var written := WriteAll(c.(lastSeen := now), packet.crypto);
    if written.None? then (connections - {packet.id}, None)
    else
      var sni := Answer(written.value);
      if sni.Some? then (connections - {packet.id}, sni)
      else (connections[packet.id := written.value], None)
  }

  function Answer(c: Connection): Option<Text> {
    var usable := Prefix(c.present, 0);
    if usable < 4 || usable > |c.stream| then None else QuicSni(c.stream[..usable])
  }

  // ----- what every tracked connection looks like

  predicate IsBounded(c: Connection) {
    |c.stream| == |c.present| <= MAX_STREAM_BYTES
  }

  predicate Sound(connections: Connections) {
    |connections| <= MAX_TRACKED_CONNECTIONS && forall k :: k in connections ==> IsBounded(connections[k])
  }

  lemma {:induction false} WriteAllKeepsBounds(c: Connection, fragments: seq<Fragment>)
    requires IsBounded(c) && WriteAll(c, fragments).Some?
    ensures IsBounded(WriteAll(c, fragments).value)
    decreases |fragments|
  {
    if fragments != [] {
      WriteAllKeepsBounds(c.(stream := Write(c.stream, fragments[0]), present := Mark(c.present, fragments[0])),
                          fragments[1..]);
    }
  }

  lemma PutThenRemove(connections: Connections, id: ConnectionId, c: Connection)
    ensures connections[id := c] - {id} == connections - {id}
  {
  }

  lemma StoreKeepsSound(connections: Connections, c: Connection, packet: Initial, now: int)
    requires Sound(connections) && IsBounded(c)
    requires packet.id in connections || |connections| < MAX_TRACKED_CONNECTIONS
    ensures Sound(Store(connections, c, packet, now).0)
  {
    hide WriteAll, Answer;
    var written := WriteAll(c.(lastSeen := now), packet.crypto);
    MapSize(connections - {packet.id}, connections);
    if written.Some? {
      WriteAllKeepsBounds(c.(lastSeen := now), packet.crypto);
      PutSize(connections, packet.id, written.value);
    }
  }

  /** Memory is bounded over every run: each step keeps the table sound. */
  lemma StepKeepsSound(connections: Connections, packet: Option<Initial>, now: int)
    requires Sound(connections)
    ensures Sound(Step(connections, packet, now).0)
  {
    hide Store;
    MapSize(Expired(connections, now), connections);
    if packet.Some? {
      var p := packet.value;
      if p.id in connections {
        StoreKeepsSound(connections, connections[p.id], p, now);
      } else {
        var room := if |connections| >= MAX_TRACKED_CONNECTIONS then Expired(connections, now) else connections;
        if |room| < MAX_TRACKED_CONNECTIONS {
          StoreKeepsSound(room, Connection([], [], 0), p, now);
        }
      }
    }
  }

  // ----- writing in place

  /** The grow-then-copy of the fragment loop, on one fragment. */
  method WriteFragment(stream: seq<byte>, present: seq<bool>, f: Fragment) returns (s: seq<byte>, p: seq<bool>)
    requires |stream| == |present|
    ensures s == Write(stream, f) && p == Mark(present, f)
  {
    s, p := stream, present;
    var end := f.offset + |f.data|;
    if |s| < end {
      p := p + seq(end - |s|, _ => false);
      s := s + Zeros(end - |s|);
    }
    s := s[..f.offset] + f.data + s[end..];
    p := p[..f.offset] + seq(|f.data|, _ => true) + p[end..];
    assert |s| == |Write(stream, f)| && |p| == |Mark(present, f)|;
    assert forall i :: 0 <= i < |s| ==> s[i] == Write(stream, f)[i];
    assert forall i :: 0 <= i < |p| ==> p[i] == Mark(present, f)[i];
  }

  method ContiguousPrefix(c: Connection) returns (count: nat)
    ensures count == Prefix(c.present, 0)
  {
    count := 0;
    while count < |c.present| && c.present[count]
      invariant count <= |c.present| && Prefix(c.present, count) == Prefix(c.present, 0)
    {
      count := count + 1;
    }
  }

  class QuicTracker {
    var connections: Connections

    ghost predicate Valid()
      reads this
    {
      Sound(connections)
    }

    constructor ()
      ensures Valid() && connections == map[]
    {
      connections := map[];
    }

    /** The erasing loop of expireStale. */
    method ExpireStale(now: int)
      requires Valid()
      modifies this
      ensures Valid() && connections == Expired(old(connections), now)
    {
      var keys := connections.Keys;
      var left: Connections := map[];
      while keys != {}
        invariant keys <= connections.Keys && connections == old(connections)
        invariant left == map k | k in connections && k !in keys
                                  && now - connections[k].lastSeen <= CONNECTION_TIMEOUT_MICROSECONDS :: connections[k]
        decreases |keys|
      {
        var key :| key in keys;
        if !(now - connections[key].lastSeen > CONNECTION_TIMEOUT_MICROSECONDS) {
          left := left[key := connections[key]];
        }
        keys := keys - {key};
      }
      MapSize(left, connections);
      connections := left;
    }

    method Feed(packet: Option<Initial>, now: int) returns (sni: Option<Text>)
      requires Valid()
      modifies this
      ensures Valid() && (connections, sni) == Step(old(connections), packet, now)
    {
      hide Sound, Expired, WriteAll, Answer;
      StepKeepsSound(connections, packet, now);
      if packet.None? || packet.value.crypto == [] { return None; }
      var id := packet.value.id;
      var connection := Connection([], [], 0);
      if id in connections {
        connection := connections[id];
        assert IsBounded(connection) by { BoundedIn(connections, id); }
      } else if |connections| >= MAX_TRACKED_CONNECTIONS {
        ExpireStale(now);
        if |connections| >= MAX_TRACKED_CONNECTIONS { return None; }
      }
      connection := connection.(lastSeen := now);

      var written := WriteFragments(connection, packet.value.crypto);
      if written.None? {
        connections := connections - {id};
        return None;
      }
      connection := written.value;
      ghost var before := connections;
      connections := connections[id := connection];

      sni := FindAnswer(connection);
      if sni.Some? {
        connections := connections - {id};
        PutThenRemove(before, id, connection);
      }
    }

    method Clear()
      modifies this
      ensures Valid() && connections == map[]
    {
      connections := map[];
    }
  }

  lemma BoundedIn(connections: Connections, id: ConnectionId)
    requires Sound(connections) && id in connections
    ensures IsBounded(connections[id])
  {
  }

  /** The fragment loop of feed. */
  method WriteFragments(connection: Connection, crypto: seq<Fragment>) returns (written: Option<Connection>)
    requires |connection.stream| == |connection.present|
    ensures written == WriteAll(connection, crypto)
    ensures written.Some? ==> |written.value.stream| == |written.value.present|
  {
    var c := connection;
    for k := 0 to |crypto|
      invariant |c.stream| == |c.present|
      invariant WriteAll(c, crypto[k..]) == WriteAll(connection, crypto)
    {
      hide Write, Mark;
      assert crypto[k..][1..] == crypto[k + 1..];
      if End(crypto[k]) > MAX_STREAM_BYTES { return None; }
      var s, p := WriteFragment(c.stream, c.present, crypto[k]);
      assert |s| == |p| by { SameLength(c, crypto[k]); }
      c := c.(stream := s, present := p);
    }
    return Some(c);
  }

  lemma SameLength(c: Connection, f: Fragment)
    requires |c.stream| == |c.present|
    ensures |Write(c.stream, f)| == |Mark(c.present, f)|
  {
  }

  /** The end of feed: an answer needs every byte up to the declared length. */
  method FindAnswer(connection: Connection) returns (sni: Option<Text>)
    requires |connection.stream| == |connection.present|
    ensures sni == Answer(connection)
  {
    var usable := ContiguousPrefix(connection);
    if usable < 4 { return None; }
    sni := SniFromClientHello(connection.stream[..usable]);
  }

  // ----- the single-packet shortcut

  function EndOfAll(fragments: seq<Fragment>): (end: nat)
    ensures forall i :: 0 <= i < |fragments| ==> End(fragments[i]) <= end
  {
    if fragments == [] then 0 else Max(EndOfAll(fragments[..|fragments| - 1]), End(fragments[|fragments| - 1]))
  }

  /** The byte the last covering fragment puts at `i`, or zero. */
  function LastWrite(fragments: seq<Fragment>, i: nat): byte {
    if fragments == [] then 0
    else
      var f := fragments[|fragments| - 1];
      if Covers(f, i) then f.data[i - f.offset] else LastWrite(fragments[..|fragments| - 1], i)
  }

  /** One packet's fragments stitched together. */
  function Stitched(fragments: seq<Fragment>): seq<byte> {
    seq(EndOfAll(fragments), i requires 0 <= i < EndOfAll(fragments) => LastWrite(fragments, i))
  }

  function ExtractSni(packet: Option<Initial>): Option<Text> {
    if packet.None? || EndOfAll(packet.value.crypto) == 0 then None else QuicSni(Stitched(packet.value.crypto))
  }

  method ExtractInitialSni(packet: Option<Initial>) returns (sni: Option<Text>)
    ensures sni == ExtractSni(packet)
  {
    hide QuicSni, LastWrite;
    if packet.None? || packet.value.crypto == [] { return None; }
    var crypto := packet.value.crypto;
    var end := 0;
    for k := 0 to |crypto|
      invariant end == EndOfAll(crypto[..k])
    {
      assert crypto[..k + 1][..k] == crypto[..k];
      end := Max(end, End(crypto[k]));
    }
    assert crypto[..|crypto|] == crypto;
    if end == 0 { return None; }
    var stream := StitchInto(crypto, Zeros(end));
    sni := SniFromClientHello(stream);
  }

  /** The loop that copies each fragment over what earlier ones wrote. */
  method StitchInto(crypto: seq<Fragment>, zeros: seq<byte>) returns (stream: seq<byte>)
    requires |zeros| == EndOfAll(crypto) && forall i :: 0 <= i < |zeros| ==> zeros[i] == 0
    ensures stream == Stitched(crypto)
  {
    stream := zeros;
    for k := 0 to |crypto|
      invariant |stream| == |zeros| && forall i :: 0 <= i < |zeros| ==> stream[i] == LastWrite(crypto[..k], i)
    {
      var f := crypto[k];
      assert crypto[..k + 1][..k] == crypto[..k];
      stream := stream[..f.offset] + f.data + stream[End(f)..];
    }
    assert crypto[..|crypto|] == crypto;
  }
}
