/**
  Reassembly of a ClientHello split over TCP segments (src/core/TlsReassembler.cpp).
  The class is proved against the function `Step`, and runs of `Step` against
  parsing the whole record at once.
*/
module TlsReassembler {
  import opened Bytes
  import opened Packet
  import opened ClientHello

  const MAX_BUFFERED_BYTES: nat := 65536
  const STREAM_TIMEOUT_MICROSECONDS: int := 30_000_000
  const MAX_TRACKED_STREAMS: nat := 2048

  datatype StreamKey = StreamKey(srcIP: Text, dstIP: Text, srcPort: port, dstPort: port)

  datatype Stream = Stream(buffer: seq<byte>, nextSeq: uint32, needed: nat, lastSeen: int)

  type Streams = map<StreamKey, Stream>

  /** One call of feed: a decoded packet and its payload bytes (none for a null pointer). */
  datatype Segment = Segment(packet: Packet, payload: seq<byte>)

  function KeyOf(packet: Packet): StreamKey {
    StreamKey(packet.srcIP, packet.dstIP, packet.srcPort, packet.dstPort)
  }

  /** Sequence numbers wrap at 2^32. */
  function Advance(sequence: int, length: nat): uint32 {
    (sequence + length) % TWO_32
  }

  function Expired(streams: Streams, now: int): (left: Streams)
    ensures |left| <= |streams|
  {
    var left := map k | k in streams && now - streams[k].lastSeen <= STREAM_TIMEOUT_MICROSECONDS :: streams[k];
    MapSize(left, streams);
    left
  }

  predicate IsData(s: Segment) {
    s.packet.protocol == Tcp && s.payload != []
  }

  /** A segment that opens a handshake record without completing it. */
  predicate Opens(payload: seq<byte>) {
    LooksLikeTlsHandshake(payload) && |payload| < RecordLength(payload) <= MAX_BUFFERED_BYTES
  }

  function NonEmpty(name: Option<Text>): Option<Text> {
    if name == Some([]) then None else name
  }

  /** What one segment does to the table, and the name it yields. */
  function Step(streams: Streams, s: Segment): (Streams, Option<Text>) {
    var key := KeyOf(s.packet);
    if !IsData(s) then (streams, None)
    else if key in streams then Continue(streams, s)
    else (Start(streams, s), None)
  }

  function Start(streams: Streams, s: Segment): Streams {
    if !Opens(s.payload) then streams
    else
      var room := if |streams| >= MAX_TRACKED_STREAMS then Expired(streams, s.packet.timestamp) else streams;
      if |room| >= MAX_TRACKED_STREAMS then room
      else
        room[KeyOf(s.packet) := Stream(s.payload, Advance(s.packet.tcpSeq, |s.payload|),
                                       RecordLength(s.payload), s.packet.timestamp)]
  }

  function Continue(streams: Streams, s: Segment): (Streams, Option<Text>)
    requires KeyOf(s.packet) in streams
  {
    var key := KeyOf(s.packet);
    var stream := streams[key].(lastSeen := s.packet.timestamp);
    if s.packet.tcpSeq != stream.nextSeq then
      if Advance(s.packet.tcpSeq, |s.payload|) == stream.nextSeq then (streams[key := stream], None)
      else (streams - {key}, None)
    else if |stream.buffer| + |s.payload| > MAX_BUFFERED_BYTES then (streams - {key}, None)
    else
      var buffer := stream.buffer + s.payload;
      if |buffer| >= stream.needed then (streams - {key}, NonEmpty(TlsSni(buffer)))
      else
        (streams[key := stream.(buffer := buffer, nextSeq := Advance(stream.nextSeq, |s.payload|))], None)
  }

  // ----- what every tracked stream looks like

  /** A buffered stream is an incomplete record whose declared length fits the limit. */
  predicate IsPartial(stream: Stream) {
    |stream.buffer| >= 5 && LooksLikeTlsHandshake(stream.buffer)
    && stream.needed == RecordLength(stream.buffer)
    && |stream.buffer| < stream.needed <= MAX_BUFFERED_BYTES
  }

  predicate Sound(streams: Streams) {
    |streams| <= MAX_TRACKED_STREAMS && forall k :: k in streams ==> IsPartial(streams[k])
  }

  lemma Appended(buffer: seq<byte>, more: seq<byte>)
    requires |buffer| >= 5
    ensures LooksLikeTlsHandshake(buffer + more) == LooksLikeTlsHandshake(buffer)
    ensures RecordLength(buffer + more) == RecordLength(buffer)
  {
  }

  /** Memory is bounded over every run: each step keeps the table sound. */
  lemma StepKeepsSound(streams: Streams, s: Segment)
    requires Sound(streams)
    ensures Sound(Step(streams, s).0)
  {
    hide RecordLength, TlsSni;
    var key := KeyOf(s.packet);
    var next := Step(streams, s).0;
    if IsData(s) && key in streams {
      Appended(streams[key].buffer, s.payload);
      assert next.Keys <= streams.Keys;
      MapSize(next, streams);
    }
  }

  // ----- segments that belong together

  /** Consecutive segments of one stream, each starting where the one before it ended. */
  ghost predicate InOrder(chain: seq<Segment>, key: StreamKey) {
    && chain != []
    && (forall i :: 0 <= i < |chain| ==> KeyOf(chain[i].packet) == key)
    && forall i :: 0 < i < |chain| ==>
         chain[i].packet.tcpSeq == Advance(chain[i - 1].packet.tcpSeq, |chain[i - 1].payload|)
  }

  ghost function Joined(chain: seq<Segment>): seq<byte> {
    if chain == [] then [] else Joined(chain[..|chain| - 1]) + chain[|chain| - 1].payload
  }

  ghost predicate Backs(chain: seq<Segment>, key: StreamKey, stream: Stream) {
    && InOrder(chain, key) && Joined(chain) == stream.buffer
    && stream.nextSeq == Advance(chain[|chain| - 1].packet.tcpSeq, |chain[|chain| - 1].payload|)
  }

  lemma OneSegment(s: Segment)
    ensures InOrder([s], KeyOf(s.packet)) && Joined([s]) == s.payload
  {
    assert [s][..0] == [];
    assert Joined([s]) == Joined([]) + s.payload;
  }

  lemma Touched(chain: seq<Segment>, key: StreamKey, stream: Stream, now: int)
    requires Backs(chain, key, stream)
    ensures Backs(chain, key, stream.(lastSeen := now))
  {
  }

  lemma OneMore(chain: seq<Segment>, key: StreamKey, stream: Stream, s: Segment, more: Stream)
    requires Backs(chain, key, stream) && KeyOf(s.packet) == key && s.packet.tcpSeq == stream.nextSeq
    requires more.buffer == stream.buffer + s.payload && more.nextSeq == Advance(stream.nextSeq, |s.payload|)
    ensures Backs(chain + [s], key, more) && InOrder(chain + [s], key)
    ensures Joined(chain + [s]) == more.buffer && (chain + [s])[|chain|] == s
  {
    assert (chain + [s])[..|chain|] == chain;
  }

  class TlsReassembler {
    var streams: Streams
    /** For each tracked stream, the segments its buffer was made of. */
    ghost var accepted: map<StreamKey, seq<Segment>>

    ghost predicate Valid()
      reads this
    {
      && Sound(streams)
      && accepted.Keys == streams.Keys
      && forall k :: k in streams ==> Backs(accepted[k], k, streams[k])
    }

    constructor ()
      ensures Valid() && streams == map[]
    {
      streams, accepted := map[], map[];
    }

    method ExpireStale(now: int)
      requires Valid()
      modifies this
      ensures Valid() && streams == Expired(old(streams), now)
    {
      hide Backs, IsPartial;
      streams := Survivors(now);
      accepted := map k | k in accepted && k in streams :: accepted[k];
    }

    /** The erasing loop of expireStale. */
    method Survivors(now: int) returns (left: Streams)
      ensures left == Expired(streams, now)
    {
      var keys := streams.Keys;
      left := map[];
      while keys != {}
        invariant keys <= streams.Keys
        invariant left == map k | k in streams && k !in keys
                                  && now - streams[k].lastSeen <= STREAM_TIMEOUT_MICROSECONDS :: streams[k]
        decreases |keys|
      {
        var key :| key in keys;
        if !(now - streams[key].lastSeen > STREAM_TIMEOUT_MICROSECONDS) {
          left := left[key := streams[key]];
        }
        keys := keys - {key};
      }
    }

    /**
      The new table and the result are those of `Step`; and a name that is
      returned was parsed from consecutive segments of one stream, never from
      bytes spliced at a wrong offset.
    */
    method Feed(packet: Packet, payload: seq<byte>) returns (sni: Option<Text>)
      requires Valid()
      modifies this
      ensures Valid()
      ensures (streams, sni) == Step(old(streams), Segment(packet, payload))
      ensures sni.Some? ==> exists chain ::
                InOrder(chain, KeyOf(packet)) && chain[|chain| - 1] == Segment(packet, payload)
                && TlsSni(Joined(chain)) == sni
    {
      hide Start, Continue, Sound, Backs, InOrder, Joined, TlsSni;
      if packet.protocol != Tcp || payload == [] { return None; }
      var key := KeyOf(packet);
      if key !in streams {
        StartTracking(packet, payload);
        return None;
      }
      ghost var chain;
      sni, chain := ContinueStream(packet, payload);
    }

    /** The branch of feed for a stream that is not tracked yet. */
    method StartTracking(packet: Packet, payload: seq<byte>)
      requires Valid() && KeyOf(packet) !in streams
      modifies this
      ensures Valid() && streams == Start(old(streams), Segment(packet, payload))
    {
      ghost var segment := Segment(packet, payload);
      if !LooksLikeTlsHandshake(payload) { return; }
      var needed := RecordLength(payload);
      if needed <= |payload| { return; }
      if needed > MAX_BUFFERED_BYTES { return; }
      if |streams| >= MAX_TRACKED_STREAMS {
        ExpireStale(packet.timestamp);
        if |streams| >= MAX_TRACKED_STREAMS { return; }
      }
      OneSegment(segment);
      Put(KeyOf(packet), Stream(payload, Advance(packet.tcpSeq, |payload|), needed, packet.timestamp), [segment]);
    }

    /** The branch of feed for a stream that is tracked; `chain` backs a returned name. */
    method ContinueStream(packet: Packet, payload: seq<byte>)
      returns (sni: Option<Text>, ghost chain: seq<Segment>)
      requires Valid() && KeyOf(packet) in streams
      modifies this
      ensures Valid()
      ensures (streams, sni) == Continue(old(streams), Segment(packet, payload))
      ensures sni.Some? ==>
                InOrder(chain, KeyOf(packet)) && chain[|chain| - 1] == Segment(packet, payload)
                && TlsSni(Joined(chain)) == sni
    {
      hide RecordLength, TlsSni, LooksLikeTlsHandshake, Backs, InOrder, Joined;
      sni, chain := None, [];
      var key := KeyOf(packet);
      var stream := streams[key].(lastSeen := packet.timestamp);
      Touched(accepted[key], key, streams[key], packet.timestamp);
      if packet.tcpSeq != stream.nextSeq {
        if Advance(packet.tcpSeq, |payload|) == stream.nextSeq {
          Put(key, stream, accepted[key]);
          return;
        }
        Forget(key);
        return;
      }
      if |stream.buffer| + |payload| > MAX_BUFFERED_BYTES {
        Forget(key);
        return;
      }

      Appended(stream.buffer, payload);
      var more := stream.(buffer := stream.buffer + payload, nextSeq := Advance(stream.nextSeq, |payload|));
      chain := accepted[key] + [Segment(packet, payload)];
      OneMore(accepted[key], key, stream, Segment(packet, payload), more);
      if |more.buffer| < more.needed {
        Put(key, more, chain);
        return;
      }
      var parsed, name := ParseTlsClientHello(more.buffer);
      Forget(key);
      if parsed && name != [] {
        sni := Some(name);
      }
    }

    method Put(key: StreamKey, stream: Stream, ghost chain: seq<Segment>)
      requires Valid() && IsPartial(stream) && Backs(chain, key, stream)
      requires key in streams || |streams| < MAX_TRACKED_STREAMS
      modifies this
      ensures Valid() && streams == old(streams)[key := stream]
    {
      hide Backs, IsPartial;
      PutSize(streams, key, stream);
      streams, accepted := streams[key := stream], accepted[key := chain];
    }

    method Forget(key: StreamKey)
      requires Valid()
      modifies this
      ensures Valid() && streams == old(streams) - {key}
    {
      MapSize(streams - {key}, streams);
      streams, accepted := streams - {key}, accepted - {key};
    }

    method Clear()
      modifies this
      ensures Valid() && streams == map[]
    {
      streams, accepted := map[], map[];
    }
  }
}
