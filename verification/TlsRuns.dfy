/**
  Whole runs of the TLS reassembler: a record delivered in order, in any number
  of segments, among retransmissions and other streams, gives the answer of
  parsing the record at once, on the completing segment and on no earlier one.
*/
module TlsRuns {
  import opened Bytes
  import opened Packet
  import opened ClientHello
  import opened ClientHelloFacts
  import opened TlsReassembler

  /** The table after a run of segments. */
  ghost function After(streams: Streams, run: seq<Segment>): Streams
    decreases |run|
  {
    if run == [] then streams else After(Step(streams, run[0]).0, run[1..])
  }

  /** The name, if any, each segment of a run yields. */
  ghost function Outputs(streams: Streams, run: seq<Segment>): (outs: seq<Option<Text>>)
    ensures |outs| == |run|
    decreases |run|
  {
    if run == [] then [] else [Step(streams, run[0]).1] + Outputs(Step(streams, run[0]).0, run[1..])
  }

  /** Every reachable table is sound: at most 2048 streams, each an incomplete record of at most 64 KiB. */
  lemma {:induction false} RunsStaySound(streams: Streams, run: seq<Segment>)
    requires Sound(streams)
    ensures Sound(After(streams, run))
    ensures |After(streams, run)| <= 2048
    ensures forall k :: k in After(streams, run) ==> |After(streams, run)[k].buffer| < 65536
    decreases |run|
  {
    SoundMeans(streams);
    hide Step, Sound;
    if run != [] {
      StepKeepsSound(streams, run[0]);
      RunsStaySound(Step(streams, run[0]).0, run[1..]);
    }
  }

  lemma SoundMeans(streams: Streams)
    requires Sound(streams)
    ensures |streams| <= 2048 && forall k :: k in streams ==> |streams[k].buffer| < 65536
  {
  }

  /** A segment that would make the table grow. */
  predicate Starts(streams: Streams, s: Segment) {
    s.packet.protocol == Tcp && s.payload != [] && KeyOf(s.packet) !in streams && Opens(s.payload)
  }

  predicate ForStream(s: Segment, key: StreamKey) {
    s.packet.protocol == Tcp && s.payload != [] && KeyOf(s.packet) == key
  }

  /** A stream is one direction between two endpoints. */
  lemma KeysAreDirections(p: Packet, q: Packet)
    ensures KeyOf(p) == KeyOf(q)
       <==> p.srcIP == q.srcIP && p.srcPort == q.srcPort && p.dstIP == q.dstIP && p.dstPort == q.dstPort
  {
  }

  /** Other protocols and segments without data change nothing. */
  lemma ControlIsIgnored(streams: Streams, s: Segment)
    requires s.packet.protocol != Tcp || s.payload == []
    ensures Step(streams, s) == (streams, None)
  {
  }

  /**
    Whenever another stream starts during `run`, the table has room or `key` was
    heard from in the last 30 seconds. It was last heard from at `last`.
  */
  ghost predicate Spared(streams: Streams, run: seq<Segment>, key: StreamKey, last: int)
    decreases |run|
  {
    run != [] ==>
      var s := run[0];
      (!ForStream(s, key) && Starts(streams, s) ==>
         |streams| < 2048 || s.packet.timestamp - last <= 30_000_000)
      && Spared(Step(streams, s).0, run[1..], key, if ForStream(s, key) then s.packet.timestamp else last)
  }

  /** No segment of the run is more than 30 seconds younger than the last one of `key` before it. */
  ghost predicate KeepsUp(run: seq<Segment>, key: StreamKey, last: int)
    decreases |run|
  {
    run != [] ==>
      run[0].packet.timestamp - last <= 30_000_000
      && KeepsUp(run[1..], key, if ForStream(run[0], key) then run[0].packet.timestamp else last)
  }

  /** A stream that keeps up is spared, whatever fills the table. */
  lemma {:induction false} KeepingUpSpares(streams: Streams, run: seq<Segment>, key: StreamKey, last: int)
    requires KeepsUp(run, key, last)
    ensures Spared(streams, run, key, last)
    decreases |run|
  {
    hide Step, Starts, ForStream;
    if run != [] {
      KeepingUpSpares(Step(streams, run[0]).0, run[1..], key, if ForStream(run[0], key) then run[0].packet.timestamp else last);
    }
  }

  /** Data that ends where the accepted data ends: a repeat of the last segment, or of its tail. */
  predicate IsRepeat(s: Segment, start: uint32, got: nat) {
    |s.payload| < 0x1_0000_0000 && (s.packet.tcpSeq + |s.payload|) % 0x1_0000_0000 == (start + got) % 0x1_0000_0000
  }

  /** The next bytes of the record, at the sequence number where they belong. */
  ghost predicate IsNext(s: Segment, record: seq<byte>, start: uint32, got: nat) {
    s.packet.tcpSeq == (start + got) % 0x1_0000_0000 && LiesAt(record, got, s.payload)
  }

  /**
    The rest of `record`, from byte `got` on, arrives in order in `run`: other
    streams and repeats may come between, and the last segment is the one that
    completes the record. The first byte has sequence number `start`.
  */
  ghost predicate Delivers(run: seq<Segment>, key: StreamKey, record: seq<byte>, start: uint32, got: nat)
    requires |record| >= 5
    decreases |run|
  {
    run != [] &&
    var s := run[0];
    if !ForStream(s, key) || IsRepeat(s, start, got) then Delivers(run[1..], key, record, start, got)
    else
      IsNext(s, record, start, got)
      && if got + |s.payload| < RecordLength(record)
         then Delivers(run[1..], key, record, start, got + |s.payload|)
         else |run| == 1
  }

  /** The stream holds exactly the first `got` bytes of the record, and was last heard from at `last`. */
  ghost predicate Holds(streams: Streams, key: StreamKey, record: seq<byte>, start: uint32, got: nat, last: int) {
    && |record| >= 5 && 5 <= got < RecordLength(record) <= |record| <= 65536
    && LooksLikeTlsHandshake(record)
    && key in streams
    && streams[key].buffer == record[..got]
    && streams[key].nextSeq == Advance(start, got)
    && streams[key].needed == RecordLength(record) && streams[key].lastSeen == last
  }

  lemma AdvanceTwice(start: uint32, a: nat, b: nat)
    ensures Advance(Advance(start, a), b) == Advance(start, a + b)
  {
  }

  /**
    Segments of other streams, and control segments, leave the stream alone: it is
    dropped only for a new stream at a full table, after more than 30 seconds of silence.
  */
  lemma OtherStreams(streams: Streams, s: Segment, key: StreamKey)
    requires !ForStream(s, key) && key in streams
    ensures var next := Step(streams, s).0;
            && (key in next <==> !(Starts(streams, s) && |streams| >= 2048
                                   && s.packet.timestamp - streams[key].lastSeen > 30_000_000))
            && (key in next ==> next[key] == streams[key])
  {
    hide TlsSni, Opens;
  }

  /** The first segment of an incomplete record starts a stream if and only if there is room or a silent stream to drop. */
  lemma AdmittedIffRoom(streams: Streams, s: Segment)
    requires Sound(streams) && s.packet.protocol == Tcp && s.payload != [] && KeyOf(s.packet) !in streams
    ensures KeyOf(s.packet) in Step(streams, s).0
       <==> && LooksLikeTlsHandshake(s.payload) && |s.payload| < RecordLength(s.payload) <= 65536
            && (|streams| < 2048 || exists k :: k in streams && s.packet.timestamp - streams[k].lastSeen > 30_000_000)
  {
    hide TlsSni, LooksLikeTlsHandshake, RecordLength, IsPartial;
    var now := s.packet.timestamp;
    var room := Expired(streams, now);
    if k :| k in streams && now - streams[k].lastSeen > 30_000_000 {
      MapSize(room, streams - {k});
    } else {
      assert room == streams;
    }
  }

  lemma RepeatIsIgnored(
      streams: Streams, s: Segment, key: StreamKey, record: seq<byte>, start: uint32, got: nat, last: int)
    requires Holds(streams, key, record, start, got, last) && ForStream(s, key) && IsRepeat(s, start, got)
    ensures Step(streams, s).1 == None && Holds(Step(streams, s).0, key, record, start, got, s.packet.timestamp)
  {
    hide TlsSni, LooksLikeTlsHandshake;
    assert s.packet.tcpSeq != streams[key].nextSeq;
  }

  lemma NextIsAppended(
      streams: Streams, s: Segment, key: StreamKey, record: seq<byte>, start: uint32, got: nat, last: int)
    requires Holds(streams, key, record, start, got, last) && ForStream(s, key) && IsNext(s, record, start, got)
    requires got + |s.payload| < RecordLength(record)
    ensures Step(streams, s).1 == None
    ensures Holds(Step(streams, s).0, key, record, start, got + |s.payload|, s.packet.timestamp)
  {
    hide TlsSni, LooksLikeTlsHandshake;
    LiesAtSlice(record, got, s.payload);
    assert record[..got] + s.payload == record[..got + |s.payload|];
    AdvanceTwice(start, got, |s.payload|);
  }

  lemma LastCompletes(
      streams: Streams, s: Segment, key: StreamKey, record: seq<byte>, start: uint32, got: nat, last: int)
    requires Holds(streams, key, record, start, got, last) && ForStream(s, key) && IsNext(s, record, start, got)
    requires got + |s.payload| >= RecordLength(record)
    ensures Step(streams, s) == (streams - {key}, NonEmpty(TlsSni(record)))
  {
    hide TlsSni, LooksLikeTlsHandshake;
    LiesAtSlice(record, got, s.payload);
    var buffer := record[..got] + s.payload;
    assert buffer == record[..got + |s.payload|];
    TlsSniIsLocal(record, buffer);
  }

  lemma {:induction false} RestOfDelivery(streams: Streams, run: seq<Segment>, key: StreamKey, record: seq<byte>,
                                          start: uint32, got: nat, last: int)
    requires Holds(streams, key, record, start, got, last)
    requires Delivers(run, key, record, start, got) && Spared(streams, run, key, last)
    ensures var outs := Outputs(streams, run);
            outs[|run| - 1] == NonEmpty(TlsSni(record))
            && forall i :: 0 <= i < |run| - 1 && ForStream(run[i], key) ==> outs[i] == None
    decreases |run|
  {
    hide Step, TlsSni, ForStream, IsRepeat, IsNext, Starts, Spared, Outputs;
    var s, rest := run[0], run[1..];
    var next := Step(streams, s).0;
    SparedFirst(streams, run, key, last);
    OutputsSplit(streams, run);
    var more := if !ForStream(s, key) || IsRepeat(s, start, got) then got else got + |s.payload|;
    if !ForStream(s, key) {
      OtherStreams(streams, s, key);
    } else if IsRepeat(s, start, got) {
      RepeatIsIgnored(streams, s, key, record, start, got, last);
    } else if more < RecordLength(record) {
      NextIsAppended(streams, s, key, record, start, got, last);
    } else {
      LastCompletes(streams, s, key, record, start, got, last);
      return;
    }
    RestOfDelivery(next, rest, key, record, start, more, if ForStream(s, key) then s.packet.timestamp else last);
    assert forall i :: 0 < i < |run| ==> run[i] == rest[i - 1];
  }

  lemma OutputsSplit(streams: Streams, run: seq<Segment>)
    requires run != []
    ensures Outputs(streams, run)[0] == Step(streams, run[0]).1
    ensures forall i :: 0 < i < |run| ==> Outputs(streams, run)[i] == Outputs(Step(streams, run[0]).0, run[1..])[i - 1]
  {
    hide Step;
  }

  lemma SparedFirst(streams: Streams, run: seq<Segment>, key: StreamKey, last: int)
    requires run != [] && Spared(streams, run, key, last)
    ensures var s := run[0];
            && (!ForStream(s, key) && Starts(streams, s) ==>
                  |streams| < 2048 || s.packet.timestamp - last <= 30_000_000)
            && Spared(Step(streams, s).0, run[1..], key, if ForStream(s, key) then s.packet.timestamp else last)
  {
    hide Step, ForStream, Starts;
  }

  /**
    The whole delivery. The first segment of an untracked stream carries at
    least the record header and less than the record, and finds room or a silent
    stream to drop; whatever follows it in order, and whatever else fills the table
    while this stream is not silent for more than 30 seconds, the name of the record
    appears with the completing segment only.
  */
  lemma ReassemblyIsOneShot(streams: Streams, run: seq<Segment>, key: StreamKey, record: seq<byte>)
    requires |record| >= 5 && LooksLikeTlsHandshake(record)
    requires RecordLength(record) <= |record| <= 65536
    requires run != [] && ForStream(run[0], key) && key !in streams
    requires 5 <= |run[0].payload| < RecordLength(record) && LiesAt(record, 0, run[0].payload)
    requires Delivers(run[1..], key, record, run[0].packet.tcpSeq, |run[0].payload|)
    requires Sound(streams)
    requires |streams| < 2048 || exists k :: k in streams && run[0].packet.timestamp - streams[k].lastSeen > 30_000_000
    requires Spared(Step(streams, run[0]).0, run[1..], key, run[0].packet.timestamp)
    ensures var outs := Outputs(streams, run);
            outs[|run| - 1] == NonEmpty(TlsSni(record))
            && forall i :: 0 <= i < |run| - 1 && ForStream(run[i], key) ==> outs[i] == None
  {
    hide TlsSni, Delivers, Spared, Step, ForStream, Holds, Sound, Outputs, LiesAt, LooksLikeTlsHandshake, RecordLength;
    var first, rest := run[0], run[1..];
    var next := Step(streams, first).0;
    FirstIsBuffered(streams, first, key, record);
    RestOfDelivery(next, rest, key, record, first.packet.tcpSeq, |first.payload|, first.packet.timestamp);
    assert rest != [] by { NonEmptyDelivery(rest, key, record, first.packet.tcpSeq, |first.payload|); }
    OutputsSplit(streams, run);
    assert forall i :: 0 < i < |run| ==> run[i] == rest[i - 1];
  }

  /** In particular when no segment of the run comes more than 30 seconds after the stream was last heard from. */
  lemma PromptDeliveryIsOneShot(streams: Streams, run: seq<Segment>, key: StreamKey, record: seq<byte>)
    requires |record| >= 5 && LooksLikeTlsHandshake(record)
    requires RecordLength(record) <= |record| <= 65536
    requires run != [] && ForStream(run[0], key) && key !in streams
    requires 5 <= |run[0].payload| < RecordLength(record) && LiesAt(record, 0, run[0].payload)
    requires Delivers(run[1..], key, record, run[0].packet.tcpSeq, |run[0].payload|)
    requires Sound(streams)
    requires |streams| < 2048 || exists k :: k in streams && run[0].packet.timestamp - streams[k].lastSeen > 30_000_000
    requires KeepsUp(run[1..], key, run[0].packet.timestamp)
    ensures var outs := Outputs(streams, run);
            outs[|run| - 1] == NonEmpty(TlsSni(record))
            && forall i :: 0 <= i < |run| - 1 && ForStream(run[i], key) ==> outs[i] == None
  {
    hide TlsSni, Delivers, Spared, KeepsUp, Step, ForStream, Sound, Outputs, LiesAt;
    KeepingUpSpares(Step(streams, run[0]).0, run[1..], key, run[0].packet.timestamp);
    ReassemblyIsOneShot(streams, run, key, record);
  }

  lemma NonEmptyDelivery(run: seq<Segment>, key: StreamKey, record: seq<byte>, start: uint32, got: nat)
    requires |record| >= 5 && Delivers(run, key, record, start, got)
    ensures run != []
  {
  }

  lemma FirstIsBuffered(streams: Streams, s: Segment, key: StreamKey, record: seq<byte>)
    requires |record| >= 5 && LooksLikeTlsHandshake(record)
    requires RecordLength(record) <= |record| <= 65536
    requires ForStream(s, key) && key !in streams && Sound(streams)
    requires 5 <= |s.payload| < RecordLength(record) && LiesAt(record, 0, s.payload)
    requires |streams| < 2048 || exists k :: k in streams && s.packet.timestamp - streams[k].lastSeen > 30_000_000
    ensures Step(streams, s).1 == None
    ensures Holds(Step(streams, s).0, key, record, s.packet.tcpSeq, |s.payload|, s.packet.timestamp)
  {
    hide TlsSni, Sound, IsPartial;
    LiesAtSlice(record, 0, s.payload);
    assert record[0..|s.payload|] == record[..|s.payload|];
    assert forall i :: 0 <= i < 5 ==> s.payload[i] == record[i];
    AdmittedIffRoom(streams, s);
  }

  // ----- what ends a stream

  /**
    A segment that is neither the next data nor a repeat ends the stream without an
    answer, and so does one that makes it too long. The only other end is the last byte
    of the record, and only then is there an answer.
  */
  lemma StreamEndsIff(streams: Streams, s: Segment, key: StreamKey)
    requires Sound(streams) && ForStream(s, key) && key in streams
    ensures var stream, next := streams[key], Step(streams, s);
            var isNext := s.packet.tcpSeq == stream.nextSeq;
            var isRepeat := (s.packet.tcpSeq + |s.payload|) % 0x1_0000_0000 == stream.nextSeq;
            && (key in next.0 <==> if isNext then |stream.buffer| + |s.payload| < RecordLength(stream.buffer) else isRepeat)
            && next.0 - {key} == streams - {key}
            && next.1 == (var all := stream.buffer + s.payload;
                          if isNext && RecordLength(stream.buffer) <= |all| <= 65536 && TlsSni(all) != Some([])
                          then TlsSni(all) else None)
  {
    hide TlsSni, LooksLikeTlsHandshake, RecordLength;
    assert IsPartial(streams[key]);
  }
}
