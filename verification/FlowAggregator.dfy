/**
  The flow table (src/core/FlowAggregator.cpp, update and snapshot). The class is
  proved against replaying its history, and one flow's state against replaying
  the packets of that flow alone.
*/
module FlowAggregator {
  import opened Bytes
  import opened Packet
  import opened FlowKeys

  const ONE_SECOND: int := 1_000_000

  datatype Sample = Sample(timestamp: int, bytes: nat)

  /** The next sequence number expected in one direction, once one is known. */
  datatype DirectionSequence = DirectionSequence(nextExpected: uint32, valid: bool)

  const NO_SEQUENCE := DirectionSequence(0, false)

  datatype Flow = Flow(
    key: FlowKey, bytesUp: nat, bytesDown: nat, packets: nat, firstSeen: int, lastSeen: int,
    rateBytesPerSecond: nat, initialRtt: int, encryptedTunnel: bool,
    retransmissionsUp: nat, retransmissionsDown: nat, outOfOrderUp: nat, outOfOrderDown: nat)

  datatype FlowState = FlowState(
    flow: Flow, recentTraffic: seq<Sample>,
    upSequence: DirectionSequence, downSequence: DirectionSequence,
    synTimestamp: int, synSeen: bool)

  type Flows = map<FlowKey, FlowState>

  function Fresh(key: FlowKey): FlowState {
    FlowState(Flow(key, 0, 0, 0, 0, 0, 0, 0, false, 0, 0, 0, 0), [], NO_SEQUENCE, NO_SEQUENCE, 0, false)
  }

  // ----- what one packet does to its flow

  function Counted(flow: Flow, packet: Packet, downstream: bool): Flow {
    flow.(firstSeen := if flow.packets == 0 then packet.timestamp else flow.firstSeen,
          lastSeen := packet.timestamp,
          packets := flow.packets + 1,
          bytesDown := flow.bytesDown + (if downstream then packet.length else 0),
          bytesUp := flow.bytesUp + (if downstream then 0 else packet.length),
          encryptedTunnel := flow.encryptedTunnel || packet.encryptedTunnel)
  }

  /** The handshake timer: state of the SYN seen and the round-trip time, zero until known. */
  datatype Handshake = Handshake(rtt: int, synTimestamp: int, synSeen: bool)

  function Timed(h: Handshake, packet: Packet, downstream: bool): Handshake {
    if packet.protocol != Tcp || h.rtt != 0 then h
    else if packet.tcpSyn && !packet.tcpAck && !downstream && !h.synSeen then
      h.(synTimestamp := packet.timestamp, synSeen := true)
    else if packet.tcpSyn && packet.tcpAck && downstream && h.synSeen && packet.timestamp > h.synTimestamp then
      h.(rtt := packet.timestamp - h.synTimestamp)
    else h
  }

  /** The signed 32-bit value of a difference (section 3 of RFC 1982). */
  function SignedDifference(a: uint32, b: uint32): (d: int) {
    var d := (a - b) % TWO_32;
    if d < 0x8000_0000 then d else d - TWO_32
  }

  datatype Delivery = Delivery(sequence: DirectionSequence, retransmissions: nat, outOfOrder: nat)

  predicate CarriesData(packet: Packet) {
    packet.protocol == Tcp && packet.payloadLength > 0
  }

  function Sequenced(d: Delivery, packet: Packet): Delivery {
    var segmentEnd := (packet.tcpSeq + packet.payloadLength % TWO_32) % TWO_32;
    var moved := DirectionSequence(segmentEnd, true);
    if !d.sequence.valid then d.(sequence := moved)
    else
      var offset := SignedDifference(packet.tcpSeq, d.sequence.nextExpected);
      if offset == 0 then d.(sequence := moved)
      else if offset < 0 then
        d.(retransmissions := d.retransmissions + 1,
           sequence := if SignedDifference(segmentEnd, d.sequence.nextExpected) > 0 then moved else d.sequence)
      else d.(outOfOrder := d.outOfOrder + 1, sequence := moved)
  }

  function UpDelivery(s: FlowState): Delivery {
    Delivery(s.upSequence, s.flow.retransmissionsUp, s.flow.outOfOrderUp)
  }

  function DownDelivery(s: FlowState): Delivery {
    Delivery(s.downSequence, s.flow.retransmissionsDown, s.flow.outOfOrderDown)
  }

  /** One direction after a packet, which moves it if it is data of that direction, or resets it. */
  function Delivered(d: Delivery, packet: Packet, mine: bool): Delivery {
    var after := if CarriesData(packet) && mine then Sequenced(d, packet) else d;
    if packet.tcpRst then after.(sequence := NO_SEQUENCE) else after
  }

  function Pruned(samples: seq<Sample>, cutoff: int): seq<Sample> {
    if samples == [] || samples[0].timestamp >= cutoff then samples else Pruned(samples[1..], cutoff)
  }

  function Advanced(s: FlowState, packet: Packet): FlowState {
    var downstream := IsDownstream(packet, s.flow.key);
    var h := Timed(Handshake(s.flow.initialRtt, s.synTimestamp, s.synSeen), packet, downstream);
    var up := Delivered(UpDelivery(s), packet, !downstream);
    var down := Delivered(DownDelivery(s), packet, downstream);
    FlowState(
      Counted(s.flow, packet, downstream).(
        initialRtt := h.rtt,
        retransmissionsUp := up.retransmissions, outOfOrderUp := up.outOfOrder,
        retransmissionsDown := down.retransmissions, outOfOrderDown := down.outOfOrder),
      Pruned(s.recentTraffic + [Sample(packet.timestamp, packet.length)], packet.timestamp - ONE_SECOND),
      up.sequence, down.sequence, h.synTimestamp, h.synSeen)
  }

  function Step(flows: Flows, packet: Packet): Flows {
    match KeyFor(packet)
    case None => flows
    case Some(key) => flows[key := Advanced(if key in flows then flows[key] else Fresh(key), packet)]
  }

  /** The table after a history of packets. */
  ghost function Replay(history: seq<Packet>): Flows {
    if history == [] then map[] else Step(Replay(history[..|history| - 1]), history[|history| - 1])
  }

  // ----- the aggregator

  /** The samples of the last second before `now`. */
  function InWindow(sample: Sample, now: int): bool {
    now - ONE_SECOND <= sample.timestamp <= now
  }

  function WindowSum(samples: seq<Sample>, now: int): nat {
    if samples == [] then 0
    else
      WindowSum(samples[..|samples| - 1], now)
      + if InWindow(samples[|samples| - 1], now) then samples[|samples| - 1].bytes else 0
  }

  /** A snapshot lists every flow once, with the rate of the last second. */
  ghost predicate IsSnapshot(out: seq<Flow>, flows: Flows, now: int) {
    Lists(out, flows, {}, now)
  }

  /** What the snapshot says of one flow. */
  function Rated(state: FlowState, now: int): Flow {
    state.flow.(rateBytesPerSecond := WindowSum(state.recentTraffic, now))
  }

  /** `out` lists every flow once, except those still to be listed. */
  ghost predicate Lists(out: seq<Flow>, flows: Flows, left: set<FlowKey>, now: int) {
    && (forall i :: 0 <= i < |out| ==>
          out[i].key in flows && out[i].key !in left && out[i] == Rated(flows[out[i].key], now))
    && (forall i, j :: 0 <= i < j < |out| ==> out[i].key != out[j].key)
    && (forall key :: key in flows && key !in left ==> exists i :: 0 <= i < |out| && out[i].key == key)
  }

  lemma ListsNone(flows: Flows, now: int)
    ensures Lists([], flows, flows.Keys, now)
  {
  }

  lemma ListsOneMore(out: seq<Flow>, flows: Flows, left: set<FlowKey>, now: int, key: FlowKey)
    requires Lists(out, flows, left, now) && key in left && key in flows && flows[key].flow.key == key
    ensures Lists(out + [Rated(flows[key], now)], flows, left - {key}, now)
  {
    hide WindowSum;
    var more := out + [Rated(flows[key], now)];
    forall k | k in flows && k !in left - {key} ensures exists i :: 0 <= i < |more| && more[i].key == k {
      if k == key {
        assert more[|out|].key == k;
      } else {
        var i :| 0 <= i < |out| && out[i].key == k;
        assert more[i].key == k;
      }
    }
  }

  class FlowAggregator {
    var flows: Flows
    ghost var history: seq<Packet>

    ghost predicate Valid()
      reads this
    {
      flows == Replay(history)
    }

    constructor ()
      ensures Valid() && history == []
    {
      flows, history := map[], [];
    }

    method Update(packet: Packet)
      requires Valid()
      modifies this
      ensures Valid() && history == old(history) + [packet]
    {
      hide Replay, KeyFor, Advanced;
      ghost var before := flows;
      ghost var past := history;
      assert Replay(past + [packet]) == Step(Replay(past), packet) by { ReplaySnoc(past, packet); }
      history := history + [packet];
      var key := KeyFor(packet);
      if key.None? { return; }
      var state := if key.value in flows then flows[key.value] else Fresh(key.value);
      assert state.flow.key == key.value by { KeyIsKept(past, key.value); }
      state := UpdateFlow(state, packet);
      flows := flows[key.value := state];
    }

    method Snapshot(now: int) returns (out: seq<Flow>)
      requires Valid()
      ensures IsSnapshot(out, flows, now)
    {
      hide Replay, Lists;
      out := [];
      var keys := flows.Keys;
      KeysAreKept(history);
      assert Lists(out, flows, keys, now) by { ListsNone(flows, now); }
      while keys != {}
        invariant keys <= flows.Keys && Lists(out, flows, keys, now)
        decreases |keys|
      {
        var key :| key in keys;
        ListsOneMore(out, flows, keys, now, key);
        var bytesInWindow := BytesInWindow(flows[key].recentTraffic, now);
        out := out + [flows[key].flow.(rateBytesPerSecond := bytesInWindow)];
        keys := keys - {key};
      }
    }

    method Clear()
      modifies this
      ensures Valid() && history == []
    {
      flows, history := map[], [];
    }
  }

  lemma ReplaySnoc(history: seq<Packet>, packet: Packet)
    ensures Replay(history + [packet]) == Step(Replay(history), packet)
  {
    assert (history + [packet])[..|history|] == history;
  }

  lemma {:induction false} KeysAreKept(history: seq<Packet>)
    ensures forall key :: key in Replay(history) ==> Replay(history)[key].flow.key == key
  {
    if history != [] {
      KeysAreKept(history[..|history| - 1]);
    }
  }

  lemma KeyIsKept(history: seq<Packet>, key: FlowKey)
    ensures key in Replay(history) ==> Replay(history)[key].flow.key == key
  {
    KeysAreKept(history);
  }

  method BytesInWindow(samples: seq<Sample>, now: int) returns (bytes: nat)
    ensures bytes == WindowSum(samples, now)
  {
    bytes := 0;
    var cutoff := now - ONE_SECOND;
    for i := 0 to |samples|
      invariant bytes == WindowSum(samples[..i], now)
    {
      assert samples[..i + 1][..i] == samples[..i];
      if samples[i].timestamp >= cutoff && samples[i].timestamp <= now {
        bytes := bytes + samples[i].bytes;
      }
    }
    assert samples[..|samples|] == samples;
  }

  /** The body of update, on the state of the packet's flow. */
  method UpdateFlow(state: FlowState, packet: Packet) returns (s: FlowState)
    ensures s == Advanced(state, packet)
  {
    hide Counted, Timed, Sequenced, Pruned;
    var downstream := IsDownstream(packet, state.flow.key);
    var flow := CountPacket(state.flow, packet, downstream);
    var h := UpdateHandshake(Handshake(state.flow.initialRtt, state.synTimestamp, state.synSeen), packet, downstream);

    var up, down := UpDelivery(state), DownDelivery(state);
    if packet.protocol == Tcp && packet.payloadLength > 0 {
      if downstream { down := UpdateSequence(down, packet); } else { up := UpdateSequence(up, packet); }
    }
    if packet.tcpRst {
      up := up.(sequence := NO_SEQUENCE);
      down := down.(sequence := NO_SEQUENCE);
    }

    var traffic := PushAndPrune(state.recentTraffic, packet);
    s := FlowState(
      flow.(initialRtt := h.rtt,
            retransmissionsUp := up.retransmissions, outOfOrderUp := up.outOfOrder,
            retransmissionsDown := down.retransmissions, outOfOrderDown := down.outOfOrder),
      traffic, up.sequence, down.sequence, h.synTimestamp, h.synSeen);
  }

  /** The counters at the top of update. */
  method CountPacket(flow: Flow, packet: Packet, downstream: bool) returns (f: Flow)
    ensures f == Counted(flow, packet, downstream)
  {
    f := flow;
    if f.packets == 0 { f := f.(firstSeen := packet.timestamp); }
    f := f.(lastSeen := packet.timestamp);
    f := f.(packets := f.packets + 1);
    if downstream {
      f := f.(bytesDown := f.bytesDown + packet.length);
    } else {
      f := f.(bytesUp := f.bytesUp + packet.length);
    }
    if packet.encryptedTunnel { f := f.(encryptedTunnel := true); }
  }

  /** The initial round-trip branch of update. */
  method UpdateHandshake(handshake: Handshake, packet: Packet, downstream: bool) returns (h: Handshake)
    ensures h == Timed(handshake, packet, downstream)
  {
    h := handshake;
    if packet.protocol == Tcp && h.rtt == 0 {
      if packet.tcpSyn && !packet.tcpAck && !downstream && !h.synSeen {
        h := h.(synTimestamp := packet.timestamp);
        h := h.(synSeen := true);
      } else if packet.tcpSyn && packet.tcpAck && downstream && h.synSeen {
        var delta := packet.timestamp - h.synTimestamp;
        if delta > 0 { h := h.(rtt := delta); }
      }
    }
  }

  /** The sequence-number branch of update, on the counters of one direction. */
  method UpdateSequence(delivery: Delivery, packet: Packet) returns (d: Delivery)
    requires packet.payloadLength > 0
    ensures d == Sequenced(delivery, packet)
  {
    d := delivery;
    var segmentEnd := (packet.tcpSeq + packet.payloadLength % TWO_32) % TWO_32;
    if !d.sequence.valid {
      d := d.(sequence := DirectionSequence(segmentEnd, true));
    } else {
      var offsetFromExpected := SignedDifference(packet.tcpSeq, d.sequence.nextExpected);
      if offsetFromExpected == 0 {
        d := d.(sequence := d.sequence.(nextExpected := segmentEnd));
      } else if offsetFromExpected < 0 {
        d := d.(retransmissions := d.retransmissions + 1);
        if SignedDifference(segmentEnd, d.sequence.nextExpected) > 0 {
          d := d.(sequence := d.sequence.(nextExpected := segmentEnd));
        }
      } else {
        d := d.(outOfOrder := d.outOfOrder + 1);
        d := d.(sequence := d.sequence.(nextExpected := segmentEnd));
      }
    }
  }

  /** The deque of recent samples: one pushed at the back, old ones popped from the front. */
  method PushAndPrune(recent: seq<Sample>, packet: Packet) returns (traffic: seq<Sample>)
    ensures traffic == Pruned(recent + [Sample(packet.timestamp, packet.length)], packet.timestamp - ONE_SECOND)
  {
    traffic := recent + [Sample(packet.timestamp, packet.length)];
    ghost var pushed := traffic;
    var cutoff := packet.timestamp - ONE_SECOND;
    while traffic != [] && traffic[0].timestamp < cutoff
      invariant Pruned(traffic, cutoff) == Pruned(pushed, cutoff)
      decreases |traffic|
    {
      traffic := traffic[1..];
    }
  }
}
