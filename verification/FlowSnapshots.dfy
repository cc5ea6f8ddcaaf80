/**
  What a snapshot tells of a flow, in terms of the history alone
  (src/core/FlowAggregator.cpp, update and snapshot).
*/
module FlowSnapshots {
  import opened Bytes
  import opened Packet
  import opened FlowKeys
  import opened FlowAggregator
  import opened FlowRuns
  import opened FlowSequences

  /** Entry `i` is the state its own packets lead to, and these are the packets with its key. */
  lemma EntryIsOwnState(history: seq<Packet>, out: seq<Flow>, now: int, i: nat)
    requires IsSnapshot(out, Replay(history), now) && i < |out|
    ensures var own := Own(history, out[i].key);
            && own != [] && (forall k :: 0 <= k < |own| ==> KeyFor(own[k]) == Some(out[i].key))
            && out[i] == Rated(StateAfter(out[i].key, own), now)
  {
    hide Replay, Own, StateAfter, Rated;
    Projection(history, out[i].key);
    OwnHasKey(history, out[i].key);
  }

  /** Counters: how many packets, and how many bytes each endpoint sent. */
  lemma EntryCounts(history: seq<Packet>, out: seq<Flow>, now: int, i: nat)
    requires IsSnapshot(out, Replay(history), now) && i < |out|
    ensures var key, own := out[i].key, Own(history, out[i].key);
            && out[i].packets == |own|
            && out[i].bytesDown == Sum(own, SizeFrom(key.dstIP, key.dstPort))
            && out[i].bytesUp == (if key.srcIP == key.dstIP && key.srcPort == key.dstPort then 0
                                  else Sum(own, SizeFrom(key.srcIP, key.srcPort)))
            && out[i].bytesUp + out[i].bytesDown == Sum(own, Size)
  {
    hide Replay, Own, StateAfter, Sum;
    var key, own := out[i].key, Own(history, out[i].key);
    EntryIsOwnState(history, out, now, i);
    CountersAreSums(key, own);
    if key.srcIP == key.dstIP && key.srcPort == key.dstPort {
      LoopbackIsDown(key, own);
    } else {
      UpIsFromSource(key, own);
    }
  }

  /** When the flow was first and last heard from, and whether anything in it was encrypted. */
  lemma EntrySeen(history: seq<Packet>, out: seq<Flow>, now: int, i: nat)
    requires IsSnapshot(out, Replay(history), now) && i < |out|
    ensures var own := Own(history, out[i].key);
            && own != []
            && out[i].firstSeen == own[0].timestamp && out[i].lastSeen == own[|own| - 1].timestamp
            && (out[i].encryptedTunnel <==> exists k :: 0 <= k < |own| && own[k].encryptedTunnel)
  {
    hide Replay, Own, StateAfter;
    EntryIsOwnState(history, out, now, i);
    FirstAndLast(out[i].key, Own(history, out[i].key));
  }

  /**
    Which way is down: with one server port among the two, that endpoint is the
    key's destination, and bytesDown is what the server sent, bytesUp what the other did.
  */
  lemma EntryServer(history: seq<Packet>, out: seq<Flow>, now: int, i: nat, k: nat)
    requires IsSnapshot(out, Replay(history), now) && i < |out| && k < |Own(history, out[i].key)|
    ensures var isServer := (n: port) =>
              1 <= n <= 1024 || n == 1194 || n == 1433 || n == 3306 || n == 3478 || n == 5222 || n == 5432 || n == 5900
              || n == 6379 || n == 6443 || n == 8080 || n == 8443 || n == 9092 || n == 9200 || n == 27017 || n == 51820;
            var own := Own(history, out[i].key);
            var p := own[k];
            && (isServer(p.dstPort) && !isServer(p.srcPort) ==>
                  out[i].key == FlowKey(p.srcIP, p.dstIP, p.srcPort, p.dstPort, p.protocol)
                  && out[i].bytesDown == Sum(own, SizeFrom(p.dstIP, p.dstPort))
                  && out[i].bytesUp == Sum(own, SizeFrom(p.srcIP, p.srcPort)))
            && (isServer(p.srcPort) && !isServer(p.dstPort) ==>
                  out[i].key == FlowKey(p.dstIP, p.srcIP, p.dstPort, p.srcPort, p.protocol)
                  && out[i].bytesDown == Sum(own, SizeFrom(p.srcIP, p.srcPort))
                  && out[i].bytesUp == Sum(own, SizeFrom(p.dstIP, p.dstPort)))
  {
    hide Replay, Own, StateAfter, Sum, KeyFor, SizeFrom;
    EntryIsOwnState(history, out, now, i);
    EntryCounts(history, out, now, i);
    ServerIsDestination(Own(history, out[i].key)[k]);
  }

  /** The rate, once `now` is not before any packet of the flow: the bytes of the last second. */
  lemma EntryRate(history: seq<Packet>, out: seq<Flow>, now: int, i: nat)
    requires IsSnapshot(out, Replay(history), now) && i < |out|
    requires var own := Own(history, out[i].key); forall k :: 0 <= k < |own| ==> own[k].timestamp <= now
    ensures out[i].rateBytesPerSecond == Sum(Own(history, out[i].key), SizeWithin(now))
  {
    hide Replay, Own, StateAfter, WindowSum, Rated, Sum;
    EntryIsOwnState(history, out, now, i);
    WindowIsLastSecond(Own(history, out[i].key), now);
    PruningLosesNothing(out[i].key, Own(history, out[i].key), now);
  }

  /** The initial round-trip time: known exactly when the first SYN was answered, and then by whom. */
  lemma EntryRtt(history: seq<Packet>, out: seq<Flow>, now: int, i: nat)
    requires IsSnapshot(out, Replay(history), now) && i < |out|
    ensures var key, own := out[i].key, Own(history, out[i].key);
            && (out[i].initialRtt != 0
                <==> exists syn: nat, answer: nat :: IsFirstSyn(key, own, syn) && Answers(key, own, syn, answer))
            && (forall syn: nat, answer: nat :: IsFirstSyn(key, own, syn) && IsFirstAnswer(key, own, syn, answer) ==>
                  out[i].initialRtt == own[answer].timestamp - own[syn].timestamp > 0)
  {
    hide Replay, Own, StateAfter, WindowSum, IsFirstSyn, Answers;
    EntryIsOwnState(history, out, now, i);
    RttIsFirstAnswer(out[i].key, Own(history, out[i].key));
  }

  /** Delivery counts per direction are those of tracking on unbounded stream positions. */
  lemma EntryDelivery(history: seq<Packet>, out: seq<Flow>, now: int, i: nat, positions: seq<int>, down: bool)
    requires IsSnapshot(out, Replay(history), now) && i < |out|
    requires |positions| == |Own(history, out[i].key)| && AllNear(out[i].key, Own(history, out[i].key), positions, down)
    ensures var track := TrackOf(out[i].key, Own(history, out[i].key), positions, down);
            && (if down then out[i].retransmissionsDown else out[i].retransmissionsUp) == track.retransmissions
            && (if down then out[i].outOfOrderDown else out[i].outOfOrderUp) == track.outOfOrder
  {
    hide Replay, Own, StateAfter, WindowSum, AllNear, TrackOf;
    EntryIsOwnState(history, out, now, i);
    SequencesRefine(out[i].key, Own(history, out[i].key), positions, down);
  }
}
