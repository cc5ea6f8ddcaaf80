/** One flow's state depends on that flow's packets alone, and what it amounts to. */
module FlowRuns {
  import opened Bytes
  import opened Packet
  import opened FlowKeys
  import opened FlowAggregator

  /** The packets of a history that belong to one flow. */
  ghost function Own(history: seq<Packet>, key: FlowKey): seq<Packet> {
    if history == [] then []
    else
      var before, p := Own(history[..|history| - 1], key), history[|history| - 1];
      if KeyFor(p) == Some(key) then before + [p] else before
  }

  /** A flow's state after its own packets. */
  ghost function StateAfter(key: FlowKey, own: seq<Packet>): (s: FlowState)
    ensures s.flow.key == key
  {
    if own == [] then Fresh(key) else Advanced(StateAfter(key, own[..|own| - 1]), own[|own| - 1])
  }

  lemma StateSnoc(key: FlowKey, own: seq<Packet>, p: Packet)
    ensures StateAfter(key, own + [p]) == Advanced(StateAfter(key, own), p)
  {
    assert (own + [p])[..|own|] == own;
  }

  /** Flows do not disturb each other. */
  lemma {:induction false} Projection(history: seq<Packet>, key: FlowKey)
    ensures key in Replay(history) <==> Own(history, key) != []
    ensures key in Replay(history) ==> Replay(history)[key] == StateAfter(key, Own(history, key))
  {
    hide Advanced, KeyFor;
    if history != [] {
      var before, p := history[..|history| - 1], history[|history| - 1];
      Projection(before, key);
      if KeyFor(p) == Some(key) {
        StateSnoc(key, Own(before, key), p);
        assert StateAfter(key, []) == Fresh(key);
      }
    }
  }

  /** Every packet of a flow has the flow's key. */
  lemma {:induction false} OwnHasKey(history: seq<Packet>, key: FlowKey)
    ensures forall i :: 0 <= i < |Own(history, key)| ==> KeyFor(Own(history, key)[i]) == Some(key)
  {
    hide KeyFor;
    if history != [] {
      OwnHasKey(history[..|history| - 1], key);
    }
  }

  // ----- counters

  /** The total weight of some packets. */
  ghost function Sum(packets: seq<Packet>, weight: Packet -> nat): nat {
    if packets == [] then 0 else Sum(packets[..|packets| - 1], weight) + weight(packets[|packets| - 1])
  }

  ghost const Size: Packet -> nat := (p: Packet) => p.length
  ghost const One: Packet -> nat := (p: Packet) => 1

  /** The bytes sent from one endpoint. */
  ghost function SizeFrom(ip: Text, port: port): Packet -> nat {
    (p: Packet) => if p.srcIP == ip && p.srcPort == port then p.length else 0
  }

  lemma {:induction false} CountersAreSums(key: FlowKey, own: seq<Packet>)
    ensures var flow := StateAfter(key, own).flow;
            flow.packets == |own| == Sum(own, One)
            && flow.bytesUp + flow.bytesDown == Sum(own, Size)
            && flow.bytesDown == Sum(own, SizeFrom(key.dstIP, key.dstPort))
  {
    hide Timed, Delivered, Pruned;
    if own != [] {
      CountersAreSums(key, own[..|own| - 1]);
    }
  }

  /** When a flow was first and last heard from, and whether anything in it was encrypted. */
  lemma {:induction false} FirstAndLast(key: FlowKey, own: seq<Packet>)
    requires own != []
    ensures var flow := StateAfter(key, own).flow;
            && flow.firstSeen == own[0].timestamp && flow.lastSeen == own[|own| - 1].timestamp
            && (flow.encryptedTunnel <==> exists k :: 0 <= k < |own| && own[k].encryptedTunnel)
  {
    hide Timed, Delivered, Pruned;
    var n := |own| - 1;
    var before := own[..n];
    assert StateAfter(key, []) == Fresh(key);
    if n > 0 {
      FirstAndLast(key, before);
      CountersAreSums(key, before);
      assert forall k :: 0 <= k < n ==> before[k] == own[k];
    }
  }

  /** With distinct endpoints, bytesUp is exactly what the key's source endpoint sent. */
  lemma {:induction false} UpIsFromSource(key: FlowKey, own: seq<Packet>)
    requires forall i :: 0 <= i < |own| ==> KeyFor(own[i]) == Some(key)
    requires key.srcIP != key.dstIP || key.srcPort != key.dstPort
    ensures StateAfter(key, own).flow.bytesUp == Sum(own, SizeFrom(key.srcIP, key.srcPort))
  {
    hide Timed, Delivered, Pruned, KeyFor;
    if own != [] {
      UpIsFromSource(key, own[..|own| - 1]);
      SentByAnEndpoint(own[|own| - 1], key);
    }
  }

  /** With equal endpoints everything counts as downstream. */
  lemma {:induction false} LoopbackIsDown(key: FlowKey, own: seq<Packet>)
    requires forall i :: 0 <= i < |own| ==> KeyFor(own[i]) == Some(key)
    requires key.srcIP == key.dstIP && key.srcPort == key.dstPort
    ensures StateAfter(key, own).flow.bytesUp == 0
  {
    hide Timed, Delivered, Pruned, KeyFor;
    if own != [] {
      LoopbackIsDown(key, own[..|own| - 1]);
      SentByAnEndpoint(own[|own| - 1], key);
    }
  }

  // ----- conservation over the whole table

  ghost function Keyed(history: seq<Packet>): seq<Packet> {
    if history == [] then []
    else
      var before, p := Keyed(history[..|history| - 1]), history[|history| - 1];
      if KeyFor(p).Some? then before + [p] else before
  }

  /** The weight of all packets of some flows. */
  ghost function SumOver(keys: seq<FlowKey>, history: seq<Packet>, weight: Packet -> nat): nat {
    if keys == [] then 0
    else SumOver(keys[..|keys| - 1], history, weight) + Sum(Own(history, keys[|keys| - 1]), weight)
  }

  ghost predicate DistinctKeys(keys: seq<FlowKey>) {
    forall i, j :: 0 <= i < j < |keys| ==> keys[i] != keys[j]
  }

  lemma SumSnoc(packets: seq<Packet>, p: Packet, weight: Packet -> nat)
    ensures Sum(packets + [p], weight) == Sum(packets, weight) + weight(p)
  {
    assert (packets + [p])[..|packets|] == packets;
  }

  /** One more packet adds its weight once if its flow is listed, and not at all otherwise. */
  lemma {:induction false} OneMorePacket(keys: seq<FlowKey>, history: seq<Packet>, weight: Packet -> nat)
    requires history != [] && DistinctKeys(keys)
    ensures var before, p := history[..|history| - 1], history[|history| - 1];
            SumOver(keys, history, weight)
            == SumOver(keys, before, weight)
               + if KeyFor(p).Some? && KeyFor(p).value in keys then weight(p) else 0
    decreases |keys|
  {
    hide KeyFor;
    if keys != [] {
      var before, p := history[..|history| - 1], history[|history| - 1];
      var fewer, key := keys[..|keys| - 1], keys[|keys| - 1];
      OneMorePacket(fewer, history, weight);
      assert keys == fewer + [key] && key !in fewer;
      SumSnoc(Own(before, key), p, weight);
    }
  }

  lemma {:induction false} SumOverAll(keys: seq<FlowKey>, history: seq<Packet>, weight: Packet -> nat)
    requires DistinctKeys(keys)
    requires forall i :: 0 <= i < |history| && KeyFor(history[i]).Some? ==> KeyFor(history[i]).value in keys
    ensures SumOver(keys, history, weight) == Sum(Keyed(history), weight)
    decreases |history|
  {
    hide KeyFor;
    if history == [] {
      NothingOwned(keys, weight);
    } else {
      var before, p := history[..|history| - 1], history[|history| - 1];
      assert forall i :: 0 <= i < |before| ==> before[i] == history[i];
      SumOverAll(keys, before, weight);
      OneMorePacket(keys, history, weight);
      SumSnoc(Keyed(before), p, weight);
    }
  }

  lemma {:induction false} NothingOwned(keys: seq<FlowKey>, weight: Packet -> nat)
    ensures SumOver(keys, [], weight) == 0
    decreases |keys|
  {
    if keys != [] { NothingOwned(keys[..|keys| - 1], weight); }
  }

  /** Totals over a snapshot. */
  ghost function TotalPackets(out: seq<Flow>): nat {
    if out == [] then 0 else TotalPackets(out[..|out| - 1]) + out[|out| - 1].packets
  }

  ghost function TotalBytes(out: seq<Flow>): nat {
    if out == [] then 0
    else TotalBytes(out[..|out| - 1]) + out[|out| - 1].bytesUp + out[|out| - 1].bytesDown
  }

  ghost function KeysOf(out: seq<Flow>): (keys: seq<FlowKey>)
    ensures |keys| == |out|
  {
    seq(|out|, i requires 0 <= i < |out| => out[i].key)
  }

  lemma {:induction false} TotalsAreSums(out: seq<Flow>, history: seq<Packet>, now: int)
    requires forall i :: 0 <= i < |out| ==>
               out[i].key in Replay(history) && out[i] == Rated(Replay(history)[out[i].key], now)
    ensures TotalPackets(out) == SumOver(KeysOf(out), history, One)
    ensures TotalBytes(out) == SumOver(KeysOf(out), history, Size)
    decreases |out|
  {
    hide Replay, StateAfter, Sum, Own;
    if out != [] {
      var fewer, last := out[..|out| - 1], out[|out| - 1];
      TotalsAreSums(fewer, history, now);
      assert KeysOf(out)[..|out| - 1] == KeysOf(fewer);
      Projection(history, last.key);
      CountersAreSums(last.key, Own(history, last.key));
    }
  }

  /** A keyed packet's flow is in the table. */
  lemma {:induction false} KeyedIsTracked(history: seq<Packet>, i: nat)
    requires i < |history| && KeyFor(history[i]).Some?
    ensures KeyFor(history[i]).value in Replay(history)
  {
    hide KeyFor, Advanced;
    if i < |history| - 1 {
      KeyedIsTracked(history[..|history| - 1], i);
    }
  }

  /**
    Conservation: over any history, the flows of a snapshot account for every
    keyed packet and every byte of it, once.
  */
  lemma Conservation(history: seq<Packet>, out: seq<Flow>, now: int)
    requires IsSnapshot(out, Replay(history), now)
    ensures TotalPackets(out) == |Keyed(history)|
    ensures TotalBytes(out) == Sum(Keyed(history), Size)
  {
    hide Replay, Own, Sum, Keyed;
    var keys := KeysOf(out);
    TotalsAreSums(out, history, now);
    forall i | 0 <= i < |history| && KeyFor(history[i]).Some? ensures KeyFor(history[i]).value in keys {
      KeyedIsTracked(history, i);
      var j :| 0 <= j < |out| && out[j].key == KeyFor(history[i]).value;
      assert keys[j] == KeyFor(history[i]).value;
    }
    SumOverAll(keys, history, One);
    SumOverAll(keys, history, Size);
    SumOfOnes(Keyed(history));
  }

  lemma {:induction false} SumOfOnes(packets: seq<Packet>)
    ensures Sum(packets, One) == |packets|
  {
    if packets != [] { SumOfOnes(packets[..|packets| - 1]); }
  }

  // ----- the traffic window

  /** Every packet of the flow as a sample, pruned or not. */
  ghost function Samples(own: seq<Packet>): (s: seq<Sample>)
    ensures |s| == |own|
  {
    seq(|own|, i requires 0 <= i < |own| => Sample(own[i].timestamp, own[i].length))
  }

  /** The popped samples were all older than the window that ends at `now`. */
  lemma {:induction false} PrunedIsSuffix(samples: seq<Sample>, cutoff: int) returns (n: nat)
    ensures n <= |samples| && Pruned(samples, cutoff) == samples[n..]
    ensures forall i :: 0 <= i < n ==> samples[i].timestamp < cutoff
  {
    n := 0;
    if samples != [] && samples[0].timestamp < cutoff {
      n := PrunedIsSuffix(samples[1..], cutoff);
      assert samples[1..][n..] == samples[n + 1..];
      assert forall i :: 0 < i < n + 1 ==> samples[i] == samples[1..][i - 1];
      n := n + 1;
    }
  }

  lemma {:induction false} KeptIsSuffix(key: FlowKey, own: seq<Packet>, now: int) returns (n: nat)
    requires forall i :: 0 <= i < |own| ==> own[i].timestamp <= now
    ensures n <= |own| && StateAfter(key, own).recentTraffic == Samples(own)[n..]
    ensures forall i :: 0 <= i < n ==> own[i].timestamp < now - ONE_SECOND
  {
    hide Timed, Delivered, Counted, Pruned;
    n := 0;
    if own != [] {
      var before, p := own[..|own| - 1], own[|own| - 1];
      n := KeptIsSuffix(key, before, now);
      var pushed := StateAfter(key, before).recentTraffic + [Sample(p.timestamp, p.length)];
      assert Samples(own) == Samples(before) + [Sample(p.timestamp, p.length)];
      assert pushed == Samples(own)[n..];
      var m := PrunedIsSuffix(pushed, p.timestamp - ONE_SECOND);
      assert forall i :: 0 <= i < m ==> pushed[i] == Samples(own)[n + i];
      forall i | n <= i < n + m ensures own[i].timestamp < now - ONE_SECOND {
        assert pushed[i - n].timestamp == own[i].timestamp;
      }
      assert Samples(own)[n..][m..] == Samples(own)[n + m..];
      n := n + m;
    }
  }

  lemma {:induction false} OldDoesNotCount(samples: seq<Sample>, n: nat, now: int)
    requires n <= |samples| && forall i :: 0 <= i < n ==> samples[i].timestamp < now - ONE_SECOND
    ensures WindowSum(samples, now) == WindowSum(samples[n..], now)
    decreases |samples|
  {
    if |samples| == n {
      if n > 0 {
        OldDoesNotCount(samples[..n - 1], n - 1, now);
        assert samples[..n - 1][n - 1..] == [];
      }
    } else {
      var k := |samples| - 1;
      OldDoesNotCount(samples[..k], n, now);
      assert samples[n..][..k - n] == samples[..k][n..];
      assert samples[n..][k - n] == samples[k];
    }
  }

  /**
    Pruning loses nothing: at any time not before a timestamp seen, the rate of a
    flow is the sum over its whole history, whatever the order of timestamps.
  */
  lemma PruningLosesNothing(key: FlowKey, own: seq<Packet>, now: int)
    requires forall i :: 0 <= i < |own| ==> own[i].timestamp <= now
    ensures Rated(StateAfter(key, own), now).rateBytesPerSecond == WindowSum(Samples(own), now)
  {
    hide StateAfter;
    var n := KeptIsSuffix(key, own, now);
    OldDoesNotCount(Samples(own), n, now);
  }

  /** The bytes sent in the second that ends at `now`. */
  ghost function SizeWithin(now: int): Packet -> nat {
    (p: Packet) => if now - 1_000_000 <= p.timestamp <= now then p.length else 0
  }

  lemma {:induction false} WindowIsLastSecond(own: seq<Packet>, now: int)
    ensures WindowSum(Samples(own), now) == Sum(own, SizeWithin(now))
  {
    if own != [] {
      var n := |own| - 1;
      WindowIsLastSecond(own[..n], now);
      assert Samples(own)[..n] == Samples(own[..n]);
    }
  }

  /** Packet `i` is more than a second older than some packet after it. */
  ghost predicate Outlived(own: seq<Packet>, i: nat) {
    exists j :: i < j < |own| && own[i].timestamp < own[j].timestamp - 1_000_000
  }

  lemma OutlivedStays(own: seq<Packet>, p: Packet, i: nat)
    ensures Outlived(own, i) ==> Outlived(own + [p], i)
    ensures i < |own| && own[i].timestamp < p.timestamp - 1_000_000 ==> Outlived(own + [p], i)
  {
    var more := own + [p];
    if Outlived(own, i) {
      var j :| i < j < |own| && own[i].timestamp < own[j].timestamp - 1_000_000;
      assert more[j] == own[j] && more[i] == own[i];
    }
    assert more[|own|] == p;
  }

  /**
    Pruning keeps no more than it needs: the oldest sample kept is from the last
    second before the latest packet, and none was dropped before it was too old.
  */
  lemma {:induction false} WindowIsTight(key: FlowKey, own: seq<Packet>) returns (n: nat)
    requires own != []
    ensures n < |own| && StateAfter(key, own).recentTraffic == Samples(own)[n..]
    ensures own[n].timestamp >= own[|own| - 1].timestamp - 1_000_000
    ensures forall i :: 0 <= i < n ==> Outlived(own, i)
  {
    hide StateAfter, Pruned, Outlived, Samples;
    var before, p := own[..|own| - 1], own[|own| - 1];
    n := 0;
    assert own == before + [p];
    if before == [] { NothingSampled(key); } else { n := WindowIsTight(key, before); }
    RecentSnoc(key, before, p);
    n := OneSample(before, p, n, StateAfter(key, before).recentTraffic);
  }

  lemma NothingSampled(key: FlowKey)
    ensures StateAfter(key, []).recentTraffic == Samples([])[0..]
  {
  }

  lemma RecentSnoc(key: FlowKey, own: seq<Packet>, p: Packet)
    ensures StateAfter(key, own + [p]).recentTraffic
            == Pruned(StateAfter(key, own).recentTraffic + [Sample(p.timestamp, p.length)], p.timestamp - ONE_SECOND)
  {
    hide StateAfter, Timed, Delivered, Counted, Pruned;
    StateSnoc(key, own, p);
  }

  lemma OneSample(before: seq<Packet>, p: Packet, n: nat, recent: seq<Sample>) returns (k: nat)
    requires n <= |before| && recent == Samples(before)[n..]
    requires forall i :: 0 <= i < n ==> Outlived(before, i)
    ensures var own := before + [p];
            && k < |own| && own[k].timestamp >= p.timestamp - 1_000_000
            && Pruned(recent + [Sample(p.timestamp, p.length)], p.timestamp - ONE_SECOND) == Samples(own)[k..]
    ensures forall i :: 0 <= i < k ==> Outlived(before + [p], i)
  {
    hide Pruned, Outlived;
    var own := before + [p];
    var pushed := recent + [Sample(p.timestamp, p.length)];
    assert Samples(own) == Samples(before) + [Sample(p.timestamp, p.length)];
    assert pushed == Samples(own)[n..];
    var m := PrunedToCutoff(pushed, p.timestamp - ONE_SECOND);
    assert forall i :: 0 <= i < |pushed| ==> pushed[i] == Samples(own)[n + i];
    forall i | 0 <= i < n + m ensures Outlived(own, i) {
      if i >= n { assert pushed[i - n].timestamp == own[i].timestamp; }
      OutlivedStays(before, p, i);
    }
    assert Samples(own)[n..][m..] == Samples(own)[n + m..];
    k := n + m;
    assert pushed[m] == Samples(own)[k];
  }

  lemma PrunedToCutoff(samples: seq<Sample>, cutoff: int) returns (n: nat)
    requires samples != [] && samples[|samples| - 1].timestamp >= cutoff
    ensures n < |samples| && Pruned(samples, cutoff) == samples[n..] && samples[n].timestamp >= cutoff
    ensures forall i :: 0 <= i < n ==> samples[i].timestamp < cutoff
  {
    n := PrunedIsSuffix(samples, cutoff);
    FrontIsFresh(samples, cutoff);
  }

  lemma {:induction false} FrontIsFresh(samples: seq<Sample>, cutoff: int)
    ensures var left := Pruned(samples, cutoff); left != [] ==> left[0].timestamp >= cutoff
    decreases |samples|
  {
    if samples != [] && samples[0].timestamp < cutoff { FrontIsFresh(samples[1..], cutoff); }
  }

  // ----- the handshake timer

  predicate IsUpSyn(p: Packet, key: FlowKey) {
    p.protocol == Tcp && p.tcpSyn && !p.tcpAck && !IsDownstream(p, key)
  }

  predicate IsDownSynAck(p: Packet, key: FlowKey) {
    p.protocol == Tcp && p.tcpSyn && p.tcpAck && IsDownstream(p, key)
  }

  /** `i` is the flow's first upstream bare SYN. */
  ghost predicate IsFirstSyn(key: FlowKey, own: seq<Packet>, i: nat) {
    i < |own| && IsUpSyn(own[i], key) && forall k :: 0 <= k < i ==> !IsUpSyn(own[k], key)
  }

  /** `j` is a downstream SYN-ACK after `i` with a strictly later timestamp. */
  ghost predicate Answers(key: FlowKey, own: seq<Packet>, i: nat, j: nat) {
    i < j < |own| && IsDownSynAck(own[j], key) && own[j].timestamp > own[i].timestamp
  }

  ghost predicate IsFirstAnswer(key: FlowKey, own: seq<Packet>, i: nat, j: nat) {
    Answers(key, own, i, j) && forall k: nat :: i < k < j ==> !Answers(key, own, i, k)
  }

  /** What the timer holds after some packets: the first SYN is `i`, its first answer `j`. */
  ghost predicate TimerHolds(key: FlowKey, own: seq<Packet>, h: Handshake, i: nat, j: nat) {
    && (!h.synSeen ==> h.rtt == 0 && forall k :: 0 <= k < |own| ==> !IsUpSyn(own[k], key))
    && (h.synSeen ==> IsFirstSyn(key, own, i) && h.synTimestamp == own[i].timestamp)
    && (h.synSeen && h.rtt == 0 ==> forall k: nat :: !Answers(key, own, i, k))
    && (h.rtt != 0 ==> h.synSeen && IsFirstAnswer(key, own, i, j) && h.rtt == own[j].timestamp - own[i].timestamp)
  }

  lemma TimerStep(key: FlowKey, own: seq<Packet>, p: Packet, h: Handshake, i: nat, j: nat) returns (syn: nat, answer: nat)
    requires TimerHolds(key, own, h, i, j)
    ensures TimerHolds(key, own + [p], Timed(h, p, IsDownstream(p, key)), syn, answer)
  {
    var n, more := |own|, own + [p];
    syn, answer := i, j;
    if !h.synSeen {
      if IsUpSyn(p, key) { syn := n; }
    } else {
      assert IsFirstSyn(key, more, i);
      forall k: nat | k < n ensures Answers(key, more, i, k) <==> Answers(key, own, i, k) {
        assert more[k] == own[k];
      }
      if h.rtt == 0 && Answers(key, more, i, n) { answer := n; }
    }
  }

  ghost function TimerOf(s: FlowState): Handshake {
    Handshake(s.flow.initialRtt, s.synTimestamp, s.synSeen)
  }

  lemma {:induction false} TimerAlwaysHolds(key: FlowKey, own: seq<Packet>) returns (i: nat, j: nat)
    ensures TimerHolds(key, own, TimerOf(StateAfter(key, own)), i, j)
  {
    hide Delivered, Pruned, Counted, Timed;
    i, j := 0, 0;
    if own == [] {
      assert TimerHolds(key, own, Handshake(0, 0, false), 0, 0);
    } else {
      hide TimerHolds;
      var before, p := own[..|own| - 1], own[|own| - 1];
      i, j := TimerAlwaysHolds(key, before);
      i, j := TimerStep(key, before, p, TimerOf(StateAfter(key, before)), i, j);
      assert before + [p] == own;
    }
  }

  /**
    The round-trip time is known exactly when the first upstream SYN has been
    answered, and is then the positive delay of its first answer.
  */
  lemma RttIsFirstAnswer(key: FlowKey, own: seq<Packet>)
    ensures StateAfter(key, own).flow.initialRtt != 0
       <==> exists i: nat, j: nat :: IsFirstSyn(key, own, i) && Answers(key, own, i, j)
    ensures forall i: nat, j: nat :: IsFirstSyn(key, own, i) && IsFirstAnswer(key, own, i, j) ==>
              StateAfter(key, own).flow.initialRtt == own[j].timestamp - own[i].timestamp > 0
  {
    hide StateAfter, Answers, IsFirstSyn;
    var i, j := TimerAlwaysHolds(key, own);
    forall a: nat, b: nat | IsFirstSyn(key, own, a) && Answers(key, own, a, b)
      ensures StateAfter(key, own).flow.initialRtt != 0 && a == i
    {
      SeenOnceSyn(key, own, a);
      FirstSynIsUnique(key, own, i, a);
    }
    forall a: nat, b: nat | IsFirstSyn(key, own, a) && IsFirstAnswer(key, own, a, b)
      ensures a == i && b == j && i < j < |own| && own[j].timestamp > own[i].timestamp
    {
      SeenOnceSyn(key, own, a);
      FirstSynIsUnique(key, own, i, a);
      AnswersLater(key, own, i, b);
      AnswersLater(key, own, i, j);
    }
  }

  lemma FirstSynIsUnique(key: FlowKey, own: seq<Packet>, a: nat, b: nat)
    ensures IsFirstSyn(key, own, a) && IsFirstSyn(key, own, b) ==> a == b
  {
  }

  lemma SeenOnceSyn(key: FlowKey, own: seq<Packet>, i: nat)
    requires IsFirstSyn(key, own, i)
    ensures i < |own| && IsUpSyn(own[i], key)
  {
  }

  lemma AnswersLater(key: FlowKey, own: seq<Packet>, i: nat, j: nat)
    requires Answers(key, own, i, j)
    ensures i < j < |own| && own[j].timestamp > own[i].timestamp
  {
  }

  /** Once known, the round-trip time never changes. */
  lemma RttIsFinal(key: FlowKey, own: seq<Packet>, p: Packet)
    requires StateAfter(key, own).flow.initialRtt != 0
    ensures StateAfter(key, own + [p]).flow.initialRtt == StateAfter(key, own).flow.initialRtt
  {
    hide StateAfter, Delivered, Pruned, Counted;
    StateSnoc(key, own, p);
  }
}
