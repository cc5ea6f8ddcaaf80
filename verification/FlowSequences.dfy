/**
  The 32-bit sequence tracking of the flow table refines tracking on unbounded
  stream positions, including across wraparound (section 3 of RFC 1982).
*/
module FlowSequences {
  import opened Bytes
  import opened Packet
  import opened FlowKeys
  import opened FlowAggregator
  import opened FlowRuns

  const HALF: int := 0x8000_0000

  // ----- the tracker on unbounded positions

  /** The highest stream position seen, if any, and how segments compared with it. */
  datatype Track = Track(high: Option<int>, retransmissions: nat, outOfOrder: nat)

  /** A segment starting below the high-water mark is a retransmission, above it out of order. */
  function Judged(t: Track, start: int, length: nat): Track {
    match t.high
    case None => t.(high := Some(start + length))
    case Some(high) =>
      Track(Some(Max(high, start + length)),
            t.retransmissions + (if start < high then 1 else 0),
            t.outOfOrder + (if start > high then 1 else 0))
  }

  predicate Concerns(p: Packet, key: FlowKey, down: bool) {
    p.protocol == Tcp && p.payloadLength > 0 && IsDownstream(p, key) == down
  }

  function Followed(t: Track, p: Packet, position: int, mine: bool): Track {
    var after := if mine then Judged(t, position, p.payloadLength) else t;
    if p.tcpRst then after.(high := None) else after
  }

  ghost function TrackOf(key: FlowKey, own: seq<Packet>, positions: seq<int>, down: bool): Track
    requires |positions| == |own|
    decreases |own|
  {
    if own == [] then Track(None, 0, 0)
    else
      var n := |own| - 1;
      Followed(TrackOf(key, own[..n], positions[..n], down), own[n], positions[n], Concerns(own[n], key, down))
  }

  /** A position fits the packet's sequence number and lies within half the space of the mark. */
  predicate IsNear(t: Track, p: Packet, position: int) {
    && position % TWO_32 == p.tcpSeq
    && p.payloadLength < HALF
    && (t.high.Some? ==> -HALF <= position - t.high.value < HALF)
  }

  ghost predicate AllNear(key: FlowKey, own: seq<Packet>, positions: seq<int>, down: bool)
    requires |positions| == |own|
    decreases |own|
  {
    own != [] ==>
      var n := |own| - 1;
      AllNear(key, own[..n], positions[..n], down)
      && (Concerns(own[n], key, down) ==>
            IsNear(TrackOf(key, own[..n], positions[..n], down), own[n], positions[n]))
  }

  // ----- refinement

  /** The 32-bit state is the unbounded one modulo 2^32, with the same counts. */
  predicate Refines(d: Delivery, t: Track) {
    && d.retransmissions == t.retransmissions && d.outOfOrder == t.outOfOrder
    && (d.sequence.valid <==> t.high.Some?)
    && (t.high.Some? ==> d.sequence.nextExpected == t.high.value % TWO_32)
  }

  /** Within half the space, the 32-bit difference is the true one. */
  lemma DifferenceIsTrue(a: int, b: int)
    requires -HALF <= a - b < HALF
    ensures SignedDifference(a % TWO_32, b % TWO_32) == a - b
  {
  }

  /** At half the space and beyond it is not: what is ahead looks as if it were behind. */
  lemma TooFarAhead(a: int, b: int)
    requires HALF <= a - b < TWO_32
    ensures SignedDifference(a % TWO_32, b % TWO_32) < 0
  {
  }

  lemma SegmentEnd(p: Packet, position: int)
    requires position % TWO_32 == p.tcpSeq && p.payloadLength < HALF
    ensures (p.tcpSeq + p.payloadLength % TWO_32) % TWO_32 == (position + p.payloadLength) % TWO_32
  {
  }

  lemma OneSegment(d: Delivery, t: Track, p: Packet, position: int)
    requires Refines(d, t) && IsNear(t, p, position) && p.payloadLength > 0
    ensures Refines(Sequenced(d, p), Judged(t, position, p.payloadLength))
  {
    hide SignedDifference;
    SegmentEnd(p, position);
    if t.high.Some? {
      var high := t.high.value;
      DifferenceIsTrue(position, high);
      if position < high { DifferenceIsTrue(position + p.payloadLength, high); }
    }
  }

  function DeliveryOf(s: FlowState, down: bool): Delivery {
    if down then DownDelivery(s) else UpDelivery(s)
  }

  /**
    Between resets the expected number is the highest segment end modulo 2^32, and
    every segment after the baseline is classified as the unbounded comparison says.
  */
  lemma {:induction false} SequencesRefine(key: FlowKey, own: seq<Packet>, positions: seq<int>, down: bool)
    requires |positions| == |own| && AllNear(key, own, positions, down)
    ensures Refines(DeliveryOf(StateAfter(key, own), down), TrackOf(key, own, positions, down))
    decreases |own|
  {
    hide Timed, Pruned, Counted, Sequenced, Judged, IsNear;
    if own != [] {
      var n := |own| - 1;
      SequencesRefine(key, own[..n], positions[..n], down);
      if Concerns(own[n], key, down) {
        OneSegment(DeliveryOf(StateAfter(key, own[..n]), down), TrackOf(key, own[..n], positions[..n], down),
                   own[n], positions[n]);
      }
    }
  }

  // ----- what the high-water mark is

  /** Data of this direction with no reset at or after it. */
  ghost predicate Counts(key: FlowKey, own: seq<Packet>, down: bool, i: nat) {
    i < |own| && Concerns(own[i], key, down) && forall k :: i <= k < |own| ==> !own[k].tcpRst
  }

  /** The mark is the highest segment end since the last reset. */
  lemma {:induction false} HighIsMax(key: FlowKey, own: seq<Packet>, positions: seq<int>, down: bool)
    requires |positions| == |own|
    ensures var high := TrackOf(key, own, positions, down).high;
            && (high.None? ==> forall i: nat :: !Counts(key, own, down, i))
            && (high.Some? ==>
                  (forall i: nat :: Counts(key, own, down, i) ==> positions[i] + own[i].payloadLength <= high.value)
                  && exists i: nat :: Counts(key, own, down, i) && positions[i] + own[i].payloadLength == high.value)
    decreases |own|
  {
    hide Concerns;
    if own != [] {
      var n := |own| - 1;
      var before, p, marks := own[..n], own[n], positions[..n];
      var earlier := TrackOf(key, before, marks, down).high;
      var high := TrackOf(key, own, positions, down).high;
      HighIsMax(key, before, marks, down);
      if !p.tcpRst { CountsBefore(key, own, down); }
      if high.Some? {
        if Concerns(p, key, down) && high.value == positions[n] + p.payloadLength {
          assert Counts(key, own, down, n);
        } else {
          var i: nat :| Counts(key, before, down, i) && marks[i] + before[i].payloadLength == earlier.value;
          assert Counts(key, own, down, i);
        }
      }
    }
  }

  lemma CountsBefore(key: FlowKey, own: seq<Packet>, down: bool)
    requires own != [] && !own[|own| - 1].tcpRst
    ensures forall i: nat :: i < |own| - 1 ==>
              (Counts(key, own, down, i) <==> Counts(key, own[..|own| - 1], down, i))
  {
    hide Concerns;
    var before := own[..|own| - 1];
    assert forall k :: 0 <= k < |before| ==> before[k] == own[k];
  }
}
