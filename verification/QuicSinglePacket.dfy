/**
  The single-packet shortcut and the tracker, on one decrypted Initial: both make
  the same ordered writes into a zero-filled stream, but the tracker also needs
  every byte of the ClientHello to have been written, within its size limit.
*/
module QuicSinglePacket {
  import opened Bytes
  import opened ClientHello
  import opened QuicFrames
  import opened QuicTracker
  import opened QuicRuns

  predicate FitsLimit(fragments: seq<Fragment>) {
    forall k :: 0 <= k < |fragments| ==> End(fragments[k]) <= 65536
  }

  function WriteOne(c: Connection, f: Fragment): Connection {
    c.(stream := Write(c.stream, f), present := Mark(c.present, f))
  }

  lemma {:induction false} WriteAllSnoc(c: Connection, fragments: seq<Fragment>, f: Fragment)
    requires FitsLimit(fragments + [f])
    ensures WriteAll(c, fragments).Some?
    ensures WriteAll(c, fragments + [f]) == Some(WriteOne(WriteAll(c, fragments).value, f))
    decreases |fragments|
  {
    hide Write, Mark;
    var more := fragments + [f];
    assert End(more[0]) <= MAX_STREAM_BYTES;
    if fragments == [] {
      assert more[1..] == [];
    } else {
      assert more[1..] == fragments[1..] + [f];
      assert forall k :: 0 <= k < |more[1..]| ==> more[1..][k] == more[k + 1];
      WriteAllSnoc(WriteOne(c, fragments[0]), fragments[1..], f);
    }
  }

  lemma {:induction false} TooLargeIsRefused(c: Connection, fragments: seq<Fragment>)
    requires !FitsLimit(fragments)
    ensures WriteAll(c, fragments).None?
    decreases |fragments|
  {
    hide Write, Mark;
    if End(fragments[0]) <= MAX_STREAM_BYTES {
      var k :| 0 <= k < |fragments| && End(fragments[k]) > MAX_STREAM_BYTES;
      assert fragments[1..][k - 1] == fragments[k];
      TooLargeIsRefused(WriteOne(c, fragments[0]), fragments[1..]);
    }
  }

  /** A fragment past 64 KiB ends its connection, tracked or not, without an answer. */
  lemma TooLargeEndsConnection(connections: Connections, packet: Initial, now: int)
    requires !FitsLimit(packet.crypto)
    ensures var next := Step(connections, Some(packet), now); next.1 == None && packet.id !in next.0
  {
    hide WriteAll;
    TooLargeIsRefused(if packet.id in connections then connections[packet.id].(lastSeen := now) else Connection([], [], now),
                      packet.crypto);
  }

  /** From nothing, the tracker's writes make exactly the stitched stream. */
  lemma {:induction false} WritesStitch(now: int, fragments: seq<Fragment>)
    requires FitsLimit(fragments)
    ensures WriteAll(Connection([], [], now), fragments).Some?
    ensures Agrees(WriteAll(Connection([], [], now), fragments).value, Stitched(fragments), fragments)
    ensures WriteAll(Connection([], [], now), fragments).value.stream == Stitched(fragments)
    decreases |fragments|
  {
    if fragments != [] {
      var n := |fragments| - 1;
      var fewer, f := fragments[..n], fragments[n];
      assert fragments == fewer + [f];
      assert forall k :: 0 <= k < n ==> fewer[k] == fragments[k];
      WritesStitch(now, fewer);
      WriteAllSnoc(Connection([], [], now), fewer, f);
      StitchOne(WriteAll(Connection([], [], now), fewer).value, fewer, f);
    }
  }

  lemma StitchOne(c: Connection, fewer: seq<Fragment>, f: Fragment)
    requires c.stream == Stitched(fewer) && Agrees(c, Stitched(fewer), fewer)
    ensures WriteOne(c, f).stream == Stitched(fewer + [f])
    ensures Agrees(WriteOne(c, f), Stitched(fewer + [f]), fewer + [f])
  {
    var more := fewer + [f];
    assert more[..|fewer|] == fewer;
    var s := WriteOne(c, f).stream;
    assert |s| == EndOfAll(more);
    forall i | 0 <= i < |s| ensures s[i] == LastWrite(more, i) {
      if i >= |Stitched(fewer)| { UnwrittenIsZero(fewer, i); }
    }
    assert s == Stitched(more);
    forall i: nat ensures Covered(more, i) <==> Covered(fewer, i) || Brings(f, i) {
      CoveredMore(fewer, f, i);
    }
  }

  lemma {:induction false} UnwrittenIsZero(fragments: seq<Fragment>, i: nat)
    requires i >= EndOfAll(fragments)
    ensures LastWrite(fragments, i) == 0
    decreases |fragments|
  {
    if fragments != [] {
      UnwrittenIsZero(fragments[..|fragments| - 1], i);
    }
  }

  /**
    A fresh tracker answers as the shortcut does when the fragments respect the
    limit and cover every byte of the ClientHello they declare; else not at all.
  */
  lemma TrackerVersusShortcut(packet: Initial, now: int)
    ensures Step(map[], Some(packet), now).1
         == if FitsLimit(packet.crypto) && CoversHello(Stitched(packet.crypto), packet.crypto)
            then ExtractSni(Some(packet)) else None
  {
    hide WriteAll, QuicSni, Agrees, Stitched;
    var c := Connection([], [], now);
    if packet.crypto == [] {
      assert |Stitched([])| == 0 by { NothingStitched(); }
    } else if FitsLimit(packet.crypto) {
      WritesStitch(now, packet.crypto);
      AnswerIsDue(WriteAll(c, packet.crypto).value, Stitched(packet.crypto), packet.crypto);
      StitchedLength(packet.crypto);
    } else {
      TooLargeIsRefused(c, packet.crypto);
    }
  }

  lemma NothingStitched()
    ensures |Stitched([])| == 0
  {
  }

  lemma StitchedLength(fragments: seq<Fragment>)
    ensures |Stitched(fragments)| == EndOfAll(fragments)
  {
  }

  /** So the shortcut covers the tracker: it never misses a name the tracker finds. */
  lemma ShortcutCoversTracker(packet: Initial, now: int)
    requires Step(map[], Some(packet), now).1.Some?
    ensures ExtractSni(Some(packet)) == Step(map[], Some(packet), now).1
  {
    TrackerVersusShortcut(packet, now);
  }
}
