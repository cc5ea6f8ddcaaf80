/**
  Whole runs of the QUIC tracker. Its buffers refine a set of covered offsets:
  if every fragment of one connection is cut from one message, then in any order,
  with any overlap and repetition and any traffic of other connections between,
  the name of the message is returned by the packet that completes the coverage.
*/
module QuicRuns {
  import opened Bytes
  import opened ClientHello
  import opened ClientHelloFacts
  import opened QuicFrames
  import opened QuicTracker

  /** One call of feed. */
  datatype Event = Event(packet: Option<Initial>, now: int)

  ghost function After(connections: Connections, run: seq<Event>): Connections
    decreases |run|
  {
    if run == [] then connections else After(Step(connections, run[0].packet, run[0].now).0, run[1..])
  }

  ghost function Outputs(connections: Connections, run: seq<Event>): (outs: seq<Option<Text>>)
    ensures |outs| == |run|
    decreases |run|
  {
    if run == [] then []
    else
      var next := Step(connections, run[0].packet, run[0].now);
      [next.1] + Outputs(next.0, run[1..])
  }

  /** Every reachable table is sound: at most 1024 connections of at most 64 KiB. */
  lemma {:induction false} RunsStaySound(connections: Connections, run: seq<Event>)
    requires Sound(connections)
    ensures Sound(After(connections, run))
    ensures |After(connections, run)| <= 1024
    ensures forall k :: k in After(connections, run) ==> |After(connections, run)[k].stream| <= 65536
    decreases |run|
  {
    SoundMeans(connections);
    hide Step, Sound;
    if run != [] {
      StepKeepsSound(connections, run[0].packet, run[0].now);
      RunsStaySound(Step(connections, run[0].packet, run[0].now).0, run[1..]);
    }
  }

  lemma SoundMeans(connections: Connections)
    requires Sound(connections)
    ensures |connections| <= 1024 && forall k :: k in connections ==> |connections[k].stream| <= 65536
  {
  }

  predicate IsFor(e: Event, id: ConnectionId) {
    e.packet.Some? && e.packet.value.id == id && e.packet.value.crypto != []
  }

  /** A packet of a connection that is not tracked yet. */
  predicate Starts(connections: Connections, e: Event) {
    e.packet.Some? && e.packet.value.crypto != [] && e.packet.value.id !in connections
  }

  /** There is room for one more connection, or one that has been silent for more than 10 seconds. */
  ghost predicate Admits(connections: Connections, now: int) {
    |connections| < 1024 || exists k :: k in connections && now - connections[k].lastSeen > 10_000_000
  }

  /**
    The connection is admitted whenever it starts; and whenever another one starts
    the table has room, or this one was heard from in the last 10 seconds: at `last`.
  */
  ghost predicate Spared(connections: Connections, run: seq<Event>, id: ConnectionId, last: int)
    decreases |run|
  {
    run != [] ==>
      var e := run[0];
      (Starts(connections, e) ==>
         if IsFor(e, id) then Admits(connections, e.now)
         else id in connections ==> |connections| < 1024 || e.now - last <= 10_000_000)
      && Spared(Step(connections, e.packet, e.now).0, run[1..], id, if IsFor(e, id) then e.now else last)
  }

  /** No packet of the run comes more than 10 seconds after the last one of `id` before it. */
  ghost predicate KeepsUp(run: seq<Event>, id: ConnectionId, last: int)
    decreases |run|
  {
    run != [] ==>
      run[0].now - last <= 10_000_000 && KeepsUp(run[1..], id, if IsFor(run[0], id) then run[0].now else last)
  }

  ghost predicate OpensWithRoom(connections: Connections, run: seq<Event>, id: ConnectionId)
    decreases |run|
  {
    run != [] ==>
      (Starts(connections, run[0]) && IsFor(run[0], id) ==> Admits(connections, run[0].now))
      && OpensWithRoom(Step(connections, run[0].packet, run[0].now).0, run[1..], id)
  }

  /** A connection that keeps up is spared, whatever else fills the table. */
  lemma {:induction false} KeepingUpSpares(connections: Connections, run: seq<Event>, id: ConnectionId, last: int)
    requires KeepsUp(run, id, last) && OpensWithRoom(connections, run, id)
    ensures Spared(connections, run, id, last)
    decreases |run|
  {
    hide Step, Starts, IsFor, Admits;
    if run != [] {
      var e := run[0];
      KeepingUpSpares(Step(connections, e.packet, e.now).0, run[1..], id, if IsFor(e, id) then e.now else last);
    }
  }

  /** A connection that is not admitted leaves the table as it was, and no answer. */
  lemma RefusedIffFull(connections: Connections, e: Event)
    requires Sound(connections) && Starts(connections, e)
    ensures Admits(connections, e.now) <==>
              var room := if |connections| >= MAX_TRACKED_CONNECTIONS then Expired(connections, e.now) else connections;
              |room| < MAX_TRACKED_CONNECTIONS
    ensures !Admits(connections, e.now) ==> Step(connections, e.packet, e.now) == (connections, None)
  {
    hide Store, IsBounded;
    var room := Expired(connections, e.now);
    if k :| k in connections && e.now - connections[k].lastSeen > 10_000_000 {
      MapSize(room, connections - {k});
    } else {
      assert room == connections;
    }
  }

  /** The fragments an event brings for the connection. */
  function Own(e: Event, id: ConnectionId): seq<Fragment> {
    if IsFor(e, id) then e.packet.value.crypto else []
  }

  // ----- the abstract machine: which offsets have been seen

  /** The fragment has a byte for offset `i`. */
  predicate Brings(f: Fragment, i: nat) {
    f.offset <= i < f.offset + |f.data|
  }

  ghost predicate Covered(seen: seq<Fragment>, i: nat) {
    exists k :: 0 <= k < |seen| && Brings(seen[k], i)
  }

  /** Every byte of the ClientHello that the message declares has been seen. */
  ghost predicate CoversHello(message: seq<byte>, seen: seq<Fragment>) {
    && |message| >= 4 && DeclaredLength(message) <= |message|
    && forall i: nat :: i < DeclaredLength(message) ==> Covered(seen, i)
  }

  /** The answer once `seen` has been seen, if it is time for one. */
  ghost function Due(message: seq<byte>, seen: seq<Fragment>): Option<Text> {
    if CoversHello(message, seen) then QuicSni(message) else None
  }

  /** Fragments seen since the connection was last answered, after one more event. */
  ghost function SeenAfter(message: seq<byte>, seen: seq<Fragment>, e: Event, id: ConnectionId): seq<Fragment> {
    if !IsFor(e, id) then seen
    else if Due(message, seen + Own(e, id)).Some? then []
    else seen + Own(e, id)
  }

  /** Every fragment is cut from the message at its offset. */
  ghost predicate CutFrom(message: seq<byte>, fragments: seq<Fragment>) {
    forall k :: 0 <= k < |fragments| ==> LiesAt(message, fragments[k].offset, fragments[k].data)
  }

  ghost predicate RunCutFrom(message: seq<byte>, run: seq<Event>, id: ConnectionId) {
    forall k :: 0 <= k < |run| && IsFor(run[k], id) ==> CutFrom(message, run[k].packet.value.crypto)
  }

  // ----- the buffers agree with the abstract machine

  /** Present bytes are exactly the covered ones, and each equals the message's. */
  ghost predicate Agrees(c: Connection, message: seq<byte>, seen: seq<Fragment>) {
    && |c.stream| == |c.present| <= |message|
    && (forall i :: 0 <= i < |c.present| ==> (c.present[i] <==> Covered(seen, i)))
    && (forall i: nat :: Covered(seen, i) ==> i < |c.present|)
    && forall i :: 0 <= i < |c.present| && c.present[i] ==> c.stream[i] == message[i]
  }

  ghost predicate Tracks(connections: Connections, id: ConnectionId, message: seq<byte>, seen: seq<Fragment>, last: int) {
    if id in connections then Agrees(connections[id], message, seen) && seen != [] && connections[id].lastSeen == last
    else seen == []
  }

  lemma CoveredMore(seen: seq<Fragment>, f: Fragment, i: nat)
    ensures Covered(seen + [f], i) <==> Covered(seen, i) || Brings(f, i)
  {
    var more := seen + [f];
    if Covered(seen, i) {
      var k :| 0 <= k < |seen| && Brings(seen[k], i);
      assert Brings(more[k], i);
    }
    if Brings(f, i) { assert Brings(more[|seen|], i); }
  }

  lemma OneWriteAgrees(c: Connection, message: seq<byte>, seen: seq<Fragment>, f: Fragment)
    requires Agrees(c, message, seen) && LiesAt(message, f.offset, f.data)
    ensures Agrees(c.(stream := Write(c.stream, f), present := Mark(c.present, f)), message, seen + [f])
  {
    var s, p := Write(c.stream, f), Mark(c.present, f);
    forall i: nat ensures Covered(seen + [f], i) <==> Covered(seen, i) || Brings(f, i) {
      CoveredMore(seen, f, i);
    }
    forall i | 0 <= i < |p| && p[i] ensures s[i] == message[i] {
      if Brings(f, i) { assert f.data[i - f.offset] == message[f.offset + (i - f.offset)]; }
    }
  }

  lemma {:induction false} WritesAgree(c: Connection, message: seq<byte>, seen: seq<Fragment>, fragments: seq<Fragment>)
    requires Agrees(c, message, seen) && CutFrom(message, fragments) && |message| <= 65536
    ensures WriteAll(c, fragments).Some?
    ensures Agrees(WriteAll(c, fragments).value, message, seen + fragments)
    decreases |fragments|
  {
    hide Agrees, Write, Mark;
    if fragments == [] {
      assert seen + fragments == seen;
    } else {
      var f := fragments[0];
      var next := c.(stream := Write(c.stream, f), present := Mark(c.present, f));
      OneWriteAgrees(c, message, seen, f);
      WritesAgree(next, message, seen + [f], fragments[1..]);
      assert seen + [f] + fragments[1..] == seen + fragments;
    }
  }

  /** The contiguous prefix spans the declared ClientHello exactly when all of it is covered. */
  lemma PrefixSpans(c: Connection, message: seq<byte>, seen: seq<Fragment>)
    requires Agrees(c, message, seen)
    ensures CoversHello(message, seen)
       <==> |message| >= 4 && DeclaredLength(message) <= Prefix(c.present, 0)
  {
    var usable := Prefix(c.present, 0);
    if |message| >= 4 && DeclaredLength(message) <= usable {
      forall i: nat | i < DeclaredLength(message) ensures Covered(seen, i) { assert c.present[i]; }
    }
    assert !Covered(seen, usable);
  }

  /** What the tracker answers is what is due. */
  lemma AnswerIsDue(c: Connection, message: seq<byte>, seen: seq<Fragment>)
    requires Agrees(c, message, seen)
    ensures Answer(c) == Due(message, seen)
  {
    hide QuicSni;
    var usable := Prefix(c.present, 0);
    PrefixSpans(c, message, seen);
    if |message| >= 4 && usable >= 4 {
      var arrived := c.stream[..usable];
      assert forall i :: 0 <= i < usable ==> arrived[i] == message[i];
      assert DeclaredLength(arrived) == DeclaredLength(message);
      if DeclaredLength(message) <= usable {
        QuicSniIsLocal(message, arrived);
      } else if QuicSni(arrived).Some? {
        QuicSniNeedsAll(arrived);
      }
    }
  }

  /** One packet of the connection. */
  lemma OwnPacket(connections: Connections, e: Event, id: ConnectionId, message: seq<byte>, seen: seq<Fragment>, last: int)
    requires IsFor(e, id) && CutFrom(message, e.packet.value.crypto) && |message| <= 65536
    requires Sound(connections) && Tracks(connections, id, message, seen, last)
    requires id !in connections ==> Admits(connections, e.now)
    ensures var next := Step(connections, e.packet, e.now);
            next.1 == Due(message, seen + Own(e, id))
            && Tracks(next.0, id, message, SeenAfter(message, seen, e, id), e.now)
  {
    hide WriteAll, Answer, Due, CutFrom, Sound, Admits;
    var c := if id in connections then connections[id] else Connection([], [], 0);
    Fresh(c, message, seen, id in connections);
    var crypto := e.packet.value.crypto;
    Touched(c, message, seen, e.now);
    WritesAgree(c.(lastSeen := e.now), message, seen, crypto);
    AnswerIsDue(WriteAll(c.(lastSeen := e.now), crypto).value, message, seen + crypto);
    WriteAllKeepsTime(c.(lastSeen := e.now), crypto);
    if id !in connections { RefusedIffFull(connections, e); }
  }

  lemma {:induction false} WriteAllKeepsTime(c: Connection, fragments: seq<Fragment>)
    ensures WriteAll(c, fragments).Some? ==> WriteAll(c, fragments).value.lastSeen == c.lastSeen
    decreases |fragments|
  {
    hide Write, Mark;
    if fragments != [] {
      WriteAllKeepsTime(c.(stream := Write(c.stream, fragments[0]), present := Mark(c.present, fragments[0])), fragments[1..]);
    }
  }

  lemma Touched(c: Connection, message: seq<byte>, seen: seq<Fragment>, now: int)
    requires Agrees(c, message, seen)
    ensures Agrees(c.(lastSeen := now), message, seen)
  {
  }

  lemma Fresh(c: Connection, message: seq<byte>, seen: seq<Fragment>, tracked: bool)
    requires if tracked then Agrees(c, message, seen) else c == Connection([], [], 0) && seen == []
    ensures Agrees(c, message, seen)
  {
  }

  /**
    Packets of other connections leave this one alone: it is dropped only for a new
    connection at a full table, after more than 10 seconds of silence.
  */
  lemma OtherPacket(connections: Connections, e: Event, id: ConnectionId)
    requires !IsFor(e, id)
    ensures var next := Step(connections, e.packet, e.now).0;
            && (id in next <==> id in connections
                                && !(Starts(connections, e) && |connections| >= 1024
                                     && e.now - connections[id].lastSeen > 10_000_000))
            && (id in next ==> next[id] == connections[id])
  {
    hide WriteAll, Answer;
  }

  ghost function AbstractOutputs(message: seq<byte>, seen: seq<Fragment>, run: seq<Event>, id: ConnectionId)
    : (outs: seq<Option<Text>>)
    ensures |outs| == |run|
    decreases |run|
  {
    if run == [] then []
    else
      [if IsFor(run[0], id) then Due(message, seen + Own(run[0], id)) else None]
      + AbstractOutputs(message, SeenAfter(message, seen, run[0], id), run[1..], id)
  }

  /** The refinement, over every run and from every table that tracks the message. */
  lemma {:induction false} RefinesCoverage(connections: Connections, run: seq<Event>, id: ConnectionId,
                                           message: seq<byte>, seen: seq<Fragment>, last: int)
    requires |message| <= 65536 && RunCutFrom(message, run, id) && Sound(connections)
    requires Tracks(connections, id, message, seen, last) && Spared(connections, run, id, last)
    ensures forall k :: 0 <= k < |run| && IsFor(run[k], id) ==>
              Outputs(connections, run)[k] == AbstractOutputs(message, seen, run, id)[k]
    decreases |run|
  {
    hide Step, Due, Tracks, IsFor, CutFrom, SeenAfter, Sound, Starts, Admits;
    if run != [] {
      var e, rest := run[0], run[1..];
      var next := Step(connections, e.packet, e.now).0;
      var more := SeenAfter(message, seen, e, id);
      StepKeepsSound(connections, e.packet, e.now);
      if IsFor(e, id) {
        OwnStarts(connections, e, id);
        OwnPacket(connections, e, id, message, seen, last);
      } else {
        StillTracks(connections, e, id, message, seen, last);
        NothingSeen(message, seen, e, id);
      }
      assert RunCutFrom(message, rest, id);
      RefinesCoverage(next, rest, id, message, more, if IsFor(e, id) then e.now else last);
    }
  }

  lemma OwnStarts(connections: Connections, e: Event, id: ConnectionId)
    requires IsFor(e, id)
    ensures id !in connections <==> Starts(connections, e)
  {
  }

  lemma StillTracks(connections: Connections, e: Event, id: ConnectionId, message: seq<byte>, seen: seq<Fragment>, last: int)
    requires !IsFor(e, id) && Tracks(connections, id, message, seen, last)
    requires Starts(connections, e) && id in connections ==> |connections| < 1024 || e.now - last <= 10_000_000
    ensures Tracks(Step(connections, e.packet, e.now).0, id, message, seen, last)
  {
    hide Agrees, Step, Starts, IsFor;
    OtherPacket(connections, e, id);
  }

  lemma NothingSeen(message: seq<byte>, seen: seq<Fragment>, e: Event, id: ConnectionId)
    requires !IsFor(e, id)
    ensures SeenAfter(message, seen, e, id) == seen
  {
  }

  // ----- what the refinement says about order

  /** All fragments of one connection in a run, in order of arrival. */
  ghost function FragmentsFor(run: seq<Event>, id: ConnectionId): seq<Fragment>
    decreases |run|
  {
    if run == [] then []
    else Own(run[0], id) + FragmentsFor(run[1..], id)
  }

  ghost predicate Within(few: seq<Fragment>, many: seq<Fragment>) {
    forall f :: f in few ==> f in many
  }

  lemma DueGrows(message: seq<byte>, few: seq<Fragment>, many: seq<Fragment>)
    requires Within(few, many) && Due(message, few).Some?
    ensures Due(message, many) == Due(message, few)
  {
    forall i: nat | Covered(few, i) ensures Covered(many, i) {
      var k :| 0 <= k < |few| && Brings(few[k], i);
      assert few[k] in few;
      var j :| 0 <= j < |many| && many[j] == few[k];
      assert Brings(many[j], i);
    }
  }

  lemma FirstEvent(run: seq<Event>, id: ConnectionId, n: nat)
    requires 0 < n <= |run|
    ensures FragmentsFor(run[..n], id) == Own(run[0], id) + FragmentsFor(run[1..][..n - 1], id)
  {
    assert run[..n][1..] == run[1..][..n - 1];
  }

  /** Before the first answer, the abstract machine has seen every fragment so far. */
  lemma {:induction false} FirstAbstract(message: seq<byte>, seen: seq<Fragment>, run: seq<Event>, id: ConnectionId, k: nat)
    requires k < |run| && IsFor(run[k], id)
    requires Due(message, seen + FragmentsFor(run[..k], id)).None?
    ensures AbstractOutputs(message, seen, run, id)[k] == Due(message, seen + FragmentsFor(run[..k + 1], id))
    decreases |run|
  {
    hide Due, IsFor, Within, FragmentsFor, Own, SeenAfter;
    var own, rest := Own(run[0], id), run[1..];
    FirstEvent(run, id, k + 1);
    Regroup(seen, own, FragmentsFor(rest[..k], id), FragmentsFor(run[..k + 1], id));
    if k == 0 {
      NoFragments(rest, id);
      assert seen + own + [] == seen + own;
    } else {
      FirstEvent(run, id, k);
      Regroup(seen, own, FragmentsFor(rest[..k - 1], id), FragmentsFor(run[..k], id));
      WithinSum(seen + own, FragmentsFor(rest[..k - 1], id));
      if Due(message, seen + own).Some? {
        DueGrows(message, seen + own, seen + own + FragmentsFor(rest[..k - 1], id));
        assert false;
      }
      SeenWithoutAnswer(message, seen, run[0], id);
      FirstAbstract(message, seen + own, rest, id, k - 1);
    }
  }

  lemma NoFragments(run: seq<Event>, id: ConnectionId)
    ensures FragmentsFor(run[..0], id) == []
  {
  }

  lemma WithinSum(few: seq<Fragment>, more: seq<Fragment>)
    ensures Within(few, few + more)
  {
  }

  lemma SeenWithoutAnswer(message: seq<byte>, seen: seq<Fragment>, e: Event, id: ConnectionId)
    requires Due(message, seen + Own(e, id)).None?
    ensures SeenAfter(message, seen, e, id) == seen + Own(e, id)
  {
    assert seen + [] == seen;
  }

  /**
    The packet that first completes the coverage of the declared ClientHello is
    the one that returns its name; packets before it return nothing.
  */
  lemma FirstAnswer(connections: Connections, run: seq<Event>, id: ConnectionId, message: seq<byte>, k: nat)
    requires |message| <= 65536 && RunCutFrom(message, run, id)
    requires id !in connections && Sound(connections) && Spared(connections, run, id, 0)
    requires k < |run| && IsFor(run[k], id)
    requires Due(message, FragmentsFor(run[..k], id)).None?
    ensures Outputs(connections, run)[k] == Due(message, FragmentsFor(run[..k + 1], id))
  {
    hide Due, IsFor, RunCutFrom, Sound, Spared;
    RefinesCoverage(connections, run, id, message, [], 0);
    assert forall s: seq<Fragment> :: [] + s == s;
    FirstAbstract(message, [], run, id, k);
  }

  /** Some packet of the connection returns a name. */
  ghost predicate Answered(outs: seq<Option<Text>>, run: seq<Event>, id: ConnectionId)
    requires |outs| == |run|
  {
    exists k :: 0 <= k < |run| && IsFor(run[k], id) && outs[k].Some?
  }

  lemma {:induction false} AbstractAnswered(message: seq<byte>, seen: seq<Fragment>, run: seq<Event>, id: ConnectionId)
    requires Due(message, seen).None?
    ensures Answered(AbstractOutputs(message, seen, run, id), run, id)
       <==> Due(message, seen + FragmentsFor(run, id)).Some?
    decreases |run|
  {
    hide Due, Within, SeenAfter;
    var outs := AbstractOutputs(message, seen, run, id);
    if run == [] {
      assert seen + FragmentsFor(run, id) == seen;
    } else {
      var own, rest := Own(run[0], id), FragmentsFor(run[1..], id);
      Regroup(seen, own, rest, FragmentsFor(run, id));
      if Due(message, seen + own).Some? {
        assert IsFor(run[0], id) by { assert seen + [] == seen; }
        assert outs[0].Some?;
        WithinSum(seen + own, rest);
        DueGrows(message, seen + own, seen + own + rest);
      } else {
        SeenWithoutAnswer(message, seen, run[0], id);
        AbstractAnswered(message, seen + own, run[1..], id);
        assert outs[1..] == AbstractOutputs(message, seen + own, run[1..], id);
        AnsweredLater(outs, run, id);
      }
    }
  }

  lemma AnsweredLater(outs: seq<Option<Text>>, run: seq<Event>, id: ConnectionId)
    requires run != [] && |outs| == |run| && outs[0].None?
    ensures Answered(outs, run, id) <==> Answered(outs[1..], run[1..], id)
  {
    hide IsFor;
    if Answered(outs, run, id) {
      var k :| 0 <= k < |run| && IsFor(run[k], id) && outs[k].Some?;
      assert run[1..][k - 1] == run[k] && outs[1..][k - 1] == outs[k];
    }
    if Answered(outs[1..], run[1..], id) {
      var k :| 0 <= k < |run[1..]| && IsFor(run[1..][k], id) && outs[1..][k].Some?;
      assert run[k + 1] == run[1..][k] && outs[k + 1] == outs[1..][k];
    }
  }

  /** A name is returned at some point exactly when the fragments cover the ClientHello between them. */
  lemma AnsweredWhenCovered(connections: Connections, run: seq<Event>, id: ConnectionId, message: seq<byte>)
    requires |message| <= 65536 && RunCutFrom(message, run, id)
    requires id !in connections && Sound(connections) && Spared(connections, run, id, 0)
    ensures Answered(Outputs(connections, run), run, id) <==> Due(message, FragmentsFor(run, id)).Some?
  {
    hide IsFor, RunCutFrom, Sound, Spared;
    RefinesCoverage(connections, run, id, message, [], 0);
    assert Due(message, []).None? by { NothingCovered(message); }
    AbstractAnswered(message, [], run, id);
    assert [] + FragmentsFor(run, id) == FragmentsFor(run, id);
  }

  lemma NothingCovered(message: seq<byte>)
    ensures Due(message, []).None?
  {
    assert !Covered([], 0);
  }

  lemma DueIsTheName(message: seq<byte>, seen: seq<Fragment>)
    ensures Due(message, seen).Some? ==> Due(message, seen) == QuicSni(message)
  {
    hide QuicSni, CoversHello;
  }

  /** Whatever is returned is the name of the message. */
  lemma {:induction false} AnswersAreTheName(message: seq<byte>, seen: seq<Fragment>, run: seq<Event>, id: ConnectionId, k: nat)
    requires k < |run| && AbstractOutputs(message, seen, run, id)[k].Some?
    ensures AbstractOutputs(message, seen, run, id)[k] == QuicSni(message)
    decreases |run|
  {
    hide Due, SeenAfter, Own, IsFor;
    if k == 0 {
      DueIsTheName(message, seen + Own(run[0], id));
    } else {
      AnswersAreTheName(message, SeenAfter(message, seen, run[0], id), run[1..], id, k - 1);
    }
  }

  /**
    Order, overlap and repetition do not matter: two runs that bring the same
    fragments of one message agree on whether a name is returned, and on the name.
  */
  lemma OrderIndependent(a: Connections, b: Connections, runA: seq<Event>, runB: seq<Event>,
                         id: ConnectionId, message: seq<byte>)
    requires |message| <= 65536
    requires id !in a && Sound(a) && Spared(a, runA, id, 0) && RunCutFrom(message, runA, id)
    requires id !in b && Sound(b) && Spared(b, runB, id, 0) && RunCutFrom(message, runB, id)
    requires Within(FragmentsFor(runA, id), FragmentsFor(runB, id))
    requires Within(FragmentsFor(runB, id), FragmentsFor(runA, id))
    ensures Answered(Outputs(a, runA), runA, id) <==> Answered(Outputs(b, runB), runB, id)
    ensures forall k :: 0 <= k < |runA| && IsFor(runA[k], id) && Outputs(a, runA)[k].Some? ==>
              Outputs(a, runA)[k] == QuicSni(message)
  {
    hide Due, IsFor, RunCutFrom, Sound, Spared, Within, QuicSni, Answered;
    AnsweredWhenCovered(a, runA, id, message);
    AnsweredWhenCovered(b, runB, id, message);
    if Due(message, FragmentsFor(runA, id)).Some? {
      DueGrows(message, FragmentsFor(runA, id), FragmentsFor(runB, id));
    }
    if Due(message, FragmentsFor(runB, id)).Some? {
      DueGrows(message, FragmentsFor(runB, id), FragmentsFor(runA, id));
    }
    RefinesCoverage(a, runA, id, message, [], 0);
    forall k | 0 <= k < |runA| && IsFor(runA[k], id) && Outputs(a, runA)[k].Some?
      ensures Outputs(a, runA)[k] == QuicSni(message)
    {
      AnswersAreTheName(message, [], runA, id, k);
    }
  }
}
