/**
  Reading a possibly compressed domain name (src/core/DNSParser.cpp, readName),
  against the unguarded expansion of section 4.1.4 of RFC 1035.
*/
module DnsName {
  import opened Bytes

  const DOT: byte := 46

  /** What the byte under the cursor asks for. */
  datatype Move = End | Label(text: Text, next: nat) | Jump(next: nat) | Stuck

  function MoveAt(data: seq<byte>, cursor: nat): (m: Move)
    ensures m.Label? ==> 1 <= |m.text| <= 63 && cursor < m.next <= |data|
    ensures m.Jump? ==> m.next < |data| && cursor + 2 <= |data|
    ensures !m.Stuck? ==> cursor < |data|
  {
    if cursor >= |data| then Stuck
    else
      var b := data[cursor];
      if b == 0 then End
      else if b >= 0xC0 then
        if cursor + 1 >= |data| then Stuck
        else
          var pointer := U16(data, cursor) - 0xC000;
          if pointer >= |data| then Stuck else Jump(pointer)
      else if b >= 0x40 || cursor + 1 + b > |data| then Stuck
      else Label(data[cursor + 1..cursor + 1 + b], cursor + 1 + b)
  }

  /** The labels the unguarded expansion collects in at most `fuel` moves. */
  ghost function Expand(data: seq<byte>, cursor: nat, fuel: nat): Option<seq<Text>>
    decreases fuel
  {
    if fuel == 0 then None
    else match MoveAt(data, cursor)
      case End => Some([])
      case Stuck => None
      case Jump(next) => Expand(data, next, fuel - 1)
      case Label(text, next) =>
        var rest :- Expand(data, next, fuel - 1);
        Some([text] + rest)
  }

  /** Labels as text, separated by dots. */
  function Join(labels: seq<Text>): Text {
    if labels == [] then []
    else if |labels| == 1 then labels[0]
    else labels[0] + [46] + Join(labels[1..])
  }

  /** The unguarded expansion from `start` terminates, and its name is `name`. */
  ghost predicate Denotes(data: seq<byte>, start: nat, name: Text) {
    exists fuel: nat :: Expand(data, start, fuel).Some? && Join(Expand(data, start, fuel).value) == name
  }

  /** The cursor after `steps` moves, if none of them was refused. */
  ghost function CursorAfter(data: seq<byte>, start: nat, steps: nat): Option<nat>
    decreases steps
  {
    if steps == 0 then Some(start)
    else match MoveAt(data, start)
      case Jump(next) => CursorAfter(data, next, steps - 1)
      case Label(_, next) => CursorAfter(data, next, steps - 1)
      case _ => None
  }

  /** The chain of moves from `start` comes back to a cursor it has visited. */
  ghost predicate Cyclic(data: seq<byte>, start: nat) {
    exists i: nat, j: nat ::
      i < j && CursorAfter(data, start, i).Some? && CursorAfter(data, start, i) == CursorAfter(data, start, j)
  }

  /** Just past the name's own bytes: after its zero byte or its first pointer. */
  function WireEnd(data: seq<byte>, cursor: nat): (end: nat)
    ensures cursor <= end && (end == cursor || end <= |data|)
    decreases |data| - cursor
  {
    match MoveAt(data, cursor)
      case End => cursor + 1
      case Jump(_) => cursor + 2
      case Label(_, next) => WireEnd(data, next)
      case Stuck => cursor
  }

  // ----- the moves taken so far

  /** The labels met during the first `steps` moves. */
  ghost function LabelsMet(data: seq<byte>, start: nat, steps: nat): seq<Text>
    requires CursorAfter(data, start, steps).Some?
    decreases steps
  {
    if steps == 0 then []
    else match MoveAt(data, start)
      case Jump(next) => LabelsMet(data, next, steps - 1)
      case Label(text, next) => [text] + LabelsMet(data, next, steps - 1)
  }

  lemma {:induction false} OneMoreMove(data: seq<byte>, start: nat, steps: nat)
    requires CursorAfter(data, start, steps).Some?
    ensures var cursor := CursorAfter(data, start, steps).value;
            match MoveAt(data, cursor)
            case Jump(next) =>
              CursorAfter(data, start, steps + 1) == Some(next)
              && LabelsMet(data, start, steps + 1) == LabelsMet(data, start, steps)
            case Label(text, next) =>
              CursorAfter(data, start, steps + 1) == Some(next)
              && LabelsMet(data, start, steps + 1) == LabelsMet(data, start, steps) + [text]
            case _ => CursorAfter(data, start, steps + 1) == None
    decreases steps
  {
    if steps > 0 {
      OneMoreMove(data, MoveAt(data, start).next, steps - 1);
    }
  }

  lemma {:induction false} ExpandAfter(data: seq<byte>, start: nat, steps: nat, fuel: nat)
    requires CursorAfter(data, start, steps).Some?
    ensures var rest := Expand(data, CursorAfter(data, start, steps).value, fuel);
            Expand(data, start, steps + fuel)
            == if rest.None? then None else Some(LabelsMet(data, start, steps) + rest.value)
    decreases steps
  {
    var rest := Expand(data, CursorAfter(data, start, steps).value, fuel);
    if steps == 0 {
      assert rest.Some? ==> [] + rest.value == rest.value;
    } else {
      var m := MoveAt(data, start);
      ExpandAfter(data, m.next, steps - 1, fuel);
      assert m.Label? && rest.Some? ==>
        [m.text] + (LabelsMet(data, m.next, steps - 1) + rest.value) == LabelsMet(data, start, steps) + rest.value;
    }
  }

  lemma {:induction false} MoreFuel(data: seq<byte>, start: nat, fuel: nat, more: nat)
    requires fuel <= more && Expand(data, start, fuel).Some?
    ensures Expand(data, start, more) == Expand(data, start, fuel)
    decreases fuel
  {
    match MoveAt(data, start)
    case End =>
    case Jump(next) => MoreFuel(data, next, fuel - 1, more - 1);
    case Label(_, next) => MoreFuel(data, next, fuel - 1, more - 1);
  }

  lemma {:induction false} CursorSplit(data: seq<byte>, start: nat, i: nat, j: nat)
    ensures CursorAfter(data, start, i + j)
         == if CursorAfter(data, start, i).None? then None
            else CursorAfter(data, CursorAfter(data, start, i).value, j)
    decreases i
  {
    if i > 0 && (MoveAt(data, start).Jump? || MoveAt(data, start).Label?) {
      CursorSplit(data, MoveAt(data, start).next, i - 1, j);
    }
  }

  // ----- pigeonhole: the guard only meets chains that repeat a cursor

  /** As many moves as the message has bytes cannot all be from distinct cursors. */
  lemma {:induction false} LongChainIsCyclic(data: seq<byte>, start: nat, steps: nat)
    requires steps >= |data| && CursorAfter(data, start, steps + 1).Some?
    ensures Cyclic(data, start)
  {
    forall i: nat | i <= steps
      ensures CursorAfter(data, start, i).Some? && CursorAfter(data, start, i).value < |data|
    {
      CursorSplit(data, start, i, steps + 1 - i);
    }
    var visited := seq(steps + 1, i requires 0 <= i <= steps => CursorAfter(data, start, i).value);
    if !Cyclic(data, start) {
      forall i, j | 0 <= i < j < |visited| ensures visited[i] != visited[j] {
        assert CursorAfter(data, start, i) != CursorAfter(data, start, j);
      }
      Pigeonhole(visited, |data|);
    }
  }

  /** A chain that repeats a cursor goes on for ever. */
  lemma {:induction false} CyclicNeverStops(data: seq<byte>, start: nat, steps: nat)
    requires Cyclic(data, start)
    ensures CursorAfter(data, start, steps).Some?
    decreases steps
  {
    var i: nat, j: nat :| i < j && CursorAfter(data, start, i).Some?
                       && CursorAfter(data, start, i) == CursorAfter(data, start, j);
    if steps <= j {
      CursorSplit(data, start, steps, j - steps);
    } else {
      CyclicNeverStops(data, start, steps - (j - i));
      CursorSplit(data, start, i, steps - j);
      CursorSplit(data, start, j, steps - j);
    }
  }

  lemma CyclicDenotesNothing(data: seq<byte>, start: nat, fuel: nat)
    requires Cyclic(data, start)
    ensures Expand(data, start, fuel).None?
  {
    CyclicNeverStops(data, start, fuel);
    ExpandAfter(data, start, fuel, 0);
  }

  lemma StuckDenotesNothing(data: seq<byte>, start: nat, steps: nat, fuel: nat)
    requires CursorAfter(data, start, steps).Some?
    requires MoveAt(data, CursorAfter(data, start, steps).value).Stuck?
    ensures Expand(data, start, fuel).None?
  {
    if Expand(data, start, fuel).Some? {
      MoreFuel(data, start, fuel, steps + fuel);
      ExpandAfter(data, start, steps, fuel);
    }
  }

  /** Stuck chains stop, so they are not cyclic; neither are the ones that denote a name. */
  lemma StoppedIsNotCyclic(data: seq<byte>, start: nat, steps: nat)
    requires CursorAfter(data, start, steps + 1).None?
    ensures !Cyclic(data, start)
  {
    if Cyclic(data, start) {
      CyclicNeverStops(data, start, steps + 1);
    }
  }

  lemma DenotesIsUnique(data: seq<byte>, start: nat, a: Text, b: Text)
    requires Denotes(data, start, a) && Denotes(data, start, b)
    ensures a == b
  {
    var f: nat :| Expand(data, start, f).Some? && Join(Expand(data, start, f).value) == a;
    var g: nat :| Expand(data, start, g).Some? && Join(Expand(data, start, g).value) == b;
    MoreFuel(data, start, f, f + g);
    MoreFuel(data, start, g, f + g);
  }

  /** Where a name breaks off: outside the message, at a reserved type, in a label cut short, or at a pointer out of it. */
  predicate Breaks(data: seq<byte>, cursor: nat) {
    || cursor >= |data|
    || 64 <= data[cursor] < 192
    || (0 < data[cursor] < 64 && cursor + 1 + data[cursor] > |data|)
    || (data[cursor] >= 192
        && (cursor + 1 == |data| || 256 * (data[cursor] as int - 192) + data[cursor + 1] as int >= |data|))
  }

  lemma StuckIffBreaks(data: seq<byte>, cursor: nat)
    ensures MoveAt(data, cursor).Stuck? <==> Breaks(data, cursor)
  {
  }

  /** There is no name exactly where the chain of moves is cyclic or breaks off. */
  lemma NoNameIff(data: seq<byte>, start: nat)
    ensures (forall name :: !Denotes(data, start, name))
       <==> Cyclic(data, start)
            || exists steps: nat :: CursorAfter(data, start, steps).Some? && Breaks(data, CursorAfter(data, start, steps).value)
  {
    if Cyclic(data, start) {
      forall fuel: nat ensures Expand(data, start, fuel).None? { CyclicDenotesNothing(data, start, fuel); }
    } else if steps: nat :| CursorAfter(data, start, steps).Some? && Breaks(data, CursorAfter(data, start, steps).value) {
      StuckIffBreaks(data, CursorAfter(data, start, steps).value);
      forall fuel: nat ensures Expand(data, start, fuel).None? { StuckDenotesNothing(data, start, steps, fuel); }
    } else {
      var steps := ChainStops(data, start);
      var cursor := CursorAfter(data, start, steps).value;
      OneMoreMove(data, start, steps);
      StuckIffBreaks(data, cursor);
      ExpandAfter(data, start, steps, 1);
      assert Denotes(data, start, Join(LabelsMet(data, start, steps) + []));
    }
  }

  /** A chain that is not cyclic has a last move. */
  lemma ChainStops(data: seq<byte>, start: nat) returns (steps: nat)
    requires !Cyclic(data, start)
    ensures CursorAfter(data, start, steps).Some? && CursorAfter(data, start, steps + 1).None?
  {
    steps := 0;
    if CursorAfter(data, start, |data| + 1).Some? { LongChainIsCyclic(data, start, |data|); }
    while CursorAfter(data, start, steps + 1).Some?
      invariant steps <= |data| && CursorAfter(data, start, steps).Some?
      decreases |data| - steps
    {
      steps := steps + 1;
    }
  }

  // ----- joining label by label, as the reader does

  /** The reader's own way of growing the name. */
  function AppendLabel(name: Text, text: Text): Text {
    (if name == [] then [] else name + [DOT]) + text
  }

  lemma {:induction false} JoinAppend(labels: seq<Text>, text: Text)
    requires forall i :: 0 <= i < |labels| ==> labels[i] != []
    ensures Join(labels + [text]) == AppendLabel(Join(labels), text)
    ensures labels != [] ==> Join(labels) != []
  {
    if |labels| > 1 {
      JoinAppend(labels[1..], text);
      assert (labels + [text])[1..] == labels[1..] + [text];
    } else if |labels| == 1 {
      assert (labels + [text])[1..] == [text];
    }
  }

  lemma {:induction false} LabelsMetNotEmpty(data: seq<byte>, start: nat, steps: nat)
    requires CursorAfter(data, start, steps).Some?
    ensures forall i :: 0 <= i < |LabelsMet(data, start, steps)| ==> LabelsMet(data, start, steps)[i] != []
    decreases steps
  {
    if steps > 0 {
      LabelsMetNotEmpty(data, MoveAt(data, start).next, steps - 1);
    }
  }

  // ----- how long a name can get

  lemma {:induction false} LabelsMetAreShort(data: seq<byte>, start: nat, steps: nat)
    requires CursorAfter(data, start, steps).Some?
    ensures |Join(LabelsMet(data, start, steps))| <= 64 * |LabelsMet(data, start, steps)| <= 64 * steps
    decreases steps
  {
    if steps > 0 {
      LabelsMetAreShort(data, MoveAt(data, start).next, steps - 1);
    }
  }

  /** Where a successful expansion ends. */
  lemma {:induction false} ExpandEnds(data: seq<byte>, start: nat, fuel: nat) returns (steps: nat)
    requires Expand(data, start, fuel).Some?
    ensures CursorAfter(data, start, steps).Some? && MoveAt(data, CursorAfter(data, start, steps).value).End?
    ensures Expand(data, start, fuel).value == LabelsMet(data, start, steps)
    decreases fuel
  {
    var m := MoveAt(data, start);
    if m.End? {
      steps := 0;
    } else {
      steps := ExpandEnds(data, m.next, fuel - 1);
      steps := steps + 1;
    }
  }

  /** A name cannot visit a cursor twice, so the message bounds it: 255 bytes are no limit, this is one. */
  lemma NameIsBounded(data: seq<byte>, start: nat, name: Text)
    requires Denotes(data, start, name)
    ensures |name| <= 64 * |data|
  {
    var fuel: nat :| Expand(data, start, fuel).Some? && Join(Expand(data, start, fuel).value) == name;
    var steps := ExpandEnds(data, start, fuel);
    OneMoreMove(data, start, steps);
    StoppedIsNotCyclic(data, start, steps);
    if steps > |data| { LongChainIsCyclic(data, start, steps - 1); }
    LabelsMetAreShort(data, start, steps);
  }

  // ----- the reader

  /** `steps` moves from `start` lead to `cursor`, and their labels make up `name`. */
  ghost predicate Walked(data: seq<byte>, start: nat, steps: nat, cursor: nat, name: Text) {
    CursorAfter(data, start, steps) == Some(cursor) && name == Join(LabelsMet(data, start, steps))
  }

  lemma WalkStarts(data: seq<byte>, start: nat)
    ensures Walked(data, start, 0, start, [])
  {
  }

  lemma WalkJump(data: seq<byte>, start: nat, steps: nat, cursor: nat, name: Text)
    requires Walked(data, start, steps, cursor, name) && MoveAt(data, cursor).Jump?
    ensures Walked(data, start, steps + 1, MoveAt(data, cursor).next, name)
    ensures WireEnd(data, cursor) == cursor + 2
  {
    OneMoreMove(data, start, steps);
  }

  lemma WalkLabel(data: seq<byte>, start: nat, steps: nat, cursor: nat, name: Text)
    requires Walked(data, start, steps, cursor, name) && MoveAt(data, cursor).Label?
    ensures var m := MoveAt(data, cursor);
            Walked(data, start, steps + 1, m.next, AppendLabel(name, m.text))
            && WireEnd(data, cursor) == WireEnd(data, m.next)
  {
    OneMoreMove(data, start, steps);
    LabelsMetNotEmpty(data, start, steps);
    JoinAppend(LabelsMet(data, start, steps), MoveAt(data, cursor).text);
  }

  lemma WalkEnds(data: seq<byte>, start: nat, steps: nat, cursor: nat, name: Text)
    requires Walked(data, start, steps, cursor, name) && MoveAt(data, cursor).End?
    ensures forall other :: Denotes(data, start, other) <==> other == name
    ensures !Cyclic(data, start) && WireEnd(data, cursor) == cursor + 1
  {
    OneMoreMove(data, start, steps);
    StoppedIsNotCyclic(data, start, steps);
    ExpandAfter(data, start, steps, 1);
    assert LabelsMet(data, start, steps) + [] == LabelsMet(data, start, steps);
    assert Denotes(data, start, name);
    forall other | Denotes(data, start, other) ensures other == name {
      DenotesIsUnique(data, start, name, other);
    }
  }

  lemma WalkStuck(data: seq<byte>, start: nat, steps: nat, cursor: nat, name: Text)
    requires Walked(data, start, steps, cursor, name) && MoveAt(data, cursor).Stuck?
    ensures forall other :: !Denotes(data, start, other)
    ensures !Cyclic(data, start)
  {
    OneMoreMove(data, start, steps);
    StoppedIsNotCyclic(data, start, steps);
    forall fuel: nat ensures Expand(data, start, fuel).None? {
      StuckDenotesNothing(data, start, steps, fuel);
    }
  }

  lemma WalkTooLong(data: seq<byte>, start: nat, steps: nat, cursor: nat, name: Text)
    requires Walked(data, start, steps, cursor, name) && steps >= |data| && MoveAt(data, cursor).Jump?
    ensures forall other :: !Denotes(data, start, other)
    ensures Cyclic(data, start)
  {
    OneMoreMove(data, start, steps);
    LongChainIsCyclic(data, start, steps);
    forall fuel: nat ensures Expand(data, start, fuel).None? {
      CyclicDenotesNothing(data, start, fuel);
    }
  }

  /**
    Reads the name at `start`. `position` is where the next field begins, and
    `guarded` records that the pointer counter was what ended the walk.
  */
  method ReadName(data: seq<byte>, start: nat)
    returns (result: Option<Text>, position: nat, ghost guarded: bool)
    ensures forall name :: result == Some(name) <==> Denotes(data, start, name)
    ensures result.Some? ==> start < position <= |data| && position == WireEnd(data, start)
    ensures result.None? ==> position == start || position == WireEnd(data, start)
    ensures result.Some? ==> |result.value| <= 64 * |data|
    ensures guarded <==> Cyclic(data, start)
  {
    hide Walked, Cyclic, Denotes, WireEnd;
    WalkStarts(data, start);
    var name: Text := [];
    var cursor: nat := start;
    var pointerCount := 0;
    var followedPointer := false;
    position := start;
    ghost var steps := 0;

    while cursor < |data|
      invariant pointerCount <= steps && pointerCount <= |data|
      invariant Walked(data, start, steps, cursor, name)
      invariant !followedPointer ==> position == start <= cursor && WireEnd(data, cursor) == WireEnd(data, start)
      invariant followedPointer ==> position == WireEnd(data, start) && start < position <= |data|
      decreases |data| - pointerCount, |data| - cursor
    {
      var labelLength := data[cursor];
      if labelLength == 0 {
        WalkEnds(data, start, steps, cursor, name);
        NameIsBounded(data, start, name);
        cursor := cursor + 1;
        if !followedPointer { position := cursor; }
        return Some(name), position, false;
      }
      if labelLength >= 0xC0 {
        if cursor + 1 >= |data| { break; }
        pointerCount := pointerCount + 1;
        if pointerCount > |data| { break; }
        var pointer := U16(data, cursor) - 0xC000;
        if pointer >= |data| { break; }
        WalkJump(data, start, steps, cursor, name);
        if !followedPointer { position := cursor + 2; }
        cursor := pointer;
        followedPointer := true;
        steps := steps + 1;
        continue;
      }
      if labelLength >= 0x40 || cursor + 1 + labelLength > |data| { break; }
      WalkLabel(data, start, steps, cursor, name);
      if name != [] { name := name + [DOT]; }
      name := name + data[cursor + 1..cursor + 1 + labelLength];
      cursor := cursor + 1 + labelLength;
      steps := steps + 1;
    }

    guarded := MoveAt(data, cursor).Jump?;
    if guarded {
      WalkTooLong(data, start, steps, cursor, name);
    } else {
      WalkStuck(data, start, steps, cursor, name);
    }
    result := None;
  }
}
