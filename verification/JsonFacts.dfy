/**
  The text that the JSON string writer appends, on every byte string: it is UTF-8,
  it is one well-formed JSON string, and it spells the input with each stray byte
  replaced by U+FFFD, which changes nothing exactly when the input is UTF-8.
*/
module JsonFacts {
  import opened Bytes
  import opened JsonString

  /** The character at `i`, or U+FFFD in place of a byte that belongs to none. */
  function Kept(value: seq<byte>, i: nat): seq<byte>
    requires i < |value|
  {
    var n := Utf8Length(value, i);
    if n == 0 then Encode(0xFFFD) else value[i..i + n]
  }

  /** The input with each byte that is not part of a well-formed character replaced. */
  function Sanitized(value: seq<byte>, i: nat): seq<byte>
    requires i <= |value|
    decreases |value| - i
  {
    if i == |value| then []
    else Kept(value, i) + Sanitized(value, i + if Utf8Length(value, i) == 0 then 1 else Utf8Length(value, i))
  }

  // ----- well-formed characters stand alone

  /** A well-formed character is one wherever it is copied to. */
  lemma CharacterMoves(s: seq<byte>, i: nat, t: seq<byte>, p: nat)
    requires i < |s| && Utf8Length(s, i) > 0 && LiesAt(t, p, s[i..i + Utf8Length(s, i)])
    ensures Utf8Length(t, p) == Utf8Length(s, i)
  {
    var n := Utf8Length(s, i);
    var c := s[i..i + n];
    assert c[0] == t[p] && (n >= 2 ==> c[1] == t[p + 1]) && (n >= 3 ==> c[2] == t[p + 2])
           && (n >= 4 ==> c[3] == t[p + 3]);
  }

  lemma ReplacementMoves(t: seq<byte>, p: nat)
    requires LiesAt(t, p, REPLACEMENT)
    ensures Utf8Length(t, p) == 3
  {
    var r := REPLACEMENT;
    assert r[0] == t[p] && r[1] == t[p + 1] && r[2] == t[p + 2];
  }

  lemma KeptMoves(value: seq<byte>, i: nat, t: seq<byte>, p: nat)
    requires i < |value| && LiesAt(t, p, Kept(value, i))
    ensures p < |t| && Utf8Length(t, p) == |Kept(value, i)|
    ensures t[p] == Kept(value, i)[0]
  {
    hide Utf8Length;
    if Utf8Length(value, i) == 0 { ReplacementMoves(t, p); } else { CharacterMoves(value, i, t, p); }
  }

  // ----- one piece, decoded

  /**
    An escaped ASCII character spells itself, is escaped only where JSON demands it,
    and by the two-character escape where there is one, else by lower-case hex digits.
  */
  lemma EscapedSpells(c: byte, t: seq<byte>, p: nat)
    requires c < 0x80 && LiesAt(t, p, Escaped(c))
    ensures var e := Escaped(c);
            && (|e| == 1 <==> 0x20 <= c && c != 0x22 && c != 0x5C)
            && (|e| == 2 <==> c in {8, 9, 10, 12, 13, 0x22, 0x5C})
            && (|e| > 2 ==> |e| == 6 && e[1] == 0x75 && e[4] !in {65, 66, 67, 68, 69, 70} && e[5] !in {65, 66, 67, 68, 69, 70})
            && if |e| == 1 then t[p] == c else t[p] == 0x5C && EscapeAt(t, p) == Some(Spelled([c], p + |e|))
  {
    var e := Escaped(c);
    assert e[0] == t[p];
    if |e| >= 2 { assert e[1] == t[p + 1]; }
    if |e| == 6 {
      assert e[2] == t[p + 2] && e[3] == t[p + 3] && e[4] == t[p + 4] && e[5] == t[p + 5];
      assert HexValue(t[p + 4]) == Some(c / 16) && HexValue(t[p + 5]) == Some(c % 16);
      assert Hex4(t, p + 2) == Some(c);
    }
  }

  /** One written piece decodes to the character kept in its place. */
  lemma PieceDecodes(value: seq<byte>, i: nat, t: seq<byte>, p: nat)
    requires i < |value| && LiesAt(t, p, Piece(value, i))
    ensures var rest := DecodeFrom(t, p + |Piece(value, i)|);
            DecodeFrom(t, p) == if rest.None? then None else Some(Kept(value, i) + rest.value)
  {
    hide Escaped, EscapeAt;
    if value[i] < 0x80 {
      AsciiPiece(value, i);
      var c := value[i];
      EscapedSpells(c, t, p);
      assert Kept(value, i) == [c];
      if |Escaped(c)| == 1 {
        assert t[p..p + 1] == [c];
      }
    } else {
      OtherPiece(value, i);
      KeptMoves(value, i, t, p);
      LiesAtSlice(t, p, Kept(value, i));
      assert t[p] >= 0x80;
    }
  }

  lemma {:induction false} ContentDecodes(value: seq<byte>, i: nat, t: seq<byte>, p: nat)
    requires i <= |value| && LiesAt(t, p, Content(value, i))
    requires p + |Content(value, i)| + 1 == |t| && t[|t| - 1] == QUOTE
    ensures DecodeFrom(t, p) == Some(Sanitized(value, i))
    decreases |value| - i
  {
    hide Piece, Kept, Utf8Length;
    if i < |value| {
      hide DecodeFrom;
      var piece, next := Piece(value, i), i + Step(value, i);
      LiesAtSplit(t, p, piece, Content(value, next));
      PieceDecodes(value, i, t, p);
      ContentDecodes(value, next, t, p + |piece|);
    }
  }

  /** The text is a well-formed JSON string that spells the sanitized input. */
  lemma WrittenDecodes(value: seq<byte>)
    ensures Decode(Written(value)) == Some(Sanitized(value, 0))
  {
    hide DecodeFrom;
    var t := Written(value);
    LiesInMiddle([QUOTE], Content(value, 0), [QUOTE]);
    assert t[0] == QUOTE && t[|t| - 1] == QUOTE;
    ContentDecodes(value, 0, t, 1);
  }

  // ----- the text is UTF-8

  /** The text from `p` on is UTF-8 when what follows a piece is. */
  lemma {:induction false} AsciiRun(t: seq<byte>, p: nat, n: nat)
    requires p + n <= |t| && (forall k :: p <= k < p + n ==> t[k] < 0x80) && IsUtf8(t, p + n)
    ensures IsUtf8(t, p)
    decreases n
  {
    if n > 0 { AsciiRun(t, p + 1, n - 1); }
  }

  lemma PieceIsUtf8(value: seq<byte>, i: nat, t: seq<byte>, p: nat)
    requires i < |value| && LiesAt(t, p, Piece(value, i)) && IsUtf8(t, p + |Piece(value, i)|)
    ensures IsUtf8(t, p)
  {
    var piece := Piece(value, i);
    if value[i] < 0x80 {
      AsciiPiece(value, i);
      assert forall k :: 0 <= k < |piece| ==> piece[k] < 0x80;
      forall k | p <= k < p + |piece| ensures t[k] < 0x80 { assert t[k] == piece[k - p]; }
      AsciiRun(t, p, |piece|);
    } else {
      OtherPiece(value, i);
      KeptMoves(value, i, t, p);
    }
  }

  lemma {:induction false} ContentIsUtf8(value: seq<byte>, i: nat, t: seq<byte>, p: nat)
    requires i <= |value| && LiesAt(t, p, Content(value, i)) && IsUtf8(t, p + |Content(value, i)|)
    ensures IsUtf8(t, p)
    decreases |value| - i
  {
    hide Piece, Utf8Length;
    if i < |value| {
      hide IsUtf8;
      var piece, next := Piece(value, i), i + Step(value, i);
      LiesAtSplit(t, p, piece, Content(value, next));
      ContentIsUtf8(value, next, t, p + |piece|);
      PieceIsUtf8(value, i, t, p);
    }
  }

  lemma WrittenIsUtf8(value: seq<byte>)
    ensures IsUtf8(Written(value), 0)
  {
    var t, end := Written(value), 1 + |Content(value, 0)|;
    LiesInMiddle([QUOTE], Content(value, 0), [QUOTE]);
    assert t[0] == QUOTE && t[end] == QUOTE && |t| == end + 1;
    AsciiRun(t, end, 1);
    ContentIsUtf8(value, 0, t, 1);
    AsciiRun(t, 0, 1);
  }

  // ----- nothing is lost exactly when the input is UTF-8

  lemma {:induction false} SanitizedIsLonger(value: seq<byte>, i: nat)
    requires i <= |value|
    ensures |Sanitized(value, i)| >= |value| - i
    ensures |Sanitized(value, i)| == |value| - i <==> IsUtf8(value, i)
    decreases |value| - i
  {
    hide Utf8Length;
    if i < |value| {
      SanitizedIsLonger(value, i + Step(value, i));
    }
  }

  lemma {:induction false} ValidIsKept(value: seq<byte>, i: nat)
    requires i <= |value| && IsUtf8(value, i)
    ensures LiesAt(value, i, Sanitized(value, i)) && i + |Sanitized(value, i)| == |value|
    decreases |value| - i
  {
    hide Utf8Length, LiesAt;
    if i < |value| {
      var n := Utf8Length(value, i);
      ValidIsKept(value, i + n);
      LiesAtSlice(value, i, Kept(value, i));
      LiesAtSplit(value, i, Kept(value, i), Sanitized(value, i + n));
    } else {
      LiesAtSlice(value, i, []);
    }
  }

  /** Round trip: the input comes back exactly when it is UTF-8. */
  lemma RoundTripIffUtf8(value: seq<byte>)
    ensures Decode(Written(value)) == Some(value) <==> IsUtf8(value, 0)
  {
    hide Decode, Written;
    WrittenDecodes(value);
    SanitizedIsLonger(value, 0);
    if IsUtf8(value, 0) {
      ValidIsKept(value, 0);
      LiesAtSlice(value, 0, Sanitized(value, 0));
      assert value[0..|value|] == value;
    }
  }

  /** The sanitized text is itself UTF-8. */
  lemma {:induction false} SanitizedIsUtf8(value: seq<byte>, i: nat, t: seq<byte>, p: nat)
    requires i <= |value| && LiesAt(t, p, Sanitized(value, i)) && p + |Sanitized(value, i)| == |t|
    ensures IsUtf8(t, p)
    decreases |value| - i
  {
    hide Kept, Utf8Length;
    if i < |value| {
      var kept, next := Kept(value, i), i + Step(value, i);
      LiesAtSplit(t, p, kept, Sanitized(value, next));
      KeptMoves(value, i, t, p);
      SanitizedIsUtf8(value, next, t, p + |kept|);
    }
  }
}
