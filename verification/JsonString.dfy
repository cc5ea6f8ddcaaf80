/**
  Writing arbitrary bytes as a JSON string (src/core/FlowExporter.cpp,
  appendJsonString), against section 4 of RFC 3629 (which byte sequences are
  UTF-8) and section 7 of RFC 8259 (what a JSON string is and spells).
*/
module JsonString {
  import opened Bytes

  const QUOTE: byte := 0x22
  const BACKSLASH: byte := 0x5C

  // ----- UTF-8, by the table of RFC 3629

  predicate Tail(b: byte) {
    0x80 <= b <= 0xBF
  }

  /** Length of the well-formed character at `i`; 0 when there is none. */
  function Utf8Length(s: seq<byte>, i: nat): (n: nat)
    requires i < |s|
    ensures n <= 4 && i + n <= |s|
  {
    var c, left := s[i], |s| - i;
    if c <= 0x7F then 1
    else if 0xC2 <= c <= 0xDF then
      if left >= 2 && Tail(s[i + 1]) then 2 else 0
    else if 0xE0 <= c <= 0xEF then
      if left >= 3 && Tail(s[i + 1]) && Tail(s[i + 2])
         && (c == 0xE0 ==> s[i + 1] >= 0xA0) && (c == 0xED ==> s[i + 1] <= 0x9F) then 3 else 0
    else if 0xF0 <= c <= 0xF4 then
      if left >= 4 && Tail(s[i + 1]) && Tail(s[i + 2]) && Tail(s[i + 3])
         && (c == 0xF0 ==> s[i + 1] >= 0x90) && (c == 0xF4 ==> s[i + 1] <= 0x8F) then 4 else 0
    else 0
  }

  predicate IsUtf8(s: seq<byte>, i: nat)
    requires i <= |s|
    decreases |s| - i
  {
    i == |s| || (Utf8Length(s, i) > 0 && IsUtf8(s, i + Utf8Length(s, i)))
  }

  // ----- what a JSON string spells

  function HexValue(b: byte): Option<nat> {
    if 0x30 <= b <= 0x39 then Some(b - 0x30)
    else if 0x41 <= b <= 0x46 then Some(b - 0x41 + 10)
    else if 0x61 <= b <= 0x66 then Some(b - 0x61 + 10)
    else None
  }

  function Hex4(t: seq<byte>, i: nat): Option<nat> {
    if i + 4 > |t| then None
    else
      var a :- HexValue(t[i]);
      var b :- HexValue(t[i + 1]);
      var c :- HexValue(t[i + 2]);
      var d :- HexValue(t[i + 3]);
      Some(4096 * a + 256 * b + 16 * c + d)
  }

  /** UTF-8 encoding of a code point. */
  function Encode(code: nat): seq<byte>
    requires code < 0x11_0000
  {
    if code < 0x80 then [code]
    else if code < 0x800 then [0xC0 + code / 64, 0x80 + code % 64]
    else if code < 0x1_0000 then [0xE0 + code / 4096, 0x80 + code / 64 % 64, 0x80 + code % 64]
    else [0xF0 + code / 262144, 0x80 + code / 4096 % 64, 0x80 + code / 64 % 64, 0x80 + code % 64]
  }

  datatype Spelled = Spelled(bytes: seq<byte>, next: nat)

  /** The escape sequence whose backslash is at `i`. */
  function EscapeAt(t: seq<byte>, i: nat): (e: Option<Spelled>)
    requires i < |t|
    ensures e.Some? ==> i < e.value.next
  {
    if i + 1 >= |t| then None
    else
      var c := t[i + 1];
      if c == 0x22 || c == 0x5C || c == 0x2F then Some(Spelled([c], i + 2))
      else if c == 0x62 then Some(Spelled([8], i + 2))
      else if c == 0x66 then Some(Spelled([12], i + 2))
      else if c == 0x6E then Some(Spelled([10], i + 2))
      else if c == 0x72 then Some(Spelled([13], i + 2))
      else if c == 0x74 then Some(Spelled([9], i + 2))
      else if c != 0x75 then None
      else
        var unit :- Hex4(t, i + 2);
        if !(0xD800 <= unit <= 0xDFFF) then
          if unit < 0x11_0000 then Some(Spelled(Encode(unit), i + 6)) else None
        else if unit >= 0xDC00 || i + 8 > |t| || t[i + 6] != 0x5C || t[i + 7] != 0x75 then None
        else
          var low :- Hex4(t, i + 8);
          if !(0xDC00 <= low <= 0xDFFF) then None
          else Some(Spelled(Encode(0x1_0000 + (unit - 0xD800) * 1024 + (low - 0xDC00)), i + 12))
  }

  /**
    The bytes spelled by the string whose content starts at `i` and whose closing
    quote ends the text; none when the text is not well-formed there: a bare
    control character, an unknown escape, a byte that is not UTF-8, no quote.
  */
  function DecodeFrom(t: seq<byte>, i: nat): Option<seq<byte>>
    decreases |t| - i
  {
    if i >= |t| || t[i] < 0x20 then None
    else if t[i] == 0x22 then (if i + 1 == |t| then Some([]) else None)
    else if t[i] == 0x5C then
      var e :- EscapeAt(t, i);
      var rest :- DecodeFrom(t, e.next);
      Some(e.bytes + rest)
    else if Utf8Length(t, i) == 0 then None
    else
      var rest :- DecodeFrom(t, i + Utf8Length(t, i));
      Some(t[i..i + Utf8Length(t, i)] + rest)
  }

  /** The bytes a JSON string text spells. */
  function Decode(t: seq<byte>): Option<seq<byte>> {
    if t == [] || t[0] != 0x22 then None else DecodeFrom(t, 1)
  }

  // ----- what the writer appends

  const REPLACEMENT: seq<byte> := [0xEF, 0xBF, 0xBD]

  function HexDigit(n: nat): byte
    requires n < 16
  {
    if n < 10 then 0x30 + n else 0x61 + n - 10
  }

  /** One ASCII character, escaped where JSON demands it. */
  function Escaped(c: byte): (e: seq<byte>)
    ensures e != []
  {
    if c == QUOTE then [BACKSLASH, QUOTE]
    else if c == BACKSLASH then [BACKSLASH, BACKSLASH]
    else if c == 8 then [BACKSLASH, 0x62]
    else if c == 12 then [BACKSLASH, 0x66]
    else if c == 10 then [BACKSLASH, 0x6E]
    else if c == 13 then [BACKSLASH, 0x72]
    else if c == 9 then [BACKSLASH, 0x74]
    else if c < 0x20 then [BACKSLASH, 0x75, 0x30, 0x30, HexDigit(c / 16), HexDigit(c % 16)]
    else [c]
  }

  /** What is appended for the character, or the stray byte, at `i`. */
  function Piece(value: seq<byte>, i: nat): (p: seq<byte>)
    requires i < |value|
  {
    var n := Utf8Length(value, i);
    if n == 0 then REPLACEMENT else if n == 1 then Escaped(value[i]) else value[i..i + n]
  }

  function Step(value: seq<byte>, i: nat): (n: nat)
    requires i < |value|
    ensures n > 0 && i + n <= |value|
  {
    if Utf8Length(value, i) == 0 then 1 else Utf8Length(value, i)
  }

  function Content(value: seq<byte>, i: nat): seq<byte>
    requires i <= |value|
    decreases |value| - i
  {
    if i == |value| then [] else Piece(value, i) + Content(value, i + Step(value, i))
  }

  function Written(value: seq<byte>): seq<byte> {
    [QUOTE] + Content(value, 0) + [QUOTE]
  }

  // ----- the writer's own UTF-8 test

  /** The code point accumulated from `initial` and the `k` - 1 bytes after `i`. */
  function Accumulated(s: seq<byte>, i: nat, k: nat, initial: nat): nat
    requires 1 <= k && i + k <= |s|
    decreases k
  {
    if k == 1 then initial else 64 * Accumulated(s, i, k - 1, initial) + s[i + k - 1] as int % 64
  }

  /** Length and initial bits announced by a lead byte. */
  function Announced(c: byte): (a: (nat, nat))
    ensures a.0 == 0 || 2 <= a.0 <= 4
  {
    if 0xC0 <= c < 0xE0 then (2, c % 32) else if 0xE0 <= c < 0xF0 then (3, c % 16)
    else if 0xF0 <= c < 0xF8 then (4, c % 8) else (0, 0)
  }

  predicate BadCode(length: nat, code: nat) {
    (length == 2 && code < 0x80) || (length == 3 && code < 0x800) || (length == 4 && code < 0x1_0000)
    || 0xD800 <= code <= 0xDFFF || code > 0x10_FFFF
  }

  /** The `k` - 1 bytes after `i` are continuation bytes. */
  predicate Tails(s: seq<byte>, i: nat, k: nat)
    requires 1 <= k && i + k <= |s|
    decreases k
  {
    k == 1 || (Tails(s, i, k - 1) && Tail(s[i + k - 1]))
  }

  lemma {:induction false} TailsShrink(s: seq<byte>, i: nat, few: nat, many: nat)
    requires 1 <= few <= many && i + many <= |s| && Tails(s, i, many)
    ensures Tails(s, i, few)
    decreases many
  {
    if few < many { TailsShrink(s, i, few, many - 1); }
  }

  lemma TwoByteTable(s: seq<byte>, i: nat)
    requires i + 2 <= |s| && 0xC0 <= s[i] < 0xE0 && Tails(s, i, 2)
    ensures (Utf8Length(s, i) == 2) == !BadCode(2, Accumulated(s, i, 2, s[i] % 32))
  {
    assert Tails(s, i, 1) && Tail(s[i + 1]);
    assert Accumulated(s, i, 2, s[i] % 32) == 64 * (s[i] as int - 0xC0) + (s[i + 1] as int - 0x80);
  }

  lemma ThreeByteTable(s: seq<byte>, i: nat)
    requires i + 3 <= |s| && 0xE0 <= s[i] < 0xF0 && Tails(s, i, 3)
    ensures (Utf8Length(s, i) == 3) == !BadCode(3, Accumulated(s, i, 3, s[i] % 16))
  {
    assert Tails(s, i, 2) && Tail(s[i + 1]) && Tail(s[i + 2]);
    var a2 := Accumulated(s, i, 2, s[i] % 16);
    assert a2 == 64 * (s[i] as int - 0xE0) + (s[i + 1] as int - 0x80);
    assert Accumulated(s, i, 3, s[i] % 16) == 64 * a2 + (s[i + 2] as int - 0x80);
  }

  lemma FourByteTable(s: seq<byte>, i: nat)
    requires i + 4 <= |s| && 0xF0 <= s[i] < 0xF8 && Tails(s, i, 4)
    ensures (Utf8Length(s, i) == 4) == !BadCode(4, Accumulated(s, i, 4, s[i] % 8))
  {
    assert Tails(s, i, 3) && Tails(s, i, 2) && Tail(s[i + 1]) && Tail(s[i + 2]) && Tail(s[i + 3]);
    var a2 := Accumulated(s, i, 2, s[i] % 8);
    var a3 := Accumulated(s, i, 3, s[i] % 8);
    assert a2 == 64 * (s[i] as int - 0xF0) + (s[i + 1] as int - 0x80);
    assert a3 == 64 * a2 + (s[i + 2] as int - 0x80);
    assert Accumulated(s, i, 4, s[i] % 8) == 64 * a3 + (s[i + 3] as int - 0x80);
  }

  lemma TableNeedsTails(s: seq<byte>, i: nat)
    requires i < |s| && s[i] >= 0x80 && Utf8Length(s, i) != 0
    ensures Announced(s[i]).0 == Utf8Length(s, i) && Tails(s, i, Utf8Length(s, i))
  {
    assert Tails(s, i, 1) && Tails(s, i, 2);
    assert Utf8Length(s, i) >= 3 ==> Tails(s, i, 3);
  }

  /** The arithmetic test accepts exactly the rows of the table. */
  lemma ArithmeticIsTable(s: seq<byte>, i: nat)
    requires i < |s| && s[i] >= 0x80
    ensures var (length, initial) := Announced(s[i]);
            Utf8Length(s, i)
            == if length != 0 && i + length <= |s| && Tails(s, i, length)
                  && !BadCode(length, Accumulated(s, i, length, initial)) then length else 0
  {
    hide Utf8Length, Tails, Accumulated, BadCode;
    var length := Announced(s[i]).0;
    if length != 0 && i + length <= |s| && Tails(s, i, length) {
      if length == 2 { TwoByteTable(s, i); } else if length == 3 { ThreeByteTable(s, i); } else { FourByteTable(s, i); }
    }
    if Utf8Length(s, i) != 0 { TableNeedsTails(s, i); }
  }

  /** The test of one non-ASCII character: its length, and whether it is one. */
  method CharacterLength(bytes: seq<byte>, i: nat) returns (valid: bool, length: nat)
    requires i < |bytes| && bytes[i] >= 0x80
    ensures Utf8Length(bytes, i) == if valid then length else 0
    ensures valid ==> length >= 2
  {
    hide Utf8Length;
    ArithmeticIsTable(bytes, i);
    var c := bytes[i];
    var codepoint: nat := 0;
    length := 0;
    if 0xC0 <= c < 0xE0 { length := 2; codepoint := c % 32; }
    else if 0xE0 <= c < 0xF0 { length := 3; codepoint := c % 16; }
    else if 0xF0 <= c < 0xF8 { length := 4; codepoint := c % 8; }
    assert Announced(c) == (length, codepoint);
    ghost var initial := codepoint;

    valid := length != 0 && i + length <= |bytes|;
    if valid {
      hide Announced;
      for k := 1 to length
        invariant codepoint == Accumulated(bytes, i, k, initial) && Tails(bytes, i, k)
      {
        var continuation := bytes[i + k];
        if !(0x80 <= continuation < 0xC0) {
          if Tails(bytes, i, length) { TailsShrink(bytes, i, k + 1, length); }
          return false, length;
        }
        codepoint := 64 * codepoint + continuation as int % 64;
      }
    }
    if valid {
      var overlong := (length == 2 && codepoint < 0x80) || (length == 3 && codepoint < 0x800)
                      || (length == 4 && codepoint < 0x1_0000);
      var surrogate := codepoint >= 0xD800 && codepoint <= 0xDFFF;
      if overlong || surrogate || codepoint > 0x10_FFFF { valid := false; }
    }
  }

  method AppendJsonString(out: seq<byte>, value: seq<byte>) returns (more: seq<byte>)
    ensures more == out + Written(value)
  {
    hide Utf8Length, Escaped, Piece, Step;
    more := out + [QUOTE];
    var i := 0;
    while i < |value|
      invariant i <= |value|
      invariant out + [QUOTE] + Content(value, 0) == more + Content(value, i)
    {
      var c := value[i];
      Regroup(more, Piece(value, i), Content(value, i + Step(value, i)), Content(value, i));
      if c < 0x80 {
        var escaped := EscapeAscii(c);
        AsciiPiece(value, i);
        more := more + escaped;
        i := i + 1;
        continue;
      }
      var valid, length := CharacterLength(value, i);
      OtherPiece(value, i);
      if !valid {
        more := more + [0xEF, 0xBF, 0xBD];
        i := i + 1;
        continue;
      }
      more := more + value[i..i + length];
      i := i + length;
    }
    ghost var content := Content(value, 0);
    assert more + Content(value, i) == more;
    Regroup(out, [QUOTE] + content, [QUOTE], [QUOTE] + content + [QUOTE]);
    Regroup(out, [QUOTE], content, [QUOTE] + content);
    more := more + [QUOTE];
  }

  lemma AsciiPiece(s: seq<byte>, i: nat)
    requires i < |s| && s[i] < 0x80
    ensures Utf8Length(s, i) == 1 && Piece(s, i) == Escaped(s[i]) && Step(s, i) == 1
  {
  }

  lemma OtherPiece(s: seq<byte>, i: nat)
    requires i < |s| && s[i] >= 0x80
    ensures var n := Utf8Length(s, i);
            n != 1 && Step(s, i) == (if n == 0 then 1 else n)
            && Piece(s, i) == if n == 0 then [0xEF, 0xBF, 0xBD] else s[i..i + n]
  {
  }

  /** The switch over ASCII characters. */
  method EscapeAscii(c: byte) returns (out: seq<byte>)
    requires c < 0x80
    ensures out == Escaped(c)
  {
    out := [];
    if c == QUOTE { out := out + [BACKSLASH, QUOTE]; }
    else if c == BACKSLASH { out := out + [BACKSLASH, BACKSLASH]; }
    else if c == 8 { out := out + [BACKSLASH, 0x62]; }
    else if c == 12 { out := out + [BACKSLASH, 0x66]; }
    else if c == 10 { out := out + [BACKSLASH, 0x6E]; }
    else if c == 13 { out := out + [BACKSLASH, 0x72]; }
    else if c == 9 { out := out + [BACKSLASH, 0x74]; }
    else if c < 0x20 {
      out := out + [BACKSLASH, 0x75, 0x30, 0x30];
      out := out + [HexDigit(c / 16)];
      out := out + [HexDigit(c % 16)];
    } else { out := out + [c]; }
  }
}
