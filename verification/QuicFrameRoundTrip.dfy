/**
  A decrypted Initial is accepted exactly when it is the serialization of a
  sequence of PADDING, PING, ACK and CRYPTO frames, and what is collected are
  the CRYPTO fragments of those frames, in order.
*/
module QuicFrameRoundTrip {
  import opened Bytes
  import opened QuicFrames

  // ----- writing variable-length integers

  /** The largest integer that fits, plus one (section 16 of RFC 9000). */
  function Limit(width: nat): nat {
    if width == 1 then 0x40 else if width == 2 then 0x4000
    else if width == 4 then 0x4000_0000 else if width == 8 then 0x4000_0000_0000_0000 else 0
  }

  /** An integer with the width it is written in, which need not be the shortest. */
  datatype Varying = VInt(value: nat, width: nat)
  type VInt = v: Varying | v.value < Limit(v.width) witness VInt(0, 1)

  /** What is left of `value` above its last `n` base-256 digits. */
  function Top(value: nat, n: nat): nat {
    if n == 0 then value else Top(value / 256, n - 1)
  }

  function Digits(value: nat, n: nat): (d: seq<byte>)
    ensures |d| == n
  {
    if n == 0 then [] else Digits(value / 256, n - 1) + [value % 256]
  }

  /** The two bits that announce a width. */
  function Prefix(width: nat): nat {
    if width == 1 then 0 else if width == 2 then 0x40 else if width == 4 then 0x80 else 0xC0
  }

  /** One more than the largest integer with a top part below 64 and `n` digits. */
  function Cap(n: nat): nat {
    if n == 0 then 64 else 256 * Cap(n - 1)
  }

  lemma {:induction false} TopBelow(value: nat, n: nat)
    ensures Top(value, n) < 64 <==> value < Cap(n)
  {
    if n > 0 {
      TopBelow(value / 256, n - 1);
    }
  }

  lemma TopFits(value: nat, width: nat)
    requires width in {1, 2, 4, 8}
    ensures Top(value, width - 1) < 64 <==> value < Limit(width)
  {
    TopBelow(value, width - 1);
    assert Cap(0) == Limit(1) && Cap(1) == Limit(2) && Cap(3) == Limit(4) && Cap(7) == Limit(8);
  }

  function VarintBytes(v: VInt): (s: seq<byte>)
    ensures |s| == v.width
  {
    TopFits(v.value, v.width);
    [Prefix(v.width) + Top(v.value, v.width - 1)] + Digits(v.value, v.width - 1)
  }

  // ----- integers, written and read

  lemma {:induction false} BigEndianSnoc(s: seq<byte>, high: nat, pos: nat, end: nat)
    requires pos <= end < |s|
    ensures BigEndian(s, high, pos, end + 1) == 256 * BigEndian(s, high, pos, end) + s[end] as int
    decreases end - pos
  {
    if pos < end {
      BigEndianSnoc(s, 256 * high + s[pos] as int, pos + 1, end);
    }
  }

  lemma {:induction false} DigitsAreRead(s: seq<byte>, pos: nat, value: nat, n: nat)
    requires LiesAt(s, pos, Digits(value, n))
    ensures BigEndian(s, Top(value, n), pos, pos + n) == value
    decreases n
  {
    if n > 0 {
      LiesAtSplit(s, pos, Digits(value / 256, n - 1), [value % 256]);
      DigitsAreRead(s, pos, value / 256, n - 1);
      BigEndianSnoc(s, Top(value, n), pos, pos + n - 1);
      assert s[pos + (n - 1)] == [value % 256][0];
    }
  }

  lemma VarintIsRead(s: seq<byte>, pos: nat, v: VInt, end: nat)
    requires LiesAt(s, pos, VarintBytes(v)) && pos + v.width <= end <= |s|
    ensures VarintAt(s, pos, end) == Some(Varint(v.value, pos + v.width))
  {
    hide BigEndian, Digits, Top;
    TopFits(v.value, v.width);
    var first := Prefix(v.width) + Top(v.value, v.width - 1);
    LiesAtSplit(s, pos, [first], Digits(v.value, v.width - 1));
    assert s[pos] == [first][0];
    DigitsAreRead(s, pos + 1, v.value, v.width - 1);
  }

  lemma {:induction false} ReadIsDigits(s: seq<byte>, high: nat, pos: nat, n: nat)
    requires pos + n <= |s|
    ensures var value := BigEndian(s, high, pos, pos + n);
            LiesAt(s, pos, Digits(value, n)) && Top(value, n) == high
    decreases n
  {
    if n > 0 {
      var value := BigEndian(s, high, pos, pos + n);
      BigEndianSnoc(s, high, pos, pos + n - 1);
      assert value / 256 == BigEndian(s, high, pos, pos + n - 1) && value % 256 == s[pos + n - 1];
      ReadIsDigits(s, high, pos, n - 1);
      LiesAtSplit(s, pos, Digits(value / 256, n - 1), [value % 256]);
    }
  }

  /** Whatever is read as an integer was written as one. */
  lemma ReadIsVarint(s: seq<byte>, pos: nat, end: nat) returns (v: VInt)
    requires pos <= end <= |s| && VarintAt(s, pos, end).Some?
    ensures VarintAt(s, pos, end) == Some(Varint(v.value, pos + v.width))
    ensures LiesAt(s, pos, VarintBytes(v))
  {
    hide BigEndian, Limit, Digits, Top;
    var width := VarintLength(s[pos]);
    var value := BigEndian(s, s[pos] % 64, pos + 1, pos + width);
    ReadIsDigits(s, s[pos] % 64, pos + 1, width - 1);
    TopFits(value, width);
    v := VInt(value, width);
    var first: byte := Prefix(width) + s[pos] % 64;
    assert first == s[pos];
    LiesAtSplit(s, pos, [first], Digits(value, width - 1));
  }

  function VIntsBytes(vs: seq<VInt>): (s: seq<byte>)
    ensures |s| >= |vs|
  {
    if vs == [] then [] else VarintBytes(vs[0]) + VIntsBytes(vs[1..])
  }

  lemma {:induction false} VIntsAreSkipped(s: seq<byte>, pos: nat, vs: seq<VInt>, end: nat)
    requires LiesAt(s, pos, VIntsBytes(vs)) && pos + |VIntsBytes(vs)| <= end <= |s|
    ensures SkipVarints(s, pos, end, |vs|) == Some(pos + |VIntsBytes(vs)|)
    decreases |vs|
  {
    hide VarintAt, VarintBytes;
    if vs != [] {
      LiesAtSplit(s, pos, VarintBytes(vs[0]), VIntsBytes(vs[1..]));
      VarintIsRead(s, pos, vs[0], end);
      VIntsAreSkipped(s, pos + vs[0].width, vs[1..], end);
    }
  }

  lemma {:induction false} SkippedAreVInts(s: seq<byte>, pos: nat, end: nat, count: nat) returns (vs: seq<VInt>)
    requires pos <= end <= |s| && SkipVarints(s, pos, end, count).Some?
    ensures |vs| == count && LiesAt(s, pos, VIntsBytes(vs))
    ensures SkipVarints(s, pos, end, count) == Some(pos + |VIntsBytes(vs)|)
    decreases count
  {
    hide VarintAt, VarintBytes;
    vs := [];
    if count > 0 {
      var v := ReadIsVarint(s, pos, end);
      vs := SkippedAreVInts(s, pos + v.width, end, count - 1);
      LiesAtSplit(s, pos, VarintBytes(v), VIntsBytes(vs));
      vs := [v] + vs;
    }
  }

  // ----- frames

  /**
    The frames a client Initial may carry. An ACK has `largest`, `delay`, `count`
    and `first`, then `ranges`, which alternates gaps and lengths, and, when it
    reports ECN counts, three of them in `ecn`.
  */
  datatype Frame =
    | Padding
    | Ping
    | Ack(largest: VInt, delay: VInt, count: VInt, first: VInt, ranges: seq<VInt>, ecn: seq<VInt>)
    | CryptoFrame(offset: VInt, length: VInt, data: seq<byte>)

  predicate WellFormed(f: Frame) {
    match f
    case Ack(_, _, count, _, ranges, ecn) => |ranges| == 2 * count.value && (|ecn| == 0 || |ecn| == 3)
    case CryptoFrame(offset, length, data) =>
      length.value == |data| <= 0x100_0000 && offset.value <= 0x100_0000
    case _ => true
  }

  function AckBytes(f: Frame): seq<byte>
    requires f.Ack?
  {
    VarintBytes(f.largest) + VarintBytes(f.delay) + VarintBytes(f.count) + VarintBytes(f.first)
    + VIntsBytes(f.ranges) + VIntsBytes(f.ecn)
  }

  function CryptoBytes(f: Frame): seq<byte>
    requires f.CryptoFrame?
  {
    VarintBytes(f.offset) + VarintBytes(f.length) + f.data
  }

  function TypeByte(f: Frame): byte {
    match f
    case Padding => 0
    case Ping => 1
    case Ack(_, _, _, _, _, ecn) => if ecn == [] then 2 else 3
    case CryptoFrame(_, _, _) => 6
  }

  function BodyBytes(f: Frame): seq<byte> {
    if f.Ack? then AckBytes(f) else if f.CryptoFrame? then CryptoBytes(f) else []
  }

  function FrameBytes(f: Frame): seq<byte> {
    [TypeByte(f)] + BodyBytes(f)
  }

  function FramesBytes(fs: seq<Frame>): seq<byte> {
    if fs == [] then [] else FrameBytes(fs[0]) + FramesBytes(fs[1..])
  }

  function Fragments(fs: seq<Frame>): seq<Fragment> {
    if fs == [] then []
    else if fs[0].CryptoFrame? then [Fragment(fs[0].offset.value, fs[0].data)] + Fragments(fs[1..])
    else Fragments(fs[1..])
  }

  predicate AllWellFormed(fs: seq<Frame>) {
    forall i :: 0 <= i < |fs| ==> WellFormed(fs[i])
  }

  // ----- writing, then reading

  lemma AckIsSkipped(s: seq<byte>, pos: nat, f: Frame, end: nat)
    requires f.Ack? && WellFormed(f) && LiesAt(s, pos, AckBytes(f)) && pos + |AckBytes(f)| <= end <= |s|
    ensures SkipAck(s, pos, end, f.ecn != []) == Some(pos + |AckBytes(f)|)
  {
    hide VarintAt, VarintBytes, SkipVarints, VIntsBytes, LiesAt;
    var a := VarintBytes(f.largest);
    var b := a + VarintBytes(f.delay);
    var c := b + VarintBytes(f.count);
    var d := c + VarintBytes(f.first);
    var e := d + VIntsBytes(f.ranges);
    LiesAtSplit(s, pos, e, VIntsBytes(f.ecn));
    LiesAtSplit(s, pos, d, VIntsBytes(f.ranges));
    LiesAtSplit(s, pos, c, VarintBytes(f.first));
    LiesAtSplit(s, pos, b, VarintBytes(f.count));
    LiesAtSplit(s, pos, a, VarintBytes(f.delay));
    VarintIsRead(s, pos, f.largest, end);
    VarintIsRead(s, pos + |a|, f.delay, end);
    VarintIsRead(s, pos + |b|, f.count, end);
    VarintIsRead(s, pos + |c|, f.first, end);
    VIntsAreSkipped(s, pos + |d|, f.ranges, end);
    VIntsAreSkipped(s, pos + |e|, f.ecn, end);
    assert |VIntsBytes(f.ranges)| >= |f.ranges|;
    if f.ecn == [] { assert |VIntsBytes(f.ecn)| == 0 by { NoVInts(); } }
  }

  lemma NoVInts()
    ensures VIntsBytes([]) == []
  {
  }

  lemma CryptoIsRead(s: seq<byte>, pos: nat, f: Frame, end: nat)
    requires f.CryptoFrame? && WellFormed(f) && LiesAt(s, pos, CryptoBytes(f))
    requires pos + |CryptoBytes(f)| <= end <= |s|
    ensures CryptoAt(s, pos, end) == Some(Crypto(Fragment(f.offset.value, f.data), pos + |CryptoBytes(f)|))
  {
    hide VarintAt, VarintBytes;
    var a := VarintBytes(f.offset);
    var b := a + VarintBytes(f.length);
    LiesAtSplit(s, pos, b, f.data);
    LiesAtSplit(s, pos, a, VarintBytes(f.length));
    VarintIsRead(s, pos, f.offset, end);
    VarintIsRead(s, pos + |a|, f.length, end);
    LiesAtSlice(s, pos + |b|, f.data);
  }

  /** One written frame, then whatever the rest gives. */
  lemma FrameIsRead(s: seq<byte>, pos: nat, f: Frame, end: nat)
    requires WellFormed(f) && LiesAt(s, pos, FrameBytes(f)) && pos + |FrameBytes(f)| <= end <= |s|
    ensures var rest := Collect(s, pos + |FrameBytes(f)|, end);
            Collect(s, pos, end)
            == if f.CryptoFrame? && rest.Some? then Some([Fragment(f.offset.value, f.data)] + rest.value) else rest
  {
    hide SkipAck, CryptoAt, AckBytes, CryptoBytes;
    LiesAtSplit(s, pos, [TypeByte(f)], BodyBytes(f));
    assert s[pos] == [TypeByte(f)][0];
    if f.Ack? { AckIsSkipped(s, pos + 1, f, end); }
    if f.CryptoFrame? { CryptoIsRead(s, pos + 1, f, end); }
  }

  lemma {:induction false} FramesAreRead(s: seq<byte>, pos: nat, fs: seq<Frame>)
    requires AllWellFormed(fs) && LiesAt(s, pos, FramesBytes(fs))
    ensures Collect(s, pos, pos + |FramesBytes(fs)|) == Some(Fragments(fs))
    decreases |fs|
  {
    hide FrameBytes, WellFormed, SkipAck, CryptoAt;
    if fs != [] {
      hide Collect;
      var end := pos + |FramesBytes(fs)|;
      LiesAtSplit(s, pos, FrameBytes(fs[0]), FramesBytes(fs[1..]));
      FrameIsRead(s, pos, fs[0], end);
      FramesAreRead(s, pos + |FrameBytes(fs[0])|, fs[1..]);
    }
  }

  // ----- reading, then writing

  lemma SkippedIsAck(s: seq<byte>, pos: nat, end: nat, ecn: bool) returns (f: Frame)
    requires pos <= end <= |s| && SkipAck(s, pos, end, ecn).Some?
    ensures f.Ack? && WellFormed(f) && (f.ecn != [] <==> ecn) && LiesAt(s, pos, AckBytes(f))
    ensures SkipAck(s, pos, end, ecn) == Some(pos + |AckBytes(f)|)
  {
    hide VarintAt, VarintBytes, SkipVarints, VIntsBytes;
    var largest := ReadIsVarint(s, pos, end);
    var at := pos + largest.width;
    var delay := ReadIsVarint(s, at, end);
    var count := ReadIsVarint(s, at + delay.width, end);
    var first := ReadIsVarint(s, at + delay.width + count.width, end);
    var ranges := SkippedAreVInts(s, at + delay.width + count.width + first.width, end, 2 * count.value);
    var next := at + delay.width + count.width + first.width + |VIntsBytes(ranges)|;
    var counts: seq<VInt> := [];
    if ecn { counts := SkippedAreVInts(s, next, end, 3); } else { NoVInts(); }
    f := Ack(largest, delay, count, first, ranges, counts);
    var a := VarintBytes(largest);
    var b := a + VarintBytes(delay);
    var c := b + VarintBytes(count);
    var d := c + VarintBytes(first);
    LiesAtSplit(s, pos, a, VarintBytes(delay));
    LiesAtSplit(s, pos, b, VarintBytes(count));
    LiesAtSplit(s, pos, c, VarintBytes(first));
    LiesAtSplit(s, pos, d, VIntsBytes(ranges));
    LiesAtSplit(s, pos, d + VIntsBytes(ranges), VIntsBytes(counts));
  }

  lemma ReadIsCrypto(s: seq<byte>, pos: nat, end: nat) returns (f: Frame)
    requires pos <= end <= |s| && CryptoAt(s, pos, end).Some?
    ensures f.CryptoFrame? && WellFormed(f) && LiesAt(s, pos, CryptoBytes(f))
    ensures CryptoAt(s, pos, end) == Some(Crypto(Fragment(f.offset.value, f.data), pos + |CryptoBytes(f)|))
  {
    hide VarintAt, VarintBytes;
    var offset := ReadIsVarint(s, pos, end);
    var length := ReadIsVarint(s, pos + offset.width, end);
    var at := pos + offset.width + length.width;
    var data := s[at..at + length.value];
    f := CryptoFrame(offset, length, data);
    LiesAtSplit(s, pos, VarintBytes(offset), VarintBytes(length));
    LiesAtSlice(s, at, data);
    LiesAtSplit(s, pos, VarintBytes(offset) + VarintBytes(length), data);
  }

  lemma ReadIsFrame(s: seq<byte>, pos: nat, end: nat) returns (f: Frame)
    requires pos < end <= |s| && Collect(s, pos, end).Some?
    ensures WellFormed(f) && LiesAt(s, pos, FrameBytes(f)) && pos < pos + |FrameBytes(f)| <= end
    ensures Collect(s, pos + |FrameBytes(f)|, end).Some?
  {
    hide SkipAck, CryptoAt, AckBytes, CryptoBytes, LiesAt;
    if s[pos] == 0 {
      f := Padding;
    } else if s[pos] == 1 {
      f := Ping;
    } else if s[pos] == 6 {
      f := ReadIsCrypto(s, pos + 1, end);
    } else {
      f := SkippedIsAck(s, pos + 1, end, s[pos] == 3);
    }
    assert TypeByte(f) == s[pos];
    FrameLies(s, pos, f);
  }

  lemma FrameLies(s: seq<byte>, pos: nat, f: Frame)
    requires pos < |s| && s[pos] == TypeByte(f)
    requires (f.Ack? || f.CryptoFrame?) ==> LiesAt(s, pos + 1, BodyBytes(f))
    ensures LiesAt(s, pos, FrameBytes(f))
  {
    hide AckBytes, CryptoBytes;
    assert f.Padding? || f.Ping? ==> BodyBytes(f) == [];
    LiesAtSplit(s, pos, [TypeByte(f)], BodyBytes(f));
  }

  lemma {:induction false} ReadIsFrames(s: seq<byte>, pos: nat, end: nat) returns (fs: seq<Frame>)
    requires pos <= end <= |s| && Collect(s, pos, end).Some?
    ensures AllWellFormed(fs) && LiesAt(s, pos, FramesBytes(fs)) && pos + |FramesBytes(fs)| == end
    decreases end - pos
  {
    hide FrameBytes, WellFormed, Collect;
    fs := [];
    if pos < end {
      var f := ReadIsFrame(s, pos, end);
      fs := ReadIsFrames(s, pos + |FrameBytes(f)|, end);
      LiesAtSplit(s, pos, FrameBytes(f), FramesBytes(fs));
      fs := [f] + fs;
    }
  }

  /** The plaintext serializes some frames whose CRYPTO fragments are `out`. */
  ghost predicate Serializes(plaintext: seq<byte>, out: seq<Fragment>) {
    exists fs :: AllWellFormed(fs) && FramesBytes(fs) == plaintext && Fragments(fs) == out
  }

  /** Accepted exactly when it is a serialization, with exactly its fragments. */
  lemma CollectInvertsWriting(plaintext: seq<byte>, out: seq<Fragment>)
    ensures Collect(plaintext, 0, |plaintext|) == Some(out) <==> Serializes(plaintext, out)
  {
    hide Collect, FramesBytes, Fragments, AllWellFormed, LiesAt;
    if Collect(plaintext, 0, |plaintext|) == Some(out) {
      var fs := ReadIsFrames(plaintext, 0, |plaintext|);
      LiesAtSlice(plaintext, 0, FramesBytes(fs));
      FramesAreRead(plaintext, 0, fs);
      assert plaintext[0..|plaintext|] == plaintext;
      assert FramesBytes(fs) == plaintext && Fragments(fs) == out;
    }
    if Serializes(plaintext, out) {
      var fs :| AllWellFormed(fs) && FramesBytes(fs) == plaintext && Fragments(fs) == out;
      LiesAtSlice(plaintext, 0, plaintext);
      assert plaintext[0..|plaintext|] == plaintext;
      FramesAreRead(plaintext, 0, fs);
    }
  }

  // ----- the writers of the test suite

  /** The shortest form the test suite's encoder picks, which stops at four bytes. */
  function Shortest(value: nat): VInt
    requires value < 0x4000_0000
  {
    if value < 0x40 then VInt(value, 1) else if value < 0x4000 then VInt(value, 2) else VInt(value, 4)
  }

  method AppendVarint(out: seq<byte>, value: nat) returns (more: seq<byte>)
    requires value < 0x4000_0000
    ensures more == out + VarintBytes(Shortest(value))
  {
    more := out;
    if value < 0x40 {
      more := more + [value];
    } else if value < 0x4000 {
      more := more + [0x40 + value / 0x100];
      more := more + [value % 0x100];
      TwoBytes(value);
    } else {
      more := more + [0x80 + value / 0x100_0000];
      more := more + [value / 0x1_0000 % 0x100];
      more := more + [value / 0x100 % 0x100];
      more := more + [value % 0x100];
      FourBytes(value);
    }
  }

  lemma TwoBytes(value: nat)
    requires value < 0x4000
    ensures VarintBytes(VInt(value, 2)) == [0x40 + value / 0x100, value % 0x100]
  {
    assert Digits(value, 1) == Digits(value / 256, 0) + [value % 256];
    assert Top(value, 1) == Top(value / 256, 0);
  }

  lemma FourBytes(value: nat)
    requires value < 0x4000_0000
    ensures VarintBytes(VInt(value, 4))
         == [0x80 + value / 0x100_0000, value / 0x1_0000 % 0x100, value / 0x100 % 0x100, value % 0x100]
  {
    var a, b := value / 256, value / 256 / 256;
    assert a / 256 == value / 0x1_0000 && b / 256 == value / 0x100_0000;
    assert Digits(value, 3) == Digits(a, 2) + [value % 256];
    assert Digits(a, 2) == Digits(b, 1) + [a % 256];
    assert Digits(b, 1) == Digits(b / 256, 0) + [b % 256];
    assert Top(value, 3) == Top(a, 2) == Top(b, 1) == Top(b / 256, 0);
  }

  /** The test suite's CRYPTO frame writer. */
  method BuildCryptoFrame(offset: nat, data: seq<byte>) returns (frame: seq<byte>)
    requires offset < 0x4000_0000 && |data| < 0x4000_0000
    ensures frame == FrameBytes(CryptoFrame(Shortest(offset), Shortest(|data|), data))
  {
    frame := [6];
    frame := AppendVarint(frame, offset);
    frame := AppendVarint(frame, |data|);
    frame := frame + data;
    assert frame == [6] + (VarintBytes(Shortest(offset)) + VarintBytes(Shortest(|data|)) + data);
  }
}
