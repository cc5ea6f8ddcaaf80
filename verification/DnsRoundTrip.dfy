/**
  Writing domain names (tests/PacketBuilders.hpp, appendDnsName) and reading them
  back, whole or with any suffix replaced by a compression pointer.
*/
module DnsRoundTrip {
  import opened Bytes
  import opened DnsName

  /** Labels a wire name can carry and text can spell: 1 to 63 bytes, none a dot. */
  type LabelText = text: Text | 1 <= |text| <= 63 && 46 !in text witness [97]

  /** Length-prefixed labels, without the terminating zero byte. */
  ghost function LabelBytes(labels: seq<LabelText>): seq<byte>
  {
    if labels == [] then [] else [|labels[0]|] + labels[0] + LabelBytes(labels[1..])
  }

  // ----- the writer

  function FindDot(name: Text, from: nat): (at: nat)
    requires from <= |name|
    ensures from <= at <= |name|
    decreases |name| - from
  {
    if from == |name| || name[from] == DOT then from else FindDot(name, from + 1)
  }

  /** What the writer emits for the text from `from` on, well formed or not, before the zero byte. */
  ghost function WireForm(name: Text, from: nat): seq<byte>
    decreases |name| - from
  {
    if from >= |name| then []
    else
      var dot := FindDot(name, from);
      [(dot - from) % 256] + name[from..dot] + WireForm(name, dot + 1)
  }

  lemma RegroupAll(a: seq<byte>, b: seq<byte>, c: seq<byte>, d: seq<byte>, bcd: seq<byte>)
    requires bcd == b + c + d
    ensures a + bcd == a + b + c + d
  {
  }

  /** One turn of the writer's loop. */
  lemma WriterTurn(out: seq<byte>, name: Text, from: nat, dot: nat, length: byte)
    requires from < |name| && dot == FindDot(name, from) && length == (dot - from) % 256
    ensures out + WireForm(name, from) == out + [length] + name[from..dot] + WireForm(name, dot + 1)
  {
    RegroupAll(out, [length], name[from..dot], WireForm(name, dot + 1), WireForm(name, from));
  }

  lemma NothingToWrite(name: Text, from: nat)
    requires from >= |name|
    ensures WireForm(name, from) == []
  {
  }

  method AppendDnsName(bytes: seq<byte>, name: Text) returns (out: seq<byte>)
    ensures out == bytes + WireForm(name, 0) + [0]
  {
    hide WireForm;
    out := bytes;
    var labelStart := 0;
    ghost var pending := WireForm(name, 0);
    while labelStart < |name|
      invariant labelStart <= |name|
      invariant pending == WireForm(name, labelStart)
      invariant bytes + WireForm(name, 0) == out + pending
    {
      var labelEnd := FindDot(name, labelStart);
      var labelLength := labelEnd - labelStart;
      WriterTurn(out, name, labelStart, labelEnd, labelLength % 256);
      out := out + [labelLength % 256];
      out := out + name[labelStart..labelStart + labelLength];
      pending := WireForm(name, labelEnd + 1);
      if labelEnd == |name| {
        NothingToWrite(name, labelEnd + 1);
        break;
      }
      labelStart := labelEnd + 1;
    }
    if labelStart == |name| { NothingToWrite(name, labelStart); }
    assert pending == [];
    out := out + [0];
  }

  lemma {:induction false} FindDotIs(name: Text, from: nat, at: nat)
    requires from <= at <= |name| && (at < |name| ==> name[at] == DOT)
    requires forall i :: from <= i < at ==> name[i] != DOT
    ensures FindDot(name, from) == at
    decreases at - from
  {
    if from < at {
      FindDotIs(name, from + 1, at);
    }
  }

  lemma DotAfterLabel(name: Text, from: nat, first: LabelText)
    requires LiesAt(name, from, first)
    requires from + |first| < |name| ==> name[from + |first|] == DOT
    ensures FindDot(name, from) == from + |first|
  {
    forall i | from <= i < from + |first| ensures name[i] != DOT {
      assert name[i] == first[i - from];
    }
    FindDotIs(name, from, from + |first|);
  }

  lemma SpellFirst(name: Text, from: nat, first: LabelText)
    requires LiesAt(name, from, first)
    requires from + |first| < |name| ==> name[from + |first|] == DOT
    ensures WireForm(name, from) == [|first|] + first + WireForm(name, from + |first| + 1)
  {
    assert FindDot(name, from) == from + |first| by { DotAfterLabel(name, from, first); }
    assert name[from..from + |first|] == first by { LiesAtSlice(name, from, first); }
  }

  lemma DotIsThere(name: Text, at: nat)
    requires LiesAt(name, at, [DOT])
    ensures at < |name| && name[at] == DOT
  {
    assert name[at] == [DOT][0];
  }

  /** On text spelled from labels the writer emits those labels. */
  lemma {:induction false} WriterSpellsLabels(name: Text, from: nat, labels: seq<LabelText>)
    requires LiesAt(name, from, Join(labels)) && from + |Join(labels)| == |name|
    ensures WireForm(name, from) == LabelBytes(labels)
    decreases |labels|
  {
    hide WireForm, FindDot, LiesAt;
    if |labels| == 0 {
      NothingToWrite(name, from);
    } else if |labels| == 1 {
      SpellFirst(name, from, labels[0]);
      NothingToWrite(name, from + |labels[0]| + 1);
    } else {
      var first, others := labels[0], labels[1..];
      LiesAtSplit(name, from, first + [DOT], Join(others));
      LiesAtSplit(name, from, first, [DOT]);
      DotIsThere(name, from + |first|);
      SpellFirst(name, from, first);
      WriterSpellsLabels(name, from + |first| + 1, others);
    }
  }

  // ----- names on the wire, compressed or not

  /** The bytes at `at` spell these labels, whatever pointers they use to do so. */
  ghost predicate Spells(data: seq<byte>, at: nat, labels: seq<Text>) {
    exists fuel: nat :: Expand(data, at, fuel) == Some(labels)
  }

  /** A two-byte compression pointer. */
  function Pointer(target: nat): (p: seq<byte>)
    requires target < 0x4000
    ensures |p| == 2
  {
    [0xC0 + target / 256, target % 256]
  }

  lemma PointerUnderCursor(data: seq<byte>, at: nat, target: nat)
    requires target < 0x4000 && target < |data| && LiesAt(data, at, Pointer(target))
    ensures MoveAt(data, at) == Jump(target)
  {
    assert data[at] == Pointer(target)[0] && data[at + 1] == Pointer(target)[1];
  }

  lemma LabelUnderCursor(data: seq<byte>, at: nat, text: LabelText)
    requires LiesAt(data, at, [|text|] + text)
    ensures MoveAt(data, at) == Label(text, at + 1 + |text|)
  {
    LiesAtSplit(data, at, [|text|], text);
    LiesAtSlice(data, at + 1, text);
    assert data[at] == [|text|][0];
  }

  /** The first of some written labels is under the cursor, the others follow it. */
  lemma FirstWritten(data: seq<byte>, at: nat, labels: seq<LabelText>)
    requires labels != [] && LiesAt(data, at, LabelBytes(labels))
    ensures MoveAt(data, at) == Label(labels[0], at + 1 + |labels[0]|)
    ensures LiesAt(data, at + 1 + |labels[0]|, LabelBytes(labels[1..]))
  {
    hide MoveAt;
    var first: seq<byte> := [|labels[0]|] + labels[0];
    var others := LabelBytes(labels[1..]);
    LiesAtSplit(data, at, first, others);
    LabelUnderCursor(data, at, labels[0]);
  }

  /** The reader moves along written labels one by one, and collects them. */
  lemma {:induction false} LabelsLeadOn(data: seq<byte>, at: nat, labels: seq<LabelText>)
    requires LiesAt(data, at, LabelBytes(labels))
    ensures CursorAfter(data, at, |labels|) == Some(at + |LabelBytes(labels)|)
    ensures LabelsMet(data, at, |labels|) == labels
    decreases |labels|
  {
    hide LiesAt, MoveAt;
    if labels != [] {
      FirstWritten(data, at, labels);
      LabelsLeadOn(data, at + 1 + |labels[0]|, labels[1..]);
    }
  }

  lemma {:induction false} LabelsWireEnd(data: seq<byte>, at: nat, labels: seq<LabelText>)
    requires LiesAt(data, at, LabelBytes(labels))
    ensures WireEnd(data, at) == WireEnd(data, at + |LabelBytes(labels)|)
    decreases |labels|
  {
    if labels != [] {
      var next := at + 1 + |labels[0]|;
      assert WireEnd(data, at) == WireEnd(data, next) by { FirstWritten(data, at, labels); }
      assert LiesAt(data, next, LabelBytes(labels[1..])) by { FirstWritten(data, at, labels); }
      LabelsWireEnd(data, next, labels[1..]);
    }
  }

  lemma ExpandThen(data: seq<byte>, at: nat, met: seq<Text>, steps: nat, next: nat, fuel: nat, suffix: seq<Text>)
    requires CursorAfter(data, at, steps) == Some(next) && LabelsMet(data, at, steps) == met
    requires Expand(data, next, fuel) == Some(suffix)
    ensures Spells(data, at, met + suffix)
  {
    ExpandAfter(data, at, steps, fuel);
    assert Expand(data, at, steps + fuel) == Some(met + suffix);
  }

  /** Written labels, followed by anything that spells `suffix`, spell the two together. */
  lemma LabelsThen(data: seq<byte>, at: nat, labels: seq<LabelText>, next: nat, suffix: seq<Text>)
    requires LiesAt(data, at, LabelBytes(labels)) && next == at + |LabelBytes(labels)|
    requires Spells(data, next, suffix)
    ensures Spells(data, at, labels + suffix)
  {
    var fuel: nat :| Expand(data, next, fuel) == Some(suffix);
    LabelsLeadOn(data, at, labels);
    ExpandThen(data, at, labels, |labels|, next, fuel, suffix);
  }

  lemma ZeroUnderCursor(data: seq<byte>, at: nat)
    requires LiesAt(data, at, [0])
    ensures Spells(data, at, []) && WireEnd(data, at) == at + 1
  {
    assert data[at] == [0][0];
    assert Expand(data, at, 1) == Some([]);
  }

  /** What the writer appended to any message is read back from where it was written. */
  lemma RoundTrip(data: seq<byte>, at: nat, labels: seq<LabelText>)
    requires LiesAt(data, at, WireForm(Join(labels), 0) + [0])
    ensures Spells(data, at, labels) && Denotes(data, at, Join(labels))
    ensures WireEnd(data, at) == at + |WireForm(Join(labels), 0)| + 1
  {
    var written := LabelBytes(labels);
    assert WireForm(Join(labels), 0) == written by {
      WriterSpellsLabels(Join(labels), 0, labels);
    }
    LiesAtSplit(data, at, written, [0]);
    ZeroUnderCursor(data, at + |written|);
    LabelsWireEnd(data, at, labels);
    LabelsThen(data, at, labels, at + |written|, []);
    assert labels + [] == labels;
  }

  lemma PointerSpells(data: seq<byte>, at: nat, target: nat, suffix: seq<Text>)
    requires target < 0x4000 && LiesAt(data, at, Pointer(target))
    requires Spells(data, target, suffix)
    ensures Spells(data, at, suffix) && WireEnd(data, at) == at + 2
  {
    var fuel: nat :| Expand(data, target, fuel) == Some(suffix);
    PointerUnderCursor(data, at, target);
    assert Expand(data, at, fuel + 1) == Some(suffix);
  }

  /**
    Any suffix may be replaced by a 14-bit pointer to where the message already
    spells it, be that written in full or compressed itself.
  */
  lemma CompressedRoundTrip(data: seq<byte>, at: nat, labels: seq<LabelText>, suffix: seq<Text>, target: nat)
    requires target < 0x4000 && Spells(data, target, suffix)
    requires LiesAt(data, at, LabelBytes(labels) + Pointer(target))
    ensures Spells(data, at, labels + suffix) && Denotes(data, at, Join(labels + suffix))
    ensures WireEnd(data, at) == at + |LabelBytes(labels)| + 2
  {
    var written := LabelBytes(labels);
    LiesAtSplit(data, at, written, Pointer(target));
    PointerSpells(data, at + |written|, target, suffix);
    LabelsWireEnd(data, at, labels);
    LabelsThen(data, at, labels, at + |written|, suffix);
  }

  /** Five labels of 63 bytes: 319 bytes of text, 321 on the wire. */
  function LongName(): (labels: seq<LabelText>)
    ensures |labels| == 5 && forall i :: 0 <= i < 5 ==> |labels[i]| == 63
  {
    seq(5, _ => LongLabel())
  }

  function LongLabel(): (text: LabelText)
    ensures |text| == 63
  {
    seq(63, _ => 97)
  }

  lemma {:induction false} JoinLength(labels: seq<LabelText>)
    requires labels != [] && forall i :: 0 <= i < |labels| ==> |labels[i]| == 63
    ensures |Join(labels)| == 64 * |labels| - 1
  {
    if |labels| > 1 { JoinLength(labels[1..]); }
  }

  /** The 255-byte limit of section 2.3.4 of RFC 1035 is enforced by neither half: a longer name goes round. */
  lemma LongNameIsRead(data: seq<byte>, at: nat)
    requires LiesAt(data, at, WireForm(Join(LongName()), 0) + [0])
    ensures |Join(LongName())| == 319 && Denotes(data, at, Join(LongName()))
  {
    JoinLength(LongName());
    RoundTrip(data, at, LongName());
  }

  /**
    Both halves run: the reader gives back exactly the text the writer was
    handed, and leaves `position` just past what was written.
  */
  method WriteThenRead(before: seq<byte>, labels: seq<LabelText>, after: seq<byte>)
    returns (read: Option<Text>, position: nat, end: nat)
    ensures read == Some(Join(labels)) && position == end
  {
    var bytes := AppendDnsName(before, Join(labels));
    end := |bytes|;
    ghost var written := WireForm(Join(labels), 0) + [0];
    LiesInMiddle(before, written, after);
    assert bytes == before + written;
    RoundTrip(bytes + after, |before|, labels);
    ghost var guarded;
    read, position, guarded := ReadName(bytes + after, |before|);
  }
}
