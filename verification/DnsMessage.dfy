/**
  Reading a DNS response (src/core/DNSParser.cpp, parseMessage and
  svcbAdvertisesEch): a cursor moves over questions and records whose lengths,
  names and character-strings the sender chose.
*/
module DnsMessage {
  import opened Bytes
  import opened DnsName
  import Decode

  const SPACE: byte := 32
  const COLON: byte := 58
  const MAX_TXT_BYTES: nat := 255

  datatype RecordType = A | AAAA | CNAME | PTR | SRV | TXT | HTTPS | SVCB

  datatype Record = Record(kind: RecordType, name: Text, value: Text, priority: nat)

  datatype Response = Response(queryName: Text, answers: seq<Record>, ech: bool)

  /** A number as text, as std::to_string writes it. */
  function Decimal(n: nat): Text {
    if n < 10 then [48 + n] else Decimal(n / 10) + [48 + n % 10]
  }

  // ----- names as values

  /** The name at `start`, if the unguarded expansion gives one. */
  ghost function NameAt(data: seq<byte>, start: nat): (r: Option<Text>)
    ensures forall name :: r == Some(name) <==> Denotes(data, start, name)
    ensures r.Some? ==> start < WireEnd(data, start) <= |data|
  {
    if name :| Denotes(data, start, name) then
      assert forall other :: Denotes(data, start, other) ==> other == name by {
        forall other | Denotes(data, start, other) ensures other == name { DenotesIsUnique(data, start, name, other); }
      }
      assert start < WireEnd(data, start) <= |data| by {
        var fuel: nat :| Expand(data, start, fuel).Some? && Join(Expand(data, start, fuel).value) == name;
        NameHasAnEnd(data, start, fuel);
      }
      Some(name)
    else None
  }

  lemma {:induction false} NameHasAnEnd(data: seq<byte>, start: nat, fuel: nat)
    requires Expand(data, start, fuel).Some?
    ensures start < WireEnd(data, start) <= |data|
    decreases fuel
  {
    var m := MoveAt(data, start);
    if m.Label? { NameHasAnEnd(data, m.next, fuel - 1); }
  }

  // ----- what the fields of a record say

  /** One more character-string of a TXT record, within the bytes kept. */
  function AddChunk(text: Text, chunk: Text): (r: Text)
    requires |text| <= MAX_TXT_BYTES
    ensures |r| <= MAX_TXT_BYTES
    ensures |text| < MAX_TXT_BYTES ==> text <= r
  {
    var t := if text == [] || |text| == MAX_TXT_BYTES then text else text + [SPACE];
    t + chunk[..Min(|chunk|, MAX_TXT_BYTES - |t|)]
  }

  /** The character-strings from `cursor` on, appended to `text`. */
  function TextFrom(data: seq<byte>, cursor: nat, end: nat, text: Text): (r: Text)
    requires cursor <= end <= |data| && |text| <= MAX_TXT_BYTES
    ensures |r| <= MAX_TXT_BYTES
    decreases end - cursor
  {
    if cursor >= end || |text| >= MAX_TXT_BYTES then text
    else
      var next := cursor + 1 + data[cursor];
      if next > end then text else TextFrom(data, next, end, AddChunk(text, data[cursor + 1..next]))
  }

  /** A non-empty "ech" parameter comes before the parameters end or break. */
  predicate EchFrom(data: seq<byte>, pos: nat, end: nat)
    requires end <= |data|
    decreases end - pos
  {
    pos + 4 <= end && pos + 4 + U16(data, pos + 2) <= end
    && ((U16(data, pos) == 5 && U16(data, pos + 2) > 0) || EchFrom(data, pos + 4 + U16(data, pos + 2), end))
  }

  ghost predicate Ech(data: seq<byte>, position: nat, end: nat)
    requires position <= end <= |data|
  {
    end - position >= 2 && NameAt(data, position + 2).Some? && EchFrom(data, WireEnd(data, position + 2), end)
  }

  /** The name at `at`, if its own bytes stay within the record. */
  ghost function TargetWithin(data: seq<byte>, at: nat, end: nat): Option<Text> {
    if NameAt(data, at).Some? && WireEnd(data, at) <= end then NameAt(data, at) else None
  }

  /** What one Internet record adds to the answers: nothing, or one entry. */
  ghost function AnswerOf(data: seq<byte>, owner: Text, kind: nat, position: nat, end: nat): seq<Record>
    requires position <= end <= |data|
  {
    var length := end - position;
    match kind
    case 1 => if length == 4 then [Record(A, owner, Decode.Ipv4Text(data, position), 0)] else []
    case 28 => if length == 16 then [Record(AAAA, owner, Decode.Ipv6Text(data, position), 0)] else []
    case 5 =>
      var target := TargetWithin(data, position, end);
      if target.Some? then [Record(CNAME, owner, target.value, 0)] else []
    case 12 =>
      var target := TargetWithin(data, position, end);
      if target.Some? && target.value != [] then [Record(PTR, owner, target.value, 0)] else []
    case 33 =>
      if length < 7 then []
      else
        var target := TargetWithin(data, position + 6, end);
        if target.Some? && target.value != [] then
          [Record(SRV, owner, target.value + [COLON] + Decimal(U16(data, position + 4)), U16(data, position))]
        else []
    case 16 =>
      var text := TextFrom(data, position, end, []);
      if text != [] then [Record(TXT, owner, text, 0)] else []
    case _ =>
      if (kind != 64 && kind != 65) || length < 2 then []
      else
        var target := NameAt(data, position + 2);
        [Record(if kind == 65 then HTTPS else SVCB, owner,
                if target.Some? && target.value != [] then target.value else owner, U16(data, position))]
  }

  ghost predicate EchOf(data: seq<byte>, kind: nat, position: nat, end: nat)
    requires position <= end <= |data|
  {
    (kind == 64 || kind == 65) && Ech(data, position, end)
  }

  // ----- the walk over the message

  datatype Asked = Asked(end: nat, first: Text)

  ghost function Questions(data: seq<byte>, pos: nat, count: nat): (r: Option<Asked>)
    requires pos <= |data|
    ensures r.Some? ==> pos <= r.value.end <= |data|
    decreases count
  {
    if count == 0 then Some(Asked(pos, []))
    else if NameAt(data, pos).None? || |data| - WireEnd(data, pos) < 4 then None
    else
      var rest :- Questions(data, WireEnd(data, pos) + 4, count - 1);
      Some(Asked(rest.end, NameAt(data, pos).value))
  }

  /** Where the fixed fields of the record at `pos` begin, if they are all there. */
  ghost function FieldsAt(data: seq<byte>, pos: nat): (r: Option<nat>)
    ensures r.Some? ==> NameAt(data, pos).Some? && pos < r.value && r.value + 10 <= |data|
                        && r.value + 10 + U16(data, r.value + 8) <= |data|
  {
    if NameAt(data, pos).None? then None
    else
      var at := WireEnd(data, pos);
      if |data| - at < 10 || U16(data, at + 8) > |data| - (at + 10) then None else Some(at)
  }

  /** The response after the record at `pos`. */
  ghost function AfterRecord(data: seq<byte>, pos: nat, sofar: Response): Response
    requires FieldsAt(data, pos).Some?
  {
    var at := FieldsAt(data, pos).value;
    if U16(data, at + 2) % 0x8000 != 1 then sofar
    else
      var end := at + 10 + U16(data, at + 8);
      sofar.(answers := sofar.answers + AnswerOf(data, NameAt(data, pos).value, U16(data, at), at + 10, end),
             ech := sofar.ech || EchOf(data, U16(data, at), at + 10, end))
  }

  ghost function Answers(data: seq<byte>, pos: nat, count: nat, sofar: Response): Option<Response>
    decreases count
  {
    if count == 0 then Some(sofar)
    else if FieldsAt(data, pos).None? then None
    else
      var at := FieldsAt(data, pos).value;
      Answers(data, at + 10 + U16(data, at + 8), count - 1, AfterRecord(data, pos, sofar))
  }

  ghost function Meaning(data: seq<byte>): Option<Response> {
    if |data| < 12 || U16(data, 2) < 0x8000 then None
    else
      var asked :- Questions(data, 12, U16(data, 4));
      Answers(data, asked.end, U16(data, 6), Response(asked.first, [], false))
  }

  // ----- the parser

  method ReadNameAt(data: seq<byte>, start: nat) returns (name: Option<Text>, position: nat)
    ensures name == NameAt(data, start)
    ensures name.Some? ==> position == WireEnd(data, start)
  {
    ghost var guarded;
    name, position, guarded := ReadName(data, start);
    assert name.Some? ==> NameAt(data, start) == Some(name.value);
    assert NameAt(data, start).Some? ==> name == Some(NameAt(data, start).value);
  }

  method SvcbAdvertisesEch(message: seq<byte>, start: nat, recordEnd: nat) returns (ech: bool)
    requires start <= recordEnd <= |message|
    ensures ech == Ech(message, start, recordEnd)
  {
    if recordEnd - start < 2 { return false; }
    var name, position := ReadNameAt(message, start + 2);
    if name.None? { return false; }
    while position + 4 <= recordEnd
      invariant EchFrom(message, position, recordEnd) == Ech(message, start, recordEnd)
      decreases recordEnd - position
    {
      var key := U16(message, position);
      var valueLength := U16(message, position + 2);
      position := position + 4;
      if valueLength > recordEnd - position { return false; }
      if key == 5 && valueLength > 0 { return true; }
      position := position + valueLength;
    }
    return false;
  }

  /** One turn of the loop over character-strings. */
  lemma TextTurn(message: seq<byte>, cursor: nat, end: nat, text: Text, kept: nat)
    requires cursor < end <= |message| && |text| < MAX_TXT_BYTES
    requires kept == Min(message[cursor], MAX_TXT_BYTES - |text| - (if text == [] then 0 else 1))
    ensures var next := cursor + 1 + message[cursor];
            var separated := if text == [] then text else text + [SPACE];
            if next > end then TextFrom(message, cursor, end, text) == text
            else TextFrom(message, cursor, end, text)
                 == TextFrom(message, next, end, separated + message[cursor + 1..cursor + 1 + kept])
  {
    var next := cursor + 1 + message[cursor];
    if next <= end {
      SliceOfSlice(message, cursor + 1, next, 0, kept);
    }
  }

  method ReadText(message: seq<byte>, position: nat, recordEnd: nat) returns (text: Text)
    requires position <= recordEnd <= |message|
    ensures text == TextFrom(message, position, recordEnd, [])
  {
    hide TextFrom;
    text := [];
    var cursor := position;
    while cursor < recordEnd && |text| < MAX_TXT_BYTES
      invariant cursor <= recordEnd && |text| <= MAX_TXT_BYTES
      invariant TextFrom(message, cursor, recordEnd, text) == TextFrom(message, position, recordEnd, [])
      decreases recordEnd - cursor
    {
      var chunkLength: nat := message[cursor];
      var separated := if text == [] then text else text + [SPACE];
      var kept := Min(chunkLength, MAX_TXT_BYTES - |separated|);
      TextTurn(message, cursor, recordEnd, text, kept);
      cursor := cursor + 1;
      if chunkLength > recordEnd - cursor { return; }
      text := separated;
      text := text + message[cursor..cursor + kept];
      cursor := cursor + chunkLength;
    }
    TextEnds(message, cursor, recordEnd, text);
  }

  lemma TextEnds(message: seq<byte>, cursor: nat, end: nat, text: Text)
    requires cursor <= end <= |message| && |text| <= MAX_TXT_BYTES && (cursor == end || |text| == MAX_TXT_BYTES)
    ensures TextFrom(message, cursor, end, text) == text
  {
  }

  /** The name at `at` when its own bytes stay within the record. */
  method ReadTarget(message: seq<byte>, at: nat, recordEnd: nat) returns (target: Option<Text>)
    ensures target == TargetWithin(message, at, recordEnd)
  {
    var name, cursor := ReadNameAt(message, at);
    target := if name.Some? && cursor <= recordEnd then name else None;
  }

  method ReadRecord(message: seq<byte>, owner: Text, kind: nat, position: nat, recordEnd: nat)
    returns (found: seq<Record>, ech: bool)
    requires position <= recordEnd <= |message|
    ensures found == AnswerOf(message, owner, kind, position, recordEnd)
    ensures ech == EchOf(message, kind, position, recordEnd)
  {
    hide TextFrom, TargetWithin, Ech, U16, Decimal;
    found, ech := [], false;
    var dataLength := recordEnd - position;
    match kind
    case 1 =>
      if dataLength == 4 { found := [Record(A, owner, Decode.Ipv4Text(message, position), 0)]; }
    case 28 =>
      if dataLength == 16 { found := [Record(AAAA, owner, Decode.Ipv6Text(message, position), 0)]; }
    case 5 =>
      var target := ReadTarget(message, position, recordEnd);
      if target.Some? { found := [Record(CNAME, owner, target.value, 0)]; }
    case 12 =>
      var target := ReadTarget(message, position, recordEnd);
      if target.Some? && target.value != [] { found := [Record(PTR, owner, target.value, 0)]; }
    case 33 =>
      if dataLength < 7 { return; }
      var priority, portNumber := U16(message, position), U16(message, position + 4);
      var target := ReadTarget(message, position + 6, recordEnd);
      if target.Some? && target.value != [] {
        found := [Record(SRV, owner, target.value + [COLON] + Decimal(portNumber), priority)];
      }
    case 16 =>
      var text := ReadText(message, position, recordEnd);
      if text != [] { found := [Record(TXT, owner, text, 0)]; }
    case _ =>
      if kind == 64 || kind == 65 {
        NoEchWithoutPriority(message, position, recordEnd);
        if dataLength < 2 { return; }
        var priority := U16(message, position);
        var target, _ := ReadNameAt(message, position + 2);
        ech := SvcbAdvertisesEch(message, position, recordEnd);
        found := [Record(if kind == 65 then HTTPS else SVCB, owner,
                         if target.Some? && target.value != [] then target.value else owner, priority)];
      }
  }

  lemma NoEchWithoutPriority(message: seq<byte>, position: nat, recordEnd: nat)
    requires position <= recordEnd <= |message|
    ensures recordEnd - position < 2 ==> !Ech(message, position, recordEnd)
  {
  }

  /** The first `done` of `count` questions are read; the rest decide whether there is an answer at all. */
  ghost predicate AskedSoFar(message: seq<byte>, count: nat, done: nat, position: nat, first: Text)
    requires 12 <= |message| && done <= count && position <= |message|
  {
    if done == 0 then position == 12 && first == []
    else
      var rest := Questions(message, position, count - done);
      Questions(message, 12, count) == if rest.None? then None else Some(Asked(rest.value.end, first))
  }

  lemma OneMoreQuestion(message: seq<byte>, count: nat, done: nat, position: nat, first: Text)
    requires 12 <= |message| && done < count && position <= |message|
    requires AskedSoFar(message, count, done, position, first)
    ensures NameAt(message, position).None? || |message| - WireEnd(message, position) < 4 ==>
              Questions(message, 12, count).None?
    ensures NameAt(message, position).Some? && |message| - WireEnd(message, position) >= 4 ==>
              AskedSoFar(message, count, done + 1, WireEnd(message, position) + 4,
                         if done == 0 then NameAt(message, position).value else first)
  {
    hide NameAt, WireEnd;
  }

  method ReadQuestions(message: seq<byte>, questionCount: nat) returns (asked: Option<Asked>)
    requires 12 <= |message|
    ensures asked == Questions(message, 12, questionCount)
  {
    hide NameAt, WireEnd, Questions;
    var position: nat := 12;
    var queryName: Text := [];
    var question: nat := 0;
    while question < questionCount
      invariant question <= questionCount && position <= |message|
      invariant AskedSoFar(message, questionCount, question, position, queryName)
    {
      OneMoreQuestion(message, questionCount, question, position, queryName);
      var name, next := ReadNameAt(message, position);
      if name.None? || |message| - next < 4 { return None; }
      if question == 0 { queryName := name.value; }
      position := next + 4;
      question := question + 1;
    }
    AllAsked(message, questionCount, position, queryName);
    return Some(Asked(position, queryName));
  }

  lemma AllAsked(message: seq<byte>, count: nat, position: nat, first: Text)
    requires 12 <= |message| && position <= |message| && AskedSoFar(message, count, count, position, first)
    ensures Questions(message, 12, count) == Some(Asked(position, first))
  {
  }

  /** One turn of the loop over records: the response so far, and where the next record begins. */
  method ReadAnswer(message: seq<byte>, start: nat, sofar: Response) returns (response: Option<Response>, position: nat)
    ensures response == if FieldsAt(message, start).None? then None else Some(AfterRecord(message, start, sofar))
    ensures response.Some? ==>
        var at := FieldsAt(message, start).value;
        position == at + 10 + U16(message, at + 8) <= |message|
  {
    hide NameAt, WireEnd, AnswerOf, EchOf, U16;
    position := start;
    var name, fields := ReadNameAt(message, start);
    if name.None? || |message| - fields < 10 { return None, position; }
    var owner := name.value;
    var kind := U16(message, fields);
    var recordClass := U16(message, fields + 2) % 0x8000;
    var dataLength := U16(message, fields + 8);
    position := fields + 10;
    if dataLength > |message| - position { return None, position; }
    var recordEnd := position + dataLength;
    response := Some(sofar);
    if recordClass == 1 {
      var found, ech := ReadRecord(message, owner, kind, position, recordEnd);
      response := Some(Response(sofar.queryName, sofar.answers + found, sofar.ech || ech));
    }
    position := recordEnd;
  }

  /** The whole message, or nothing: a record cut short discards what was read before it. */
  method ParseMessage(message: seq<byte>) returns (response: Option<Response>)
    ensures response == Meaning(message)
  {
    hide FieldsAt, AfterRecord, Questions, U16;
    if |message| < 12 { return None; }
    if U16(message, 2) < 0x8000 { return None; }
    var answerCount := U16(message, 6);
    var asked := ReadQuestions(message, U16(message, 4));
    if asked.None? { return None; }
    var position: nat := asked.value.end;
    var sofar := Response(asked.value.first, [], false);
    var answer: nat := 0;
    while answer < answerCount
      invariant answer <= answerCount && position <= |message|
      invariant Answers(message, position, answerCount - answer, sofar) == Meaning(message)
    {
      var next: Option<Response>;
      next, position := ReadAnswer(message, position, sofar);
      if next.None? { return None; }
      sofar := next.value;
      answer := answer + 1;
    }
    return Some(sofar);
  }
}
