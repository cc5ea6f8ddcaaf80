/**
  DNS messages cut short (src/core/DNSParser.cpp, readName and parseMessage): no
  answer is given before the last byte of the last record is there.
*/
module DnsTruncation {
  import opened Bytes
  import opened DnsName
  import opened DnsMessage
  import opened DnsMessageRoundTrip

  // ----- what is read of a beginning is read of the whole

  lemma MoveOfBeginning(data: seq<byte>, n: nat, cursor: nat)
    requires n <= |data| && !MoveAt(data[..n], cursor).Stuck?
    ensures MoveAt(data, cursor) == MoveAt(data[..n], cursor)
  {
    var m := MoveAt(data[..n], cursor);
    if m.Label? {
      assert data[..n][cursor + 1..m.next] == data[cursor + 1..m.next];
    }
  }

  lemma {:induction false} ExpandBeginning(data: seq<byte>, n: nat, start: nat, fuel: nat)
    requires n <= |data| && Expand(data[..n], start, fuel).Some?
    ensures Expand(data, start, fuel) == Expand(data[..n], start, fuel)
    ensures WireEnd(data, start) == WireEnd(data[..n], start)
    decreases fuel
  {
    hide MoveAt;
    MoveOfBeginning(data, n, start);
    var m := MoveAt(data[..n], start);
    if m.Jump? || m.Label? { ExpandBeginning(data, n, m.next, fuel - 1); }
  }

  lemma NameOfBeginning(data: seq<byte>, n: nat, start: nat)
    requires n <= |data| && NameAt(data[..n], start).Some?
    ensures NameAt(data, start) == NameAt(data[..n], start) && WireEnd(data, start) == WireEnd(data[..n], start)
  {
    var name := NameAt(data[..n], start).value;
    assert Denotes(data[..n], start, name);
    var fuel: nat :| Expand(data[..n], start, fuel).Some? && Join(Expand(data[..n], start, fuel).value) == name;
    ExpandBeginning(data, n, start, fuel);
    assert Denotes(data, start, name);
    assert NameAt(data, start) == Some(name);
  }

  lemma FieldsOfBeginning(data: seq<byte>, n: nat, pos: nat)
    requires n <= |data| && FieldsAt(data[..n], pos).Some?
    ensures FieldsAt(data, pos) == FieldsAt(data[..n], pos)
    ensures var at := FieldsAt(data, pos).value; U16(data, at + 8) == U16(data[..n], at + 8)
  {
    hide NameAt, WireEnd;
    NameOfBeginning(data, n, pos);
  }

  lemma RecordOfBeginning(data: seq<byte>, s: seq<byte>, pos: nat)
    requires s <= data && FieldsAt(s, pos).Some?
    ensures FieldsAt(data, pos) == FieldsAt(s, pos)
    ensures var at := FieldsAt(s, pos).value; U16(data, at + 8) == U16(s, at + 8)
  {
    hide FieldsAt, U16, NameAt;
    assert s == data[..|s|];
    FieldsOfBeginning(data, |s|, pos);
  }

  lemma {:induction false} QuestionsOfBeginning(data: seq<byte>, n: nat, pos: nat, count: nat)
    requires pos <= n <= |data| && Questions(data[..n], pos, count).Some?
    ensures Questions(data, pos, count) == Questions(data[..n], pos, count)
    decreases count
  {
    hide NameAt, WireEnd;
    if count > 0 {
      NameOfBeginning(data, n, pos);
      QuestionsOfBeginning(data, n, WireEnd(data[..n], pos) + 4, count - 1);
    }
  }

  // ----- where the answers end

  /** Just past the last of `count` records, if each has its name, its fields and all its data. */
  ghost function AnswersEnd(data: seq<byte>, pos: nat, count: nat): (end: Option<nat>)
    decreases count
  {
    if count == 0 then Some(pos)
    else
      var at :- FieldsAt(data, pos);
      AnswersEnd(data, at + 10 + U16(data, at + 8), count - 1)
  }

  lemma {:induction false} AnswersNeedEnd(data: seq<byte>, pos: nat, count: nat, sofar: Response)
    ensures Answers(data, pos, count, sofar).Some? <==> AnswersEnd(data, pos, count).Some?
    decreases count
  {
    hide AfterRecord, FieldsAt, U16, NameAt;
    if count > 0 && FieldsAt(data, pos).Some? {
      var at := FieldsAt(data, pos).value;
      AnswersNeedEnd(data, at + 10 + U16(data, at + 8), count - 1, AfterRecord(data, pos, sofar));
    }
  }

  lemma {:induction false} EndIsInside(data: seq<byte>, pos: nat, count: nat)
    requires pos <= |data| && AnswersEnd(data, pos, count).Some?
    ensures pos <= AnswersEnd(data, pos, count).value <= |data|
    decreases count
  {
    hide FieldsAt, U16, NameAt;
    if count > 0 {
      var at := FieldsAt(data, pos).value;
      EndIsInside(data, at + 10 + U16(data, at + 8), count - 1);
    }
  }

  lemma {:induction false} EndOfBeginning(data: seq<byte>, s: seq<byte>, pos: nat, count: nat)
    requires s <= data && AnswersEnd(s, pos, count).Some?
    ensures AnswersEnd(data, pos, count) == AnswersEnd(s, pos, count)
    decreases count
  {
    hide FieldsAt, U16, NameAt, WireEnd;
    if count > 0 {
      RecordOfBeginning(data, s, pos);
      var at := FieldsAt(s, pos).value;
      EndOfBeginning(data, s, at + 10 + U16(data, at + 8), count - 1);
    }
  }

  lemma {:induction false} RecordsEnd(data: seq<byte>, at: nat, rs: seq<FittingRecord>)
    requires LiesAt(data, at, RecordBytes(rs)) && RecordsLie(data, at, rs)
    ensures AnswersEnd(data, at, |rs|) == Some(at + |RecordBytes(rs)|)
    decreases |rs|
  {
    hide FieldsAt, AfterRecord, RR.NamesLie, RR.Added, RR.Bytes, Data.Bytes, U16, LiesAt, Data.Valid, RR.Fixed, NameLies;
    if rs != [] {
      LiesAtSplit(data, at, rs[0].Bytes(), RecordBytes(rs[1..]));
      RecordIsRead(data, at, rs[0], Response([], [], false));
      BytesOfRecord(rs[0]);
      RecordsEnd(data, at + |rs[0].Bytes()|, rs[1..]);
    }
  }

  // ----- whole messages

  /** An answer is given only when the questions and every record are complete. */
  lemma AnswerNeedsAll(data: seq<byte>)
    requires Meaning(data).Some?
    ensures |data| >= 12 && data[2] >= 128 && Questions(data, 12, U16(data, 4)).Some?
    ensures AnswersEnd(data, Questions(data, 12, U16(data, 4)).value.end, U16(data, 6)).Some?
  {
    hide Questions, Answers, AnswersEnd;
    var asked := Questions(data, 12, U16(data, 4));
    AnswersNeedEnd(data, asked.value.end, U16(data, 6), Response(asked.value.first, [], false));
  }

  /** A written message cut anywhere before its end means nothing at all: records read before the cut are dropped. */
  lemma CutMeansNothing(data: seq<byte>, n: nat, id: word, flags: word, qs: QuestionList, rs: RecordList, others: Quad)
    requires LiesAt(data, 0, HeaderBytes(id, flags, qs, rs, others) + QuestionBytes(qs) + RecordBytes(rs))
    requires QuestionsLie(data, 12, qs) && RecordsLie(data, 12 + |QuestionBytes(qs)|, rs)
    requires n < 12 + |QuestionBytes(qs)| + |RecordBytes(rs)| && n <= |data|
    ensures Meaning(data[..n]) == None
  {
    hide HeaderBytes, Questions, Answers, QuestionsLie, RecordsLie, AnswersEnd, Meaning, QuestionBytes, RecordBytes, LiesAt, U16,
      FirstName;
    if Meaning(data[..n]).Some? {
      var end := 12 + |QuestionBytes(qs)|;
      AnswerNeedsAll(data[..n]);
      CountsOfBeginning(data, n);
      WrittenEnds(data, id, flags, qs, rs, others);
      QuestionsOfBeginning(data, n, 12, |qs|);
      EndOfBeginning(data, data[..n], end, |rs|);
      EndIsInside(data[..n], end, |rs|);
    }
  }

  lemma CountsOfBeginning(data: seq<byte>, n: nat)
    requires 12 <= n <= |data|
    ensures U16(data[..n], 4) == U16(data, 4) && U16(data[..n], 6) == U16(data, 6)
  {
  }

  /** Where the questions and the answers of a written message end. */
  lemma WrittenEnds(data: seq<byte>, id: word, flags: word, qs: QuestionList, rs: RecordList, others: Quad)
    requires LiesAt(data, 0, HeaderBytes(id, flags, qs, rs, others) + QuestionBytes(qs) + RecordBytes(rs))
    requires QuestionsLie(data, 12, qs) && RecordsLie(data, 12 + |QuestionBytes(qs)|, rs)
    ensures |data| >= 12 && U16(data, 4) == |qs| && U16(data, 6) == |rs|
    ensures Questions(data, 12, |qs|) == Some(Asked(12 + |QuestionBytes(qs)|, FirstName(qs)))
    ensures AnswersEnd(data, 12 + |QuestionBytes(qs)|, |rs|) == Some(12 + |QuestionBytes(qs)| + |RecordBytes(rs)|)
  {
    hide HeaderBytes, Questions, QuestionsLie, RecordsLie, AnswersEnd, QuestionBytes, RecordBytes, LiesAt, U16, FirstName;
    var header := HeaderBytes(id, flags, qs, rs, others);
    LiesAtSplit(data, 0, header + QuestionBytes(qs), RecordBytes(rs));
    LiesAtSplit(data, 0, header, QuestionBytes(qs));
    LiesWithin(data, 0, header);
    HeaderIsRead(data, id, flags, qs, rs, others);
    QuestionsAreRead(data, 12, qs);
    RecordsEnd(data, 12 + |QuestionBytes(qs)|, rs);
  }
}
