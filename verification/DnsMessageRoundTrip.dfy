/**
  DNS responses written record by record are read back, whatever compression their
  names use (sections 4.1 of RFC 1035, 2.2 of RFC 9460).
*/
module DnsMessageRoundTrip {
  import opened Bytes
  import opened DnsName
  import opened DnsMessage
  import opened DnsRoundTrip

  type Chunk = s: seq<byte> | |s| < 256
  type Value = s: seq<byte> | |s| < 0x1_0000

  /** A name field: its own bytes, and the name they stand for where they lie. */
  datatype Name = Name(wire: seq<byte>, text: Text)

  ghost predicate NameLies(data: seq<byte>, at: nat, n: Name) {
    LiesAt(data, at, n.wire) && Denotes(data, at, n.text) && WireEnd(data, at) == at + |n.wire|
  }

  // ----- numbers

  /** Reading decimal digits, from left to right. */
  function ReadNumber(t: Text, read: nat): Option<nat>
    decreases |t|
  {
    if t == [] then Some(read)
    else if 48 <= t[0] <= 57 then ReadNumber(t[1..], 10 * read + (t[0] as int - 48))
    else None
  }

  /** `t` is the number in decimal digits, with no zero in front. */
  predicate Spells10(t: Text, n: nat) {
    t != [] && ReadNumber(t, 0) == Some(n) && (|t| > 1 ==> t[0] != 48)
  }

  lemma {:induction false} OneMoreDigit(t: Text, read: nat, digit: byte)
    requires 48 <= digit <= 57 && ReadNumber(t, read).Some?
    ensures ReadNumber(t + [digit], read) == Some(10 * ReadNumber(t, read).value + (digit as int - 48))
    decreases |t|
  {
    if t == [] {
      assert [digit][1..] == [];
    } else {
      assert (t + [digit])[1..] == t[1..] + [digit];
      OneMoreDigit(t[1..], 10 * read + (t[0] as int - 48), digit);
    }
  }

  /** The decoder's decimals are read back. */
  lemma {:induction false} DecimalIsRead(n: nat)
    ensures Spells10(Decimal(n), n) && (n > 0 ==> Decimal(n)[0] != 48)
  {
    if n < 10 {
      assert [48 + n][1..] == [];
    } else {
      DecimalIsRead(n / 10);
      OneMoreDigit(Decimal(n / 10), 0, 48 + n % 10);
    }
  }

  lemma {:induction false} NumberGrows(t: Text, read: nat)
    requires ReadNumber(t, read).Some?
    ensures ReadNumber(t, read).value >= read
    decreases |t|
  {
    if t != [] { NumberGrows(t[1..], 10 * read + (t[0] as int - 48)); }
  }

  /** Digits are the decimal, if they spell the number: there is only one way. */
  lemma {:induction false} SpellingIsUnique(t: Text, n: nat)
    requires Spells10(t, n)
    ensures t == Decimal(n)
    decreases |t|
  {
    var k := |t| - 1;
    var front := t[..k];
    assert t == front + [t[k]];
    FrontIsNumber(front, t[k], 0);
    OneMoreDigit(front, 0, t[k]);
    if k > 0 {
      assert front[1..] == t[1..][..k - 1];
      NumberGrows(front[1..], front[0] as int - 48);
      SpellingIsUnique(front, ReadNumber(front, 0).value);
    }
  }

  lemma {:induction false} FrontIsNumber(t: Text, digit: byte, read: nat)
    requires ReadNumber(t + [digit], read).Some?
    ensures ReadNumber(t, read).Some? && 48 <= digit <= 57
    decreases |t|
  {
    if t != [] {
      assert (t + [digit])[1..] == t[1..] + [digit];
      FrontIsNumber(t[1..], digit, 10 * read + (t[0] as int - 48));
    }
  }

  /** The digits that spell a number. */
  ghost function Numeral(n: nat): (t: Text)
    ensures Spells10(t, n)
  {
    DecimalIsRead(n);
    var t :| Spells10(t, n);
    t
  }

  datatype Param = Param(key: word, value: Value)

  /** No name can be read from here on. */
  ghost predicate IsNameless(data: seq<byte>, start: nat) {
    forall name :: !Denotes(data, start, name)
  }

  datatype Data =
    | Address4(bytes4: Quad)
    | Address6(bytes6: Sixteen)
    | Canonical(target: Name)
    | Reverse(target: Name)
    | Service(priority: word, weight: word, number: word, target: Name)
    | Strings(chunks: seq<Chunk>, cut: CutString)
    | Binding(https: bool, priority: word, target: Name, params: seq<Param>, last: CutParam)
    | Nameless(https: bool, priority: word, rest: seq<byte>)
    | Broken(kind: word, rest: seq<byte>)
    | Other(kind: word, rrClass: word, rest: seq<byte>)
  {
    function Kind(): word {
      match this
      case Address4(_) => 1
      case Address6(_) => 28
      case Canonical(_) => 5
      case Reverse(_) => 12
      case Service(_, _, _, _) => 33
      case Strings(_, _) => 16
      case Binding(https, _, _, _, _) => if https then 65 else 64
      case Nameless(https, _, _) => if https then 65 else 64
      case Broken(kind, _) => kind
      case Other(kind, _, _) => kind
    }

    /**
      A record of another type or class, or too short for its type; the top class bit
      is not part of the class. A broken record is of a type that needs a name.
    */
    predicate Valid() {
      && (Other? ==> rrClass < 0x8000 && (rrClass != 1 || Unusable(kind, |rest|)))
      && (Broken? ==> kind in {5, 12} || (kind == 33 && |rest| >= 7))
    }

    function Class(): (c: word)
      requires Valid()
      ensures c < 0x8000
    {
      if Other? then rrClass else 1
    }

    function Bytes(): seq<byte> {
      match this
      case Address4(b) => b
      case Address6(b) => b
      case Canonical(target) => target.wire
      case Reverse(target) => target.wire
      case Service(priority, weight, number, target) => Word(priority) + Word(weight) + Word(number) + target.wire
      case Strings(chunks, cut) => ChunkBytes(chunks) + cut
      case Binding(_, priority, target, params, last) => Word(priority) + target.wire + (ParamBytes(params) + last)
      case Nameless(_, priority, rest) => Word(priority) + rest
      case Broken(_, rest) => rest
      case Other(_, _, rest) => rest
    }

    /** The name inside the record lies where the record puts it; in a broken record none does. */
    ghost predicate TargetLies(data: seq<byte>, at: nat) {
      match this
      case Canonical(target) => NameLies(data, at, target)
      case Reverse(target) => NameLies(data, at, target)
      case Service(_, _, _, target) => NameLies(data, at + 6, target)
      case Binding(_, _, target, _, _) => NameLies(data, at + 2, target)
      case Nameless(_, _, _) => IsNameless(data, at + 2)
      case Broken(kind, rest) =>
        var start := if kind == 33 then at + 6 else at;
        IsNameless(data, start) || WireEnd(data, start) > at + |rest|
      case _ => true
    }

    /** What the record should add to the answers. */
    ghost function Answer(owner: Text): seq<Record> {
      match this
      case Address4(b) => [Record(A, owner, [4] + b, 0)]
      case Address6(b) => [Record(AAAA, owner, [6] + b, 0)]
      case Canonical(target) => [Record(CNAME, owner, target.text, 0)]
      case Reverse(target) => if target.text == [] then [] else [Record(PTR, owner, target.text, 0)]
      case Service(priority, _, number, target) =>
        if target.text == [] then []
        else [Record(SRV, owner, target.text + [58] + Numeral(number), priority)]
      case Strings(chunks, _) =>
        var text := JoinStrings([], chunks);
        if text == [] then [] else [Record(TXT, owner, Kept(text), 0)]
      case Binding(https, priority, target, _, _) =>
        [Record(if https then HTTPS else SVCB, owner, if target.text == [] then owner else target.text, priority)]
      case Nameless(https, priority, _) => [Record(if https then HTTPS else SVCB, owner, owner, priority)]
      case Broken(_, _) => []
      case Other(_, _, _) => []
    }

    predicate AdvertisesEch() {
      Binding? && HasEch(params)
    }
  }

  /** Data that its type does not allow. */
  predicate Unusable(kind: word, length: nat) {
    && (kind == 1 ==> length != 4) && (kind == 28 ==> length != 16) && (kind == 33 ==> length < 7)
    && (kind in {64, 65} ==> length < 2) && kind !in {5, 12, 16}
  }

  // ----- character-strings

  /** Nothing, or a string whose length goes beyond the record. */
  type CutString = s: seq<byte> | s == [] || |s| - 1 < s[0]

  /** Nothing, or a parameter whose key, length or value goes beyond the record. */
  type CutParam = s: seq<byte> | |s| < 4 || |s| - 4 < U16(s, 2)

  function ChunkBytes(chunks: seq<Chunk>): seq<byte> {
    if chunks == [] then [] else Counted(chunks[0]) + ChunkBytes(chunks[1..])
  }

  /** A character-string: its length and its bytes. */
  function Counted(chunk: Chunk): (b: seq<byte>)
    ensures |b| == 1 + |chunk|
  {
    [|chunk|] + chunk
  }

  lemma CountedIsRead(data: seq<byte>, at: nat, chunk: Chunk)
    requires LiesAt(data, at, Counted(chunk))
    ensures at + 1 + |chunk| <= |data| && data[at] == |chunk| && data[at + 1..at + 1 + |chunk|] == chunk
  {
    assert data[at] == Counted(chunk)[0];
    LiesAtSplit(data, at, [|chunk|], chunk);
    LiesAtSlice(data, at + 1, chunk);
  }

  /** All strings, separated by spaces once there is text before them. */
  function JoinStrings(sofar: Text, chunks: seq<Chunk>): Text
    decreases |chunks|
  {
    if chunks == [] then sofar
    else JoinStrings(if sofar == [] then chunks[0] else sofar + [32] + chunks[0], chunks[1..])
  }

  function Kept(text: Text): (r: Text)
    ensures |r| <= 255
  {
    if |text| <= 255 then text else text[..255]
  }

  lemma {:induction false} JoinExtends(sofar: Text, chunks: seq<Chunk>)
    ensures sofar <= JoinStrings(sofar, chunks)
    decreases |chunks|
  {
    if chunks != [] {
      JoinExtends(if sofar == [] then chunks[0] else sofar + [SPACE] + chunks[0], chunks[1..]);
    }
  }

  lemma FullStaysFull(sofar: Text, chunks: seq<Chunk>)
    requires |sofar| >= MAX_TXT_BYTES
    ensures Kept(JoinStrings(sofar, chunks)) == Kept(sofar)
  {
    JoinExtends(sofar, chunks);
  }

  lemma ChunkKeeps(sofar: Text, chunk: Chunk)
    requires |sofar| < MAX_TXT_BYTES
    ensures AddChunk(sofar, chunk) == Kept(if sofar == [] then chunk else sofar + [SPACE] + chunk)
  {
  }

  lemma OneString(data: seq<byte>, cursor: nat, end: nat, sofar: Text, chunk: Chunk)
    requires LiesAt(data, cursor, Counted(chunk)) && cursor + 1 + |chunk| <= end <= |data|
    requires |sofar| < MAX_TXT_BYTES
    ensures TextFrom(data, cursor, end, Kept(sofar))
            == TextFrom(data, cursor + 1 + |chunk|, end, Kept(if sofar == [] then chunk else sofar + [32] + chunk))
  {
    hide AddChunk, Kept, TextFrom, LiesAt;
    KeptWhole(sofar);
    CountedIsRead(data, cursor, chunk);
    ChunkKeeps(sofar, chunk);
    ChunkTurn(data, cursor, end, sofar, chunk);
  }

  lemma ChunkTurn(data: seq<byte>, cursor: nat, end: nat, text: Text, chunk: Chunk)
    requires cursor + 1 + |chunk| <= end <= |data| && |text| < MAX_TXT_BYTES
    requires data[cursor] == |chunk| && data[cursor + 1..cursor + 1 + |chunk|] == chunk
    ensures TextFrom(data, cursor, end, text) == TextFrom(data, cursor + 1 + |chunk|, end, AddChunk(text, chunk))
  {
    hide AddChunk;
  }

  lemma CutStringEnds(data: seq<byte>, cursor: nat, text: Text, cut: CutString)
    requires LiesAt(data, cursor, cut) && |text| <= MAX_TXT_BYTES
    ensures cursor + |cut| <= |data| && TextFrom(data, cursor, cursor + |cut|, text) == text
  {
    if cut != [] { assert data[cursor] == cut[0]; }
  }

  /** The text kept is the beginning of all the strings joined; a string cut short adds nothing. */
  lemma {:induction false} StringsAreRead(data: seq<byte>, cursor: nat, sofar: Text, chunks: seq<Chunk>, cut: CutString)
    requires LiesAt(data, cursor, ChunkBytes(chunks) + cut)
    ensures var end := cursor + |ChunkBytes(chunks)| + |cut|;
            end <= |data| && TextFrom(data, cursor, end, Kept(sofar)) == Kept(JoinStrings(sofar, chunks))
    decreases |chunks|
  {
    hide AddChunk, Kept, LiesAt, TextFrom;
    LiesWithin(data, cursor, ChunkBytes(chunks) + cut);
    var end := cursor + |ChunkBytes(chunks)| + |cut|;
    if chunks == [] {
      assert ChunkBytes(chunks) + cut == cut;
      CutStringEnds(data, cursor, Kept(sofar), cut);
    } else if |sofar| >= MAX_TXT_BYTES {
      FullStaysFull(sofar, chunks);
      KeptIsFull(sofar);
      FullIsLeft(data, cursor, end, Kept(sofar));
    } else {
      var first, rest := Counted(chunks[0]), ChunkBytes(chunks[1..]) + cut;
      assert ChunkBytes(chunks) + cut == first + rest;
      LiesAtSplit(data, cursor, first, rest);
      OneString(data, cursor, end, sofar, chunks[0]);
      StringsAreRead(data, cursor + 1 + |chunks[0]|, if sofar == [] then chunks[0] else sofar + [32] + chunks[0],
                     chunks[1..], cut);
    }
  }

  lemma FullIsLeft(data: seq<byte>, cursor: nat, end: nat, text: Text)
    requires cursor <= end <= |data| && |text| == MAX_TXT_BYTES
    ensures TextFrom(data, cursor, end, text) == text
  {
  }

  lemma KeptIsFull(text: Text)
    requires |text| >= MAX_TXT_BYTES
    ensures |Kept(text)| == MAX_TXT_BYTES
  {
  }

  lemma KeptWhole(text: Text)
    requires |text| <= MAX_TXT_BYTES
    ensures Kept(text) == text
  {
  }

  // ----- service parameters

  function ParamBytes(params: seq<Param>): seq<byte> {
    if params == [] then []
    else Word(params[0].key) + Word(|params[0].value|) + params[0].value + ParamBytes(params[1..])
  }

  predicate HasEch(params: seq<Param>) {
    exists i :: 0 <= i < |params| && params[i].key == 5 && params[i].value != []
  }

  lemma HasEchSplits(params: seq<Param>)
    requires params != []
    ensures HasEch(params) <==> (params[0].key == 5 && params[0].value != []) || HasEch(params[1..])
  {
    if HasEch(params[1..]) {
      var i :| 0 <= i < |params[1..]| && params[1..][i].key == 5 && params[1..][i].value != [];
      assert params[i + 1] == params[1..][i];
    }
    if HasEch(params) && !(params[0].key == 5 && params[0].value != []) {
      var i :| 0 <= i < |params| && params[i].key == 5 && params[i].value != [];
      assert params[1..][i - 1] == params[i];
    }
  }

  /** The parameters are read one by one, until they end or one is cut short. */
  lemma {:induction false} ParamsAreRead(data: seq<byte>, pos: nat, params: seq<Param>, cut: CutParam)
    requires LiesAt(data, pos, ParamBytes(params) + cut)
    ensures var end := pos + |ParamBytes(params)| + |cut|;
            end <= |data| && (EchFrom(data, pos, end) <==> HasEch(params))
    decreases |params|
  {
    if params == [] {
      assert ParamBytes(params) + cut == cut;
      if |cut| >= 4 { MovedU16(cut, data, pos, 2); }
    } else {
      var p := params[0];
      var rest := ParamBytes(params[1..]) + cut;
      assert ParamBytes(params) + cut == Word(p.key) + Word(|p.value|) + p.value + rest;
      LiesAtSplit(data, pos, Word(p.key) + Word(|p.value|) + p.value, rest);
      LiesAtSplit(data, pos, Word(p.key) + Word(|p.value|), p.value);
      LiesAtSplit(data, pos, Word(p.key), Word(|p.value|));
      WordIsRead(data, pos, p.key);
      WordIsRead(data, pos + 2, |p.value|);
      ParamsAreRead(data, pos + 4 + |p.value|, params[1..], cut);
      HasEchSplits(params);
    }
  }

  // ----- one record

  lemma NameIsRead(data: seq<byte>, at: nat, n: Name)
    requires NameLies(data, at, n)
    ensures NameAt(data, at) == Some(n.text) && WireEnd(data, at) == at + |n.wire| && |n.wire| > 0
  {
    assert NameAt(data, at) == Some(n.text);
  }

  lemma ServiceIsRead(data: seq<byte>, at: nat, owner: Text, d: Data)
    requires d.Service? && LiesAt(data, at, d.Bytes()) && d.TargetLies(data, at)
    ensures AnswerOf(data, owner, 33, at, at + |d.Bytes()|) == d.Answer(owner)
  {
    hide NameAt, NameLies, Decimal, WireEnd, LiesAt, U16, Spells10;
    SpellingIsUnique(Numeral(d.number), d.number);
    LiesAtSplit(data, at, Word(d.priority) + Word(d.weight) + Word(d.number), d.target.wire);
    LiesAtSplit(data, at, Word(d.priority) + Word(d.weight), Word(d.number));
    LiesAtSplit(data, at, Word(d.priority), Word(d.weight));
    WordIsRead(data, at, d.priority);
    WordIsRead(data, at + 4, d.number);
    NameIsRead(data, at + 6, d.target);
  }

  lemma BindingIsRead(data: seq<byte>, at: nat, owner: Text, d: Data)
    requires d.Binding? && LiesAt(data, at, d.Bytes()) && d.TargetLies(data, at)
    ensures AnswerOf(data, owner, d.Kind(), at, at + |d.Bytes()|) == d.Answer(owner)
    ensures Ech(data, at, at + |d.Bytes()|) <==> HasEch(d.params)
  {
    hide NameAt, NameLies, EchFrom, HasEch, WireEnd, LiesAt, U16;
    var params := ParamBytes(d.params) + d.last;
    LiesAtSplit(data, at, Word(d.priority) + d.target.wire, params);
    LiesAtSplit(data, at, Word(d.priority), d.target.wire);
    WordIsRead(data, at, d.priority);
    NameIsRead(data, at + 2, d.target);
    ParamsAreRead(data, at + 2 + |d.target.wire|, d.params, d.last);
  }

  /** A binding whose target is no name at all still counts, for its owner; one that needs its name does not. */
  lemma NamelessIsRead(data: seq<byte>, at: nat, owner: Text, d: Data)
    requires d.Nameless? && LiesAt(data, at, d.Bytes()) && d.TargetLies(data, at)
    ensures AnswerOf(data, owner, d.Kind(), at, at + |d.Bytes()|) == d.Answer(owner)
    ensures !Ech(data, at, at + |d.Bytes()|)
  {
    hide WireEnd, LiesAt, U16, Denotes;
    LiesWithin(data, at, d.Bytes());
    LiesAtSplit(data, at, Word(d.priority), d.rest);
    WordIsRead(data, at, d.priority);
  }

  lemma BrokenIsRead(data: seq<byte>, at: nat, owner: Text, d: Data)
    requires d.Broken? && d.Valid() && LiesAt(data, at, d.Bytes()) && d.TargetLies(data, at)
    ensures AnswerOf(data, owner, d.Kind(), at, at + |d.Bytes()|) == d.Answer(owner)
  {
    hide WireEnd, LiesAt, U16, Denotes, Decimal;
    LiesWithin(data, at, d.Bytes());
  }

  lemma DataIsRead(data: seq<byte>, at: nat, owner: Text, d: Data)
    requires d.Valid() && LiesAt(data, at, d.Bytes()) && d.TargetLies(data, at) && d.Class() == 1
    ensures AnswerOf(data, owner, d.Kind(), at, at + |d.Bytes()|) == d.Answer(owner)
    ensures EchOf(data, d.Kind(), at, at + |d.Bytes()|) <==> d.AdvertisesEch()
  {
    hide NameAt, NameLies, Ech, HasEch, WireEnd, TextFrom;
    match d
    case Service(_, _, _, _) => ServiceIsRead(data, at, owner, d);
    case Binding(_, _, _, _, _) => BindingIsRead(data, at, owner, d);
    case Nameless(_, _, _) => NamelessIsRead(data, at, owner, d);
    case Broken(_, _) => BrokenIsRead(data, at, owner, d);
    case Canonical(target) => NameIsRead(data, at, target);
    case Reverse(target) => NameIsRead(data, at, target);
    case Address4(b) => LiesAtSlice(data, at, b);
    case Address6(b) => LiesAtSlice(data, at, b);
    case Strings(chunks, cut) =>
      StringsAreRead(data, at, [], chunks, cut);
      KeptWhole([]);
    case Other(_, _, rest) => NoEchWithoutPriority(data, at, at + |rest|);
  }

  datatype RR = RR(owner: Name, flush: bool, ttl: Quad, data: Data) {
    predicate Fits() {
      data.Valid() && |data.Bytes()| < 0x1_0000
    }

    function Fixed(): seq<byte>
      requires Fits()
    {
      Word(data.Kind()) + Word(data.Class() + if flush then 0x8000 else 0) + ttl + Word(|data.Bytes()|)
    }

    function Bytes(): seq<byte>
      requires Fits()
    {
      owner.wire + Fixed() + data.Bytes()
    }

    ghost predicate NamesLie(message: seq<byte>, at: nat) {
      NameLies(message, at, owner) && data.TargetLies(message, at + |owner.wire| + 10)
    }

    /** The response once this record is taken in. */
    ghost function Added(r: Response): Response
      requires Fits()
    {
      if data.Class() != 1 then r
      else r.(answers := r.answers + data.Answer(owner.text), ech := r.ech || data.AdvertisesEch())
    }
  }

  type FittingRecord = r: RR | r.Fits() witness RR(Name([], []), false, [0, 0, 0, 0], Address4([0, 0, 0, 0]))

  lemma FixedIsRead(data: seq<byte>, at: nat, r: FittingRecord)
    requires LiesAt(data, at, r.Fixed())
    ensures U16(data, at) == r.data.Kind() && U16(data, at + 2) % 0x8000 == r.data.Class()
    ensures U16(data, at + 8) == |r.data.Bytes()|
  {
    hide Data.Bytes, Data.Kind;
    var rrClass := r.data.Class() + if r.flush then 0x8000 else 0;
    LiesAtSplit(data, at, Word(r.data.Kind()) + Word(rrClass) + r.ttl, Word(|r.data.Bytes()|));
    LiesAtSplit(data, at, Word(r.data.Kind()) + Word(rrClass), r.ttl);
    LiesAtSplit(data, at, Word(r.data.Kind()), Word(rrClass));
    WordIsRead(data, at, r.data.Kind());
    WordIsRead(data, at + 2, rrClass);
    WordIsRead(data, at + 8, |r.data.Bytes()|);
  }

  lemma RecordIsRead(data: seq<byte>, at: nat, r: FittingRecord, sofar: Response)
    requires LiesAt(data, at, r.Bytes()) && r.NamesLie(data, at)
    ensures FieldsAt(data, at) == Some(at + |r.owner.wire|)
    ensures U16(data, at + |r.owner.wire| + 8) == |r.data.Bytes()|
    ensures AfterRecord(data, at, sofar) == r.Added(sofar)
  {
    hide NameAt, NameLies, WireEnd, Data.Bytes, Data.Kind, Data.Class, Data.Answer, Data.AdvertisesEch, Data.TargetLies,
      AnswerOf, EchOf, U16;
    LiesAtSplit(data, at, r.owner.wire + r.Fixed(), r.data.Bytes());
    LiesAtSplit(data, at, r.owner.wire, r.Fixed());
    NameIsRead(data, at, r.owner);
    FixedIsRead(data, at + |r.owner.wire|, r);
    if r.data.Class() == 1 {
      DataIsRead(data, at + |r.owner.wire| + 10, r.owner.text, r.data);
    }
  }

  // ----- the message

  datatype Question = Question(name: Name, kind: word, rrClass: word) {
    function Bytes(): seq<byte> {
      name.wire + Word(kind) + Word(rrClass)
    }
  }

  function QuestionBytes(qs: seq<Question>): seq<byte> {
    if qs == [] then [] else qs[0].Bytes() + QuestionBytes(qs[1..])
  }

  function RecordBytes(rs: seq<FittingRecord>): seq<byte> {
    if rs == [] then [] else rs[0].Bytes() + RecordBytes(rs[1..])
  }

  ghost predicate QuestionsLie(data: seq<byte>, at: nat, qs: seq<Question>)
    decreases |qs|
  {
    qs != [] ==> NameLies(data, at, qs[0].name) && QuestionsLie(data, at + |qs[0].Bytes()|, qs[1..])
  }

  ghost predicate RecordsLie(data: seq<byte>, at: nat, rs: seq<FittingRecord>)
    decreases |rs|
  {
    rs != [] ==> rs[0].NamesLie(data, at) && RecordsLie(data, at + |rs[0].Bytes()|, rs[1..])
  }

  ghost function AllAdded(r: Response, rs: seq<FittingRecord>): Response
    decreases |rs|
  {
    if rs == [] then r else AllAdded(rs[0].Added(r), rs[1..])
  }

  function FirstName(qs: seq<Question>): Text {
    if qs == [] then [] else qs[0].name.text
  }

  lemma {:induction false} QuestionsAreRead(data: seq<byte>, at: nat, qs: seq<Question>)
    requires LiesAt(data, at, QuestionBytes(qs)) && QuestionsLie(data, at, qs)
    ensures Questions(data, at, |qs|) == Some(Asked(at + |QuestionBytes(qs)|, FirstName(qs)))
    decreases |qs|
  {
    hide NameAt, NameLies, WireEnd;
    if qs != [] {
      var q := qs[0];
      LiesAtSplit(data, at, q.Bytes(), QuestionBytes(qs[1..]));
      NameIsRead(data, at, q.name);
      QuestionsAreRead(data, at + |q.Bytes()|, qs[1..]);
    }
  }

  lemma {:induction false} RecordsAreRead(data: seq<byte>, at: nat, rs: seq<FittingRecord>, sofar: Response)
    requires LiesAt(data, at, RecordBytes(rs)) && RecordsLie(data, at, rs)
    ensures Answers(data, at, |rs|, sofar) == Some(AllAdded(sofar, rs))
    decreases |rs|
  {
    hide FieldsAt, AfterRecord, RR.NamesLie, RR.Added, RR.Bytes, Data.Bytes, U16, LiesAt;
    if rs != [] {
      LiesAtSplit(data, at, rs[0].Bytes(), RecordBytes(rs[1..]));
      RecordIsRead(data, at, rs[0], sofar);
      BytesOfRecord(rs[0]);
      RecordsAreRead(data, at + |rs[0].Bytes()|, rs[1..], rs[0].Added(sofar));
    }
  }

  lemma BytesOfRecord(r: FittingRecord)
    ensures |r.Bytes()| == |r.owner.wire| + 10 + |r.data.Bytes()|
  {
  }

  type QuestionList = qs: seq<Question> | |qs| < 0x1_0000
  type RecordList = rs: seq<FittingRecord> | |rs| < 0x1_0000

  /** The fixed header of section 4.1.1 of RFC 1035, with the response bit set. */
  function HeaderBytes(id: word, flags: word, qs: QuestionList, rs: RecordList, others: Quad): (h: seq<byte>)
    ensures |h| == 12
  {
    Word(id) + Word(flags) + Word(|qs|) + Word(|rs|) + others
  }

  lemma HeaderIsRead(data: seq<byte>, id: word, flags: word, qs: QuestionList, rs: RecordList, others: Quad)
    requires LiesAt(data, 0, HeaderBytes(id, flags, qs, rs, others))
    ensures U16(data, 2) == flags && U16(data, 4) == |qs| && U16(data, 6) == |rs|
  {
    LiesAtSplit(data, 0, Word(id) + Word(flags) + Word(|qs|) + Word(|rs|), others);
    LiesAtSplit(data, 0, Word(id) + Word(flags) + Word(|qs|), Word(|rs|));
    LiesAtSplit(data, 0, Word(id) + Word(flags), Word(|qs|));
    LiesAtSplit(data, 0, Word(id), Word(flags));
    WordIsRead(data, 2, flags);
    WordIsRead(data, 4, |qs|);
    WordIsRead(data, 6, |rs|);
  }

  /**
    A written message means its question and its records, in order, whatever
    pointers its names are compressed with and whatever follows its answers.
  */
  lemma MessageIsRead(data: seq<byte>, id: word, flags: word, qs: QuestionList, rs: RecordList, others: Quad)
    requires LiesAt(data, 0, HeaderBytes(id, flags, qs, rs, others) + QuestionBytes(qs) + RecordBytes(rs))
    requires QuestionsLie(data, 12, qs) && RecordsLie(data, 12 + |QuestionBytes(qs)|, rs)
    ensures Meaning(data)
            == if flags < 0x8000 then None else Some(AllAdded(Response(FirstName(qs), [], false), rs))
  {
    hide HeaderBytes, Questions, Answers, QuestionsLie, RecordsLie, AllAdded;
    var header := HeaderBytes(id, flags, qs, rs, others);
    LiesAtSplit(data, 0, header + QuestionBytes(qs), RecordBytes(rs));
    LiesAtSplit(data, 0, header, QuestionBytes(qs));
    HeaderIsRead(data, id, flags, qs, rs, others);
    QuestionsAreRead(data, 12, qs);
    RecordsAreRead(data, 12 + |QuestionBytes(qs)|, rs, Response(FirstName(qs), [], false));
  }

  // ----- a response as the tests build it

  lemma PlainLies(data: seq<byte>, at: nat, labels: seq<LabelText>)
    requires LiesAt(data, at, Written(Join(labels)).wire)
    ensures NameLies(data, at, Written(Join(labels)))
  {
    RoundTrip(data, at, labels);
  }

  ghost function BuiltQuestion(name: Text): Question {
    Question(Written(name), 1, 1)
  }

  /** The address as far as its 16-bit length field reaches. */
  function Reached(address: seq<byte>): Value {
    address[..|address| % 0x1_0000]
  }

  ghost function BuiltRecord(name: Text, address: seq<byte>): (r: FittingRecord)
    ensures |r.data.Bytes()| == |address| % 0x1_0000
  {
    var data := if |Reached(address)| == 4 then Address4(Reached(address)) else Other(1, 1, Reached(address));
    RR(Written(name), false, [0, 0, 0, 60], data)
  }

  /** The name field appendDnsName writes for this text. */
  ghost function Written(name: Text): Name {
    Name(WireForm(name, 0) + [0], name)
  }

  /** The response that the tests build for a name and an address, whatever they are. */
  ghost function BuiltResponse(name: Text, address: seq<byte>): seq<byte> {
    HeaderBytes(0x1234, 0x8180, [BuiltQuestion(name)], [BuiltRecord(name, address)], Word(0) + Word(0))
    + BuiltQuestion(name).Bytes() + BuiltRecord(name, address).Bytes() + address[|address| % 0x1_0000..]
  }

  /** The header of a response with one question and one answer. */
  method MakeHeader(ghost q: Question, ghost r: FittingRecord) returns (dns: seq<byte>)
    ensures dns == HeaderBytes(0x1234, 0x8180, [q], [r], Word(0) + Word(0))
  {
    dns := [];
    dns := AppendU16(dns, 0x1234);
    dns := AppendU16(dns, 0x8180);
    dns := AppendU16(dns, 1);
    dns := AppendU16(dns, 1);
    dns := AppendU16(dns, 0);
    dns := AppendU16(dns, 0);
  }

  method AppendQuestion(dns: seq<byte>, name: Text) returns (longer: seq<byte>)
    ensures longer == dns + BuiltQuestion(name).Bytes()
  {
    hide WireForm;
    longer := AppendDnsName(dns, name);
    longer := AppendU16(longer, 1);
    longer := AppendU16(longer, 1);
  }

  method AppendAnswer(dns: seq<byte>, name: Text, address: seq<byte>) returns (longer: seq<byte>)
    ensures longer == dns + BuiltRecord(name, address).Bytes() + address[|address| % 0x1_0000..]
  {
    hide WireForm, RR.Bytes;
    longer := AppendDnsName(dns, name);
    longer := AppendU16(longer, 1);
    longer := AppendU16(longer, 1);
    longer := longer + [0, 0, 0, 60];
    longer := AppendU16(longer, |address| % 0x1_0000);
    ghost var fixed := longer;
    longer := longer + address;
    ghost var reached, rest := Reached(address), address[|address| % 0x1_0000..];
    BuiltRecordBytes(name, address);
    assert fixed + reached == dns + BuiltRecord(name, address).Bytes();
    Regroup(fixed, reached, rest, address);
  }

  /**
    One question for a name and one A record with its address. A name spelled from
    labels comes back, and so does an address of 4 bytes; any other address is passed over.
  */
  method MakeDnsResponse(name: Text, address: seq<byte>) returns (dns: seq<byte>)
    ensures dns == BuiltResponse(name, address)
    ensures forall labels: seq<LabelText> :: Join(labels) == name ==>
              Meaning(dns) == Some(Response(name, AnswerFor(name, Reached(address)), false))
  {
    hide Meaning, WireForm, Join, HeaderBytes, AnswerFor, RR.Bytes, Question.Bytes;
    dns := MakeHeader(BuiltQuestion(name), BuiltRecord(name, address));
    dns := AppendQuestion(dns, name);
    dns := AppendAnswer(dns, name, address);
    BuiltMeans(name, address);
  }

  function AnswerFor(name: Text, address: seq<byte>): seq<Record> {
    if |address| == 4 then [Record(A, name, [4] + address, 0)] else []
  }

  lemma OneQuestionLies(dns: seq<byte>, at: nat, labels: seq<LabelText>, q: Question)
    requires q.name == Written(Join(labels)) && LiesAt(dns, at, q.Bytes())
    ensures QuestionsLie(dns, at, [q]) && QuestionBytes([q]) == q.Bytes()
  {
    hide Written, NameLies;
    assert q.Bytes() == q.name.wire + (Word(q.kind) + Word(q.rrClass));
    LiesAtSplit(dns, at, q.name.wire, Word(q.kind) + Word(q.rrClass));
    PlainLies(dns, at, labels);
    assert QuestionBytes([q]) == q.Bytes() + [];
  }

  lemma OneRecordLies(dns: seq<byte>, at: nat, labels: seq<LabelText>, r: FittingRecord)
    requires r.owner == Written(Join(labels)) && (r.data.Address4? || r.data.Other?) && LiesAt(dns, at, r.Bytes())
    ensures RecordsLie(dns, at, [r]) && RecordBytes([r]) == r.Bytes()
  {
    hide Written, NameLies, RR.Fixed, Data.Bytes;
    assert r.Bytes() == r.owner.wire + (r.Fixed() + r.data.Bytes());
    LiesAtSplit(dns, at, r.owner.wire, r.Fixed() + r.data.Bytes());
    PlainLies(dns, at, labels);
    assert RecordBytes([r]) == r.Bytes() + [];
  }

  lemma BuiltIsRead(labels: seq<LabelText>, address: seq<byte>)
    ensures Meaning(BuiltResponse(Join(labels), address))
            == Some(Response(Join(labels), AnswerFor(Join(labels), Reached(address)), false))
  {
    hide Meaning, WireForm, Join, HeaderBytes, QuestionsLie, RecordsLie, QuestionBytes, RecordBytes, Question.Bytes,
      RR.Bytes, AllAdded, AnswerFor, Reached;
    var name := Join(labels);
    var dns := BuiltResponse(name, address);
    var q, r := BuiltQuestion(name), BuiltRecord(name, address);
    var header := HeaderBytes(0x1234, 0x8180, [q], [r], Word(0) + Word(0));
    LiesAtSplit(dns, 0, header + q.Bytes() + r.Bytes(), address[|address| % 0x1_0000..]);
    LiesAtSplit(dns, 0, header + q.Bytes(), r.Bytes());
    LiesAtSplit(dns, 0, header, q.Bytes());
    OneQuestionLies(dns, 12, labels, q);
    OneRecordLies(dns, 12 + |q.Bytes()|, labels, r);
    MessageIsRead(dns, 0x1234, 0x8180, [q], [r], Word(0) + Word(0));
    OneAdded(name, address, r);
  }

  lemma BuiltRecordBytes(name: Text, address: seq<byte>)
    ensures BuiltRecord(name, address).Bytes()
            == Written(name).wire + Word(1) + Word(1) + [0, 0, 0, 60] + Word(|address| % 0x1_0000) + Reached(address)
  {
    hide WireForm;
  }

  lemma BuiltMeans(name: Text, address: seq<byte>)
    ensures forall labels: seq<LabelText> :: Join(labels) == name ==>
              Meaning(BuiltResponse(name, address)) == Some(Response(name, AnswerFor(name, Reached(address)), false))
  {
    hide Meaning, Join, AnswerFor, Reached, BuiltResponse;
    forall labels: seq<LabelText> | Join(labels) == name
      ensures Meaning(BuiltResponse(name, address)) == Some(Response(name, AnswerFor(name, Reached(address)), false))
    {
      BuiltIsRead(labels, address);
    }
  }

  lemma OneAdded(name: Text, address: seq<byte>, r: FittingRecord)
    requires r == BuiltRecord(name, address)
    ensures AllAdded(Response(name, [], false), [r]) == Response(name, AnswerFor(name, Reached(address)), false)
  {
    hide WireForm;
    assert [] + r.data.Answer(name) == AnswerFor(name, Reached(address));
    assert AllAdded(Response(name, [], false), [r]) == r.Added(Response(name, [], false));
  }
}
