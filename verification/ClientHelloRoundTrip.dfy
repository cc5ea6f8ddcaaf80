/**
  Writing a ClientHello and reading its server name back. The writer is as free
  as the format: any session id, cipher suites, compression methods and other
  extensions. makeTlsClientHello (tests/PacketBuilders.hpp) is one instance.
*/
module ClientHelloRoundTrip {
  import opened Bytes
  import opened ClientHello
  import opened ClientHelloFacts

  type Bytes8 = s: seq<byte> | |s| < 0x100
  type Bytes16 = s: seq<byte> | |s| < 0x1_0000

  function Field8(content: Bytes8): seq<byte> { [|content|] + content }

  function Field16(content: Bytes16): seq<byte> { Word(|content|) + content }

  datatype Ext = Ext(kind: nat, data: Bytes16)

  /** Extensions other than server_name. */
  type OtherExt = e: Ext | 0 < e.kind < 0x1_0000 witness Ext(1, [])

  function ExtBytes(kind: nat, data: Bytes16): seq<byte>
    requires kind < 0x1_0000
  {
    Word(kind) + Field16(data)
  }

  function OtherBytes(exts: seq<OtherExt>): seq<byte> {
    if exts == [] then [] else ExtBytes(exts[0].kind, exts[0].data) + OtherBytes(exts[1..])
  }

  /** A name list whose first entry is the host name; `more` are its other entries. */
  function HostList(name: Bytes16, more: seq<byte>): (list: seq<byte>)
    ensures |list| == 3 + |name| + |more|
  {
    [0] + Field16(name) + more
  }

  function HelloBody(fixed: seq<byte>, session: Bytes8, suites: Bytes16, compression: Bytes8, extensions: Bytes16)
    : (body: seq<byte>)
    ensures |body| == |fixed| + 6 + |session| + |suites| + |compression| + |extensions|
  {
    fixed + Field8(session) + Field16(suites) + Field8(compression) + Field16(extensions)
  }

  // ----- fields under the cursor

  lemma SkipField8(s: seq<byte>, pos: nat, content: Bytes8, end: nat)
    requires LiesAt(s, pos, Field8(content)) && pos + 1 + |content| <= end <= |s|
    ensures Skip8(s, pos, end) == Some(pos + 1 + |content|)
  {
    assert s[pos] == Field8(content)[0];
  }

  lemma SkipField16(s: seq<byte>, pos: nat, content: Bytes16, end: nat)
    requires LiesAt(s, pos, Field16(content)) && pos + 2 + |content| <= end <= |s|
    ensures Skip16(s, pos, end) == Some(pos + 2 + |content|)
    ensures LiesAt(s, pos + 2, content) && U16(s, pos) == |content|
  {
    LiesAtSplit(s, pos, Word(|content|), content);
    WordIsRead(s, pos, |content|);
  }

  // ----- extensions

  /** Both walks step over any extension that is not server_name. */
  lemma StepOver(s: seq<byte>, pos: nat, e: OtherExt, end: nat)
    requires LiesAt(s, pos, ExtBytes(e.kind, e.data)) && pos + 4 + |e.data| <= end <= |s|
    ensures QuicWalk(s, pos, end) == QuicWalk(s, pos + 4 + |e.data|, end)
    ensures TlsWalk(s, pos, end) == TlsWalk(s, pos + 4 + |e.data|, end)
  {
    hide QuicName, TlsName;
    LiesAtSplit(s, pos, Word(e.kind), Field16(e.data));
    WordIsRead(s, pos, e.kind);
    SkipField16(s, pos + 2, e.data, end);
  }

  lemma {:induction false} StepOverAll(s: seq<byte>, pos: nat, exts: seq<OtherExt>, end: nat)
    requires LiesAt(s, pos, OtherBytes(exts)) && pos + |OtherBytes(exts)| <= end <= |s|
    ensures QuicWalk(s, pos, end) == QuicWalk(s, pos + |OtherBytes(exts)|, end)
    ensures TlsWalk(s, pos, end) == TlsWalk(s, pos + |OtherBytes(exts)|, end)
    decreases |exts|
  {
    hide QuicWalk, TlsWalk;
    if exts != [] {
      var first := ExtBytes(exts[0].kind, exts[0].data);
      LiesAtSplit(s, pos, first, OtherBytes(exts[1..]));
      StepOver(s, pos, exts[0], end);
      StepOverAll(s, pos + |first|, exts[1..], end);
    }
  }

  lemma HostListIsRead(s: seq<byte>, pos: nat, name: Bytes16, more: seq<byte>)
    requires LiesAt(s, pos, HostList(name, more)) && pos + |HostList(name, more)| <= |s|
    ensures var end := pos + |HostList(name, more)|;
            NameList(s, pos, end) == Some(name)
            && s[pos] == 0 && U16(s, pos + 1) == |name| && s[pos + 3..pos + 3 + |name|] == name
  {
    hide NameList, Skip16, Field16, LiesAt;
    var end := pos + |HostList(name, more)|;
    LiesAtSplit(s, pos, [0] + Field16(name), more);
    LiesAtSplit(s, pos, [0], Field16(name));
    ByteIsRead(s, pos, 0);
    SkipField16(s, pos + 1, name, end);
    LiesAtSlice(s, pos + 3, name);
    FirstHostName(s, pos, end, pos + 3 + |name|);
  }

  lemma ByteIsRead(s: seq<byte>, at: nat, b: byte)
    requires LiesAt(s, at, [b])
    ensures at < |s| && s[at] == b
  {
    assert s[at] == [b][0];
  }

  lemma FirstHostName(s: seq<byte>, pos: nat, end: nat, next: nat)
    requires pos + 3 <= next <= end <= |s| && s[pos] == 0 && Skip16(s, pos + 1, end) == Some(next)
    ensures NameList(s, pos, end) == Some(s[pos + 3..next])
  {
    hide Skip16;
  }

  lemma ServerNameIsRead(s: seq<byte>, pos: nat, name: Bytes16, more: seq<byte>)
    requires |HostList(name, more)| < 0x1_0000 && LiesAt(s, pos, Field16(HostList(name, more)))
    ensures var next := pos + 2 + |HostList(name, more)|;
            QuicName(s, pos, next) == Some(name) && TlsName(s, pos, next) == Some(name)
  {
    hide NameList;
    var list: Bytes16 := HostList(name, more);
    SkipField16(s, pos, list, pos + 2 + |list|);
    HostListIsRead(s, pos + 2, name, more);
  }

  /** Other extensions, then a server_name extension, then anything at all. */
  lemma BlockIsRead(s: seq<byte>, pos: nat, before: seq<OtherExt>, name: Bytes16, more: seq<byte>, end: nat)
    requires |HostList(name, more)| + 2 < 0x1_0000
    requires LiesAt(s, pos, OtherBytes(before) + ExtBytes(0, Field16(HostList(name, more))))
    requires pos + |OtherBytes(before)| + 6 + |HostList(name, more)| <= end <= |s|
    ensures QuicWalk(s, pos, end) == Some(name) && TlsWalk(s, pos, end) == Some(name)
  {
    hide QuicName, TlsName;
    var data: Bytes16 := Field16(HostList(name, more));
    var at := pos + |OtherBytes(before)|;
    LiesAtSplit(s, pos, OtherBytes(before), ExtBytes(0, data));
    StepOverAll(s, pos, before, end);
    LiesAtSplit(s, at, Word(0), Field16(data));
    WordIsRead(s, at, 0);
    SkipField16(s, at + 2, data, end);
    ServerNameIsRead(s, at + 4, name, more);
  }

  /** The fixed fields of a written body are stepped over exactly. */
  lemma BodyIsRead(s: seq<byte>, start: nat, fixed: seq<byte>, session: Bytes8, suites: Bytes16,
                   compression: Bytes8, extensions: Bytes16, end: nat)
    requires |fixed| == 34
    requires LiesAt(s, start, HelloBody(fixed, session, suites, compression, extensions))
    requires start + |HelloBody(fixed, session, suites, compression, extensions)| <= end <= |s|
    ensures var stop := start + |HelloBody(fixed, session, suites, compression, extensions)|;
            Extensions(s, start, end) == Some(Window(stop - |extensions|, stop))
            && LiesAt(s, stop - |extensions|, extensions)
  {
    hide Skip8, Skip16;
    var a := fixed + Field8(session);
    var b := a + Field16(suites);
    var c := b + Field8(compression);
    LiesAtSplit(s, start, c, Field16(extensions));
    LiesAtSplit(s, start, b, Field8(compression));
    LiesAtSplit(s, start, a, Field16(suites));
    LiesAtSplit(s, start, fixed, Field8(session));
    SkipField8(s, start + 34, session, end);
    SkipField16(s, start + |a|, suites, end);
    SkipField8(s, start + |b|, compression, end);
    SkipField16(s, start + |c|, extensions, end);
  }

  /** The four bytes that open a handshake message of type ClientHello. */
  function HelloHeader(length: nat): (h: seq<byte>)
    requires length < 0x100_0000
    ensures |h| == 4
  {
    [1, length / 65536, length / 256 % 256, length % 256]
  }

  lemma HeaderIsRead(message: seq<byte>, length: nat)
    requires length < 0x100_0000 && |message| == 4 + length && LiesAt(message, 0, HelloHeader(length))
    ensures CompleteAt(message, 0, |message|) && DeclaredLength(message) == |message|
  {
    var h := HelloHeader(length);
    assert message[0] == h[0] && message[1] == h[1] && message[2] == h[2] && message[3] == h[3];
  }

  /**
    Both parsers read back the name of any written ClientHello: the QUIC parser
    from the bare message, the TLS parser from the message in a record.
  */
  lemma RoundTrip(fixed: seq<byte>, session: Bytes8, suites: Bytes16, compression: Bytes8,
                  before: seq<OtherExt>, name: Bytes16, more: seq<byte>, after: seq<byte>, minor: byte)
    requires |fixed| == 34 && minor <= 4
    requires |HostList(name, more)| + 2 < 0x1_0000
    requires |OtherBytes(before) + ExtBytes(0, Field16(HostList(name, more))) + after| < 0x1_0000
    ensures var extensions: Bytes16 := OtherBytes(before) + ExtBytes(0, Field16(HostList(name, more))) + after;
            var body := HelloBody(fixed, session, suites, compression, extensions);
            var message := HelloHeader(|body|) + body;
            QuicSni(message) == Some(name)
            && (|message| < 0x1_0000 ==> TlsSni(InRecord(minor, message)) == Some(name))
  {
    hide QuicWalk, TlsWalk, HelloBlock, OtherBytes, HelloBody;
    var opening := OtherBytes(before) + ExtBytes(0, Field16(HostList(name, more)));
    var extensions: Bytes16 := opening + after;
    var body := HelloBody(fixed, session, suites, compression, extensions);
    MessageIsRead(HelloHeader(|body|) + body, fixed, session, suites, compression, extensions);
    var message := HelloHeader(|body|) + body;
    var start := |message| - |extensions|;
    LiesAtSplit(message, start, opening, after);
    BlockIsRead(message, start, before, name, more, |message|);
    if |message| < 0x1_0000 {
      InRecordLies(minor, message);
      TlsSniOfRecord(InRecord(minor, message), message);
    }
  }

  lemma MessageIsRead(message: seq<byte>, fixed: seq<byte>, session: Bytes8, suites: Bytes16,
                      compression: Bytes8, extensions: Bytes16)
    requires |fixed| == 34
    requires message == HelloHeader(|HelloBody(fixed, session, suites, compression, extensions)|)
                        + HelloBody(fixed, session, suites, compression, extensions)
    ensures HelloBlock(message, 0, |message|) == Some(Window(|message| - |extensions|, |message|))
    ensures LiesAt(message, |message| - |extensions|, extensions)
  {
    hide Extensions;
    var body := HelloBody(fixed, session, suites, compression, extensions);
    assert LiesAt(message, 0, message);
    LiesAtSplit(message, 0, HelloHeader(|body|), body);
    HeaderIsRead(message, |body|);
    BodyIsRead(message, 4, fixed, session, suites, compression, extensions, |message|);
  }

  // ----- the packet builder's ClientHello

  /** A 16-bit field as the builder writes it: a longer length wraps. */
  function Wrapped(n: nat): seq<byte> { Word(n % 0x1_0000) }

  /** What comes before the extensions. */
  function Opening(): (o: seq<byte>)
    ensures |o| == 41
  {
    [3, 3] + Zeros(32) + [0] + Word(2) + Word(0x1301) + [1, 0]
  }

  function BuiltExtensions(hostname: Text): (e: seq<byte>)
    ensures |e| == 9 + |hostname|
  {
    var n := |hostname|;
    Word(0) + Wrapped(5 + n) + Wrapped(3 + n) + [0] + Wrapped(n) + hostname
  }

  function BuiltBody(hostname: Text): (body: seq<byte>)
    ensures |body| == 52 + |hostname|
  {
    Opening() + Wrapped(9 + |hostname|) + BuiltExtensions(hostname)
  }

  /** The handshake message the packet builder writes for any hostname. */
  function BuiltMessage(hostname: Text): (message: seq<byte>)
    ensures |message| == 56 + |hostname|
  {
    var n := |BuiltBody(hostname)|;
    [1, n / 65536 % 256, n / 256 % 256, n % 256] + BuiltBody(hostname)
  }

  function BuiltRecord(hostname: Text): (record: seq<byte>)
    ensures |record| == 61 + |hostname|
  {
    [0x16, 3, 1] + Wrapped(4 + |BuiltBody(hostname)|) + BuiltMessage(hostname)
  }

  method MakeTlsClientHello(hostname: Text) returns (record: seq<byte>)
    ensures record == BuiltRecord(hostname)
    ensures TlsSni(record) == Some(hostname) <==> |hostname| <= 65479
  {
    hide TlsSni, Word;
    var body := [3, 3];
    body := body + Zeros(32);
    body := body + [0];
    body := AppendU16(body, 2);
    body := AppendU16(body, 0x1301);
    body := body + [1, 0];
    assert body == Opening();

    var extensions := [];
    extensions := AppendU16(extensions, 0x0000);
    assert extensions == Word(0);
    extensions := AppendU16(extensions, (5 + |hostname|) % 0x1_0000);
    extensions := AppendU16(extensions, (3 + |hostname|) % 0x1_0000);
    extensions := extensions + [0];
    extensions := AppendU16(extensions, |hostname| % 0x1_0000);
    extensions := extensions + hostname;
    assert extensions == BuiltExtensions(hostname);
    body := AppendU16(body, |extensions| % 0x1_0000);
    body := body + extensions;

    record := [0x16, 3, 1];
    record := AppendU16(record, (4 + |body|) % 0x1_0000);
    FourBytesThen(record, 1, |body| / 65536 % 256, |body| / 256 % 256, |body| % 256, body);
    record := record + [1];
    record := record + [|body| / 65536 % 256];
    record := record + [|body| / 256 % 256];
    record := record + [|body| % 256];
    record := record + body;
    BuiltRecordIsRead(hostname);
  }

  lemma FourBytesThen(s: seq<byte>, a: byte, b: byte, c: byte, d: byte, rest: seq<byte>)
    ensures s + [a] + [b] + [c] + [d] + rest == s + ([a, b, c, d] + rest)
  {
  }

  lemma Nest(a: seq<byte>, b: seq<byte>, c: seq<byte>, d: seq<byte>, e: seq<byte>, f: seq<byte>)
    ensures a + b + c + d + e + f == a + (b + (c + (d + (e + f) + [])))
  {
  }

  lemma ExtensionsAreWritten(hostname: Text)
    requires |hostname| <= 65526
    ensures |Field16(HostList(hostname, []))| == 5 + |hostname|
    ensures BuiltExtensions(hostname) == ExtBytes(0, Field16(HostList(hostname, [])))
  {
    hide Word, Wrapped;
    var n := |hostname|;
    WrappedIs(5 + n);
    WrappedIs(3 + n);
    WrappedIs(n);
    Nest(Word(0), Word(5 + n), Word(3 + n), [0], Word(n), hostname);
    var list: Bytes16 := [0] + (Word(n) + hostname) + [];
    assert HostList(hostname, []) == list;
    var data: Bytes16 := Word(3 + n) + list;
    assert Field16(list) == data;
  }

  lemma WrappedIs(n: nat)
    requires n < 0x1_0000
    ensures Wrapped(n) == Word(n)
  {
  }

  /** As long as the lengths fit their fields, the builder writes what the general writer does. */
  lemma BuiltIsWritten(hostname: Text)
    requires |hostname| <= 65526
    ensures |Field16(HostList(hostname, []))| < 0x1_0000
    ensures |ExtBytes(0, Field16(HostList(hostname, [])))| < 0x1_0000
    ensures BuiltMessage(hostname) == Hello(ExtBytes(0, Field16(HostList(hostname, []))))
  {
    hide Word, Wrapped, Opening, ExtBytes, BuiltExtensions, Hello, HostList;
    ExtensionsAreWritten(hostname);
    WrappedIs(9 + |hostname|);
    var e: Bytes16 := ExtBytes(0, Field16(HostList(hostname, [])));
    HelloIs(e);
    Regroup(Opening(), Word(9 + |hostname|), e, Field16(e));
  }

  /** A ClientHello with these extensions and the builder's other fields. */
  function Hello(extensions: Bytes16): (message: seq<byte>)
    ensures |message| == 47 + |extensions|
  {
    var body := HelloBody([3, 3] + Zeros(32), [], [0x13, 0x01], [0], extensions);
    HelloHeader(|body|) + body
  }

  lemma HelloIs(extensions: Bytes16)
    ensures Hello(extensions) == HelloHeader(43 + |extensions|) + (Opening() + Field16(extensions))
  {
    assert Field8([]) == [0] && Field8([0]) == [1, 0];
    assert Field16([0x13, 0x01]) == Word(2) + Word(0x1301);
    assert HelloBody([3, 3] + Zeros(32), [], [0x13, 0x01], [0], extensions) == Opening() + Field16(extensions);
  }

  /** The builder's message gives its name to the QUIC parser exactly when its length fields can hold the name. */
  lemma BuiltMessageIsRead(hostname: Text)
    ensures QuicSni(BuiltMessage(hostname)) == Some(hostname) <==> |hostname| <= 65526
  {
    hide QuicSni, TlsSni, BuiltMessage, Hello, ExtBytes;
    if |hostname| <= 65526 {
      BuiltIsWritten(hostname);
      HelloIsRead(hostname);
    } else if |hostname| < 0x1_0000 {
      TooLongForExtensions(hostname);
    } else {
      NamesAreShort(BuiltMessage(hostname));
    }
  }

  /** The TLS parser wants the record's length to fit as well. */
  lemma BuiltRecordIsRead(hostname: Text)
    ensures TlsSni(BuiltRecord(hostname)) == Some(hostname) <==> |hostname| <= 65479
  {
    hide QuicSni, TlsSni, BuiltMessage, BuiltRecord, Hello, ExtBytes;
    if |hostname| <= 65479 {
      BuiltIsWritten(hostname);
      HelloIsRead(hostname);
      RecordIsWritten(hostname);
    } else if |hostname| < 0x1_0000 {
      TooLongForRecord(hostname);
    } else {
      NamesAreShort(BuiltRecord(hostname));
    }
  }

  lemma RecordIsWritten(hostname: Text)
    requires |hostname| <= 65479
    ensures BuiltRecord(hostname) == InRecord(1, BuiltMessage(hostname))
  {
    hide BuiltMessage, Wrapped, BuiltBody;
    WrappedIs(56 + |hostname|);
    assert [0x16, 3, 1] + Word(56 + |hostname|) == [0x16, 3, 1, (56 + |hostname|) / 256, (56 + |hostname|) % 256];
  }

  lemma HelloIsRead(hostname: Text)
    requires |hostname| <= 65526
    ensures var message := Hello(ExtBytes(0, Field16(HostList(hostname, []))));
            QuicSni(message) == Some(hostname)
            && (|message| < 0x1_0000 ==> TlsSni(InRecord(1, message)) == Some(hostname))
  {
    hide QuicSni, TlsSni, HelloBody;
    var written := ExtBytes(0, Field16(HostList(hostname, [])));
    assert OtherBytes([]) + written + [] == written;
    RoundTrip([3, 3] + Zeros(32), [], [0x13, 0x01], [0], [], hostname, [], [], 1);
  }

  /** The record's length field has wrapped: the message seems cut short. */
  lemma TooLongForRecord(hostname: Text)
    requires 65479 < |hostname| < 0x1_0000
    ensures TlsSni(BuiltRecord(hostname)).None?
  {
    hide Extensions, BuiltBody;
    var record, n := BuiltRecord(hostname), |hostname|;
    var front := [0x16, 3, 1] + Wrapped(56 + n) + [1, (52 + n) / 65536 % 256, (52 + n) / 256 % 256, (52 + n) % 256];
    assert record == front + BuiltBody(hostname);
    assert record[3] == front[3] && record[4] == front[4];
    assert record[6] == front[6] && record[7] == front[7] && record[8] == front[8];
    assert U16(record, 3) == 56 + n - 0x1_0000;
    assert U24(record, 6) == 52 + n;
  }

  /** The block's length field has wrapped: at most 8 bytes of it are walked, with an empty or short extension. */
  lemma TooLongForExtensions(hostname: Text)
    requires 65526 < |hostname| < 0x1_0000
    ensures QuicSni(BuiltMessage(hostname)).None?
  {
    hide QuicWalk, BuiltMessage, HelloBlock;
    var m, end := BuiltMessage(hostname), |hostname| + 56 - 0x1_0000;
    FrontIsRead(hostname);
    ShortBlock(m, 52 + |hostname|, end - 47);
    ShortWalk(m, 47, end, (5 + |hostname|) % 0x1_0000);
  }

  /** The fields in front of the first extension's content, whether their lengths have wrapped or not. */
  lemma FrontIsRead(hostname: Text)
    requires 65526 < |hostname| < 0x1_0000
    ensures var m, n := BuiltMessage(hostname), |hostname|;
            && m[0] == 1 && U24(m, 1) == 52 + n
            && m[38] == 0 && U16(m, 39) == 2 && m[43] == 1 && U16(m, 45) == (9 + n) % 0x1_0000
            && U16(m, 49) == (5 + n) % 0x1_0000
  {
    hide Wrapped, Word, Opening, BuiltExtensions, LiesAt, U16;
    var m, n := BuiltMessage(hostname), |hostname|;
    var four: seq<byte> := [1, (52 + n) / 65536 % 256, (52 + n) / 256 % 256, (52 + n) % 256];
    LiesAtSlice(m, 0, m);
    LiesAtSplit(m, 0, four, BuiltBody(hostname));
    LiesAtSplit(m, 4, Opening() + Wrapped(9 + n), BuiltExtensions(hostname));
    LiesAtSplit(m, 4, Opening(), Wrapped(9 + n));
    OpeningBytes();
    MovedU16(Opening(), m, 4, 34);
    MovedU16(Opening(), m, 4, 35);
    MovedU16(Opening(), m, 4, 39);
    WrappedIsRead(m, 45, 9 + n);
    SecondField(m, 47, hostname);
  }

  lemma SecondField(m: seq<byte>, at: nat, hostname: Text)
    requires LiesAt(m, at, BuiltExtensions(hostname))
    ensures at + 4 <= |m| && U16(m, at + 2) == (5 + |hostname|) % 0x1_0000
  {
    hide Wrapped, Word, LiesAt, U16;
    var n := |hostname|;
    LiesAtSplit(m, at, Word(0) + Wrapped(5 + n) + Wrapped(3 + n) + [0] + Wrapped(n), hostname);
    LiesAtSplit(m, at, Word(0) + Wrapped(5 + n) + Wrapped(3 + n) + [0], Wrapped(n));
    var zero: seq<byte> := [0];
    LiesAtSplit(m, at, Word(0) + Wrapped(5 + n) + Wrapped(3 + n), zero);
    LiesAtSplit(m, at, Word(0) + Wrapped(5 + n), Wrapped(3 + n));
    LiesAtSplit(m, at, Word(0), Wrapped(5 + n));
    WrappedIsRead(m, at + 2, 5 + n);
  }

  lemma WrappedIsRead(s: seq<byte>, at: nat, n: nat)
    requires LiesAt(s, at, Wrapped(n))
    ensures at + 2 <= |s| && U16(s, at) == n % 0x1_0000
  {
    WordIsRead(s, at, n % 0x1_0000);
  }

  lemma OpeningBytes()
    ensures Opening()[34] == 0 && U16(Opening(), 35) == 2 && Opening()[39] == 1
  {
  }

  lemma ShortBlock(m: seq<byte>, body: nat, declared: nat)
    requires |m| == 4 + body && m[0] == 1 && U24(m, 1) == body && declared + 43 <= body
    requires m[38] == 0 && U16(m, 39) == 2 && m[43] == 1 && U16(m, 45) == declared
    ensures HelloBlock(m, 0, |m|) == Some(Window(47, 47 + declared))
  {
    hide U16, U24;
  }

  lemma ShortWalk(m: seq<byte>, pos: nat, end: nat, length: nat)
    requires pos <= end <= pos + 8 && pos + 4 <= |m| && end <= |m| && U16(m, pos + 2) == length
    ensures QuicWalk(m, pos, end).None?
  {
    if end - pos >= 4 && length <= end - pos - 4 {
      assert QuicName(m, pos + 4, pos + 4 + length).None?;
      assert QuicWalk(m, pos, end) == QuicWalk(m, pos + 4 + length, end);
    }
  }

  /** No name is longer than its 16-bit length field says. */
  lemma NamesAreShort(s: seq<byte>)
    ensures QuicSni(s).Some? ==> |QuicSni(s).value| < 0x1_0000
    ensures TlsSni(s).Some? ==> |TlsSni(s).value| < 0x1_0000
  {
    hide HelloBlock, QuicWalk, TlsWalk;
    var quic := HelloBlock(s, 0, |s|);
    if quic.Some? { QuicNamesAreShort(s, quic.value.start, quic.value.end); }
    if LooksLikeTlsHandshake(s) && RecordLength(s) <= |s| {
      var tls := HelloBlock(s, 5, RecordLength(s));
      if tls.Some? { TlsNamesAreShort(s, tls.value.start, tls.value.end); }
    }
  }

  lemma {:induction false} QuicNamesAreShort(s: seq<byte>, pos: nat, end: nat)
    requires pos <= end <= |s|
    ensures QuicWalk(s, pos, end).Some? ==> |QuicWalk(s, pos, end).value| < 0x1_0000
    decreases end - pos
  {
    hide U16;
    if end - pos >= 4 && Skip16(s, pos + 2, end).Some? {
      QuicNamesAreShort(s, Skip16(s, pos + 2, end).value, end);
    }
  }

  lemma {:induction false} TlsNamesAreShort(s: seq<byte>, pos: nat, end: nat)
    requires pos <= end <= |s|
    ensures TlsWalk(s, pos, end).Some? ==> |TlsWalk(s, pos, end).value| < 0x1_0000
    decreases end - pos
  {
    hide U16, NameList;
    if end - pos >= 4 && Skip16(s, pos + 2, end).Some? {
      var next := Skip16(s, pos + 2, end).value;
      TlsNamesAreShort(s, next, end);
      var stop := Skip16(s, pos + 4, next);
      if stop.Some? { ListNamesAreShort(s, pos + 6, stop.value); }
    }
  }

  lemma {:induction false} ListNamesAreShort(s: seq<byte>, pos: nat, end: nat)
    requires pos <= end <= |s|
    ensures NameList(s, pos, end).Some? ==> |NameList(s, pos, end).value| < 0x1_0000
    decreases end - pos
  {
    hide U16;
    if end - pos >= 3 && Skip16(s, pos + 1, end).Some? {
      ListNamesAreShort(s, Skip16(s, pos + 1, end).value, end);
    }
  }

  // ----- messages on which the parsers differ

  /** What each parser answers depends on the extensions alone. */
  lemma ExtensionsDecide(extensions: Bytes16)
    ensures QuicSni(Hello(extensions)) == QuicWalk(extensions, 0, |extensions|)
    ensures |extensions| < 65489 ==>
              TlsSni(InRecord(1, Hello(extensions))) == TlsWalk(extensions, 0, |extensions|)
  {
    hide QuicSni, TlsSni, QuicWalk, TlsWalk, HelloBlock, Hello, InRecord, LiesAt, LooksLikeTlsHandshake, RecordLength;
    var message := Hello(extensions);
    HelloIsFound(extensions);
    var start := |message| - |extensions|;
    MovedQuicWalk(extensions, message, start, 0, |extensions|);
    MovedTlsWalk(extensions, message, start, 0, |extensions|);
    FoundBlock(message, Window(start, |message|));
    if |extensions| < 65489 {
      InRecordLies(1, message);
      TlsSniOfRecord(InRecord(1, message), message);
    }
  }

  lemma HelloIsFound(extensions: Bytes16)
    ensures var message := Hello(extensions);
            HelloBlock(message, 0, |message|) == Some(Window(|message| - |extensions|, |message|))
            && LiesAt(message, |message| - |extensions|, extensions)
  {
    hide HelloBody, HelloHeader, HelloBlock;
    MessageIsRead(Hello(extensions), [3, 3] + Zeros(32), [], [0x13, 0x01], [0], extensions);
  }

  lemma FoundBlock(message: seq<byte>, block: Window)
    requires HelloBlock(message, 0, |message|) == Some(block)
    ensures QuicSni(message) == QuicWalk(message, block.start, block.end) && BlockOf(message) == block
  {
    hide HelloBlock, QuicWalk;
  }

  /**
    With two server_name extensions the parsers may differ: here the first is
    empty, which the QUIC parser skips and the TLS parser stops at.
  */
  lemma TwoServerNames()
    ensures var message := Hello([0, 0, 0, 0, 0, 0, 0, 6, 0, 4, 0, 0, 1, 97]);
            QuicSni(message) == Some([97]) && TlsSni(InRecord(1, message)) == None
  {
    hide QuicSni, TlsSni, Hello;
    var block: Bytes16 := [0, 0, 0, 0, 0, 0, 0, 6, 0, 4, 0, 0, 1, 97];
    ExtensionsDecide(block);
    assert block[13..14] == [97];
    assert Skip16(block, 2, 14) == Some(4) && Skip16(block, 6, 14) == Some(14);
    assert QuicName(block, 0 + 4, 4) == None && QuicName(block, 8, 14) == Some([97]);
    assert QuicWalk(block, 4, 14) == Some([97]);
  }

  /** With a host_name behind another entry they differ too: only the TLS parser reads past the first entry. */
  lemma LateHostName()
    ensures var message := Hello([0, 0, 0, 9, 0, 7, 1, 0, 0, 0, 0, 1, 97]);
            QuicSni(message) == None && TlsSni(InRecord(1, message)) == Some([97])
  {
    hide QuicSni, TlsSni, Hello;
    var block: Bytes16 := [0, 0, 0, 9, 0, 7, 1, 0, 0, 0, 0, 1, 97];
    ExtensionsDecide(block);
    assert block[12..13] == [97];
    assert Skip16(block, 2, 13) == Some(13) && Skip16(block, 4, 13) == Some(13);
    assert Skip16(block, 7, 13) == Some(9) && Skip16(block, 10, 13) == Some(13);
    assert NameList(block, 9, 13) == Some([97]);
    assert NameList(block, 6, 13) == Some([97]);
    assert TlsName(block, 4, 13) == Some([97]);
  }
}
