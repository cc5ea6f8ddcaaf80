/**
  What the ClientHello parsers accept was written (src/core/QuicParser.cpp:258-297,
  src/core/ProtocolParser.cpp:749-795): an answer needs a ClientHello with all its
  fields, and for the TLS parser a complete handshake record around it.
*/
module ClientHelloInverse {
  import opened Bytes
  import opened ClientHello
  import opened ClientHelloFacts
  import opened ClientHelloRoundTrip

  /** The fields of a ClientHello body that come before the end of its extensions. */
  datatype Fields = Fields(fixed: seq<byte>, session: Bytes8, suites: Bytes16, compression: Bytes8, extensions: Bytes16) {
    function Bytes(): (body: seq<byte>)
      ensures |body| == |fixed| + 6 + |session| + |suites| + |compression| + |extensions|
    {
      HelloBody(fixed, session, suites, compression, extensions)
    }
  }

  /** A handshake message of type ClientHello, all there, with room for these fields. */
  ghost predicate Holds(message: seq<byte>, length: nat, f: Fields) {
    && |f.fixed| == 34 && |f.Bytes()| <= length < 0x100_0000 && 4 + length <= |message|
    && LiesAt(message, 0, HelloHeader(length)) && LiesAt(message, 4, f.Bytes())
  }

  ghost predicate IsHello(message: seq<byte>) {
    exists length: nat, f: Fields :: Holds(message, length, f)
  }

  lemma Skipped8(s: seq<byte>, pos: nat, end: nat) returns (content: Bytes8)
    requires pos <= end <= |s| && Skip8(s, pos, end).Some?
    ensures Skip8(s, pos, end) == Some(pos + 1 + |content|) && LiesAt(s, pos, Field8(content))
  {
    content := s[pos + 1..Skip8(s, pos, end).value];
  }

  lemma Skipped16(s: seq<byte>, pos: nat, end: nat) returns (content: Bytes16)
    requires pos <= end <= |s| && Skip16(s, pos, end).Some?
    ensures Skip16(s, pos, end) == Some(pos + 2 + |content|) && LiesAt(s, pos, Field16(content))
    ensures pos + 2 + |content| <= end && U16(s, pos) == |content|
  {
    content := s[pos + 2..Skip16(s, pos, end).value];
    LiesAtSplit(s, pos, Word(|content|), content);
    assert Word(|content|) == [s[pos], s[pos + 1]];
  }

  /** A body whose extensions are found was written from its fields. */
  lemma BodyIsWritten(s: seq<byte>, start: nat, end: nat) returns (f: Fields)
    requires start <= end <= |s| && Extensions(s, start, end).Some?
    ensures |f.fixed| == 34 && LiesAt(s, start, f.Bytes()) && start + |f.Bytes()| <= end
  {
    hide Skip8, Skip16;
    var fixed := s[start..start + 34];
    LiesAtSlice(s, start, fixed);
    var session := Skipped8(s, start + 34, end);
    var a := fixed + Field8(session);
    LiesAtSplit(s, start, fixed, Field8(session));
    var suites := Skipped16(s, start + |a|, end);
    var b := a + Field16(suites);
    LiesAtSplit(s, start, a, Field16(suites));
    var compression := Skipped8(s, start + |b|, end);
    var c := b + Field8(compression);
    LiesAtSplit(s, start, b, Field8(compression));
    var extensions := Skipped16(s, start + |c|, end);
    LiesAtSplit(s, start, c, Field16(extensions));
    f := Fields(fixed, session, suites, compression, extensions);
  }

  lemma HeaderLies(message: seq<byte>, length: nat)
    requires length < 0x100_0000
    ensures LiesAt(message, 0, HelloHeader(length)) <==> |message| >= 4 && message[0] == 1 && U24(message, 1) == length
  {
    var h := HelloHeader(length);
    if |message| >= 4 { ThreeBytes(message[1], message[2], message[3], length); }
    if LiesAt(message, 0, h) {
      assert message[0] == h[0] && message[1] == h[1] && message[2] == h[2] && message[3] == h[3];
    }
  }

  lemma ThreeBytes(a: byte, b: byte, c: byte, n: nat)
    requires n < 0x100_0000
    ensures 65536 * (a as int) + 256 * (b as int) + c as int == n
       <==> a as int == n / 65536 && b as int == n / 256 % 256 && c as int == n % 256
  {
  }

  /** The extensions are found if and only if the message is a complete ClientHello. */
  lemma FoundIffHello(message: seq<byte>)
    ensures HelloBlock(message, 0, |message|).Some? <==> IsHello(message)
  {
    hide HelloHeader, Extensions, LiesAt, HelloBody;
    if HelloBlock(message, 0, |message|).Some? {
      var length := U24(message, 1);
      var f := BodyIsWritten(message, 4, 4 + length);
      HeaderLies(message, length);
      assert Holds(message, length, f);
    }
    if IsHello(message) {
      var length: nat, f: Fields :| Holds(message, length, f);
      HeaderLies(message, length);
      BodyIsRead(message, 4, f.fixed, f.session, f.suites, f.compression, f.extensions, 4 + length);
    }
  }

  /** So the QUIC parser names no server for anything but a complete ClientHello. */
  lemma QuicNeedsHello(message: seq<byte>)
    requires QuicSni(message).Some?
    ensures IsHello(message)
  {
    hide HelloBlock, QuicWalk;
    FoundIffHello(message);
  }

  /** And the TLS parser needs one in a complete handshake record of version 3.0 to 3.4; it answers for that record alone. */
  lemma TlsNeedsRecord(payload: seq<byte>)
    requires TlsSni(payload).Some?
    ensures |payload| >= 5 && payload[0] == 22 && payload[1] == 3 && payload[2] <= 4
    ensures var n := 256 * (payload[3] as int) + payload[4] as int;
            && 5 + n <= |payload| && IsHello(payload[5..5 + n])
            && TlsSni(payload) == TlsSni(InRecord(payload[2], payload[5..5 + n]))
  {
    hide HelloBlock, TlsWalk;
    var n := U16(payload, 3);
    var message := payload[5..5 + n];
    var record := InRecord(payload[2], message);
    assert forall i :: 0 <= i < |record| ==> record[i] == payload[i];
    InRecordLies(payload[2], message);
    assert record[..RecordLength(payload)] == payload[..RecordLength(payload)];
    TlsSniIsLocal(payload, record);
    TlsSniOfRecord(record, message);
    MovedHelloBlock(message, record, 5, 0, n);
    FoundIffHello(message);
  }
}
