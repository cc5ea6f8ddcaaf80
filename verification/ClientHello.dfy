/**
  The two ClientHello parsers: parseTlsClientHello (src/core/ProtocolParser.cpp),
  which is handed a TLS record, and sniFromClientHello (src/core/QuicParser.cpp),
  which is handed a bare handshake message.
*/
module ClientHello {
  import opened Bytes

  // ----- length-prefixed fields under a cursor

  /** Where a field with a one-byte length that starts at `pos` ends. */
  function Skip8(s: seq<byte>, pos: nat, end: nat): (next: Option<nat>)
    requires pos <= end <= |s|
    ensures next.Some? ==> pos < next.value <= end
  {
    if end - pos < 1 || end - pos - 1 < s[pos] then None else Some(pos + 1 + s[pos] as int)
  }

  /** Where a field with a two-byte length that starts at `pos` ends. */
  function Skip16(s: seq<byte>, pos: nat, end: nat): (next: Option<nat>)
    requires pos <= end <= |s|
    ensures next.Some? ==> pos + 2 <= next.value <= end
  {
    if end - pos < 2 || end - pos - 2 < U16(s, pos) then None else Some(pos + 2 + U16(s, pos))
  }

  datatype Window = Window(start: nat, end: nat)

  /** Where the extensions of the ClientHello body s[start..end] lie (section 4.1.2 of RFC 8446). */
  function Extensions(s: seq<byte>, start: nat, end: nat): (block: Option<Window>)
    requires start <= end <= |s|
    ensures block.Some? ==> start <= block.value.start <= block.value.end <= end
  {
    if end - start < 34 then None
    else
      var suites :- Skip8(s, start + 34, end);
      var compression :- Skip16(s, suites, end);
      var extensions :- Skip8(s, compression, end);
      var stop :- Skip16(s, extensions, end);
      Some(Window(extensions + 2, stop))
  }

  // ----- the two ways of looking for the name

  /** The QUIC parser looks at the first entry of the name list in s[pos..next] and nowhere else. */
  function QuicName(s: seq<byte>, pos: nat, next: nat): (name: Option<Text>)
    requires pos <= next <= |s|
  {
    if next - pos < 5 || U16(s, pos) + 2 > next - pos || U16(s, pos) < 3 || s[pos + 2] != 0
       || 3 + U16(s, pos + 3) > U16(s, pos) then None
    else Some(s[pos + 5..pos + 5 + U16(s, pos + 3)])
  }

  /** The QUIC parser takes the first server_name extension it can use, and skips the others. */
  function QuicWalk(s: seq<byte>, pos: nat, end: nat): (name: Option<Text>)
    requires pos <= end <= |s|
    decreases end - pos
  {
    if end - pos < 4 then None
    else
      var next :- Skip16(s, pos + 2, end);
      if U16(s, pos) == 0 && QuicName(s, pos + 4, next).Some? then QuicName(s, pos + 4, next)
      else QuicWalk(s, next, end)
  }

  /** The first host_name of the name list s[pos..end]. */
  function NameList(s: seq<byte>, pos: nat, end: nat): (name: Option<Text>)
    requires pos <= end <= |s|
    decreases end - pos
  {
    if end - pos < 3 then None
    else
      var next :- Skip16(s, pos + 1, end);
      if s[pos] == 0 then Some(s[pos + 3..next]) else NameList(s, next, end)
  }

  function TlsName(s: seq<byte>, pos: nat, next: nat): (name: Option<Text>)
    requires pos <= next <= |s|
  {
    var stop :- Skip16(s, pos, next);
    NameList(s, pos + 2, stop)
  }

  /** The TLS parser stops at the first server_name extension, usable or not. */
  function TlsWalk(s: seq<byte>, pos: nat, end: nat): (name: Option<Text>)
    requires pos <= end <= |s|
    decreases end - pos
  {
    if end - pos < 4 then None
    else
      var next :- Skip16(s, pos + 2, end);
      if U16(s, pos) == 0 then TlsName(s, pos + 4, next) else TlsWalk(s, next, end)
  }

  // ----- whole messages

  /** `s` holds a complete ClientHello handshake message at `pos`, before `end`. */
  predicate CompleteAt(s: seq<byte>, pos: nat, end: nat)
    requires pos <= end <= |s|
  {
    end - pos >= 4 && s[pos] == 1 && pos + 4 + U24(s, pos + 1) <= end
  }

  /** Length of the ClientHello that the first four bytes declare. */
  function DeclaredLength(message: seq<byte>): (n: nat)
    requires |message| >= 4
    ensures n >= 4
  {
    4 + U24(message, 1)
  }

  /** The extension block of the ClientHello at `pos`, once all of it is there. */
  function HelloBlock(s: seq<byte>, pos: nat, end: nat): (block: Option<Window>)
    requires pos <= end <= |s|
    ensures block.Some? ==> block.value.start <= block.value.end <= end
  {
    if CompleteAt(s, pos, end) then Extensions(s, pos + 4, pos + 4 + U24(s, pos + 1)) else None
  }

  function QuicSni(message: seq<byte>): (name: Option<Text>) {
    var block :- HelloBlock(message, 0, |message|);
    QuicWalk(message, block.start, block.end)
  }

  predicate LooksLikeTlsHandshake(payload: seq<byte>) {
    |payload| >= 5 && payload[0] == 0x16 && payload[1] == 3 && payload[2] <= 4
  }

  /** Length of the record that the first five bytes declare. */
  function RecordLength(payload: seq<byte>): (n: nat)
    requires |payload| >= 5
    ensures 5 <= n < 5 + 0x1_0000
  {
    5 + U16(payload, 3)
  }

  function TlsSni(payload: seq<byte>): (name: Option<Text>) {
    if !LooksLikeTlsHandshake(payload) || RecordLength(payload) > |payload| then None
    else
      var block :- HelloBlock(payload, 5, RecordLength(payload));
      TlsWalk(payload, block.start, block.end)
  }

  // ----- the parsers

  method SniFromClientHello(data: seq<byte>) returns (sni: Option<Text>)
    ensures sni == QuicSni(data)
  {
    hide U16, U24, QuicWalk;
    if |data| < 4 { return None; }
    if data[0] != 1 { return None; }
    var bodyLen := U24(data, 1);
    if 4 + bodyLen > |data| { return None; }
    var pos, end := 4, 4 + bodyLen;

    if pos + 34 > end { return None; }
    pos := pos + 34;

    if pos + 1 > end { return None; }
    var sidLen: nat := data[pos];
    pos := pos + 1;
    if pos + sidLen > end { return None; }
    pos := pos + sidLen;

    if pos + 2 > end { return None; }
    var csLen := U16(data, pos);
    pos := pos + 2;
    if pos + csLen > end { return None; }
    pos := pos + csLen;

    if pos + 1 > end { return None; }
    var compLen: nat := data[pos];
    pos := pos + 1;
    if pos + compLen > end { return None; }
    pos := pos + compLen;

    if pos + 2 > end { return None; }
    var extLen := U16(data, pos);
    pos := pos + 2;
    if pos + extLen > end { return None; }
    sni := WalkQuicExtensions(data, pos, pos + extLen);
  }

  /** The extension loop; `p` stands for the source's pointer into the body. */
  method WalkQuicExtensions(data: seq<byte>, start: nat, end: nat) returns (sni: Option<Text>)
    requires start <= end <= |data|
    ensures sni == QuicWalk(data, start, end)
  {
    hide U16;
    var p := start;
    while p + 4 <= end
      invariant start <= p <= end && QuicWalk(data, p, end) == QuicWalk(data, start, end)
    {
      var extType := U16(data, p);
      var extDataLen := U16(data, p + 2);
      p := p + 4;
      if p + extDataLen > end { return None; }

      if extType == 0 {
        if extDataLen < 5 { p := p + extDataLen; continue; }
        var listLen := U16(data, p);
        if listLen + 2 > extDataLen { p := p + extDataLen; continue; }
        if listLen < 3 { p := p + extDataLen; continue; }
        var nameType := data[p + 2];
        if nameType != 0 { p := p + extDataLen; continue; }
        var nameLen := U16(data, p + 3);
        if 3 + nameLen > listLen { p := p + extDataLen; continue; }
        return Some(data[p + 5..p + 5 + nameLen]);
      }
      p := p + extDataLen;
    }
    return None;
  }

  /** `ok` is the source's boolean result and `sni` its out-parameter. */
  method ParseTlsClientHello(payload: seq<byte>) returns (ok: bool, sni: Text)
    ensures (if ok then Some(sni) else None) == TlsSni(payload)
  {
    hide U16, U24, TlsWalk;
    ok, sni := false, [];
    if !LooksLikeTlsHandshake(payload) { return; }
    var recordLength := U16(payload, 3);
    if 5 + recordLength > |payload| { return; }
    var recordEnd := 5 + recordLength;

    var pos := 5;
    if recordEnd < pos + 4 || payload[pos] != 1 { return; }
    var handshakeLength := U24(payload, pos + 1);
    pos := pos + 4;
    if pos + handshakeLength > recordEnd { return; }
    var handshakeEnd := pos + handshakeLength;
    if handshakeEnd < pos + 34 { return; }
    pos := pos + 34;

    if pos >= handshakeEnd { return; }
    var sessionIdLength: nat := payload[pos];
    pos := pos + 1;
    if sessionIdLength > handshakeEnd - pos { return; }
    pos := pos + sessionIdLength;

    if handshakeEnd - pos < 2 { return; }
    var cipherSuitesLength := U16(payload, pos);
    pos := pos + 2;
    if cipherSuitesLength > handshakeEnd - pos { return; }
    pos := pos + cipherSuitesLength;

    if pos >= handshakeEnd { return; }
    var compressionMethodsLength: nat := payload[pos];
    pos := pos + 1;
    if compressionMethodsLength > handshakeEnd - pos { return; }
    pos := pos + compressionMethodsLength;

    if handshakeEnd - pos < 2 { return; }
    var extensionsLength := U16(payload, pos);
    pos := pos + 2;
    if extensionsLength > handshakeEnd - pos { return; }
    ok, sni := WalkTlsExtensions(payload, pos, pos + extensionsLength);
  }

  method WalkTlsExtensions(payload: seq<byte>, start: nat, extensionsEnd: nat) returns (ok: bool, sni: Text)
    requires start <= extensionsEnd <= |payload|
    ensures (if ok then Some(sni) else None) == TlsWalk(payload, start, extensionsEnd)
  {
    var pos := start;
    while extensionsEnd - pos >= 4
      invariant start <= pos <= extensionsEnd
      invariant TlsWalk(payload, pos, extensionsEnd) == TlsWalk(payload, start, extensionsEnd)
    {
      var extensionType := U16(payload, pos);
      var extensionLength := U16(payload, pos + 2);
      pos := pos + 4;
      if extensionLength > extensionsEnd - pos { return false, []; }
      var extensionEnd := pos + extensionLength;
      if extensionType == 0 {
        if extensionEnd - pos < 2 { return false, []; }
        var nameListLength := U16(payload, pos);
        pos := pos + 2;
        if nameListLength > extensionEnd - pos { return false, []; }
        ok, sni := WalkNameList(payload, pos, pos + nameListLength);
        return;
      }
      pos := extensionEnd;
    }
    return false, [];
  }

  method WalkNameList(payload: seq<byte>, start: nat, nameListEnd: nat) returns (ok: bool, sni: Text)
    requires start <= nameListEnd <= |payload|
    ensures (if ok then Some(sni) else None) == NameList(payload, start, nameListEnd)
  {
    var pos := start;
    while nameListEnd - pos >= 3
      invariant start <= pos <= nameListEnd
      invariant NameList(payload, pos, nameListEnd) == NameList(payload, start, nameListEnd)
    {
      var nameType := payload[pos];
      pos := pos + 1;
      var nameLength := U16(payload, pos);
      pos := pos + 2;
      if nameLength > nameListEnd - pos { return false, []; }
      if nameType == 0 { return true, payload[pos..pos + nameLength]; }
      pos := pos + nameLength;
    }
    return false, [];
  }
}
