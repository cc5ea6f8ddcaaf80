/** What the two ClientHello parsers have in common, and what their answers depend on. */
module ClientHelloFacts {
  import opened Bytes
  import opened ClientHello

  // ----- moving a buffer does not change what is read from it

  function Move(position: Option<nat>, d: nat): Option<nat> {
    if position.None? then None else Some(position.value + d)
  }

  lemma MovedSkip8(s: seq<byte>, t: seq<byte>, d: nat, pos: nat, end: nat)
    requires LiesAt(t, d, s) && pos <= end <= |s|
    ensures Skip8(t, d + pos, d + end) == Move(Skip8(s, pos, end), d)
  {
    if pos < end { assert s[pos] == t[d + pos]; }
  }

  lemma MovedSkip16(s: seq<byte>, t: seq<byte>, d: nat, pos: nat, end: nat)
    requires LiesAt(t, d, s) && pos <= end <= |s|
    ensures Skip16(t, d + pos, d + end) == Move(Skip16(s, pos, end), d)
  {
    if pos + 2 <= end { MovedU16(s, t, d, pos); }
  }

  lemma MovedExtensions(s: seq<byte>, t: seq<byte>, d: nat, start: nat, end: nat)
    requires LiesAt(t, d, s) && start <= end <= |s|
    ensures var block := Extensions(s, start, end);
            Extensions(t, d + start, d + end)
            == if block.None? then None else Some(Window(block.value.start + d, block.value.end + d))
  {
    if end - start >= 34 {
      MovedSkip8(s, t, d, start + 34, end);
      var suites := Skip8(s, start + 34, end);
      if suites.Some? {
        MovedSkip16(s, t, d, suites.value, end);
        var compression := Skip16(s, suites.value, end);
        if compression.Some? {
          MovedSkip8(s, t, d, compression.value, end);
          var extensions := Skip8(s, compression.value, end);
          if extensions.Some? {
            MovedSkip16(s, t, d, extensions.value, end);
          }
        }
      }
    }
  }

  lemma MovedHelloBlock(s: seq<byte>, t: seq<byte>, d: nat, pos: nat, end: nat)
    requires LiesAt(t, d, s) && pos <= end <= |s|
    ensures var block := HelloBlock(s, pos, end);
            HelloBlock(t, d + pos, d + end)
            == if block.None? then None else Some(Window(block.value.start + d, block.value.end + d))
  {
    hide Extensions;
    if end - pos >= 4 {
      assert s[pos] == t[d + pos];
      MovedU24(s, t, d, pos + 1);
      if CompleteAt(s, pos, end) {
        MovedExtensions(s, t, d, pos + 4, pos + 4 + U24(s, pos + 1));
      }
    }
  }

  lemma MovedQuicName(s: seq<byte>, t: seq<byte>, d: nat, pos: nat, next: nat)
    requires LiesAt(t, d, s) && pos <= next <= |s|
    ensures QuicName(t, d + pos, d + next) == QuicName(s, pos, next)
  {
    if next - pos >= 5 {
      MovedU16(s, t, d, pos);
      MovedU16(s, t, d, pos + 2);
      MovedU16(s, t, d, pos + 3);
      if QuicName(s, pos, next).Some? {
        MovedSlice(s, t, d, pos + 5, pos + 5 + U16(s, pos + 3));
      }
    }
  }

  lemma {:induction false} MovedQuicWalk(s: seq<byte>, t: seq<byte>, d: nat, pos: nat, end: nat)
    requires LiesAt(t, d, s) && pos <= end <= |s|
    ensures QuicWalk(t, d + pos, d + end) == QuicWalk(s, pos, end)
    decreases end - pos
  {
    hide U16, Skip16, QuicName;
    if end - pos >= 4 {
      MovedU16(s, t, d, pos);
      MovedSkip16(s, t, d, pos + 2, end);
      var next := Skip16(s, pos + 2, end);
      if next.Some? {
        MovedQuicName(s, t, d, pos + 4, next.value);
        MovedQuicWalk(s, t, d, next.value, end);
      }
    }
  }

  lemma {:induction false} MovedNameList(s: seq<byte>, t: seq<byte>, d: nat, pos: nat, end: nat)
    requires LiesAt(t, d, s) && pos <= end <= |s|
    ensures NameList(t, d + pos, d + end) == NameList(s, pos, end)
    decreases end - pos
  {
    if end - pos >= 3 {
      MovedU16(s, t, d, pos);
      MovedSkip16(s, t, d, pos + 1, end);
      var next := Skip16(s, pos + 1, end);
      if next.Some? {
        MovedSlice(s, t, d, pos + 3, next.value);
        MovedNameList(s, t, d, next.value, end);
      }
    }
  }

  lemma MovedTlsName(s: seq<byte>, t: seq<byte>, d: nat, pos: nat, next: nat)
    requires LiesAt(t, d, s) && pos <= next <= |s|
    ensures TlsName(t, d + pos, d + next) == TlsName(s, pos, next)
  {
    MovedSkip16(s, t, d, pos, next);
    var stop := Skip16(s, pos, next);
    if stop.Some? { MovedNameList(s, t, d, pos + 2, stop.value); }
  }

  lemma {:induction false} MovedTlsWalk(s: seq<byte>, t: seq<byte>, d: nat, pos: nat, end: nat)
    requires LiesAt(t, d, s) && pos <= end <= |s|
    ensures TlsWalk(t, d + pos, d + end) == TlsWalk(s, pos, end)
    decreases end - pos
  {
    if end - pos >= 4 {
      MovedU16(s, t, d, pos);
      MovedSkip16(s, t, d, pos + 2, end);
      var next := Skip16(s, pos + 2, end);
      if next.Some? {
        MovedTlsName(s, t, d, pos + 4, next.value);
        MovedTlsWalk(s, t, d, next.value, end);
      }
    }
  }

  // ----- only the declared bytes matter

  lemma DeclaredBlock(declared: seq<byte>, buffer: seq<byte>)
    requires |declared| >= 4 && DeclaredLength(declared) == |declared| && LiesAt(buffer, 0, declared)
    ensures HelloBlock(buffer, 0, |buffer|) == HelloBlock(declared, 0, |declared|)
  {
    MovedU24(declared, buffer, 0, 1);
    assert buffer[0] == declared[0];
    MovedExtensions(declared, buffer, 0, 4, |declared|);
  }

  lemma QuicSniOfDeclared(declared: seq<byte>, buffer: seq<byte>)
    requires |declared| >= 4 && DeclaredLength(declared) == |declared| && LiesAt(buffer, 0, declared)
    ensures QuicSni(buffer) == QuicSni(declared)
  {
    hide HelloBlock, QuicWalk;
    DeclaredBlock(declared, buffer);
    var block := HelloBlock(declared, 0, |declared|);
    if block.Some? {
      MovedQuicWalk(declared, buffer, 0, block.value.start, block.value.end);
    }
  }

  /**
    A buffer that begins with all the bytes `message` declares gives the same
    answer as `message`, whatever comes after them.
  */
  lemma QuicSniIsLocal(message: seq<byte>, buffer: seq<byte>)
    requires |message| >= 4 && DeclaredLength(message) <= |message|
    requires |buffer| >= DeclaredLength(message)
    requires forall i :: 0 <= i < DeclaredLength(message) ==> buffer[i] == message[i]
    ensures QuicSni(buffer) == QuicSni(message)
  {
    var declared := message[..DeclaredLength(message)];
    QuicSniOfDeclared(declared, message);
    QuicSniOfDeclared(declared, buffer);
  }

  /** Before all the declared bytes have arrived there is no answer. */
  lemma QuicSniNeedsAll(prefix: seq<byte>)
    requires QuicSni(prefix).Some?
    ensures |prefix| >= 4 && prefix[0] == 1 && DeclaredLength(prefix) <= |prefix|
  {
  }

  lemma DeclaredRecord(declared: seq<byte>, buffer: seq<byte>)
    requires |declared| >= 5 && RecordLength(declared) == |declared| && LiesAt(buffer, 0, declared)
    ensures LooksLikeTlsHandshake(buffer) == LooksLikeTlsHandshake(declared)
    ensures RecordLength(buffer) == |declared|
  {
    MovedU16(declared, buffer, 0, 3);
    assert buffer[0] == declared[0] && buffer[1] == declared[1] && buffer[2] == declared[2];
  }

  lemma TlsSniOfDeclared(declared: seq<byte>, buffer: seq<byte>)
    requires |declared| >= 5 && RecordLength(declared) == |declared| && LiesAt(buffer, 0, declared)
    ensures TlsSni(buffer) == TlsSni(declared)
  {
    hide HelloBlock, TlsWalk;
    DeclaredRecord(declared, buffer);
    MovedHelloBlock(declared, buffer, 0, 5, |declared|);
    var block := HelloBlock(declared, 5, |declared|);
    if block.Some? {
      MovedTlsWalk(declared, buffer, 0, block.value.start, block.value.end);
    }
  }

  /** The same for the TLS parser: bytes after the declared record change nothing. */
  lemma TlsSniIsLocal(record: seq<byte>, buffer: seq<byte>)
    requires |record| >= 5 && RecordLength(record) <= |record|
    requires |buffer| >= RecordLength(record)
    requires forall i :: 0 <= i < RecordLength(record) ==> buffer[i] == record[i]
    ensures TlsSni(buffer) == TlsSni(record)
  {
    var declared := record[..RecordLength(record)];
    TlsSniOfDeclared(declared, record);
    TlsSniOfDeclared(declared, buffer);
  }

  // ----- agreement

  /** The types of the complete entries of the name list s[pos..end], in order. */
  function EntryTypes(s: seq<byte>, pos: nat, end: nat): seq<byte>
    requires pos <= end <= |s|
    decreases end - pos
  {
    if end - pos < 3 || Skip16(s, pos + 1, end).None? then []
    else [s[pos]] + EntryTypes(s, Skip16(s, pos + 1, end).value, end)
  }

  /** The same for the content s[pos..next] of a server_name extension; none when its list is cut short. */
  function ListTypes(s: seq<byte>, pos: nat, next: nat): seq<byte>
    requires pos <= next <= |s|
  {
    if Skip16(s, pos, next).None? then [] else EntryTypes(s, pos + 2, Skip16(s, pos, next).value)
  }

  /** The entry types of every complete server_name extension of the block, in order. */
  function ServerNames(s: seq<byte>, pos: nat, end: nat): seq<seq<byte>>
    requires pos <= end <= |s|
    decreases end - pos
  {
    if end - pos < 4 || Skip16(s, pos + 2, end).None? then []
    else
      var next := Skip16(s, pos + 2, end).value;
      (if U16(s, pos) == 0 then [ListTypes(s, pos + 4, next)] else []) + ServerNames(s, next, end)
  }

  /** The first host_name of every complete server_name extension, if it has one. */
  function HostNames(s: seq<byte>, pos: nat, end: nat): (names: seq<Option<Text>>)
    requires pos <= end <= |s|
    decreases end - pos
  {
    if end - pos < 4 || Skip16(s, pos + 2, end).None? then []
    else
      var next := Skip16(s, pos + 2, end).value;
      (if U16(s, pos) == 0 then [TlsName(s, pos + 4, next)] else []) + HostNames(s, next, end)
  }

  /** The list opens with a host_name, whose type is 0. */
  predicate OpensWithHost(types: seq<byte>) {
    types != [] && types[0] == 0
  }

  /** The list holds a host_name, but opens with an entry of another type. */
  predicate Late(types: seq<byte>) {
    types != [] && types[0] != 0 && 0 in types
  }

  /** The first list that opens with a host_name, or their number. */
  function FirstOpening(lists: seq<seq<byte>>): (i: nat)
    ensures i <= |lists| && (i < |lists| ==> OpensWithHost(lists[i]))
    ensures forall k :: 0 <= k < i ==> !OpensWithHost(lists[k])
  {
    if lists == [] || OpensWithHost(lists[0]) then 0 else 1 + FirstOpening(lists[1..])
  }

  /** The TLS parser finds a name in a list exactly when one of its complete entries is a host_name. */
  lemma {:induction false} NameListIffHostName(s: seq<byte>, pos: nat, end: nat)
    requires pos <= end <= |s|
    ensures NameList(s, pos, end).Some? <==> 0 in EntryTypes(s, pos, end)
    decreases end - pos
  {
    if end - pos >= 3 && Skip16(s, pos + 1, end).Some? {
      NameListIffHostName(s, Skip16(s, pos + 1, end).value, end);
    }
  }

  /** What each parser makes of one extension: the QUIC parser wants the host_name first. */
  lemma OneExtension(s: seq<byte>, pos: nat, next: nat)
    requires pos <= next <= |s|
    ensures TlsName(s, pos, next).Some? <==> 0 in ListTypes(s, pos, next)
    ensures QuicName(s, pos, next) == if OpensWithHost(ListTypes(s, pos, next)) then TlsName(s, pos, next) else None
  {
    var stop := Skip16(s, pos, next);
    if stop.Some? {
      NameListIffHostName(s, pos + 2, stop.value);
      if stop.value - (pos + 2) >= 3 {
        assert stop.value == pos + 2 + U16(s, pos);
      }
    }
  }

  /** The TLS parser answers from the first server_name extension, the QUIC parser from the first that opens with a host_name. */
  predicate WalkAnswers(lists: seq<seq<byte>>, names: seq<Option<Text>>, tls: Option<Text>, quic: Option<Text>) {
    && |names| == |lists|
    && (forall k :: 0 <= k < |lists| ==> (names[k].Some? <==> 0 in lists[k]))
    && tls == (if lists == [] then None else names[0])
    && quic == (if FirstOpening(lists) < |lists| then names[FirstOpening(lists)] else None)
  }

  lemma OneMoreList(types: seq<byte>, name: Option<Text>, lists: seq<seq<byte>>, names: seq<Option<Text>>,
                    tls: Option<Text>, quic: Option<Text>)
    requires WalkAnswers(lists, names, tls, quic) && (name.Some? <==> 0 in types)
    ensures WalkAnswers([types] + lists, [name] + names, name, if OpensWithHost(types) then name else quic)
  {
    hide OpensWithHost;
    assert ([types] + lists)[1..] == lists;
  }

  lemma {:induction false} WalksAnswer(s: seq<byte>, pos: nat, end: nat)
    requires pos <= end <= |s|
    ensures WalkAnswers(ServerNames(s, pos, end), HostNames(s, pos, end), TlsWalk(s, pos, end), QuicWalk(s, pos, end))
    decreases end - pos
  {
    hide QuicName, TlsName, ListTypes, OpensWithHost, U16, Skip16, WalkAnswers;
    if end - pos >= 4 && Skip16(s, pos + 2, end).Some? {
      var next := Skip16(s, pos + 2, end).value;
      var types, name := ListTypes(s, pos + 4, next), TlsName(s, pos + 4, next);
      OneExtension(s, pos + 4, next);
      WalksAnswer(s, next, end);
      if U16(s, pos) == 0 {
        OneMoreList(types, name, ServerNames(s, next, end), HostNames(s, next, end),
                    TlsWalk(s, next, end), QuicWalk(s, next, end));
        OpensHasName(types);
        assert ServerNames(s, pos, end) == [types] + ServerNames(s, next, end);
        assert HostNames(s, pos, end) == [name] + HostNames(s, next, end);
      } else {
        assert ServerNames(s, pos, end) == ServerNames(s, next, end);
        assert HostNames(s, pos, end) == HostNames(s, next, end);
      }
    } else {
      NoAnswer();
    }
  }

  lemma NoAnswer()
    ensures WalkAnswers([], [], None, None)
  {
  }

  lemma OpensHasName(types: seq<byte>)
    ensures OpensWithHost(types) ==> 0 in types
  {
  }

  /** A handshake message as the only content of a TLS record. */
  function InRecord(minor: byte, message: seq<byte>): (record: seq<byte>)
    requires |message| < 0x1_0000
  {
    [0x16, 3, minor, |message| / 256, |message| % 256] + message
  }

  /** The extension block of a handshake message, empty when there is none. */
  function BlockOf(message: seq<byte>): (block: Window)
    ensures block.start <= block.end <= |message|
  {
    var block := HelloBlock(message, 0, |message|);
    if block.Some? then block.value else Window(0, 0)
  }

  lemma InRecordLies(minor: byte, message: seq<byte>)
    requires |message| < 0x1_0000 && minor <= 4
    ensures var record := InRecord(minor, message);
            && |record| == 5 + |message| && LiesAt(record, 5, message)
            && LooksLikeTlsHandshake(record) && RecordLength(record) == |record|
  {
  }

  /** Wrapping a message in a record makes the TLS parser walk the very same block. */
  lemma TlsSniOfRecord(record: seq<byte>, message: seq<byte>)
    requires |record| == 5 + |message| && LiesAt(record, 5, message)
    requires LooksLikeTlsHandshake(record) && RecordLength(record) == |record|
    ensures TlsSni(record) == TlsWalk(message, BlockOf(message).start, BlockOf(message).end)
  {
    hide HelloBlock;
    MovedHelloBlock(message, record, 5, 0, |message|);
    var block := HelloBlock(message, 0, |message|);
    if block.Some? {
      MovedTlsWalk(message, record, 5, block.value.start, block.value.end);
    }
  }

  /**
    When the parsers agree, for every handshake message. The lists are those of its
    server_name extensions, `i` the first that opens with a host_name. A name of
    the QUIC parser comes from list `i`, one of the TLS parser from list 0.
  */
  lemma ParsersAgree(minor: byte, message: seq<byte>)
    requires |message| < 0x1_0000 && minor <= 4
    ensures var block := BlockOf(message);
            var lists := ServerNames(message, block.start, block.end);
            var names := HostNames(message, block.start, block.end);
            var i := FirstOpening(lists);
            var quic, tls := QuicSni(message), TlsSni(InRecord(minor, message));
            && |names| == |lists|
            && (quic.Some? <==> i < |lists|) && (tls.Some? <==> lists != [] && 0 in lists[0])
            && (tls == quic <==> if i == 0 then true
                                 else if i == |lists| then 0 !in lists[0]
                                 else 0 in lists[0] && names[0] == names[i])
  {
    hide QuicWalk, TlsWalk, ServerNames, HostNames, OpensWithHost, HelloBlock;
    var block := BlockOf(message);
    InRecordLies(minor, message);
    TlsSniOfRecord(InRecord(minor, message), message);
    WalksAnswer(message, block.start, block.end);
    var lists := ServerNames(message, block.start, block.end);
    if lists != [] { OpensHasName(lists[0]); }
    if FirstOpening(lists) < |lists| { OpensHasName(lists[FirstOpening(lists)]); }
    EmptyBlock(message);
  }

  lemma EmptyBlock(message: seq<byte>)
    ensures QuicSni(message) == QuicWalk(message, BlockOf(message).start, BlockOf(message).end)
  {
    hide HelloBlock;
  }

  /**
    With at most one server_name extension, as section 4.2 of RFC 8446 demands: a
    name the QUIC parser finds is the name the TLS parser finds, and they agree
    exactly when no host_name hides behind an entry of another type.
  */
  lemma ParsersAgreeOnOne(minor: byte, message: seq<byte>)
    requires |message| < 0x1_0000 && minor <= 4
    requires |ServerNames(message, BlockOf(message).start, BlockOf(message).end)| <= 1
    ensures QuicSni(message).Some? ==> TlsSni(InRecord(minor, message)) == QuicSni(message)
    ensures var lists := ServerNames(message, BlockOf(message).start, BlockOf(message).end);
            TlsSni(InRecord(minor, message)) == QuicSni(message) <==> lists == [] || !Late(lists[0])
  {
    hide QuicSni, TlsSni, ServerNames, HostNames;
    ParsersAgree(minor, message);
  }
}
