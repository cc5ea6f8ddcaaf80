/**
  Walking the frames of a decrypted QUIC Initial (src/core/QuicParser.cpp,
  readVarint and collectCryptoFrames), against writing them (sections 16, 19.1
  to 19.3 and 19.6 of RFC 9000).
*/
module QuicFrames {
  import opened Bytes

  const SANE_CRYPTO_BOUND: nat := 0x100_0000

  /** One CRYPTO frame's contribution to the handshake stream. */
  datatype Fragment = Fragment(offset: nat, data: seq<byte>)

  // ----- variable-length integers

  /** The length that the top two bits of a first byte announce. */
  function VarintLength(first: byte): (n: nat)
    ensures n == 1 || n == 2 || n == 4 || n == 8
  {
    if first < 0x40 then 1 else if first < 0x80 then 2 else if first < 0xC0 then 4 else 8
  }

  /** The integer spelled by s[pos..end], most significant byte first, after `high`. */
  function BigEndian(s: seq<byte>, high: nat, pos: nat, end: nat): nat
    requires pos <= end <= |s|
    decreases end - pos
  {
    if pos == end then high else BigEndian(s, 256 * high + s[pos] as int, pos + 1, end)
  }

  datatype Varint = Varint(value: nat, next: nat)

  function VarintAt(s: seq<byte>, pos: nat, end: nat): (v: Option<Varint>)
    requires pos <= end <= |s|
    ensures v.Some? ==> pos < v.value.next <= end
  {
    if pos >= end || pos + VarintLength(s[pos]) > end then None
    else
      var next := pos + VarintLength(s[pos]);
      Some(Varint(BigEndian(s, s[pos] % 64, pos + 1, next), next))
  }

  /** On failure the source leaves `pos` where it was; its callers then give up. */
  method ReadVarint(data: seq<byte>, size: nat, pos: nat) returns (ok: bool, out: nat, next: nat)
    requires pos <= size <= |data|
    ensures VarintAt(data, pos, size) == if ok then Some(Varint(out, next)) else None
    ensures !ok ==> next == pos
  {
    ok, out, next := false, 0, pos;
    if pos >= size { return; }
    var first := data[pos];
    var len := VarintLength(first);
    if pos + len > size { return; }
    out := first % 64;
    for i := 1 to len
      invariant BigEndian(data, out, pos + i, pos + len) == BigEndian(data, first % 64, pos + 1, pos + len)
    {
      out := 256 * out + data[pos + i] as int;
    }
    return true, out, pos + len;
  }

  // ----- frames

  /** Where `count` variable-length integers that start at `pos` end. */
  function SkipVarints(s: seq<byte>, pos: nat, end: nat, count: nat): (next: Option<nat>)
    requires pos <= end <= |s|
    ensures next.Some? ==> pos <= next.value <= end
    decreases count
  {
    if count == 0 then Some(pos)
    else
      var v :- VarintAt(s, pos, end);
      SkipVarints(s, v.next, end, count - 1)
  }

  /** Where an ACK frame ends; `pos` is just past its type. */
  function SkipAck(s: seq<byte>, pos: nat, end: nat, ecn: bool): (next: Option<nat>)
    requires pos <= end <= |s|
    ensures next.Some? ==> pos <= next.value <= end
  {
    var largest :- VarintAt(s, pos, end);
    var delay :- VarintAt(s, largest.next, end);
    var count :- VarintAt(s, delay.next, end);
    var first :- VarintAt(s, count.next, end);
    if count.value > end then None
    else
      var ranges :- SkipVarints(s, first.next, end, 2 * count.value);
      if ecn then SkipVarints(s, ranges, end, 3) else Some(ranges)
  }

  datatype Crypto = Crypto(fragment: Fragment, next: nat)

  function CryptoAt(s: seq<byte>, pos: nat, end: nat): (c: Option<Crypto>)
    requires pos <= end <= |s|
    ensures c.Some? ==> pos <= c.value.next <= end
  {
    var offset :- VarintAt(s, pos, end);
    var length :- VarintAt(s, offset.next, end);
    if length.value > end - length.next then None
    else if offset.value > SANE_CRYPTO_BOUND || length.value > SANE_CRYPTO_BOUND then None
    else
      Some(Crypto(Fragment(offset.value, s[length.next..length.next + length.value]), length.next + length.value))
  }

  /** The CRYPTO fragments of the frames in s[pos..end], unless some frame is refused. */
  function Collect(s: seq<byte>, pos: nat, end: nat): Option<seq<Fragment>>
    requires pos <= end <= |s|
    decreases end - pos
  {
    if pos == end then Some([])
    else if s[pos] <= 1 then Collect(s, pos + 1, end)
    else if s[pos] == 2 || s[pos] == 3 then
      var next :- SkipAck(s, pos + 1, end, s[pos] == 3);
      Collect(s, next, end)
    else if s[pos] == 6 then
      var c :- CryptoAt(s, pos + 1, end);
      var rest :- Collect(s, c.next, end);
      Some([c.fragment] + rest)
    else None
  }

  /** Reads `count` integers and drops them. */
  method DropVarints(data: seq<byte>, size: nat, pos: nat, count: nat) returns (ok: bool, next: nat)
    requires pos <= size <= |data|
    ensures SkipVarints(data, pos, size, count) == if ok then Some(next) else None
  {
    ok, next := true, pos;
    for i := 0 to count
      invariant next <= size
      invariant SkipVarints(data, next, size, count - i) == SkipVarints(data, pos, size, count)
    {
      var dropped;
      ok, dropped, next := ReadVarint(data, size, next);
      if !ok { return; }
    }
  }

  /** The ACK branch of the frame loop. */
  method ReadAck(data: seq<byte>, size: nat, pos: nat, ecn: bool) returns (ok: bool, next: nat)
    requires pos <= size <= |data|
    ensures SkipAck(data, pos, size, ecn) == if ok then Some(next) else None
  {
    hide VarintAt, SkipVarints;
    next := pos;
    var largestAck, ackDelay, rangeCount, firstRange;
    ok, largestAck, next := ReadVarint(data, size, next);
    if !ok { return; }
    ok, ackDelay, next := ReadVarint(data, size, next);
    if !ok { return; }
    ok, rangeCount, next := ReadVarint(data, size, next);
    if !ok { return; }
    ok, firstRange, next := ReadVarint(data, size, next);
    if !ok { return; }
    if rangeCount > size { ok := false; return; }
    ok, next := DropVarints(data, size, next, 2 * rangeCount);
    if !ok { return; }
    if ecn {
      ok, next := DropVarints(data, size, next, 3);
    }
  }

  /** The CRYPTO branch of the frame loop. */
  method ReadCrypto(data: seq<byte>, size: nat, pos: nat) returns (ok: bool, fragment: Fragment, next: nat)
    requires pos <= size <= |data|
    ensures CryptoAt(data, pos, size) == if ok then Some(Crypto(fragment, next)) else None
  {
    hide VarintAt;
    next, fragment := pos, Fragment(0, []);
    var offset, dataLen;
    ok, offset, next := ReadVarint(data, size, next);
    if !ok { return; }
    ok, dataLen, next := ReadVarint(data, size, next);
    if !ok { return; }
    if dataLen > size - next { ok := false; return; }
    if offset > SANE_CRYPTO_BOUND || dataLen > SANE_CRYPTO_BOUND { ok := false; return; }
    fragment := Fragment(offset, data[next..next + dataLen]);
    next := next + dataLen;
  }

  /** `ok` is the source's result; on failure its callers drop `out`. */
  method CollectCryptoFrames(plaintext: seq<byte>) returns (ok: bool, out: seq<Fragment>)
    ensures if ok then Collect(plaintext, 0, |plaintext|) == Some(out)
            else Collect(plaintext, 0, |plaintext|) == None
  {
    hide SkipAck, CryptoAt;
    var len := |plaintext|;
    var pos := 0;
    out := [];
    ghost var whole := Collect(plaintext, 0, len);
    assert whole.Some? ==> [] + whole.value == whole.value;
    while pos < len
      invariant pos <= len
      invariant var rest := Collect(plaintext, pos, len);
                whole == if rest.None? then None else Some(out + rest.value)
    {
      var frameType := plaintext[pos];
      pos := pos + 1;
      if frameType == 0 || frameType == 1 {
      } else if frameType == 2 || frameType == 3 {
        ok, pos := ReadAck(plaintext, len, pos, frameType == 3);
        if !ok { return; }
      } else if frameType == 6 {
        var fragment;
        ok, fragment, pos := ReadCrypto(plaintext, len, pos);
        if !ok { return; }
        ghost var rest := Collect(plaintext, pos, len);
        assert rest.Some? ==> out + ([fragment] + rest.value) == out + [fragment] + rest.value;
        out := out + [fragment];
      } else {
        return false, out;
      }
    }
    assert out + [] == out;
    ok := true;
  }
}
