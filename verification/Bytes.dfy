/** Vocabulary shared by every module: bytes, byte strings, and big-endian reads. */
module Bytes {
  type byte = b: int | 0 <= b < 256

  /** The source's `std::string`, which holds arbitrary bytes. */
  type Text = seq<byte>

  datatype Option<+T> = None | Some(value: T) {
    predicate IsFailure() { None? }

    function PropagateFailure<U>(): Option<U>
      requires None?
    {
      None
    }

    function Extract(): T
      requires Some?
    {
      value
    }
  }

  const TWO_32: nat := 0x1_0000_0000

  function U16(s: seq<byte>, i: nat): (r: nat)
    requires i + 2 <= |s|
    ensures r < 0x1_0000
  {
    256 * (s[i] as int) + s[i + 1] as int
  }

  function U24(s: seq<byte>, i: nat): (r: nat)
    requires i + 3 <= |s|
    ensures r < 0x100_0000
  {
    65536 * (s[i] as int) + 256 * (s[i + 1] as int) + s[i + 2] as int
  }

  function U32(s: seq<byte>, i: nat): (r: nat)
    requires i + 4 <= |s|
    ensures r < TWO_32
  {
    0x100_0000 * (s[i] as int) + 65536 * (s[i + 1] as int) + 256 * (s[i + 2] as int) + s[i + 3] as int
  }

  type Quad = s: seq<byte> | |s| == 4 witness [0, 0, 0, 0]
  type Sixteen = s: seq<byte> | |s| == 16 witness seq(16, _ => 0)

  function Min(a: nat, b: nat): nat {
    if a < b then a else b
  }

  function Max(a: int, b: int): int {
    if a < b then b else a
  }

  type word = n: int | 0 <= n < 0x1_0000

  function Hi(n: word): byte { n / 256 }

  function Lo(n: word): byte { n % 256 }

  /** A 16-bit field. */
  function Word(n: word): (w: seq<byte>)
    ensures |w| == 2 && U16(w, 0) == n
  {
    [Hi(n), Lo(n)]
  }

  lemma WordIsRead(s: seq<byte>, at: nat, n: word)
    requires LiesAt(s, at, Word(n))
    ensures U16(s, at) == n
  {
    assert s[at] == Word(n)[0] && s[at + 1] == Word(n)[1];
  }

  method AppendU16(bytes: seq<byte>, value: word) returns (out: seq<byte>)
    ensures out == bytes + Word(value)
  {
    out := bytes + [value / 256];
    out := out + [value % 256];
  }

  function Zeros(n: nat): (z: seq<byte>)
    ensures |z| == n
  {
    seq(n, _ => 0)
  }

  /** A slice of a slice is a slice of the whole. */
  lemma SliceOfSlice<T>(s: seq<T>, a: nat, b: nat, c: nat, d: nat)
    requires a <= b <= |s| && c <= d <= b - a
    ensures s[a..b][c..d] == s[a + c..a + d]
  {
    assert |s[a..b][c..d]| == |s[a + c..a + d]|;
    forall i | 0 <= i < d - c ensures s[a..b][c..d][i] == s[a + c..a + d][i] {
    }
  }

  /** `piece` lies in `s` at position `at`. */
  ghost predicate LiesAt<T(!new)>(s: seq<T>, at: nat, piece: seq<T>) {
    at + |piece| <= |s| && forall i {:trigger piece[i]} :: 0 <= i < |piece| ==> s[at + i] == piece[i]
  }

  lemma LiesWithin<T(!new)>(s: seq<T>, at: nat, piece: seq<T>)
    requires LiesAt(s, at, piece)
    ensures at + |piece| <= |s|
  {
  }

  lemma LiesAtSplit<T(!new)>(s: seq<T>, at: nat, a: seq<T>, b: seq<T>)
    ensures LiesAt(s, at, a + b) <==> LiesAt(s, at, a) && LiesAt(s, at + |a|, b)
  {
    var ab := a + b;
    if LiesAt(s, at, ab) {
      assert forall i {:trigger a[i]} :: 0 <= i < |a| ==> a[i] == ab[i];
      assert forall i {:trigger b[i]} :: 0 <= i < |b| ==> b[i] == ab[|a| + i];
    }
  }

  lemma LiesInMiddle<T(!new)>(before: seq<T>, piece: seq<T>, after: seq<T>)
    ensures LiesAt(before + piece + after, |before|, piece)
  {
  }

  lemma LiesAtSlice<T(!new)>(s: seq<T>, at: nat, piece: seq<T>)
    ensures LiesAt(s, at, piece) <==> at + |piece| <= |s| && s[at..at + |piece|] == piece
  {
    if at + |piece| <= |s| && s[at..at + |piece|] == piece {
      assert forall i {:trigger piece[i]} :: 0 <= i < |piece| ==> s[at..at + |piece|][i] == piece[i];
    }
  }

  // ----- reads that move with the buffer

  lemma MovedU16(s: seq<byte>, t: seq<byte>, d: nat, i: nat)
    requires LiesAt(t, d, s) && i + 2 <= |s|
    ensures t[d + i] == s[i] && U16(t, d + i) == U16(s, i)
  {
    assert s[i] == t[d + i] && s[i + 1] == t[d + (i + 1)];
  }

  lemma MovedU24(s: seq<byte>, t: seq<byte>, d: nat, i: nat)
    requires LiesAt(t, d, s) && i + 3 <= |s|
    ensures U24(t, d + i) == U24(s, i)
  {
    assert s[i] == t[d + i] && s[i + 1] == t[d + (i + 1)] && s[i + 2] == t[d + (i + 2)];
  }

  lemma MovedSlice(s: seq<byte>, t: seq<byte>, d: nat, i: nat, j: nat)
    requires LiesAt(t, d, s) && i <= j <= |s|
    ensures t[d + i..d + j] == s[i..j]
  {
    forall k | 0 <= k < j - i ensures t[d + i..d + j][k] == s[i..j][k] {
      assert s[i + k] == t[d + (i + k)];
    }
  }

  lemma MovedU32(s: seq<byte>, t: seq<byte>, d: nat, i: nat)
    requires LiesAt(t, d, s) && i + 4 <= |s|
    ensures U32(t, d + i) == U32(s, i)
  {
    assert s[i] == t[d + i] && s[i + 1] == t[d + (i + 1)] && s[i + 2] == t[d + (i + 2)] && s[i + 3] == t[d + (i + 3)];
  }

  /** Distinct numbers below `n` are at most `n` many (pigeonhole). */
  lemma {:induction false} Pigeonhole(s: seq<nat>, n: nat)
    requires forall i :: 0 <= i < |s| ==> s[i] < n
    requires forall i, j :: 0 <= i < j < |s| ==> s[i] != s[j]
    ensures |s| <= n
  {
    if |s| > 0 {
      assert n > 0 by { assert s[0] < n; }
      if i :| 0 <= i < |s| && s[i] == n - 1 {
        Pigeonhole(s[..i] + s[i + 1..], n - 1);
      } else {
        Pigeonhole(s[1..], n - 1);
      }
    }
  }

  lemma Regroup<T>(a: seq<T>, b: seq<T>, c: seq<T>, bc: seq<T>)
    requires bc == b + c
    ensures a + bc == a + b + c
  {
  }

  lemma {:induction false} SetSize<T>(small: set<T>, large: set<T>)
    requires small <= large
    ensures |small| <= |large|
  {
    if small != {} {
      var x :| x in small;
      SetSize(small - {x}, large - {x});
    }
  }

  lemma MapSize<K, V>(small: map<K, V>, large: map<K, V>)
    requires small.Keys <= large.Keys
    ensures |small| <= |large|
  {
    SetSize(small.Keys, large.Keys);
  }

  lemma PutSize<K, V>(m: map<K, V>, key: K, value: V)
    ensures |m[key := value]| == |m| + if key in m then 0 else 1
  {
    assert m[key := value].Keys == m.Keys + {key};
  }
}
