/** Bytes, and the one way every layer of the file system changes a byte sequence: splicing. */
module Bytes {

  type byte = x: int | 0 <= x < 256

  datatype Option<+T> = None | Some(value: T)

  /** s with the bytes from position off on replaced by b. */
  function Splice(s: seq<byte>, off: nat, b: seq<byte>): (r: seq<byte>)
    requires off + |b| <= |s|
    ensures |r| == |s|
  {
    s[..off] + b + s[off + |b|..]
  }

  lemma SpliceAt(s: seq<byte>, off: nat, b: seq<byte>, k: nat)
    requires off + |b| <= |s|
    requires k < |s|
    ensures Splice(s, off, b)[k] == if off <= k < off + |b| then b[k - off] else s[k]
  {
  }

  lemma SpliceWindow(s: seq<byte>, off: nat, b: seq<byte>)
    requires off + |b| <= |s|
    ensures Splice(s, off, b)[off..off + |b|] == b
  {
  }

  lemma SpliceChain(s: seq<byte>, off: nat, a: seq<byte>, b: seq<byte>)
    requires off + |a| + |b| <= |s|
    ensures Splice(Splice(s, off, a), off + |a|, b) == Splice(s, off, a + b)
  {
  }

  lemma SpliceAppend(s: seq<byte>, off: nat, b: seq<byte>, tail: seq<byte>)
    requires off + |b| <= |s|
    ensures Splice(s + tail, off, b) == Splice(s, off, b) + tail
  {
  }

  lemma SplicePrepend(head: seq<byte>, s: seq<byte>, off: nat, b: seq<byte>)
    requires off + |b| <= |s|
    ensures Splice(head + s, |head| + off, b) == head + Splice(s, off, b)
  {
  }

  lemma SliceOfSlice<T>(s: seq<T>, a: nat, n: nat, i: nat, m: nat)
    requires a + n <= |s| && i + m <= n
    ensures s[a..a + n][i..i + m] == s[a + i..a + i + m]
  {
    var l, r := s[a..a + n][i..i + m], s[a + i..a + i + m];
    forall k | 0 <= k < m ensures l[k] == r[k] {
      assert l[k] == s[a..a + n][i + k] == s[a + i + k];
    }
  }

  lemma SliceJoin<T>(s: seq<T>, a: nat, m: nat, n: nat)
    requires a + m + n <= |s|
    ensures s[a..a + m] + s[a + m..a + m + n] == s[a..a + m + n]
  {
  }
}
