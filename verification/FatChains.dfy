/**
 Cluster chains. A table is a linked forest over cluster numbers; the code only ever follows
 links until it meets the end mark, so everything it does is described by the sequence of
 clusters it would visit.
 */
module FatChains {
  import opened Bytes
  import opened FatVolume

  /** s lists, in order, the clusters visited from s[0] until the end mark. */
  ghost predicate Chain(t: seq<nat>, s: seq<nat>) {
    && 0 < |s|
    && (forall i :: 0 <= i < |s| ==> 2 <= s[i] < |t|)
    && (forall i :: 0 <= i < |s| - 1 ==> t[s[i]] == s[i + 1])
    && t[s[|s| - 1]] == FAT_EOF
  }

  ghost predicate Distinct(s: seq<nat>) {
    forall i, j :: 0 <= i < j < |s| ==> s[i] != s[j]
  }

  ghost predicate Disjoint(a: seq<nat>, b: seq<nat>) {
    forall i, j :: 0 <= i < |a| && 0 <= j < |b| ==> a[i] != b[j]
  }

  lemma ChainSuffix(t: seq<nat>, s: seq<nat>, k: nat)
    requires Chain(t, s) && k < |s|
    ensures Chain(t, s[k..])
  {
  }

  /** Two chains from the same cluster are the same chain. */
  lemma {:induction false} ChainUnique(t: seq<nat>, a: seq<nat>, b: seq<nat>)
    requires Chain(t, a) && Chain(t, b) && a[0] == b[0] && |t| <= FAT_EOF
    ensures a == b
    decreases |a|
  {
    assert |a| > 1 ==> t[a[0]] == a[1];
    assert |b| > 1 ==> t[b[0]] == b[1];
    if |a| > 1 && |b| > 1 {
      ChainSuffix(t, a, 1);
      ChainSuffix(t, b, 1);
      ChainUnique(t, a[1..], b[1..]);
      assert a == [a[0]] + a[1..] && b == [b[0]] + b[1..];
    }
  }

  /** A chain that reaches the end mark never meets a cluster twice: it is acyclic. */
  lemma ChainDistinct(t: seq<nat>, s: seq<nat>)
    requires Chain(t, s) && |t| <= FAT_EOF
    ensures Distinct(s)
  {
    forall i, j | 0 <= i < j < |s| ensures s[i] != s[j] {
      if s[i] == s[j] {
        ChainSuffix(t, s, i);
        ChainSuffix(t, s, j);
        ChainUnique(t, s[i..], s[j..]);
        assert false;
      }
    }
  }

  /** Chains are untouched by stores to entries outside them. */
  lemma ChainFrame(t: seq<nat>, u: seq<nat>, s: seq<nat>)
    requires Chain(t, s) && |u| == |t|
    requires forall i :: 0 <= i < |s| ==> u[s[i]] == t[s[i]]
    ensures Chain(u, s)
  {
  }

  /** Two chains that share a cluster share everything after it. */
  lemma SharedTail(t: seq<nat>, a: seq<nat>, b: seq<nat>, i: nat, j: nat)
    requires Chain(t, a) && Chain(t, b) && |t| <= FAT_EOF
    requires i < |a| && j < |b| && a[i] == b[j]
    ensures a[i..] == b[j..]
  {
    ChainSuffix(t, a, i);
    ChainSuffix(t, b, j);
    ChainUnique(t, a[i..], b[j..]);
  }

  /** Marking n as an end and linking the last cluster to it appends n. */
  lemma ChainExtend(t: seq<nat>, s: seq<nat>, n: nat)
    requires Chain(t, s) && |t| <= FAT_EOF && 2 <= n < |t| && t[n] == 0
    ensures n !in s
    ensures Chain(t[n := FAT_EOF][s[|s| - 1] := n], s + [n])
  {
    ChainDistinct(t, s);
    forall i | 0 <= i < |s| ensures s[i] != n {
      if i < |s| - 1 {
        assert t[s[i]] == s[i + 1];
      }
    }
    var u := t[n := FAT_EOF][s[|s| - 1] := n];
    var r := s + [n];
    forall i | 0 <= i < |r| - 1 ensures u[r[i]] == r[i + 1] {
      if i < |s| - 1 {
        assert s[i] != s[|s| - 1];
        assert t[s[i]] == s[i + 1];
      }
    }
  }

  // ---- The bytes a chain holds ----

  ghost predicate Uniform(d: seq<seq<byte>>, s: seq<nat>, n: nat) {
    forall i :: 0 <= i < |s| ==> s[i] < |d| && |d[s[i]]| == n
  }

  ghost function Content(d: seq<seq<byte>>, s: seq<nat>): seq<byte>
    requires forall i :: 0 <= i < |s| ==> s[i] < |d|
  {
    if s == [] then [] else Content(d, s[..|s| - 1]) + d[s[|s| - 1]]
  }

  lemma {:induction false} ContentLength(d: seq<seq<byte>>, s: seq<nat>, n: nat)
    requires Uniform(d, s, n)
    ensures |Content(d, s)| == n * |s|
  {
    if s != [] {
      ContentLength(d, s[..|s| - 1], n);
      assert n * |s| == n * (|s| - 1) + n;
    }
  }

  lemma {:induction false} ContentFrame(d: seq<seq<byte>>, e: seq<seq<byte>>, s: seq<nat>)
    requires forall i :: 0 <= i < |s| ==> s[i] < |d| && s[i] < |e| && d[s[i]] == e[s[i]]
    ensures Content(d, s) == Content(e, s)
  {
    if s != [] {
      ContentFrame(d, e, s[..|s| - 1]);
    }
  }

  lemma ContentAppend(d: seq<seq<byte>>, s: seq<nat>, n: nat)
    requires forall i :: 0 <= i < |s| ==> s[i] < |d|
    requires n < |d|
    ensures Content(d, s + [n]) == Content(d, s) + d[n]
  {
    assert (s + [n])[..|s|] == s;
  }

  lemma {:induction false} ContentPrefix(d: seq<seq<byte>>, s: seq<nat>, k: nat)
    requires forall i :: 0 <= i < |s| ==> s[i] < |d|
    requires k <= |s|
    ensures Content(d, s[..k]) <= Content(d, s)
  {
    if k < |s| {
      ContentPrefix(d, s[..|s| - 1], k);
      assert s[..|s| - 1][..k] == s[..k];
    } else {
      assert s[..k] == s;
    }
  }

  /** Cluster k of a chain holds the bytes from k clusters' worth on. */
  lemma ContentCluster(d: seq<seq<byte>>, s: seq<nat>, k: nat)
    requires forall i :: 0 <= i < |s| ==> s[i] < |d|
    requires k < |s|
    ensures var base := |Content(d, s[..k])|;
      && base + |d[s[k]]| <= |Content(d, s)|
      && Content(d, s)[base..base + |d[s[k]]|] == d[s[k]]
  {
    assert s[..k + 1] == s[..k] + [s[k]];
    ContentAppend(d, s[..k], s[k]);
    ContentPrefix(d, s, k + 1);
  }

  /** Editing one cluster of a chain edits the chain's bytes in the corresponding place. */
  lemma {:induction false} ContentSplice(d: seq<seq<byte>>, s: seq<nat>, k: nat, o: nat, b: seq<byte>)
    requires forall i :: 0 <= i < |s| ==> s[i] < |d|
    requires Distinct(s) && k < |s| && o + |b| <= |d[s[k]]|
    ensures |Content(d, s[..k])| + o + |b| <= |Content(d, s)|
    ensures Content(d[s[k] := Splice(d[s[k]], o, b)], s)
         == Splice(Content(d, s), |Content(d, s[..k])| + o, b)
  {
    hide Splice;
    var page := Splice(d[s[k]], o, b);
    var e := d[s[k] := page];
    var m := |s| - 1;
    var init := s[..m];
    ContentCluster(d, s, k);
    if k == m {
      ContentFrame(d, e, init);
      SplicePrepend(Content(d, init), d[s[m]], o, b);
    } else {
      assert init[..k] == s[..k] && e[s[m]] == d[s[m]];
      ContentSplice(d, init, k, o, b);
      SpliceAppend(Content(d, init), |Content(d, s[..k])| + o, b, d[s[m]]);
    }
  }

  /** Writes to clusters outside a chain leave its bytes alone. */
  lemma ContentElsewhere(d: seq<seq<byte>>, s: seq<nat>, c: nat, b: seq<byte>)
    requires forall i :: 0 <= i < |s| ==> s[i] < |d| && s[i] != c
    requires c < |d|
    ensures Content(d[c := b], s) == Content(d, s)
  {
    ContentFrame(d, d[c := b], s);
  }
}
