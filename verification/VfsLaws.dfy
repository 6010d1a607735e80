/**
 What a path means: its parts between slashes are followed one after the other, "." stays, ".." goes to the parent,
 and any other part goes to the child of that name.
 */
module VfsLaws {
  import opened Bytes
  import opened Vfs

  /** The child that is found is the only one of that name. */
  lemma ChildExact(nodes: seq<Node>, d: nat, name: seq<byte>, r: nat)
    requires Tree(nodes) && d < |nodes|
    ensures Child(nodes, d, name) == Some(r) <==> 0 < r < |nodes| && nodes[r].parent == d && nodes[r].name == name
  {
    assert ChildrenOk(nodes, d);
    if 0 < r < |nodes| && nodes[r].parent == d && nodes[r].name == name { ChildFound(nodes, r); }
  }

  lemma {:induction false} ComponentAhead(a: seq<byte>, b: seq<byte>, max: nat)
    ensures ComponentLength(a + ([0x2F] + b), max) == ComponentLength(a, max)
    decreases |a|
  {
    var s := a + ([0x2F] + b);
    if a == [] {
      assert s == [0x2F] + b;
    } else if max > 0 {
      assert s[1..] == a[1..] + ([0x2F] + b);
      ComponentAhead(a[1..], b, max - 1);
    }
  }

  /** A path of two parts leads where the second leads from where the first one does. */
  lemma {:induction false} PartsInTurn(nodes: seq<Node>, cur: nat, a: seq<byte>, b: seq<byte>)
    requires Tree(nodes) && cur < |nodes|
    ensures var mid := Walk(nodes, cur, a);
      Walk(nodes, cur, a + ([0x2F] + b)) == if mid.None? then None else Walk(nodes, mid.value, b)
    decreases |a|
  {
    hide Tree, ComponentLength, Child;
    var s := a + ([0x2F] + b);
    if a == [] {
      assert s == [SLASH] + b;
      SkipSlash(nodes, cur, b);
    } else if a[0] == SLASH {
      assert s[1..] == a[1..] + ([0x2F] + b);
      PartsInTurn(nodes, cur, a[1..], b);
    } else {
      ComponentAhead(a, b, MAX_NAME - 1);
      var n := ComponentLength(a, MAX_NAME - 1);
      ComponentGood(a);
      assert s[..n] == a[..n] && s[n..] == a[n..] + ([0x2F] + b);
      ParentInside(nodes, cur);
      PartsInTurn(nodes, cur, a[n..], b);
      PartsInTurn(nodes, nodes[cur].parent, a[n..], b);
      if Child(nodes, cur, a[..n]).Some? { PartsInTurn(nodes, Child(nodes, cur, a[..n]).value, a[n..], b); }
    }
  }

  lemma {:induction false} WholeComponent(c: seq<byte>, max: nat)
    requires 0x2F !in c
    ensures ComponentLength(c, max) == if |c| <= max then |c| else max
    decreases |c|
  {
    if c != [] && max > 0 {
      assert c[0] in c;
      WholeComponent(c[1..], max - 1);
    }
  }

  /** A part of at most 63 bytes. */
  lemma OnePart(nodes: seq<Node>, cur: nat, c: seq<byte>)
    requires Tree(nodes) && cur < |nodes| && 0 < |c| <= 63 && 0x2F !in c
    ensures nodes[cur].parent < |nodes|
    ensures Walk(nodes, cur, c) ==
      if c == [0x2E] then Some(cur) else if c == [0x2E, 0x2E] then Some(nodes[cur].parent) else Child(nodes, cur, c)
  {
    hide Tree, ComponentLength, Child;
    WholeComponent(c, 63);
    ParentInside(nodes, cur);
    assert c[0] in c && c[..|c|] == c && c[|c|..] == [];
    WalkNothing(nodes, cur);
    WalkNothing(nodes, nodes[cur].parent);
  }

  /** A longer part is cut after 63 bytes, and the rest is taken for a part of its own. */
  lemma LongPart(nodes: seq<Node>, cur: nat, c: seq<byte>)
    requires Tree(nodes) && cur < |nodes| && 63 < |c| && 0x2F !in c
    ensures var next := Child(nodes, cur, c[..63]);
      Walk(nodes, cur, c) == if next.None? then None else Walk(nodes, next.value, c[63..])
  {
    hide Tree, ComponentLength, Child;
    WholeComponent(c, 63);
    assert c[0] in c;
  }

  /** A path that ends in ".." leads to the parent of where it would lead without. */
  lemma UpAgain(nodes: seq<Node>, cwd: nat, p: seq<byte>)
    requires Tree(nodes) && cwd < |nodes| && p != []
    ensures var there := Resolved(nodes, cwd, p);
      Resolved(nodes, cwd, p + ([0x2F] + [0x2E, 0x2E]))
        == if there.None? then None else Some(nodes[there.value].parent)
  {
    hide Tree, Walk;
    var up: seq<byte> := [0x2E, 0x2E];
    var q := p + ([0x2F] + up);
    if p[0] == SLASH {
      assert q[1..] == p[1..] + ([0x2F] + up);
      RootThere(nodes);
      PartsInTurn(nodes, 0, p[1..], up);
    } else {
      PartsInTurn(nodes, cwd, p, up);
    }
    var there := Resolved(nodes, cwd, p);
    if there.Some? { OnePart(nodes, there.value, up); }
  }

  lemma RootThere(nodes: seq<Node>)
    requires Tree(nodes)
    ensures 0 < |nodes|
  {
  }

  /** The current directory's path is whole exactly up to a depth of 63. */
  lemma WholeExactly(nodes: seq<Node>, n: nat)
    requires Tree(nodes) && 0 < n < |nodes|
    ensures CwdText(nodes, n) == PathOf(nodes, n) <==> Depth(nodes, n) <= 63
  {
    hide Tree;
    if Depth(nodes, n) <= 63 { PathUpWhole(nodes, n, 63); } else { PathUpCut(nodes, n, 63); }
  }

  lemma {:induction false} PathUpCut(nodes: seq<Node>, n: nat, k: nat)
    requires Tree(nodes) && n < |nodes| && k < Depth(nodes, n)
    ensures |PathUp(nodes, n, k)| < |PathOf(nodes, n)|
    decreases k
  {
    if k > 0 { PathUpCut(nodes, nodes[n].parent, k - 1); }
  }

  /** A relative path leads where its absolute form leads, from anywhere. */
  lemma RelativeIsAbsolute(nodes: seq<Node>, cwd: nat, anywhere: nat, p: seq<byte>)
    requires Tree(nodes) && cwd < |nodes| && anywhere < |nodes| && p != [] && p[0] != 0x2F
    requires GoodPath(nodes, cwd) && Depth(nodes, cwd) <= MAX_DEPTH
    ensures Resolved(nodes, anywhere, CwdText(nodes, cwd) + ([0x2F] + p)) == Resolved(nodes, cwd, p)
  {
    hide Tree, Walk, PathUp, GoodPath, Depth, CwdText;
    PathRoundTrip(nodes, cwd, anywhere);
    var t := CwdText(nodes, cwd);
    AbsoluteText(nodes, cwd);
    RootThere(nodes);
    var q := t + ([0x2F] + p);
    assert q[1..] == t[1..] + ([0x2F] + p);
    PartsInTurn(nodes, 0, t[1..], p);
  }

  lemma AbsoluteText(nodes: seq<Node>, n: nat)
    requires Tree(nodes) && n < |nodes| && Depth(nodes, n) <= MAX_DEPTH
    ensures CwdText(nodes, n) != [] && CwdText(nodes, n)[0] == 0x2F
  {
    hide Tree, PathUp, PathOf;
    if n != 0 {
      PathUpWhole(nodes, n, MAX_DEPTH);
      StartsWithSlash(nodes, n);
    }
  }

  /** After a node is added it is found under its name and is of the kind asked for; all else is found as before. */
  lemma AddedFound(nodes: seq<Node>, d: nat, name: seq<byte>, isDir: bool, e: nat, x: seq<byte>)
    requires Tree(nodes) && d < |nodes| < MAX_NODES && nodes[d].isDir && |nodes[d].children| < MAX_CHILDREN
    requires Child(nodes, d, name).None? && |name| < MAX_NAME && e < |nodes|
    ensures Tree(Grown(nodes, d, name, isDir))
    ensures var g := Grown(nodes, d, name, isDir);
      && g[|nodes|].isDir == isDir && g[e].isDir == nodes[e].isDir
      && Child(g, e, x) == if e == d && x == name then Some(|nodes|) else Child(nodes, e, x)
  {
    GrownTree(nodes, d, name, isDir);
    var g, n := Grown(nodes, d, name, isDir), |nodes|;
    var was, now := Child(nodes, e, x), Child(g, e, x);
    ChildExact(g, e, x, n);
    if was.Some? {
      ChildExact(nodes, e, x, was.value);
      ChildExact(g, e, x, was.value);
    } else if now.Some? && now.value != n {
      ChildExact(g, e, x, now.value);
      ChildExact(nodes, e, x, now.value);
    } else if now.Some? {
      ChildExact(g, e, x, now.value);
    }
    hide Tree, Child;
  }
}
