/**
 The RAM file system's tree of nodes and its path names. Nodes live in a pool and are named by their
 place in it; node 0 is the root and its own parent. Texts are C strings without the final NUL.
 */
module Vfs {
  import opened Arith
  import opened Bytes

  const MAX_NAME := 64
  const MAX_CHILDREN := 16
  const MAX_NODES := 128
  const MAX_DEPTH := 63
  const SLASH := 0x2F
  const DOT := 0x2E

  datatype Node = Node(name: seq<byte>, isDir: bool, children: seq<nat>, parent: nat)

  // ---- The tree ----

  ghost predicate ChildrenOk(nodes: seq<Node>, d: nat)
    requires d < |nodes|
  {
    && |nodes[d].children| <= MAX_CHILDREN && (nodes[d].children != [] ==> nodes[d].isDir)
    && (forall k :: 0 <= k < |nodes[d].children| ==>
          d < nodes[d].children[k] < |nodes| && nodes[nodes[d].children[k]].parent == d)
    && (forall j, k :: 0 <= j < k < |nodes[d].children| ==>
          nodes[nodes[d].children[j]].name != nodes[nodes[d].children[k]].name)
  }

  /** Parent and child links are inverse, siblings have different names, and nothing is below itself. */
  ghost predicate Tree(nodes: seq<Node>) {
    && 0 < |nodes| <= MAX_NODES && nodes[0].parent == 0 && nodes[0].isDir
    && (forall d :: 0 <= d < |nodes| ==> ChildrenOk(nodes, d))
    && (forall n :: 0 < n < |nodes| ==> nodes[n].parent < n && n in nodes[nodes[n].parent].children)
    && (forall n :: 0 <= n < |nodes| ==> |nodes[n].name| < MAX_NAME)
  }

  /** Position among the children of the one with this name, counted from k; their number if there is none. */
  function ChildIndex(nodes: seq<Node>, children: seq<nat>, name: seq<byte>, k: nat): (i: nat)
    requires k <= |children| && forall j :: 0 <= j < |children| ==> children[j] < |nodes|
    ensures k <= i <= |children|
    ensures i < |children| ==> nodes[children[i]].name == name
    ensures forall j :: k <= j < i ==> nodes[children[j]].name != name
    decreases |children| - k
  {
    if k == |children| || nodes[children[k]].name == name then k else ChildIndex(nodes, children, name, k + 1)
  }

  /** ramfs_finddir */
  function Child(nodes: seq<Node>, d: nat, name: seq<byte>): (r: Option<nat>)
    requires Tree(nodes) && d < |nodes|
    ensures r.Some? ==> r.value < |nodes|
  {
    assert ChildrenOk(nodes, d);
    if !nodes[d].isDir then None else
      var i := ChildIndex(nodes, nodes[d].children, name, 0);
      if i < |nodes[d].children| then Some(nodes[d].children[i]) else None
  }

  /** A node is what its parent finds under its name. */
  lemma ChildFound(nodes: seq<Node>, n: nat)
    requires Tree(nodes) && 0 < n < |nodes|
    ensures Child(nodes, nodes[n].parent, nodes[n].name) == Some(n)
  {
    var p := nodes[n].parent;
    assert ChildrenOk(nodes, p);
    var k :| 0 <= k < |nodes[p].children| && nodes[p].children[k] == n;
    var i := ChildIndex(nodes, nodes[p].children, nodes[n].name, 0);
    assert i <= k;
  }

  /** The tree with a new node under directory d. */
  function Grown(nodes: seq<Node>, d: nat, name: seq<byte>, isDir: bool): seq<Node>
    requires d < |nodes|
  {
    nodes[d := nodes[d].(children := nodes[d].children + [|nodes|])] + [Node(name, isDir, [], d)]
  }

  lemma GrownTree(nodes: seq<Node>, d: nat, name: seq<byte>, isDir: bool)
    requires Tree(nodes) && d < |nodes| < MAX_NODES && nodes[d].isDir && |nodes[d].children| < MAX_CHILDREN
    requires Child(nodes, d, name).None? && |name| < MAX_NAME
    ensures Tree(Grown(nodes, d, name, isDir))
  {
    hide ChildrenOk, Child;
    var g, n := Grown(nodes, d, name, isDir), |nodes|;
    NoSuchChild(nodes, d, name);
    forall e | 0 <= e < |g| ensures ChildrenOk(g, e) {
      if e == n { LeafOk(g, n); } else { GrownChildren(nodes, d, name, isDir, e); }
    }
    forall m | 0 < m < |g| ensures g[m].parent < m && m in g[g[m].parent].children {
      GrownParent(nodes, d, name, isDir, m);
    }
  }

  lemma GrownParent(nodes: seq<Node>, d: nat, name: seq<byte>, isDir: bool, m: nat)
    requires Tree(nodes) && d < |nodes| && 0 < m <= |nodes|
    ensures var g := Grown(nodes, d, name, isDir);
      g[m].parent < m && m in g[g[m].parent].children
  {
    hide ChildrenOk;
    var g := Grown(nodes, d, name, isDir);
    if m < |nodes| {
      assert m in nodes[nodes[m].parent].children;
    } else {
      assert g[d].children[|nodes[d].children|] == m;
    }
  }

  lemma LeafOk(nodes: seq<Node>, n: nat)
    requires n < |nodes| && nodes[n].children == []
    ensures ChildrenOk(nodes, n)
  {
  }

  lemma NoSuchChild(nodes: seq<Node>, d: nat, name: seq<byte>)
    requires Tree(nodes) && d < |nodes| && nodes[d].isDir && Child(nodes, d, name).None?
    ensures ChildrenOk(nodes, d)
    ensures forall k :: 0 <= k < |nodes[d].children| ==> nodes[nodes[d].children[k]].name != name
  {
    assert ChildrenOk(nodes, d);
    assert ChildIndex(nodes, nodes[d].children, name, 0) == |nodes[d].children|;
  }

  lemma GrownChildren(nodes: seq<Node>, d: nat, name: seq<byte>, isDir: bool, e: nat)
    requires d < |nodes| && nodes[d].isDir && |nodes[d].children| < MAX_CHILDREN
    requires e < |nodes| && ChildrenOk(nodes, e) && ChildrenOk(nodes, d)
    requires forall k :: 0 <= k < |nodes[d].children| ==> nodes[nodes[d].children[k]].name != name
    ensures ChildrenOk(Grown(nodes, d, name, isDir), e)
  {
    var g := Grown(nodes, d, name, isDir);
    assert forall m :: 0 <= m < |nodes| ==> g[m].name == nodes[m].name && g[m].parent == nodes[m].parent;
  }

  // ---- Paths ----

  /** Length of the component at the start of a text: up to a slash, and at most 63 bytes. */
  function ComponentLength(t: seq<byte>, max: nat): (n: nat)
    ensures n <= |t| && n <= max
    ensures forall i :: 0 <= i < n ==> t[i] != SLASH
    ensures n < |t| && n < max ==> t[n] == SLASH
  {
    if t == [] || t[0] == SLASH || max == 0 then 0 else 1 + ComponentLength(t[1..], max - 1)
  }

  /** The loop of vfs_resolve_path from a node on. */
  function Walk(nodes: seq<Node>, cur: nat, rest: seq<byte>): (r: Option<nat>)
    requires Tree(nodes) && cur < |nodes|
    ensures r.Some? ==> r.value < |nodes|
    decreases |rest|
  {
    if rest == [] then Some(cur)
    else if rest[0] == SLASH then Walk(nodes, cur, rest[1..])
    else
      var n := ComponentLength(rest, MAX_NAME - 1);
      var name := rest[..n];
      if name == [DOT] then Walk(nodes, cur, rest[n..])
      else if name == [DOT, DOT] then
        assert cur > 0 ==> nodes[cur].parent < cur;
        Walk(nodes, nodes[cur].parent, rest[n..])
      else
        match Child(nodes, cur, name)
        case None => None
        case Some(next) => Walk(nodes, next, rest[n..])
  }

  /** vfs_resolve_path */
  function Resolved(nodes: seq<Node>, cwd: nat, path: seq<byte>): (r: Option<nat>)
    requires Tree(nodes) && cwd < |nodes|
    ensures r.Some? ==> r.value < |nodes|
  {
    if path == [] then Some(cwd)
    else if path[0] == SLASH then Walk(nodes, 0, path[1..])
    else Walk(nodes, cwd, path)
  }

  /** The absolute path of a node; empty for the root. */
  function PathOf(nodes: seq<Node>, n: nat): seq<byte>
    requires Tree(nodes) && n < |nodes|
    decreases n
  {
    if n == 0 then [] else
      assert nodes[n].parent < n;
      PathOf(nodes, nodes[n].parent) + ([SLASH] + nodes[n].name)
  }

  function Depth(nodes: seq<Node>, n: nat): nat
    requires Tree(nodes) && n < |nodes|
    decreases n
  {
    if n == 0 then 0 else
      assert nodes[n].parent < n;
      1 + Depth(nodes, nodes[n].parent)
  }

  predicate GoodName(name: seq<byte>) {
    name != [] && |name| < MAX_NAME && SLASH !in name && name != [DOT] && name != [DOT, DOT]
  }

  /** All names on the way from the root can be written in a path. */
  ghost predicate GoodPath(nodes: seq<Node>, n: nat)
    requires Tree(nodes) && n < |nodes|
    decreases n
  {
    n == 0 || (GoodName(nodes[n].name) && nodes[n].parent < n && GoodPath(nodes, nodes[n].parent))
  }

  lemma {:induction false} ComponentIs(name: seq<byte>, rest: seq<byte>, max: nat)
    requires SLASH !in name && |name| <= max && (rest == [] || rest[0] == SLASH)
    ensures ComponentLength(name + rest, max) == |name|
    decreases |name|
  {
    if name != [] {
      assert (name + rest)[1..] == name[1..] + rest;
      assert name[0] in name;
      ComponentIs(name[1..], rest, max - 1);
    }
  }

  /** Walking along a node's path arrives at the node, and goes on with what follows. */
  lemma {:induction false} WalkPath(nodes: seq<Node>, n: nat, rest: seq<byte>)
    requires Tree(nodes) && n < |nodes| && GoodPath(nodes, n) && (rest == [] || rest[0] == SLASH)
    ensures Walk(nodes, 0, PathOf(nodes, n) + rest) == Walk(nodes, n, rest)
    decreases n
  {
    hide Walk, Tree, GoodName;
    PathStep(nodes, n, rest);
    if n != 0 {
      var p, name := nodes[n].parent, nodes[n].name;
      WalkPath(nodes, p, [SLASH] + (name + rest));
      SkipSlash(nodes, p, name + rest);
      StepDown(nodes, n, rest);
    }
  }

  lemma PathStep(nodes: seq<Node>, n: nat, rest: seq<byte>)
    requires Tree(nodes) && n < |nodes| && GoodPath(nodes, n)
    ensures n == 0 ==> PathOf(nodes, n) + rest == rest
    ensures n != 0 ==>
      && nodes[n].parent < n && GoodPath(nodes, nodes[n].parent) && GoodName(nodes[n].name)
      && PathOf(nodes, n) + rest == PathOf(nodes, nodes[n].parent) + ([SLASH] + (nodes[n].name + rest))
  {
    hide Tree, GoodName;
    if n != 0 {
      var a, b := PathOf(nodes, nodes[n].parent), nodes[n].name;
      assert a + ([SLASH] + b) + rest == a + ([SLASH] + (b + rest));
    }
  }

  lemma SkipSlash(nodes: seq<Node>, cur: nat, t: seq<byte>)
    requires Tree(nodes) && cur < |nodes|
    ensures Walk(nodes, cur, [SLASH] + t) == Walk(nodes, cur, t)
  {
    assert ([SLASH] + t)[1..] == t;
  }

  lemma ParentInside(nodes: seq<Node>, n: nat)
    requires Tree(nodes) && n < |nodes|
    ensures nodes[n].parent < |nodes|
  {
  }

  lemma StepDown(nodes: seq<Node>, n: nat, rest: seq<byte>)
    requires Tree(nodes) && 0 < n < |nodes| && GoodName(nodes[n].name) && (rest == [] || rest[0] == SLASH)
    ensures Walk(nodes, nodes[n].parent, nodes[n].name + rest) == Walk(nodes, n, rest)
  {
    var name := nodes[n].name;
    hide Child, ComponentLength, Tree;
    ComponentIs(name, rest, MAX_NAME - 1);
    ChildFound(nodes, n);
    assert (name + rest)[..|name|] == name && (name + rest)[|name|..] == rest;
    assert name[0] in name;
    ParentInside(nodes, n);
  }

  /** The last k names on the way to a node, as vfs_get_cwd_path collects them. */
  function PathUp(nodes: seq<Node>, n: nat, k: nat): seq<byte>
    requires Tree(nodes) && n < |nodes|
    decreases k
  {
    if n == 0 || k == 0 then [] else
      assert nodes[n].parent < n;
      PathUp(nodes, nodes[n].parent, k - 1) + ([SLASH] + nodes[n].name)
  }

  lemma {:induction false} PathUpWhole(nodes: seq<Node>, n: nat, k: nat)
    requires Tree(nodes) && n < |nodes| && Depth(nodes, n) <= k
    ensures PathUp(nodes, n, k) == PathOf(nodes, n)
    decreases k
  {
    if n != 0 { PathUpWhole(nodes, nodes[n].parent, k - 1); }
  }

  /** The text vfs_get_cwd_path stands for. */
  function CwdText(nodes: seq<Node>, cwd: nat): seq<byte>
    requires Tree(nodes) && cwd < |nodes|
  {
    if cwd == 0 then [SLASH] else PathUp(nodes, cwd, MAX_DEPTH)
  }

  /** The current directory's path leads back to it, from anywhere, exactly when the names on the way can be written. */
  lemma PathRoundTrip(nodes: seq<Node>, n: nat, anywhere: nat)
    requires Tree(nodes) && n < |nodes| && anywhere < |nodes| && Depth(nodes, n) <= MAX_DEPTH
    ensures Resolved(nodes, anywhere, CwdText(nodes, n)) == Some(n) <==> GoodPath(nodes, n)
  {
    hide Walk, Tree, GoodPath, PathUp, Depth, PathOf;
    WalkNothing(nodes, n);
    PathOfRoot(nodes);
    GoodRoot(nodes);
    if n == 0 {
      assert [SLASH][1..] == [];
    } else {
      PathUpWhole(nodes, n, MAX_DEPTH);
      var t := PathOf(nodes, n);
      StartsWithSlash(nodes, n);
      assert t == [SLASH] + t[1..] && t + [] == t;
      if GoodPath(nodes, n) { WalkPath(nodes, n, []); }
      SkipSlash(nodes, 0, t[1..]);
      WalkGood(nodes, 0, t[1..]);
    }
  }

  lemma GoodRoot(nodes: seq<Node>)
    requires Tree(nodes)
    ensures 0 < |nodes| && GoodPath(nodes, 0)
  {
  }

  lemma TreeNode(nodes: seq<Node>, cur: nat)
    requires Tree(nodes) && cur < |nodes| && GoodPath(nodes, cur)
    ensures nodes[cur].parent < |nodes| && GoodPath(nodes, nodes[cur].parent)
  {
    if cur == 0 { assert nodes[0].parent == 0; }
  }

  lemma ComponentGood(rest: seq<byte>)
    requires rest != [] && rest[0] != SLASH
    ensures var name := rest[..ComponentLength(rest, MAX_NAME - 1)];
      name != [] && |name| < MAX_NAME && SLASH !in name
  {
  }

  lemma ChildPlace(nodes: seq<Node>, cur: nat, name: seq<byte>)
    requires Tree(nodes) && cur < |nodes| && Child(nodes, cur, name).Some? && GoodName(name) && GoodPath(nodes, cur)
    ensures GoodPath(nodes, Child(nodes, cur, name).value)
  {
    assert ChildrenOk(nodes, cur);
  }

  /** Going down to a child takes a name that can be written, so no walk leaves the nodes with such paths. */
  lemma {:induction false} WalkGood(nodes: seq<Node>, cur: nat, rest: seq<byte>)
    requires Tree(nodes) && cur < |nodes| && GoodPath(nodes, cur)
    ensures var r := Walk(nodes, cur, rest); r.Some? ==> GoodPath(nodes, r.value)
    decreases |rest|
  {
    hide Tree, ComponentLength, Child;
    TreeNode(nodes, cur);
    if rest != [] {
      var n := ComponentLength(rest, MAX_NAME - 1);
      var name := rest[..n];
      if rest[0] == SLASH {
        WalkGood(nodes, cur, rest[1..]);
      } else if name == [DOT] {
        WalkGood(nodes, cur, rest[n..]);
      } else if name == [DOT, DOT] {
        WalkGood(nodes, nodes[cur].parent, rest[n..]);
      } else if Child(nodes, cur, name).Some? {
        ComponentGood(rest);
        ChildPlace(nodes, cur, name);
        WalkGood(nodes, Child(nodes, cur, name).value, rest[n..]);
      }
    }
  }

  lemma PathOfRoot(nodes: seq<Node>)
    requires Tree(nodes)
    ensures PathOf(nodes, 0) == []
  {
  }

  lemma WalkNothing(nodes: seq<Node>, n: nat)
    requires Tree(nodes) && n < |nodes|
    ensures Walk(nodes, n, []) == Some(n)
  {
  }

  lemma {:induction false} StartsWithSlash(nodes: seq<Node>, n: nat)
    requires Tree(nodes) && 0 < n < |nodes|
    ensures PathOf(nodes, n) != [] && PathOf(nodes, n)[0] == SLASH
    decreases n
  {
    var p := nodes[n].parent;
    assert p < n;
    if p != 0 { StartsWithSlash(nodes, p); }
  }

  // ---- The file system ----

  class Ramfs {
    const pool: array<Node>
    var used: nat
    var cwd: nat

    ghost predicate Valid()
      reads this, pool
    {
      pool.Length == MAX_NODES && used <= MAX_NODES && Tree(pool[..used]) && cwd < used && pool[cwd].isDir
    }

    /** vfs_init */
    constructor ()
      ensures Valid() && fresh(pool) && used == 1 && cwd == 0
    {
      pool := new Node[MAX_NODES](i => Node([], false, [], 0));
      used, cwd := 1, 0;
      new;
      pool[0] := Node([SLASH], true, [], 0);
    }

    /** ramfs_finddir */
    method FindDir(d: nat, name: seq<byte>) returns (r: Option<nat>)
      requires Valid() && d < used
      ensures r == Child(pool[..used], d, name)
    {
      hide Tree;
      ghost var nodes := pool[..used];
      NodeInside(nodes, d);
      if !pool[d].isDir { return None; }
      var children := pool[d].children;
      var i: nat := 0;
      while i < |children|
        invariant i <= |children| && ChildIndex(nodes, children, name, i) == ChildIndex(nodes, children, name, 0)
      {
        if pool[children[i]].name == name { return Some(children[i]); }
        i := i + 1;
      }
      r := None;
    }

    /** ramfs_mkdir and ramfs_create; the source copies the name without a check of its length */
    method Add(d: nat, name: seq<byte>, isDir: bool) returns (r: Option<nat>)
      requires Valid() && d < used && |name| < MAX_NAME
      modifies this`used, pool
      ensures Valid()
      ensures r.Some? <==>
        && old(pool[d]).isDir && |old(pool[d]).children| < 16 && old(used) < 128
        && old(Child(pool[..used], d, name)).None?
      ensures r.None? ==> pool[..used] == old(pool[..used])
      ensures r.Some? ==> r.value == old(used) && pool[..used] == Grown(old(pool[..used]), d, name, isDir)
    {
      hide Tree, ChildrenOk;
      if !pool[d].isDir { return None; }
      if |pool[d].children| >= MAX_CHILDREN { return None; }
      var there := FindDir(d, name);
      if there.Some? { return None; }
      if used >= MAX_NODES { return None; }
      GrownTree(pool[..used], d, name, isDir);
      var child := used;
      pool[child] := Node(name, isDir, [], d);
      used := used + 1;
      pool[d] := pool[d].(children := pool[d].children + [child]);
      assert pool[..used] == Grown(old(pool[..used]), d, name, isDir);
      r := Some(child);
    }

    /** vfs_resolve_path */
    method Resolve(path: seq<byte>) returns (r: Option<nat>)
      requires Valid()
      ensures r == Resolved(pool[..used], cwd, path)
    {
      hide Tree, Child;
      ghost var nodes := pool[..used];
      if path == [] { return Some(cwd); }
      var cur: nat, rest := cwd, path;
      if path[0] == SLASH {
        cur, rest := 0, path[1..];
        NodeInside(nodes, cwd);
      }
      while rest != []
        invariant cur < used && Walk(nodes, cur, rest) == Resolved(nodes, cwd, path)
        decreases |rest|
      {
        if rest[0] == SLASH {
          rest := rest[1..];
          continue;
        }
        var name := NextComponent(rest);
        rest := rest[|name|..];
        if name == [DOT] { continue; }
        NodeInside(nodes, cur);
        if name == [DOT, DOT] {
          if pool[cur].parent != cur { cur := pool[cur].parent; }
          continue;
        }
        var next := FindDir(cur, name);
        if next.None? { return None; }
        cur := next.value;
      }
      r := Some(cur);
    }

    /** The loop of vfs_get_cwd_path that climbs towards the root */
    method Climb() returns (stack: seq<nat>)
      requires Valid()
      ensures |stack| <= MAX_DEPTH && (stack == [] <==> cwd == 0) && forall i :: 0 <= i < |stack| ==> stack[i] < used
      ensures StackPath(pool[..used], stack) == PathUp(pool[..used], cwd, MAX_DEPTH)
    {
      hide Tree;
      ghost var nodes := pool[..used];
      stack := [];
      var n: nat := cwd;
      NodeInside(nodes, n);
      while n != 0 && |stack| < MAX_DEPTH
        invariant n < used && |stack| <= MAX_DEPTH && (stack == [] ==> n == cwd) && (cwd == 0 ==> stack == [])
        invariant forall i :: 0 <= i < |stack| ==> stack[i] < used
        invariant PathUp(nodes, n, MAX_DEPTH - |stack|) + StackPath(nodes, stack) == PathUp(nodes, cwd, MAX_DEPTH)
        decreases MAX_DEPTH - |stack|
      {
        StackGrows(nodes, stack, n);
        PathUpStep(nodes, n, MAX_DEPTH - |stack|);
        Regroup(PathUp(nodes, nodes[n].parent, MAX_DEPTH - |stack| - 1), [SLASH] + nodes[n].name,
                StackPath(nodes, stack));
        stack := stack + [n];
        NodeInside(nodes, n);
        n := pool[n].parent;
      }
    }

    /**
     vfs_get_cwd_path: the path, cut to what fits, and a NUL. For the root two bytes are written
     whatever the size of the buffer.
     */
    method CwdPath(buf: array<byte>)
      requires Valid() && (cwd == 0 ==> buf.Length != 1)
      modifies buf
      ensures buf.Length > 0 ==>
        var t := CwdText(pool[..used], cwd);
        var n := Min(|t|, buf.Length - 1);
        buf[..n] == t[..n] && buf[n] == 0
    {
      hide Tree, PathUp, StackPath;
      if buf.Length == 0 { return; }
      var stack := Climb();
      if |stack| == 0 {
        buf[0] := SLASH;
        buf[1] := 0;
        return;
      }
      var pos := WriteStack(buf, stack);
      buf[pos] := 0;
    }

    /** The loop of vfs_get_cwd_path that writes the names, the one next to the root first */
    method WriteStack(buf: array<byte>, stack: seq<nat>) returns (pos: nat)
      requires Valid() && 0 < buf.Length && forall i :: 0 <= i < |stack| ==> stack[i] < used
      modifies buf
      ensures var t := StackPath(pool[..used], stack);
        pos == Min(|t|, buf.Length - 1) && buf[..pos] == t[..pos]
    {
      hide Tree, StackPath;
      ghost var nodes := pool[..used];
      pos := 0;
      var d: int := |stack| - 1;
      StackEmpty(nodes, stack[d + 1..]);
      while d >= 0
        invariant -1 <= d < |stack| && pos < buf.Length
        invariant var t := StackPath(nodes, stack[d + 1..]); pos == Min(|t|, buf.Length - 1) && buf[..pos] == t[..pos]
        decreases d
      {
        StackFirst(nodes, stack[d..]);
        assert stack[d..][1..] == stack[d + 1..];
        pos := AppendText(buf, pos, [SLASH] + pool[stack[d]].name, StackPath(nodes, stack[d + 1..]));
        d := d - 1;
      }
      assert stack[0..] == stack;
    }

    /** vfs_chdir */
    method Chdir(path: seq<byte>) returns (ok: bool)
      requires Valid()
      modifies this`cwd
      ensures Valid()
      ensures var target := Resolved(pool[..used], old(cwd), path);
        && (ok <==> target.Some? && pool[target.value].isDir)
        && cwd == if ok then target.value else old(cwd)
    {
      var target := Resolve(path);
      if target.None? { return false; }
      if !pool[target.value].isDir { return false; }
      cwd := target.value;
      ok := true;
    }
  }

  /** A component is copied byte by byte until a slash, the end, or 63 bytes. */
  method NextComponent(rest: seq<byte>) returns (name: seq<byte>)
    requires rest != [] && rest[0] != SLASH
    ensures name == rest[..ComponentLength(rest, MAX_NAME - 1)] && name != []
  {
    name := [];
    var j: nat := 0;
    while j < |rest| && rest[j] != SLASH && j < MAX_NAME - 1
      invariant j <= |rest| && j <= MAX_NAME - 1 && name == rest[..j]
      invariant j + ComponentLength(rest[j..], MAX_NAME - 1 - j) == ComponentLength(rest, MAX_NAME - 1)
    {
      assert rest[j..][1..] == rest[j + 1..];
      name := name + [rest[j]];
      j := j + 1;
    }
  }

  lemma NodeInside(nodes: seq<Node>, n: nat)
    requires Tree(nodes) && n < |nodes|
    ensures nodes[n].parent <= n && 0 < |nodes|
    ensures forall k :: 0 <= k < |nodes[n].children| ==> nodes[n].children[k] < |nodes|
  {
    assert ChildrenOk(nodes, n);
  }

  /** The names of the nodes on a stack, the last one first. */
  ghost function StackPath(nodes: seq<Node>, stack: seq<nat>): seq<byte>
    requires forall i :: 0 <= i < |stack| ==> stack[i] < |nodes|
  {
    if stack == [] then [] else StackPath(nodes, stack[1..]) + ([SLASH] + nodes[stack[0]].name)
  }

  lemma StackEmpty(nodes: seq<Node>, stack: seq<nat>)
    requires stack == []
    ensures StackPath(nodes, stack) == []
  {
  }

  lemma StackFirst(nodes: seq<Node>, stack: seq<nat>)
    requires stack != [] && forall i :: 0 <= i < |stack| ==> stack[i] < |nodes|
    ensures StackPath(nodes, stack) == StackPath(nodes, stack[1..]) + ([SLASH] + nodes[stack[0]].name)
  {
  }

  lemma {:induction false} StackGrows(nodes: seq<Node>, stack: seq<nat>, n: nat)
    requires n < |nodes| && forall i :: 0 <= i < |stack| ==> stack[i] < |nodes|
    ensures StackPath(nodes, stack + [n]) == [SLASH] + nodes[n].name + StackPath(nodes, stack)
    decreases |stack|
  {
    if stack != [] {
      assert (stack + [n])[1..] == stack[1..] + [n];
      StackGrows(nodes, stack[1..], n);
      Regroup([SLASH] + nodes[n].name, StackPath(nodes, stack[1..]), [SLASH] + nodes[stack[0]].name);
    } else {
      assert [] + [n] == [n] && [n][1..] == [];
      assert StackPath(nodes, [n]) == [] + ([SLASH] + nodes[n].name);
    }
  }

  lemma Regroup(a: seq<byte>, b: seq<byte>, c: seq<byte>)
    ensures a + b + c == a + (b + c)
  {
  }

  lemma PathUpStep(nodes: seq<Node>, n: nat, k: nat)
    requires Tree(nodes) && 0 < n < |nodes| && 0 < k
    ensures nodes[n].parent < |nodes|
    ensures PathUp(nodes, n, k) == PathUp(nodes, nodes[n].parent, k - 1) + ([SLASH] + nodes[n].name)
  {
  }

  /** Appending as far as the buffer allows, with a byte left for the NUL */
  method AppendText(buf: array<byte>, at: nat, more: seq<byte>, ghost t: seq<byte>) returns (pos: nat)
    requires 0 < buf.Length && at == Min(|t|, buf.Length - 1) && buf[..at] == t[..at]
    modifies buf
    ensures pos == Min(|t + more|, buf.Length - 1) && buf[..pos] == (t + more)[..pos]
  {
    pos := at;
    var k: nat := 0;
    if pos + 1 >= buf.Length { assert (t + more)[..pos] == t[..pos]; return; }
    assert t[..at] == t;
    while k < |more| && pos + 1 < buf.Length
      invariant k <= |more| && pos == |t| + k < buf.Length && buf[..pos] == t + more[..k]
    {
      assert more[..k + 1] == more[..k] + [more[k]];
      buf[pos] := more[k];
      pos := pos + 1;
      k := k + 1;
    }
    assert (t + more)[..pos] == t + more[..k];
  }
}
