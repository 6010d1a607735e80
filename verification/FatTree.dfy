/**
 Ownership. Which chains exist, which directory slot names each of them, and the proof that every
 operation keeps this exact: no cluster is shared by two chains, none is lost, and none is handed
 out while a slot still names it.
 */
module FatTree {
  import opened Bytes
  import opened FatVolume
  import opened FatChains
  import opened FatSlots
  import opened FatFiles
  import opened FatDirs

  // ---- The table and the chains ----

  ghost predicate ChainAt(t: seq<nat>, limit: nat, h: nat, s: seq<nat>) {
    Chain(t, s) && Within(s, limit) && s[0] == h
  }

  ghost predicate Owned(chains: map<nat, seq<nat>>, c: nat) {
    exists h :: h in chains && c in chains[h]
  }

  ghost predicate AllChains(t: seq<nat>, limit: nat, chains: map<nat, seq<nat>>) {
    forall h :: h in chains ==> ChainAt(t, limit, h, chains[h])
  }

  ghost predicate AllDisjoint(chains: map<nat, seq<nat>>) {
    forall g, h :: g in chains && h in chains && g != h ==> Disjoint(chains[g], chains[h])
  }

  ghost predicate NoneLost(t: seq<nat>, limit: nat, chains: map<nat, seq<nat>>)
    requires limit <= |t|
  {
    forall c {:trigger Owned(chains, c)} :: 2 <= c < limit && t[c] != 0 ==> Owned(chains, c)
  }

  /** The chains, by first cluster, are acyclic, pairwise disjoint, and use up every allocated cluster. */
  ghost predicate Exact(t: seq<nat>, limit: nat, chains: map<nat, seq<nat>>) {
    && limit <= |t| <= FAT_EOF
    && AllChains(t, limit, chains) && AllDisjoint(chains) && NoneLost(t, limit, chains)
  }

  /** An entry is in use exactly when some chain has it, and then only one does. */
  lemma ExactOwnership(t: seq<nat>, limit: nat, chains: map<nat, seq<nat>>, c: nat)
    requires Exact(t, limit, chains) && 2 <= c < limit
    ensures t[c] != 0 <==> Owned(chains, c)
    ensures forall g, h :: g in chains && h in chains && c in chains[g] && c in chains[h] ==> g == h
  {
    if Owned(chains, c) {
      var h :| h in chains && c in chains[h];
      ChainNonZero(t, chains[h], c);
    }
    forall g, h | g in chains && h in chains && c in chains[g] && c in chains[h] ensures g == h {
      var i :| 0 <= i < |chains[g]| && chains[g][i] == c;
      var j :| 0 <= j < |chains[h]| && chains[h][j] == c;
      assert chains[g][i] == chains[h][j];
    }
  }

  /** The chains determine the table. */
  lemma ExactDetermines(t: seq<nat>, u: seq<nat>, limit: nat, chains: map<nat, seq<nat>>, c: nat)
    requires Exact(t, limit, chains) && Exact(u, limit, chains) && 2 <= c < limit
    ensures t[c] == u[c]
  {
    if Owned(chains, c) {
      var h :| h in chains && c in chains[h];
      var i :| 0 <= i < |chains[h]| && chains[h][i] == c;
      assert ChainAt(t, limit, h, chains[h]) && ChainAt(u, limit, h, chains[h]);
      if i < |chains[h]| - 1 { assert t[chains[h][i]] == chains[h][i + 1] == u[chains[h][i]]; }
    }
  }

  /** No entry links to the first cluster of a chain. */
  lemma HeadUnlinked(t: seq<nat>, limit: nat, chains: map<nat, seq<nat>>, h: nat, x: nat)
    requires Exact(t, limit, chains) && h in chains && 2 <= x < limit
    ensures t[x] != h
  {
    assert ChainAt(t, limit, h, chains[h]) && h in chains[h];
    if t[x] == h {
      assert Owned(chains, x);
      var y := OwnerOf(chains, x);
      assert ChainAt(t, limit, y, chains[y]);
      var j :| 0 <= j < |chains[y]| && chains[y][j] == x;
      assert j < |chains[y]| - 1 && chains[y][j + 1] == h;
      ExactOwnership(t, limit, chains, h);
      ChainDistinct(t, chains[y]);
      assert false;
    }
  }

  lemma HeadIn(t: seq<nat>, limit: nat, chains: map<nat, seq<nat>>, others: map<nat, seq<nat>>, h: nat)
    requires Exact(t, limit, chains) && Exact(t, limit, others) && h in chains
    ensures h in others && others[h] == chains[h]
  {
    assert ChainAt(t, limit, h, chains[h]);
    ChainNonZero(t, chains[h], h);
    assert Owned(others, h);
    var g := OwnerOf(others, h);
    assert ChainAt(t, limit, g, others[g]);
    var i :| 0 <= i < |others[g]| && others[g][i] == h;
    if i > 0 {
      HeadUnlinked(t, limit, chains, h, others[g][i - 1]);
    } else {
      ChainUnique(t, chains[h], others[g]);
    }
  }

  /** The table determines the chains. */
  lemma TableDetermines(t: seq<nat>, limit: nat, chains: map<nat, seq<nat>>, others: map<nat, seq<nat>>)
    requires Exact(t, limit, chains) && Exact(t, limit, others)
    ensures chains == others
  {
    hide Exact;
    forall h | h in chains ensures h in others && others[h] == chains[h] { HeadIn(t, limit, chains, others, h); }
    forall h | h in others ensures h in chains { HeadIn(t, limit, others, chains, h); }
  }

  lemma IsOwned(chains: map<nat, seq<nat>>, h: nat, c: nat)
    requires h in chains && c in chains[h]
    ensures Owned(chains, c)
  {
  }

  lemma OwnerOf(chains: map<nat, seq<nat>>, c: nat) returns (h: nat)
    requires Owned(chains, c)
    ensures h in chains && c in chains[h]
  {
    h :| h in chains && c in chains[h];
  }

  /** Chains kept and set apart while one chain grew from s to r. */
  lemma OthersGrown(t: seq<nat>, u: seq<nat>, limit: nat, chains: map<nat, seq<nat>>, s: seq<nat>, r: seq<nat>, g: nat)
    requires AllChains(t, limit, chains) && g in chains && Grown(t, u, s, r) && Disjoint(s, chains[g])
    ensures ChainAt(u, limit, g, chains[g]) && Disjoint(r, chains[g]) && Disjoint(chains[g], r)
  {
    OtherChainKept(t, u, s, r, chains[g]);
    DisjointFlip(r, chains[g]);
  }

  lemma PrefixIn(s: seq<nat>, r: seq<nat>, c: nat)
    requires s <= r && c in s
    ensures c in r
  {
    var i :| 0 <= i < |s| && s[i] == c;
    assert r[i] == c;
  }

  lemma NoneLostGrown(t: seq<nat>, u: seq<nat>, limit: nat, chains: map<nat, seq<nat>>, now: map<nat, seq<nat>>,
                      h: nat, s: seq<nat>, r: seq<nat>)
    requires limit <= |t| && NoneLost(t, limit, chains) && Grown(t, u, s, r)
    requires now == chains[h := r] && (h in chains ==> chains[h] == s)
    ensures NoneLost(u, limit, now)
  {
    hide Owned, Chain;
    forall c | 2 <= c < limit && u[c] != 0 ensures Owned(now, c) {
      if c in r {
        IsOwned(now, h, c);
      } else {
        assert u[c] == t[c] && Owned(chains, c);
        var g := OwnerOf(chains, c);
        if g == h { PrefixIn(s, r, c); }
        IsOwned(now, g, c);
      }
    }
  }

  /** A chain grew by free clusters. */
  lemma ExactGrown(t: seq<nat>, u: seq<nat>, limit: nat, chains: map<nat, seq<nat>>, h: nat, r: seq<nat>)
    requires Exact(t, limit, chains) && h in chains
    requires Grown(t, u, chains[h], r) && Within(r, limit)
    ensures Exact(u, limit, chains[h := r])
  {
    var now := chains[h := r];
    NoneLostGrown(t, u, limit, chains, now, h, chains[h], r);
    assert ChainAt(u, limit, h, r);
    hide Chain, Within, Disjoint, Grown, Owned, ChainAt, NoneLost;
    forall g | g in chains && g != h
      ensures ChainAt(u, limit, g, chains[g]) && Disjoint(r, chains[g]) && Disjoint(chains[g], r)
    {
      OthersGrown(t, u, limit, chains, chains[h], r, g);
    }
  }

  /** A new chain was made from free clusters. */
  lemma ExactAdded(t: seq<nat>, u: seq<nat>, limit: nat, chains: map<nat, seq<nat>>, r: seq<nat>)
    requires Exact(t, limit, chains)
    requires r != [] && Grown(t, u, [], r) && Within(r, limit)
    ensures r[0] !in chains && Exact(u, limit, chains[r[0] := r])
  {
    var h := r[0];
    if h in chains {
      assert ChainAt(t, limit, h, chains[h]);
      ChainNonZero(t, chains[h], h);
      assert false;
    }
    var now := chains[h := r];
    NoneLostGrown(t, u, limit, chains, now, h, [], r);
    assert ChainAt(u, limit, h, r);
    hide Chain, Within, Disjoint, Grown, Owned, ChainAt, NoneLost;
    forall g | g in chains
      ensures ChainAt(u, limit, g, chains[g]) && Disjoint(r, chains[g]) && Disjoint(chains[g], r)
    {
      NothingDisjoint(chains[g]);
      OthersGrown(t, u, limit, chains, [], r, g);
    }
  }

  lemma NothingDisjoint(s: seq<nat>)
    ensures Disjoint([], s)
  {
  }

  lemma NotIn(a: seq<nat>, b: seq<nat>, i: nat)
    requires Disjoint(a, b) && i < |a|
    ensures a[i] !in b
  {
  }

  lemma ClearedElsewhere(t: seq<nat>, limit: nat, h: nat, s: seq<nat>, gone: seq<nat>)
    requires ChainAt(t, limit, h, s) && Disjoint(s, gone)
    requires forall i :: 0 <= i < |gone| ==> gone[i] < |t|
    ensures ChainAt(Cleared(t, gone), limit, h, s)
  {
    forall i | 0 <= i < |s| ensures Cleared(t, gone)[s[i]] == t[s[i]] {
      assert s[i] !in gone;
    }
    ChainFrame(t, Cleared(t, gone), s);
  }

  /** A chain was released. */
  lemma ExactRemoved(t: seq<nat>, limit: nat, chains: map<nat, seq<nat>>, h: nat)
    requires Exact(t, limit, chains) && h in chains
    ensures ChainAt(t, limit, h, chains[h]) && Exact(Cleared(t, chains[h]), limit, chains - {h})
  {
    assert ChainAt(t, limit, h, chains[h]);
    var u, now := Cleared(t, chains[h]), chains - {h};
    NoneLostRemoved(t, u, limit, chains, h);
    hide Chain, Within, Disjoint, NoneLost, Cleared;
    forall g | g in now ensures ChainAt(u, limit, g, chains[g]) {
      ClearedElsewhere(t, limit, g, chains[g], chains[h]);
    }
  }

  lemma NoneLostRemoved(t: seq<nat>, u: seq<nat>, limit: nat, chains: map<nat, seq<nat>>, h: nat)
    requires limit <= |t| == |u| && NoneLost(t, limit, chains) && h in chains
    requires forall c :: 0 <= c < |t| ==> u[c] == if c in chains[h] then 0 else t[c]
    ensures NoneLost(u, limit, chains - {h})
  {
    hide Owned;
    forall c | 2 <= c < limit && u[c] != 0 ensures Owned(chains - {h}, c) {
      assert Owned(chains, c);
      var g := OwnerOf(chains, c);
      IsOwned(chains - {h}, g, c);
    }
  }

  lemma ExactLinks(t: seq<nat>, limit: nat, chains: map<nat, seq<nat>>)
    requires Exact(t, limit, chains)
    ensures LinksInside(t, limit)
  {
    forall c | 2 <= c < |t| && c < limit && IsLink(t[c]) ensures t[c] < limit {
      assert Owned(chains, c);
      var h := OwnerOf(chains, c);
      LinkWithin(t, limit, h, chains[h], c);
    }
  }

  lemma LinkWithin(t: seq<nat>, limit: nat, h: nat, s: seq<nat>, c: nat)
    requires ChainAt(t, limit, h, s) && c in s && IsLink(t[c])
    ensures t[c] < limit
  {
    var i :| 0 <= i < |s| && s[i] == c;
    assert i < |s| - 1 ==> t[s[i]] == s[i + 1];
  }

  /** Releasing an owned chain clears exactly that chain. */
  lemma ExactReleased(t: seq<nat>, limit: nat, chains: map<nat, seq<nat>>, h: nat)
    requires Exact(t, limit, chains) && h in chains
    ensures LinksInside(t, limit) && h < limit
    ensures Exact(Released(t, limit, h), limit, chains - {h})
  {
    ExactLinks(t, limit, chains);
    ExactRemoved(t, limit, chains, h);
    ReleasedChain(t, limit, chains[h]);
  }

  // ---- The slots and the chains they name ----

  /** The first cluster of the chain a slot owns. Dot entries and volume labels own nothing. */
  function Ref(s: Slot): Option<nat> {
    if Listed(s) && !IsDotName(NameOf(s)) && ClusterOf(s) != 0 then Some(ClusterOf(s)) else None
  }

  /** After the first slot whose name starts with a zero byte all slots are like it. */
  ghost predicate EndsZero(c: seq<byte>) {
    forall i, j :: 0 <= i < j < Slots(c) && SlotAt(c, i)[0] == SLOT_END ==> SlotAt(c, j)[0] == SLOT_END
  }

  ghost predicate Tidy(c: seq<byte>) {
    Plain(c) && EndsZero(c) && |c| % 32 == 0
  }

  /** What one slot names: a chain, and whether as a directory. */
  function NameIn(s: Slot): Option<(nat, bool)> {
    if Ref(s).Some? then Some((Ref(s).value, IsDirectory(AttrOf(s)))) else None
  }

  /** What the slot at place p = (directory, slot number) names. D gives the bytes of every directory. */
  ghost function Name(D: map<nat, seq<byte>>, p: (nat, nat)): Option<(nat, bool)> {
    if p.0 in D && p.1 < Slots(D[p.0]) then NameIn(SlotAt(D[p.0], p.1)) else None
  }

  /**
   Every chain but the root's is named by exactly one slot, namely slotOf, as a directory exactly
   when it is one; and every slot that names something names a chain.
   */
  ghost predicate Linked(D: map<nat, seq<byte>>, slotOf: map<nat, (nat, nat)>, root: nat) {
    && root in D && root !in slotOf
    && (forall d :: d in D ==> (d == root || d in slotOf) && Tidy(D[d]))
    && (forall h :: h in slotOf ==> Name(D, slotOf[h]) == Some((h, h in D)))
    && (forall p :: Name(D, p).Some? ==> Name(D, p).value.0 in slotOf && slotOf[Name(D, p).value.0] == p)
  }

  /** Directory bytes c with slot r replaced by new. */
  lemma PutSlotAll(c: seq<byte>, r: nat, slot: Slot)
    requires r < Slots(c)
    ensures |PutSlot(c, r, slot)| == |c|
    ensures forall k: nat :: k < Slots(c) ==> SlotAt(PutSlot(c, r, slot), k) == if k == r then slot else SlotAt(c, k)
  {
    forall k: nat | k < Slots(c)
      ensures SlotAt(PutSlot(c, r, slot), k) == if k == r then slot else SlotAt(c, k)
    {
      PutSlotAt(c, r, slot, k);
    }
  }

  lemma TidyPut(c: seq<byte>, r: nat, slot: Slot)
    requires Tidy(c) && r < Slots(c) && slot[0] != SLOT_END && (Live(slot) ==> AttrOf(slot) != ATTR_LFN)
    requires SlotAt(c, r)[0] != SLOT_END || forall i: nat :: i < r ==> SlotAt(c, i)[0] != SLOT_END
    ensures Tidy(PutSlot(c, r, slot))
  {
    PutSlotAll(c, r, slot);
  }

  ghost predicate SameNames(D: map<nat, seq<byte>>, E: map<nat, seq<byte>>) {
    forall p :: Name(E, p) == Name(D, p)
  }

  ghost predicate SameNamesBut(D: map<nat, seq<byte>>, E: map<nat, seq<byte>>, q: (nat, nat)) {
    forall p :: p != q ==> Name(E, p) == Name(D, p)
  }

  lemma NamesAfterPut(D: map<nat, seq<byte>>, d: nat, r: nat, slot: Slot)
    requires d in D && r < Slots(D[d])
    ensures SameNamesBut(D, D[d := PutSlot(D[d], r, slot)], (d, r))
    ensures Name(D[d := PutSlot(D[d], r, slot)], (d, r)) == NameIn(slot)
  {
    hide NameIn, SlotAt, PutSlot;
    PutSlotAll(D[d], r, slot);
  }

  lemma NamesWithBlank(D: map<nat, seq<byte>>, h: nat, blank: seq<byte>)
    requires h !in D && forall i: nat :: i < Slots(blank) ==> NameIn(SlotAt(blank, i)).None?
    ensures SameNames(D, D[h := blank])
  {
    hide NameIn, SlotAt;
  }

  lemma NamesWithout(D: map<nat, seq<byte>>, h: nat)
    requires h in D ==> forall i: nat :: i < Slots(D[h]) ==> NameIn(SlotAt(D[h], i)).None?
    ensures SameNames(D, D - {h})
  {
    hide NameIn, SlotAt;
  }

  lemma NameAt(D: map<nat, seq<byte>>, d: nat, r: nat)
    requires d in D && r < Slots(D[d])
    ensures Name(D, (d, r)) == NameIn(SlotAt(D[d], r))
  {
  }

  lemma LinkedSameNames(D: map<nat, seq<byte>>, E: map<nat, seq<byte>>, slotOf: map<nat, (nat, nat)>, root: nat)
    requires Linked(D, slotOf, root) && E.Keys == D.Keys && SameNames(D, E)
    requires forall d :: d in E ==> Tidy(E[d])
    ensures Linked(E, slotOf, root)
  {
    hide Name, Tidy;
  }

  /** A slot was rewritten and names what it named before. */
  lemma LinkedSame(D: map<nat, seq<byte>>, slotOf: map<nat, (nat, nat)>, root: nat, d: nat, r: nat, slot: Slot)
    requires Linked(D, slotOf, root) && d in D && r < Slots(D[d])
    requires NameIn(slot) == NameIn(SlotAt(D[d], r)) && Tidy(PutSlot(D[d], r, slot))
    ensures Linked(D[d := PutSlot(D[d], r, slot)], slotOf, root)
  {
    hide Name, Tidy, PutSlot, SlotAt, NameIn;
    NamesAfterPut(D, d, r, slot);
    NameAt(D, d, r);
    LinkedSameNames(D, D[d := PutSlot(D[d], r, slot)], slotOf, root);
  }

  lemma LinkedNewName(D: map<nat, seq<byte>>, E: map<nat, seq<byte>>, slotOf: map<nat, (nat, nat)>, root: nat,
                      h: nat, q: (nat, nat))
    requires Linked(D, slotOf, root) && h !in slotOf && h != root && h !in D
    requires E.Keys == D.Keys || E.Keys == D.Keys + {h}
    requires SameNamesBut(D, E, q) && Name(D, q).None? && Name(E, q) == Some((h, h in E))
    requires forall d :: d in E ==> Tidy(E[d])
    ensures Linked(E, slotOf[h := q], root)
  {
    hide Name, Tidy;
  }

  /** A slot that named nothing now names the new chain h; a new directory starts out naming nothing. */
  lemma LinkedAdd(D: map<nat, seq<byte>>, slotOf: map<nat, (nat, nat)>, root: nat, d: nat, r: nat, slot: Slot,
                  h: nat, blank: seq<byte>)
    requires Linked(D, slotOf, root) && d in D && r < Slots(D[d])
    requires NameIn(SlotAt(D[d], r)).None? && NameIn(slot).Some? && NameIn(slot).value.0 == h
    requires h !in slotOf && h != root
    requires Tidy(PutSlot(D[d], r, slot))
    requires Tidy(blank) && forall i: nat :: i < Slots(blank) ==> NameIn(SlotAt(blank, i)).None?
    ensures var kept: map<nat, seq<byte>> := D[d := PutSlot(D[d], r, slot)];
      Linked(if NameIn(slot).value.1 then kept[h := blank] else kept, slotOf[h := (d, r)], root)
  {
    hide Name, Tidy, PutSlot, SlotAt, NameIn;
    NamesAfterPut(D, d, r, slot);
    NameAt(D, d, r);
    var kept: map<nat, seq<byte>> := D[d := PutSlot(D[d], r, slot)];
    NamesWithBlank(kept, h, blank);
    LinkedNewName(D, if NameIn(slot).value.1 then kept[h := blank] else kept, slotOf, root, h, (d, r));
  }

  lemma LinkedLostName(D: map<nat, seq<byte>>, E: map<nat, seq<byte>>, slotOf: map<nat, (nat, nat)>, root: nat, h: nat)
    requires Linked(D, slotOf, root) && h in slotOf && E.Keys == D.Keys - {h}
    requires SameNamesBut(D, E, slotOf[h]) && Name(E, slotOf[h]).None?
    requires forall d :: d in E ==> Tidy(E[d])
    ensures Linked(E, slotOf - {h}, root)
  {
    hide Name, Tidy;
  }

  /** The slot of chain h was cleared; if h was a directory, it named nothing. */
  lemma LinkedDrop(D: map<nat, seq<byte>>, slotOf: map<nat, (nat, nat)>, root: nat, d: nat, r: nat, slot: Slot, h: nat)
    requires Linked(D, slotOf, root) && d in D && r < Slots(D[d])
    requires NameIn(SlotAt(D[d], r)).Some? && NameIn(SlotAt(D[d], r)).value.0 == h && NameIn(slot).None?
    requires Tidy(PutSlot(D[d], r, slot))
    requires h in D ==> forall i: nat :: i < Slots(D[h]) ==> NameIn(SlotAt(D[h], i)).None?
    ensures h in slotOf && h != d && Linked(D[d := PutSlot(D[d], r, slot)] - {h}, slotOf - {h}, root)
  {
    hide Name, Tidy, PutSlot, SlotAt, NameIn;
    NameAt(D, d, r);
    NamesAfterPut(D, d, r, slot);
    var kept: map<nat, seq<byte>> := D[d := PutSlot(D[d], r, slot)];
    NamesWithout(kept, h);
    LinkedLostName(D, kept - {h}, slotOf, root, h);
  }

  /** Chain h is now named by place q instead of the slot that named it. */
  lemma LinkedMove(D: map<nat, seq<byte>>, E: map<nat, seq<byte>>, slotOf: map<nat, (nat, nat)>, root: nat,
                   h: nat, q: (nat, nat))
    requires Linked(D, slotOf, root) && h in slotOf && E.Keys == D.Keys && q != slotOf[h]
    requires forall d :: d in E ==> Tidy(E[d])
    requires Name(D, q).None? && Name(E, q) == Some((h, h in D)) && Name(E, slotOf[h]).None?
    requires forall p :: p != q && p != slotOf[h] ==> Name(E, p) == Name(D, p)
    ensures Linked(E, slotOf[h := q], root)
  {
    hide Name, Tidy;
  }

  /** A directory got a zeroed cluster: its slots beyond the old end are free. */
  lemma LinkedOpened(D: map<nat, seq<byte>>, slotOf: map<nat, (nat, nat)>, root: nat, d: nat, n: nat)
    requires Linked(D, slotOf, root) && d in D && n % 32 == 0
    ensures Linked(D[d := D[d] + Zeros(n)], slotOf, root)
  {
    TidyOpened(D[d], n);
    NamesOpened(D, d, n);
    hide Name, Tidy;
  }

  lemma NamesOpened(D: map<nat, seq<byte>>, d: nat, n: nat)
    requires d in D && |D[d]| % 32 == 0
    ensures SameNames(D, D[d := D[d] + Zeros(n)])
  {
    ZerosFree(n);
    OpenedRefs(D[d], Zeros(n));
    hide SlotAt, Ref;
  }

  lemma ZerosFree(n: nat)
    ensures forall i: nat :: i < Slots(Zeros(n)) ==> Ref(SlotAt(Zeros(n), i)).None?
  {
    forall i: nat | i < Slots(Zeros(n)) ensures Ref(SlotAt(Zeros(n), i)).None? {
      assert SlotAt(Zeros(n), i)[0] == 0;
    }
  }

  lemma OpenedRefs(c: seq<byte>, z: seq<byte>)
    requires |c| % 32 == 0
    requires forall i: nat :: i < Slots(z) ==> Ref(SlotAt(z, i)).None?
    ensures Slots(c + z) == Slots(c) + Slots(z)
    ensures forall i: nat :: i < Slots(c) ==> SlotAt(c + z, i) == SlotAt(c, i)
    ensures forall i: nat :: Slots(c) <= i < Slots(c + z) ==> Ref(SlotAt(c + z, i)).None?
  {
    hide Ref, SlotAt;
    SlotsAppended(c, z);
    forall i: nat | Slots(c) <= i < Slots(c + z) ensures Ref(SlotAt(c + z, i)).None? {
      assert SlotAt(c + z, Slots(c) + (i - Slots(c))) == SlotAt(z, i - Slots(c));
    }
  }

  lemma TidyOpened(c: seq<byte>, n: nat)
    requires Tidy(c) && n % 32 == 0
    ensures Tidy(c + Zeros(n))
  {
    var g, z := c + Zeros(n), Zeros(n);
    SlotsAppended(c, z);
    forall i | Slots(c) <= i < Slots(g) ensures SlotAt(g, i)[0] == SLOT_END {
      assert SlotAt(g, Slots(c) + (i - Slots(c))) == SlotAt(z, i - Slots(c));
      assert SlotAt(z, i - Slots(c))[0] == 0;
    }
    hide SlotAt;
  }
}
