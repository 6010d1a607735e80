/**
 fat32_rename: a second slot for the chain is entered before the first one is deleted, in the same
 directory or another one. The picture afterwards differs in that one name only.
 */
module FatMove {
  import opened Bytes
  import opened FatVolume
  import opened FatChains
  import opened FatSlots
  import opened FatNames
  import opened FatFiles
  import opened FatDirs
  import opened FatTree
  import opened FatOps
  import opened FatRooted
  import opened FatLost

  /** Directory bytes D once the slot has been entered at place q2 of directory k2, n fresh bytes included. */
  ghost function EnteredIn(D: map<nat, seq<byte>>, k2: nat, n: nat, q2: nat, slot: Slot): (E: map<nat, seq<byte>>)
    requires k2 in D && q2 < Slots(D[k2] + Zeros(n))
    ensures E.Keys == D.Keys
  {
    D[k2 := PutSlot(D[k2] + Zeros(n), q2, slot)]
  }

  /** The slot that is about to be deleted is still there, in another place than the new one. */
  lemma OldSlotStays(D: map<nat, seq<byte>>, k1: nat, i1: nat, k2: nat, n: nat, q2: nat, slot: Slot)
    requires k1 in D && k2 in D && n % 32 == 0 && |D[k2]| % 32 == 0
    requires q2 == FirstDead(D[k2], 0) < Slots(D[k2] + Zeros(n))
    requires i1 < Slots(D[k1]) && Live(SlotAt(D[k1], i1))
    ensures (k1, i1) != (k2, q2)
    ensures var E := EnteredIn(D, k2, n, q2, slot);
      i1 < Slots(E[k1]) && SlotAt(E[k1], i1) == SlotAt(D[k1], i1)
  {
    hide SlotAt, PutSlot, Live;
    FirstDeadLive(D[k2]);
    SlotsAppended(D[k2], Zeros(n));
    PutSlotAll(D[k2] + Zeros(n), q2, slot);
  }

  /** What every place names after both slots have been stored. */
  lemma MovedNames(D: map<nat, seq<byte>>, k1: nat, i1: nat, k2: nat, n: nat, q2: nat, slot: Slot, gone: Slot)
    requires k1 in D && k2 in D && q2 < Slots(D[k2] + Zeros(n)) && (k1, i1) != (k2, q2)
    requires i1 < Slots(EnteredIn(D, k2, n, q2, slot)[k1])
    ensures var op := D[k2 := D[k2] + Zeros(n)];
      var E := EnteredIn(D, k2, n, q2, slot);
      var F := E[k1 := PutSlot(E[k1], i1, gone)];
      && (forall p :: p != (k1, i1) && p != (k2, q2) ==> Name(F, p) == Name(op, p))
      && Name(F, (k2, q2)) == NameIn(slot) && Name(F, (k1, i1)) == NameIn(gone)
      && Name(op, (k2, q2)) == NameIn(SlotAt(op[k2], q2))
  {
    hide SlotAt, PutSlot, NameIn, Name;
    var op := D[k2 := D[k2] + Zeros(n)];
    NamesAfterPut(op, k2, q2, slot);
    NameAt(op, k2, q2);
    var E := EnteredIn(D, k2, n, q2, slot);
    assert op[k2 := PutSlot(op[k2], q2, slot)] == E;
    NamesAfterPut(E, k1, i1, gone);
  }

  lemma AllTidy(D: map<nat, seq<byte>>, slotOf: map<nat, (nat, nat)>, root: nat, k1: nat, i1: nat,
                k2: nat, n: nat, q2: nat, slot: Slot, gone: Slot)
    requires Linked(D, slotOf, root) && k1 in D && k2 in D && n % 32 == 0
    requires q2 == FirstDead(D[k2], 0) < Slots(D[k2] + Zeros(n)) && slot[0] != SLOT_END && AttrOf(slot) != ATTR_LFN
    requires var E := EnteredIn(D, k2, n, q2, slot);
      i1 < Slots(E[k1]) && SlotAt(E[k1], i1)[0] != SLOT_END && gone[0] == SLOT_DELETED
    ensures var E := EnteredIn(D, k2, n, q2, slot);
      forall g :: g in E ==> Tidy(E[k1 := PutSlot(E[k1], i1, gone)][g])
  {
    hide SlotAt, PutSlot, NameIn, Name, Tidy;
    SlotReady(D, slotOf, root, k2, n, q2, slot);
    var E := EnteredIn(D, k2, n, q2, slot);
    assert forall g :: g in E ==> Tidy(E[g]);
    TidyPut(E[k1], i1, gone);
  }

  /** The old slot at place (k1, i1) names chain h, or nothing when h is 0; the new slot names the same or nothing. */
  ghost predicate Replaces(D: map<nat, seq<byte>>, k1: nat, i1: nat, slot: Slot, gone: Slot, h: nat) {
    && k1 in D && i1 < Slots(D[k1]) && Live(SlotAt(D[k1], i1)) && gone[0] == SLOT_DELETED && NameIn(gone).None?
    && slot[0] != SLOT_END && AttrOf(slot) != ATTR_LFN
    && (NameIn(slot) == NameIn(SlotAt(D[k1], i1)) || NameIn(slot).None?)
    && if h == 0 then NameIn(SlotAt(D[k1], i1)).None?
       else NameIn(SlotAt(D[k1], i1)).Some? && NameIn(SlotAt(D[k1], i1)).value.0 == h
  }

  /** What the two places name before the slots are stored. */
  lemma MovedBefore(D: map<nat, seq<byte>>, slotOf: map<nat, (nat, nat)>, root: nat, k1: nat, i1: nat,
                    k2: nat, n: nat, q2: nat, slot: Slot, gone: Slot, h: nat)
    requires Linked(D, slotOf, root) && Replaces(D, k1, i1, slot, gone, h)
    requires k2 in D && n % 32 == 0 && q2 == FirstDead(D[k2], 0) < Slots(D[k2] + Zeros(n))
    ensures (k1, i1) != (k2, q2) && i1 < Slots(EnteredIn(D, k2, n, q2, slot)[k1])
    ensures SlotAt(EnteredIn(D, k2, n, q2, slot)[k1], i1) == SlotAt(D[k1], i1)
    ensures SlotAt(D[k1], i1)[0] != SLOT_END
    ensures Linked(D[k2 := D[k2] + Zeros(n)], slotOf, root) && Name(D[k2 := D[k2] + Zeros(n)], (k2, q2)).None?
    ensures Name(D[k2 := D[k2] + Zeros(n)], (k1, i1)) == NameIn(SlotAt(D[k1], i1))
  {
    LinkedTidy(D, slotOf, root, k2);
    LiveNotEnd(SlotAt(D[k1], i1));
    hide SlotAt, PutSlot, NameIn, Name, Tidy, Linked, EnteredIn, Live, FirstDead;
    OldSlotStays(D, k1, i1, k2, n, q2, slot);
    SlotReady(D, slotOf, root, k2, n, q2, slot);
    NameAt(D[k2 := D[k2] + Zeros(n)], k2, q2);
    NameAt(D, k1, i1);
    OpenedNames(D, k2, n, (k1, i1));
  }

  /** The picture of names after a rename: exact exactly when the new slot names what the old one named. */
  lemma MovedLinked(D: map<nat, seq<byte>>, slotOf: map<nat, (nat, nat)>, root: nat, k1: nat, i1: nat,
                    k2: nat, n: nat, q2: nat, slot: Slot, gone: Slot, h: nat)
    requires Linked(D, slotOf, root) && Replaces(D, k1, i1, slot, gone, h)
    requires k2 in D && n % 32 == 0 && q2 == FirstDead(D[k2], 0) < Slots(D[k2] + Zeros(n))
    ensures i1 < Slots(EnteredIn(D, k2, n, q2, slot)[k1])
    ensures SlotAt(EnteredIn(D, k2, n, q2, slot)[k1], i1) == SlotAt(D[k1], i1)
    ensures var E := EnteredIn(D, k2, n, q2, slot);
      Linked(E[k1 := PutSlot(E[k1], i1, gone)], if h == 0 then slotOf else slotOf[h := (k2, q2)], root)
      <==> NameIn(slot) == NameIn(SlotAt(D[k1], i1))
  {
    hide SlotAt, PutSlot, NameIn, Name, Tidy, Linked, EnteredIn, Live, FirstDead;
    MovedBefore(D, slotOf, root, k1, i1, k2, n, q2, slot, gone, h);
    MovedNames(D, k1, i1, k2, n, q2, slot, gone);
    AllTidy(D, slotOf, root, k1, i1, k2, n, q2, slot, gone);
    var E := EnteredIn(D, k2, n, q2, slot);
    MovedCases(D[k2 := D[k2] + Zeros(n)], E[k1 := PutSlot(E[k1], i1, gone)], slotOf, root, (k1, i1), (k2, q2), h);
  }

  lemma LinkedTidy(D: map<nat, seq<byte>>, slotOf: map<nat, (nat, nat)>, root: nat, d: nat)
    requires Linked(D, slotOf, root) && d in D
    ensures |D[d]| % 32 == 0
  {
    assert Tidy(D[d]);
  }

  lemma LiveNotEnd(s: Slot)
    requires Live(s)
    ensures s[0] != SLOT_END
  {
  }

  lemma OpenedNames(D: map<nat, seq<byte>>, d: nat, n: nat, p: (nat, nat))
    requires d in D && |D[d]| % 32 == 0
    ensures Name(D[d := D[d] + Zeros(n)], p) == Name(D, p)
  {
    NamesOpened(D, d, n);
  }

  lemma MovedCases(op: map<nat, seq<byte>>, F: map<nat, seq<byte>>, slotOf: map<nat, (nat, nat)>, root: nat,
                   p: (nat, nat), q: (nat, nat), h: nat)
    requires Linked(op, slotOf, root) && F.Keys == op.Keys && p != q
    requires forall g :: g in F ==> Tidy(F[g])
    requires Name(op, q).None? && Name(F, p).None? && (Name(F, q) == Name(op, p) || Name(F, q).None?)
    requires forall o :: o != p && o != q ==> Name(F, o) == Name(op, o)
    requires if h == 0 then Name(op, p).None? else Name(op, p).Some? && Name(op, p).value.0 == h
    ensures Linked(F, if h == 0 then slotOf else slotOf[h := q], root) <==> Name(F, q) == Name(op, p)
  {
    hide Name, Tidy;
    if h == 0 {
      LinkedSameNames(op, F, slotOf, root);
    } else if Name(F, q) == Name(op, p) {
      LinkedMove(op, F, slotOf, root, h, q);
    } else {
      assert slotOf[h := q][h] == q;
    }
  }

  /** The picture after a rename. */
  ghost function Renamed(T: Tree, k2: nat, r: seq<nat>, q2: nat, h: nat): Tree {
    Tree(T.chains[k2 := r], if h == 0 then T.slotOf else T.slotOf[h := (k2, q2)], T.dirs)
  }

  /** After write_dir_entry the old slot is where it was. */
  lemma OldSlotFound(d: seq<seq<byte>>, e: seq<seq<byte>>, T: Tree, k1: nat, i1: nat,
                     k2: nat, r: seq<nat>, bpc: nat, q2: nat, slot: Slot)
    requires Readable(d, T) && k1 in T.dirs && k2 in T.dirs && AllDisjoint(T.chains[k2 := r]) && bpc % 32 == 0
    requires |e| == |d| && Within(r, |d|) && SlotEntered(d, e, T.chains[k2], r, bpc, q2, slot)
    requires |DirBytes(d, T)[k2]| % 32 == 0
    requires i1 < Slots(DirBytes(d, T)[k1]) && Live(SlotAt(DirBytes(d, T)[k1], i1))
    ensures (k1, i1) != (k2, q2) && Readable(e, Regrown(T, k2, r))
    ensures var n := if |r| > |T.chains[k2]| then bpc else 0;
      && q2 == FirstDead(DirBytes(d, T)[k2], 0) < Slots(DirBytes(d, T)[k2] + Zeros(n))
      && DirBytes(e, Regrown(T, k2, r)) == EnteredIn(DirBytes(d, T), k2, n, q2, slot)
    ensures var E := DirBytes(e, Regrown(T, k2, r));
      i1 < Slots(E[k1]) && SlotAt(E[k1], i1) == SlotAt(DirBytes(d, T)[k1], i1)
  {
    hide Content, PutSlot, Disjoint, FirstDead, SlotAt, Live;
    DirBytesEntered(d, e, T, k2, r, bpc, q2, slot);
    OldSlotStays(DirBytes(d, T), k1, i1, k2, if |r| > |T.chains[k2]| then bpc else 0, q2, slot);
  }

  lemma RenamedLinked(d: seq<seq<byte>>, e: seq<seq<byte>>, f: seq<seq<byte>>, T: Tree, root: nat,
                      k1: nat, i1: nat, k2: nat, r: seq<nat>, bpc: nat, q2: nat, slot: Slot, gone: Slot, h: nat)
    requires Readable(d, T) && k1 in T.dirs && k2 in T.dirs && AllDisjoint(T.chains[k2 := r]) && bpc % 32 == 0
    requires |f| == |e| == |d| && Within(r, |d|) && SlotEntered(d, e, T.chains[k2], r, bpc, q2, slot)
    requires Linked(DirBytes(d, T), T.slotOf, root) && slot[0] != SLOT_END && AttrOf(slot) != ATTR_LFN
    requires i1 < Slots(DirBytes(d, T)[k1]) && Live(SlotAt(DirBytes(d, T)[k1], i1)) && gone[0] == SLOT_DELETED
    requires var was := NameIn(SlotAt(DirBytes(d, T)[k1], i1));
      && (NameIn(slot) == was || NameIn(slot).None?)
      && NameIn(gone).None? && (if h == 0 then was.None? else was.Some? && was.value.0 == h)
    requires Readable(e, Regrown(T, k2, r)) && SlotStored(e, f, Regrown(T, k2, r).chains[k1], i1, gone)
    ensures Readable(f, Renamed(T, k2, r, q2, h))
    ensures Linked(DirBytes(f, Renamed(T, k2, r, q2, h)), Renamed(T, k2, r, q2, h).slotOf, root)
      <==> NameIn(slot) == NameIn(SlotAt(DirBytes(d, T)[k1], i1))
  {
    hide Content, PutSlot, Disjoint, FirstDead, SlotAt, Live, NameIn, Linked, SlotStored, SlotEntered, EnteredIn;
    var D, n := DirBytes(d, T), if |r| > |T.chains[k2]| then bpc else 0;
    LinkedTidy(D, T.slotOf, root, k2);
    OldSlotFound(d, e, T, k1, i1, k2, r, bpc, q2, slot);
    DirBytesStored(e, f, Regrown(T, k2, r), k1, i1, gone);
    MovedLinked(D, T.slotOf, root, k1, i1, k2, n, q2, slot, gone, h);
    assert DirBytes(f, Renamed(T, k2, r, q2, h)) == DirBytes(f, Regrown(T, k2, r));
  }

  /** The handle's slot, its deleted form, and the slot that replaces it. */
  lemma SlotsAgree(was: Slot, attr: byte, cluster: nat, name: seq<byte>, size: nat)
    requires HandleSlot(was, attr, cluster) && 0 !in name && size < 0x1_0000_0000
    ensures var s := NewSlot(Make83(name), attr, cluster, size);
      && s[0] != SLOT_END && AttrOf(s) != ATTR_LFN && Live(was)
      && (NameIn(s) == NameIn(was) || NameIn(s).None?)
      && (NameIn(s) == NameIn(was) <==> cluster == 0 || Storable(name)) && (!Storable(name) ==> NameIn(s).None?)
    ensures var gone := was[0 := SLOT_DELETED]; gone[0] == SLOT_DELETED && NameIn(gone).None?
    ensures Storable(name) ==> HandleSlot(NewSlot(Make83(name), attr, cluster, size), attr, cluster)
    ensures if cluster == 0 then NameIn(was).None? else NameIn(was).Some? && NameIn(was).value.0 == cluster
  {
    hide Make83, NewSlot, Storable;
    NewSlotNames(name, attr, cluster, size);
    HandleNames(was, attr, cluster);
    DeletedSlot(was);
  }

  /** Storing a slot moves no chain and changes no length. */
  lemma MovedSound(v: Volume, T: Tree, k2: nat, r: seq<nat>, q2: nat, h: nat)
    requires v.Valid() && Exact(v.fat, v.limit, T.chains[k2 := r]) && k2 in T.chains
    requires h != 0 ==> h in T.slotOf
    requires T.chains.Keys == T.slotOf.Keys + {v.rootCluster} && Readable(v.data, Renamed(T, k2, r, q2, h))
    ensures Sound(v, Renamed(T, k2, r, q2, h)) <==>
      Linked(DirBytes(v.data, Renamed(T, k2, r, q2, h)), Renamed(T, k2, r, q2, h).slotOf, v.rootCluster)
  {
    hide Exact, Linked, Content;
    var U := Renamed(T, k2, r, q2, h);
    assert U.slotOf.Keys == T.slotOf.Keys;
    assert U.chains.Keys == T.chains.Keys;
  }

  /** Only the two directories' clusters changed; the old slot is deleted and place q2 holds the new one. */
  ghost predicate SlotMoved(d: seq<seq<byte>>, f: seq<seq<byte>>, a: seq<nat>, i1: nat, r: seq<nat>, q2: nat,
                            slot: Slot)
  {
    && |f| == |d| && Within(a, |d|) && Within(r, |d|)
    && (forall c {:trigger f[c]} :: 0 <= c < |d| && c !in a && c !in r ==> f[c] == d[c])
    && i1 < Slots(Content(f, a)) && SlotAt(Content(f, a), i1)[0] == SLOT_DELETED
    && q2 < Slots(Content(f, r)) && SlotAt(Content(f, r), q2) == slot
  }

  lemma SlotMovedBoth(d: seq<seq<byte>>, e: seq<seq<byte>>, f: seq<seq<byte>>, s: seq<nat>, r: seq<nat>, bpc: nat,
                      q2: nat, slot: Slot, same: bool, a: seq<nat>, i1: nat, gone: Slot)
    requires Within(s, |d|) && Within(r, |d|) && Within(a, |d|) && |e| == |d|
    requires SlotEntered(d, e, s, r, bpc, q2, slot) && SlotStored(e, f, a, i1, gone)
    requires gone[0] == SLOT_DELETED && if same then a == r && i1 != q2 else Disjoint(a, r)
    ensures SlotMoved(d, f, a, i1, r, q2, slot)
  {
    hide Content, SlotAt, PutSlot, FirstDead;
    EnteredSlot(d, e, s, r, bpc, q2, slot);
    PutSlotAll(Content(e, a), i1, gone);
    if !same {
      DisjointFlip(a, r);
      ContentApart(e, f, r, a);
    }
  }

  lemma SlotMovedHere(d: seq<seq<byte>>, e: seq<seq<byte>>, f: seq<seq<byte>>, T: Tree, k1: nat, i1: nat,
                      k2: nat, r: seq<nat>, bpc: nat, q2: nat, slot: Slot, gone: Slot)
    requires Readable(d, T) && k1 in T.dirs && k2 in T.dirs && AllDisjoint(T.chains[k2 := r])
    requires |e| == |d| && Within(r, |d|) && SlotEntered(d, e, T.chains[k2], r, bpc, q2, slot)
    requires Readable(e, Regrown(T, k2, r)) && SlotStored(e, f, T.chains[k2 := r][k1], i1, gone)
    requires (k1, i1) != (k2, q2) && gone[0] == SLOT_DELETED
    ensures SlotMoved(d, f, T.chains[k2 := r][k1], i1, r, q2, slot)
  {
    hide Content, SlotAt, PutSlot, FirstDead, SlotStored, SlotEntered, Disjoint, Within;
    var all := T.chains[k2 := r];
    assert Disjoint(all[k1], all[k2]) || k1 == k2;
    SlotMovedBoth(d, e, f, T.chains[k2], r, bpc, q2, slot, k1 == k2, all[k1], i1, gone);
  }

  /** The directories' bytes after a rename: slot q2 of directory k2 entered, slot i1 of directory k1 deleted. */
  ghost predicate BytesMoved(d: seq<seq<byte>>, f: seq<seq<byte>>, T: Tree, U: Tree, k1: nat, i1: nat, k2: nat, q2: nat,
                             slot: Slot)
  {
    && Readable(d, T) && Readable(f, U) && k1 in T.dirs && k2 in T.dirs && (k1, i1) != (k2, q2)
    && exists n: nat :: MovedBy(DirBytes(d, T), DirBytes(f, U), k1, i1, k2, n, q2, slot)
  }

  ghost predicate MovedBy(D: map<nat, seq<byte>>, F: map<nat, seq<byte>>, k1: nat, i1: nat, k2: nat, n: nat, q2: nat,
                          slot: Slot)
    requires k1 in D && k2 in D
  {
    && n % 32 == 0 && q2 == FirstDead(D[k2], 0) < Slots(D[k2] + Zeros(n))
    && var E := EnteredIn(D, k2, n, q2, slot);
    && i1 < Slots(E[k1]) && F == E[k1 := PutSlot(E[k1], i1, SlotAt(E[k1], i1)[0 := SLOT_DELETED])]
  }

  lemma MoveBytes(d: seq<seq<byte>>, e: seq<seq<byte>>, f: seq<seq<byte>>, T: Tree, k1: nat, i1: nat,
                  k2: nat, r: seq<nat>, bpc: nat, q2: nat, slot: Slot, h: nat)
    requires Readable(d, T) && k1 in T.dirs && k2 in T.dirs && AllDisjoint(T.chains[k2 := r]) && bpc % 32 == 0
    requires |f| == |e| == |d| && Within(r, |d|) && SlotEntered(d, e, T.chains[k2], r, bpc, q2, slot)
    requires |DirBytes(d, T)[k2]| % 32 == 0
    requires i1 < Slots(DirBytes(d, T)[k1]) && Live(SlotAt(DirBytes(d, T)[k1], i1))
    requires Readable(e, Regrown(T, k2, r))
    requires SlotStored(e, f, T.chains[k2 := r][k1], i1, SlotAt(DirBytes(d, T)[k1], i1)[0 := SLOT_DELETED])
    ensures BytesMoved(d, f, T, Renamed(T, k2, r, q2, h), k1, i1, k2, q2, slot)
  {
    hide Content, PutSlot, Disjoint, FirstDead, SlotAt, Live, SlotEntered, SlotStored, EnteredIn;
    var n := if |r| > |T.chains[k2]| then bpc else 0;
    OldSlotFound(d, e, T, k1, i1, k2, r, bpc, q2, slot);
    DirBytesStored(e, f, Regrown(T, k2, r), k1, i1, SlotAt(DirBytes(d, T)[k1], i1)[0 := SLOT_DELETED]);
    assert DirBytes(f, Renamed(T, k2, r, q2, h)) == DirBytes(f, Regrown(T, k2, r));
    assert MovedBy(DirBytes(d, T), DirBytes(f, Renamed(T, k2, r, q2, h)), k1, i1, k2, n, q2, slot);
  }

  /** After a move to a slot that names nothing no slot names chain h. */
  lemma MovedAway(D: map<nat, seq<byte>>, F: map<nat, seq<byte>>, slotOf: map<nat, (nat, nat)>, root: nat,
                  k1: nat, i1: nat, k2: nat, n: nat, q2: nat, slot: Slot, h: nat)
    requires Linked(D, slotOf, root) && h in slotOf && slotOf[h] == (k1, i1) && k1 in D && k2 in D
    requires MovedBy(D, F, k1, i1, k2, n, q2, slot) && (k1, i1) != (k2, q2) && NameIn(slot).None?
    ensures F.Keys == D.Keys && KnowsDirs(F)
    ensures forall p :: Name(F, p).Some? ==> Name(F, p).value.0 != h
  {
    hide SlotAt, PutSlot, NameIn, Name, Tidy, FirstDead;
    LinkedTidy(D, slotOf, root, k2);
    var E := EnteredIn(D, k2, n, q2, slot);
    var gone: Slot := SlotAt(E[k1], i1)[0 := SLOT_DELETED];
    DeletedSlot(SlotAt(E[k1], i1));
    MovedNames(D, k1, i1, k2, n, q2, slot, gone);
    assert F == E[k1 := PutSlot(E[k1], i1, gone)];
    forall p: (nat, nat) | Name(F, p).Some? ensures p != (k1, i1) && Name(F, p) == Name(D, p) {
      OpenedNames(D, k2, n, p);
    }
  }

  /** Whether a picture of the volume is left after a rename depends on the new name and on the target. */
  lemma MovedRecoverable(v: Volume, d: seq<seq<byte>>, T: Tree, k1: nat, i1: nat, k2: nat, r: seq<nat>, q2: nat,
                         h: nat, slot: Slot, named: bool)
    requires var U := Renamed(T, k2, r, q2, h);
      && v.Valid() && Exact(v.fat, v.limit, U.chains) && BytesMoved(d, v.data, T, U, k1, i1, k2, q2, slot)
      && (Sound(v, U) <==> h == 0 || named) && (h != 0 && !named ==> NameIn(slot).None?)
    requires Linked(DirBytes(d, T), T.slotOf, v.rootCluster) && v.rootCluster in T.dirs
    requires h != 0 ==> h in T.slotOf && h in T.chains && h != v.rootCluster && T.slotOf[h] == (k1, i1)
    requires Rooted(T.slotOf, v.rootCluster) && (k2 == v.rootCluster || k2 in T.slotOf)
    ensures Recoverable(v) <==> h == 0 || (named && !Under(T.slotOf, k2, h))
  {
    hide Exact, Rooted, Under, Linked, Name, NameIn, MovedBy, Content;
    var U := Renamed(T, k2, r, q2, h);
    if h == 0 || named {
      SoundRecoverable(v, U);
      if h != 0 { RenameRooted(T.slotOf, v.rootCluster, h, (k2, q2)); }
    } else {
      var n: nat :| MovedBy(DirBytes(d, T), DirBytes(v.data, U), k1, i1, k2, n, q2, slot);
      MovedAway(DirBytes(d, T), DirBytes(v.data, U), T.slotOf, v.rootCluster, k1, i1, k2, n, q2, slot, h);
      Lost(v, U, h);
    }
  }

  /** fat32_rename on the volume: the new slot, then the end of the old one. */
  method MoveSlot(v: Volume, e: Entry, newDirCluster: nat, newName: seq<byte>, ghost T: Tree)
      returns (res: int, idx: nat, ghost r: seq<nat>)
    requires Sound(v, T) && Handle(v, T, e) && HasDir(v, T, newDirCluster) && 0 !in newName
    requires e.size < 0x1_0000_0000
    modifies v`disk, v`cacheDirty, v`cacheLba, v`fat, v`data, v.cache
    ensures res == OK || res == ERR_NOSPACE
    ensures res == ERR_NOSPACE ==> Unchanged(v, T, old(v.fat), old(v.data)) && NoFreeCluster(v.fat)
    ensures res == OK ==>
      (Sound(v, Renamed(T, DirStart(v, newDirCluster), r, idx, e.cluster)) <==> e.cluster == 0 || Storable(newName))
    ensures res == OK ==> DirStart(v, e.dirCluster) in T.chains
    ensures res == OK ==> v.Valid() && Exact(v.fat, v.limit, T.chains[DirStart(v, newDirCluster) := r])
    ensures res == OK && !Storable(newName) ==>
      NameIn(NewSlot(Make83(newName), e.attr, e.cluster, e.size)).None?
    ensures res == OK ==>
      SlotMoved(old(v.data), v.data, T.chains[DirStart(v, newDirCluster) := r][DirStart(v, e.dirCluster)], e.dirIndex,
                r, idx, NewSlot(Make83(newName), e.attr, e.cluster, e.size))
    ensures res == OK ==>
      BytesMoved(old(v.data), v.data, T, Renamed(T, DirStart(v, newDirCluster), r, idx, e.cluster),
                 DirStart(v, e.dirCluster), e.dirIndex, DirStart(v, newDirCluster), idx,
                 NewSlot(Make83(newName), e.attr, e.cluster, e.size))
    ensures Storable(newName) ==>
      HandleSlot(NewSlot(Make83(newName), e.attr, e.cluster, e.size), e.attr, e.cluster)
  {
    hide Content, PutSlot, Disjoint, FirstDead, SlotAt, NameIn, Linked, Exact, Chain, Within, Tidy,
      Grown, Make83, NewSlot, Live, SlotEntered, NoFreeCluster, HandleSlot, SlotStored, Storable, MovedBy;
    ghost var d, k1, k2 := v.data, DirStart(v, e.dirCluster), DirStart(v, newDirCluster);
    ghost var was := SlotAt(DirBytes(d, T)[k1], e.dirIndex);
    SlotsAgree(was, e.attr, e.cluster, newName, e.size);
    if e.cluster != 0 { HandleChain(v, T, e); }
    LinkedTidy(DirBytes(d, T), T.slotOf, v.rootCluster, k2);
    res, idx, r := Enter(v, newDirCluster, newName, e.attr, e.cluster, e.size, T);
    if res != OK { return; }
    ghost var e1, slot := v.data, NewSlot(Make83(newName), e.attr, e.cluster, e.size);
    OldSlotFound(d, e1, T, k1, e.dirIndex, k2, r, v.Bpc(), idx, slot);
    ExactParts(v, Regrown(T, k2, r), k1);
    res := MarkDeleted(v, e.dirCluster, e.dirIndex, Regrown(T, k2, r).chains[k1]);
    RenamedLinked(d, e1, v.data, T, v.rootCluster, k1, e.dirIndex, k2, r, v.Bpc(), idx, slot, was[0 := SLOT_DELETED],
      e.cluster);
    MoveBytes(d, e1, v.data, T, k1, e.dirIndex, k2, r, v.Bpc(), idx, slot, e.cluster);
    SlotMovedHere(d, e1, v.data, T, k1, e.dirIndex, k2, r, v.Bpc(), idx, slot, was[0 := SLOT_DELETED]);
    MovedSound(v, T, k2, r, idx, e.cluster);
  }

  /** fat32_rename. A name that makes no live slot loses a nonempty file: nothing names its chain any more. */
  method Rename(v: Volume, e: Entry, newDirCluster: nat, newName: seq<byte>, ghost T: Tree)
      returns (res: int, ghost U: Tree, ghost r: seq<nat>)
    requires Sound(v, T) && Handle(v, T, e) && HasDir(v, T, newDirCluster) && 0 !in newName
    requires e.size < 0x1_0000_0000
    modifies v`disk, v`cacheDirty, v`cacheLba, v`fat, v`data, v.cache, e`name, e`dirCluster, e`dirIndex
    ensures res == OK || res == ERR_NOSPACE
    ensures res == ERR_NOSPACE ==> U == T && Unchanged(v, T, old(v.fat), old(v.data)) && NoFreeCluster(v.fat)
    ensures res == OK ==> U == Renamed(T, DirStart(v, newDirCluster), r, e.dirIndex, e.cluster)
    ensures res == OK ==> (Sound(v, U) <==> e.cluster == 0 || Storable(newName))
    ensures res == OK && Rooted(T.slotOf, v.rootCluster) ==>
      (Recoverable(v)
       <==> e.cluster == 0 || (Storable(newName) && !Under(T.slotOf, DirStart(v, newDirCluster), e.cluster)))
    ensures res == OK ==> e.name == newName && e.dirCluster == newDirCluster
    ensures res == OK ==>
      SlotMoved(old(v.data), v.data, U.chains[DirStart(v, old(e.dirCluster))], old(e.dirIndex),
                r, e.dirIndex, NewSlot(Make83(newName), e.attr, e.cluster, e.size))
    ensures res == OK ==>
      BytesMoved(old(v.data), v.data, T, U, DirStart(v, old(e.dirCluster)), old(e.dirIndex), DirStart(v, newDirCluster),
                 e.dirIndex, NewSlot(Make83(newName), e.attr, e.cluster, e.size))
    ensures res == OK && Storable(newName) ==> Handle(v, U, e)
  {
    hide Content, Linked, Exact, NoFreeCluster, HandleSlot, Storable, Framed, NewSlot, Make83, SlotAt, BytesMoved,
      Rooted, Recoverable, Under, Handle, SlotMoved, Sound, Readable;
    U := T;
    MoveFacts(v, T, e, newDirCluster);
    ghost var d, h, k1, i1, k2 := v.data, e.cluster, DirStart(v, e.dirCluster), e.dirIndex, DirStart(v, newDirCluster);
    var idx;
    res, idx, r := MoveSlot(v, e, newDirCluster, newName, T);
    if res != OK { return; }
    U := Renamed(T, DirStart(v, newDirCluster), r, idx, e.cluster);
    if Rooted(T.slotOf, v.rootCluster) {
      MovedRecoverable(v, d, T, k1, i1, k2, r, idx, h, NewSlot(Make83(newName), e.attr, h, e.size), Storable(newName));
    }
    e.name, e.dirCluster, e.dirIndex := newName, newDirCluster, idx;
    if Storable(newName) {
      RenamedHandle(v, U, e, d, U.chains[k1], i1, r, NewSlot(Make83(newName), e.attr, h, e.size));
    }
  }

  /** The slot a rename filled is the one its handle now stands for. */
  lemma RenamedHandle(v: Volume, U: Tree, e: Entry, d: seq<seq<byte>>, a: seq<nat>, i1: nat, r: seq<nat>, slot: Slot)
    requires Sound(v, U) && HasDir(v, U, e.dirCluster) && U.chains[DirStart(v, e.dirCluster)] == r
    requires SlotMoved(d, v.data, a, i1, r, e.dirIndex, slot) && HandleSlot(slot, e.attr, e.cluster)
    ensures Handle(v, U, e)
  {
    hide Content, HandleSlot, SlotAt;
  }

  /** What a rename finds. */
  lemma MoveFacts(v: Volume, T: Tree, e: Entry, newDirCluster: nat)
    requires Sound(v, T) && Handle(v, T, e) && HasDir(v, T, newDirCluster)
    ensures Readable(v.data, T) && Linked(DirBytes(v.data, T), T.slotOf, v.rootCluster) && v.rootCluster in T.dirs
    ensures e.cluster != 0 ==> e.cluster in T.slotOf && e.cluster in T.chains && e.cluster != v.rootCluster
    ensures e.cluster != 0 ==> T.slotOf[e.cluster] == (DirStart(v, e.dirCluster), e.dirIndex)
    ensures DirStart(v, newDirCluster) == v.rootCluster || DirStart(v, newDirCluster) in T.slotOf
  {
    hide Exact, NameIn, Content, SlotAt, HandleSlot;
    RootIsDir(v, T);
    PlacesAreDirs(v, T);
    if e.cluster != 0 { HandleChain(v, T, e); }
  }
}
