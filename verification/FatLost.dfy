/**
 What a volume can still be read as. A picture in which everything is reachable is the only one there is, so a
 chain that no reachable slot names is lost, whatever picture one tries.
 */
module FatLost {
  import opened Bytes
  import opened FatVolume
  import opened FatChains
  import opened FatSlots
  import opened FatTree
  import opened FatOps
  import opened FatRooted

  /** Some picture of the volume is sound, and everything in it can be reached from the root. */
  ghost predicate Recoverable(v: Volume)
    reads v, v.cache
  {
    exists T: Tree :: Sound(v, T) && Rooted(T.slotOf, v.rootCluster)
  }

  /** Slots that name directories name known ones. */
  ghost predicate KnowsDirs(D: map<nat, seq<byte>>) {
    forall p :: Name(D, p).Some? && Name(D, p).value.1 ==> Name(D, p).value.0 in D
  }

  /** The chains of T are exact and its directories are known, though not every chain need be named. */
  ghost predicate Sketch(v: Volume, T: Tree)
    reads v, v.cache
  {
    && v.Valid() && Exact(v.fat, v.limit, T.chains) && Readable(v.data, T) && v.rootCluster in T.dirs
    && KnowsDirs(DirBytes(v.data, T))
  }

  lemma SoundSketch(v: Volume, T: Tree)
    requires Sound(v, T)
    ensures Sketch(v, T)
  {
    hide Exact, NameIn;
  }

  lemma SameChains(v: Volume, T: Tree, W: Tree)
    requires Sketch(v, T) && Sketch(v, W)
    ensures W.chains == T.chains
  {
    hide Exact, KnowsDirs;
    TableDetermines(v.fat, v.limit, W.chains, T.chains);
  }

  lemma SameEntry(d: seq<seq<byte>>, T: Tree, W: Tree, p: (nat, nat))
    requires Readable(d, T) && Readable(d, W) && W.chains == T.chains && p.0 in W.dirs && p.0 in T.dirs
    ensures Name(DirBytes(d, W), p) == Name(DirBytes(d, T), p)
  {
    hide Content, NameIn;
  }

  /** Going down from the root, a sound picture meets only directories that are known. */
  lemma {:induction false} ReachedIsKnown(v: Volume, T: Tree, W: Tree, k: nat, n: nat)
    requires Sketch(v, T) && Sound(v, W) && k in W.dirs && Above(W.slotOf, k, n) == v.rootCluster
    ensures k in T.dirs
    decreases n
  {
    hide Exact, Content, NameIn, Sketch, Name;
    SketchParts(v, T, W);
    if k != v.rootCluster {
      var p := W.slotOf[k];
      DirPlace(v, W, k);
      ReachedIsKnown(v, T, W, p.0, n - 1);
      SameEntry(v.data, T, W, p);
    }
  }

  lemma SketchParts(v: Volume, T: Tree, W: Tree)
    requires Sketch(v, T) && Sound(v, W)
    ensures Readable(v.data, T) && Readable(v.data, W) && v.rootCluster in T.dirs && KnowsDirs(DirBytes(v.data, T))
    ensures W.chains == T.chains
    ensures v.rootCluster !in W.slotOf && forall k :: k in W.dirs ==> k == v.rootCluster || k in W.slotOf
  {
    hide Exact, KnowsDirs;
    SoundSketch(v, W);
    SameChains(v, T, W);
    PlacesAreDirs(v, W);
  }

  lemma DirPlace(v: Volume, W: Tree, k: nat)
    requires Sound(v, W) && k in W.slotOf
    ensures W.slotOf[k].0 in W.dirs && Name(DirBytes(v.data, W), W.slotOf[k]) == Some((k, k in W.dirs))
  {
    hide Exact, NameIn;
    PlacesAreDirs(v, W);
  }

  /** In a sound picture in which everything is reachable every chain but the root's has a name in a known directory. */
  lemma NamedSomewhere(v: Volume, T: Tree, W: Tree, h: nat)
    requires Sketch(v, T) && Sound(v, W) && Rooted(W.slotOf, v.rootCluster) && h in T.chains && h != v.rootCluster
    ensures h in W.slotOf && W.slotOf[h].0 in T.dirs && Name(DirBytes(v.data, T), W.slotOf[h]).Some?
    ensures Name(DirBytes(v.data, T), W.slotOf[h]).value.0 == h
  {
    hide Exact, Content, NameIn, Sketch, Name, Linked;
    SketchParts(v, T, W);
    assert h in W.slotOf;
    var p := W.slotOf[h];
    DirPlace(v, W, h);
    if p.0 != v.rootCluster {
      assert Reaches(W.slotOf, v.rootCluster, p.0);
      var n: nat :| Above(W.slotOf, p.0, n) == v.rootCluster;
      ReachedIsKnown(v, T, W, p.0, n);
    }
    SameEntry(v.data, T, W, p);
  }

  /** A chain that no known directory names is lost. */
  lemma Lost(v: Volume, T: Tree, h: nat)
    requires Sketch(v, T) && h in T.chains && h != v.rootCluster
    requires forall p :: Name(DirBytes(v.data, T), p).Some? ==> Name(DirBytes(v.data, T), p).value.0 != h
    ensures !Recoverable(v)
  {
    hide Sketch, Sound, Name, Rooted;
    if Recoverable(v) {
      var W: Tree :| Sound(v, W) && Rooted(W.slotOf, v.rootCluster);
      NamedSomewhere(v, T, W, h);
    }
  }

  /** Two sound pictures have the same names, if everything in one of them is reachable. */
  lemma OnlyPicture(v: Volume, T: Tree, W: Tree)
    requires Sound(v, T) && Sound(v, W) && Rooted(W.slotOf, v.rootCluster)
    ensures T.chains == W.chains && T.slotOf == W.slotOf && T.dirs == W.dirs
  {
    hide Exact, Content, NameIn, Sketch, Name;
    SoundSketch(v, T);
    SketchParts(v, T, W);
    forall h | h in T.slotOf ensures h in W.slotOf && W.slotOf[h] == T.slotOf[h] {
      NamedSomewhere(v, T, W, h);
    }
    assert T.slotOf.Keys == W.slotOf.Keys;
    forall h | h in T.slotOf ensures h in T.dirs <==> h in W.dirs {
      DirPlace(v, T, h);
      DirPlace(v, W, h);
      NamedSomewhere(v, T, W, h);
      SameEntry(v.data, T, W, T.slotOf[h]);
    }
    RootIsDir(v, T);
    RootIsDir(v, W);
    PlacesAreDirs(v, T);
  }

  /** So a volume of which a sound picture is known can be recovered exactly if everything in that one is reachable. */
  lemma SoundRecoverable(v: Volume, T: Tree)
    requires Sound(v, T)
    ensures Recoverable(v) <==> Rooted(T.slotOf, v.rootCluster)
  {
    hide Sound, Rooted;
    if Recoverable(v) {
      var W: Tree :| Sound(v, W) && Rooted(W.slotOf, v.rootCluster);
      OnlyPicture(v, T, W);
    }
  }
}
