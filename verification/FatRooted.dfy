/**
 Reachability. Exactness says that every chain is named by a slot; that the slot lies in a directory
 that can be reached from the root is a matter of its own, and the one operation that can break it
 is a rename. It does exactly when a directory is moved to itself or to somewhere below itself.
 */
module FatRooted {
  import opened Bytes
  import opened FatVolume
  import opened FatSlots
  import opened FatTree
  import opened FatOps

  type Places = map<nat, (nat, nat)>

  /** The directory n levels above chain h; the root is above itself. */
  ghost function Above(places: Places, h: nat, n: nat): nat
    decreases n
  {
    if n == 0 || h !in places then h else Above(places, places[h].0, n - 1)
  }

  ghost predicate Reaches(places: Places, root: nat, h: nat) {
    exists n: nat :: Above(places, h, n) == root
  }

  /** Every file and directory can be reached from the root. */
  ghost predicate Rooted(places: Places, root: nat) {
    root !in places && forall h :: h in places ==> Reaches(places, root, h)
  }

  /** Directory k is h or lies below it. */
  ghost predicate Under(places: Places, k: nat, h: nat) {
    exists n: nat :: Above(places, k, n) == h
  }

  lemma {:induction false} AboveSum(places: Places, h: nat, m: nat, n: nat)
    ensures Above(places, Above(places, h, m), n) == Above(places, h, m + n)
    decreases m
  {
    if m > 0 {
      if h in places {
        AboveSum(places, places[h].0, m - 1, n);
      } else {
        StaysPut(places, h, n);
        StaysPut(places, h, m + n);
      }
    }
  }

  lemma StaysPut(places: Places, h: nat, n: nat)
    requires h !in places
    ensures Above(places, h, n) == h
  {
  }

  /** A climb that never meets h is not affected by moving h. */
  lemma {:induction false} SameClimb(places: Places, h: nat, p: (nat, nat), k: nat, n: nat)
    requires forall i: nat :: i < n ==> Above(places, k, i) != h
    ensures Above(places[h := p], k, n) == Above(places, k, n)
    decreases n
  {
    if n > 0 {
      assert Above(places, k, 0) == k;
      if k in places {
        forall i: nat | i < n - 1 ensures Above(places, places[k].0, i) != h {
          assert Above(places, k, i + 1) == Above(places, places[k].0, i);
        }
        SameClimb(places, h, p, places[k].0, n - 1);
      }
    }
  }

  /** The first time a climb meets h, if it does within n steps. */
  ghost function Meets(places: Places, k: nat, h: nat, n: nat): (i: nat)
    ensures i <= n
    ensures i < n ==> Above(places, k, i) == h
    ensures forall j: nat :: j < i ==> Above(places, k, j) != h
    decreases n
  {
    if n == 0 then 0 else
      var i := Meets(places, k, h, n - 1);
      if i < n - 1 then i else if Above(places, k, n - 1) == h then n - 1 else n
  }

  /** After a move to a place from which the root is reached without h, everything still reaches the root. */
  lemma MovedReaches(places: Places, root: nat, h: nat, p: (nat, nat), g: nat)
    requires Rooted(places, root) && h in places && !Under(places, p.0, h) && Reaches(places, root, p.0)
    requires Reaches(places, root, g)
    ensures Reaches(places[h := p], root, g)
  {
    var now := places[h := p];
    var n: nat :| Above(places, g, n) == root;
    var m: nat :| Above(places, p.0, m) == root;
    SameClimb(places, h, p, p.0, m);
    var i := Meets(places, g, h, n);
    if i < n {
      SameClimb(places, h, p, g, i);
      assert Above(now, h, 1 + m) == Above(now, p.0, m);
      AboveSum(now, g, i, 1 + m);
      assert Above(now, g, i + (1 + m)) == root;
    } else {
      SameClimb(places, h, p, g, n);
    }
  }

  /** After a move below itself a directory only ever meets directories below itself. */
  lemma {:induction false} GoesRound(places: Places, h: nat, p: (nat, nat), m: nat, n: nat)
    requires h in places && Above(places, p.0, m) == h && forall j: nat :: j < m ==> Above(places, p.0, j) != h
    ensures exists i: nat :: i <= m && Above(places[h := p], h, n) == Above(places, p.0, i)
    decreases n
  {
    var now := places[h := p];
    if n == 0 {
      assert m <= m && Above(now, h, 0) == Above(places, p.0, m);
    } else {
      GoesRound(places, h, p, m, n - 1);
      var i: nat :| i <= m && Above(now, h, n - 1) == Above(places, p.0, i);
      AboveSum(now, h, n - 1, 1);
      AboveSum(places, p.0, i, 1);
      var x := Above(places, p.0, i);
      if i == m {
        assert Above(now, x, 1) == p.0 == Above(places, p.0, 0);
      } else if x in places {
        assert Above(now, x, 1) == Above(places, x, 1) == Above(places, p.0, i + 1);
      } else {
        StaysPut(now, x, 1);
        assert Above(now, h, n) == Above(places, p.0, i);
      }
    }
  }

  lemma RootNotUnder(places: Places, root: nat, h: nat, k: nat, m: nat, i: nat)
    requires root !in places && h in places && Above(places, k, m) == h && i <= m
    ensures Above(places, k, i) != root
  {
    if Above(places, k, i) == root {
      AboveSum(places, k, i, m - i);
      StaysPut(places, root, m - i);
    }
  }

  /** fat32_rename keeps everything reachable exactly when the target is not the moved directory or below it. */
  lemma RenameRooted(places: Places, root: nat, h: nat, p: (nat, nat))
    requires Rooted(places, root) && h in places && (p.0 == root || p.0 in places)
    ensures Rooted(places[h := p], root) <==> !Under(places, p.0, h)
  {
    var now := places[h := p];
    assert p.0 == root ==> Above(places, p.0, 0) == root;
    if Under(places, p.0, h) {
      var n: nat :| Above(places, p.0, n) == h;
      var m := Meets(places, p.0, h, n + 1);
      if Reaches(now, root, h) {
        var s: nat :| Above(now, h, s) == root;
        GoesRound(places, h, p, m, s);
        var i: nat :| i <= m && Above(now, h, s) == Above(places, p.0, i);
        RootNotUnder(places, root, h, p.0, m, i);
      }
      assert h in now;
    } else {
      forall g | g in now ensures Reaches(now, root, g) {
        MovedReaches(places, root, h, p, g);
      }
    }
  }

  // ---- The other operations ----

  /** A new name in a reachable directory is reachable. */
  lemma AddRooted(places: Places, root: nat, h: nat, p: (nat, nat))
    requires Rooted(places, root) && h !in places && h != root && (p.0 == root || p.0 in places)
    ensures Rooted(places[h := p], root)
  {
    var now := places[h := p];
    assert p.0 == root ==> Above(places, p.0, 0) == root;
    forall g | g in now ensures Reaches(now, root, g) {
      var k := if g == h then p.0 else g;
      var n: nat :| Above(places, k, n) == root;
      NewNameUnmet(places, root, h, p, k, n);
      if g == h { assert Above(now, h, n + 1) == root; }
    }
  }

  lemma {:induction false} NewNameUnmet(places: Places, root: nat, h: nat, p: (nat, nat), k: nat, n: nat)
    requires h !in places && h != root && Above(places, k, n) == root
    ensures Above(places[h := p], k, n) == root
    decreases n
  {
    if k == h {
      StaysPut(places, h, n);
    } else if n > 0 && k in places {
      NewNameUnmet(places, root, h, p, places[k].0, n - 1);
    }
  }

  /** Taking away a name that holds no other keeps the rest reachable. */
  lemma DropRooted(places: Places, root: nat, h: nat)
    requires Rooted(places, root) && h in places && forall g :: g in places ==> places[g].0 != h
    ensures Rooted(places - {h}, root)
  {
    forall g | g in places - {h} ensures Reaches(places - {h}, root, g) {
      var n: nat :| Above(places, g, n) == root;
      OthersClimb(places, h, g, n);
    }
  }

  lemma {:induction false} OthersClimb(places: Places, h: nat, g: nat, n: nat)
    requires h in places && g != h && forall k :: k in places ==> places[k].0 != h
    ensures Above(places - {h}, g, n) == Above(places, g, n)
    decreases n
  {
    if n > 0 && g in places { OthersClimb(places, h, places[g].0, n - 1); }
  }

  // ---- On the picture of a volume ----

  /** Slots lie in directories, and directories other than the root are named. */
  lemma PlacesAreDirs(v: Volume, T: Tree)
    requires Sound(v, T)
    ensures v.rootCluster !in T.slotOf && 0 !in T.slotOf
    ensures forall g :: g in T.slotOf ==> T.slotOf[g].0 in T.dirs && g in T.chains
    ensures forall k :: k in T.dirs ==> k == v.rootCluster || k in T.slotOf
  {
    hide NameIn, Exact, Tidy;
    NoClusterZero(v, T);
    var D := DirBytes(v.data, T);
    forall g | g in T.slotOf ensures T.slotOf[g].0 in T.dirs {
      assert Name(D, T.slotOf[g]).Some?;
    }
  }

  /** A directory whose slots name nothing holds no place. */
  lemma EmptyHoldsNone(v: Volume, T: Tree, h: nat)
    requires Sound(v, T) && HoldsNothing(v.data, T, h)
    ensures forall g :: g in T.slotOf ==> T.slotOf[g].0 != h
  {
    hide NameIn, Exact, Tidy, SlotAt;
    var D := DirBytes(v.data, T);
    forall g | g in T.slotOf ensures T.slotOf[g].0 != h {
      assert Name(D, T.slotOf[g]).Some?;
    }
  }

  /** Removing an empty directory or a file. */
  lemma WithoutRooted(v: Volume, T: Tree, h: nat)
    requires Sound(v, T) && (h == 0 || (h in T.slotOf && HoldsNothing(v.data, T, h))) && Rooted(T.slotOf, v.rootCluster)
    ensures Rooted(Without(T, h).slotOf, v.rootCluster)
  {
    if h != 0 {
      EmptyHoldsNone(v, T, h);
      DropRooted(T.slotOf, v.rootCluster, h);
    }
  }
}
