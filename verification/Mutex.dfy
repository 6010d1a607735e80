/**
 The xchg lock with its owner fast path, run by any number of processes in any interleaving. Every
 access to the two fields is a step of its own. Calls are balanced: a process may unlock once for each
 time mutex_lock or mutex_trylock let it in.

 The fast path lets a holder lock again, but nothing counts how often, so its first unlock frees the
 lock. Mutual exclusion therefore holds in all runs only for a single process; and in the runs in
 which no process unlocks from within a nested lock, exactly when the ids tell the processes apart.
 */
module Mutex {
  const NOBODY := 0xFFFF_FFFF

  type Pid = x: nat | x <= NOBODY

  /** The access a process makes next; retry tells mutex_lock, which tries until it succeeds, from mutex_trylock. */
  datatype At =
    | Idle
    | ReadLocked
    | ReadOwner
    | Exchange(retry: bool)
    | SetOwner
    | ClearOwner
    | ClearLocked

  datatype Kind = Lock | Trylock | Unlock | Go

  /** The lock, and one process: its next access, and how many of its locks are not yet unlocked. */
  datatype View = View(locked: bool, owner: Pid, at: At, depth: nat)

  predicate CanDo(x: View, k: Kind) {
    match k
    case Lock => x.at == Idle
    case Trylock => x.at == Idle
    case Unlock => x.at == Idle && x.depth > 0
    case Go => x.at != Idle
  }

  /** Begin a call, or make the next access of the call that is going on. */
  function Did(x: View, pid: Pid, k: Kind): View
    requires CanDo(x, k)
  {
    match k
    case Lock => x.(at := ReadLocked)
    case Trylock => x.(at := Exchange(false))
    case Unlock => x.(at := ClearOwner)
    case Go =>
      match x.at
      case ReadLocked => x.(at := if x.locked then ReadOwner else Exchange(true))
      case ReadOwner => if x.owner == pid then x.(at := Idle, depth := x.depth + 1) else x.(at := Exchange(true))
      case Exchange(retry) =>
        x.(locked := true, at := if !x.locked then SetOwner else if retry then Exchange(true) else Idle)
      case SetOwner => x.(owner := pid, at := Idle, depth := x.depth + 1)
      case ClearOwner => x.(owner := NOBODY, at := ClearLocked)
      case ClearLocked => x.(locked := false, at := Idle, depth := if x.depth > 0 then x.depth - 1 else 0)
  }

  // ---- All processes together ----

  datatype World = World(locked: bool, owner: Pid, at: seq<At>, depth: seq<nat>)

  datatype Move = Move(i: nat, kind: Kind)

  predicate Fits(pids: seq<Pid>, w: World) { |w.at| == |pids| && |w.depth| == |pids| }

  function Of(w: World, i: nat): View
    requires i < |w.at| && i < |w.depth|
  {
    View(w.locked, w.owner, w.at[i], w.depth[i])
  }

  function With(w: World, i: nat, x: View): World
    requires i < |w.at| && i < |w.depth|
  {
    World(x.locked, x.owner, w.at[i := x.at], w.depth[i := x.depth])
  }

  predicate Possible(pids: seq<Pid>, w: World, m: Move)
    requires Fits(pids, w)
  {
    m.i < |pids| && CanDo(Of(w, m.i), m.kind)
  }

  function Moved(pids: seq<Pid>, w: World, m: Move): (v: World)
    requires Fits(pids, w) && Possible(pids, w, m)
    ensures Fits(pids, v)
  {
    With(w, m.i, Did(Of(w, m.i), pids[m.i], m.kind))
  }

  /** What callers keep to, besides balancing their calls. */
  datatype Rule = Any | NoInnerUnlock | NoRelock

  predicate Obeys(rule: Rule, x: View, k: Kind) {
    match rule
    case Any => true
    case NoInnerUnlock => k == Unlock ==> x.depth <= 1
    case NoRelock => k == Lock ==> x.depth == 0
  }

  predicate IsRun(rule: Rule, pids: seq<Pid>, w: World, ms: seq<Move>)
    requires Fits(pids, w)
    decreases |ms|
  {
    ms == [] ||
    (Possible(pids, w, ms[0]) && Obeys(rule, Of(w, ms[0].i), ms[0].kind)
     && IsRun(rule, pids, Moved(pids, w, ms[0]), ms[1..]))
  }

  function After(rule: Rule, pids: seq<Pid>, w: World, ms: seq<Move>): (v: World)
    requires Fits(pids, w) && IsRun(rule, pids, w, ms)
    ensures Fits(pids, v)
    decreases |ms|
  {
    if ms == [] then w else After(rule, pids, Moved(pids, w, ms[0]), ms[1..])
  }

  /** mutex_init, and no call begun */
  function Start(n: nat): World { World(false, NOBODY, seq(n, i => Idle), seq(n, i => 0)) }

  /** The process has won the exchange, or has locks it has not unlocked. */
  predicate Inside(x: View) { x.depth > 0 || x.at == SetOwner }

  ghost predicate Exclusive(w: World)
    requires |w.at| == |w.depth|
  {
    forall i, j :: 0 <= i < j < |w.at| ==> !(Inside(Of(w, i)) && Inside(Of(w, j)))
  }

  /** In every interleaving that keeps the rule at most one process is inside. */
  ghost predicate AlwaysExclusive(rule: Rule, pids: seq<Pid>) {
    forall ms :: IsRun(rule, pids, Start(|pids|), ms) ==> Exclusive(After(rule, pids, Start(|pids|), ms))
  }

  /** The ids tell the processes apart, and none stands for no owner. */
  ghost predicate Distinct(pids: seq<Pid>) {
    (forall i, j :: 0 <= i < j < |pids| ==> pids[i] != pids[j]) && NOBODY !in pids
  }

  ghost predicate GoodIds(pids: seq<Pid>) { |pids| <= 1 || Distinct(pids) }

  // ---- Safety ----

  /** What one process knows: while inside it has the lock, under its own id unless it is entering or leaving. */
  ghost predicate ViewOk(rule: Rule, x: View, pid: Pid) {
    && (Inside(x) ==> x.locked && x.owner == if x.at == SetOwner || x.at == ClearLocked then NOBODY else pid)
    && (x.at == ClearOwner || x.at == ClearLocked ==> x.depth == 1)
    && (x.at == SetOwner || x.at == Exchange(true) ==> x.depth == 0)
    && (rule == NoRelock ==> x.depth <= 1 && (x.at == ReadLocked || x.at == ReadOwner ==> x.depth == 0))
  }

  ghost predicate Inv(rule: Rule, pids: seq<Pid>, w: World) {
    && Fits(pids, w) && Exclusive(w)
    && (forall i :: 0 <= i < |pids| ==> ViewOk(rule, Of(w, i), pids[i]))
    && (w.locked ==> exists i :: 0 <= i < |pids| && Inside(Of(w, i)))
    && (!w.locked ==> w.owner == NOBODY)
    && (|pids| == 1 ==> forall i :: 0 <= i < |pids| && w.at[i] == ReadOwner ==> w.depth[i] > 0)
  }

  /** The fast path lets in exactly the process that already holds the lock. */
  lemma FastPath(rule: Rule, pids: seq<Pid>, w: World, i: nat)
    requires GoodIds(pids) && Inv(rule, pids, w) && i < |pids| && w.at[i] == ReadOwner
    ensures w.owner == pids[i] <==> Inside(Of(w, i))
  {
    assert ViewOk(rule, Of(w, i), pids[i]);
    if w.locked && |pids| > 1 {
      var k :| 0 <= k < |pids| && Inside(Of(w, k));
      assert ViewOk(rule, Of(w, k), pids[k]) && pids[i] in pids;
    } else if |pids| > 1 {
      assert pids[i] in pids;
    }
  }

  /** What one move does, as the moving process sees it. */
  lemma StepKeeps(rule: Rule, x: View, pid: Pid, k: Kind)
    requires rule != Any && ViewOk(rule, x, pid) && CanDo(x, k) && Obeys(rule, x, k)
    requires !x.locked ==> x.owner == NOBODY
    requires x.at == ReadOwner ==> (x.owner == pid <==> Inside(x))
    ensures var y := Did(x, pid, k);
      && ViewOk(rule, y, pid) && (!y.locked ==> y.owner == NOBODY)
      && (x.locked && !Inside(x) ==> y.locked && y.owner == x.owner && !Inside(y))
      && (y.locked && !x.locked ==> Inside(y)) && (Inside(x) && !Inside(y) ==> !y.locked)
      && (y.at == ReadOwner ==> x.locked && y.depth == x.depth && x.at != SetOwner)
  {
  }

  /** Who is outside is not concerned with the fields of the lock. */
  lemma OutsideKeeps(rule: Rule, x: View, y: View, pid: Pid)
    requires ViewOk(rule, x, pid) && y == x.(locked := y.locked, owner := y.owner)
    ensures Inside(y) <==> Inside(x)
    ensures !Inside(x) ==> ViewOk(rule, y, pid)
  {
  }

  lemma MoveKeeps(rule: Rule, pids: seq<Pid>, w: World, m: Move)
    requires rule != Any && GoodIds(pids) && Inv(rule, pids, w)
    requires Possible(pids, w, m) && Obeys(rule, Of(w, m.i), m.kind)
    ensures Inv(rule, pids, Moved(pids, w, m))
  {
    hide GoodIds, ViewOk, Did, CanDo, Obeys, Inside;
    var v, x := Moved(pids, w, m), Of(w, m.i);
    var y := Of(v, m.i);
    if w.at[m.i] == ReadOwner { FastPath(rule, pids, w, m.i); }
    StepKeeps(rule, x, pids[m.i], m.kind);
    assert y == Did(x, pids[m.i], m.kind);
    forall i | 0 <= i < |pids| && i != m.i
      ensures ViewOk(rule, Of(v, i), pids[i]) && (Inside(Of(v, i)) <==> Inside(Of(w, i)))
      ensures Inside(Of(w, i)) ==> !Inside(y)
    {
      OutsideKeeps(rule, Of(w, i), Of(v, i), pids[i]);
      if Inside(Of(w, i)) {
        NotBoth(w, if i < m.i then i else m.i, if i < m.i then m.i else i);
        HasLock(rule, Of(w, i), pids[i]);
      }
    }
    SomeoneStays(rule, pids, w, v, m.i);
    SoloOwner(rule, pids, w, v, m.i);
  }

  lemma HasLock(rule: Rule, x: View, pid: Pid)
    requires ViewOk(rule, x, pid) && Inside(x)
    ensures x.locked
  {
  }

  /** While the lock is taken someone is inside. */
  lemma SomeoneStays(rule: Rule, pids: seq<Pid>, w: World, v: World, j: nat)
    requires Fits(pids, w) && Fits(pids, v) && j < |pids|
    requires w.locked ==> exists i :: 0 <= i < |pids| && Inside(Of(w, i))
    requires v.locked && !w.locked ==> Inside(Of(v, j))
    requires Inside(Of(w, j)) && !Inside(Of(v, j)) ==> !v.locked
    requires forall i :: 0 <= i < |pids| && i != j ==> (Inside(Of(v, i)) <==> Inside(Of(w, i)))
    ensures v.locked ==> exists i :: 0 <= i < |pids| && Inside(Of(v, i))
  {
    hide Inside;
    if v.locked && w.locked {
      var k :| 0 <= k < |pids| && Inside(Of(w, k));
      assert Inside(Of(v, k));
    }
  }

  /** A process that is alone finds the lock taken only by itself. */
  lemma SoloOwner(rule: Rule, pids: seq<Pid>, w: World, v: World, j: nat)
    requires Fits(pids, w) && Fits(pids, v) && j < |pids|
    requires w.locked ==> exists i :: 0 <= i < |pids| && Inside(Of(w, i))
    requires v.at[j] == ReadOwner ==> w.locked && v.depth[j] == w.depth[j] && w.at[j] != SetOwner
    ensures |pids| == 1 ==> forall i :: 0 <= i < |pids| && v.at[i] == ReadOwner ==> v.depth[i] > 0
  {
  }

  lemma {:induction false} RunKeeps(rule: Rule, pids: seq<Pid>, w: World, ms: seq<Move>)
    requires rule != Any && GoodIds(pids) && Inv(rule, pids, w) && IsRun(rule, pids, w, ms)
    ensures Inv(rule, pids, After(rule, pids, w, ms))
    decreases |ms|
  {
    hide Exclusive, ViewOk, GoodIds, Moved, Possible;
    if ms != [] {
      MoveKeeps(rule, pids, w, ms[0]);
      RunKeeps(rule, pids, Moved(pids, w, ms[0]), ms[1..]);
    }
  }

  // ---- Runs that let two processes in: first one process alone, then another one ----

  predicate SoloOk(rule: Rule, x: View, pid: Pid, ks: seq<Kind>)
    decreases |ks|
  {
    ks == [] || (CanDo(x, ks[0]) && Obeys(rule, x, ks[0]) && SoloOk(rule, Did(x, pid, ks[0]), pid, ks[1..]))
  }

  function Solo(rule: Rule, x: View, pid: Pid, ks: seq<Kind>): View
    requires SoloOk(rule, x, pid, ks)
    decreases |ks|
  {
    if ks == [] then x else Solo(rule, Did(x, pid, ks[0]), pid, ks[1..])
  }

  function By(i: nat, ks: seq<Kind>): (ms: seq<Move>)
    ensures |ms| == |ks|
  {
    if ks == [] then [] else [Move(i, ks[0])] + By(i, ks[1..])
  }

  lemma RunCons(rule: Rule, pids: seq<Pid>, w: World, m: Move, rest: seq<Move>)
    requires Fits(pids, w) && Possible(pids, w, m) && Obeys(rule, Of(w, m.i), m.kind)
    requires IsRun(rule, pids, Moved(pids, w, m), rest)
    ensures IsRun(rule, pids, w, [m] + rest)
    ensures After(rule, pids, w, [m] + rest) == After(rule, pids, Moved(pids, w, m), rest)
  {
    hide Obeys, Possible, Moved;
    assert ([m] + rest)[1..] == rest;
  }

  lemma SoloCons(rule: Rule, x: View, pid: Pid, ks: seq<Kind>)
    requires ks != [] && SoloOk(rule, x, pid, ks)
    ensures CanDo(x, ks[0]) && Obeys(rule, x, ks[0]) && SoloOk(rule, Did(x, pid, ks[0]), pid, ks[1..])
    ensures Solo(rule, x, pid, ks) == Solo(rule, Did(x, pid, ks[0]), pid, ks[1..])
  {
    hide CanDo, Did, Obeys;
  }

  /** One process alone changes the lock and itself. */
  lemma {:induction false} SoloIsRun(rule: Rule, pids: seq<Pid>, w: World, i: nat, ks: seq<Kind>, rest: seq<Move>)
    requires Fits(pids, w) && i < |pids| && SoloOk(rule, Of(w, i), pids[i], ks)
    requires IsRun(rule, pids, With(w, i, Solo(rule, Of(w, i), pids[i], ks)), rest)
    ensures IsRun(rule, pids, w, By(i, ks) + rest)
    ensures After(rule, pids, w, By(i, ks) + rest)
      == After(rule, pids, With(w, i, Solo(rule, Of(w, i), pids[i], ks)), rest)
    decreases |ks|
  {
    hide CanDo, Did, Obeys, IsRun, After, SoloOk;
    if ks == [] {
      assert By(i, ks) + rest == rest && With(w, i, Of(w, i)) == w;
    } else {
      hide Solo;
      var m := Move(i, ks[0]);
      SoloCons(rule, Of(w, i), pids[i], ks);
      var v := Moved(pids, w, m);
      WithTwice(w, i, Of(v, i), Solo(rule, Of(v, i), pids[i], ks[1..]));
      SoloIsRun(rule, pids, v, i, ks[1..], rest);
      RunCons(rule, pids, w, m, By(i, ks[1..]) + rest);
      assert By(i, ks) + rest == [m] + (By(i, ks[1..]) + rest);
    }
  }

  lemma WithTwice(w: World, i: nat, x: View, y: View)
    requires i < |w.at| && i < |w.depth|
    ensures Of(With(w, i, x), i) == x && With(With(w, i, x), i, y) == With(w, i, y)
  {
  }

  const FRESH: View := View(false, NOBODY, Idle, 0)

  /** If j gets in alone after i got in alone, the lock does not exclude. */
  lemma TwoSolos(rule: Rule, pids: seq<Pid>, i: nat, j: nat, ks: seq<Kind>, ls: seq<Kind>)
    requires i < |pids| && j < |pids| && i != j
    requires SoloOk(rule, FRESH, pids[i], ks) && Inside(Solo(rule, FRESH, pids[i], ks))
    requires var x := Solo(rule, FRESH, pids[i], ks);
      var y := View(x.locked, x.owner, Idle, 0);
      SoloOk(rule, y, pids[j], ls) && Inside(Solo(rule, y, pids[j], ls))
    ensures !AlwaysExclusive(rule, pids)
  {
    var w := Start(|pids|);
    var x := Solo(rule, FRESH, pids[i], ks);
    var v := With(w, i, x);
    var u := With(v, j, Solo(rule, Of(v, j), pids[j], ls));
    var ms := By(i, ks) + (By(j, ls) + []);
    SoloIsRun(rule, pids, v, j, ls, []);
    SoloIsRun(rule, pids, w, i, ks, By(j, ls) + []);
    assert IsRun(rule, pids, w, ms) && After(rule, pids, w, ms) == u;
    assert Inside(Of(u, i)) && Inside(Of(u, j));
    BothInside(u, i, j);
  }

  lemma BothInside(w: World, i: nat, j: nat)
    requires |w.at| == |w.depth| && i < |w.at| && j < |w.at| && i != j && Inside(Of(w, i)) && Inside(Of(w, j))
    ensures !Exclusive(w)
  {
    if i < j {
      assert !(!(Inside(Of(w, i)) && Inside(Of(w, j))));
    } else {
      assert !(!(Inside(Of(w, j)) && Inside(Of(w, i))));
    }
  }

  lemma SoloNone(rule: Rule, x: View, pid: Pid)
    ensures SoloOk(rule, x, pid, []) && Solo(rule, x, pid, []) == x
  {
  }

  lemma SoloStep(rule: Rule, x: View, pid: Pid, k: Kind, ks: seq<Kind>)
    requires CanDo(x, k) && Obeys(rule, x, k) && SoloOk(rule, Did(x, pid, k), pid, ks)
    ensures SoloOk(rule, x, pid, [k] + ks) && Solo(rule, x, pid, [k] + ks) == Solo(rule, Did(x, pid, k), pid, ks)
  {
    assert ([k] + ks)[1..] == ks;
  }

  /** mutex_lock by the fast path: the call, and two reads */
  const TWO_READS: seq<Kind> := [Lock] + ([Go] + ([Go] + []))

  /** mutex_lock up to the exchange that wins */
  const WIN: seq<Kind> := [Lock] + ([Go] + ([Go] + []))

  /** mutex_lock of a free lock, all of it */
  function Enter(ks: seq<Kind>): seq<Kind> { [Lock] + ([Go] + ([Go] + ([Go] + ks))) }

  lemma EnterFree(rule: Rule, pid: Pid, ks: seq<Kind>)
    requires SoloOk(rule, View(true, pid, Idle, 1), pid, ks)
    ensures SoloOk(rule, FRESH, pid, Enter(ks))
    ensures Solo(rule, FRESH, pid, Enter(ks)) == Solo(rule, View(true, pid, Idle, 1), pid, ks)
  {
    hide SoloOk, Solo;
    SoloStep(rule, View(true, NOBODY, SetOwner, 0), pid, Go, ks);
    SoloStep(rule, View(false, NOBODY, Exchange(true), 0), pid, Go, [Go] + ks);
    SoloStep(rule, View(false, NOBODY, ReadLocked, 0), pid, Go, [Go] + ([Go] + ks));
    SoloStep(rule, FRESH, pid, Lock, [Go] + ([Go] + ([Go] + ks)));
  }

  /** A process whose id the lock bears passes by two reads. */
  lemma PassOwner(rule: Rule, owner: Pid)
    ensures SoloOk(rule, View(true, owner, Idle, 0), owner, TWO_READS)
    ensures Inside(Solo(rule, View(true, owner, Idle, 0), owner, TWO_READS))
  {
    hide SoloOk, Solo;
    SoloNone(rule, View(true, owner, Idle, 1), owner);
    SoloStep(rule, View(true, owner, ReadOwner, 0), owner, Go, []);
    SoloStep(rule, View(true, owner, ReadLocked, 0), owner, Go, [Go] + []);
    SoloStep(rule, View(true, owner, Idle, 0), owner, Lock, [Go] + ([Go] + []));
  }

  const LEAVE: seq<Kind> := [Unlock] + ([Go] + ([Go] + []))

  lemma Leaves(rule: Rule, pid: Pid)
    ensures SoloOk(rule, View(true, pid, Idle, 1), pid, LEAVE)
    ensures Solo(rule, View(true, pid, Idle, 1), pid, LEAVE) == FRESH
  {
    hide SoloOk, Solo;
    SoloNone(rule, FRESH, pid);
    SoloStep(rule, View(true, NOBODY, ClearLocked, 1), pid, Go, []);
    SoloStep(rule, View(true, pid, ClearOwner, 1), pid, Go, [Go] + []);
    SoloStep(rule, View(true, pid, Idle, 1), pid, Unlock, [Go] + ([Go] + []));
  }

  /** Under every rule, locking a free lock and unlocking it leaves it as it was. */
  lemma LockThenUnlock(rule: Rule, pid: Pid)
    ensures SoloOk(rule, FRESH, pid, Enter(LEAVE)) && Solo(rule, FRESH, pid, Enter(LEAVE)) == FRESH
  {
    hide SoloOk, Solo;
    Leaves(rule, pid);
    EnterFree(rule, pid, LEAVE);
  }

  /** mutex_trylock takes a free lock, and leaves one that is held as it is. */
  lemma TryTakesFree(rule: Rule, pid: Pid, owner: Pid)
    ensures SoloOk(rule, FRESH, pid, [Trylock] + ([Go] + ([Go] + [])))
    ensures Solo(rule, FRESH, pid, [Trylock] + ([Go] + ([Go] + []))) == View(true, pid, Idle, 1)
    ensures SoloOk(rule, View(true, owner, Idle, 0), pid, [Trylock] + ([Go] + []))
    ensures Solo(rule, View(true, owner, Idle, 0), pid, [Trylock] + ([Go] + [])) == View(true, owner, Idle, 0)
  {
    hide SoloOk, Solo;
    SoloNone(rule, View(true, pid, Idle, 1), pid);
    SoloStep(rule, View(true, NOBODY, SetOwner, 0), pid, Go, []);
    SoloStep(rule, View(false, NOBODY, Exchange(false), 0), pid, Go, [Go] + []);
    SoloStep(rule, FRESH, pid, Trylock, [Go] + ([Go] + []));
    SoloNone(rule, View(true, owner, Idle, 0), pid);
    SoloStep(rule, View(true, owner, Exchange(false), 0), pid, Go, []);
    SoloStep(rule, View(true, owner, Idle, 0), pid, Trylock, [Go] + []);
  }

  /** Two processes with one id: the second one takes the fast path. */
  lemma SameIdUnsafe(rule: Rule, pids: seq<Pid>, i: nat, j: nat)
    requires i < |pids| && j < |pids| && i != j && pids[i] == pids[j]
    ensures !AlwaysExclusive(rule, pids)
  {
    hide SoloOk, Solo, AlwaysExclusive;
    SoloNone(rule, View(true, pids[i], Idle, 1), pids[i]);
    EnterFree(rule, pids[i], []);
    PassOwner(rule, pids[j]);
    TwoSolos(rule, pids, i, j, Enter([]), TWO_READS);
  }

  /** The id that stands for no owner passes while another process has not entered its own yet. */
  lemma NobodyUnsafe(rule: Rule, pids: seq<Pid>, i: nat, j: nat)
    requires i < |pids| && j < |pids| && i != j && pids[j] == NOBODY
    ensures !AlwaysExclusive(rule, pids)
  {
    hide SoloOk, Solo, AlwaysExclusive;
    SoloNone(rule, View(true, NOBODY, SetOwner, 0), pids[i]);
    SoloStep(rule, View(false, NOBODY, Exchange(true), 0), pids[i], Go, []);
    SoloStep(rule, View(false, NOBODY, ReadLocked, 0), pids[i], Go, [Go] + []);
    SoloStep(rule, FRESH, pids[i], Lock, [Go] + ([Go] + []));
    PassOwner(rule, NOBODY);
    TwoSolos(rule, pids, i, j, WIN, TWO_READS);
  }

  /** Lock again, and unlock once. */
  const INNER: seq<Kind> := [Lock] + ([Go] + ([Go] + ([Unlock] + ([Go] + ([Go] + [])))))

  lemma InnerUnlock(pid: Pid)
    ensures SoloOk(Any, View(true, pid, Idle, 1), pid, INNER)
    ensures Solo(Any, View(true, pid, Idle, 1), pid, INNER) == View(false, NOBODY, Idle, 1)
  {
    hide SoloOk, Solo;
    SoloNone(Any, View(false, NOBODY, Idle, 1), pid);
    SoloStep(Any, View(true, NOBODY, ClearLocked, 2), pid, Go, []);
    SoloStep(Any, View(true, pid, ClearOwner, 2), pid, Go, [Go] + []);
    SoloStep(Any, View(true, pid, Idle, 2), pid, Unlock, [Go] + ([Go] + []));
    SoloStep(Any, View(true, pid, ReadOwner, 1), pid, Go, [Unlock] + ([Go] + ([Go] + [])));
    SoloStep(Any, View(true, pid, ReadLocked, 1), pid, Go, [Go] + ([Unlock] + ([Go] + ([Go] + []))));
    SoloStep(Any, View(true, pid, Idle, 1), pid, Lock, [Go] + ([Go] + ([Unlock] + ([Go] + ([Go] + [])))));
  }

  /** A holder locks again and unlocks once: the lock is free, another process enters, and both are inside. */
  lemma NestedUnsafe(pids: seq<Pid>, i: nat, j: nat)
    requires i < |pids| && j < |pids| && i != j
    ensures !AlwaysExclusive(Any, pids)
  {
    hide SoloOk, Solo, AlwaysExclusive;
    InnerUnlock(pids[i]);
    EnterFree(Any, pids[i], INNER);
    SoloNone(Any, View(true, pids[j], Idle, 1), pids[j]);
    EnterFree(Any, pids[j], []);
    TwoSolos(Any, pids, i, j, Enter(INNER), Enter([]));
  }

  lemma StartInv(rule: Rule, pids: seq<Pid>)
    ensures Inv(rule, pids, Start(|pids|))
  {
  }

  /**
   While no process unlocks from within a nested lock, and so while none locks again, the lock
   excludes exactly when the ids are good.
   */
  lemma MutualExclusion(rule: Rule, pids: seq<Pid>)
    requires rule != Any
    ensures AlwaysExclusive(rule, pids) <==> GoodIds(pids)
  {
    if GoodIds(pids) {
      forall ms | IsRun(rule, pids, Start(|pids|), ms) ensures Exclusive(After(rule, pids, Start(|pids|), ms)) {
        StartInv(rule, pids);
        RunKeeps(rule, pids, Start(|pids|), ms);
      }
    } else if NOBODY in pids {
      var j :| 0 <= j < |pids| && pids[j] == NOBODY;
      NobodyUnsafe(rule, pids, if j == 0 then 1 else 0, j);
    } else {
      var i, j :| 0 <= i < j < |pids| && pids[i] == pids[j];
      SameIdUnsafe(rule, pids, i, j);
    }
  }

  /** A single process always unlocks what it alone can hold. */
  lemma Alone(rule: Rule, pids: seq<Pid>)
    requires |pids| <= 1
    ensures AlwaysExclusive(rule, pids)
  {
    forall ms | IsRun(rule, pids, Start(|pids|), ms) ensures Exclusive(After(rule, pids, Start(|pids|), ms)) {
      var w := After(rule, pids, Start(|pids|), ms);
      assert |w.at| <= 1;
    }
  }

  /** If callers only balance their calls, the lock excludes exactly when there is nobody to exclude. */
  lemma NestedExclusion(pids: seq<Pid>)
    ensures AlwaysExclusive(Any, pids) <==> |pids| <= 1
  {
    if |pids| <= 1 { Alone(Any, pids); } else { NestedUnsafe(pids, 0, 1); }
  }

  // ---- The calls themselves ----

  /** The lock shared by all processes, which may move between any two accesses of a call. */
  class SharedLock {
    const pids: seq<Pid>
    var w: World

    ghost predicate Valid()
      reads this
    {
      GoodIds(pids) && Fits(pids, w) && Inv(NoRelock, pids, w)
    }

    constructor (pids: seq<Pid>)
      requires GoodIds(pids)
      ensures Valid() && this.pids == pids && w == Start(|pids|)
    {
      this.pids, w := pids, Start(|pids|);
      StartInv(NoRelock, pids);
    }

    /** Some moves of the other processes; a move that is not possible is skipped. */
    method Others(i: nat, ms: seq<Move>)
      requires Valid() && i < |pids|
      modifies this
      ensures Valid() && w.at[i] == old(w.at[i]) && w.depth[i] == old(w.depth[i])
    {
      hide Inv, GoodIds, CanDo, Did;
      var k := 0;
      while k < |ms|
        invariant 0 <= k <= |ms| && Valid()
        invariant w.at[i] == old(w.at[i]) && w.depth[i] == old(w.depth[i])
      {
        var m := ms[k];
        if m.i != i && Possible(pids, w, m) && Obeys(NoRelock, Of(w, m.i), m.kind) {
          MoveKeeps(NoRelock, pids, w, m);
          w := Moved(pids, w, m);
        }
        k := k + 1;
      }
    }

    /** The next access of process i, after some moves of the others */
    method Access(i: nat, ms: seq<Move>, kind: Kind)
      requires Valid() && i < |pids| && CanDo(Of(w, i), kind) && Obeys(NoRelock, Of(w, i), kind)
      modifies this
      ensures Valid() && exists locked, owner ::
        Of(w, i) == Did(View(locked, owner, old(w.at[i]), old(w.depth[i])), pids[i], kind)
    {
      hide Inv, GoodIds;
      Others(i, ms);
      ghost var x := Of(w, i);
      MoveKeeps(NoRelock, pids, w, Move(i, kind));
      w := Moved(pids, w, Move(i, kind));
      assert Of(w, i) == Did(View(x.locked, x.owner, x.at, x.depth), pids[i], kind);
    }

    /** Process i is inside, and no other one is. */
    ghost predicate HasAlone(i: nat)
      reads this
    {
      && Fits(pids, w) && i < |pids| && w.at[i] == Idle && w.depth[i] == 1
      && forall j :: 0 <= j < |pids| && j != i ==> !Inside(Of(w, j))
    }

    /**
     mutex_trylock, the others moving before each access: who gets the lock has it alone; who does
     not finds another process inside.
     */
    method TryLock(i: nat, before: seq<seq<Move>>) returns (ok: bool)
      requires Valid() && i < |pids| && w.at[i] == Idle && w.depth[i] == 0 && |before| == 2
      modifies this
      ensures Valid() && w.at[i] == Idle
      ensures ok ==> HasAlone(i)
      ensures !ok ==> w.depth[i] == 0 && exists j :: 0 <= j < |pids| && j != i && Inside(Of(w, j))
    {
      hide GoodIds, Inv;
      Access(i, [], Trylock);
      Access(i, before[0], Go);
      if w.at[i] == SetOwner {
        Access(i, before[1], Go);
        OnlyOne(NoRelock, pids, w, i);
        return true;
      }
      SomeoneInside(NoRelock, pids, w, i);
      ok := false;
    }

    /**
     mutex_lock: ok when it returned. The others move before each access: first, before the owner is read,
     before it is stored, and then before each exchange.
     */
    method Lock(i: nat, before: seq<seq<Move>>) returns (ok: bool)
      requires Valid() && i < |pids| && w.at[i] == Idle && w.depth[i] == 0 && |before| >= 3
      modifies this
      ensures Valid()
      ensures ok ==> HasAlone(i)
      ensures !ok ==> w.depth[i] == 0 && w.at[i] == Exchange(true)
    {
      hide GoodIds, Inv;
      Access(i, [], Kind.Lock);
      Access(i, before[0], Go);
      if w.at[i] == ReadOwner {
        Access(i, before[1], Go);
        if w.at[i] == Idle {
          OnlyOne(NoRelock, pids, w, i);
          return true;
        }
      }
      var k := 3;
      while k < |before|
        invariant 3 <= k && Valid() && w.at[i] == Exchange(true) && w.depth[i] == 0
      {
        Access(i, before[k], Go);
        if w.at[i] == SetOwner {
          Access(i, before[2], Go);
          OnlyOne(NoRelock, pids, w, i);
          return true;
        }
        k := k + 1;
      }
      ok := false;
    }

    /** mutex_unlock: when it returns the caller is outside and the lock has been freed. */
    method Unlock(i: nat, before: seq<seq<Move>>)
      requires Valid() && HasAlone(i) && |before| == 2
      modifies this
      ensures Valid() && w.at[i] == Idle && w.depth[i] == 0
      ensures !w.locked && w.owner == NOBODY && forall j :: 0 <= j < |pids| ==> !Inside(Of(w, j))
    {
      hide GoodIds, Inv;
      Access(i, [], Kind.Unlock);
      Access(i, before[0], Go);
      Access(i, before[1], Go);
      NobodyInside(NoRelock, pids, w);
    }
  }

  lemma OnlyOne(rule: Rule, pids: seq<Pid>, w: World, i: nat)
    requires Inv(rule, pids, w) && i < |pids| && Fits(pids, w) && Inside(Of(w, i))
    ensures forall j :: 0 <= j < |pids| && j != i ==> !Inside(Of(w, j))
  {
    forall j | 0 <= j < |pids| && j != i ensures !Inside(Of(w, j)) {
      NotBoth(w, if j < i then j else i, if j < i then i else j);
    }
  }

  lemma NotBoth(w: World, i: nat, j: nat)
    requires |w.at| == |w.depth| && Exclusive(w) && i < j < |w.at|
    ensures !(Inside(Of(w, i)) && Inside(Of(w, j)))
  {
  }

  lemma SomeoneInside(rule: Rule, pids: seq<Pid>, w: World, i: nat)
    requires Inv(rule, pids, w) && i < |pids| && Fits(pids, w) && w.locked && !Inside(Of(w, i))
    ensures exists j :: 0 <= j < |pids| && j != i && Inside(Of(w, j))
  {
  }

  lemma NobodyInside(rule: Rule, pids: seq<Pid>, w: World)
    requires Inv(rule, pids, w) && !w.locked
    ensures Fits(pids, w) && w.owner == NOBODY && forall j :: 0 <= j < |pids| ==> !Inside(Of(w, j))
  {
    forall j | 0 <= j < |pids| ensures !Inside(Of(w, j)) {
      assert ViewOk(rule, Of(w, j), pids[j]);
    }
  }
}
