/**
 What a client sees of a volume: a map from places to names, attributes and bytes. A place is a directory, known
 by a number, and a position in it. Every command is specified on this map alone.
 */
module FatSpec {
  import opened Bytes
  import opened FatSlots
  import opened FatNames
  import opened FatFiles
  import opened FatOps
  import opened FatRooted

  type Place = (nat, nat)

  /** id is the number of a directory, 0 for a file; body are a file's bytes, none for a directory. */
  datatype Info = Info(name: seq<byte>, attr: byte, size: nat, id: nat, body: seq<byte>)

  type View = imap<Place, Info>

  type CString = s: seq<byte> | 0 !in s

  type Path = seq<CString>

  datatype Command =
    | Create(dir: Path, name: CString)
    | Mkdir(dir: Path, name: CString)
    | Read(dir: Path, name: CString, offset: nat, count: nat)
    | Write(dir: Path, name: CString, buf: seq<byte>, offset: nat)
    | Unlink(dir: Path, name: CString)
    | Rmdir(dir: Path, name: CString)
    | Rename(dir: Path, name: CString, toDir: Path, toName: CString)

  datatype Outcome = Outcome(code: int, bytes: seq<byte>)

  /** Offsets are 32-bit numbers, and a client keeps to names that make a live slot. */
  predicate Allowed(c: Command) {
    match c
    case Create(dir, name) => true
    case Mkdir(dir, name) => Storable(name)
    case Read(dir, name, offset, count) => offset + count < 0x1_0000_0000
    case Write(dir, name, buf, offset) => offset + |buf| < 0x1_0000_0000
    case Unlink(dir, name) => true
    case Rmdir(dir, name) => true
    case Rename(dir, name, toDir, toName) => Storable(toName)
  }

  // ---- Searching ----

  ghost predicate Hit(V: View, k: nat, name: seq<byte>, i: nat) {
    (k, i) in V && SameName(V[(k, i)].name, name)
  }

  ghost function FirstHit(V: View, k: nat, name: seq<byte>, from: nat, limit: nat): (i: nat)
    requires from <= limit && Hit(V, k, name, limit)
    ensures from <= i <= limit && Hit(V, k, name, i)
    ensures forall j: nat :: from <= j < i ==> !Hit(V, k, name, j)
    decreases limit - from
  {
    if Hit(V, k, name, from) then from else FirstHit(V, k, name, from + 1, limit)
  }

  /** The first entry of directory k under a name, up to case. */
  ghost function Lookup(V: View, k: nat, name: seq<byte>): (m: Option<nat>)
    ensures m.Some? ==> Hit(V, k, name, m.value) && forall j: nat :: j < m.value ==> !Hit(V, k, name, j)
    ensures m.None? ==> forall j: nat :: !Hit(V, k, name, j)
  {
    if exists i: nat :: Hit(V, k, name, i) then
      var i: nat :| Hit(V, k, name, i);
      Some(FirstHit(V, k, name, 0, i))
    else None
  }

  /** The directory a path leads to from directory k. */
  ghost function Descend(V: View, k: nat, path: Path): Option<nat>
    decreases |path|
  {
    if path == [] then Some(k) else
      var m := Lookup(V, k, path[0]);
      if m.None? || !IsDirectory(V[(k, m.value)].attr) then None
      else Descend(V, V[(k, m.value)].id, path[1..])
  }

  // ---- What every command does ----

  /** The name under which a new entry is listed. */
  function ListedName(name: seq<byte>): seq<byte> { Parse83(Make83(name)) }

  /** One new entry in directory k. */
  ghost predicate Added(V: View, W: View, k: nat, info: Info) {
    exists i: nat :: (k, i) !in V && W == V[(k, i) := info]
  }

  ghost predicate Creates(V: View, k: nat, name: CString, code: int, W: View, fat: seq<nat>) {
    if Lookup(V, k, name).Some? then code == ERR_EXIST && W == V
    else
      || (code == ERR_NOSPACE && NoFreeCluster(fat) && W == V)
      || (code == OK &&
          if Storable(name) then Added(V, W, k, Info(ListedName(name), ATTR_ARCHIVE, 0, 0, [])) else W == V)
  }

  /** id is not the number of a directory. */
  ghost predicate Unused(V: View, root: nat, id: nat) {
    id != root && forall p :: p in V ==> p.0 != id && V[p].id != id
  }

  ghost predicate Makes(V: View, root: nat, k: nat, name: CString, code: int, W: View, fat: seq<nat>) {
    if Lookup(V, k, name).Some? then code == ERR_EXIST && W == V
    else
      || (code == ERR_NOSPACE && AtMostOneFree(fat) && W == V)
      || (code == OK &&
          exists id: nat :: Unused(V, root, id) && Added(V, W, k, Info(ListedName(name), ATTR_DIRECTORY, 0, id, [])))
  }

  ghost predicate Reads(info: Info, offset: nat, count: nat, o: Outcome) {
    if IsDirectory(info.attr) then o == Outcome(ERR_ISDIR, [])
    else o.code == |o.bytes| && o.bytes == Window(info.body, offset, count)
  }

  /** At most count bytes from the offset on. */
  function Window(s: seq<byte>, offset: nat, count: nat): seq<byte> {
    if offset >= |s| then [] else if offset + count > |s| then s[offset..] else s[offset..offset + count]
  }

  /** The bytes of a file after w was stored at the offset; a gap before the offset may hold anything. */
  ghost predicate Rewritten(was: Info, now: Info, offset: nat, w: seq<byte>) {
    && now == was.(size := if was.size < offset + |w| then offset + |w| else was.size, body := now.body)
    && offset + |w| <= |now.body| && now.body[offset..offset + |w|] == w
    && KeepsOutside(was.body, now.body, offset, |w|)
    && (WholeFile(was) ==> WholeFile(now))
  }

  /** A file's clusters hold as many bytes as its entry says. */
  ghost predicate WholeFile(info: Info) {
    !IsDirectory(info.attr) ==> |info.body| == info.size
  }

  ghost predicate Whole(V: View) {
    forall p :: p in V ==> WholeFile(V[p])
  }

  ghost predicate Writes(V: View, p: Place, buf: seq<byte>, offset: nat, code: int, W: View, fat: seq<nat>)
    requires p in V
  {
    if IsDirectory(V[p].attr) then code == ERR_ISDIR && W == V
    else
      && p in W && W == V[p := W[p]]
      && if code == ERR_NOSPACE then
           NoFreeCluster(fat) && W[p] == V[p].(body := W[p].body) && V[p].body <= W[p].body
           && (WholeFile(V[p]) ==> W == V)
         else
           0 <= code <= |buf| && (code < |buf| ==> NoFreeCluster(fat)) && Rewritten(V[p], W[p], offset, buf[..code])
  }

  ghost predicate Unlinks(V: View, p: Place, code: int, W: View)
    requires p in V
  {
    if IsDirectory(V[p].attr) then code == ERR_ISDIR && W == V
    else code == OK && W == V - {p}
  }

  ghost predicate EmptyFolder(V: View, k: nat) {
    forall i: nat :: (k, i) !in V
  }

  ghost predicate Removes(V: View, p: Place, code: int, W: View)
    requires p in V
  {
    if !IsDirectory(V[p].attr) then code == ERR_NOTDIR && W == V
    else if !EmptyFolder(V, V[p].id) then code == ERR_EXIST && W == V
    else code == OK && W == V - {p}
  }

  /** An entry is taken out of its place and put into a free place of directory k under a new name. */
  ghost predicate Renames(V: View, p: Place, k: nat, name: CString, code: int, W: View, fat: seq<nat>)
    requires p in V
  {
    || (code == ERR_NOSPACE && NoFreeCluster(fat) && W == V)
    || (code == OK && exists i: nat :: (k, i) !in V && W == V[(k, i) := V[p].(name := ListedName(name))] - {p})
  }

  ghost predicate MovesTo(V: View, root: nat, p: Place, toDir: Path, toName: CString, o: Outcome, W: View,
                          fat: seq<nat>)
    requires p in V
  {
    var to := Descend(V, root, toDir);
    if to.None? then o == Outcome(ERR_NOENT, []) && W == V
    else Renames(V, p, to.value, toName, o.code, W, fat)
  }

  /** The outcome and the map after one command; fat is the table then. */
  ghost predicate Obeys(V: View, root: nat, c: Command, o: Outcome, W: View, fat: seq<nat>) {
    var dir := Descend(V, root, c.dir);
    if dir.None? then o == Outcome(ERR_NOENT, []) && W == V
    else
      var m := Lookup(V, dir.value, c.name);
      if c.Create? then Creates(V, dir.value, c.name, o.code, W, fat)
      else if c.Mkdir? then Makes(V, root, dir.value, c.name, o.code, W, fat)
      else if m.None? then o == Outcome(ERR_NOENT, []) && W == V
      else ObeysAt(V, root, (dir.value, m.value), c, o, W, fat)
  }

  ghost predicate ObeysAt(V: View, root: nat, p: Place, c: Command, o: Outcome, W: View, fat: seq<nat>)
    requires p in V
  {
    match c
    case Create(dir, name) => false
    case Mkdir(dir, name) => false
    case Read(dir, name, offset, count) => Reads(V[p], offset, count, o) && W == V
    case Write(dir, name, buf, offset) => Writes(V, p, buf, offset, o.code, W, fat)
    case Unlink(dir, name) => Unlinks(V, p, o.code, W)
    case Rmdir(dir, name) => Removes(V, p, o.code, W)
    case Rename(dir, name, toDir, toName) => MovesTo(V, root, p, toDir, toName, o, W, fat)
  }

  /** Directory k is the directory of the entry, or lies below it. */
  ghost predicate BelowItself(places: Places, root: nat, info: Info, k: nat) {
    IsDirectory(info.attr) && info.id != root && Under(places, k, info.id)
  }

  ghost predicate LandsBelow(places: Places, V: View, root: nat, p: Place, toDir: Path)
    requires p in V
  {
    var to := Descend(V, root, toDir);
    to.Some? && BelowItself(places, root, V[p], to.value)
  }

  /** The command moves a directory to itself or to somewhere below itself. */
  ghost predicate GoesBelow(places: Places, V: View, root: nat, c: Command, o: Outcome) {
    && c.Rename? && o.code == OK
    && var dir := Descend(V, root, c.dir);
    && dir.Some?
    && var m := Lookup(V, dir.value, c.name);
    && m.Some?
    && LandsBelow(places, V, root, (dir.value, m.value), c.toDir)
  }

  // ---- What follows for every command ----

  /** No command leaves a file with fewer bytes than its entry says. */
  lemma ObeysWhole(V: View, root: nat, c: Command, o: Outcome, W: View, fat: seq<nat>)
    requires Whole(V) && Obeys(V, root, c, o, W, fat)
    ensures Whole(W)
  {
    hide Lookup, Descend, Storable, NoFreeCluster, AtMostOneFree, Unused, Make83, Parse83;
  }

  // ---- Sessions ----

  /** Between two commands: what is seen, where every chain's slot is, and the table. */
  datatype Stage = Stage(view: View, places: Places, fat: seq<nat>)

  ghost predicate Step(s: Stage, t: Stage, root: nat, c: Command, o: Outcome) {
    && Obeys(s.view, root, c, o, t.view, t.fat)
    && (Rooted(s.places, root) ==> (Rooted(t.places, root) <==> !GoesBelow(s.places, s.view, root, c, o)))
  }

  ghost predicate Run(stages: seq<Stage>, root: nat, commands: seq<Command>, outcomes: seq<Outcome>) {
    && |stages| == |commands| + 1 == |outcomes| + 1
    && forall i :: 0 <= i < |commands| ==> Step(stages[i], stages[i + 1], root, commands[i], outcomes[i])
  }

  /** The run leads from one stage to another. */
  ghost predicate Leads(stages: seq<Stage>, root: nat, commands: seq<Command>, outcomes: seq<Outcome>, s: Stage,
                        t: Stage)
  {
    Run(stages, root, commands, outcomes) && stages[0] == s && stages[|commands|] == t
  }

  lemma RunStart(s: Stage, root: nat)
    ensures Leads([s], root, [], [], s, s)
  {
  }

  lemma RunExtended(stages: seq<Stage>, root: nat, commands: seq<Command>, outcomes: seq<Outcome>, s: Stage, t: Stage,
                    u: Stage, c: Command, o: Outcome)
    requires Leads(stages, root, commands, outcomes, s, t) && Step(t, u, root, c, o)
    ensures Leads(stages + [u], root, commands + [c], outcomes + [o], s, u)
  {
    hide Step;
    var all := stages + [u];
    forall i | 0 <= i < |commands| + 1
      ensures Step(all[i], all[i + 1], root, (commands + [c])[i], (outcomes + [o])[i])
    {
      if i < |commands| { assert Step(stages[i], stages[i + 1], root, commands[i], outcomes[i]); }
    }
  }

  /** What every run keeps, and what it keeps under a condition. */
  lemma RunKeeps(stages: seq<Stage>, root: nat, commands: seq<Command>, outcomes: seq<Outcome>, s: Stage, t: Stage)
    requires Leads(stages, root, commands, outcomes, s, t)
    ensures Whole(s.view) ==> Whole(t.view)
    ensures RootedThrough(stages, root, |commands|)
      <==> Rooted(s.places, root) && NoneLostTill(stages, root, commands, outcomes, |commands|)
  {
    hide Whole, Rooted, RootedThrough, NoneLostTill;
    if Whole(s.view) { RunWhole(stages, root, commands, outcomes, |commands|); }
    RunRooted(stages, root, commands, outcomes, |commands|);
  }

  /** Files stay whole over every run. */
  lemma {:induction false} RunWhole(stages: seq<Stage>, root: nat, commands: seq<Command>, outcomes: seq<Outcome>,
                                    n: nat)
    requires Run(stages, root, commands, outcomes) && n <= |commands| && Whole(stages[0].view)
    ensures Whole(stages[n].view)
    decreases n
  {
    hide Whole, Obeys;
    if n > 0 {
      RunWhole(stages, root, commands, outcomes, n - 1);
      assert Step(stages[n - 1], stages[n], root, commands[n - 1], outcomes[n - 1]);
      ObeysWhole(stages[n - 1].view, root, commands[n - 1], outcomes[n - 1], stages[n].view, stages[n].fat);
    }
  }

  /** Command i of a run moved a directory to itself or below itself. */
  ghost predicate LostAt(stages: seq<Stage>, root: nat, commands: seq<Command>, outcomes: seq<Outcome>, i: nat)
    requires i < |stages| && i < |commands| && i < |outcomes|
  {
    GoesBelow(stages[i].places, stages[i].view, root, commands[i], outcomes[i])
  }

  ghost predicate RootedThrough(stages: seq<Stage>, root: nat, n: nat)
  {
    n < |stages| && forall i :: 0 <= i <= n ==> Rooted(stages[i].places, root)
  }

  ghost predicate NoneLostTill(stages: seq<Stage>, root: nat, commands: seq<Command>, outcomes: seq<Outcome>, n: nat)
  {
    n <= |commands| == |outcomes| < |stages| && forall i :: 0 <= i < n ==> !LostAt(stages, root, commands, outcomes, i)
  }

  /** Everything is reachable all through a run exactly when it was at first and no directory is moved below itself. */
  lemma {:induction false} RunRooted(stages: seq<Stage>, root: nat, commands: seq<Command>, outcomes: seq<Outcome>,
                                     n: nat)
    requires Run(stages, root, commands, outcomes) && n <= |commands|
    ensures |stages| == |commands| + 1 == |outcomes| + 1
    ensures RootedThrough(stages, root, n)
      <==> Rooted(stages[0].places, root) && NoneLostTill(stages, root, commands, outcomes, n)
    decreases n
  {
    hide Rooted, Obeys, GoesBelow;
    if n > 0 {
      RunRooted(stages, root, commands, outcomes, n - 1);
      assert Step(stages[n - 1], stages[n], root, commands[n - 1], outcomes[n - 1]);
      assert RootedThrough(stages, root, n) <==> RootedThrough(stages, root, n - 1) && Rooted(stages[n].places, root);
      assert NoneLostTill(stages, root, commands, outcomes, n)
        <==> NoneLostTill(stages, root, commands, outcomes, n - 1)
             && !LostAt(stages, root, commands, outcomes, n - 1);
    }
  }

  /** A command on an entry that is there. */
  lemma StepAt(s: Stage, t: Stage, root: nat, c: Command, o: Outcome, k: nat, i: nat)
    requires Descend(s.view, root, c.dir) == Some(k) && !c.Create? && !c.Mkdir?
    requires Lookup(s.view, k, c.name) == Some(i) && ObeysAt(s.view, root, (k, i), c, o, t.view, t.fat)
    requires Rooted(s.places, root) ==> (Rooted(t.places, root) <==> !LandsAt(s.places, s.view, root, (k, i), c, o))
    ensures Step(s, t, root, c, o)
  {
    hide Descend, Lookup, ObeysAt, Rooted, LandsBelow;
  }

  ghost predicate LandsAt(places: Places, V: View, root: nat, p: Place, c: Command, o: Outcome)
    requires p in V
  {
    c.Rename? && o.code == OK && LandsBelow(places, V, root, p, c.toDir)
  }

  /** A command that makes an entry, or finds none. */
  lemma StepNew(s: Stage, t: Stage, root: nat, c: Command, o: Outcome, k: nat)
    requires Descend(s.view, root, c.dir) == Some(k)
    requires Rooted(s.places, root) ==> Rooted(t.places, root)
    requires if c.Create? then Creates(s.view, k, c.name, o.code, t.view, t.fat)
      else if c.Mkdir? then Makes(s.view, root, k, c.name, o.code, t.view, t.fat)
      else Lookup(s.view, k, c.name).None? && o == Outcome(ERR_NOENT, []) && t.view == s.view
    ensures Step(s, t, root, c, o)
  {
    hide Descend, Lookup, ObeysAt, Rooted, LandsBelow, Creates, Makes;
  }

  lemma StepNowhere(s: Stage, t: Stage, root: nat, c: Command)
    requires Descend(s.view, root, c.dir).None? && t.view == s.view && t.places == s.places
    ensures Step(s, t, root, c, Outcome(ERR_NOENT, []))
  {
    hide Descend, Lookup, ObeysAt, Rooted, LandsBelow, Creates, Makes;
  }
}
