/**
 The round-robin scheduler: sixteen process slots, one of which is current, and a time slice of ten
 ticks. A switch of context is a change of the current index. Time is an unbounded tick count that
 each call is given.
 */
module Scheduler {

  const SLOTS := 16
  const SLICE := 10

  datatype State = Ready | Running | Blocked | Sleeping | Dead

  datatype Process = Process(state: State, pid: nat, priority: nat, total: nat, slice: nat, until: nat)

  /** The value of the scheduler. */
  datatype Sched = Sched(procs: seq<Process>, cur: nat)

  predicate Shape(s: Sched) { |s.procs| == SLOTS && s.cur < SLOTS }

  datatype Event =
    | Tick(now: nat)
    | Yield(now: nat)
    | Exit(now: nat)
    | Sleep(until: nat, now: nat)
    | Block(i: nat)
    | Unblock(i: nat)
    | Create(pid: nat, priority: nat)

  // ---- What each operation does ----

  function Woken(p: Process, now: nat): Process {
    if p.state == Sleeping && now >= p.until then p.(state := Ready) else p
  }

  /** The first loop of find_next */
  function AllWoken(procs: seq<Process>, now: nat): (r: seq<Process>)
    ensures |r| == |procs|
    ensures forall i :: 0 <= i < |procs| ==> r[i] == Woken(procs[i], now)
  {
    seq(|procs|, i requires 0 <= i < |procs| => Woken(procs[i], now))
  }

  function Slot(cur: nat, i: nat): nat { (cur + i) % SLOTS }

  /** Distance, going round, from the current slot to the first ready one; 17 when there is none. */
  function ReadyAfter(procs: seq<Process>, cur: nat, from: nat): (i: nat)
    requires |procs| == SLOTS && from <= SLOTS + 1
    ensures from <= i <= SLOTS + 1
    ensures i <= SLOTS ==> procs[Slot(cur, i)].state == Ready
    ensures forall k :: from <= k < i ==> procs[Slot(cur, k)].state != Ready
    decreases SLOTS + 1 - from
  {
    if from == SLOTS + 1 || procs[Slot(cur, from)].state == Ready then from else ReadyAfter(procs, cur, from + 1)
  }

  /** What find_next returns once sleepers have been woken */
  function Chosen(procs: seq<Process>, cur: nat): (i: nat)
    requires |procs| == SLOTS && cur < SLOTS
    ensures i < SLOTS
  {
    var k := ReadyAfter(procs, cur, 1);
    if k <= SLOTS then Slot(cur, k)
    else if procs[0].state == Ready || procs[0].state == Running then 0
    else cur
  }

  /** do_switch */
  function Switched(s: Sched, next: nat): (t: Sched)
    requires Shape(s) && next < SLOTS
    ensures Shape(t)
  {
    if next == s.cur then s else
      var p := s.procs[s.cur];
      var left := s.procs[s.cur := if p.state == Running then p.(state := Ready) else p];
      Sched(left[next := left[next].(state := Running, slice := 0)], next)
  }

  /** find_next followed by do_switch */
  function Rescheduled(s: Sched, now: nat): (t: Sched)
    requires Shape(s)
    ensures Shape(t)
  {
    var w := s.(procs := AllWoken(s.procs, now));
    Switched(w, Chosen(w.procs, w.cur))
  }

  function SetState(s: Sched, i: nat, state: State): (t: Sched)
    requires Shape(s) && i < SLOTS
    ensures Shape(t)
  {
    s.(procs := s.procs[i := s.procs[i].(state := state)])
  }

  function Counted(s: Sched): (t: Sched)
    requires Shape(s)
    ensures Shape(t)
  {
    var p := s.procs[s.cur];
    s.(procs := s.procs[s.cur := p.(total := p.total + 1, slice := p.slice + 1)])
  }

  predicate TickSwitches(p: Process) {
    p.slice >= SLICE || p.state == Dead || p.state == Sleeping || p.state == Blocked
  }

  function FirstDead(procs: seq<Process>): (i: nat)
    ensures i <= |procs| && (i < |procs| ==> procs[i].state == Dead)
    ensures forall k :: 0 <= k < i ==> procs[k].state != Dead
  {
    if procs == [] || procs[0].state == Dead then 0 else 1 + FirstDead(procs[1..])
  }

  predicate Allowed(s: Sched, ev: Event) {
    (ev.Block? || ev.Unblock?) ==> ev.i < SLOTS
  }

  function Step(s: Sched, ev: Event): (t: Sched)
    requires Shape(s) && Allowed(s, ev)
    ensures Shape(t)
  {
    match ev
    case Tick(now) =>
      var c := Counted(s);
      if TickSwitches(c.procs[c.cur]) then Rescheduled(c, now) else c
    case Yield(now) => Rescheduled(s, now)
    case Exit(now) => Rescheduled(SetState(s, s.cur, Dead), now)
    case Sleep(until, now) =>
      var p := s.procs[s.cur];
      Rescheduled(s.(procs := s.procs[s.cur := p.(state := Sleeping, until := until)]), now)
    case Block(i) => SetState(s, i, Blocked)
    case Unblock(i) => if s.procs[i].state == Blocked then SetState(s, i, Ready) else s
    case Create(pid, priority) =>
      var i := FirstDead(s.procs);
      if i == SLOTS then s else s.(procs := s.procs[i := Process(Ready, pid, priority, 0, 0, 0)])
  }

  /** The tick at which a sleep of so many milliseconds ends; the product is cut to 32 bits. */
  function WakeTime(ms: nat, freq: nat, now: nat): nat { now + ms * freq % 0x1_0000_0000 / 1000 }

  // ---- The scheduler itself ----

  class Kernel {
    const procs: array<Process>
    var current: nat

    ghost predicate Valid()
      reads this, procs
    {
      procs.Length == SLOTS && current < SLOTS
    }

    ghost function Value(): (s: Sched)
      reads this, procs
      requires Valid()
      ensures Shape(s)
    {
      Sched(procs[..], current)
    }

    /** scheduler_init */
    constructor ()
      ensures Valid() && fresh(procs) && current == 0 && OneRunning(Value())
      ensures procs[0].state == Running && forall i :: 1 <= i < SLOTS ==> procs[i].state == Dead
    {
      procs := new Process[SLOTS](i =>
        if i == 0 then Process(Running, 0, 1, 0, 0, 0) else Process(Dead, 0, 0, 0, 0, 0));
      current := 0;
    }

    /** The first loop of find_next */
    method WakeSleepers(now: nat)
      requires Valid()
      modifies procs
      ensures Valid() && procs[..] == AllWoken(old(procs[..]), now)
    {
      var i := 0;
      while i < SLOTS
        invariant 0 <= i <= SLOTS
        invariant forall k :: 0 <= k < i ==> procs[k] == Woken(old(procs[k]), now)
        invariant forall k :: i <= k < SLOTS ==> procs[k] == old(procs[k])
      {
        if procs[i].state == Sleeping && now >= procs[i].until { procs[i] := procs[i].(state := Ready); }
        i := i + 1;
      }
    }

    /** find_next */
    method FindNext(now: nat) returns (next: nat)
      requires Valid()
      modifies procs
      ensures Valid() && procs[..] == AllWoken(old(procs[..]), now) && next == Chosen(procs[..], current)
    {
      hide AllWoken;
      WakeSleepers(now);
      ghost var ps := procs[..];
      var k: nat := 1;
      while k <= SLOTS
        invariant 1 <= k <= SLOTS + 1 && procs[..] == ps
        invariant ReadyAfter(ps, current, k) == ReadyAfter(ps, current, 1)
      {
        var idx := (current + k) % SLOTS;
        assert ps[Slot(current, k)] == procs[idx];
        if procs[idx].state == Ready { return idx; }
        k := k + 1;
      }
      if procs[0].state == Ready || procs[0].state == Running { return 0; }
      next := current;
    }

    /** do_switch; saving and loading the registers is not modelled */
    method DoSwitch(next: nat)
      requires Valid() && next < SLOTS
      modifies this`current, procs
      ensures Valid() && Value() == Switched(old(Value()), next)
    {
      if next == current { return; }
      var prev := current;
      current := next;
      if procs[prev].state == Running { procs[prev] := procs[prev].(state := Ready); }
      procs[next] := procs[next].(state := Running);
      procs[next] := procs[next].(slice := 0);
    }

    /** scheduler_yield */
    method Yield(now: nat)
      requires Valid()
      modifies this`current, procs
      ensures Valid() && Value() == Step(old(Value()), Event.Yield(now))
    {
      var next := FindNext(now);
      if next != current { DoSwitch(next); }
    }

    /** scheduler_tick */
    method Tick(now: nat)
      requires Valid()
      modifies this`current, procs
      ensures Valid() && Value() == Step(old(Value()), Event.Tick(now))
    {
      procs[current] := procs[current].(total := procs[current].total + 1);
      procs[current] := procs[current].(slice := procs[current].slice + 1);
      assert Value() == Counted(old(Value()));
      if procs[current].slice >= SLICE || procs[current].state == Dead
        || procs[current].state == Sleeping || procs[current].state == Blocked
      {
        var next := FindNext(now);
        if next != current { DoSwitch(next); }
      }
    }

    /** process_exit, up to the point where the processor halts or another process runs */
    method Exit(now: nat)
      requires Valid()
      modifies this`current, procs
      ensures Valid() && Value() == Step(old(Value()), Event.Exit(now))
    {
      procs[current] := procs[current].(state := Dead);
      assert Value() == SetState(old(Value()), current, Dead);
      Yield(now);
    }

    /** process_sleep */
    method SleepFor(ms: nat, freq: nat, now: nat)
      requires Valid()
      modifies this`current, procs
      ensures Valid()
      ensures Value() == Step(old(Value()), Event.Sleep(WakeTime(ms, freq, now), now))
      ensures old(OneRunning(Value())) && now < WakeTime(ms, freq, now) ==>
        procs[old(current)].state == Sleeping && procs[old(current)].until == WakeTime(ms, freq, now)
    {
      hide WakeTime, Rescheduled, OneRunning;
      var until := WakeTime(ms, freq, now);
      if OneRunning(Value()) && now < until { FallsAsleep(Value(), until, now); }
      procs[current] := procs[current].(state := Sleeping);
      procs[current] := procs[current].(until := until);
      assert procs[..] == old(procs[..])[current := old(procs[..])[current].(state := Sleeping, until := until)];
      Yield(now);
    }

    method Block(i: nat)
      requires Valid() && i < SLOTS
      modifies procs
      ensures Valid() && Value() == Step(old(Value()), Event.Block(i))
    {
      procs[i] := procs[i].(state := Blocked);
    }

    method Unblock(i: nat)
      requires Valid() && i < SLOTS
      modifies procs
      ensures Valid() && Value() == Step(old(Value()), Event.Unblock(i))
    {
      if procs[i].state == Blocked { procs[i] := procs[i].(state := Ready); }
    }

    /** process_create as far as the slot goes; stack says whether a stack could be allocated */
    method Create(pid: nat, priority: nat, stack: bool) returns (i: nat)
      requires Valid()
      modifies procs
      ensures Valid() && i == (if stack then FirstDead(old(procs[..])) else SLOTS)
      ensures stack ==> Value() == Step(old(Value()), Event.Create(pid, priority))
      ensures !stack ==> forall k :: 0 <= k < SLOTS ==> procs[k].state == old(procs[k]).state
    {
      i := 0;
      while i < SLOTS && procs[i].state != Dead
        invariant i <= SLOTS && forall k :: 0 <= k < i ==> procs[k].state != Dead
      {
        i := i + 1;
      }
      FirstDeadIs(procs[..], i);
      if i == SLOTS { return; }
      procs[i] := Process(Ready, pid, priority, 0, 0, 0);
      if !stack {
        procs[i] := procs[i].(state := Dead);
        i := SLOTS;
      }
    }
  }

  lemma FirstDeadIs(procs: seq<Process>, i: nat)
    requires i <= |procs| && (i < |procs| ==> procs[i].state == Dead)
    requires forall k :: 0 <= k < i ==> procs[k].state != Dead
    ensures FirstDead(procs) == i
  {
    hide FirstDead;
  }

  // ---- Safety ----

  /** At most one process is marked running, and it is the current one. */
  ghost predicate OneRunning(s: Sched) {
    forall i :: 0 <= i < |s.procs| && s.procs[i].state == Running ==> i == s.cur
  }

  lemma RescheduleKeeps(s: Sched, now: nat)
    requires Shape(s) && OneRunning(s)
    ensures OneRunning(Rescheduled(s, now))
  {
  }

  /** Every event keeps this. */
  lemma StepKeeps(s: Sched, ev: Event)
    requires Shape(s) && Allowed(s, ev) && OneRunning(s)
    ensures OneRunning(Step(s, ev))
  {
    hide Rescheduled;
    match ev
    case Tick(now) => RescheduleKeeps(Counted(s), now);
    case Yield(now) => RescheduleKeeps(s, now);
    case Exit(now) => RescheduleKeeps(SetState(s, s.cur, Dead), now);
    case Sleep(until, now) =>
      RescheduleKeeps(s.(procs := s.procs[s.cur := s.procs[s.cur].(state := Sleeping, until := until)]), now);
    case Block(i) =>
    case Unblock(i) =>
    case Create(pid, priority) =>
  }

  /** A process that is ready to run, or asleep with its time come. */
  predicate Runnable(p: Process, now: nat) { Woken(p, now).state == Ready }

  /**
   A switch goes to the first runnable slot after the current one, going round. Nothing is skipped,
   the new process starts a fresh slice, and if no slot is runnable the processor stays where it is.
   */
  lemma SwitchTarget(s: Sched, now: nat)
    requires Shape(s) && OneRunning(s)
    ensures var t := Rescheduled(s, now);
      if t.cur == s.cur then
        (forall k :: 1 <= k < SLOTS ==> !Runnable(s.procs[Slot(s.cur, k)], now))
      else
        && t.procs[t.cur].state == Running && t.procs[t.cur].slice == 0 && Runnable(s.procs[t.cur], now)
        && exists d :: 1 <= d < SLOTS && t.cur == Slot(s.cur, d)
             && forall k :: 1 <= k < d ==> !Runnable(s.procs[Slot(s.cur, k)], now)
  {
    var w := AllWoken(s.procs, now);
    var d := ReadyAfter(w, s.cur, 1);
    ChosenIs(w, s.cur);
    NotRunnable(s, now);
    hide Chosen, ReadyAfter, Slot, OneRunning, AllWoken, Runnable;
    if d < SLOTS {
      assert 1 <= d < SLOTS && Slot(s.cur, d) == Slot(s.cur, d);
    }
  }

  lemma NotRunnable(s: Sched, now: nat)
    requires Shape(s)
    ensures var d := ReadyAfter(AllWoken(s.procs, now), s.cur, 1);
      && (d <= SLOTS ==> Runnable(s.procs[Slot(s.cur, d)], now))
      && forall k :: 1 <= k < d ==> !Runnable(s.procs[Slot(s.cur, k)], now)
  {
    var w := AllWoken(s.procs, now);
    forall k | 1 <= k < ReadyAfter(w, s.cur, 1) ensures !Runnable(s.procs[Slot(s.cur, k)], now) {
      assert w[Slot(s.cur, k)].state != Ready;
    }
  }

  /** The fallback of find_next never causes a switch. */
  lemma ChosenIs(procs: seq<Process>, cur: nat)
    requires |procs| == SLOTS && cur < SLOTS
    requires forall i :: 0 <= i < SLOTS && procs[i].state == Running ==> i == cur
    ensures var d := ReadyAfter(procs, cur, 1);
      if d < SLOTS then Chosen(procs, cur) == Slot(cur, d) != cur else Chosen(procs, cur) == cur
  {
    hide Slot, ReadyAfter;
    WholeRound(cur);
    var d := ReadyAfter(procs, cur, 1);
    if d < SLOTS { SlotsDiffer(cur, d); }
    if d > SLOTS {
      assert procs[Slot(cur, SLOTS - cur)].state != Ready;
    }
  }

  lemma WholeRound(cur: nat)
    requires cur < SLOTS
    ensures Slot(cur, SLOTS) == cur && Slot(cur, SLOTS - cur) == 0
  {
  }

  lemma SlotsDiffer(cur: nat, d: nat)
    requires cur < SLOTS && 1 <= d < SLOTS
    ensures Slot(cur, d) != cur
  {
  }

  /** A sleeper becomes ready or runs again only when its time has come. */
  lemma SleeperWakes(s: Sched, ev: Event, i: nat)
    requires Shape(s) && Allowed(s, ev) && OneRunning(s) && i < SLOTS && s.procs[i].state == Sleeping
    requires Step(s, ev).procs[i].state == Ready || Step(s, ev).procs[i].state == Running
    ensures !ev.Block? && !ev.Unblock? && !ev.Create?
    ensures ev.now >= if ev.Sleep? && i == s.cur then ev.until else s.procs[i].until
  {
    hide Rescheduled;
    match ev
    case Tick(now) => RescheduleWakes(Counted(s), now, i);
    case Yield(now) => RescheduleWakes(s, now, i);
    case Exit(now) => RescheduleWakes(SetState(s, s.cur, Dead), now, i);
    case Sleep(until, now) =>
      RescheduleWakes(s.(procs := s.procs[s.cur := s.procs[s.cur].(state := Sleeping, until := until)]), now, i);
    case Block(k) =>
    case Unblock(k) =>
    case Create(pid, priority) =>
  }

  /** Only slots that are ready, running or due to wake are ready or running after a rescheduling. */
  lemma RescheduleWakes(s: Sched, now: nat, i: nat)
    requires Shape(s) && OneRunning(s) && i < SLOTS
    requires Rescheduled(s, now).procs[i].state == Ready || Rescheduled(s, now).procs[i].state == Running
    ensures var p := s.procs[i]; p.state == Ready || p.state == Running || (p.state == Sleeping && now >= p.until)
  {
    ChosenIs(AllWoken(s.procs, now), s.cur);
    hide Chosen, ReadyAfter, Slot;
  }

  // ---- A sleeper over whole runs ----

  /** The clock has not reached u when the event happens. */
  predicate Before(ev: Event, u: nat) { !ev.Block? && !ev.Unblock? && !ev.Create? ==> ev.now < u }

  /** At some point of the run slot i is ready or running. */
  ghost predicate Wakes(s: Sched, evs: seq<Event>, i: nat)
    requires Shape(s) && i < SLOTS
    decreases |evs|
  {
    s.procs[i].state == Ready || s.procs[i].state == Running
    || (evs != [] && Allowed(s, evs[0]) && Wakes(Step(s, evs[0]), evs[1..], i))
  }

  /** Slot i is unblocked after it has been blocked. */
  predicate BlockedThenUnblocked(evs: seq<Event>, i: nat, blocked: bool) {
    evs != [] &&
    ((blocked && evs[0] == Unblock(i)) || BlockedThenUnblocked(evs[1..], i, blocked || evs[0] == Block(i)))
  }

  /** Slot i has the processor and calls process_sleep or process_exit itself. */
  predicate ActsItself(s: Sched, ev: Event, i: nat) { s.cur == i && (ev.Sleep? || ev.Exit?) }

  /** As long as slot i is not ready or running again it calls neither process_sleep nor process_exit. */
  ghost predicate Passive(s: Sched, evs: seq<Event>, i: nat)
    requires Shape(s) && i < SLOTS
    decreases |evs|
  {
    evs == [] || s.procs[i].state == Ready || s.procs[i].state == Running
    || (Allowed(s, evs[0]) && !ActsItself(s, evs[0], i) && Passive(Step(s, evs[0]), evs[1..], i))
  }

  /** One event before its time leaves a sleeper, or a blocked one, where it is, unless it blocks or unblocks it. */
  lemma StaysAsleep(s: Sched, ev: Event, i: nat)
    requires Shape(s) && Allowed(s, ev) && OneRunning(s) && i < SLOTS && Before(ev, s.procs[i].until)
    requires s.procs[i].state == Sleeping || s.procs[i].state == Blocked
    requires !ActsItself(s, ev, i)
    ensures var t := Step(s, ev);
      && (t.cur == i ==> s.cur == i) && t.procs[i].until == s.procs[i].until
      && t.procs[i].state ==
           if ev == Block(i) then Blocked
           else if ev == Unblock(i) && s.procs[i].state == Blocked then Ready
           else s.procs[i].state
  {
    hide Rescheduled;
    match ev
    case Tick(now) => Untouched(Counted(s), now, i);
    case Yield(now) => Untouched(s, now, i);
    case Exit(now) => Untouched(SetState(s, s.cur, Dead), now, i);
    case Sleep(until, now) =>
      Untouched(s.(procs := s.procs[s.cur := s.procs[s.cur].(state := Sleeping, until := until)]), now, i);
    case Block(k) =>
    case Unblock(k) =>
    case Create(pid, priority) =>
  }

  lemma Untouched(s: Sched, now: nat, i: nat)
    requires Shape(s) && OneRunning(s) && i < SLOTS && now < s.procs[i].until
    requires s.procs[i].state == Sleeping || s.procs[i].state == Blocked
    ensures (Rescheduled(s, now).cur == i ==> s.cur == i) && Rescheduled(s, now).procs[i] == s.procs[i]
  {
    ChosenIs(AllWoken(s.procs, now), s.cur);
    hide Chosen, Slot;
  }

  /**
   Over a whole run before its time comes, a sleeping process wakes exactly if it is blocked and later unblocked.
   A process that has the processor though it sleeps, since no other can run, must not call process_sleep or
   process_exit again meanwhile.
   */
  lemma {:induction false} WakesEarly(s: Sched, evs: seq<Event>, i: nat)
    requires Shape(s) && OneRunning(s) && i < SLOTS && (i != s.cur || Passive(s, evs, i))
    requires s.procs[i].state == Sleeping || s.procs[i].state == Blocked
    requires forall ev :: ev in evs ==> Allowed(s, ev) && Before(ev, s.procs[i].until)
    ensures Wakes(s, evs, i) <==> BlockedThenUnblocked(evs, i, s.procs[i].state == Blocked)
    decreases |evs|
  {
    if evs != [] {
      hide Step, OneRunning;
      var ev := evs[0];
      assert ev in evs;
      StaysAsleep(s, ev, i);
      StepKeeps(s, ev);
      if !(s.procs[i].state == Blocked && ev == Unblock(i)) {
        forall e | e in evs[1..] ensures Allowed(Step(s, ev), e) && Before(e, Step(s, ev).procs[i].until) {
          assert e in evs;
        }
        WakesEarly(Step(s, ev), evs[1..], i);
      }
    }
  }

  /** process_sleep puts the caller to sleep. */
  lemma FallsAsleep(s: Sched, until: nat, now: nat)
    requires Shape(s) && OneRunning(s) && now < until
    ensures var t := Step(s, Sleep(until, now)); t.procs[s.cur].state == Sleeping && t.procs[s.cur].until == until
  {
    hide Rescheduled;
    Untouched(s.(procs := s.procs[s.cur := s.procs[s.cur].(state := Sleeping, until := until)]), now, s.cur);
  }

  /** From then on the caller is neither ready nor running before its time, unless it is blocked and unblocked. */
  lemma SleepsThrough(s: Sched, until: nat, now: nat, evs: seq<Event>)
    requires Shape(s) && OneRunning(s) && now < until && Passive(Step(s, Sleep(until, now)), evs, s.cur)
    requires forall ev :: ev in evs ==> Allowed(s, ev) && Before(ev, until)
    ensures Wakes(Step(s, Sleep(until, now)), evs, s.cur) <==> BlockedThenUnblocked(evs, s.cur, false)
  {
    hide Step, OneRunning, Passive, Wakes, BlockedThenUnblocked;
    FallsAsleep(s, until, now);
    StepKeeps(s, Sleep(until, now));
    WakesEarly(Step(s, Sleep(until, now)), evs, s.cur);
  }

  // ---- Bounded waiting ----

  /** Distance from the current slot to slot j, going round. */
  function Distance(cur: nat, j: nat): nat { (j + SLOTS - cur) % SLOTS }

  /**
   How many ticks slot j may still have to wait: the rest of this slice and a slice for each slot in
   between. A slot whose process has ended counts in full, since a new process may start there.
   */
  function Rank(s: Sched, j: nat): nat
    requires Shape(s) && j < SLOTS && j != s.cur
  {
    var p := s.procs[s.cur];
    SLICE * (Distance(s.cur, j) - 1)
    + if p.state == Dead then SLICE else if p.slice < SLICE then SLICE - p.slice else 1
  }

  lemma RankBounds(s: Sched, j: nat)
    requires Shape(s) && j < SLOTS && j != s.cur
    ensures 1 <= Rank(s, j) <= 150 && 1 <= Distance(s.cur, j) <= 15
  {
  }

  ghost predicate Waits(s: Sched, j: nat) {
    Shape(s) && j < SLOTS && j != s.cur && s.procs[j].state == Ready
  }

  /** While j waits, a rescheduling always switches, and to a slot nearer to j or to j itself. */
  lemma RescheduleNearer(s: Sched, now: nat, j: nat)
    requires Waits(s, j)
    ensures var t := Rescheduled(s, now);
      && t.cur != s.cur && t.procs[t.cur].slice == 0
      && (t.cur != j ==> Distance(t.cur, j) < Distance(s.cur, j))
  {
    var w := AllWoken(s.procs, now);
    var k, d := ReadyAfter(w, s.cur, 1), Distance(s.cur, j);
    RoundTrip(s.cur, j);
    RankBounds(s, j);
    assert w[Slot(s.cur, d)].state == Ready;
    NearerSlot(s.cur, k, j);
    hide ReadyAfter, Slot, Distance, AllWoken;
  }

  lemma RoundTrip(cur: nat, j: nat)
    requires cur < SLOTS && j < SLOTS
    ensures Slot(cur, Distance(cur, j)) == j
  {
  }

  lemma NearerSlot(cur: nat, k: nat, j: nat)
    requires cur < SLOTS && j < SLOTS && 1 <= k <= Distance(cur, j)
    ensures Slot(cur, k) != cur && (Slot(cur, k) != j ==> Distance(Slot(cur, k), j) < Distance(cur, j))
  {
  }

  /** No event makes a waiting slot wait longer; every tick and every switch brings it nearer. */
  lemma WaitShrinks(s: Sched, ev: Event, j: nat)
    requires Waits(s, j) && Allowed(s, ev) && Waits(Step(s, ev), j)
    ensures var t := Step(s, ev);
      && Rank(t, j) <= Rank(s, j) && (ev.Tick? ==> Rank(t, j) < Rank(s, j))
      && Distance(t.cur, j) <= Distance(s.cur, j) && (t.cur != s.cur ==> Distance(t.cur, j) < Distance(s.cur, j))
  {
    hide Rescheduled, Distance;
    match ev
    case Tick(now) =>
      var c := Counted(s);
      if TickSwitches(c.procs[c.cur]) { Nearer(c, now, j); }
    case Yield(now) => Nearer(s, now, j);
    case Exit(now) => Nearer(SetState(s, s.cur, Dead), now, j);
    case Sleep(until, now) =>
      Nearer(s.(procs := s.procs[s.cur := s.procs[s.cur].(state := Sleeping, until := until)]), now, j);
    case Block(i) =>
    case Unblock(i) =>
    case Create(pid, priority) =>
  }

  /** After a switch at most a slice for each slot in between is left, less than before whatever was left then. */
  lemma Nearer(s: Sched, now: nat, j: nat)
    requires Waits(s, j)
    ensures var t := Rescheduled(s, now);
      && t.cur != s.cur
      && (t.cur != j ==> Distance(t.cur, j) < Distance(s.cur, j) && Rank(t, j) <= SLICE * (Distance(s.cur, j) - 1))
  {
    RescheduleNearer(s, now, j);
    RescheduledRuns(s, now);
  }

  lemma RescheduledRuns(s: Sched, now: nat)
    requires Shape(s)
    ensures var t := Rescheduled(s, now);
      t.cur != s.cur ==> t.procs[t.cur].state == Running && t.procs[t.cur].slice == 0
  {
    hide Chosen;
  }

  /** A stretch of events during which slot j is ready all the time and does not get the processor. */
  ghost predicate Waiting(s: Sched, evs: seq<Event>, j: nat)
    decreases |evs|
  {
    && Waits(s, j)
    && (evs != [] ==> Allowed(s, evs[0]) && Waiting(Step(s, evs[0]), evs[1..], j))
  }

  ghost function Ticks(evs: seq<Event>): nat {
    if evs == [] then 0 else (if evs[0].Tick? then 1 else 0) + Ticks(evs[1..])
  }

  /** Changes of the current slot. */
  ghost function Switches(s: Sched, evs: seq<Event>, j: nat): nat
    requires Waiting(s, evs, j)
    decreases |evs|
  {
    if evs == [] then 0
    else (if Step(s, evs[0]).cur != s.cur then 1 else 0) + Switches(Step(s, evs[0]), evs[1..], j)
  }

  /** Whatever happens, a slot that stays ready has the processor by the 150th tick and by the 15th switch. */
  lemma {:induction false} BoundedWait(s: Sched, evs: seq<Event>, j: nat)
    requires Waiting(s, evs, j)
    ensures Ticks(evs) < Rank(s, j) <= 150
    ensures Switches(s, evs, j) < Distance(s.cur, j) <= 15
    decreases |evs|
  {
    RankBounds(s, j);
    if evs != [] {
      hide Step, Distance, Rank;
      WaitShrinks(s, evs[0], j);
      BoundedWait(Step(s, evs[0]), evs[1..], j);
    }
  }
}
