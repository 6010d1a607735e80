/**
 What every event does to every slot, in plain numbers, and what follows over runs: nobody is lost, a slice is ten
 ticks, an overdue sleeper wakes within one, an ended process stays ended, and every tick is counted once.
 */
module SchedulerLaws {
  import opened Scheduler

  /** The state and slice of a slot after a switch from slot was to slot cur. */
  predicate SlotAfter(p: Process, q: Process, i: nat, was: nat, cur: nat, now: nat) {
    && q.pid == p.pid && q.priority == p.priority && q.total == p.total && q.until == p.until
    && if i == cur && cur != was then q.state == Running && q.slice == 0
       else
         && q.slice == p.slice
         && q.state ==
              if p.state == Sleeping && p.until <= now then Ready
              else if i == was && cur != was && p.state == Running then Ready
              else p.state
  }

  /**
   A rescheduling wakes who is due, stops the current process if it gives way, and starts the new one with a fresh
   slice; every other slot stays as it is.
   */
  lemma RescheduleExact(s: Sched, now: nat, i: nat)
    requires Shape(s) && i < SLOTS
    ensures var t := Rescheduled(s, now); SlotAfter(s.procs[i], t.procs[i], i, s.cur, t.cur, now)
  {
    hide Chosen;
  }

  /** Who could run still can. */
  lemma NobodyLost(s: Sched, now: nat, i: nat)
    requires Shape(s) && i < SLOTS && (s.procs[i].state == Ready || s.procs[i].state == Running)
    ensures var q := Rescheduled(s, now).procs[i]; q.state == Ready || q.state == Running
  {
    hide Rescheduled;
    RescheduleExact(s, now, i);
  }

  /** A tick before the tenth of a slice is counted, and nothing else happens. */
  lemma TickKept(s: Sched, now: nat)
    requires Shape(s) && s.procs[s.cur].state == Running && s.procs[s.cur].slice + 1 < 10
    ensures var p := s.procs[s.cur];
      Step(s, Tick(now)) == s.(procs := s.procs[s.cur := p.(total := p.total + 1, slice := p.slice + 1)])
  {
  }

  /** The tenth tick of a slice takes the processor away, if another slot is ready. */
  lemma TenthTick(s: Sched, now: nat, j: nat)
    requires Waits(s, j) && s.procs[s.cur].slice + 1 >= 10
    ensures Step(s, Tick(now)).cur != s.cur
  {
    hide Rescheduled;
    RescheduleNearer(Counted(s), now, j);
  }

  /** The run has ticks, creations and unblockings only, and blocks other slots than the current one. */
  predicate LeavesRunning(cur: nat, ev: Event) {
    ev.Tick? || ev.Create? || (ev.Unblock? && ev.i < SLOTS) || (ev.Block? && ev.i < SLOTS && ev.i != cur)
  }

  /** Events name slots that there are. */
  predicate Named(ev: Event) { (ev.Block? || ev.Unblock?) ==> ev.i < SLOTS }

  predicate AllNamed(evs: seq<Event>) { forall k :: 0 <= k < |evs| ==> Named(evs[k]) }

  function After(s: Sched, evs: seq<Event>): (t: Sched)
    requires Shape(s) && AllNamed(evs)
    ensures Shape(t)
    decreases |evs|
  {
    if evs == [] then s else
      assert Named(evs[0]);
      After(Step(s, evs[0]), evs[1..])
  }

  /** A running process that does not give way keeps the processor until the tenth tick of its slice. */
  lemma {:induction false} SliceKept(s: Sched, evs: seq<Event>)
    requires Shape(s) && s.procs[s.cur].state == Running
    requires forall k :: 0 <= k < |evs| ==> LeavesRunning(s.cur, evs[k])
    requires s.procs[s.cur].slice + Ticks(evs) < 10
    ensures AllNamed(evs)
    ensures var t := After(s, evs);
      t.cur == s.cur && t.procs[t.cur].state == Running && t.procs[t.cur].slice == s.procs[s.cur].slice + Ticks(evs)
    decreases |evs|
  {
    if evs != [] {
      hide Rescheduled, Ticks;
      OneEvent(s, evs[0]);
      TicksStep(evs);
      SliceKept(Step(s, evs[0]), evs[1..]);
    }
  }

  lemma TicksStep(evs: seq<Event>)
    requires evs != []
    ensures Ticks(evs) == (if evs[0].Tick? then 1 else 0) + Ticks(evs[1..])
  {
  }

  lemma OneEvent(s: Sched, ev: Event)
    requires Shape(s) && s.procs[s.cur].state == Running && LeavesRunning(s.cur, ev)
    requires ev.Tick? ==> s.procs[s.cur].slice + 1 < 10
    ensures var t := Step(s, ev);
      && t.cur == s.cur && t.procs[t.cur].state == Running
      && t.procs[t.cur].slice == s.procs[s.cur].slice + if ev.Tick? then 1 else 0
  {
    hide Rescheduled;
  }

  // ---- Overdue sleepers ----

  predicate Clocked(ev: Event) { !ev.Block? && !ev.Unblock? && !ev.Create? }

  /** A stretch of events during which slot i sleeps though its time has come. */
  ghost predicate Overdue(s: Sched, evs: seq<Event>, i: nat)
    decreases |evs|
  {
    && Shape(s) && OneRunning(s) && i < SLOTS && s.procs[i].state == Sleeping
    && (evs != [] ==>
          && Named(evs[0]) && (Clocked(evs[0]) ==> s.procs[i].until <= evs[0].now) && !ActsItself(s, evs[0], i)
          && Overdue(Step(s, evs[0]), evs[1..], i))
  }

  /** How many ticks may pass before one that reschedules. */
  function Left(s: Sched): nat
    requires Shape(s)
  {
    var p := s.procs[s.cur];
    if p.state == Dead then 9 else if p.slice < 9 then 9 - p.slice else 0
  }

  /** Whatever happens, an overdue sleeper is awake by the tenth tick. */
  lemma {:induction false} OverdueWakes(s: Sched, evs: seq<Event>, i: nat)
    requires Overdue(s, evs, i)
    ensures Ticks(evs) <= Left(s) <= 9
    decreases |evs|
  {
    if evs != [] {
      hide Step, OneRunning;
      TicksStep(evs);
      OverdueStep(s, evs[0], i);
      OverdueWakes(Step(s, evs[0]), evs[1..], i);
    }
  }

  lemma OverdueStep(s: Sched, ev: Event, i: nat)
    requires Shape(s) && OneRunning(s) && Named(ev) && i < SLOTS && s.procs[i].state == Sleeping
    requires (Clocked(ev) ==> s.procs[i].until <= ev.now) && !ActsItself(s, ev, i)
    requires Step(s, ev).procs[i].state == Sleeping
    ensures Left(Step(s, ev)) + (if ev.Tick? then 1 else 0) <= Left(s)
  {
    hide Rescheduled;
    match ev
    case Tick(now) => RescheduleExact(Counted(s), now, i);
    case Yield(now) => RescheduleExact(s, now, i);
    case Exit(now) => RescheduleExact(SetState(s, s.cur, Dead), now, i);
    case Sleep(until, now) =>
      RescheduleExact(s.(procs := s.procs[s.cur := s.procs[s.cur].(state := Sleeping, until := until)]), now, i);
    case Block(k) =>
    case Unblock(k) =>
    case Create(pid, priority) =>
  }

  // ---- The end of a process, and the start of one ----

  /** process_exit ends the caller, and another process gets the processor if any can run. */
  lemma ExitEnds(s: Sched, now: nat, j: nat)
    requires Shape(s) && OneRunning(s) && j < SLOTS && j != s.cur
    ensures var t := Step(s, Exit(now));
      t.procs[s.cur].state == Dead && (Runnable(s.procs[j], now) ==> t.cur != s.cur)
  {
    hide Rescheduled;
    var d := SetState(s, s.cur, Dead);
    RescheduleExact(d, now, s.cur);
    Deads(d, now);
    if Runnable(s.procs[j], now) {
      SwitchTarget(d, now);
      RoundTrip(s.cur, j);
      RankBounds(s, j);
      assert d.procs[Slot(s.cur, Distance(s.cur, j))] == s.procs[j];
    }
  }

  lemma Deads(s: Sched, now: nat)
    requires Shape(s) && OneRunning(s) && s.procs[s.cur].state == Dead
    ensures Rescheduled(s, now).procs[s.cur].state == Dead
  {
    ChosenIs(AllWoken(s.procs, now), s.cur);
    hide Chosen, ReadyAfter, Slot;
  }

  /** No process is created in slot i, and it is neither blocked nor does it act itself. */
  ghost predicate LeftAlone(s: Sched, evs: seq<Event>, i: nat)
    requires Shape(s) && i < SLOTS
    decreases |evs|
  {
    evs == [] ||
    (Named(evs[0]) && evs[0] != Block(i) && !(s.cur == i && evs[0].Sleep?)
     && (evs[0].Create? ==> exists k :: 0 <= k < i && s.procs[k].state == Dead)
     && LeftAlone(Step(s, evs[0]), evs[1..], i))
  }

  /** An ended process never runs again before a new one is created in its slot. */
  lemma {:induction false} StaysDead(s: Sched, evs: seq<Event>, i: nat)
    requires Shape(s) && OneRunning(s) && i < SLOTS && s.procs[i].state == Dead && LeftAlone(s, evs, i)
    ensures !Wakes(s, evs, i)
    decreases |evs|
  {
    if evs != [] {
      hide Step, OneRunning;
      StepKeeps(s, evs[0]);
      DeadStep(s, evs[0], i);
      StaysDead(Step(s, evs[0]), evs[1..], i);
    }
  }

  lemma DeadStep(s: Sched, ev: Event, i: nat)
    requires Shape(s) && OneRunning(s) && Named(ev) && i < SLOTS && s.procs[i].state == Dead
    requires ev != Block(i) && !(s.cur == i && ev.Sleep?)
    requires ev.Create? ==> exists k :: 0 <= k < i && s.procs[k].state == Dead
    ensures Step(s, ev).procs[i].state == Dead
  {
    hide Rescheduled;
    match ev
    case Tick(now) => NotChosen(Counted(s), now, i);
    case Yield(now) => NotChosen(s, now, i);
    case Exit(now) => NotChosen(SetState(s, s.cur, Dead), now, i);
    case Sleep(until, now) =>
      NotChosen(s.(procs := s.procs[s.cur := s.procs[s.cur].(state := Sleeping, until := until)]), now, i);
    case Block(k) =>
    case Unblock(k) =>
    case Create(pid, priority) =>
  }

  lemma NotChosen(s: Sched, now: nat, i: nat)
    requires Shape(s) && OneRunning(s) && i < SLOTS && s.procs[i].state == Dead
    ensures Rescheduled(s, now).procs[i].state == Dead
  {
    ChosenIs(AllWoken(s.procs, now), s.cur);
    hide Chosen, Slot;
  }

  /** A new process is ready, with nothing counted yet, in the lowest slot without one. */
  lemma CreateExact(s: Sched, pid: nat, priority: nat, i: nat)
    requires Shape(s) && i < SLOTS
    ensures var t, first := Step(s, Create(pid, priority)),
                            s.procs[i].state == Dead && forall k :: 0 <= k < i ==> s.procs[k].state != Dead;
      t.cur == s.cur && t.procs[i] == if first then Process(Ready, pid, priority, 0, 0, 0) else s.procs[i]
  {
    hide FirstDead;
  }

  /** process_unblock makes a blocked slot ready, process_block blocks any; no other slot changes. */
  lemma BlockExact(s: Sched, j: nat, i: nat)
    requires Shape(s) && j < SLOTS && i < SLOTS
    ensures Step(s, Block(j)).cur == s.cur == Step(s, Unblock(j)).cur
    ensures Step(s, Block(j)).procs[i] == if i == j then s.procs[i].(state := Blocked) else s.procs[i]
    ensures Step(s, Unblock(j)).procs[i]
      == if i == j && s.procs[i].state == Blocked then s.procs[i].(state := Ready) else s.procs[i]
  {
  }

  /** A sleep ends after the product of milliseconds and frequency, cut to 32 bits, in thousandths, rounded down. */
  lemma SleepEnds(ms: nat, freq: nat, now: nat)
    ensures var ticks := WakeTime(ms, freq, now) - now;
      1000 * ticks <= ms * freq % 0x1_0000_0000 < 1000 * ticks + 1000
  {
  }

  // ---- Every tick is counted once ----

  function Totals(procs: seq<Process>): nat {
    if procs == [] then 0 else procs[0].total + Totals(procs[1..])
  }

  lemma {:induction false} TotalsSame(a: seq<Process>, b: seq<Process>)
    requires |a| == |b| && forall i :: 0 <= i < |a| ==> b[i].total == a[i].total
    ensures Totals(b) == Totals(a)
  {
    if a != [] { TotalsSame(a[1..], b[1..]); }
  }

  lemma {:induction false} TotalsCounted(a: seq<Process>, b: seq<Process>, k: nat)
    requires |a| == |b| && k < |a|
    requires forall i :: 0 <= i < |a| ==> b[i].total == a[i].total + if i == k then 1 else 0
    ensures Totals(b) == Totals(a) + 1
    decreases k
  {
    if k == 0 { TotalsSame(a[1..], b[1..]); } else { TotalsCounted(a[1..], b[1..], k - 1); }
  }

  /** What one event counts. */
  lemma StepCounts(s: Sched, ev: Event)
    requires Shape(s) && Named(ev) && !ev.Create?
    ensures Totals(Step(s, ev).procs) == Totals(s.procs) + if ev.Tick? then 1 else 0
  {
    hide Rescheduled;
    if ev.Tick? {
      TotalsCounted(s.procs, Counted(s).procs, s.cur);
      SameTotals(Counted(s), ev.now);
    } else {
      match ev
      case Yield(now) => SameTotals(s, now);
      case Exit(now) => SameTotals(SetState(s, s.cur, Dead), now); TotalsSame(s.procs, SetState(s, s.cur, Dead).procs);
      case Sleep(until, now) =>
        var z := s.(procs := s.procs[s.cur := s.procs[s.cur].(state := Sleeping, until := until)]);
        SameTotals(z, now);
        TotalsSame(s.procs, z.procs);
      case Block(k) => TotalsSame(s.procs, Step(s, ev).procs);
      case Unblock(k) => TotalsSame(s.procs, Step(s, ev).procs);
    }
  }

  lemma SameTotals(s: Sched, now: nat)
    requires Shape(s)
    ensures Totals(Rescheduled(s, now).procs) == Totals(s.procs)
  {
    hide Rescheduled;
    var t := Rescheduled(s, now);
    forall i | 0 <= i < SLOTS ensures t.procs[i].total == s.procs[i].total { RescheduleExact(s, now, i); }
    TotalsSame(s.procs, t.procs);
  }

  /** Over any run the ticks counted for all slots grow by the number of ticks. */
  lemma {:induction false} TicksCounted(s: Sched, evs: seq<Event>)
    requires Shape(s) && AllNamed(evs) && forall k :: 0 <= k < |evs| ==> !evs[k].Create?
    ensures Totals(After(s, evs).procs) == Totals(s.procs) + Ticks(evs)
    decreases |evs|
  {
    if evs != [] {
      hide Step, Totals;
      assert Named(evs[0]) && !evs[0].Create?;
      StepCounts(s, evs[0]);
      TicksCounted(Step(s, evs[0]), evs[1..]);
    }
  }
}
