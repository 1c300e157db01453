/** Over every run a thread is in at most one place, and a killed one does not come back. */
module ThreadPlaces {
  import opened Threads
  import opened Runs

  function One(b: bool): (k: nat) {
    if b then 1 else 0
  }

  lemma {:induction false} RunningUpdate(active: map<nat, Thread>, n: nat, c: nat, x: Thread, t: Thread)
    ensures Running(active[c := x], n, t) + One(c < n && c in active && active[c] == t) ==
      Running(active, n, t) + One(c < n && x == t)
  {
    if n > 0 {
      RunningUpdate(active, n - 1, c, x, t);
    }
  }

  lemma {:induction false} WaitsUpdate(sems: seq<Gate>, i: nat, sem: Gate, t: Thread)
    requires i < |sems|
    ensures Waits(sems[i := sem], t) + multiset(sems[i].waiting)[t] == Waits(sems, t) + multiset(sem.waiting)[t]
  {
    if i == 0 {
      assert sems[0 := sem][1..] == sems[1..];
    } else {
      assert sems[i := sem][1..] == sems[1..][i - 1 := sem];
      WaitsUpdate(sems[1..], i - 1, sem, t);
    }
  }

  lemma {:induction false} WaitsAt(sems: seq<Gate>, i: nat, t: Thread)
    requires i < |sems|
    ensures multiset(sems[i].waiting)[t] <= Waits(sems, t)
  {
    if i > 0 {
      WaitsAt(sems[1..], i - 1, t);
    }
  }

  lemma {:induction false} RunningSome(active: map<nat, Thread>, n: nat, c: nat)
    requires c in active && c < n
    ensures Running(active, n, active[c]) >= 1
  {
    if c < n - 1 {
      RunningSome(active, n - 1, c);
    }
  }

  /** A dispatch takes the running thread off the core and leaves no thread in more places. */
  lemma {:induction false} DispatchHeld(table: Table, c: nat, t: Thread)
    requires c < table.cores && t.Task?
    ensures Held(Dispatched(table, c), t) + One(IsActive(table, t, c)) <= Held(table, t)
    ensures t !in table.dying ==> Held(Dispatched(table, c), t) + One(IsActive(table, t, c)) == Held(table, t)
  {
    hide FirstLiving, Picked, Left, Running;
    LeftCount(table, c, t);
    RunningUpdate(table.active, table.cores, c, Picked(table, c), t);
  }

  /** A dispatch takes what it picks from the queue and drops dying threads only. */
  lemma {:induction false} LeftCount(table: Table, c: nat, t: Thread)
    requires t.Task?
    ensures multiset(Left(table))[t] + One(Picked(table, c) == t) <= multiset(table.ready)[t]
    ensures t !in table.dying ==> multiset(Left(table))[t] + One(Picked(table, c) == t) == multiset(table.ready)[t]
  {
    var i := FirstLiving(table.ready, table.dying);
    if i < |table.ready| {
      SplitCount(table.ready, i, t);
      assert t !in table.dying ==> t !in table.ready[..i];
    } else {
      assert t !in table.dying ==> t !in table.ready;
    }
  }

  lemma {:induction false} SplitCount(ts: seq<Thread>, i: nat, t: Thread)
    requires i < |ts|
    ensures multiset(ts)[t] == multiset(ts[..i])[t] + One(ts[i] == t) + multiset(ts[i + 1..])[t]
  {
    assert ts == ts[..i] + [ts[i]] + ts[i + 1..];
  }

  lemma {:induction false} QueuedHeld(table: Table, c: nat, t: Thread)
    requires c < table.cores && Held(table, t) <= 1
    ensures Held(Queued(table, c), t) <= Held(table, t) + One(IsActive(table, t, c))
    ensures t.Task? && t !in table.dying ==> Held(Queued(table, c), t) == Held(table, t) + One(IsActive(table, t, c))
    ensures var r := Queued(table, c); r.active == table.active && r.cores == table.cores && r.dying == table.dying
  {
    if IsActive(table, t, c) {
      RunningSome(table.active, table.cores, c);
    }
  }

  lemma {:induction false} SwitchedPlaces(s: State, table: Table, c: nat, t: Thread)
    requires c < table.cores && t.Task?
    ensures Places(Switched(s, table, c), t) + One(IsActive(table, t, c)) <=
      Held(table, t) + Waits(s.sems, t) + multiset(s.bells)[t]
    ensures t !in table.dying ==>
      Places(Switched(s, table, c), t) + One(IsActive(table, t, c)) == Held(table, t) + Waits(s.sems, t) + multiset(s.bells)[t]
  {
    DispatchHeld(table, c, t);
  }

  lemma {:induction false} BlockedPlaces(s: State, c: nat, i: nat, t: Thread)
    requires c < s.table.cores && c in s.table.active && i < |s.sems| && t.Task? && Places(s, t) <= 1
    ensures Places(Blocked(s, c, i), t) <= Places(s, t)
    ensures t !in s.table.dying ==> Places(Blocked(s, c, i), t) == Places(s, t)
  {
    hide Running, Waits;
    var sem := Parked(s.sems[i], s.table.active[c]);
    WaitsUpdate(s.sems, i, sem, t);
    WaitsAt(s.sems, i, t);
    RunningSome(s.table.active, s.table.cores, c);
    SwitchedPlaces(s.(sems := s.sems[i := sem]), s.table, c, t);
  }

  lemma {:induction false} SignalledPlaces(s: State, i: nat, t: Thread)
    requires i < |s.sems| && Places(s, t) <= 1
    ensures Places(Signalled(s, i), t) == Places(s, t)
  {
    hide Enqueued, Running, Waits;
    var sem := s.sems[i];
    WaitsUpdate(s.sems, i, Handed(sem), t);
    if sem.waiting != [] {
      SplitCount(sem.waiting, 0, t);
      WaitsAt(s.sems, i, t);
      EnqueuedPlaces(s.(sems := s.sems[i := Handed(sem)]), sem.waiting[0], t);
    }
  }

  lemma {:induction false} TakenPlaces(s: State, i: nat, t: Thread)
    requires i < |s.sems| && s.sems[i].counter > 0
    ensures Places(Taken(s, i), t) == Places(s, t)
  {
    WaitsUpdate(s.sems, i, s.sems[i].(counter := s.sems[i].counter - 1), t);
  }

  lemma {:induction false} SleepPlaces(s: State, c: nat, k: nat, t: Thread)
    requires c < s.table.cores && c in s.table.active && k <= |s.bells| && t.Task?
    ensures Places(Switched(s.(bells := s.bells[..k] + [s.table.active[c]] + s.bells[k..]), s.table, c), t) <= Places(s, t)
    ensures t !in s.table.dying ==>
      Places(Switched(s.(bells := s.bells[..k] + [s.table.active[c]] + s.bells[k..]), s.table, c), t) == Places(s, t)
  {
    SwitchedPlaces(s.(bells := s.bells[..k] + [s.table.active[c]] + s.bells[k..]), s.table, c, t);
    assert s.bells == s.bells[..k] + s.bells[k..];
  }

  lemma {:induction false} RingPlaces(s: State, t: Thread)
    requires s.bells != [] && Places(s, t) <= 1
    ensures Places(Enqueued(s.(bells := s.bells[1..]), s.bells[0]), t) == Places(s, t)
  {
    hide Running, Waits;
    SplitCount(s.bells, 0, t);
    EnqueuedPlaces(s.(bells := s.bells[1..]), s.bells[0], t);
  }

  /** The step takes the thread out of circulation: it ends, or is marked as dying. */
  ghost predicate Ends(s: State, step: Step, t: Thread) {
    (step.Exit? && IsActive(s.table, t, step.core)) || (step.Kill? && step.thread == t)
  }

  /**
   * No step puts an ordinary thread in one more place, except creating it, and
   * no step loses one that neither ends nor is dying.
   */
  lemma {:induction false} StepPlaces(s: State, step: Step, t: Thread)
    requires Enabled(s, step) && t.Task? && Places(s, t) <= 1
    ensures Places(Apply(s, step), t) <= if step.Create? && step.thread == t then 1 else Places(s, t)
    ensures t !in s.table.dying && !Ends(s, step, t) ==> Places(Apply(s, step), t) >= Places(s, t)
  {
    hide Running, Waits, Dispatched, Queued, Blocked, Signalled, Enqueued, Taken;
    match step
    case Schedule(c) => SwitchedPlaces(s, s.table, c, t);
    case Create(c, x) => EnqueuedPlaces(s, x, t);
    case Yield(c) =>
      QueuedHeld(s.table, c, t);
      SwitchedPlaces(s, Queued(s.table, c), c, t);
    case IdleResume(c) =>
      QueuedHeld(s.table, c, t);
      SwitchedPlaces(AtPhase(s, c, Top), Queued(s.table, c), c, t);
    case Exit(c) => SwitchedPlaces(s, s.table, c, t);
    case Kill(c, x) => KilledHeld(s.table, x, t);
    case Acquire(c, i) =>
      if s.sems[i].counter > 0 {
        TakenPlaces(s, i, t);
      } else {
        BlockedPlaces(s, c, i, t);
      }
    case Release(c, i) => SignalledPlaces(s, i, t);
    case Sleep(c, k) => SleepPlaces(s, c, k, t);
    case Ring(c) => RingPlaces(s, t);
    case Press(c) => PressedPlaces(s, t);
    case GetKey(c) =>
      if s.sems[KEYS].counter > 0 {
        TakenPlaces(s.(keys := if s.keys > 0 then s.keys - 1 else 0), KEYS, t);
      } else {
        BlockedPlaces(s, c, KEYS, t);
      }
    case _ =>
  }

  lemma {:induction false} EnqueuedPlaces(s: State, x: Thread, t: Thread)
    ensures Places(Enqueued(s, x), t) <= Places(s, t) + One(x == t)
    ensures x != t || x !in s.table.ready ==> Places(Enqueued(s, x), t) == Places(s, t) + One(x == t)
  {
  }

  lemma {:induction false} KilledHeld(table: Table, x: Thread, t: Thread)
    ensures Held(Killed(table, x), t) <= Held(table, t) && (x != t ==> Held(Killed(table, x), t) == Held(table, t))
  {
    DropCount(table.ready, x);
  }

  lemma {:induction false} PressedPlaces(s: State, t: Thread)
    requires KEYS < |s.sems| && Places(s, t) <= 1
    ensures Places(Pressed(s), t) == Places(s, t)
  {
    if s.keys < KEY_SLOTS {
      var woken := if s.sems[KEYS].waiting == [] then {} else {s.sems[KEYS].waiting[0]};
      SignalledPlaces(s.(keys := s.keys + 1, holders := s.holders + woken), KEYS, t);
    }
  }

  // ---- idle threads stay at home ----

  lemma {:induction false} DispatchHomes(table: Table, c: nat)
    requires TableHomes(table) && c < table.cores
    ensures TableHomes(Dispatched(table, c))
  {
  }

  lemma {:induction false} QueuedHomes(table: Table, c: nat)
    requires TableHomes(table)
    ensures TableHomes(Queued(table, c))
  {
  }

  lemma {:induction false} KilledHomes(table: Table, t: Thread)
    requires TableHomes(table)
    ensures TableHomes(Killed(table, t))
  {
    if t in table.ready {
      var k := DropAt(table.ready, t);
    } else {
      DropAbsent(table.ready, t);
    }
  }

  lemma {:induction false} EnqueuedHomes(table: Table, t: Thread)
    requires TableHomes(table) && t.Task?
    ensures TableHomes(table.(ready := table.ready + [t]))
  {
  }

  lemma {:induction false} SignalledHomes(s: State, i: nat)
    requires Homes(s) && i < |s.sems|
    ensures Homes(Signalled(s, i)) && Signalled(s, i).table.cores == s.table.cores && Signalled(s, i).phase == s.phase
  {
    hide TableHomes;
    if s.sems[i].waiting != [] {
      assert AllTasks(s.sems[i].waiting);
      EnqueuedHomes(s.table, s.sems[i].waiting[0]);
    }
  }

  lemma {:induction false} BlockedHomes(s: State, c: nat, i: nat)
    requires Homes(s) && i < |s.sems| && c < s.table.cores && c in s.table.active && s.table.active[c].Task?
    ensures Homes(Blocked(s, c, i)) && Blocked(s, c, i).table.cores == s.table.cores && Blocked(s, c, i).phase == s.phase
  {
    hide TableHomes;
    DispatchHomes(s.table, c);
    assert AllTasks(s.sems[i].waiting);
  }

  lemma {:induction false} StepHomes(s: State, step: Step)
    requires Homes(s) && |s.phase| == s.table.cores && Enabled(s, step)
    ensures Homes(Apply(s, step)) && |Apply(s, step).phase| == Apply(s, step).table.cores == s.table.cores
  {
    hide Places, FirstLiving, Picked, Left, Drop, TableHomes, Signalled, Blocked;
    match step
    case Schedule(c) => DispatchHomes(s.table, c);
    case Create(c, t) => EnqueuedHomes(s.table, t);
    case Yield(c) =>
      QueuedHomes(s.table, c);
      DispatchHomes(Queued(s.table, c), c);
    case IdleResume(c) =>
      QueuedHomes(s.table, c);
      DispatchHomes(Queued(s.table, c), c);
    case Exit(c) => DispatchHomes(s.table, c);
    case Kill(c, t) => KilledHomes(s.table, t);
    case Acquire(c, i) =>
      if s.sems[i].counter == 0 {
        BlockedHomes(s, c, i);
      }
    case Release(c, i) => SignalledHomes(s, i);
    case Sleep(c, k) => DispatchHomes(s.table, c);
    case Ring(c) => EnqueuedHomes(s.table, s.bells[0]);
    case Press(c) =>
      var woken := if s.sems[KEYS].waiting == [] then {} else {s.sems[KEYS].waiting[0]};
      SignalledHomes(s.(keys := s.keys + 1, holders := s.holders + woken), KEYS);
    case GetKey(c) =>
      if s.sems[KEYS].counter == 0 {
        BlockedHomes(s, c, KEYS);
      }
    case _ =>
  }

  lemma {:induction false} StepPartition(s: State, step: Step)
    requires Partition(s) && Enabled(s, step)
    ensures Partition(Apply(s, step))
  {
    hide Places;
    StepHomes(s, step);
    forall t: Thread | t.Task? ensures Places(Apply(s, step), t) <= 1 {
      StepPlaces(s, step, t);
    }
  }

  lemma {:induction false} RunPartition(s: State, steps: seq<Step>, r: State)
    requires Partition(s) && Run(s, steps, r)
    ensures Partition(r)
    decreases |steps|
  {
    if steps != [] {
      StepPartition(s, steps[0]);
      RunPartition(Apply(s, steps[0]), steps[1..], r);
    }
  }

  /** Nothing in the run ends the thread. */
  ghost predicate Spared(s: State, steps: seq<Step>, t: Thread)
    decreases |steps|
  {
    steps != [] && Enabled(s, steps[0]) ==> !Ends(s, steps[0], t) && Spared(Apply(s, steps[0]), steps[1..], t)
  }

  lemma {:induction false} StepDying(s: State, step: Step, t: Thread)
    requires Enabled(s, step) && t !in s.table.dying && !Ends(s, step, t)
    ensures t !in Apply(s, step).table.dying
  {
    hide Places, FirstLiving, Picked, Left, Drop;
  }

  /** A thread in circulation that is neither killed nor ends is still in exactly one place. */
  lemma {:induction false} NotLost(s: State, steps: seq<Step>, r: State, t: Thread)
    requires Partition(s) && Run(s, steps, r) && Spared(s, steps, t)
    requires t.Task? && t !in s.table.dying && Places(s, t) == 1
    ensures Places(r, t) == 1
    decreases |steps|
  {
    hide Places, Apply, Enabled, Partition, Ends;
    if steps != [] {
      var step := steps[0];
      StepPlaces(s, step, t);
      StepDying(s, step, t);
      StepPartition(s, step);
      OnlyNewIsCreated(s, step, t);
      NotLost(Apply(s, step), steps[1..], r, t);
    }
  }

  lemma {:induction false} OnlyNewIsCreated(s: State, step: Step, t: Thread)
    requires Enabled(s, step) && Places(s, t) == 1
    ensures !(step.Create? && step.thread == t)
  {
  }

  lemma {:induction false} RunningNowhere(n: nat, t: Thread)
    ensures Running(map[], n, t) == 0
  {
    if n > 0 {
      RunningNowhere(n - 1, t);
    }
  }

  lemma {:induction false} WaitsNowhere(sems: seq<Gate>, t: Thread)
    requires forall i :: 0 <= i < |sems| ==> sems[i].waiting == []
    ensures Waits(sems, t) == 0
  {
    if sems != [] {
      WaitsNowhere(sems[1..], t);
    }
  }

  lemma {:induction false} InitialPartition(s: State)
    requires Initial(s)
    ensures Partition(s) && forall t :: Places(s, t) == 0
  {
    forall t ensures Places(s, t) == 0 {
      RunningNowhere(s.table.cores, t);
      WaitsNowhere(s.sems, t);
    }
  }

  /** An idle thread runs on its own core or nowhere. */
  lemma {:induction false} IdleRunning(active: map<nat, Thread>, n: nat, c: nat)
    requires forall d :: d in active && active[d].Idle? ==> active[d] == Idle(d)
    ensures Running(active, n, Idle(c)) == One(c < n && c in active && active[c] == Idle(c))
  {
    if n > 0 {
      IdleRunning(active, n - 1, c);
    }
  }

  lemma {:induction false} NotWaiting(sems: seq<Gate>, t: Thread)
    requires t.Idle? && forall i :: 0 <= i < |sems| ==> AllTasks(sems[i].waiting)
    ensures Waits(sems, t) == 0
  {
    if sems != [] {
      assert t !in sems[0].waiting;
      NotWaiting(sems[1..], t);
    }
  }

  /**
   * In every state of every run each thread is in at most one place: running on
   * one core, in the ready queue, behind one semaphore or behind one bell, once.
   * The idle thread of a core is nowhere but on that core.
   */
  lemma {:induction false} OnePlace(s: State, steps: seq<Step>, r: State, t: Thread)
    requires Initial(s) && Run(s, steps, r)
    ensures Places(r, t) <= 1
    ensures forall c: nat :: IsActive(r.table, t, c) ==> c < r.table.cores && (t.Idle? ==> t == Idle(c))
    ensures t.Idle? ==> t !in r.table.ready && t !in r.bells && Waits(r.sems, t) == 0
  {
    InitialPartition(s);
    RunPartition(s, steps, r);
    if t.Idle? {
      IdleRunning(r.table.active, r.table.cores, t.core);
      NotWaiting(r.sems, t);
    }
  }

  // ---- dying threads ----

  /** A dying thread that gives up its core is nowhere afterwards: it is not queued again. */
  lemma {:induction false} DyingLeaves(s: State, c: nat, t: Thread)
    requires Partition(s) && t.Task? && t in s.table.dying && IsActive(s.table, t, c) && Enabled(s, Yield(c))
    ensures Places(Apply(s, Yield(c)), t) == 0
  {
    hide Running, Waits, Dispatched;
    assert Queued(s.table, c) == s.table;
    SwitchedPlaces(s, s.table, c, t);
    assert Places(s, t) <= 1;
  }

  /** The thread is marked and no core runs it. */
  ghost predicate Gone(table: Table, t: Thread) {
    t in table.dying && forall c :: c in table.active ==> table.active[c] != t
  }

  lemma {:induction false} DispatchGone(table: Table, c: nat, t: Thread)
    requires t.Task? && Gone(table, t)
    ensures Gone(Dispatched(table, c), t)
  {
  }

  lemma {:induction false} StepGone(s: State, step: Step, t: Thread)
    requires Enabled(s, step) && t.Task? && Gone(s.table, t)
    ensures Gone(Apply(s, step).table, t)
  {
    hide Places, FirstLiving, Picked, Left, Drop, Dispatched;
    match step
    case Schedule(c) => DispatchGone(s.table, c, t);
    case Yield(c) => DispatchGone(Queued(s.table, c), c, t);
    case IdleResume(c) => DispatchGone(Queued(s.table, c), c, t);
    case Exit(c) => DispatchGone(s.table, c, t);
    case Acquire(c, i) => DispatchGone(s.table, c, t);
    case Sleep(c, k) => DispatchGone(s.table, c, t);
    case GetKey(c) => DispatchGone(s.table, c, t);
    case _ =>
  }

  /** A dying thread that no core runs never runs again. */
  lemma {:induction false} NeverAgain(s: State, steps: seq<Step>, r: State, t: Thread)
    requires Run(s, steps, r) && t.Task? && Gone(s.table, t)
    ensures Gone(r.table, t)
    decreases |steps|
  {
    if steps != [] {
      StepGone(s, steps[0], t);
      NeverAgain(Apply(s, steps[0]), steps[1..], r, t);
    }
  }
}
