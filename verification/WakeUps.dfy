/** Work in the ready queue is always attended to, however steps interleave with the idle loop. */
module WakeUps {
  import opened Threads
  import opened Runs
  import opened ThreadPlaces

  /** Somebody on this core will come to the queue: it boots, runs a thread, is awake, or is being woken. */
  predicate Attends(s: State, core: nat) {
    core < s.table.cores && core < |s.phase| &&
    (!IsIdle(s.table, core) || Awake(s.phase[core]) || core in s.pending)
  }

  ghost predicate Attended(s: State) {
    s.table.ready == [] || exists c: nat :: Attends(s, c)
  }

  /** A core other than a that runs nothing. */
  predicate Idles(s: State, core: nat, a: nat) {
    core < s.table.cores && core < |s.phase| && core != a && IsIdle(s.table, core)
  }

  /** Such a core that is awake or has a wake-up on its way. */
  predicate Roused(s: State, core: nat, a: nat) {
    Idles(s, core, a) && (Awake(s.phase[core]) || core in s.pending)
  }

  /**
   * A poke is not lost: after a core has made a thread ready and until somebody
   * takes one, if any other core is idle then one of them is awake or being woken.
   */
  ghost predicate Heard(s: State) {
    s.announced.Some? && s.table.ready != [] && (exists d: nat :: Idles(s, d, s.announced.value)) ==>
      exists d: nat :: Roused(s, d, s.announced.value)
  }

  ghost predicate Inv(s: State) {
    |s.phase| == s.table.cores && Attended(s) && Heard(s)
  }

  /** Falling back to the idle thread means that the queue is empty. */
  lemma {:induction false} IdleMeansEmpty(table: Table, c: nat)
    requires AllTasks(table.ready)
    ensures Picked(table, c).Task? || (Picked(table, c) == Idle(c) && Left(table) == [])
  {
  }

  lemma {:induction false} SwitchedInv(s: State, table: Table, c: nat)
    requires |s.phase| == s.table.cores == table.cores && c < table.cores && AllTasks(table.ready)
    ensures Inv(Switched(s, table, c))
  {
    hide FirstLiving, Picked, Left;
    IdleMeansEmpty(table, c);
    var r := Switched(s, table, c);
    if Picked(table, c).Task? {
      assert Attends(r, c);
    }
  }

  lemma {:induction false} EnqueuedInv(s: State, t: Thread, c: nat)
    requires |s.phase| == s.table.cores && On(s, c)
    ensures Inv(Enqueued(s, t))
  {
    assert Attends(Enqueued(s, t), c);
  }

  /** Less in the queue, nothing else changed. */
  lemma {:induction false} ShrunkInv(s: State, r: State)
    requires Inv(s) && r.table.active == s.table.active && r.table.cores == s.table.cores
    requires s.table.ready == [] ==> r.table.ready == []
    requires r.phase == s.phase && r.pending == s.pending && r.announced == s.announced
    ensures Inv(r)
  {
    forall c: nat ensures Attends(r, c) == Attends(s, c) {
    }
    if r.announced.Some? {
      forall c: nat ensures Idles(r, c, r.announced.value) == Idles(s, c, r.announced.value) &&
        Roused(r, c, r.announced.value) == Roused(s, c, r.announced.value)
      {
      }
    }
  }

  /** One core's phase or pending wake-up changes, and it does not stop being attentive. */
  lemma {:induction false} PhaseInv(s: State, r: State, c: nat)
    requires Inv(s) && r.table == s.table && r.announced == s.announced && |r.phase| == |s.phase| && c < |s.phase|
    requires forall d: nat :: d < |s.phase| && d != c ==> r.phase[d] == s.phase[d] && (d in r.pending <==> d in s.pending)
    requires s.table.ready == [] || !IsIdle(s.table, c) ||
      (Awake(s.phase[c]) || c in s.pending ==> Awake(r.phase[c]) || c in r.pending)
    ensures Inv(r)
  {
    if s.table.ready != [] {
      var d: nat :| Attends(s, d);
      assert Attends(r, d);
      if s.announced.Some? && exists e: nat :: Idles(r, e, s.announced.value) {
        var a := s.announced.value;
        var e: nat :| Idles(r, e, a);
        assert Idles(s, e, a);
        var f: nat :| Roused(s, f, a);
        assert Roused(r, f, a);
      }
    }
  }

  lemma {:induction false} PokedInv(s: State, c: nat)
    requires Inv(s) && On(s, c)
    ensures Inv(Poked(s, c))
  {
    var r := Poked(s, c);
    assert Attends(r, c);
    var idle := IdleOther(s.table, c, s.table.cores);
    if d: nat :| Idles(r, d, c) {
      assert IsIdle(s.table, d);
      assert idle.Some? && Roused(r, idle.value, c);
    }
  }

  lemma {:induction false} SignalledInv(s: State, i: nat, c: nat)
    requires Inv(s) && On(s, c) && i < |s.sems|
    ensures Inv(Signalled(s, i))
  {
    var sem := s.sems[i];
    if sem.waiting == [] {
      ShrunkInv(s, Signalled(s, i));
    } else {
      EnqueuedInv(s.(sems := s.sems[i := Handed(sem)]), sem.waiting[0], c);
    }
  }

  lemma {:induction false} BlockedInv(s: State, c: nat, i: nat)
    requires Inv(s) && Homes(s) && i < |s.sems| && c in s.table.active && c < s.table.cores
    ensures Inv(Blocked(s, c, i))
  {
    SwitchedInv(s.(sems := s.sems[i := Parked(s.sems[i], s.table.active[c])]), s.table, c);
  }

  lemma {:induction false} PressedInv(s: State, c: nat)
    requires Inv(s) && On(s, c) && KEYS < |s.sems|
    ensures Inv(Pressed(s))
  {
    if s.keys < KEY_SLOTS {
      var woken := if s.sems[KEYS].waiting == [] then {} else {s.sems[KEYS].waiting[0]};
      var r := s.(keys := s.keys + 1, holders := s.holders + woken);
      ShrunkInv(s, r);
      SignalledInv(r, KEYS, c);
    }
  }

  lemma {:induction false} KilledInv(s: State, t: Thread)
    requires Inv(s)
    ensures Inv(s.(table := Killed(s.table, t)))
  {
    ShrunkInv(s, s.(table := Killed(s.table, t)));
  }

  lemma {:induction false} YieldInv(s: State, c: nat)
    requires |s.phase| == s.table.cores && Homes(s) && c < s.table.cores
    ensures Inv(Switched(s, Queued(s.table, c), c))
  {
    QueuedHomes(s.table, c);
    SwitchedInv(s, Queued(s.table, c), c);
  }

  lemma {:induction false} StepInv(s: State, step: Step)
    requires Homes(s) && Inv(s) && Enabled(s, step)
    ensures Inv(Apply(s, step))
  {
    hide Inv, Places, Switched, Enqueued, Poked, Signalled, Blocked, Pressed, Killed, Queued;
    Sized(s);
    match step
    case Schedule(c) => SwitchedInv(s, s.table, c);
    case Create(c, t) => EnqueuedInv(s, t, c);
    case Poke(c) => PokedInv(s, c);
    case Yield(c) => YieldInv(s, c);
    case Look(c) => PhaseInv(s, Apply(s, step), c);
    case IdleResume(c) => YieldInv(AtPhase(s, c, Top), c);
    case Halt(c) => PhaseInv(s, Apply(s, step), c);
    case Interrupt(c) => PhaseInv(s, Apply(s, step), c);
    case TakeWakeup(c) => PhaseInv(s, Apply(s, step), c);
    case Exit(c) => SwitchedInv(s, s.table, c);
    case Kill(c, t) => KilledInv(s, t);
    case Acquire(c, i) =>
      if s.sems[i].counter > 0 {
        ShrunkInv(s, Taken(s, i));
      } else {
        BlockedInv(s, c, i);
      }
    case Release(c, i) => SignalledInv(s, i, c);
    case Sleep(c, k) =>
      SwitchedInv(s.(bells := s.bells[..k] + [s.table.active[c]] + s.bells[k..]), s.table, c);
    case Ring(c) => EnqueuedInv(s.(bells := s.bells[1..]), s.bells[0], c);
    case Press(c) => PressedInv(s, c);
    case GetKey(c) =>
      if s.sems[KEYS].counter > 0 {
        ShrunkInv(s, Apply(s, step));
      } else {
        BlockedInv(s, c, KEYS);
      }
    case Fetch(c) => ShrunkInv(s, Apply(s, step));
  }

  lemma {:induction false} Sized(s: State)
    requires Inv(s)
    ensures |s.phase| == s.table.cores
  {
  }

  lemma {:induction false} RunInv(s: State, steps: seq<Step>, r: State)
    requires Homes(s) && Inv(s) && Run(s, steps, r)
    ensures Homes(r) && Inv(r)
    decreases |steps|
  {
    hide Homes, Inv, Apply, Enabled;
    if steps != [] {
      Sized(s);
      StepHomes(s, steps[0]);
      StepInv(s, steps[0]);
      RunInv(Apply(s, steps[0]), steps[1..], r);
    }
  }

  lemma {:induction false} Reached(s: State, steps: seq<Step>, r: State)
    requires Initial(s) && Run(s, steps, r)
    ensures Homes(r) && Inv(r)
  {
    InitialPartition(s);
    RunInv(s, steps, r);
  }

  /** The core runs an ordinary thread. */
  predicate Works(s: State, core: nat) {
    core < s.table.cores && core in s.table.active && s.table.active[core].Task?
  }

  /** The core runs its idle thread, which is about to look at the queue or is being woken. */
  predicate Waking(s: State, core: nat) {
    core < s.table.cores && core < |s.phase| && IsIdle(s.table, core) && (Awake(s.phase[core]) || core in s.pending)
  }

  /**
   * No stranded work: once every core has been scheduled, a thread in the ready
   * queue means that some core runs an ordinary thread, or some idle core is
   * awake and about to look again, or a wake-up is on its way to a core.
   */
  lemma {:induction false} NoStrandedWork(s: State, steps: seq<Step>, r: State)
    requires Initial(s) && Run(s, steps, r)
    requires r.table.ready != [] && forall c: nat :: c < r.table.cores ==> c in r.table.active
    ensures exists c: nat :: Works(r, c) || Waking(r, c)
  {
    Reached(s, steps, r);
    var c: nat :| Attends(r, c);
    assert Works(r, c) || Waking(r, c);
  }

  /** The poke of the last core that made a thread ready reaches an idle core, if there is one. */
  lemma {:induction false} PokeIsHeard(s: State, steps: seq<Step>, r: State, idle: nat)
    requires Initial(s) && Run(s, steps, r)
    requires r.announced.Some? && r.table.ready != [] && Idles(r, idle, r.announced.value)
    ensures exists d: nat :: Roused(r, d, r.announced.value)
  {
    Reached(s, steps, r);
  }
}
