/**
 * Appending takes an item that has a link, or is last in line, for one that is queued already.
 * No run ever appends such a thread, so no append is refused.
 */
module Appends {
  import opened Options
  import opened Threads
  import opened Runs
  import opened ThreadPlaces

  /** The thread's link is set: it stands in the queue and is not the last. */
  ghost predicate Followed(queue: seq<Thread>, t: Thread) {
    exists i :: 0 <= i < |queue| - 1 && queue[i] == t
  }

  /** All queues use the one link of the thread. */
  ghost predicate HasLink(s: State, t: Thread) {
    Followed(s.table.ready, t) || exists i :: 0 <= i < |s.sems| && Followed(s.sems[i].waiting, t)
  }

  /** The test of Contains, on the queue a thread is to be appended to. */
  ghost predicate Refuses(s: State, queue: seq<Thread>, t: Thread) {
    queue != [] && (HasLink(s, t) || queue[|queue| - 1] == t)
  }

  /** An append: the state it happens in, the queue and the thread. */
  datatype Append = Append(state: State, queue: seq<Thread>, thread: Thread)

  function Dequeued(s: State, i: nat): (r: State)
    requires i < |s.sems| && s.sems[i].waiting != []
  {
    s.(sems := s.sems[i := s.sems[i].(waiting := s.sems[i].waiting[1..])])
  }

  function Requeues(s: State, core: nat): (a: Option<Append>) {
    if core in s.table.active && s.table.active[core] !in s.table.dying && s.table.active[core] != Idle(core)
    then Some(Append(s, s.table.ready, s.table.active[core])) else None
  }

  function Hands(s: State, i: nat): (a: Option<Append>)
    requires i < |s.sems|
  {
    if s.sems[i].waiting == [] then None else Some(Append(Dequeued(s, i), s.table.ready, s.sems[i].waiting[0]))
  }

  function Parks(s: State, core: nat, i: nat): (a: Option<Append>)
    requires i < |s.sems| && core in s.table.active
  {
    if s.sems[i].counter > 0 then None else Some(Append(s, s.sems[i].waiting, s.table.active[core]))
  }

  /** The append a step makes to the ready queue or to a semaphore's waiters. */
  ghost function Appending(s: State, step: Step): (a: Option<Append>)
    requires Enabled(s, step)
  {
    match step
    case Create(c, t) => Some(Append(s, s.table.ready, t))
    case Yield(c) => Requeues(s, c)
    case IdleResume(c) => Requeues(s, c)
    case Acquire(c, i) => Parks(s, c, i)
    case Release(c, i) => Hands(s, i)
    case Ring(c) => Some(Append(s.(bells := s.bells[1..]), s.table.ready, s.bells[0]))
    case Press(c) => if s.keys >= KEY_SLOTS then None else Hands(s, KEYS)
    case GetKey(c) => Parks(s, c, KEYS)
    case _ => None
  }

  /** The thread is in no queue. */
  ghost predicate Unqueued(s: State, t: Thread) {
    multiset(s.table.ready)[t] == 0 && Waits(s.sems, t) == 0
  }

  lemma {:induction false} UnqueuedHasNoLink(s: State, t: Thread)
    requires Unqueued(s, t)
    ensures !HasLink(s, t) && t !in s.table.ready && forall i :: 0 <= i < |s.sems| ==> t !in s.sems[i].waiting
  {
    forall i | 0 <= i < |s.sems|
      ensures t !in s.sems[i].waiting
    {
      WaitsAt(s.sems, i, t);
    }
  }

  lemma {:induction false} ActiveUnqueued(s: State, c: nat)
    requires Partition(s) && c in s.table.active && s.table.active[c].Task?
    ensures Unqueued(s, s.table.active[c])
  {
    var t := s.table.active[c];
    assert c < s.table.cores;
    RunningSome(s.table.active, s.table.cores, c);
    assert Places(s, t) <= 1;
  }

  lemma {:induction false} WaiterUnqueued(s: State, i: nat)
    requires Partition(s) && i < |s.sems| && s.sems[i].waiting != []
    ensures Unqueued(Dequeued(s, i), s.sems[i].waiting[0])
  {
    hide Places;
    var waiting := s.sems[i].waiting;
    var t := waiting[0];
    assert AllTasks(waiting) && t.Task?;
    assert Places(s, t) <= 1;
    SplitCount(waiting, 0, t);
    WaitsAt(s.sems, i, t);
    WaitsUpdate(s.sems, i, s.sems[i].(waiting := waiting[1..]), t);
    PlacesSplit(s, t);
  }

  lemma {:induction false} PlacesSplit(s: State, t: Thread)
    ensures Places(s, t) >= multiset(s.table.ready)[t] + Waits(s.sems, t)
  {
  }

  lemma {:induction false} SleeperUnqueued(s: State)
    requires Partition(s) && s.bells != []
    ensures Unqueued(s.(bells := s.bells[1..]), s.bells[0])
  {
    var t := s.bells[0];
    assert t.Task? && t in s.bells;
    assert Places(s, t) <= 1;
  }

  lemma {:induction false} AppendUnqueued(s: State, step: Step)
    requires Partition(s) && Enabled(s, step) && Appending(s, step).Some?
    ensures var a := Appending(s, step).value; Unqueued(a.state, a.thread)
  {
    hide Partition, Waits, Dequeued;
    match step
    case Create(c, t) => PlacesSplit(s, t);
    case Yield(c) =>
      HomesOf(s, c);
      ActiveUnqueued(s, c);
    case IdleResume(c) =>
      HomesOf(s, c);
      ActiveUnqueued(s, c);
    case Acquire(c, i) => ActiveUnqueued(s, c);
    case Release(c, i) => WaiterUnqueued(s, i);
    case Ring(c) => SleeperUnqueued(s);
    case Press(c) => WaiterUnqueued(s, KEYS);
    case GetKey(c) => ActiveUnqueued(s, c);
    case _ =>
  }

  lemma {:induction false} HomesOf(s: State, c: nat)
    requires Partition(s) && c in s.table.active && s.table.active[c] != Idle(c)
    ensures s.table.active[c].Task?
  {
  }

  /** In every run, every append finds its thread without a link and not in the queue. */
  lemma {:induction false} NeverRefused(s: State, steps: seq<Step>, r: State, step: Step)
    requires Initial(s) && Run(s, steps, r) && Enabled(r, step) && Appending(r, step).Some?
    ensures var a := Appending(r, step).value;
      !HasLink(a.state, a.thread) && !Refuses(a.state, a.queue, a.thread) && Appended(a.queue, a.thread) == a.queue + [a.thread]
  {
    hide Partition, Enabled, Run, Unqueued, HasLink, Initial;
    InitialPartition(s);
    RunPartition(s, steps, r);
    AppendUnqueued(r, step);
    var a := Appending(r, step).value;
    UnqueuedHasNoLink(a.state, a.thread);
    QueueOf(r, step);
  }

  /** The queue is one of those the thread is in none of. */
  lemma {:induction false} QueueOf(s: State, step: Step)
    requires Enabled(s, step) && Appending(s, step).Some?
    ensures var a := Appending(s, step).value;
      a.queue == a.state.table.ready || exists i :: 0 <= i < |a.state.sems| && a.queue == a.state.sems[i].waiting
  {
    hide Places;
  }

  // ---- steps and calls ----

  /** The semaphores other than one are as they were. */
  ghost predicate OtherGates(s: State, r: State, i: nat) {
    |r.sems| == |s.sems| && forall j :: 0 <= j < |s.sems| && j != i ==> r.sems[j] == s.sems[j]
  }

  /**
   * What the methods promise for the call a step stands for: the scheduler's data
   * and the semaphores after it. Steps of the idle loop and interrupts touch neither.
   */
  ghost predicate Called(s: State, step: Step, r: State) {
    match step
    case Schedule(c) => r.table == Dispatched(s.table, c) && r.sems == s.sems
    case Create(c, t) => r.table == Readied(s.table, t) && r.sems == s.sems
    case Yield(c) => r.table == Resumed(s.table, c, true) && r.sems == s.sems
    case IdleResume(c) => r.table == Resumed(s.table, c, true) && r.sems == s.sems
    case Exit(c) => r.table == Dispatched(s.table, c) && r.sems == s.sems
    case Kill(c, t) => r.table == Killed(s.table, t) && r.sems == s.sems
    case Acquire(c, i) => i < |s.sems| && OtherGates(s, r, i) && Acquires(s.sems[i], s.table, c, r.sems[i], r.table)
    case Release(c, i) => i < |s.sems| && OtherGates(s, r, i) && Releases(s.sems[i], s.table, r.sems[i], r.table)
    case Sleep(c, k) => r.table == Resumed(s.table, c, false) && r.sems == s.sems
    case Ring(c) => s.bells != [] && r.table == Readied(s.table, s.bells[0]) && r.sems == s.sems
    case Press(c) =>
      if s.keys >= KEY_SLOTS then r == s
      else KEYS < |s.sems| && OtherGates(s, r, KEYS) && Releases(s.sems[KEYS], s.table, r.sems[KEYS], r.table)
    case GetKey(c) => KEYS < |s.sems| && OtherGates(s, r, KEYS) && Acquires(s.sems[KEYS], s.table, c, r.sems[KEYS], r.table)
    case Poke(c) =>
      var idle := IdleOther(s.table, c, s.table.cores);
      r.table == s.table && r.sems == s.sems && r.pending == if idle.Some? then s.pending + {idle.value} else s.pending
    case _ => r.table == s.table && r.sems == s.sems
  }

  /** Every step of a run does to the scheduler and the semaphores what the methods promise. */
  lemma {:induction false} StepIsCall(s: State, step: Step)
    requires Enabled(s, step)
    ensures Called(s, step, Apply(s, step))
  {
    hide Places, Picked, Left, Drop, IdleOther, Appended;
  }
}
