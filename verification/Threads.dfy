/**
 * The scheduler's own data: one ready queue for all cores, the thread every
 * core runs, and the threads marked as dying. The class below is the code;
 * the functions on `Table` say what each of its methods makes of that data.
 */
module Threads {
  import opened Options

  datatype Thread = Idle(core: nat) | Task(id: nat)

  datatype Table = Table(cores: nat, active: map<nat, Thread>, ready: seq<Thread>, dying: set<Thread>)

  /** A semaphore: tokens nobody waits for, and threads no token was left for. */
  datatype Gate = Gate(counter: nat, waiting: seq<Thread>)

  /** Appending to a queue that refuses what it already holds. */
  function Appended(queue: seq<Thread>, t: Thread): (r: seq<Thread>) {
    if t in queue then queue else queue + [t]
  }

  function Readied(s: Table, t: Thread): (r: Table) {
    s.(ready := Appended(s.ready, t))
  }

  /** The gate with one more waiter, and with one more token or one waiter less. */
  function Parked(g: Gate, t: Thread): (r: Gate) {
    g.(waiting := Appended(g.waiting, t))
  }

  function Handed(g: Gate): (r: Gate) {
    if g.waiting == [] then g.(counter := g.counter + 1) else g.(waiting := g.waiting[1..])
  }

  /** Position of the first thread that may still run. */
  function FirstLiving(ready: seq<Thread>, dying: set<Thread>): (i: nat)
    ensures i <= |ready| && (i < |ready| ==> ready[i] !in dying)
    ensures forall j :: 0 <= j < i ==> ready[j] in dying
  {
    if ready == [] || ready[0] !in dying then 0 else 1 + FirstLiving(ready[1..], dying)
  }

  /** The thread the core runs next: the first living one, or its own idle thread. */
  function Picked(s: Table, core: nat): (t: Thread) {
    var i := FirstLiving(s.ready, s.dying);
    if i < |s.ready| then s.ready[i] else Idle(core)
  }

  /** What stays queued: everything behind the thread picked. */
  function Left(s: Table): (ready: seq<Thread>) {
    var i := FirstLiving(s.ready, s.dying);
    if i < |s.ready| then s.ready[i + 1..] else []
  }

  function Dispatched(s: Table, core: nat): (r: Table) {
    s.(active := s.active[core := Picked(s, core)], ready := Left(s))
  }

  /** The running thread goes to the back of the queue unless it is dying or idle. */
  function Queued(s: Table, core: nat): (r: Table) {
    if core in s.active && s.active[core] !in s.dying && s.active[core] != Idle(core)
    then Readied(s, s.active[core])
    else s
  }

  function Resumed(s: Table, core: nat, requeue: bool): (r: Table) {
    Dispatched(if requeue then Queued(s, core) else s, core)
  }

  /** What P does to the gate and the scheduler's data. */
  ghost predicate Acquires(g: Gate, s: Table, core: nat, h: Gate, r: Table) {
    core in s.active &&
    if g.counter > 0 then h == Gate(g.counter - 1, g.waiting) && r == s
    else h == Parked(g, s.active[core]) && r == Resumed(s, core, false)
  }

  /** What V does to them. */
  ghost predicate Releases(g: Gate, s: Table, h: Gate, r: Table) {
    h == Handed(g) && r == if g.waiting == [] then s else Readied(s, g.waiting[0])
  }

  predicate IsActive(s: Table, t: Thread, core: nat) {
    core in s.active && s.active[core] == t
  }

  predicate IsIdle(s: Table, core: nat) {
    IsActive(s, Idle(core), core)
  }

  /** The lowest core below `n`, other than `self`, that runs its idle thread. */
  function IdleOther(s: Table, self: nat, n: nat): (r: Option<nat>)
    ensures r.Some? ==> r.value < n && r.value != self && IsIdle(s, r.value)
    ensures forall d :: 0 <= d < (if r.Some? then r.value else n) && d != self ==> !IsIdle(s, d)
  {
    if n == 0 then None else
      var r := IdleOther(s, self, n - 1);
      if r.Some? then r else if n - 1 != self && IsIdle(s, n - 1) then Some(n - 1) else None
  }

  /** The queue without a thread, the rest in order. */
  function Drop(ready: seq<Thread>, t: Thread): (r: seq<Thread>) {
    if ready == [] then [] else if ready[0] == t then ready[1..] else [ready[0]] + Drop(ready[1..], t)
  }

  function Killed(s: Table, t: Thread): (r: Table) {
    s.(dying := s.dying + {t}, ready := Drop(s.ready, t))
  }

  /** Appending one after the other. */
  function AppendedAll(queue: seq<Thread>, ts: seq<Thread>): (r: seq<Thread>) {
    if ts == [] then queue else Appended(AppendedAll(queue, ts[..|ts| - 1]), ts[|ts| - 1])
  }

  class Scheduler {
    const cores: nat
    var active: map<nat, Thread>
    var ready: seq<Thread>
    var dying: set<Thread>

    constructor (cores: nat)
      ensures Value() == Table(cores, map[], [], {})
    {
      this.cores := cores;
      active, ready, dying := map[], [], {};
    }

    function Value(): (s: Table)
      reads this
    {
      Table(cores, active, ready, dying)
    }

    /** Dequeues until a thread turns up that is not dying. */
    method GetNext(self: nat) returns (next: Thread)
      modifies this`ready
      ensures next == Picked(old(Value()), self) && ready == Left(old(Value()))
    {
      ghost var i := 0;
      while ready != []
        invariant 0 <= i <= |old(ready)| && ready == old(ready)[i..]
        invariant forall j :: 0 <= j < i ==> old(ready)[j] in dying
        decreases |ready|
      {
        next := ready[0];
        ready := ready[1..];
        if next !in dying {
          LivingAt(old(ready), dying, i);
          return;
        }
        i := i + 1;
      }
      LivingAt(old(ready), dying, i);
      next := Idle(self);
    }

    /** A core's first dispatch. */
    method Schedule(self: nat)
      requires self < cores && self !in active
      modifies this`active, this`ready
      ensures Value() == Dispatched(old(Value()), self)
    {
      var first := GetNext(self);
      active := active[self := first];
    }

    /** Queues a thread and names the core to poke: the lowest idle one that is not this core. */
    method Ready(self: nat, t: Thread) returns (poke: Option<nat>)
      modifies this`ready
      ensures Value() == Readied(old(Value()), t)
      ensures poke == IdleOther(Value(), self, cores)
    {
      if t !in ready {
        ready := ready + [t];
      }
      var core := 0;
      while core < cores
        invariant core <= cores && IdleOther(Value(), self, core) == None
      {
        if core != self && core in active && active[core] == Idle(core) {
          LowestStays(Value(), self, core + 1, cores);
          return Some(core);
        }
        core := core + 1;
      }
      return None;
    }

    /** Switches to the next thread; with requeue the running one stays runnable. */
    method Resume(self: nat, requeue: bool)
      requires self in active
      modifies this`active, this`ready
      ensures Value() == Resumed(old(Value()), self, requeue)
    {
      var current := active[self];
      if requeue && current !in dying && current != Idle(self) && current !in ready {
        ready := ready + [current];
      }
      var next := GetNext(self);
      if current != next {
        active := active[self := next];
      }
      assert active == old(active)[self := next];
    }

    method Exit(self: nat)
      requires self in active
      modifies this`active, this`ready
      ensures Value() == Dispatched(old(Value()), self)
    {
      var next := GetNext(self);
      if active[self] != next {
        active := active[self := next];
      }
      assert active == old(active)[self := next];
    }

    /**
     * Marks a thread as dying and drops it from the queue. If it was not queued,
     * the first core that runs it is the one to interrupt.
     */
    method Kill(t: Thread) returns (interrupt: Option<nat>)
      modifies this`ready, this`dying
      ensures Value() == Killed(old(Value()), t)
      ensures interrupt.Some? <==> t !in old(ready) && exists core :: 0 <= core < cores && IsActive(Value(), t, core)
      ensures interrupt.Some? ==> interrupt.value < cores && IsActive(Value(), t, interrupt.value)
    {
      dying := dying + {t};
      if t in ready {
        ready := Drop(ready, t);
        return None;
      }
      DropAbsent(ready, t);
      interrupt := FindActive(t);
    }

    /** The first core that runs the thread. */
    method FindActive(t: Thread) returns (found: Option<nat>)
      ensures found.Some? ==> found.value < cores && IsActive(Value(), t, found.value)
      ensures forall d :: 0 <= d < (if found.Some? then found.value else cores) ==> !IsActive(Value(), t, d)
    {
      var core := 0;
      while core < cores
        invariant core <= cores
        invariant forall d :: 0 <= d < core ==> !IsActive(Value(), t, d)
      {
        if core in active && active[core] == t {
          return Some(core);
        }
        core := core + 1;
      }
      return None;
    }
  }

  class Semaphore {
    var counter: nat
    var waiting: seq<Thread>

    constructor (initial: nat)
      ensures counter == initial && waiting == []
    {
      counter, waiting := initial, [];
    }

    function Value(): (g: Gate)
      reads this
    {
      Gate(counter, waiting)
    }

    /** Takes a token, or parks the running thread behind the other waiters. */
    method P(scheduler: Scheduler, self: nat)
      requires self in scheduler.active
      modifies this, scheduler`active, scheduler`ready
      ensures Acquires(old(Value()), old(scheduler.Value()), self, Value(), scheduler.Value())
    {
      if counter > 0 {
        counter := counter - 1;
        return;
      }
      var current := scheduler.active[self];
      if current !in waiting {
        waiting := waiting + [current];
      }
      scheduler.Resume(self, false);
    }

    /** Hands the token to the first waiter, or keeps it when there is none. */
    method V(scheduler: Scheduler, self: nat) returns (poke: Option<nat>)
      modifies this, scheduler`ready
      ensures Releases(old(Value()), old(scheduler.Value()), Value(), scheduler.Value())
      ensures poke == if old(waiting) == [] then None else IdleOther(scheduler.Value(), self, scheduler.cores)
    {
      if waiting != [] {
        var waiter := waiting[0];
        waiting := waiting[1..];
        poke := scheduler.Ready(self, waiter);
      } else {
        counter := counter + 1;
        poke := None;
      }
    }
  }

  lemma {:induction false} LivingAt(ready: seq<Thread>, dying: set<Thread>, i: nat)
    requires i <= |ready| && (i < |ready| ==> ready[i] !in dying)
    requires forall j :: 0 <= j < i ==> ready[j] in dying
    ensures FirstLiving(ready, dying) == i
  {
  }

  lemma {:induction false} LowestStays(s: Table, self: nat, n: nat, m: nat)
    requires n <= m && IdleOther(s, self, n).Some?
    ensures IdleOther(s, self, m) == IdleOther(s, self, n)
  {
    if n < m {
      LowestStays(s, self, n, m - 1);
    }
  }

  /** Which core is idle does not depend on the queue. */
  lemma {:induction false} SameIdle(s: Table, r: Table, self: nat, n: nat)
    requires r.active == s.active
    ensures IdleOther(r, self, n) == IdleOther(s, self, n)
  {
    if n > 0 {
      SameIdle(s, r, self, n - 1);
    }
  }

  lemma {:induction false} DropAbsent(ready: seq<Thread>, t: Thread)
    requires t !in ready
    ensures Drop(ready, t) == ready
  {
    if ready != [] {
      DropAbsent(ready[1..], t);
    }
  }

  /** Drop takes out one occurrence and leaves both sides of it as they were. */
  lemma {:induction false} DropAt(ready: seq<Thread>, t: Thread) returns (k: nat)
    requires t in ready
    ensures k < |ready| && ready[k] == t && t !in ready[..k] && Drop(ready, t) == ready[..k] + ready[k + 1..]
  {
    if ready[0] == t {
      k := 0;
    } else {
      k := DropAt(ready[1..], t);
      k := k + 1;
      assert ready[..k] == [ready[0]] + ready[1..][..k - 1];
      assert ready[k + 1..] == ready[1..][k..];
    }
  }

  lemma {:induction false} DropCount(ready: seq<Thread>, t: Thread)
    ensures multiset(Drop(ready, t)) == multiset(ready) - multiset{t}
  {
    if t in ready {
      var k := DropAt(ready, t);
      assert ready == ready[..k] + [t] + ready[k + 1..];
    } else {
      DropAbsent(ready, t);
    }
  }
}
