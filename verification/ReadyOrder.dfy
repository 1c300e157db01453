/** The ready queue is served in order: nobody overtakes. */
module ReadyOrder {
  import opened Threads
  import opened Runs
  import opened ThreadPlaces

  /** The step takes at least one thread from the ready queue, if there is any. */
  ghost predicate Dequeues(s: State, step: Step) {
    step.Schedule? || step.Yield? || step.IdleResume? || step.Exit? || step.Sleep? ||
    (step.Acquire? && step.sem < |s.sems| && s.sems[step.sem].counter == 0) ||
    (step.GetKey? && KEYS < |s.sems| && s.sems[KEYS].counter == 0)
  }

  ghost function Dequeuings(s: State, steps: seq<Step>): (n: nat)
    decreases |steps|
  {
    if steps == [] || !Enabled(s, steps[0]) then 0
    else One(Dequeues(s, steps[0])) + Dequeuings(Apply(s, steps[0]), steps[1..])
  }

  /** The thread is in the ready queue in every state of the run. */
  ghost predicate StaysQueued(s: State, steps: seq<Step>, t: Thread)
    decreases |steps|
  {
    t in s.table.ready && (steps != [] && Enabled(s, steps[0]) ==> StaysQueued(Apply(s, steps[0]), steps[1..], t))
  }

  /** The thread is queued with at most k others in front. */
  ghost predicate Within(ready: seq<Thread>, t: Thread, k: int) {
    exists i :: 0 <= i < |ready| && i <= k && ready[i] == t
  }

  ghost predicate NoTwice(ts: seq<Thread>) {
    forall i, j :: 0 <= i < j < |ts| ==> ts[i] != ts[j]
  }

  lemma {:induction false} ReadyOnce(s: State)
    requires Partition(s)
    ensures NoTwice(s.table.ready)
  {
    var ready := s.table.ready;
    forall i, j | 0 <= i < j < |ready| ensures ready[i] != ready[j] {
      SplitCount(ready, i, ready[i]);
      assert Places(s, ready[i]) <= 1;
      assert multiset(ready[i + 1..])[ready[i]] == 0;
      assert ready[i + 1..][j - i - 1] == ready[j];
    }
  }

  /** A dispatch moves everybody it leaves forward by at least one. */
  lemma {:induction false} DispatchForward(table: Table, c: nat, t: Thread, k: nat)
    requires NoTwice(table.ready) && k < |table.ready| && table.ready[k] == t
    requires t in Dispatched(table, c).ready
    ensures k > 0 && Within(Dispatched(table, c).ready, t, k - 1)
  {
    var i := FirstLiving(table.ready, table.dying);
    var left := Left(table);
    var j :| 0 <= j < |left| && left[j] == t;
    assert left[j] == table.ready[i + 1 + j];
    assert i + 1 + j == k;
  }

  lemma {:induction false} QueuedSame(table: Table, c: nat, t: Thread, k: nat)
    requires NoTwice(table.ready) && k < |table.ready| && table.ready[k] == t
    requires c in table.active ==> table.active[c] !in table.ready
    ensures var q := Queued(table, c).ready; NoTwice(q) && k < |q| && q[k] == t
  {
  }

  lemma {:induction false} KilledForward(table: Table, x: Thread, t: Thread, k: nat)
    requires k < |table.ready| && table.ready[k] == t && x != t
    ensures Within(Killed(table, x).ready, t, k)
  {
    if x in table.ready {
      var i := DropAt(table.ready, x);
      var j := if k < i then k else k - 1;
      assert Drop(table.ready, x)[j] == t;
    } else {
      DropAbsent(table.ready, x);
      assert Drop(table.ready, x)[k] == t;
    }
  }

  /** A running thread is not queued. */
  lemma {:induction false} RunningNotQueued(s: State, c: nat)
    requires Partition(s) && c in s.table.active
    ensures s.table.active[c] !in s.table.ready
  {
    var t := s.table.active[c];
    assert c < s.table.cores;
    RunningSome(s.table.active, s.table.cores, c);
    assert t.Task? ==> Places(s, t) <= 1 && multiset(s.table.ready)[t] == 0;
  }

  /** What a step does to the ready queue. */
  lemma {:induction false} ReadyAfter(s: State, step: Step)
    requires Enabled(s, step)
    ensures var r := Apply(s, step).table.ready;
      if Dequeues(s, step) then r == Left(if step.Yield? || step.IdleResume? then Queued(s.table, step.core) else s.table)
      else if step.Kill? then r == Killed(s.table, step.thread).ready
      else s.table.ready <= r
  {
    hide Places, Left, Picked, Queued, Drop, IdleOther;
  }

  lemma {:induction false} StepForward(s: State, step: Step, t: Thread, k: nat)
    requires Partition(s) && Enabled(s, step) && k < |s.table.ready| && s.table.ready[k] == t
    requires t in Apply(s, step).table.ready
    ensures Within(Apply(s, step).table.ready, t, k - One(Dequeues(s, step)))
  {
    hide Partition, Enabled, Apply, Left, Picked, Drop, Dequeues, Within;
    ReadyOnce(s);
    ReadyAfter(s, step);
    if Dequeues(s, step) {
      StepCore(s, step);
      var c := step.core;
      if step.Yield? || step.IdleResume? {
        if c in s.table.active {
          RunningNotQueued(s, c);
        }
        QueuedSame(s.table, c, t, k);
        DispatchForward(Queued(s.table, c), c, t, k);
      } else {
        DispatchForward(s.table, c, t, k);
      }
    } else if step.Kill? {
      if step.thread == t {
        KilledAway(s.table, t);
      } else {
        KilledForward(s.table, step.thread, t, k);
      }
    } else {
      Same(Apply(s, step).table.ready, t, k);
    }
  }

  lemma {:induction false} StepCore(s: State, step: Step)
    requires Enabled(s, step) && Dequeues(s, step)
    ensures step.core < s.table.cores
  {
    hide Places;
  }

  lemma {:induction false} KilledAway(table: Table, t: Thread)
    requires NoTwice(table.ready)
    ensures t !in Killed(table, t).ready
  {
    if t in table.ready {
      var k := DropAt(table.ready, t);
    } else {
      DropAbsent(table.ready, t);
    }
  }

  lemma {:induction false} Same(ready: seq<Thread>, t: Thread, k: nat)
    requires k < |ready| && ready[k] == t
    ensures Within(ready, t, k)
  {
  }

  /**
   * First come, first served: a thread at position k that stays queued has moved
   * forward at least once for every dispatch in the system, so the (k+1)-th
   * dispatch, by whichever core, takes it out of the queue.
   */
  lemma {:induction false} BoundedWait(s: State, steps: seq<Step>, r: State, t: Thread, k: nat)
    requires Partition(s) && Run(s, steps, r) && StaysQueued(s, steps, t)
    requires k < |s.table.ready| && s.table.ready[k] == t
    ensures Within(r.table.ready, t, k - Dequeuings(s, steps)) && Dequeuings(s, steps) <= k
    decreases |steps|
  {
    hide Partition, Enabled, Apply, Dequeues;
    if steps == [] {
      Same(r.table.ready, t, k);
    } else {
      var n := Apply(s, steps[0]);
      StepPartition(s, steps[0]);
      assert StaysQueued(n, steps[1..], t);
      StepForward(s, steps[0], t, k);
      var i :| 0 <= i < |n.table.ready| && i <= k - One(Dequeues(s, steps[0])) && n.table.ready[i] == t;
      BoundedWait(n, steps[1..], r, t, i);
    }
  }
}
