/** Waiters of a semaphore are served in the order they came. */
module GateOrder {
  import opened Threads
  import opened Runs
  import opened ThreadPlaces

  /** The step releases the semaphore; a key that finds room in the buffer releases the key semaphore. */
  ghost predicate Signals(s: State, step: Step, i: nat) {
    (step.Release? && step.sem == i) || (step.Press? && i == KEYS && s.keys < KEY_SLOTS)
  }

  ghost function Signalings(s: State, steps: seq<Step>, i: nat): (n: nat)
    decreases |steps|
  {
    if steps == [] || !Enabled(s, steps[0]) then 0
    else One(Signals(s, steps[0], i)) + Signalings(Apply(s, steps[0]), steps[1..], i)
  }

  /** A release takes the first waiter, and every other step leaves all of them where they are. */
  lemma {:induction false} WaitersAfter(s: State, step: Step, i: nat)
    requires Enabled(s, step) && i < |s.sems|
    ensures |Apply(s, step).sems| == |s.sems|
    ensures var w, v := s.sems[i].waiting, Apply(s, step).sems[i].waiting;
      if Signals(s, step, i) then v == if w == [] then [] else w[1..]
      else w <= v && |v| <= |w| + 1
  {
    hide Places, Picked, Left, Queued, Drop, IdleOther;
  }

  /** No step moves a waiter back, and a release moves every waiter forward by exactly one. */
  lemma {:induction false} WaiterForward(s: State, step: Step, i: nat, t: Thread, k: nat)
    requires Enabled(s, step) && i < |s.sems| && k < |s.sems[i].waiting| && s.sems[i].waiting[k] == t
    requires Signals(s, step, i) ==> k > 0
    ensures var j := k - One(Signals(s, step, i)); var r := Apply(s, step);
      i < |r.sems| && j < |r.sems[i].waiting| && r.sems[i].waiting[j] == t
  {
    hide Apply, Enabled, Signals;
    WaitersAfter(s, step, i);
  }

  /**
   * A waiter at position k is at position k - n after n releases, whatever else
   * happens, as long as n is at most k.
   */
  lemma {:induction false} WaitsInTurn(s: State, steps: seq<Step>, r: State, i: nat, t: Thread, k: nat)
    requires Run(s, steps, r) && i < |s.sems| && k < |s.sems[i].waiting| && s.sems[i].waiting[k] == t
    requires Signalings(s, steps, i) <= k
    ensures var j := k - Signalings(s, steps, i);
      i < |r.sems| && j < |r.sems[i].waiting| && r.sems[i].waiting[j] == t
    decreases |steps|
  {
    hide Apply, Enabled, Signals;
    if steps != [] {
      WaiterForward(s, steps[0], i, t, k);
      WaitsInTurn(Apply(s, steps[0]), steps[1..], r, i, t, k - One(Signals(s, steps[0], i)));
    }
  }

  /** The first waiter of a released semaphore goes to the back of the ready queue. */
  lemma {:induction false} FirstIsReadied(s: State, step: Step, i: nat)
    requires Partition(s) && Enabled(s, step) && Signals(s, step, i) && i < |s.sems| && s.sems[i].waiting != []
    ensures Apply(s, step).table.ready == s.table.ready + [s.sems[i].waiting[0]]
  {
    hide Places, Picked, Left, Queued, Drop, IdleOther;
    var t := s.sems[i].waiting[0];
    assert AllTasks(s.sems[i].waiting);
    assert Places(s, t) <= 1;
    WaitsAt(s.sems, i, t);
    WaitingNotReady(s, i, t);
  }

  lemma {:induction false} WaitingNotReady(s: State, i: nat, t: Thread)
    requires Places(s, t) <= 1 && i < |s.sems| && t in s.sems[i].waiting
    ensures t !in s.table.ready
  {
    WaitsAt(s.sems, i, t);
  }

  /** In every run: the (k+1)-th release readies the waiter that stood at position k. */
  lemma {:induction false} ReadiedInTurn(init: State, before: seq<Step>, s: State, steps: seq<Step>, r: State, step: Step, i: nat, t: Thread, k: nat)
    requires Initial(init) && Run(init, before, s) && Run(s, steps, r)
    requires i < |s.sems| && k < |s.sems[i].waiting| && s.sems[i].waiting[k] == t && Signalings(s, steps, i) == k
    requires Enabled(r, step) && Signals(r, step, i)
    ensures Apply(r, step).table.ready == r.table.ready + [t]
  {
    hide Apply, Enabled, Signals, Partition, Initial;
    InitialPartition(init);
    RunPartition(init, before, s);
    RunPartition(s, steps, r);
    WaitsInTurn(s, steps, r, i, t, k);
    FirstIsReadied(r, step, i);
  }

  // ---- tokens ----

  /** The step is a P on the semaphore by the thread that runs on its core. */
  ghost predicate Asks(step: Step, i: nat) {
    (step.Acquire? && step.sem == i) || (step.GetKey? && i == KEYS)
  }

  /** The step lets a thread through: a P that does not leave its caller waiting, or a
      release that finds a waiter. */
  ghost predicate Passes(s: State, step: Step, i: nat)
    requires Enabled(s, step) && i < |s.sems|
  {
    if Asks(step, i) then
      step.core in s.table.active && i < |Apply(s, step).sems| && s.table.active[step.core] !in Apply(s, step).sems[i].waiting
    else Signals(s, step, i) && s.sems[i].waiting != []
  }

  ghost function Passings(s: State, steps: seq<Step>, i: nat): (n: nat)
    decreases |steps|
  {
    if steps == [] || !Enabled(s, steps[0]) || i >= |s.sems| then 0
    else One(Passes(s, steps[0], i)) + Passings(Apply(s, steps[0]), steps[1..], i)
  }

  lemma {:induction false} TokenStep(s: State, step: Step, i: nat)
    requires Partition(s) && Enabled(s, step) && i < |s.sems|
    ensures |Apply(s, step).sems| == |s.sems|
    ensures Apply(s, step).sems[i].counter + One(Passes(s, step, i)) == s.sems[i].counter + One(Signals(s, step, i))
  {
    hide Places, Picked, Left, Queued, Drop, IdleOther;
    if Asks(step, i) {
      RunningNotWaiting(s, step.core, i);
    }
  }

  lemma {:induction false} RunsSomewhere(active: map<nat, Thread>, n: nat, c: nat)
    requires c < n && c in active
    ensures Running(active, n, active[c]) >= 1
  {
    if c < n - 1 {
      RunsSomewhere(active, n - 1, c);
    }
  }

  lemma {:induction false} RunningNotWaiting(s: State, c: nat, i: nat)
    requires Partition(s) && Runs.Runs(s, c) && i < |s.sems|
    ensures s.table.active[c] !in s.sems[i].waiting
  {
    var t := s.table.active[c];
    assert Places(s, t) <= 1;
    RunsSomewhere(s.table.active, s.table.cores, c);
    if t in s.sems[i].waiting {
      WaitsAt(s.sems, i, t);
    }
  }

  /**
   * In every run: tokens left and threads let through add up to the tokens there were at
   * first and those released since, so no more threads pass than there were tokens.
   */
  lemma {:induction false} TokensConserved(s: State, steps: seq<Step>, r: State, i: nat)
    requires Partition(s) && Run(s, steps, r) && i < |s.sems|
    ensures i < |r.sems| && r.sems[i].counter + Passings(s, steps, i) == s.sems[i].counter + Signalings(s, steps, i)
    decreases |steps|
  {
    hide Apply, Enabled, Signals, Passes, Partition;
    if steps != [] {
      TokenStep(s, steps[0], i);
      StepPartition(s, steps[0]);
      TokensConserved(Apply(s, steps[0]), steps[1..], r, i);
    }
  }

  /** Nobody waits at a semaphore that has a token left. */
  ghost predicate NoneInVain(s: State) {
    forall i {:trigger s.sems[i]} :: 0 <= i < |s.sems| ==> s.sems[i].counter == 0 || s.sems[i].waiting == []
  }

  lemma {:induction false} StepInVain(s: State, step: Step)
    requires NoneInVain(s) && Enabled(s, step)
    ensures NoneInVain(Apply(s, step))
  {
    hide Places, Picked, Left, Queued, Drop, IdleOther;
  }

  lemma {:induction false} NoneWaitsInVain(s: State, steps: seq<Step>, r: State)
    requires (Initial(s) || NoneInVain(s)) && Run(s, steps, r)
    ensures NoneInVain(r)
    decreases |steps|
  {
    hide Apply, Enabled;
    if steps != [] {
      StepInVain(s, steps[0]);
      NoneWaitsInVain(Apply(s, steps[0]), steps[1..], r);
    }
  }
}
