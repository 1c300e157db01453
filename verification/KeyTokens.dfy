/** Every buffered key is a token somebody can still take or has been given, over every run. */
module KeyTokens {
  import opened Options
  import opened Threads
  import opened Runs
  import opened ThreadPlaces

  /** Keys in the buffer are the free tokens and those handed out but not turned in. */
  ghost predicate Balanced(s: State) {
    |s.sems| > KEYS && s.keys == s.sems[KEYS].counter + |s.holders| && s.keys <= KEY_SLOTS &&
    (s.sems[KEYS].counter > 0 ==> s.sems[KEYS].waiting == []) &&
    forall t :: t in s.sems[KEYS].waiting ==> t !in s.holders
  }

  /** Nothing the key path uses has changed. */
  ghost predicate SameKeys(s: State, r: State) {
    r.keys == s.keys && r.holders == s.holders && |r.sems| == |s.sems| && (|s.sems| > KEYS ==> r.sems[KEYS] == s.sems[KEYS])
  }

  lemma {:induction false} SameBalanced(s: State, r: State)
    requires Balanced(s) && SameKeys(s, r)
    ensures Balanced(r)
  {
  }

  /** A waiter stands in line once. */
  lemma {:induction false} HeadOnce(s: State)
    requires Partition(s) && |s.sems| > KEYS && s.sems[KEYS].waiting != []
    ensures s.sems[KEYS].waiting[0] !in s.sems[KEYS].waiting[1..]
  {
    var waiting := s.sems[KEYS].waiting;
    var t := waiting[0];
    assert AllTasks(waiting);
    assert Places(s, t) <= 1;
    WaitsAt(s.sems, KEYS, t);
    SplitCount(waiting, 0, t);
    assert multiset(waiting[1..])[t] == 0;
  }

  lemma {:induction false} PressedBalanced(s: State)
    requires Partition(s) && Balanced(s)
    ensures Balanced(Pressed(s))
  {
    hide Partition;
    var waiting := s.sems[KEYS].waiting;
    if s.keys < KEY_SLOTS && waiting != [] {
      HeadOnce(s);
      assert waiting[0] in waiting;
    }
  }

  lemma {:induction false} GetKeyBalanced(s: State, c: nat)
    requires Balanced(s) && Enabled(s, GetKey(c))
    ensures Balanced(Apply(s, GetKey(c)))
  {
    hide Places, Dispatched, Picked;
  }

  lemma {:induction false} FetchBalanced(s: State, c: nat)
    requires Balanced(s) && Enabled(s, Fetch(c))
    ensures Balanced(Apply(s, Fetch(c)))
  {
    var t := s.table.active[c];
    assert |s.holders - {t}| == |s.holders| - 1;
  }

  lemma {:induction false} OtherKeys(s: State, step: Step)
    requires Enabled(s, step) && !step.Press? && !step.GetKey? && !step.Fetch?
    ensures SameKeys(s, Apply(s, step))
  {
    hide Places, Dispatched, Picked, Queued, Killed, IdleOther;
  }

  lemma {:induction false} StepBalanced(s: State, step: Step)
    requires Partition(s) && Balanced(s) && Enabled(s, step)
    ensures Balanced(Apply(s, step))
  {
    hide Partition, Balanced, Enabled, SameKeys;
    if step.Press? {
      Unfold(s, step);
      PressedBalanced(s);
    } else if step.GetKey? {
      GetKeyBalanced(s, step.core);
    } else if step.Fetch? {
      FetchBalanced(s, step.core);
    } else {
      OtherKeys(s, step);
      SameBalanced(s, Apply(s, step));
    }
  }

  lemma {:induction false} Unfold(s: State, step: Step)
    requires Enabled(s, step) && step.Press?
    ensures |s.sems| > KEYS && Apply(s, step) == Pressed(s)
  {
  }

  lemma {:induction false} RunBalanced(s: State, steps: seq<Step>, r: State)
    requires Partition(s) && Balanced(s) && Run(s, steps, r)
    ensures Balanced(r)
    decreases |steps|
  {
    hide Partition, Balanced, Apply, Enabled;
    if steps != [] {
      StepPartition(s, steps[0]);
      StepBalanced(s, steps[0]);
      RunBalanced(Apply(s, steps[0]), steps[1..], r);
    }
  }

  /** In every state of every run keys and tokens balance, and nobody waits beside a free token. */
  lemma {:induction false} KeysAreTokens(s: State, steps: seq<Step>, r: State)
    requires Initial(s) && Run(s, steps, r)
    ensures |r.sems| > KEYS && r.keys == r.sems[KEYS].counter + |r.holders| && r.keys <= KEY_SLOTS
    ensures r.sems[KEYS].counter > 0 ==> r.sems[KEYS].waiting == []
  {
    InitialPartition(s);
    RunBalanced(s, steps, r);
  }

  /** Getting past the semaphore always finds a key, so the retry in the read call is never taken. */
  lemma {:induction false} OnePass(s: State, steps: seq<Step>, r: State, c: nat)
    requires Initial(s) && Run(s, steps, r)
    requires Enabled(r, Fetch(c)) || (Enabled(r, GetKey(c)) && r.sems[KEYS].counter > 0)
    ensures r.keys > 0
  {
    InitialPartition(s);
    RunBalanced(s, steps, r);
    if r.sems[KEYS].counter == 0 {
      assert |r.holders - {r.table.active[c]}| == |r.holders| - 1;
    }
  }

  /** Every buffered key is a free token or on its way to a thread that can still come and fetch it. */
  ghost predicate ServesLiving(s: State) {
    |s.sems| > KEYS && s.keys == s.sems[KEYS].counter + |s.holders - s.table.dying|
  }

  /**
   * What to test before a step: it does not kill a thread that has a key coming,
   * and it does not hand a key to a waiter that is dying.
   */
  ghost predicate Safe(s: State, step: Step) {
    (step.Kill? ==> step.thread !in s.holders) &&
    (step.Press? && KEYS < |s.sems| && s.keys < KEY_SLOTS && s.sems[KEYS].waiting != [] ==>
       s.sems[KEYS].waiting[0] !in s.table.dying)
  }

  ghost predicate SafeRun(s: State, steps: seq<Step>)
    decreases |steps|
  {
    steps != [] && Enabled(s, steps[0]) ==> Safe(s, steps[0]) && SafeRun(Apply(s, steps[0]), steps[1..])
  }

  ghost predicate ServesThroughout(s: State, steps: seq<Step>)
    decreases |steps|
  {
    ServesLiving(s) && (steps != [] && Enabled(s, steps[0]) ==> ServesThroughout(Apply(s, steps[0]), steps[1..]))
  }

  lemma {:induction false} ServesMeans(s: State)
    requires Balanced(s)
    ensures ServesLiving(s) <==> s.holders !! s.table.dying
  {
    var living, dead := s.holders - s.table.dying, s.holders * s.table.dying;
    assert s.holders == living + dead && living !! dead;
    assert |s.holders| == |living| + |dead|;
    assert dead == {} <==> s.holders !! s.table.dying;
  }

  lemma {:induction false} SameDying(s: State, step: Step)
    requires Enabled(s, step)
    ensures Apply(s, step).table.dying == if step.Kill? then s.table.dying + {step.thread} else s.table.dying
  {
    hide Places, Picked, Left, Drop, IdleOther;
  }

  lemma {:induction false} HoldersAfter(s: State, step: Step)
    requires Enabled(s, step)
    ensures var woken := step.Press? && s.keys < KEY_SLOTS && s.sems[KEYS].waiting != [];
      Apply(s, step).holders == if woken then s.holders + {s.sems[KEYS].waiting[0]}
        else if step.Fetch? then s.holders - {s.table.active[step.core]} else s.holders
  {
    hide Places, Dispatched, Picked, Queued, Killed, IdleOther;
    if !step.Press? && !step.GetKey? && !step.Fetch? {
      OtherKeys(s, step);
    }
  }

  /** One step from a state in which all keys serve the living: they still do exactly when it is safe. */
  lemma {:induction false} StepSafe(s: State, step: Step)
    requires Enabled(s, step) && s.holders !! s.table.dying
    ensures Apply(s, step).holders !! Apply(s, step).table.dying <==> Safe(s, step)
  {
    hide Apply, Places;
    SameDying(s, step);
    HoldersAfter(s, step);
    var r := Apply(s, step);
    if step.Kill? {
      assert step.thread in r.table.dying;
    } else if step.Press? && s.keys < KEY_SLOTS && s.sems[KEYS].waiting != [] {
      assert s.sems[KEYS].waiting[0] in r.holders;
    }
  }

  lemma {:induction false} ServesExactly(s: State, steps: seq<Step>, r: State)
    requires Partition(s) && Balanced(s) && ServesLiving(s) && Run(s, steps, r)
    ensures ServesThroughout(s, steps) <==> SafeRun(s, steps)
    decreases |steps|
  {
    hide Partition, Balanced, ServesLiving, Safe, Apply, Enabled;
    if steps != [] {
      var n := Apply(s, steps[0]);
      StepPartition(s, steps[0]);
      StepBalanced(s, steps[0]);
      ServesMeans(s);
      ServesMeans(n);
      StepSafe(s, steps[0]);
      if Safe(s, steps[0]) {
        ServesExactly(n, steps[1..], r);
      } else {
        NotThroughout(n, steps[1..]);
      }
    }
  }

  lemma {:induction false} NotThroughout(s: State, steps: seq<Step>)
    requires !ServesLiving(s)
    ensures !ServesThroughout(s, steps)
  {
  }

  /**
   * All along a run every key is free or on its way to a living thread, if and
   * only if no step kills a thread with a key coming or hands one to a dying waiter.
   */
  lemma {:induction false} KeysServeLiving(s: State, steps: seq<Step>, r: State)
    requires Initial(s) && Run(s, steps, r)
    ensures ServesThroughout(s, steps) <==> SafeRun(s, steps)
  {
    InitialPartition(s);
    assert s.holders - s.table.dying == {};
    ServesExactly(s, steps, r);
  }

  function Machine(active: map<nat, Thread>, ready: seq<Thread>, dying: set<Thread>, waiting: seq<Thread>,
                   keys: nat, holders: set<Thread>): (s: State)
  {
    State(Table(1, active, ready, dying), [Gate(0, waiting)], [], [Top], {}, None, keys, holders)
  }

  /**
   * One core, three threads: the first waits for a key, the second kills it, a
   * key arrives and its token goes to the dead thread. The key stays in the
   * buffer and the third thread blocks beside it.
   */
  lemma {:induction false} DeadWaiterTakesTheKey() returns (s: State, steps: seq<Step>, r: State)
    ensures Initial(s) && Run(s, steps, r)
    ensures r.keys == 1 && |r.sems| == 1 && r.sems[KEYS] == Gate(0, [Task(2)]) && r.holders == {Task(0)} && Gone(r.table, Task(0))
    ensures !ServesLiving(r)
  {
    hide Enabled, Apply, Initial, Gone, ServesLiving;
    s := Machine(map[], [], {}, [], 0, {});
    r := Machine(map[0 := Idle(0)], [], {Task(0)}, [Task(2)], 1, {Task(0)});
    Endpoints(s, r);
    var s1 := Machine(map[], [] + [Task(0)], {}, [], 0, {});
    var s2 := Machine(map[], [] + [Task(0)] + [Task(1)], {}, [], 0, {});
    var s3 := Machine(map[], [] + [Task(0)] + [Task(1)] + [Task(2)], {}, [], 0, {});
    assert [] + [Task(0)] + [Task(1)] + [Task(2)] == [Task(0), Task(1), Task(2)];
    var s4 := Machine(map[0 := Task(0)], [Task(1), Task(2)], {}, [], 0, {});
    var s5 := Machine(map[0 := Task(1)], [Task(2)], {}, [Task(0)], 0, {});
    var s6 := Machine(map[0 := Task(1)], [Task(2)], {Task(0)}, [Task(0)], 0, {});
    var s7 := Machine(map[0 := Task(1)], [Task(2), Task(0)], {Task(0)}, [], 1, {Task(0)});
    var s8 := Machine(map[0 := Task(2)], [Task(0)], {Task(0)}, [], 1, {Task(0)});
    Born([], Task(0));
    Born([] + [Task(0)], Task(1));
    Born([] + [Task(0)] + [Task(1)], Task(2));
    FirstWaits();
    Murder();
    DeadIsWoken();
    LastBlocks();
    assert Run(r, [], r);
    steps := Ahead(s8, GetKey(0), [], r);
    steps := Ahead(s7, Exit(0), steps, r);
    steps := Ahead(s6, Press(0), steps, r);
    steps := Ahead(s5, Kill(0, Task(0)), steps, r);
    steps := Ahead(s4, GetKey(0), steps, r);
    steps := Ahead(s3, Schedule(0), steps, r);
    steps := Ahead(s2, Create(0, Task(2)), steps, r);
    steps := Ahead(s1, Create(0, Task(1)), steps, r);
    steps := Ahead(s, Create(0, Task(0)), steps, r);
  }

  lemma {:induction false} Endpoints(s: State, r: State)
    requires s == Machine(map[], [], {}, [], 0, {})
    requires r == Machine(map[0 := Idle(0)], [], {Task(0)}, [Task(2)], 1, {Task(0)})
    ensures Initial(s) && Gone(r.table, Task(0)) && !ServesLiving(r)
  {
    assert r.holders - r.table.dying == {};
  }

  lemma {:induction false} Born(ready: seq<Thread>, t: Thread)
    requires t.Task? && t !in ready
    ensures var s := Machine(map[], ready, {}, [], 0, {});
      Enabled(s, Create(0, t)) && Apply(s, Create(0, t)) == Machine(map[], ready + [t], {}, [], 0, {})
  {
    RunningNowhere(1, t);
    WaitsNowhere([Gate(0, [])], t);
  }

  lemma {:induction false} FirstWaits()
    ensures var s := Machine(map[], [Task(0), Task(1), Task(2)], {}, [], 0, {});
      var r := Machine(map[0 := Task(0)], [Task(1), Task(2)], {}, [], 0, {});
      Enabled(s, Schedule(0)) && Apply(s, Schedule(0)) == r
    ensures var s := Machine(map[0 := Task(0)], [Task(1), Task(2)], {}, [], 0, {});
      var r := Machine(map[0 := Task(1)], [Task(2)], {}, [Task(0)], 0, {});
      Enabled(s, GetKey(0)) && Apply(s, GetKey(0)) == r
  {
    LivingAt([Task(0), Task(1), Task(2)], {}, 0);
    LivingAt([Task(1), Task(2)], {}, 0);
    assert [Task(0), Task(1), Task(2)][1..] == [Task(1), Task(2)];
    assert [Task(1), Task(2)][1..] == [Task(2)];
    assert [] + [Task(0)] == [Task(0)];
  }

  lemma {:induction false} Murder()
    ensures var s := Machine(map[0 := Task(1)], [Task(2)], {}, [Task(0)], 0, {});
      var r := Machine(map[0 := Task(1)], [Task(2)], {Task(0)}, [Task(0)], 0, {});
      Enabled(s, Kill(0, Task(0))) && Apply(s, Kill(0, Task(0))) == r
  {
    DropAbsent([Task(2)], Task(0));
  }

  lemma {:induction false} DeadIsWoken()
    ensures var s := Machine(map[0 := Task(1)], [Task(2)], {Task(0)}, [Task(0)], 0, {});
      var r := Machine(map[0 := Task(1)], [Task(2), Task(0)], {Task(0)}, [], 1, {Task(0)});
      Enabled(s, Press(0)) && Apply(s, Press(0)) == r
    ensures var s := Machine(map[0 := Task(1)], [Task(2), Task(0)], {Task(0)}, [], 1, {Task(0)});
      var r := Machine(map[0 := Task(2)], [Task(0)], {Task(0)}, [], 1, {Task(0)});
      Enabled(s, Exit(0)) && Apply(s, Exit(0)) == r
  {
    assert [Task(2)] + [Task(0)] == [Task(2), Task(0)];
    assert [Task(0)][1..] == [];
    LivingAt([Task(2), Task(0)], {Task(0)}, 0);
    assert [Task(2), Task(0)][1..] == [Task(0)];
  }

  lemma {:induction false} LastBlocks()
    ensures var s := Machine(map[0 := Task(2)], [Task(0)], {Task(0)}, [], 1, {Task(0)});
      var r := Machine(map[0 := Idle(0)], [], {Task(0)}, [Task(2)], 1, {Task(0)});
      Enabled(s, GetKey(0)) && Apply(s, GetKey(0)) == r
  {
    LivingAt([Task(0)], {Task(0)}, 1);
    assert [] + [Task(2)] == [Task(2)];
  }

  lemma {:induction false} Ahead(s: State, step: Step, steps: seq<Step>, r: State) returns (all: seq<Step>)
    requires Enabled(s, step) && Run(Apply(s, step), steps, r)
    ensures Run(s, all, r)
  {
    all := [step] + steps;
    assert all[1..] == steps;
  }
}
