/** What the Guard does to the interrupt flag, and to the threads that pass through it. */
module GuardInterrupts {
  import opened Guard

  /** Interrupts are on, or were until one of them came in. */
  predicate IntsOn(c: Core) {
    c.ints || !c.irq.NoIrq?
  }

  // ----- Without code that switches interrupts itself

  /** The interrupt state at each point, for code that never switches it: off between the
      instructions that switch it off and on again, and from a prologue that takes the
      level until it drains. */
  predicate Steady(pc: Pc, on: bool) {
    match pc
    case Away => on
    case EnterOff(was) => was
    case EnterSet(was) => was
    case Drawing(goal) => GoalSteady(goal, on)
    case Waiting(_, goal) => GoalSteady(goal, on)
    case Inside => on
    case LeaveStart(handler) => on == !handler
    case Unlocking(was, handler) => was == !handler && on == was
    case DrainOff(was, handler) => was == !handler
    case DrainTake(was, handler) => was == !handler
    case DrainOn(was, handler, _) => was == !handler
    case Running(was, handler, _) => was == !handler && on
    case Clearing(was, handler) => was == !handler
    case Returning(was, handler) => was == !handler
  }

  predicate GoalSteady(goal: Goal, on: bool) {
    match goal
    case ToEnter => on
    case ToLeave => !on
    case ToRun(was, handler, _) => on && was == !handler
  }

  ghost predicate AllSteady(s: State) {
    && (forall c {:trigger s.cores[c]} :: 0 <= c < |s.cores| ==> Steady(s.cores[c].pc, IntsOn(s.cores[c])))
    && (forall t {:trigger s.parked[t]} :: t in s.parked ==> Steady(s.parked[t], true))
  }

  predicate Toggles(step: Step) {
    step.On? && step.l.Toggle?
  }

  lemma {:induction false} LocalSteady(c: Core, l: Local)
    requires CoreOk(c) && CanStep(c, l) && !l.Toggle? && Steady(c.pc, IntsOn(c))
    ensures Steady(StepCore(c, l).pc, IntsOn(StepCore(c, l)))
  {
  }

  lemma {:induction false} StepSteady(s: State, step: Step)
    requires Inv(s) && AllSteady(s) && Enabled(s, step) && !Toggles(step)
    ensures AllSteady(Apply(s, step))
  {
    hide LineOk, StepCore, CoreOk, CanStep, Recorded;
    if step.On? {
      LocalSteady(s.cores[step.c], step.l);
    }
  }

  lemma {:induction false} RunSteady(s: State, steps: seq<Step>, r: State)
    requires Inv(s) && AllSteady(s) && Reaches(s, steps, r)
    requires forall i :: 0 <= i < |steps| ==> !Toggles(steps[i])
    ensures AllSteady(r) && Inv(r)
    decreases |steps|
  {
    hide Inv, AllSteady, Apply, Enabled, Toggles;
    if steps != [] {
      StepSteady(s, steps[0]);
      StepKeepsInv(s, steps[0]);
      RunSteady(Apply(s, steps[0]), steps[1..], r);
    }
  }

  /**
   * Where no code switches interrupts itself and they are on to begin with, they are on
   * outside the level, in the caller of Enter and in every epilogue: each pass through the
   * level, and each interrupt, gives them back.
   */
  lemma {:induction false} InterruptsStayOn(s: State, steps: seq<Step>, r: State, c: nat)
    requires Init(s) && Reaches(s, steps, r) && c < |r.cores|
    requires forall d :: 0 <= d < |s.cores| ==> s.cores[d].ints
    requires forall i :: 0 <= i < |steps| ==> !Toggles(steps[i])
    ensures var k := r.cores[c]; (k.pc.Away? || k.pc.Inside? || k.pc.Running?) && k.irq.NoIrq? ==> k.ints
  {
    InitInv(s);
    RunSteady(s, steps, r);
    assert Steady(r.cores[c].pc, IntsOn(r.cores[c]));
  }

  // ----- With such code: what Enter and Leave put back

  /** A thread at pc, judged by the record of what happened to it. */
  predicate Matches(pc: Pc, p: Pass) {
    (p.begun || Leaving(pc)) &&
    match pc
    case Away => true
    case EnterOff(was) => was == p.entered && !p.taken
    case EnterSet(was) => was == p.entered && !p.taken
    case Drawing(goal) => GoalMatches(goal, p)
    case Waiting(_, goal) => GoalMatches(goal, p)
    case Inside => !p.taken
    case LeaveStart(handler) => handler == p.taken
    case Unlocking(was, handler) => was == p.found && handler == p.taken
    case DrainOff(was, handler) => was == p.found && handler == p.taken
    case DrainTake(was, handler) => was == p.found && handler == p.taken
    case DrainOn(was, handler, _) => was == p.found && handler == p.taken
    case Running(was, handler, _) => was == p.found && handler == p.taken
    case Clearing(was, handler) => was == p.found && handler == p.taken
    case Returning(was, handler) => was == p.found && handler == p.taken
  }

  /** The points of Leave. */
  predicate Leaving(pc: Pc) {
    match pc
    case Drawing(goal) => goal.ToRun?
    case Waiting(_, goal) => goal.ToRun?
    case _ => !pc.Away? && !pc.EnterOff? && !pc.EnterSet? && !pc.Inside?
  }

  predicate GoalMatches(goal: Goal, p: Pass) {
    match goal
    case ToEnter => !p.taken
    case ToLeave => p.taken
    case ToRun(was, handler, _) => was == p.found && handler == p.taken
  }

  /** Every thread is on one core or parked, and where its record says. */
  ghost predicate ThreadsOk(s: State) {
    && (forall c, d {:trigger s.cores[c], s.cores[d]} :: 0 <= c < d < |s.cores| ==> s.cores[c].thread != s.cores[d].thread)
    && (forall c {:trigger s.cores[c]} :: 0 <= c < |s.cores| ==> CoreThreadOk(s, s.cores[c]))
    && (forall t {:trigger s.parked[t]} :: t in s.parked ==> t in s.passes && Matches(s.parked[t], s.passes[t]))
  }

  ghost predicate CoreThreadOk(s: State, k: Core) {
    k.thread in s.passes && k.thread !in s.parked && Matches(k.pc, s.passes[k.thread])
  }

  lemma {:induction false} LocalMatches(c: Core, l: Local, passes: map<Thread, Pass>)
    requires CoreOk(c) && CanStep(c, l) && c.thread in passes && Matches(c.pc, passes[c.thread])
    ensures var r := Recorded(passes, c, l);
      && r.Keys == passes.Keys && Matches(StepCore(c, l).pc, r[c.thread])
      && forall t :: t in passes && t != c.thread ==> r[t] == passes[t]
    ensures StepCore(c, l).thread == c.thread
  {
  }

  lemma {:induction false} StepThreads(s: State, step: Step)
    requires Inv(s) && ThreadsOk(s) && Enabled(s, step)
    ensures ThreadsOk(Apply(s, step))
  {
    hide LineOk, StepCore, CoreOk, CanStep, Recorded;
    if step.On? {
      LocalMatches(s.cores[step.c], step.l, s.passes);
    }
  }

  lemma {:induction false} RunThreads(s: State, steps: seq<Step>, r: State)
    requires Inv(s) && ThreadsOk(s) && Reaches(s, steps, r)
    ensures ThreadsOk(r)
    decreases |steps|
  {
    hide Inv, ThreadsOk, Apply, Enabled;
    if steps != [] {
      StepThreads(s, steps[0]);
      StepKeepsInv(s, steps[0]);
      RunThreads(Apply(s, steps[0]), steps[1..], r);
    }
  }

  lemma {:induction false} ReachableThreads(r: State)
    requires Reachable(r)
    ensures ThreadsOk(r)
  {
    hide Inv, Apply, Enabled;
    var s, steps :| Init(s) && Reaches(s, steps, r);
    InitInv(s);
    RunThreads(s, steps, r);
  }

  /** Enter goes on with the interrupt state its caller had. */
  lemma {:induction false} EnterPutsBack(s: State, c: nat)
    requires Reachable(s) && Enabled(s, On(c, EnterRestore))
    ensures var k := s.cores[c];
      k.thread in s.passes && Apply(s, On(c, EnterRestore)).cores[c].ints == s.passes[k.thread].entered
  {
    ReachableThreads(s);
    assert CoreThreadOk(s, s.cores[c]);
  }

  /** Leave returns with the interrupt state it found, and with interrupts on where the level
      was taken by a prologue, which returns from the interrupt. */
  lemma {:induction false} LeavePutsBack(s: State, c: nat)
    requires Reachable(s) && Enabled(s, On(c, Restore))
    ensures var k, r := s.cores[c], Apply(s, On(c, Restore)).cores[c];
      && k.thread in s.passes && r.pc == Away
      && r.ints == (s.passes[k.thread].found || s.passes[k.thread].taken)
  {
    ReachableThreads(s);
    assert CoreThreadOk(s, s.cores[c]);
  }

  /** Thread t stands at pc, on a core or parked. */
  ghost predicate StandsAt(s: State, t: Thread, pc: Pc) {
    (t in s.parked && s.parked[t] == pc) || exists c :: 0 <= c < |s.cores| && s.cores[c].thread == t && s.cores[c].pc == pc
  }

  /** A new thread starts on the level, and goes through Leave before anything else. */
  lemma {:induction false} NewThreadLeaves(s: State, t: Thread, pc: Pc)
    requires Reachable(s) && StandsAt(s, t, pc) && t in s.passes && !s.passes[t].begun
    ensures Leaving(pc)
  {
    ReachableThreads(s);
    assert forall c :: 0 <= c < |s.cores| ==> CoreThreadOk(s, s.cores[c]);
  }

  /** Where a thread stands is one place. */
  lemma {:induction false} OnePoint(s: State, t: Thread, pc: Pc, other: Pc)
    requires Reachable(s) && StandsAt(s, t, pc) && StandsAt(s, t, other)
    ensures pc == other
  {
    ReachableThreads(s);
    assert forall c :: 0 <= c < |s.cores| ==> CoreThreadOk(s, s.cores[c]);
  }

  /** Switching threads moves nobody: each resumes where it was switched away from. */
  lemma {:induction false} SwitchMovesNobody(s: State, c: nat, to: Thread, t: Thread, pc: Pc)
    requires Enabled(s, Switch(c, to))
    ensures StandsAt(Apply(s, Switch(c, to)), t, pc) <==> StandsAt(s, t, pc)
  {
    var k, r := s.cores[c], Apply(s, Switch(c, to));
    assert r.cores[c].thread == to && r.cores[c].pc == s.parked[to];
    if d :| 0 <= d < |s.cores| && s.cores[d].thread == t && s.cores[d].pc == pc {
      assert d == c || r.cores[d] == s.cores[d];
    }
    if d :| 0 <= d < |r.cores| && r.cores[d].thread == t && r.cores[d].pc == pc {
      assert d == c || r.cores[d] == s.cores[d];
    }
    assert t in s.parked && t != to ==> r.parked[t] == s.parked[t];
    assert s.cores[c].thread == t && s.cores[c].pc == pc ==> StandsAt(s, t, pc);
  }
}
