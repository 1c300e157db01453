/** The prologue/epilogue protocol of the Guard: per core an interrupt flag, a level flag
    and a queue of epilogues, and one ticket lock for the whole system. Every shared access
    is a step of its own, and the steps of all cores interleave freely. */
module Guard {

  type Epilogue = nat
  type Thread = nat

  const MAX_CORES: nat := 8
  const QUEUE_ROOM: nat := 63          // EPILOGUE_QUEUE_SIZE - 1
  const TICKETS: nat := 0x1_0000_0000  // tickets are 32 bits wide

  /** What a core does once it holds the lock it is about to take. */
  datatype Goal =
    | ToEnter                                            // Guard::Enter returns to its caller
    | ToLeave                                            // Relay goes straight on to Leave
    | ToRun(was: bool, handler: bool, e: Epilogue)       // Leave runs the epilogue it consumed

  /** Where a core is. `was` is the interrupt state Leave will restore, and handler says
      whether it then returns from an interrupt. */
  datatype Pc =
    | Away                                               // outside the epilogue level
    | EnterOff(was: bool) | EnterSet(was: bool)          // Enter, interrupts off
    | Drawing(goal: Goal) | Waiting(ticket: nat, goal: Goal)
    | Inside                                             // holds the lock, in Enter's caller
    | LeaveStart(handler: bool) | Unlocking(was: bool, handler: bool)
    | DrainOff(was: bool, handler: bool) | DrainTake(was: bool, handler: bool)
    | DrainOn(was: bool, handler: bool, e: Epilogue)
    | Running(was: bool, handler: bool, e: Epilogue)     // holds the lock, in an epilogue
    | Clearing(was: bool, handler: bool) | Returning(was: bool, handler: bool)

  /** A prologue that has interrupted whatever the core was doing. */
  datatype Irq = NoIrq | Reading(e: Epilogue) | Producing(e: Epilogue, busy: bool) | Deciding(busy: bool)

  /** produced and started record every epilogue queued, and begun, on this core. */
  datatype Core = Core(ints: bool, flag: bool, queue: seq<Epilogue>, pc: Pc, irq: Irq, thread: Thread,
                       produced: seq<Epilogue>, started: seq<Epilogue>)

  /** What a thread's last pass through the level met: the interrupt state Enter found, the
      one Leave found, and whether a prologue took the level rather than Enter. begun says
      that the thread has been off the level since it was created. */
  datatype Pass = Pass(entered: bool, found: bool, taken: bool, begun: bool)

  /** line lists the cores with a ticket in the order they drew; draws and grants record
      who drew and who was served; parked holds the threads switched away from; passes
      records what happened to each thread. */
  datatype State = State(cores: seq<Core>, next: nat, serving: nat, parked: map<Thread, Pc>,
                         line: seq<nat>, served: nat, draws: seq<nat>, grants: seq<nat>,
                         passes: map<Thread, Pass>)

  predicate Holding(pc: Pc) {
    pc.Inside? || pc.LeaveStart? || pc.Unlocking? || pc.Running?
  }

  predicate HasTicket(pc: Pc) {
    pc.Waiting? || Holding(pc)
  }

  /** The points at which the level flag of the core is set. */
  predicate AtLevel(pc: Pc) {
    !pc.Away? && !pc.EnterOff? && !pc.Returning?
  }

  /** The points that run with interrupts off. */
  predicate MaskedPoint(pc: Pc) {
    pc.EnterOff? || pc.EnterSet? || pc.DrainTake? || pc.DrainOn? || pc.Clearing? || pc.Returning?
  }

  /** The points at which a context switch may happen, and what a thread resumes at. */
  predicate Switchable(pc: Pc) {
    pc.Inside? || pc.Running?
  }

  predicate Resumable(pc: Pc) {
    pc.Inside? || pc.Running? || pc == LeaveStart(false)
  }

  // ----- Steps that concern one core only

  datatype Local =
    | Toggle                                   // code switches interrupts on or off, also at the level
    | EnterBegin | EnterFlag | EnterRestore
    | LeaveCalled | LeaveRead
    | DrainDisable | DrainConsume | DrainEnable
    | ClearFlag | Restore
    | Interrupt(e: Epilogue) | RelayRead | RelayProduce | RelayDecide

  predicate CanStep(c: Core, l: Local) {
    match l
    case Interrupt(_) => c.ints && c.irq.NoIrq?
    case RelayRead => c.irq.Reading?
    case RelayProduce => c.irq.Producing? && |c.queue| < QUEUE_ROOM
    case RelayDecide => c.irq.Deciding?
    case _ =>
      c.irq.NoIrq? &&
      match l
      case Toggle => c.pc.Away? || c.pc.Inside? || c.pc.Running?
      case EnterBegin => c.pc.Away?
      case EnterFlag => c.pc.EnterOff?
      case EnterRestore => c.pc.EnterSet?
      case LeaveCalled => c.pc.Inside?
      case LeaveRead => c.pc.LeaveStart?
      case DrainDisable => c.pc.DrainOff?
      case DrainConsume => c.pc.DrainTake?
      case DrainEnable => c.pc.DrainOn?
      case ClearFlag => c.pc.Clearing?
      case Restore => c.pc.Returning?
      case _ => false
  }

  function StepCore(c: Core, l: Local): (r: Core)
    requires CanStep(c, l)
  {
    match l
    case Toggle => c.(ints := !c.ints)
    case EnterBegin => c.(pc := EnterOff(c.ints), ints := false)
    case EnterFlag => c.(pc := EnterSet(c.pc.was), flag := true)
    case EnterRestore => c.(pc := Drawing(ToEnter), ints := c.pc.was)
    case LeaveCalled => c.(pc := LeaveStart(false))
    case LeaveRead => c.(pc := Unlocking(c.ints, c.pc.handler))
    case DrainDisable => c.(pc := DrainTake(c.pc.was, c.pc.handler), ints := false)
    case DrainConsume =>
      if c.queue == [] then c.(pc := Clearing(c.pc.was, c.pc.handler))
      else c.(pc := DrainOn(c.pc.was, c.pc.handler, c.queue[0]), queue := c.queue[1..])
    case DrainEnable => c.(pc := Drawing(ToRun(c.pc.was, c.pc.handler, c.pc.e)), ints := true)
    case ClearFlag => c.(pc := Returning(c.pc.was, c.pc.handler), flag := false)
    case Restore => c.(pc := Away, ints := c.pc.was || c.pc.handler)
    case Interrupt(e) => c.(irq := Reading(e), ints := false)
    case RelayRead => c.(irq := Producing(c.irq.e, c.flag))
    case RelayProduce => c.(irq := Deciding(c.irq.busy), queue := c.queue + [c.irq.e], produced := c.produced + [c.irq.e])
    case RelayDecide =>
      if c.irq.busy then c.(irq := NoIrq, ints := true)
      else c.(irq := NoIrq, flag := true, pc := Drawing(ToLeave))
  }

  /** The epilogue a core has consumed but not begun. */
  function InFlight(pc: Pc): (r: seq<Epilogue>) {
    match pc
    case DrainOn(_, _, e) => [e]
    case Drawing(ToRun(_, _, e)) => [e]
    case Waiting(_, ToRun(_, _, e)) => [e]
    case _ => []
  }

  /** What holds of every core at every step. */
  ghost predicate CoreOk(c: Core) {
    && c.flag == AtLevel(c.pc)
    && (c.irq != NoIrq ==> !c.ints && !MaskedPoint(c.pc))
    && (MaskedPoint(c.pc) ==> !c.ints)
    && (c.irq.Producing? || c.irq.Deciding? ==> c.irq.busy == c.flag)
    && (!c.flag && !c.irq.Deciding? ==> c.queue == [])
    && (c.pc.Clearing? ==> c.queue == [])
    && c.produced == c.started + InFlight(c.pc) + c.queue
  }

  lemma {:induction false} LocalKeepsCore(c: Core, l: Local)
    requires CoreOk(c) && CanStep(c, l)
    ensures CoreOk(StepCore(c, l))
    ensures HasTicket(StepCore(c, l).pc) == HasTicket(c.pc) && Holding(StepCore(c, l).pc) == Holding(c.pc)
    ensures c.pc.Waiting? ==> StepCore(c, l).pc == c.pc
  {
    var r := StepCore(c, l);
    if l.DrainConsume? && c.queue != [] {
      assert c.queue == [c.queue[0]] + c.queue[1..];
      assert r.produced == r.started + InFlight(r.pc) + r.queue;
    } else if l.RelayProduce? {
      assert r.produced == r.started + InFlight(r.pc) + r.queue;
    }
  }

  // ----- The whole system

  datatype Step =
    | On(c: nat, l: Local)
    | Draw(c: nat) | Acquire(c: nat) | Unlock(c: nat)
    | Switch(c: nat, to: Thread) | Spawn(t: Thread)

  predicate Enabled(s: State, step: Step) {
    match step
    case On(c, l) => c < |s.cores| && CanStep(s.cores[c], l)
    case Draw(c) => c < |s.cores| && s.cores[c].irq.NoIrq? && s.cores[c].pc.Drawing?
    case Acquire(c) => c < |s.cores| && s.cores[c].irq.NoIrq? && s.cores[c].pc.Waiting? && s.cores[c].pc.ticket == s.serving
    case Unlock(c) => c < |s.cores| && s.cores[c].irq.NoIrq? && (s.cores[c].pc.Unlocking? || s.cores[c].pc.Running?)
    case Switch(c, t) =>
      && c < |s.cores| && s.cores[c].irq.NoIrq? && Switchable(s.cores[c].pc)
      && t in s.parked && s.cores[c].thread !in s.parked
    case Spawn(t) => t !in s.parked && forall c :: 0 <= c < |s.cores| ==> s.cores[c].thread != t
  }

  function Served(goal: Goal): (pc: Pc) {
    match goal
    case ToEnter => Inside
    case ToLeave => LeaveStart(true)
    case ToRun(was, handler, e) => Running(was, handler, e)
  }

  /** An acquired lock starts the epilogue it was taken for. */
  function Begin(c: Core): (r: Core)
    requires c.pc.Waiting?
  {
    c.(pc := Served(c.pc.goal), started := c.started + InFlight(c.pc))
  }

  /** The record of a thread after a step of its core. */
  function Recorded(passes: map<Thread, Pass>, c: Core, l: Local): (r: map<Thread, Pass>) {
    if c.thread !in passes then passes
    else
      match l
      case EnterBegin => passes[c.thread := passes[c.thread].(entered := c.ints, taken := false)]
      case LeaveRead => passes[c.thread := passes[c.thread].(found := c.ints)]
      case RelayDecide => if c.irq == Deciding(false) then passes[c.thread := passes[c.thread].(taken := true)] else passes
      case Restore => passes[c.thread := passes[c.thread].(begun := true)]
      case _ => passes
  }

  function Apply(s: State, step: Step): (r: State)
    requires Enabled(s, step)
  {
    match step
    case On(c, l) => s.(cores := s.cores[c := StepCore(s.cores[c], l)], passes := Recorded(s.passes, s.cores[c], l))
    case Draw(c) =>
      s.(cores := s.cores[c := s.cores[c].(pc := Waiting(s.next, s.cores[c].pc.goal))],
         next := (s.next + 1) % TICKETS, line := s.line + [c], draws := s.draws + [c])
    case Acquire(c) =>
      s.(cores := s.cores[c := Begin(s.cores[c])], grants := s.grants + [c])
    case Unlock(c) =>
      s.(cores := s.cores[c := s.cores[c].(pc := DrainOff(s.cores[c].pc.was, s.cores[c].pc.handler))],
         serving := (s.serving + 1) % TICKETS, served := s.served + 1,
         line := if s.line == [] then [] else s.line[1..])
    case Switch(c, t) =>
      var k := s.cores[c];
      s.(cores := s.cores[c := k.(pc := s.parked[t], thread := t)], parked := (s.parked - {t})[k.thread := k.pc])
    case Spawn(t) => s.(parked := s.parked[t := LeaveStart(false)], passes := s.passes[t := Pass(false, false, false, false)])
  }

  ghost predicate Init(s: State) {
    && 0 < |s.cores| <= MAX_CORES
    && (forall c :: 0 <= c < |s.cores| ==>
          var k := s.cores[c]; k.pc == Away && k.irq == NoIrq && !k.flag && k.queue == [] && k.produced == [] && k.started == [])
    && (forall c, d :: 0 <= c < d < |s.cores| ==> s.cores[c].thread != s.cores[d].thread)
    && (forall c :: 0 <= c < |s.cores| ==> s.cores[c].thread in s.passes && s.passes[s.cores[c].thread].begun)
    && s.next == 0 && s.serving == 0 && s.parked == map[] && s.line == [] && s.served == 0 && s.draws == [] && s.grants == []
  }

  // ----- The line in front of the lock

  ghost predicate Distinct(l: seq<nat>) {
    forall i, j :: 0 <= i < j < |l| ==> l[i] != l[j]
  }

  /** The i-th core in line holds ticket served + i, and only the first can hold the lock. */
  ghost predicate LineAt(s: State, i: nat)
    requires i < |s.line|
  {
    && s.line[i] < |s.cores|
    && HasTicket(s.cores[s.line[i]].pc)
    && (s.cores[s.line[i]].pc.Waiting? ==> s.cores[s.line[i]].pc.ticket == (s.served + i) % TICKETS)
    && (Holding(s.cores[s.line[i]].pc) ==> i == 0)
  }

  ghost predicate HeadHolds(s: State) {
    s.line != [] && s.line[0] < |s.cores| && Holding(s.cores[s.line[0]].pc)
  }

  ghost predicate LineOk(s: State) {
    && |s.cores| <= MAX_CORES
    && Distinct(s.line)
    && (forall i {:trigger LineAt(s, i)} :: 0 <= i < |s.line| ==> LineAt(s, i))
    && (forall c {:trigger s.cores[c]} :: 0 <= c < |s.cores| && HasTicket(s.cores[c].pc) ==> c in s.line)
    && s.serving == s.served % TICKETS
    && s.next == (s.served + |s.line|) % TICKETS
    && s.draws == s.grants + (if HeadHolds(s) then s.line[1..] else s.line)
  }

  ghost predicate Inv(s: State) {
    && (forall c {:trigger s.cores[c]} :: 0 <= c < |s.cores| ==> CoreOk(s.cores[c]))
    && (forall t {:trigger s.parked[t]} :: t in s.parked ==> Resumable(s.parked[t]))
    && LineOk(s)
  }

  // ----- Every step keeps the invariant

  /** n numbers below n that differ leave no room for more. */
  lemma {:induction false} Pigeonhole(l: seq<nat>, n: nat)
    requires Distinct(l) && forall i :: 0 <= i < |l| ==> l[i] < n
    ensures |l| <= n
  {
    if l != [] {
      assert l[0] < n;
      var top := n - 1;
      if i :| 0 <= i < |l| && l[i] == top {
        var rest := l[..i] + l[i + 1..];
        forall a, b | 0 <= a < b < |rest| ensures rest[a] != rest[b] {
          assert rest[a] == l[if a < i then a else a + 1] && rest[b] == l[if b < i then b else b + 1];
        }
        forall a | 0 <= a < |rest| ensures rest[a] < top {
          assert rest[a] == l[if a < i then a else a + 1];
        }
        Pigeonhole(rest, top);
      } else {
        Pigeonhole(l, top);
      }
    }
  }

  lemma {:induction false} LineIsShort(s: State)
    requires LineOk(s)
    ensures |s.line| <= MAX_CORES
  {
    forall i | 0 <= i < |s.line| ensures s.line[i] < MAX_CORES { assert LineAt(s, i); }
    Pigeonhole(s.line, MAX_CORES);
  }

  /** Where a core with a ticket stands in line. */
  lemma {:induction false} PlaceInLine(s: State, c: nat) returns (i: nat)
    requires LineOk(s) && c < |s.cores| && HasTicket(s.cores[c].pc)
    ensures i < |s.line| && s.line[i] == c && LineAt(s, i)
  {
    i :| 0 <= i < |s.line| && s.line[i] == c;
    assert LineAt(s, i);
  }

  /** A core holding the lock is the head of the line. */
  lemma {:induction false} HolderIsHead(s: State, c: nat)
    requires LineOk(s) && c < |s.cores| && Holding(s.cores[c].pc)
    ensures s.line != [] && s.line[0] == c && HeadHolds(s)
  {
    var i := PlaceInLine(s, c);
  }

  /** A ticket that equals the 32-bit display is the head's, wrap-around or not. */
  lemma {:induction false} ServedIsHead(s: State, c: nat)
    requires LineOk(s) && c < |s.cores| && s.cores[c].pc.Waiting? && s.cores[c].pc.ticket == s.serving
    ensures s.line != [] && s.line[0] == c && !HeadHolds(s)
  {
    LineIsShort(s);
    var i := PlaceInLine(s, c);
    TicketsApart(s.served, i);
  }

  lemma {:induction false} TicketsApart(served: nat, i: nat)
    requires i <= MAX_CORES && (served + i) % TICKETS == served % TICKETS
    ensures i == 0
  {
    var q, r := served / TICKETS, served % TICKETS;
    assert served + i == q * TICKETS + (r + i);
    assert (served + i) % TICKETS == if r + i < TICKETS then r + i else r + i - TICKETS;
  }

  /** Changing one core without touching its ticket keeps the line in order. */
  lemma {:induction false} LineKept(s: State, r: State, c: nat)
    requires LineOk(s) && c < |s.cores| && |r.cores| == |s.cores|
    requires r.cores == s.cores[c := r.cores[c]]
    requires r.line == s.line && r.served == s.served && r.serving == s.serving && r.next == s.next && r.draws == s.draws && r.grants == s.grants
    requires HasTicket(r.cores[c].pc) == HasTicket(s.cores[c].pc) && Holding(r.cores[c].pc) == Holding(s.cores[c].pc)
    requires s.cores[c].pc.Waiting? ==> r.cores[c].pc == s.cores[c].pc
    ensures LineOk(r)
  {
    forall i | 0 <= i < |r.line| ensures LineAt(r, i) { assert LineAt(s, i); }
    assert HeadHolds(r) == HeadHolds(s);
  }

  lemma {:induction false} DrawKeepsLine(s: State, c: nat)
    requires LineOk(s) && Enabled(s, Draw(c))
    ensures LineOk(Apply(s, Draw(c)))
  {
    var r := Apply(s, Draw(c));
    assert c !in s.line by {
      forall i | 0 <= i < |s.line| ensures s.line[i] != c { assert LineAt(s, i); }
    }
    forall i | 0 <= i < |r.line|
      ensures LineAt(r, i)
    {
      if i < |s.line| { assert LineAt(s, i); }
    }
    NextTicket(s.served, |s.line|);
    assert s.line != [] ==> LineAt(s, 0) && r.line[1..] == s.line[1..] + [c];
  }

  lemma {:induction false} NextTicket(served: nat, n: nat)
    ensures ((served + n) % TICKETS + 1) % TICKETS == (served + n + 1) % TICKETS
  {
    var x := served + n;
    assert x == x / TICKETS * TICKETS + x % TICKETS;
    if x % TICKETS + 1 == TICKETS {
      assert x + 1 == (x / TICKETS + 1) * TICKETS;
    } else {
      assert (x + 1) % TICKETS == x % TICKETS + 1;
    }
  }

  lemma {:induction false} AcquireKeepsLine(s: State, c: nat)
    requires LineOk(s) && Enabled(s, Acquire(c))
    ensures LineOk(Apply(s, Acquire(c)))
  {
    var r := Apply(s, Acquire(c));
    ServedIsHead(s, c);
    forall i | 0 <= i < |r.line|
      ensures LineAt(r, i)
    {
      assert LineAt(s, i);
    }
    assert HeadHolds(r);
    assert s.line == [c] + s.line[1..];
    assert r.draws == r.grants + r.line[1..];
  }

  lemma {:induction false} UnlockKeepsLine(s: State, c: nat)
    requires LineOk(s) && Enabled(s, Unlock(c))
    ensures LineOk(Apply(s, Unlock(c)))
  {
    var r := Apply(s, Unlock(c));
    HolderIsHead(s, c);
    forall i | 0 <= i < |r.line|
      ensures LineAt(r, i)
    {
      assert LineAt(s, i + 1);
    }
    forall d | 0 <= d < |r.cores| && HasTicket(r.cores[d].pc)
      ensures d in r.line
    {
      assert s.cores[d] == r.cores[d] && d in s.line && s.line == [c] + s.line[1..];
    }
    NextTicket(s.served, 0);
    assert r.line != [] ==> LineAt(r, 0) && LineAt(s, 1);
    assert !HeadHolds(r);
  }

  lemma {:induction false} StepKeepsInv(s: State, step: Step)
    requires Inv(s) && Enabled(s, step)
    ensures Inv(Apply(s, step))
  {
    hide LineOk, StepCore, CanStep, CoreOk;
    var r := Apply(s, step);
    match step
    case On(c, l) =>
      LocalKeepsCore(s.cores[c], l);
      LineKept(s, r, c);
    case Draw(c) =>
      DrawKeepsLine(s, c);
      LockKeepsCore(s, step, c);
    case Acquire(c) =>
      AcquireKeepsLine(s, c);
      LockKeepsCore(s, step, c);
    case Unlock(c) =>
      UnlockKeepsLine(s, c);
      LockKeepsCore(s, step, c);
    case Switch(c, t) =>
      LockKeepsCore(s, step, c);
      LineKept(s, r, c);
    case Spawn(t) =>
      SpawnKeepsLine(s, t);
  }

  lemma {:induction false} SpawnKeepsLine(s: State, t: Thread)
    requires LineOk(s) && Enabled(s, Spawn(t))
    ensures LineOk(Apply(s, Spawn(t)))
  {
    var r := Apply(s, Spawn(t));
    forall i | 0 <= i < |r.line| ensures LineAt(r, i) { assert LineAt(s, i); }
  }

  /** Taking, being given and releasing the lock, and switching threads, keep the core in order. */
  lemma {:induction false} LockKeepsCore(s: State, step: Step, c: nat)
    requires Enabled(s, step) && c < |s.cores| && CoreOk(s.cores[c])
    requires step == Draw(c) || step == Acquire(c) || step == Unlock(c) || (step.Switch? && step.c == c && Resumable(s.parked[step.to]))
    ensures CoreOk(Apply(s, step).cores[c])
  {
    var k, r := s.cores[c], Apply(s, step).cores[c];
    if step == Acquire(c) {
      assert r.started + InFlight(r.pc) + r.queue == k.started + InFlight(k.pc) + k.queue;
    }
  }

  // ----- Whole runs

  /** The steps lead from s to r, each one possible when its turn comes. */
  ghost predicate Reaches(s: State, steps: seq<Step>, r: State)
    decreases |steps|
  {
    if steps == [] then r == s
    else Enabled(s, steps[0]) && Reaches(Apply(s, steps[0]), steps[1..], r)
  }

  ghost predicate Reachable(r: State) {
    exists s, steps :: Init(s) && Reaches(s, steps, r)
  }

  lemma {:induction false} InitInv(s: State)
    requires Init(s)
    ensures Inv(s)
  {
  }

  lemma {:induction false} RunKeepsInv(s: State, steps: seq<Step>, r: State)
    requires Inv(s) && Reaches(s, steps, r)
    ensures Inv(r)
    decreases |steps|
  {
    if steps != [] {
      StepKeepsInv(s, steps[0]);
      RunKeepsInv(Apply(s, steps[0]), steps[1..], r);
    }
  }

  lemma {:induction false} ReachableInv(r: State)
    requires Reachable(r)
    ensures Inv(r)
  {
    var s, steps :| Init(s) && Reaches(s, steps, r);
    InitInv(s);
    RunKeepsInv(s, steps, r);
  }

  /** At most one core is ever between Lock and Unlock. */
  lemma {:induction false} MutualExclusion(s: State, c: nat, d: nat)
    requires Reachable(s) && c < |s.cores| && d < |s.cores|
    requires Holding(s.cores[c].pc) && Holding(s.cores[d].pc)
    ensures c == d
  {
    ReachableInv(s);
    HolderIsHead(s, c);
    HolderIsHead(s, d);
  }

  /** A core that holds or awaits the lock has its level flag set, and one ticket. */
  lemma {:induction false} LevelCoversLock(s: State, c: nat)
    requires Reachable(s) && c < |s.cores|
    ensures HasTicket(s.cores[c].pc) ==> s.cores[c].flag
    ensures HasTicket(s.cores[c].pc) <==> c in s.line
    ensures Distinct(s.line)
  {
    ReachableInv(s);
    assert CoreOk(s.cores[c]);
    if c in s.line {
      var i :| 0 <= i < |s.line| && s.line[i] == c;
      assert LineAt(s, i);
    }
  }

  /** The lock is granted in the order the tickets were drawn, however often they wrap. */
  lemma {:induction false} GrantsAreFifo(s: State)
    requires Reachable(s)
    ensures s.grants <= s.draws
    ensures |s.draws| - |s.grants| <= MAX_CORES
  {
    ReachableInv(s);
    LineIsShort(s);
  }

  /** The lock never stands idle while cores wait for it: the first in line holds it, or
      waits with the very ticket that is being served. */
  lemma {:induction false} LockProgress(s: State)
    requires Reachable(s) && s.line != []
    ensures s.line[0] < |s.cores|
    ensures var pc := s.cores[s.line[0]].pc; Holding(pc) || (pc.Waiting? && pc.ticket == s.serving)
  {
    ReachableInv(s);
    assert LineAt(s, 0);
  }

  /** Outside the window of a prologue that is about to decide, a core off the epilogue
      level has no epilogue left, and every one it ever queued has been started. */
  lemma {:induction false} NoStrandedEpilogue(s: State, c: nat)
    requires Reachable(s) && c < |s.cores| && !s.cores[c].flag && !s.cores[c].irq.Deciding?
    ensures s.cores[c].queue == [] && s.cores[c].started == s.cores[c].produced
  {
    ReachableInv(s);
    assert CoreOk(s.cores[c]);
  }

  /** Each core starts the epilogues it queued, each once and in queue order. */
  lemma {:induction false} StartedInOrder(s: State, c: nat)
    requires Reachable(s) && c < |s.cores|
    ensures s.cores[c].started <= s.cores[c].produced
    ensures |s.cores[c].produced| - |s.cores[c].started| <= 1 + |s.cores[c].queue|
  {
    ReachableInv(s);
    assert CoreOk(s.cores[c]);
  }

  /** A prologue that finds the level free interrupted code outside it, so taking the level
      over does not cut into another activity of the core. */
  lemma {:induction false} RelayTakesFreeLevel(s: State, c: nat)
    requires Reachable(s) && c < |s.cores| && s.cores[c].irq == Deciding(false)
    ensures s.cores[c].pc == Away && !s.cores[c].ints
  {
    ReachableInv(s);
    assert CoreOk(s.cores[c]);
  }
}
