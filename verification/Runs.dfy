/**
 * Whole runs of the thread system. A step is what one core does at once inside
 * the Guard, except that queueing a thread and looking for a core to poke are
 * two steps, and that the idle loop looks at the queue and halts without the
 * Guard, so other cores' steps fall in between.
 */
module Runs {
  import opened Options
  import opened Threads

  const KEY_SLOTS: nat := 31

  /** The semaphore that counts buffered keys. */
  const KEYS: nat := 0

  /**
   * Where a core's idle thread is: before its look at the queue, having seen
   * work, having seen none with interrupts still off, or halted.
   */
  datatype Phase = Top | Found | Deciding | Halted

  /**
   * `pending` are the cores with a wake-up interrupt on its way. `holders` are
   * the threads a key token was handed to that have not fetched their key yet.
   * `announced` is the core that last finished making a thread ready, until
   * some core takes a thread from the queue.
   */
  datatype State = State(table: Table, sems: seq<Gate>, bells: seq<Thread>, phase: seq<Phase>,
                         pending: set<nat>, announced: Option<nat>, keys: nat, holders: set<Thread>)

  datatype Step =
    | Schedule(core: nat)
    | Create(core: nat, thread: Thread)
    | Poke(core: nat)
    | Yield(core: nat)
    | Look(core: nat)
    | IdleResume(core: nat)
    | Halt(core: nat)
    | Interrupt(core: nat)
    | TakeWakeup(core: nat)
    | Exit(core: nat)
    | Kill(core: nat, thread: Thread)
    | Acquire(core: nat, sem: nat)
    | Release(core: nat, sem: nat)
    | Sleep(core: nat, place: nat)
    | Ring(core: nat)
    | Press(core: nat)
    | GetKey(core: nat)
    | Fetch(core: nat)

  predicate Awake(p: Phase) {
    p == Top || p == Found
  }

  /** The core executes instructions with interrupts possible: boot code, a thread, or an idle thread that is awake. */
  predicate On(s: State, core: nat) {
    core < s.table.cores && core < |s.phase| && (IsIdle(s.table, core) ==> Awake(s.phase[core]))
  }

  /** The core runs an ordinary thread that is not in the middle of fetching a key. */
  predicate Runs(s: State, core: nat) {
    core < s.table.cores && core in s.table.active && s.table.active[core].Task? && s.table.active[core] !in s.holders
  }

  predicate IdlesIn(s: State, core: nat, p: Phase) {
    core < s.table.cores && core < |s.phase| && IsIdle(s.table, core) && s.phase[core] == p
  }

  ghost predicate Enabled(s: State, step: Step) {
    match step
    case Schedule(c) => c < s.table.cores && c !in s.table.active
    case Create(c, t) => On(s, c) && t.Task? && Places(s, t) == 0
    case Poke(c) => On(s, c)
    case Yield(c) => On(s, c) && c in s.table.active
    case Look(c) => IdlesIn(s, c, Top)
    case IdleResume(c) => IdlesIn(s, c, Found)
    case Halt(c) => IdlesIn(s, c, Deciding)
    case Interrupt(c) => IdlesIn(s, c, Halted)
    case TakeWakeup(c) => c in s.pending && c < |s.phase| && !IdlesIn(s, c, Deciding)
    case Exit(c) => Runs(s, c)
    case Kill(c, t) => On(s, c) && t.Task?
    case Acquire(c, i) => Runs(s, c) && i != KEYS && i < |s.sems|
    case Release(c, i) => On(s, c) && i != KEYS && i < |s.sems|
    case Sleep(c, k) => Runs(s, c) && k <= |s.bells|
    case Ring(c) => c == 0 && On(s, c) && s.bells != []
    case Press(c) => On(s, c) && KEYS < |s.sems|
    case GetKey(c) => Runs(s, c) && KEYS < |s.sems|
    case Fetch(c) => c < s.table.cores && c in s.table.active && s.table.active[c] in s.holders
  }

  /** Switching away: whoever takes a thread from the queue settles the last announcement. */
  function Switched(s: State, table: Table, core: nat): (r: State) {
    s.(table := Dispatched(table, core), announced := if Picked(table, core).Task? then None else s.announced)
  }

  function Enqueued(s: State, t: Thread): (r: State) {
    s.(table := Readied(s.table, t), announced := None)
  }

  /** Parks the running thread behind a semaphore's waiters. */
  function Blocked(s: State, core: nat, i: nat): (r: State)
    requires core in s.table.active && i < |s.sems|
  {
    Switched(s.(sems := s.sems[i := Parked(s.sems[i], s.table.active[core])]), s.table, core)
  }

  /** Hands a token on, or keeps it. */
  function Signalled(s: State, i: nat): (r: State)
    requires i < |s.sems|
  {
    var r := s.(sems := s.sems[i := Handed(s.sems[i])]);
    if s.sems[i].waiting == [] then r else Enqueued(r, s.sems[i].waiting[0])
  }

  function Taken(s: State, i: nat): (r: State)
    requires i < |s.sems| && s.sems[i].counter > 0
  {
    s.(sems := s.sems[i := s.sems[i].(counter := s.sems[i].counter - 1)])
  }

  /** A key arrives: dropped when the buffer is full, else stored and announced. */
  function Pressed(s: State): (r: State)
    requires KEYS < |s.sems|
  {
    if s.keys >= KEY_SLOTS then s else
      var woken := if s.sems[KEYS].waiting == [] then {} else {s.sems[KEYS].waiting[0]};
      Signalled(s.(keys := s.keys + 1, holders := s.holders + woken), KEYS)
  }

  function Poked(s: State, core: nat): (r: State) {
    var idle := IdleOther(s.table, core, s.table.cores);
    s.(pending := if idle.Some? then s.pending + {idle.value} else s.pending, announced := Some(core))
  }

  function AtPhase(s: State, core: nat, p: Phase): (r: State)
    requires core < |s.phase|
  {
    s.(phase := s.phase[core := p])
  }

  ghost function Apply(s: State, step: Step): (r: State)
    requires Enabled(s, step)
  {
    match step
    case Schedule(c) => Switched(s, s.table, c)
    case Create(c, t) => Enqueued(s, t)
    case Poke(c) => Poked(s, c)
    case Yield(c) => Switched(s, Queued(s.table, c), c)
    case Look(c) => AtPhase(s, c, if s.table.ready != [] then Found else Deciding)
    case IdleResume(c) => Switched(AtPhase(s, c, Top), Queued(s.table, c), c)
    case Halt(c) => AtPhase(s, c, Halted)
    case Interrupt(c) => AtPhase(s, c, Top)
    case TakeWakeup(c) =>
      var r := s.(pending := s.pending - {c});
      if s.phase[c] == Halted then AtPhase(r, c, Top) else r
    case Exit(c) => Switched(s, s.table, c)
    case Kill(c, t) => s.(table := Killed(s.table, t))
    case Acquire(c, i) => if s.sems[i].counter > 0 then Taken(s, i) else Blocked(s, c, i)
    case Release(c, i) => Signalled(s, i)
    case Sleep(c, k) =>
      Switched(s.(bells := s.bells[..k] + [s.table.active[c]] + s.bells[k..]), s.table, c)
    case Ring(c) => Enqueued(s.(bells := s.bells[1..]), s.bells[0])
    case Press(c) => Pressed(s)
    case GetKey(c) =>
      if s.sems[KEYS].counter == 0 then Blocked(s, c, KEYS)
      else Taken(s.(keys := if s.keys > 0 then s.keys - 1 else 0), KEYS)
    case Fetch(c) =>
      s.(holders := s.holders - {s.table.active[c]}, keys := if s.keys > 0 then s.keys - 1 else 0)
  }

  /** The state before any core has scheduled: no thread anywhere, no key. */
  ghost predicate Initial(s: State) {
    s.table.active == map[] && s.table.ready == [] && s.table.dying == {} && s.bells == [] &&
    |s.sems| > KEYS && s.sems[KEYS].counter == 0 && (forall i :: 0 <= i < |s.sems| ==> s.sems[i].waiting == []) &&
    |s.phase| == s.table.cores && (forall c :: 0 <= c < |s.phase| ==> s.phase[c] == Top) &&
    s.pending == {} && s.announced == None && s.keys == 0 && s.holders == {}
  }

  ghost predicate Run(s: State, steps: seq<Step>, r: State)
    decreases |steps|
  {
    if steps == [] then s == r else Enabled(s, steps[0]) && Run(Apply(s, steps[0]), steps[1..], r)
  }

  // ---- where threads are ----

  /** On how many of the first n cores a thread runs. */
  function Running(active: map<nat, Thread>, n: nat, t: Thread): (k: nat) {
    if n == 0 then 0
    else Running(active, n - 1, t) + if n - 1 in active && active[n - 1] == t then 1 else 0
  }

  function Waits(sems: seq<Gate>, t: Thread): (k: nat) {
    if sems == [] then 0 else multiset(sems[0].waiting)[t] + Waits(sems[1..], t)
  }

  function Held(table: Table, t: Thread): (k: nat) {
    Running(table.active, table.cores, t) + multiset(table.ready)[t]
  }

  /** How many places a thread is in: cores, the ready queue, semaphores, bells. */
  function Places(s: State, t: Thread): (k: nat) {
    Held(s.table, t) + Waits(s.sems, t) + multiset(s.bells)[t]
  }

  ghost predicate AllTasks(ts: seq<Thread>) {
    forall i :: 0 <= i < |ts| ==> ts[i].Task?
  }

  /** Idle threads run on their own core only and are never queued. */
  ghost predicate TableHomes(table: Table) {
    (forall c :: c in table.active ==> c < table.cores && (table.active[c].Idle? ==> table.active[c] == Idle(c))) &&
    AllTasks(table.ready)
  }

  ghost predicate Homes(s: State) {
    TableHomes(s.table) && AllTasks(s.bells) && forall i :: 0 <= i < |s.sems| ==> AllTasks(s.sems[i].waiting)
  }

  ghost predicate Partition(s: State) {
    Homes(s) && |s.phase| == s.table.cores && forall t: Thread :: t.Task? ==> Places(s, t) <= 1
  }
}
