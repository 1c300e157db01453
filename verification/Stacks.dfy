/**
 * Stacks with guard pages. Kernel stacks grow upwards from a fixed base, user
 * stacks downwards from the top of the user half; every slot is one page that
 * is never mapped, below the pages of the stack.
 */
module Stacks {
  import opened Powers
  import opened Bitmap
  import opened PageTables
  import opened PageRights
  import opened Paging
  import F = Frames

  const KERNEL_STACK_BASE: nat := 0xFFFF_C000_0000_0000
  const KERNEL_VMA: nat := 0xFFFF_FFFF_8000_0000
  const THREAD_STACK_PAGES: nat := 4
  const THREAD_STACK_SIZE: nat := THREAD_STACK_PAGES * PAGE_SIZE
  const STRIDE: nat := THREAD_STACK_SIZE + PAGE_SIZE

  const USER_STACK_TOP: nat := 0x7FFF_FFFF_F000
  const USER_STACK_PAGES: nat := 16
  const USER_STACK_SIZE: nat := USER_STACK_PAGES * PAGE_SIZE
  const USER_STRIDE: nat := USER_STACK_SIZE + PAGE_SIZE

  /** Page numbers of the two ends. */
  const KERNEL_FIRST: nat := 0xC_0000_0000
  const USER_END: nat := 0x7_FFFF_FFFF

  /** The first four gigabytes hold the identity map and program images. */
  const LOW_LIMIT: nat := 0x1_0000_0000

  /** Slots between the base and the kernel image, and between the top and the low memory. */
  const KERNEL_SLOTS: nat := (KERNEL_VMA - KERNEL_STACK_BASE) / STRIDE
  const USER_SLOTS: nat := (USER_STACK_TOP - LOW_LIMIT) / USER_STRIDE

  ghost predicate KernelGuard(q: nat) {
    (q - KERNEL_FIRST) % (THREAD_STACK_PAGES + 1) == 0
  }

  ghost predicate UserGuard(q: nat) {
    (USER_END - q) % (USER_STACK_PAGES + 1) == 0
  }

  /** A leaf that the kernel may write and user code may not touch. */
  predicate KernelWritable(e: nat) {
    IsPresent(e) && IsWritable(e) && !IsUser(e)
  }

  predicate UserWritable(e: nat) {
    IsPresent(e) && IsWritable(e) && IsUser(e)
  }

  /** Below the next slot all but the guards are mapped, from it on nothing is. */
  ghost predicate KernelArea(ts: Tables, root: nat, count: nat) {
    forall q {:trigger Entry(ts, root, q, 1)} :: KERNEL_FIRST <= q < KERNEL_FIRST + 5 * KERNEL_SLOTS ==>
      if q < KERNEL_FIRST + 5 * count && !KernelGuard(q) then KernelWritable(Entry(ts, root, q, 1))
      else !IsPresent(Entry(ts, root, q, 1))
  }

  /** Guards and everything below the last slot handed out are not mapped. */
  ghost predicate UserArea(ts: Tables, root: nat, count: nat) {
    forall q {:trigger Entry(ts, root, q, 1)} :: USER_END - 17 * USER_SLOTS <= q < USER_END ==>
      UserGuard(q) || q < USER_END - 17 * count ==> !IsPresent(Entry(ts, root, q, 1))
  }

  /** All pages of one user stack can be written by its task. */
  ghost predicate UserStack(ts: Tables, root: nat, i: nat) {
    forall q {:trigger Entry(ts, root, q, 1)} :: 0 <= q && USER_END - 17 * i - 16 <= q < USER_END - 17 * i ==>
      UserWritable(Entry(ts, root, q, 1))
  }

  /** The lowest page of the i-th user stack. */
  function UserFirst(i: nat): (q: nat) {
    if i < USER_SLOTS then USER_END - 17 * i - 16 else 0
  }

  /** A page of one of the two areas. */
  ghost predicate StackPage(q: nat) {
    KERNEL_FIRST <= q < KERNEL_FIRST + 5 * KERNEL_SLOTS || USER_END - 17 * USER_SLOTS <= q < USER_END
  }

  ghost predicate Mapped(ts: Tables, root: nat, q: nat) {
    StackPage(q) && IsPresent(Entry(ts, root, q, 1))
  }

  ghost function FrameOf(ts: Tables, root: nat, q: nat): (f: nat) {
    Address(Entry(ts, root, q, 1)) / PAGE_SIZE
  }

  /** Every mapped page of a stack has a frame of its own, from those set aside for stacks. */
  ghost predicate OwnFrames(ts: Tables, root: nat, owned: set<nat>) {
    && (forall q {:trigger Mapped(ts, root, q)} :: Mapped(ts, root, q) ==> FrameOf(ts, root, q) in owned)
    && (forall p, q {:trigger Mapped(ts, root, p), Mapped(ts, root, q)} ::
          Mapped(ts, root, p) && Mapped(ts, root, q) && p != q ==> FrameOf(ts, root, p) != FrameOf(ts, root, q))
  }

  /** All pages but those in the range keep frame and rights. */
  ghost predicate LeavesOutside(ts: Tables, us: Tables, root: nat, first: nat, n: nat) {
    forall q {:trigger Entry(us, root, q, 1)} :: 0 <= q < PAGES && !(first <= q < first + n) ==>
      Entry(us, root, q, 1) == Entry(ts, root, q, 1)
  }

  class Allocator {
    const pages: PageMap
    var nextSlot: nat
    var nextTop: nat
    ghost var kernelStacks: nat
    ghost var userStacks: nat
    ghost var owned: set<nat>

    ghost predicate Valid()
      reads this, pages, pages.frames, pages.frames.words
    {
      pages.Valid() && pages.frames.frameCount * PAGE_SIZE + 2 * PAGE_SIZE <= Pow2(52) &&
      kernelStacks <= KERNEL_SLOTS && nextSlot == KERNEL_STACK_BASE + STRIDE * kernelStacks &&
      userStacks <= USER_SLOTS && nextTop == USER_STACK_TOP - USER_STRIDE * userStacks &&
      KernelArea(pages.tables, pages.root, kernelStacks) && UserArea(pages.tables, pages.root, userStacks) &&
      OwnFrames(pages.tables, pages.root, owned) && owned <= pages.frames.live
    }

    /** Both areas start out unmapped. */
    constructor (pages: PageMap)
      requires pages.Valid() && pages.frames.frameCount * PAGE_SIZE + 2 * PAGE_SIZE <= Pow2(52)
      requires KernelArea(pages.tables, pages.root, 0) && UserArea(pages.tables, pages.root, 0)
      ensures Valid() && this.pages == pages && kernelStacks == userStacks == 0
    {
      hide KernelArea, UserArea, OwnFrames, PageMap.Valid, Pow2;
      this.pages := pages;
      nextSlot, nextTop := KERNEL_STACK_BASE, USER_STACK_TOP;
      kernelStacks, userStacks, owned := 0, 0, {};
      new;
      NothingMapped(pages.tables, pages.root);
    }

    /**
     * Maps a fresh kernel stack and returns its top. False stands for the panic
     * when memory runs out, after which nothing runs any more.
     */
    method Allocate() returns (ok: bool, top: nat)
      requires Valid() && kernelStacks < KERNEL_SLOTS
      modifies this`nextSlot, this`kernelStacks, this`owned, pages`tables, pages`tableCount, pages`at
      modifies pages.frames`freeFrames, pages.frames`nextIndex, pages.frames`live, pages.frames.words
      ensures ok ==> Valid() && kernelStacks == old(kernelStacks) + 1 && userStacks == old(userStacks)
      ensures ok ==> top == KERNEL_STACK_BASE + STRIDE * kernelStacks
      ensures !ok ==> F.NoRun(pages.frames.Taken(), pages.frames.reachable, 0, THREAD_STACK_PAGES)
      ensures LeavesOutside(old(pages.tables), pages.tables, pages.root, KERNEL_FIRST + 5 * old(kernelStacks) + 1, THREAD_STACK_PAGES)
    {
      hide Bits, F.NoRun, F.LowestRun, F.Frames, F.FrameAllocator.Valid, F.FrameAllocator.Taken, F.FrameAllocator.HandedOut,
        PageMap.Valid, Tree, UserPaths, Entry, KernelArea, UserArea, RangeSet, RangeGranted, FlagsFor, Pow2, PageCount, Page,
        OwnFrames, LeavesOutside, FramesFrom;
      var slot := nextSlot;
      ghost var i := kernelStacks;
      ghost var first := KERNEL_FIRST + 5 * i + 1;
      nextSlot := nextSlot + STRIDE;
      NothingOutside(pages.tables, pages.root, first, THREAD_STACK_PAGES);
      var frames := Reserve(THREAD_STACK_PAGES);
      if frames == 0 {
        return false, 0;
      }
      KernelSlot(i);
      ghost var ts := pages.tables;
      ghost var flags := FlagsFor(READ_WRITE, KERNEL_ONLY, NORMAL, pages.noExecuteAvailable);
      ghost var added := F.Frames(frames / PAGE_SIZE, THREAD_STACK_PAGES);
      var mapped, done := pages.Map(slot + PAGE_SIZE, frames, THREAD_STACK_SIZE, READ_WRITE, KERNEL_ONLY, NORMAL);
      RangeOutside(ts, pages.tables, pages.root, first, done, THREAD_STACK_PAGES, frames, flags);
      if !mapped {
        F.LongerRun(pages.frames.Taken(), pages.frames.reachable, THREAD_STACK_PAGES);
        return false, 0;
      }
      kernelStacks := kernelStacks + 1;
      KernelMapped(ts, pages.tables, pages.root, i, frames, pages.noExecuteAvailable);
      UserUntouched(ts, pages.tables, pages.root, i, userStacks, frames, flags);
      OwnMapped(ts, pages.tables, pages.root, owned, first, THREAD_STACK_PAGES, THREAD_STACK_PAGES, frames, KERNEL_ONLY, pages.noExecuteAvailable);
      owned := owned + added;
      return true, slot + STRIDE;
    }

    /** Frames for a stack, from the allocator the page map uses. */
    method Reserve(count: nat) returns (address: nat)
      requires pages.Valid() && pages.frames.frameCount * PAGE_SIZE + 2 * PAGE_SIZE <= Pow2(52)
      modifies pages.frames`freeFrames, pages.frames`nextIndex, pages.frames`live, pages.frames.words
      ensures pages.Valid() && old(pages.frames.live) <= pages.frames.live
      ensures address != 0 ==> address % PAGE_SIZE == 0 && address + count * PAGE_SIZE + 2 * PAGE_SIZE <= Pow2(52)
      ensures address != 0 ==> old(pages.frames.live) !! F.Frames(address / PAGE_SIZE, count) && F.Frames(address / PAGE_SIZE, count) <= pages.frames.live
      ensures address != 0 ==> FramesFrom(address, count)
      ensures address == 0 && count > 0 ==> F.NoRun(pages.frames.Taken(), pages.frames.reachable, 0, count)
    {
      hide Bits, F.NoRun, F.LowestRun, F.Frames, F.FrameAllocator.Valid, F.FrameAllocator.Taken, F.FrameAllocator.HandedOut, Tree, UserPaths, Entry, Pow2, FramesFrom;
      address := pages.frames.Allocate(count);
      if address != 0 {
        assert address == address / PAGE_SIZE * PAGE_SIZE;
        RunFramesFit(address / PAGE_SIZE, count, pages.frames.frameCount);
      }
    }

    /** Hands out the next user stack, or 0 without memory; the slot is spent either way. */
    method AllocateStack() returns (top: nat)
      requires Valid() && userStacks < USER_SLOTS
      modifies this`nextTop, this`userStacks, this`owned, pages`tables, pages`tableCount, pages`at
      modifies pages.frames`freeFrames, pages.frames`nextIndex, pages.frames`live, pages.frames.words
      ensures Valid() && userStacks == old(userStacks) + 1 && kernelStacks == old(kernelStacks)
      ensures top == 0 || top == USER_STACK_TOP - USER_STRIDE * old(userStacks)
      ensures top == 0 ==> F.NoRun(pages.frames.Taken(), pages.frames.reachable, 0, USER_STACK_PAGES)
      ensures top != 0 ==> UserStack(pages.tables, pages.root, old(userStacks))
      ensures LeavesOutside(old(pages.tables), pages.tables, pages.root, UserFirst(old(userStacks)), USER_STACK_PAGES)
    {
      hide Bits, F.NoRun, F.LowestRun, F.Frames, F.FrameAllocator.Valid, F.FrameAllocator.Taken, F.FrameAllocator.HandedOut,
        PageMap.Valid, Tree, UserPaths, Entry, KernelArea, UserArea, RangeSet, RangeGranted, FlagsFor, Pow2, PageCount, Page,
        UserStack, OwnFrames, LeavesOutside, FramesFrom;
      top := nextTop;
      ghost var i := userStacks;
      UserSlot(i);
      ghost var first := USER_END - 17 * i - 16;
      nextTop := nextTop - USER_STRIDE;
      userStacks := userStacks + 1;
      NothingOutside(pages.tables, pages.root, first, USER_STACK_PAGES);
      var frames := Reserve(USER_STACK_PAGES);
      if frames == 0 {
        UserSkipped(pages.tables, pages.root, i);
        return 0;
      }
      ghost var ts := pages.tables;
      ghost var added := F.Frames(frames / PAGE_SIZE, USER_STACK_PAGES);
      var mapped, done := pages.Map(top - USER_STACK_SIZE, frames, USER_STACK_SIZE, READ_WRITE, USER_TOO, NORMAL);
      ghost var flags := FlagsFor(READ_WRITE, USER_TOO, NORMAL, pages.noExecuteAvailable);
      UserMapped(ts, pages.tables, pages.root, i, done, frames, flags);
      KernelUntouched(ts, pages.tables, pages.root, i, done, kernelStacks, frames, flags);
      RangeOutside(ts, pages.tables, pages.root, first, done, USER_STACK_PAGES, frames, flags);
      OwnMapped(ts, pages.tables, pages.root, owned, first, done, USER_STACK_PAGES, frames, USER_TOO, pages.noExecuteAvailable);
      owned := owned + added;
      if !mapped {
        F.LongerRun(pages.frames.Taken(), pages.frames.reachable, USER_STACK_PAGES);
        return 0;
      }
      UserStackWritable(ts, pages.tables, pages.root, i, frames, pages.noExecuteAvailable);
    }

    /** Whether a fault hit a guard: within the slots handed out, exactly the pages that are not mapped. */
    predicate IsGuardPage(address: nat)
      requires Valid() && address < ADDRESS_SPACE
      reads this, pages, pages.frames, pages.frames.words
      ensures IsGuardPage(address) ==> KERNEL_STACK_BASE <= address < nextSlot
      ensures KERNEL_STACK_BASE <= address < nextSlot ==>
        (IsGuardPage(address) <==> !IsPresent(pages.Leaf(Page(address)))) &&
        (!IsGuardPage(address) ==> KernelWritable(pages.Leaf(Page(address))))
    {
      KernelAddress(address, pages.tables, pages.root, kernelStacks);
      if address < KERNEL_STACK_BASE || address >= nextSlot then false
      else (address - KERNEL_STACK_BASE) % STRIDE < PAGE_SIZE
    }
  }

  // ----- Slot arithmetic

  lemma {:induction false} KernelSlot(i: nat)
    requires i < KERNEL_SLOTS
    ensures var v := KERNEL_STACK_BASE + STRIDE * i + PAGE_SIZE;
      && Page(v) == KERNEL_FIRST + 5 * i + 1 && PageCount(v, THREAD_STACK_SIZE) == 4
      && v + THREAD_STACK_SIZE + PAGE_SIZE <= ADDRESS_SPACE && ADDRESS_SPACE - HALF <= v
  {
    var v := KERNEL_STACK_BASE + STRIDE * i + PAGE_SIZE;
    var p := 0xF_FFFC_0000_0000 + 5 * i + 1;
    Euclid(v, PAGE_SIZE, p, 0);
    Euclid(p, PAGES, 0xFFFF, KERNEL_FIRST + 5 * i + 1);
    Euclid(v + THREAD_STACK_SIZE - 1, PAGE_SIZE, p + 3, PAGE_SIZE - 1);
  }

  lemma {:induction false} UserSlot(i: nat)
    requires i < USER_SLOTS
    ensures USER_STRIDE * (i + 1) <= USER_STACK_TOP
    ensures var v := USER_STACK_TOP - USER_STRIDE * i - USER_STACK_SIZE;
      && Page(v) == USER_END - 17 * i - 16 && PageCount(v, USER_STACK_SIZE) == 16 && v + USER_STACK_SIZE <= HALF
  {
    var v := USER_STACK_TOP - USER_STRIDE * i - USER_STACK_SIZE;
    var p := USER_END - 17 * i - 16;
    Euclid(v, PAGE_SIZE, p, 0);
    Euclid(p, PAGES, 0, p);
    Euclid(v + USER_STACK_SIZE - 1, PAGE_SIZE, p + 15, PAGE_SIZE - 1);
  }

  /** An address below the next slot is on a guard page exactly when its offset in the slot says so. */
  lemma {:induction false} KernelAddress(a: nat, ts: Tables, root: nat, count: nat)
    requires a < ADDRESS_SPACE && count <= KERNEL_SLOTS && KernelArea(ts, root, count)
    ensures KERNEL_STACK_BASE <= a < KERNEL_STACK_BASE + STRIDE * count ==>
      var e := Entry(ts, root, Page(a), 1);
      if (a - KERNEL_STACK_BASE) % STRIDE < PAGE_SIZE then !IsPresent(e) else KernelWritable(e)
  {
    hide Entry, IsPresent, KernelWritable;
    if KERNEL_STACK_BASE <= a < KERNEL_STACK_BASE + STRIDE * count {
      var i, x := (a - KERNEL_STACK_BASE) / STRIDE, (a - KERNEL_STACK_BASE) % STRIDE;
      var j, y := x / PAGE_SIZE, x % PAGE_SIZE;
      var p := 0xF_FFFC_0000_0000 + 5 * i + j;
      Euclid(a, PAGE_SIZE, p, y);
      Euclid(p, PAGES, 0xFFFF, KERNEL_FIRST + 5 * i + j);
      Euclid(5 * i + j, 5, i, j);
      assert i < count;
      var e := Entry(ts, root, KERNEL_FIRST + 5 * i + j, 1);
    }
  }

  // ----- What mapping one slot does to the two areas

  lemma {:induction false} KernelMapped(ts: Tables, us: Tables, root: nat, i: nat, source: nat, nx: bool)
    requires i < KERNEL_SLOTS && KernelArea(ts, root, i) && source % PAGE_SIZE == 0 && FramesFrom(source, 4)
    requires RangeSet(ts, us, root, KERNEL_FIRST + 5 * i + 1, 4, PageStart(source), FlagsFor(READ_WRITE, KERNEL_ONLY, NORMAL, nx))
    ensures KernelArea(us, root, i + 1)
  {
    hide Entry, FlagsFor, Or, FramesFrom, IsPresent, IsWritable, IsUser, Address;
    forall q | KERNEL_FIRST <= q < KERNEL_FIRST + 5 * KERNEL_SLOTS
      ensures if q < KERNEL_FIRST + 5 * (i + 1) && !KernelGuard(q) then KernelWritable(Entry(us, root, q, 1))
              else !IsPresent(Entry(us, root, q, 1))
    {
      var first := KERNEL_FIRST + 5 * i + 1;
      var e, f := Entry(ts, root, q, 1), Entry(us, root, q, 1);
      if first <= q < first + 4 {
        Euclid(q - KERNEL_FIRST, 5, i, q - first + 1);
        NewLeaf(ts, us, root, first, 4, source, KERNEL_ONLY, nx, q);
      } else if q == first - 1 {
        Euclid(q - KERNEL_FIRST, 5, i, 0);
      }
    }
  }

  lemma {:induction false} UserUntouched(ts: Tables, us: Tables, root: nat, i: nat, count: nat, source: nat, flags: nat)
    requires i < KERNEL_SLOTS && UserArea(ts, root, count)
    requires RangeSet(ts, us, root, KERNEL_FIRST + 5 * i + 1, 4, source, flags)
    ensures UserArea(us, root, count)
  {
    hide Entry, IsPresent, Or;
    forall q | USER_END - 17 * USER_SLOTS <= q < USER_END
      ensures UserGuard(q) || q < USER_END - 17 * count ==> !IsPresent(Entry(us, root, q, 1))
    {
      assert Entry(us, root, q, 1) == Entry(ts, root, q, 1);
    }
  }

  lemma {:induction false} UserSkipped(ts: Tables, root: nat, i: nat)
    requires UserArea(ts, root, i)
    ensures UserArea(ts, root, i + 1)
  {
    hide Entry, IsPresent, UserGuard;
  }

  lemma {:induction false} UserMapped(ts: Tables, us: Tables, root: nat, i: nat, done: nat, source: nat, flags: nat)
    requires i < USER_SLOTS && UserArea(ts, root, i) && done <= 16
    requires RangeSet(ts, us, root, USER_END - 17 * i - 16, done, PageStart(source), flags)
    ensures UserArea(us, root, i + 1)
  {
    hide Entry, IsPresent, Or;
    forall q | USER_END - 17 * USER_SLOTS <= q < USER_END
      ensures UserGuard(q) || q < USER_END - 17 * (i + 1) ==> !IsPresent(Entry(us, root, q, 1))
    {
      var first := USER_END - 17 * i - 16;
      var e, f := Entry(ts, root, q, 1), Entry(us, root, q, 1);
      if first <= q < first + 16 {
        Euclid(USER_END - q, 17, i, first + 16 - q);
      }
    }
  }

  lemma {:induction false} KernelUntouched(ts: Tables, us: Tables, root: nat, i: nat, done: nat, count: nat, source: nat, flags: nat)
    requires i < USER_SLOTS && KernelArea(ts, root, count) && done <= 16
    requires RangeSet(ts, us, root, USER_END - 17 * i - 16, done, PageStart(source), flags)
    ensures KernelArea(us, root, count)
  {
    hide Entry, IsPresent, Or, KernelWritable, KernelGuard;
    forall q | KERNEL_FIRST <= q < KERNEL_FIRST + 5 * KERNEL_SLOTS
      ensures if q < KERNEL_FIRST + 5 * count && !KernelGuard(q) then KernelWritable(Entry(us, root, q, 1))
              else !IsPresent(Entry(us, root, q, 1))
    {
      assert Entry(us, root, q, 1) == Entry(ts, root, q, 1);
    }
  }

  lemma {:induction false} UserStackWritable(ts: Tables, us: Tables, root: nat, i: nat, source: nat, nx: bool)
    requires i < USER_SLOTS && source % PAGE_SIZE == 0 && FramesFrom(source, 16)
    requires RangeSet(ts, us, root, USER_END - 17 * i - 16, 16, PageStart(source), FlagsFor(READ_WRITE, USER_TOO, NORMAL, nx))
    ensures UserStack(us, root, i)
  {
    hide Entry, FlagsFor, RangeSet, FramesFrom, IsPresent, IsWritable, IsUser, Address;
    forall q | USER_END - 17 * i - 16 <= q < USER_END - 17 * i
      ensures UserWritable(Entry(us, root, q, 1))
    {
      NewLeaf(ts, us, root, USER_END - 17 * i - 16, 16, source, USER_TOO, nx, q);
    }
  }

  /** A page that was just mapped has the frame and the rights asked for. */
  lemma {:induction false} NewLeaf(ts: Tables, us: Tables, root: nat, first: nat, n: nat, source: nat, privilege: Privilege, nx: bool, q: nat)
    requires RangeSet(ts, us, root, first, n, source, FlagsFor(READ_WRITE, privilege, NORMAL, nx))
    requires first <= q < first + n && q < PAGES && FramesFrom(source, n)
    ensures var e := Entry(us, root, q, 1);
      IsPresent(e) && IsWritable(e) && (IsUser(e) <==> privilege == USER_TOO) && Address(e) == source + (q - first) * PAGE_SIZE
  {
    hide Entry, FlagsFor, FrameAddress, Or, IsPresent, IsWritable, IsUser, IsNoExecute, Address;
    assert FrameAt(source, q - first);
    LeafBits(source + (q - first) * PAGE_SIZE, READ_WRITE, privilege, NORMAL, nx);
  }

  // ----- Frames

  lemma {:induction false} RunFramesFit(first: nat, count: nat, frameCount: nat)
    requires first + count <= frameCount && frameCount * PAGE_SIZE <= Pow2(52)
    ensures FramesFrom(first * PAGE_SIZE, count)
  {
    hide FrameAddress, Pow2;
    forall i | 0 <= i < count
      ensures FrameAt(first * PAGE_SIZE, i)
    {
      FreshFrame(first + i, frameCount);
      assert (first + i) * PAGE_SIZE == first * PAGE_SIZE + i * PAGE_SIZE;
    }
  }

  lemma {:induction false} NothingMapped(ts: Tables, root: nat)
    requires KernelArea(ts, root, 0) && UserArea(ts, root, 0)
    ensures OwnFrames(ts, root, {})
  {
    hide Entry, IsPresent, KernelWritable, KernelGuard, UserGuard, Address;
    forall q: nat ensures !Mapped(ts, root, q) {
      var e := Entry(ts, root, q, 1);
    }
  }

  lemma {:induction false} NothingOutside(ts: Tables, root: nat, first: nat, n: nat)
    ensures LeavesOutside(ts, ts, root, first, n)
  {
  }

  lemma {:induction false} RangeOutside(ts: Tables, us: Tables, root: nat, first: nat, done: nat, n: nat, source: nat, flags: nat)
    requires RangeSet(ts, us, root, first, done, PageStart(source), flags) && done <= n
    ensures LeavesOutside(ts, us, root, first, n)
  {
    hide Entry, Or;
  }

  /** Pages mapped to frames nobody had keep every stack page in a frame of its own. */
  lemma {:induction false} OwnMapped(ts: Tables, us: Tables, root: nat, owned: set<nat>, first: nat, n: nat, count: nat, source: nat, privilege: Privilege, nx: bool)
    requires OwnFrames(ts, root, owned) && n <= count && source % PAGE_SIZE == 0 && FramesFrom(source, count)
    requires RangeSet(ts, us, root, first, n, PageStart(source), FlagsFor(READ_WRITE, privilege, NORMAL, nx))
    requires owned !! F.Frames(source / PAGE_SIZE, count)
    ensures OwnFrames(us, root, owned + F.Frames(source / PAGE_SIZE, count))
  {
    hide Entry, FlagsFor, F.Frames, RangeSet, FramesFrom, Address, IsPresent, Mapped, FrameOf;
    forall q: nat | Mapped(us, root, q)
      ensures FrameOf(us, root, q) in owned + F.Frames(source / PAGE_SIZE, count)
    {
      FrameAfter(ts, us, root, first, n, count, source, privilege, nx, q);
    }
    forall p: nat, q: nat | Mapped(us, root, p) && Mapped(us, root, q) && p != q
      ensures FrameOf(us, root, p) != FrameOf(us, root, q)
    {
      FrameAfter(ts, us, root, first, n, count, source, privilege, nx, p);
      FrameAfter(ts, us, root, first, n, count, source, privilege, nx, q);
    }
  }

  lemma {:induction false} FrameAfter(ts: Tables, us: Tables, root: nat, first: nat, n: nat, count: nat, source: nat, privilege: Privilege, nx: bool, q: nat)
    requires Mapped(us, root, q) && n <= count && source % PAGE_SIZE == 0 && FramesFrom(source, count)
    requires RangeSet(ts, us, root, first, n, PageStart(source), FlagsFor(READ_WRITE, privilege, NORMAL, nx))
    ensures first <= q < first + n ==>
      FrameOf(us, root, q) == source / PAGE_SIZE + (q - first) && FrameOf(us, root, q) in F.Frames(source / PAGE_SIZE, count)
    ensures !(first <= q < first + n) ==> Mapped(ts, root, q) && FrameOf(us, root, q) == FrameOf(ts, root, q)
  {
    hide Entry, FlagsFor, Address, IsPresent, IsWritable, IsUser, Or;
    var e := Entry(us, root, q, 1);
    if first <= q < first + n {
      assert FramesFrom(source, n);
      NewLeaf(ts, us, root, first, n, source, privilege, nx, q);
      Euclid(source + (q - first) * PAGE_SIZE, PAGE_SIZE, source / PAGE_SIZE + (q - first), 0);
    }
  }

  /** Two pages of stacks, of one stack or of two, never share a frame. */
  lemma {:induction false} NoSharedFrame(stacks: Allocator, p: nat, q: nat)
    requires stacks.Valid() && p != q
    requires Mapped(stacks.pages.tables, stacks.pages.root, p) && Mapped(stacks.pages.tables, stacks.pages.root, q)
    ensures FrameOf(stacks.pages.tables, stacks.pages.root, p) != FrameOf(stacks.pages.tables, stacks.pages.root, q)
  {
    hide Mapped, FrameOf, KernelArea, UserArea, PageMap.Valid;
  }
}
