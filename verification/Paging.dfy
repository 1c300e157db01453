/** The kernel's page tables, fed by the frame allocator. */
module Paging {
  import opened Options
  import opened Powers
  import opened Bitmap
  import opened PageTables
  import opened PageRights
  import F = Frames

  datatype Access = READ_ONLY | READ_WRITE | READ_EXECUTE
  datatype Caching = NORMAL | DISABLED
  datatype Privilege = KERNEL_ONLY | USER_TOO

  const ADDRESS_SPACE: nat := 0x1_0000_0000_0000_0000
  const HALF: nat := 0x8000_0000_0000

  function FlagsFor(access: Access, privilege: Privilege, caching: Caching, nx: bool): (flags: nat) {
    var w := if access == READ_WRITE then Or(PRESENT, WRITABLE) else PRESENT;
    var x := if access != READ_EXECUTE && nx then Or(w, NO_EXECUTE) else w;
    var u := if privilege == USER_TOO then Or(x, USER) else x;
    if caching == DISABLED then Or(u, CACHE_DISABLE) else u
  }

  lemma {:induction false} FlagsForBits(access: Access, privilege: Privilege, caching: Caching, nx: bool, i: nat)
    ensures Bit(FlagsFor(access, privilege, caching, nx), i) <==>
      || i == 0
      || (i == 1 && access == READ_WRITE)
      || (i == 63 && access != READ_EXECUTE && nx)
      || (i == 2 && privilege == USER_TOO)
      || (i == 4 && caching == DISABLED)
  {
    hide Bit, Or, Pow2;
    FlagBits(i);
    var w := if access == READ_WRITE then Or(PRESENT, WRITABLE) else PRESENT;
    OrBit(PRESENT, WRITABLE, i);
    var x := if access != READ_EXECUTE && nx then Or(w, NO_EXECUTE) else w;
    OrBit(w, NO_EXECUTE, i);
    var u := if privilege == USER_TOO then Or(x, USER) else x;
    OrBit(x, USER, i);
    OrBit(u, CACHE_DISABLE, i);
  }

  /** A leaf says what was asked for: this frame, these rights, nothing else. */
  lemma {:induction false} LeafBits(source: nat, access: Access, privilege: Privilege, caching: Caching, nx: bool)
    requires FrameAddress(source)
    ensures var leaf := Or(source, FlagsFor(access, privilege, caching, nx));
      && IsPresent(leaf) && Address(leaf) == source
      && (IsWritable(leaf) <==> access == READ_WRITE)
      && (IsNoExecute(leaf) <==> access != READ_EXECUTE && nx)
      && (IsUser(leaf) <==> privilege == USER_TOO)
      && (IsUncached(leaf) <==> caching == DISABLED)
  {
    hide Bit, Or, And, Pow2, FlagsFor, FrameAddress;
    var flags := FlagsFor(access, privilege, caching, nx);
    LeafBit(source, access, privilege, caching, nx, 0);
    LeafBit(source, access, privilege, caching, nx, 1);
    LeafBit(source, access, privilege, caching, nx, 2);
    LeafBit(source, access, privilege, caching, nx, 4);
    LeafBit(source, access, privilege, caching, nx, 63);
    forall i: nat | Bit(flags, i)
      ensures i < 12 || i >= 52
    {
      FlagsForBits(access, privilege, caching, nx, i);
    }
    AddressOfOr(source, flags);
  }

  lemma {:induction false} LeafBit(source: nat, access: Access, privilege: Privilege, caching: Caching, nx: bool, i: nat)
    requires FrameAddress(source) && (i < 12 || i >= 52)
    ensures Bit(Or(source, FlagsFor(access, privilege, caching, nx)), i) <==>
      || i == 0
      || (i == 1 && access == READ_WRITE)
      || (i == 63 && access != READ_EXECUTE && nx)
      || (i == 2 && privilege == USER_TOO)
      || (i == 4 && caching == DISABLED)
  {
    hide Bit, Or, FlagsFor, FrameAddress;
    OrBit(source, FlagsFor(access, privilege, caching, nx), i);
    FlagsForBits(access, privilege, caching, nx, i);
    if Bit(source, i) { FrameBits(source, i); }
  }

  /** What is granted carries exactly the frame and the rights of the leaf. */
  lemma {:induction false} AskedBits(leaf: nat)
    requires IsPresent(leaf)
    ensures IsPresent(Asked(leaf)) && Address(Asked(leaf)) == Address(leaf)
    ensures IsWritable(Asked(leaf)) == IsWritable(leaf) && IsUser(Asked(leaf)) == IsUser(leaf)
    ensures IsNoExecute(Asked(leaf)) == IsNoExecute(leaf)
  {
    hide Bit, Or, And, Pow2, Rights;
    AskedBit(leaf, 0);
    AskedBit(leaf, 1);
    AskedBit(leaf, 2);
    AskedBit(leaf, 63);
    forall i: nat
      ensures Bit(Address(Asked(leaf)), i) == Bit(Address(leaf), i)
    {
      AskedBit(leaf, i);
      AndBit(Asked(leaf), ADDRESS_MASK, i);
      AndBit(leaf, ADDRESS_MASK, i);
      SpanBit(12, 52, i);
    }
    BitsDecide(Address(Asked(leaf)), Address(leaf));
  }

  lemma {:induction false} AskedBit(leaf: nat, i: nat)
    requires IsPresent(leaf)
    ensures Bit(Asked(leaf), i) <==> Bit(leaf, i) && (i < 3 || i == 63 || 12 <= i < 52)
  {
    hide Bit, Or, And, Pow2, Rights;
    var a, b, c := And(Rights(), leaf), And(leaf, NO_EXECUTE), And(leaf, ADDRESS_MASK);
    OrBit(Or(a, b), c, i);
    OrBit(a, b, i);
    AndBit(Rights(), leaf, i);
    AndBit(leaf, NO_EXECUTE, i);
    AndBit(leaf, ADDRESS_MASK, i);
    RightsBit(i);
    Pow2Bit(63, i);
    SpanBit(12, 52, i);
  }

  // ----- Virtual addresses

  /** The page number 48 bits of a virtual address select. */
  function Page(v: nat): (p: nat)
    ensures p < PAGES
  {
    v / PAGE_SIZE % PAGES
  }

  function IndexAt(v: nat, level: nat): (i: nat)
    ensures i < ENTRIES
  {
    v / (PAGE_SIZE * Scale(level)) % ENTRIES
  }

  lemma {:induction false} IndexAtIsIndex(v: nat, level: nat)
    requires 1 <= level <= 4
    ensures IndexAt(v, level) == Index(Page(v), level)
  {
    var p := v / PAGE_SIZE;
    if level == 1 {
      LowPages1(p);
    } else if level == 2 {
      assert v / (PAGE_SIZE * 512) == p / 512;
      LowPages2(p);
    } else if level == 3 {
      assert v / (PAGE_SIZE * 262144) == p / 262144;
      LowPages3(p);
    } else {
      assert v / (PAGE_SIZE * 134217728) == p / 134217728;
      LowPages4(p);
    }
  }

  // Dropping page numbers beyond 48 bits does not change any index.

  lemma {:induction false} LowPages1(p: nat)
    ensures p % ENTRIES == p % PAGES % ENTRIES
  {
    var c, d := p / PAGES, p % PAGES;
    Euclid(p, 512, 134217728 * c + d / 512, d % 512);
  }

  lemma {:induction false} LowPages2(p: nat)
    ensures p / 512 % ENTRIES == p % PAGES / 512 % ENTRIES
  {
    var a, b := p / 512, p % 512;
    var c, d := a / 134217728, a % 134217728;
    Euclid(p, PAGES, c, 512 * d + b);
    Euclid(512 * d + b, 512, d, b);
    Euclid(a, 512, 262144 * c + d / 512, d % 512);
  }

  lemma {:induction false} LowPages3(p: nat)
    ensures p / 262144 % ENTRIES == p % PAGES / 262144 % ENTRIES
  {
    var a, b := p / 262144, p % 262144;
    var c, d := a / 262144, a % 262144;
    Euclid(p, PAGES, c, 262144 * d + b);
    Euclid(262144 * d + b, 262144, d, b);
    Euclid(a, 512, 512 * c + d / 512, d % 512);
  }

  lemma {:induction false} LowPages4(p: nat)
    ensures p / 134217728 % ENTRIES == p % PAGES / 134217728 % ENTRIES
  {
    var a, b := p / 134217728, p % 134217728;
    var c, d := a / 512, a % 512;
    Euclid(p, PAGES, c, 134217728 * d + b);
    Euclid(134217728 * d + b, 134217728, d, b);
    Euclid(d, 512, 0, d);
  }

  /** Quotient and remainder are determined. */
  lemma {:induction false} Euclid(p: nat, m: nat, q: nat, r: nat)
    requires p == m * q + r && r < m
    ensures p / m == q && p % m == r
  {
    var x, y := p / m, p % m;
    assert p == m * x + y;
    if x < q {
      NextMultiple(m, x, q);
    } else if q < x {
      NextMultiple(m, q, x);
    }
  }

  lemma {:induction false} NextMultiple(m: nat, x: nat, q: nat)
    requires x < q
    ensures m * x + m <= m * q
  {
    assert m * q == m * x + m * (q - x);
    assert m * (q - x) == m + m * (q - x - 1);
  }

  /** The start of the page an address lies on. */
  function PageStart(x: nat): (r: nat)
    ensures r % PAGE_SIZE == 0 && r <= x < r + PAGE_SIZE
  {
    x / PAGE_SIZE * PAGE_SIZE
  }

  predicate Canonical(v: nat) {
    v < HALF || ADDRESS_SPACE - HALF <= v < ADDRESS_SPACE
  }

  /** Canonical addresses with the same page number lie on the same page. */
  lemma {:induction false} CanonicalPages(v: nat, w: nat)
    requires Canonical(v) && Canonical(w) && Page(v) == Page(w)
    ensures v / PAGE_SIZE == w / PAGE_SIZE
  {
  }

  /** Number of pages that Map's loop visits for a range. */
  function PageCount(virtual: nat, size: nat): (n: nat) {
    var end := virtual + size;
    if end <= PageStart(virtual) then 0 else (end - 1) / PAGE_SIZE + 1 - virtual / PAGE_SIZE
  }

  /** The range does not wrap, stays in one half, and its frames can stand in an entry. */
  predicate Mappable(virtual: nat, physical: nat, size: nat) {
    && virtual + size + PAGE_SIZE <= ADDRESS_SPACE
    && (virtual + size <= HALF || ADDRESS_SPACE - HALF <= virtual)
    && physical + size + 2 * PAGE_SIZE <= Pow2(52)
  }

  ghost predicate WithinHalf(p: nat, n: nat) {
    p + n <= HALF / PAGE_SIZE || ((ADDRESS_SPACE - HALF) / PAGE_SIZE <= p && p + n < ADDRESS_SPACE / PAGE_SIZE)
  }

  /** Consecutive pages within one half have consecutive page numbers. */
  lemma {:induction false} PageRun(p: nat, n: nat, i: nat)
    requires WithinHalf(p, n) && i < n
    ensures p % PAGES + n <= PAGES
    ensures (p + i) % PAGES == p % PAGES + i
  {
    if p + n > HALF / PAGE_SIZE {
      assert p / PAGES == 65535;
    }
  }

  lemma {:induction false} RangeWithinHalf(virtual: nat, physical: nat, size: nat)
    requires Mappable(virtual, physical, size) && PageCount(virtual, size) > 0
    ensures WithinHalf(virtual / PAGE_SIZE, PageCount(virtual, size))
  {
    hide Pow2;
  }

  lemma {:induction false} RangePages(virtual: nat, physical: nat, size: nat, i: nat)
    requires Mappable(virtual, physical, size) && i < PageCount(virtual, size)
    ensures Page(PageStart(virtual) + i * PAGE_SIZE) == Page(virtual) + i
    ensures Page(virtual) + PageCount(virtual, size) <= PAGES
  {
    hide Pow2, PageCount, Mappable, WithinHalf;
    RangeWithinHalf(virtual, physical, size);
    PageRun(virtual / PAGE_SIZE, PageCount(virtual, size), i);
  }

  /** Map's loop runs once for every page of the range. */
  lemma {:induction false} LoopCount(virtual: nat, size: nat, i: nat)
    ensures PageStart(virtual) + i * PAGE_SIZE < virtual + size <==> i < PageCount(virtual, size)
  {
  }

  /** The page the loop is at after n rounds, in 64-bit arithmetic. */
  function Visited(virtual: nat, n: nat): (page: nat) {
    (PageStart(virtual) + n * PAGE_SIZE) % ADDRESS_SPACE
  }

  /** The loop ends after exactly n rounds: the comparison with the end, which wraps too, fails then and not before. */
  ghost predicate StopsAfter(virtual: nat, size: nat, n: nat) {
    && Visited(virtual, n) >= (virtual + size) % ADDRESS_SPACE
    && forall m {:trigger Visited(virtual, m)} :: 0 <= m < n ==> Visited(virtual, m) < (virtual + size) % ADDRESS_SPACE
  }

  /** Map's loop ends after exactly the pages of the range if and only if the range ends a
      page or more below the top of the address space. */
  lemma {:induction false} LoopEnds(virtual: nat, size: nat)
    requires virtual < ADDRESS_SPACE && size < ADDRESS_SPACE
    ensures StopsAfter(virtual, size, PageCount(virtual, size)) <==> virtual + size + PAGE_SIZE <= ADDRESS_SPACE
  {
    hide StopsAfter;
    if virtual + size + PAGE_SIZE <= ADDRESS_SPACE {
      LoopEndsBelow(virtual, size);
    } else if virtual + size < ADDRESS_SPACE {
      LoopPassesTop(virtual, size);
    } else {
      LoopWrapped(virtual, size);
    }
  }

  lemma {:induction false} VisitedBelow(virtual: nat, n: nat)
    requires PageStart(virtual) + n * PAGE_SIZE < ADDRESS_SPACE
    ensures Visited(virtual, n) == PageStart(virtual) + n * PAGE_SIZE
  {
    Euclid(PageStart(virtual) + n * PAGE_SIZE, ADDRESS_SPACE, 0, PageStart(virtual) + n * PAGE_SIZE);
  }

  lemma {:induction false} LoopEndsBelow(virtual: nat, size: nat)
    requires virtual + size + PAGE_SIZE <= ADDRESS_SPACE
    ensures StopsAfter(virtual, size, PageCount(virtual, size))
  {
    hide Visited, PageCount;
    var n, end := PageCount(virtual, size), virtual + size;
    forall m: nat | m <= n
      ensures Visited(virtual, m) == PageStart(virtual) + m * PAGE_SIZE
    {
      LastRound(virtual, size, m);
      VisitedBelow(virtual, m);
    }
    forall m | 0 <= m < n
      ensures Visited(virtual, m) < end
    {
      LoopCount(virtual, size, m);
    }
    LoopCount(virtual, size, n);
    Euclid(end, ADDRESS_SPACE, 0, end);
  }

  lemma {:induction false} LastRound(virtual: nat, size: nat, m: nat)
    requires m <= PageCount(virtual, size)
    ensures PageStart(virtual) + m * PAGE_SIZE <= virtual + size + PAGE_SIZE - 1
  {
  }

  /** The range reaches into the last page: behind it the loop finds page zero, below the end. */
  lemma {:induction false} LoopPassesTop(virtual: nat, size: nat)
    requires ADDRESS_SPACE - PAGE_SIZE < virtual + size < ADDRESS_SPACE
    ensures !StopsAfter(virtual, size, PageCount(virtual, size))
  {
    hide Visited, PageCount;
    Euclid(virtual + size, ADDRESS_SPACE, 0, virtual + size);
    TopRound(virtual, size);
  }

  lemma {:induction false} TopRound(virtual: nat, size: nat)
    requires ADDRESS_SPACE - PAGE_SIZE < virtual + size < ADDRESS_SPACE
    ensures Visited(virtual, PageCount(virtual, size)) == 0
  {
    hide Visited;
    var n := PageCount(virtual, size);
    assert PageStart(virtual) + n * PAGE_SIZE == ADDRESS_SPACE;
    AtTop(virtual, n);
  }

  lemma {:induction false} AtTop(virtual: nat, n: nat)
    requires PageStart(virtual) + n * PAGE_SIZE == ADDRESS_SPACE
    ensures Visited(virtual, n) == 0
  {
    Euclid(ADDRESS_SPACE, ADDRESS_SPACE, 1, 0);
  }

  /** The end wraps: the loop ends at once, after one page, or never. */
  lemma {:induction false} LoopWrapped(virtual: nat, size: nat)
    requires virtual < ADDRESS_SPACE && size < ADDRESS_SPACE <= virtual + size
    ensures !StopsAfter(virtual, size, PageCount(virtual, size))
  {
    hide Visited, PageCount;
    var n, end := PageCount(virtual, size), virtual + size - ADDRESS_SPACE;
    Euclid(virtual + size, ADDRESS_SPACE, 1, end);
    var start := PageStart(virtual);
    VisitedBelow(virtual, 0);
    WrapRounds(virtual, size);
    if start + PAGE_SIZE == ADDRESS_SPACE {
      VisitedPage(virtual, n);
    } else {
      VisitedBelow(virtual, 1);
    }
  }

  lemma {:induction false} WrapRounds(virtual: nat, size: nat)
    requires virtual < ADDRESS_SPACE <= virtual + size
    ensures PageCount(virtual, size) >= 1
    ensures PageStart(virtual) + PAGE_SIZE < ADDRESS_SPACE ==> PageCount(virtual, size) >= 2
  {
  }

  /** Only page starts are visited. */
  lemma {:induction false} VisitedPage(virtual: nat, n: nat)
    ensures Visited(virtual, n) <= ADDRESS_SPACE - PAGE_SIZE
  {
    var x := virtual / PAGE_SIZE + n;
    var q, r := x / 0x10_0000_0000_0000, x % 0x10_0000_0000_0000;
    Euclid(PageStart(virtual) + n * PAGE_SIZE, ADDRESS_SPACE, q, r * PAGE_SIZE);
  }

  /** The last byte of the address space: after its page the loop goes on at page zero. */
  lemma {:induction false} LoopRunsOn()
    ensures !StopsAfter(ADDRESS_SPACE - 1, 0, PageCount(ADDRESS_SPACE - 1, 0))
    ensures Visited(ADDRESS_SPACE - 1, 1) == 0
  {
    LoopEnds(ADDRESS_SPACE - 1, 0);
  }

  // ----- The tables in memory

  /** Every table sits in a frame of its own that the allocator counts as handed out. */
  ghost predicate Backed(ts: Tables, live: set<nat>) {
    forall f {:trigger f in ts} :: f in ts ==> f % PAGE_SIZE == 0 && f / PAGE_SIZE in live
  }

  /** With no-execute available, no page is both writable and executable. */
  ghost predicate WriteXorExecute(ts: Tables, root: nat) {
    forall page {:trigger Entry(ts, root, page, 1)} :: 0 <= page < PAGES ==>
      var leaf := Entry(ts, root, page, 1); IsPresent(leaf) && IsWritable(leaf) ==> IsNoExecute(leaf)
  }

  lemma {:induction false} FreshFrame(first: nat, count: nat)
    requires first < count && count * PAGE_SIZE <= Pow2(52)
    ensures FrameAddress(first * PAGE_SIZE)
  {
    assert Pow2(6) == 64;
    assert Pow2(12) == PAGE_SIZE;
    assert first * PAGE_SIZE == Pow2(12) * first;
    AlignedIsDivisible(first * PAGE_SIZE, 12);
  }

  lemma {:induction false} NewTable(ts: Tables, live: set<nat>, c: nat)
    requires Backed(ts, live) && c % PAGE_SIZE == 0 && live !! F.Frames(c / PAGE_SIZE, 1)
    ensures c !in ts && Backed(ts[c := EmptyTable()], live + F.Frames(c / PAGE_SIZE, 1))
    ensures |ts[c := EmptyTable()]| == |ts| + 1
  {
    assert c / PAGE_SIZE in F.Frames(c / PAGE_SIZE, 1);
    assert ts[c := EmptyTable()].Keys == ts.Keys + {c};
  }

  /** A lone empty root maps nothing. */
  lemma {:induction false} EmptyTree(ts: Tables, root: nat, at: map<nat, Place>)
    requires ts == map[root := EmptyTable()] && at == map[root := Place(4, 0)] && FrameAddress(root)
    ensures Tree(ts, root, at) && UserPaths(ts, root)
    ensures forall page :: 0 <= page < PAGES ==> Entry(ts, root, page, 1) == 0 && !IsPresent(Entry(ts, root, page, 1))
  {
    hide IsPresent, FrameAddress, IsWritable, IsLarge, IsNoExecute, IsUser, Address, Index, Prefix;
    assert TableOk(ts, root, at, root);
    forall f, i | f in at && at[f].level > 1 && 0 <= i < ENTRIES
      ensures LinkOk(ts, at, f, i)
    {
      EmptyEntries(ts, root, i);
    }
    forall page | 0 <= page < PAGES
      ensures Entry(ts, root, page, 1) == 0 && !IsPresent(Entry(ts, root, page, 1)) && UserPath(ts, root, page)
    {
      EmptyEntries(ts, root, Index(page, 4));
      NoLeafBelow(ts, root, page, 4);
    }
  }

  class PageMap {
    const frames: F.FrameAllocator
    const noExecuteAvailable: bool
    var root: nat
    var tables: Tables
    var tableCount: nat
    ghost var at: map<nat, Place>

    ghost predicate Memory()
      reads this, frames, frames.words
    {
      && frames.Valid() && frames.frameCount * PAGE_SIZE <= Pow2(52)
      && Backed(tables, frames.live)
      && tableCount == |tables|
    }

    /** The tables are a tree over frames of their own, and grant what their leaves say. */
    ghost predicate Valid()
      reads this, frames, frames.words
    {
      && Memory()
      && Tree(tables, root, at) && UserPaths(tables, root)
      && (noExecuteAvailable ==> WriteXorExecute(tables, root))
    }

    /** The flat map that the tree stands for: the leaf of every page. */
    ghost function Leaf(page: nat): (e: nat)
      reads this
    {
      Entry(tables, root, page, 1)
    }

    /** Starts from an empty root table; without a free frame the kernel panics instead. */
    constructor (frames: F.FrameAllocator, noExecuteAvailable: bool)
      requires frames.Valid() && frames.frameCount * PAGE_SIZE <= Pow2(52)
      requires !F.NoRun(frames.Taken(), frames.reachable, 0, 1)
      modifies frames`freeFrames, frames`nextIndex, frames`live, frames.words
      ensures Valid() && this.frames == frames && this.noExecuteAvailable == noExecuteAvailable
      ensures forall page :: 0 <= page < PAGES ==> Leaf(page) == 0 && !IsPresent(Leaf(page))
    {
      hide Bits, F.NoRun, F.LowestRun, F.Frames, FrameAddress, IsPresent, IsWritable, IsNoExecute, Tree, UserPaths, F.FrameAllocator.Valid, F.FrameAllocator.HandedOut, F.FrameAllocator.Taken, Entry, EmptyTable, Pow2;
      this.frames := frames;
      this.noExecuteAvailable := noExecuteAvailable;
      root, tables, tableCount, at := 0, map[], 0, map[];
      new;
      root := AllocateTable();
      at := map[root := Place(4, 0)];
      assert tables == map[root := EmptyTable()];
      EmptyTree(tables, root, at);
    }

    method AllocateTable() returns (c: nat)
      requires Memory()
      modifies this`tables, this`tableCount, frames`freeFrames, frames`nextIndex, frames`live, frames.words
      ensures Memory()
      ensures c == 0 <==> F.NoRun(old(frames.Taken()), frames.reachable, 0, 1)
      ensures old(frames.live) <= frames.live
      ensures c == 0 ==> tables == old(tables) && frames.Taken() == old(frames.Taken())
      ensures c != 0 ==> c !in old(tables) && FrameAddress(c) && tables == old(tables)[c := EmptyTable()]
    {
      hide Bits, F.NoRun, F.LowestRun, FrameAddress, F.FrameAllocator.Valid, F.FrameAllocator.HandedOut, F.FrameAllocator.Taken, F.Frames, Backed, EmptyTable, Pow2;
      c := frames.Allocate(1);
      if c == 0 { return; }
      FreshFrame(c / PAGE_SIZE, frames.frameCount);
      NewTable(tables, old(frames.live), c);
      tables := tables[c := EmptyTable()];
      tableCount := tableCount + 1;
    }

    // ----- Descend

    /** Creates the table behind an entry that is not present yet; false without memory. */
    method EnsureTable(v: nat, level: nat, f: nat) returns (ok: bool)
      requires Valid() && 2 <= level <= 4 && TableFor(tables, root, Page(v), level) == Some(f)
      modifies this`tables, this`tableCount, this`at, frames`freeFrames, frames`nextIndex, frames`live, frames.words
      ensures Valid() && LeavesSame(old(tables), tables, root)
      ensures forall k :: 1 <= k <= 4 && k > level ==> Entry(tables, root, Page(v), k) == Entry(old(tables), root, Page(v), k)
      ensures ok ==> TableFor(tables, root, Page(v), level) == Some(f) && IsPresent(Entry(tables, root, Page(v), level))
      ensures !ok ==> F.NoRun(frames.Taken(), frames.reachable, 0, 1)
      ensures old(frames.live) <= frames.live && NoneOpened(old(tables), tables, root)
    {
      hide Bits, F.NoRun, F.FrameAllocator.Valid, F.FrameAllocator.Taken, Tree, UserPaths, WriteXorExecute, FrameAddress, NoneOpened,
        IsPresent, IsUser, IsWritable, LeavesSame, OneEntry, TableFor, Page, And, LinkEntryOf, Backed, Linked, Scale, SamePath, Pow2, EmptyTable;
      var i := IndexAt(v, level);
      var page := Page(v);
      IndexAtIsIndex(v, level);
      TableWhole(tables, root, at, page, level, f);
      MaskIsPresent(tables[f][i]);
      SelfSame(tables, root);
      SelfOpensNone(tables, root);
      if And(tables[f][i], PRESENT) == 0 {
        ghost var ts := tables;
        var created := AllocateTable();
        if created == 0 { return false; }
        LinkStep(ts, root, at, page, level, f, created);
        LinkEntryBits(created);
        EntriesAbove(ts, Linked(ts, f, i, created, LinkEntryOf(created)), root, page, level, LinkEntryOf(created));
        SameRights(ts, Linked(ts, f, i, created, LinkEntryOf(created)), root);
        LinkOpensNone(ts, Linked(ts, f, i, created, LinkEntryOf(created)), root, page, level, LinkEntryOf(created));
        LinkedWrites(ts, f, i, created, LinkEntryOf(created), frames.live);
        tables := Written(tables, f, i, LinkEntryOf(created));
        at := at[created := Place(level - 1, page)];
      }
      ok := true;
    }

    /** Adds the table flags to a present entry and follows it. */
    method Follow(v: nat, level: nat, f: nat, flags: nat) returns (next: nat)
      requires Valid() && 2 <= level <= 4 && TableFor(tables, root, Page(v), level) == Some(f) && TableFlags(flags)
      requires IsPresent(Entry(tables, root, Page(v), level))
      modifies this`tables
      ensures Valid() && LeavesSame(old(tables), tables, root)
      ensures forall k :: 1 <= k <= 4 && k != level ==> Entry(tables, root, Page(v), k) == Entry(old(tables), root, Page(v), k)
      ensures flags == USER ==> IsUser(Entry(tables, root, Page(v), level))
      ensures flags == 0 ==> tables == old(tables)
      ensures TableFor(tables, root, Page(v), level - 1) == Some(next) && next != 0
    {
      hide Bits, F.FrameAllocator.Valid, F.FrameAllocator.Taken, Tree, UserPaths, WriteXorExecute, IsPresent, IsUser, IsWritable,
        LeavesSame, OneEntry, TableFor, Page, And, Or, Backed, Scale, SamePath;
      var i := IndexAt(v, level);
      var page := Page(v);
      IndexAtIsIndex(v, level);
      TableWhole(tables, root, at, page, level, f);
      var e := Or(tables[f][i], flags);
      FlagStep(tables, root, at, page, level, f, flags);
      EntriesAbove(tables, Written(tables, f, i, e), root, page, level, e);
      SameRights(tables, Written(tables, f, i, e), root);
      NoFlags(tables, f, i, flags);
      WrittenBacked(tables, f, i, e, frames.live);
      tables := Written(tables, f, i, e);
      next := And(e, ADDRESS_MASK);
      TableWhole(tables, root, at, page, level - 1, next);
      LiveNotZero(next);
    }

    /** Walks down to the leaf table of an address, creating and opening tables on the
        way; 0 when memory runs out. No leaf changes either way. */
    method Descend(v: nat, flags: nat) returns (table: nat)
      requires Valid() && TableFlags(flags)
      modifies this`tables, this`tableCount, this`at, frames`freeFrames, frames`nextIndex, frames`live, frames.words
      ensures Valid() && LeavesSame(old(tables), tables, root)
      ensures table != 0 ==> TableFor(tables, root, Page(v), 1) == Some(table)
      ensures table != 0 && flags == USER ==> forall k :: 2 <= k <= 4 ==> IsUser(Entry(tables, root, Page(v), k))
      ensures table == 0 ==> F.NoRun(frames.Taken(), frames.reachable, 0, 1)
      ensures old(frames.live) <= frames.live && (flags == 0 ==> NoneOpened(old(tables), tables, root))
    {
      hide Bits, F.NoRun, F.FrameAllocator.Taken, PageMap.Valid, IsPresent, IsUser, LeavesSame, TableFor, Page, Entry, NoneOpened;
      table := root;
      var level := 4;
      RootTable(tables, root, Page(v));
      SelfSame(tables, root);
      SelfOpensNone(tables, root);
      RootNotZero();
      while level > 1
        invariant 1 <= level <= 4 && Valid() && LeavesSame(old(tables), tables, root) && table != 0
        invariant TableFor(tables, root, Page(v), level) == Some(table) && old(frames.live) <= frames.live
        invariant flags == USER ==> forall k :: level < k <= 4 ==> IsUser(Entry(tables, root, Page(v), k))
        invariant flags == 0 ==> NoneOpened(old(tables), tables, root)
      {
        ghost var ts := tables;
        var ok := EnsureTable(v, level, table);
        LeavesSameAgain(old(tables), ts, tables, root);
        if flags == 0 { NoneOpenedAgain(old(tables), ts, tables, root); }
        if !ok { return 0; }
        ghost var us := tables;
        table := Follow(v, level, table, flags);
        LeavesSameAgain(old(tables), us, tables, root);
        level := level - 1;
      }
    }

    /** Frame 0 is never handed out, so no table sits there. */
    lemma LiveNotZero(f: nat)
      requires Memory() && f in tables
      ensures f != 0
    {
      hide Bits;
    }

    lemma RootNotZero()
      requires Valid()
      ensures root != 0
    {
      hide Bits, UserPaths, WriteXorExecute;
      TreeKeys(tables, root, at);
      LiveNotZero(root);
    }

    // ----- Map

    /** One round of Map: the page of v gets its leaf, every other page keeps its own. */
    method MapPage(v: nat, source: nat, access: Access, privilege: Privilege, caching: Caching) returns (ok: bool)
      requires Valid() && FrameAddress(source)
      modifies this`tables, this`tableCount, this`at, frames`freeFrames, frames`nextIndex, frames`live, frames.words
      ensures Valid()
      ensures ok ==> LeafSet(old(tables), tables, root, Page(v), Or(source, FlagsFor(access, privilege, caching, noExecuteAvailable)))
      ensures !ok ==> LeavesSame(old(tables), tables, root) && F.NoRun(frames.Taken(), frames.reachable, 0, 1)
      ensures old(frames.live) <= frames.live && (privilege == KERNEL_ONLY ==> NoneOpened(old(tables), tables, root))
    {
      hide Bits, F.NoRun, F.FrameAllocator.Valid, F.FrameAllocator.Taken, Tree, UserPaths, WriteXorExecute, IsPresent, IsUser,
        IsWritable, IsNoExecute, LeavesSame, LeafSet, OneEntry, TableFor, Page, Or, Backed, Scale, SamePath, FlagsFor, FrameAddress, Entry, NoneOpened;
      var flags := FlagsFor(access, privilege, caching, noExecuteAvailable);
      var table := Descend(v, if privilege == USER_TOO then USER else 0);
      if table == 0 { return false; }
      var page, i, leaf := Page(v), IndexAt(v, 1), Or(source, flags);
      IndexAtIsIndex(v, 1);
      LeafBits(source, access, privilege, caching, noExecuteAvailable);
      ghost var ts := tables;
      TableWhole(tables, root, at, page, 1, table);
      LeafStep(tables, root, at, page, table, leaf);
      WrittenBacked(tables, table, i, leaf, frames.live);
      LeafRights(ts, Written(ts, table, i, leaf), root, page, leaf);
      tables := Written(tables, table, i, leaf);
      LeafSetAfter(old(tables), ts, tables, root, page, leaf);
      LeafOpensNone(ts, tables, root, page, leaf);
      if privilege == KERNEL_ONLY { NoneOpenedAgain(old(tables), ts, tables, root); }
      ok := true;
    }

    /** Maps every page the range touches. With memory to spare all of them get the
        requested frame and rights; without, the first `done` do. No other page changes, and
        that is also what the CPU grants. */
    method Map(virtual: nat, physical: nat, size: nat, access: Access, privilege: Privilege, caching: Caching)
      returns (ok: bool, ghost done: nat)
      requires Valid() && Mappable(virtual, physical, size)
      modifies this`tables, this`tableCount, this`at, frames`freeFrames, frames`nextIndex, frames`live, frames.words
      ensures Valid() && old(frames.live) <= frames.live
      ensures privilege == KERNEL_ONLY ==> NoneOpened(old(tables), tables, root)
      ensures done <= PageCount(virtual, size) && (ok <==> done == PageCount(virtual, size))
      ensures RangeSet(old(tables), tables, root, Page(virtual), done, PageStart(physical), FlagsFor(access, privilege, caching, noExecuteAvailable))
      ensures RangeGranted(old(tables), tables, root, Page(virtual), done, PageStart(physical), access, privilege, noExecuteAvailable)
      ensures !ok ==> F.NoRun(frames.Taken(), frames.reachable, 0, 1)
    {
      hide Bits, F.NoRun, F.FrameAllocator.Taken, PageMap.Valid, RangeSet, RangeGranted, Tree, UserPaths, FlagsFor, Page, PageCount, Mappable, NoneOpened;
      TreeHere();
      ghost var before := at;
      ok, done := MapPages(virtual, physical, size, access, privilege, caching);
      TreeHere();
      SourceFrames(virtual, physical, size, done);
      RangeGrants(old(tables), before, tables, at, root, Page(virtual), done, PageStart(physical), access, privilege, caching, noExecuteAvailable);
    }

    lemma TreeHere()
      requires Valid()
      ensures Tree(tables, root, at) && UserPaths(tables, root)
    {
      hide Bits, Tree, UserPaths, F.FrameAllocator.Valid, WriteXorExecute;
    }

    method MapPages(virtual: nat, physical: nat, size: nat, access: Access, privilege: Privilege, caching: Caching)
      returns (ok: bool, ghost done: nat)
      requires Valid() && Mappable(virtual, physical, size)
      modifies this`tables, this`tableCount, this`at, frames`freeFrames, frames`nextIndex, frames`live, frames.words
      ensures Valid() && old(frames.live) <= frames.live
      ensures privilege == KERNEL_ONLY ==> NoneOpened(old(tables), tables, root)
      ensures done <= PageCount(virtual, size) && (ok <==> done == PageCount(virtual, size))
      ensures RangeSet(old(tables), tables, root, Page(virtual), done, PageStart(physical), FlagsFor(access, privilege, caching, noExecuteAvailable))
      ensures !ok ==> F.NoRun(frames.Taken(), frames.reachable, 0, 1)
    {
      hide Bits, F.NoRun, F.FrameAllocator.Taken, PageMap.Valid, RangeSet, LeafSet, LeavesSame, Or, FlagsFor, FrameAddress, Page, PageCount, Mappable, NoneOpened;
      ghost var flags := FlagsFor(access, privilege, caching, noExecuteAvailable);
      var source, start := PageStart(physical), PageStart(virtual);
      var page := start;
      done := 0;
      RangeStart(tables, root, Page(virtual), source, flags);
      LoopCount(virtual, size, 0);
      SelfOpensNone(tables, root);
      while page < virtual + size
        invariant page == start + done * PAGE_SIZE && done <= PageCount(virtual, size) && Valid()
        invariant source == PageStart(physical) + done * PAGE_SIZE && old(frames.live) <= frames.live
        invariant RangeSet(old(tables), tables, root, Page(virtual), done, PageStart(physical), flags)
        invariant privilege == KERNEL_ONLY ==> NoneOpened(old(tables), tables, root)
      {
        LoopCount(virtual, size, done);
        RangePages(virtual, physical, size, done);
        SourceFrame(virtual, physical, size, done);
        ghost var ts := tables;
        var mapped := MapPage(page, source, access, privilege, caching);
        if privilege == KERNEL_ONLY { NoneOpenedAgain(old(tables), ts, tables, root); }
        if !mapped {
          RangeKept(old(tables), ts, tables, root, Page(virtual), done, PageStart(physical), flags);
          return false, done;
        }
        RangeNext(old(tables), ts, tables, root, Page(virtual), done, PageStart(physical), flags);
        source := source + PAGE_SIZE;
        page := page + PAGE_SIZE;
        done := done + 1;
      }
      LoopCount(virtual, size, done);
      ok := true;
    }

    // ----- Queries

    /** What the CPU grants for an address: exactly what the leaf of its page asks for. */
    method EffectiveRights(v: nat) returns (r: nat)
      requires Valid()
      ensures r == Effective(tables, root, Page(v)) == Asked(Leaf(Page(v)))
    {
      hide Bits, F.FrameAllocator.Valid, Tree, UserPaths, WriteXorExecute, Backed, And, Or, Rights, Page, IndexAt, Asked,
        IsPresent, IsLarge, Entry, TableFor, Pow2;
      ghost var page := Page(v);
      GrantsAsked(tables, root, at, page);
      var table, granted, noExecute, level := root, Rights(), 0, 4;
      RootTable(tables, root, page);
      while level > 1
        invariant 1 <= level <= 4 && TableFor(tables, root, page, level) == Some(table)
        invariant granted == Granted(tables, root, page, level) && noExecute == Forbidden(tables, root, page, level)
      {
        IndexAtIsIndex(v, level);
        TableWhole(tables, root, at, page, level, table);
        var entry := tables[table][IndexAt(v, level)];
        MaskIsPresent(entry);
        MaskIsLarge(entry);
        StepByEntry(tables, root, page, level - 1);
        if And(entry, PRESENT) == 0 || And(entry, LARGE) != 0 {
          DeadEnd(tables, root, page, level - 1);
          return 0;
        }
        granted := And(granted, entry);
        noExecute := Or(noExecute, And(entry, NO_EXECUTE));
        table := And(entry, ADDRESS_MASK);
        level := level - 1;
      }
      IndexAtIsIndex(v, 1);
      TableWhole(tables, root, at, page, 1, table);
      var leaf := tables[table][IndexAt(v, 1)];
      MaskIsPresent(leaf);
      if And(leaf, PRESENT) == 0 { return 0; }
      noExecute := Or(noExecute, And(leaf, NO_EXECUTE));
      r := Or(Or(And(granted, leaf), noExecute), And(leaf, ADDRESS_MASK));
    }

    /** The physical address behind v, or 0 when nothing is mapped there. */
    method Translate(v: nat) returns (r: nat)
      requires Valid()
      ensures r == if IsPresent(Leaf(Page(v))) then Address(Leaf(Page(v))) + v % PAGE_SIZE else 0
    {
      hide PageMap.Valid, Asked, Page, IsPresent, Effective, And, Or;
      var entry := EffectiveRights(v);
      AskedZero(Leaf(Page(v)));
      if entry == 0 { return 0; }
      AskedBits(Leaf(Page(v)));
      AddressPlus(entry, v % PAGE_SIZE);
      r := Or(And(entry, ADDRESS_MASK), v % PAGE_SIZE);
    }

    method IsWritableAt(v: nat) returns (r: bool)
      requires Valid()
      ensures r <==> IsPresent(Leaf(Page(v))) && IsWritable(Leaf(Page(v)))
    {
      hide PageMap.Valid, Asked, Page, IsPresent, IsWritable, Effective, And;
      var entry := EffectiveRights(v);
      QueryBits(Leaf(Page(v)));
      r := And(entry, WRITABLE) != 0;
    }

    /** Never true together with IsWritableAt when no-execute is available. */
    method IsExecutableAt(v: nat) returns (r: bool)
      requires Valid()
      ensures r <==> IsPresent(Leaf(Page(v))) && (noExecuteAvailable ==> !IsNoExecute(Leaf(Page(v))))
      ensures noExecuteAvailable && r ==> !IsWritable(Leaf(Page(v)))
    {
      hide Bits, F.FrameAllocator.Valid, Asked, Page, IsPresent, IsNoExecute, IsWritable, Effective, And, Tree, UserPaths, Entry, Pow2;
      var entry := EffectiveRights(v);
      QueryBits(Leaf(Page(v)));
      AskedZero(Leaf(Page(v)));
      r := entry != 0 && (!noExecuteAvailable || And(entry, NO_EXECUTE) == 0);
      assert noExecuteAvailable ==> var leaf := Entry(tables, root, Page(v), 1); IsPresent(leaf) && IsWritable(leaf) ==> IsNoExecute(leaf);
    }

    method IsUserReadable(v: nat) returns (r: bool)
      requires Valid()
      ensures r <==> UserReadable(Page(v))
    {
      hide PageMap.Valid, Asked, Page, IsPresent, IsUser, Effective, And;
      var entry := EffectiveRights(v);
      QueryBits(Leaf(Page(v)));
      r := And(entry, USER) != 0;
    }

    ghost predicate UserReadable(page: nat)
      reads this
    {
      IsPresent(Leaf(page)) && IsUser(Leaf(page))
    }

    /** The physical address the CPU reads for a mapped virtual one. */
    ghost function Behind(v: nat): (a: nat)
      reads this
    {
      Address(Leaf(Page(v))) + v % PAGE_SIZE
    }

    /** Copies from user memory: exactly for an empty request, or a buffer inside the user
        half whose every page ring 3 may read, and then byte for byte what it holds. */
    method CopyIn<B>(ram: nat -> B, source: nat, length: nat) returns (ok: bool, copied: seq<B>)
      requires Valid() && source < ADDRESS_SPACE && length < ADDRESS_SPACE
      ensures ok <==> length == 0 || (USER_MIN <= source && source + length <= USER_MAX && forall x :: source <= x < source + length ==> UserReadable(Page(x)))
      ensures ok ==> |copied| == length && forall i :: 0 <= i < length ==> copied[i] == ram(Behind(source + i))
      ensures !ok ==> copied == []
    {
      hide PageMap.Valid, PageMap.UserReadable, PageMap.Behind, Page;
      ok := MayCopy(source, length);
      copied := [];
      if ok && length > 0 {
        copied := Load(ram, source, length);
      }
    }

    /** What the CPU reads from a mapped range. */
    method Load<B>(ram: nat -> B, source: nat, length: nat) returns (copied: seq<B>)
      requires Valid() && forall x :: source <= x < source + length ==> UserReadable(Page(x))
      ensures |copied| == length && forall i :: 0 <= i < length ==> copied[i] == ram(Behind(source + i))
    {
      hide PageMap.Valid, Page, IsPresent, IsUser, Address;
      copied := [];
      for i := 0 to length
        invariant |copied| == i && forall j :: 0 <= j < i ==> copied[j] == ram(Behind(source + j))
      {
        var a := Translate(source + i);
        assert UserReadable(Page(source + i));
        copied := copied + [ram(a)];
      }
    }

    /** The checks before the copy. */
    method MayCopy(source: nat, length: nat) returns (ok: bool)
      requires Valid() && source < ADDRESS_SPACE && length < ADDRESS_SPACE
      ensures ok <==> length == 0 || (USER_MIN <= source && source + length <= USER_MAX && forall x :: source <= x < source + length ==> UserReadable(Page(x)))
    {
      hide PageMap.Valid, PageMap.UserReadable;
      if length == 0 { return true; }
      UserHalfExactly(source, length);
      if !InUserHalf(source, length) { return false; }
      var page := PageStart(source);
      while page < source + length
        invariant page % PAGE_SIZE == 0 && PageStart(source) <= page
        invariant forall x :: source <= x < source + length && x < page ==> UserReadable(Page(x))
        decreases source + length - page
      {
        var readable := IsUserReadable(page);
        if !readable {
          ghost var x := if source > page then source else page;
          SamePageNumber(page, x);
          assert !UserReadable(Page(x));
          return false;
        }
        forall x | page <= x < page + PAGE_SIZE
          ensures Page(x) == Page(page)
        {
          SamePageNumber(page, x);
        }
        page := page + PAGE_SIZE;
      }
      ok := true;
    }
  }

  const USER_MIN: nat := 0x1000
  const USER_MAX: nat := 0x8000_0000_0000

  /** The sum wraps at 64 bits, which the second comparison catches. */
  predicate InUserHalf(start: nat, length: nat) {
    var end := (start + length) % ADDRESS_SPACE;
    start >= USER_MIN && end >= start && end <= USER_MAX
  }

  /** The test in wrapping arithmetic accepts exactly the ranges that lie in the user half. */
  lemma {:induction false} UserHalfExactly(start: nat, length: nat)
    requires start < ADDRESS_SPACE && length < ADDRESS_SPACE
    ensures InUserHalf(start, length) <==> USER_MIN <= start && start + length <= USER_MAX
  {
  }

  lemma {:induction false} SamePageNumber(page: nat, x: nat)
    requires page % PAGE_SIZE == 0 && page <= x < page + PAGE_SIZE
    ensures Page(x) == Page(page)
  {
  }

  lemma {:induction false} GrantsAsked(ts: Tables, root: nat, at: map<nat, Place>, page: nat)
    requires Tree(ts, root, at) && UserPaths(ts, root) && page < PAGES
    ensures Effective(ts, root, page) == Asked(Entry(ts, root, page, 1))
  {
    hide Tree, Effective, Asked, Entry;
    assert UserPath(ts, root, page);
    EffectiveIsAsked(ts, root, at, page);
  }

  lemma {:induction false} DeadEnd(ts: Tables, root: nat, page: nat, level: nat)
    requires 1 <= level <= 4 && TableFor(ts, root, page, level) == None
    ensures !IsPresent(Entry(ts, root, page, 1))
  {
    hide IsPresent, IsLarge, Address, Index;
    ZeroIsNotPresent();
    if level > 1 {
      StepByEntry(ts, root, page, level - 1);
      DeadEnd(ts, root, page, level - 1);
    }
  }

  lemma {:induction false} MaskIsLarge(e: nat)
    ensures And(e, LARGE) != 0 <==> IsLarge(e)
  {
    MaskTests(e, 7);
    assert Pow2(7) == 128;
  }

  lemma {:induction false} AskedZero(leaf: nat)
    ensures Asked(leaf) == 0 <==> !IsPresent(leaf)
  {
    if IsPresent(leaf) {
      AskedBits(leaf);
      ZeroIsNotPresent();
    }
  }

  lemma {:induction false} QueryBits(leaf: nat)
    ensures And(Asked(leaf), WRITABLE) != 0 <==> IsPresent(leaf) && IsWritable(leaf)
    ensures And(Asked(leaf), USER) != 0 <==> IsPresent(leaf) && IsUser(leaf)
    ensures And(Asked(leaf), NO_EXECUTE) != 0 <==> IsPresent(leaf) && IsNoExecute(leaf)
  {
    hide Bit, And, Asked;
    MaskTests(Asked(leaf), 1);
    MaskTests(Asked(leaf), 2);
    MaskTests(Asked(leaf), 63);
    assert Pow2(1) == 2 && Pow2(2) == 4;
    AskedZero(leaf);
    if IsPresent(leaf) {
      AskedBits(leaf);
    } else {
      ZeroBit(1);
      ZeroBit(2);
      ZeroBit(63);
    }
  }

  lemma {:induction false} NoLowBits(x: nat, k: nat)
    requires forall i: nat :: i < k ==> !Bit(x, i)
    ensures Aligned(x, k)
  {
    if k > 0 {
      assert !Bit(x, 0);
      forall i: nat | i < k - 1
        ensures !Bit(x / 2, i)
      {
        assert !Bit(x, i + 1);
      }
      NoLowBits(x / 2, k - 1);
    }
  }

  lemma {:induction false} OrIsSum(a: nat, b: nat, k: nat)
    requires Aligned(a, k) && b < Pow2(k)
    ensures Or(a, b) == a + b
  {
    if k == 0 {
      OrZeroRight(a);
    } else if a != 0 || b != 0 {
      OrIsSum(a / 2, b / 2, k - 1);
    }
  }

  lemma {:induction false} OrZeroRight(a: nat)
    ensures Or(a, 0) == a
  {
    if a != 0 { OrZeroRight(a / 2); }
  }

  /** The offset within the page is put back by an or, which here is a sum. */
  lemma {:induction false} AddressPlus(entry: nat, offset: nat)
    requires offset < PAGE_SIZE
    ensures Or(Address(entry), offset) == Address(entry) + offset
  {
    hide Bit, And, Or, Aligned;
    forall i: nat | i < 12
      ensures !Bit(Address(entry), i)
    {
      AndBit(entry, ADDRESS_MASK, i);
      SpanBit(12, 52, i);
    }
    NoLowBits(Address(entry), 12);
    PageSizeIsPower();
    OrIsSum(Address(entry), offset, 12);
  }

  lemma {:induction false} PageSizeIsPower()
    ensures Pow2(12) == PAGE_SIZE
  {
    assert Pow2(6) == 64;
  }

  // ----- Sets of leaves

  /** The leaf of one page is set, all others are as they were. */
  ghost predicate LeafSet(ts: Tables, us: Tables, root: nat, page: nat, leaf: nat) {
    forall q {:trigger Entry(us, root, q, 1)} :: 0 <= q < PAGES ==>
      Entry(us, root, q, 1) == if q == page then leaf else Entry(ts, root, q, 1)
  }

  /** n pages from first on are mapped to consecutive frames from source on, with the same
      flags; every other page is as it was. */
  ghost predicate RangeSet(ts: Tables, us: Tables, root: nat, first: nat, n: nat, source: nat, flags: nat) {
    forall q {:trigger Entry(us, root, q, 1)} :: 0 <= q < PAGES ==>
      Entry(us, root, q, 1) == if first <= q < first + n then Or(source + (q - first) * PAGE_SIZE, flags) else Entry(ts, root, q, 1)
  }

  /** The effect of Map on what the CPU grants: requested frame and rights inside the range,
      and no change anywhere else, even where tables are shared. */
  lemma {:induction false} MapGrants(ts: Tables, at: map<nat, Place>, us: Tables, bt: map<nat, Place>, root: nat, first: nat, n: nat, source: nat,
                                     access: Access, privilege: Privilege, caching: Caching, nx: bool, q: nat)
    requires Tree(ts, root, at) && UserPaths(ts, root) && Tree(us, root, bt) && UserPaths(us, root) && q < PAGES
    requires RangeSet(ts, us, root, first, n, source, FlagsFor(access, privilege, caching, nx))
    requires first <= q < first + n ==> FrameAddress(source + (q - first) * PAGE_SIZE)
    ensures first <= q < first + n ==> Grants(Effective(us, root, q), source + (q - first) * PAGE_SIZE, access, privilege, nx)
    ensures !(first <= q < first + n) ==> Effective(us, root, q) == Effective(ts, root, q)
  {
    hide Tree, UserPaths, Effective, Asked, Entry, IsPresent, IsWritable, IsUser, IsNoExecute, Address, Or, FlagsFor, FrameAddress;
    GrantsAsked(ts, root, at, q);
    GrantsAsked(us, root, bt, q);
    var leaf := Entry(us, root, q, 1);
    if first <= q < first + n {
      LeafBits(source + (q - first) * PAGE_SIZE, access, privilege, caching, nx);
      AskedBits(leaf);
    }
  }

  /** What the CPU may be asked to grant for one page. */
  predicate Grants(r: nat, frame: nat, access: Access, privilege: Privilege, nx: bool) {
    && IsPresent(r) && Address(r) == frame
    && (IsWritable(r) <==> access == READ_WRITE)
    && (IsNoExecute(r) <==> access != READ_EXECUTE && nx)
    && (IsUser(r) <==> privilege == USER_TOO)
  }

  /** In the range the CPU grants what was requested, elsewhere what it granted before. */
  ghost predicate RangeGranted(ts: Tables, us: Tables, root: nat, first: nat, n: nat, source: nat, access: Access, privilege: Privilege, nx: bool) {
    forall q {:trigger Effective(us, root, q)} :: 0 <= q < PAGES ==>
      if first <= q < first + n then Grants(Effective(us, root, q), source + (q - first) * PAGE_SIZE, access, privilege, nx)
      else Effective(us, root, q) == Effective(ts, root, q)
  }

  lemma {:induction false} RangeGrants(ts: Tables, at: map<nat, Place>, us: Tables, bt: map<nat, Place>, root: nat, first: nat, n: nat, source: nat,
                                       access: Access, privilege: Privilege, caching: Caching, nx: bool)
    requires Tree(ts, root, at) && UserPaths(ts, root) && Tree(us, root, bt) && UserPaths(us, root)
    requires RangeSet(ts, us, root, first, n, source, FlagsFor(access, privilege, caching, nx)) && FramesFrom(source, n)
    ensures RangeGranted(ts, us, root, first, n, source, access, privilege, nx)
  {
    hide Tree, UserPaths, RangeSet, Effective, FlagsFor, FrameAddress, IsPresent, IsWritable, IsNoExecute, IsUser, Address;
    forall q | 0 <= q < PAGES
      ensures if first <= q < first + n then Grants(Effective(us, root, q), source + (q - first) * PAGE_SIZE, access, privilege, nx)
              else Effective(us, root, q) == Effective(ts, root, q)
    {
      if first <= q < first + n {
        assert FrameAt(source, q - first);
      }
      MapGrants(ts, at, us, bt, root, first, n, source, access, privilege, caching, nx, q);
    }
  }

  ghost predicate FrameAt(source: nat, i: nat) {
    FrameAddress(source + i * PAGE_SIZE)
  }

  ghost predicate FramesFrom(source: nat, n: nat) {
    forall i {:trigger FrameAt(source, i)} :: 0 <= i < n ==> FrameAt(source, i)
  }

  lemma {:induction false} SourceFrames(virtual: nat, physical: nat, size: nat, n: nat)
    requires Mappable(virtual, physical, size) && n <= PageCount(virtual, size)
    ensures FramesFrom(PageStart(physical), n)
  {
    hide Mappable, PageCount, FrameAddress;
    forall i | 0 <= i < n
      ensures FrameAt(PageStart(physical), i)
    {
      SourceFrame(virtual, physical, size, i);
    }
  }

  lemma {:induction false} RangeStart(ts: Tables, root: nat, first: nat, source: nat, flags: nat)
    ensures RangeSet(ts, ts, root, first, 0, source, flags)
  {
  }

  lemma {:induction false} RangeKept(ts: Tables, us: Tables, vs: Tables, root: nat, first: nat, n: nat, source: nat, flags: nat)
    requires RangeSet(ts, us, root, first, n, source, flags) && LeavesSame(us, vs, root)
    ensures RangeSet(ts, vs, root, first, n, source, flags)
  {
    hide Entry, Or;
    forall q | 0 <= q < PAGES
      ensures Entry(vs, root, q, 1) == if first <= q < first + n then Or(source + (q - first) * PAGE_SIZE, flags) else Entry(ts, root, q, 1)
    {
      assert Entry(vs, root, q, 1) == Entry(us, root, q, 1);
    }
  }

  lemma {:induction false} RangeNext(ts: Tables, us: Tables, vs: Tables, root: nat, first: nat, n: nat, source: nat, flags: nat)
    requires RangeSet(ts, us, root, first, n, source, flags)
    requires LeafSet(us, vs, root, first + n, Or(source + n * PAGE_SIZE, flags))
    ensures RangeSet(ts, vs, root, first, n + 1, source, flags)
  {
    hide Entry, Or;
    forall q | 0 <= q < PAGES
      ensures Entry(vs, root, q, 1) == if first <= q < first + n + 1 then Or(source + (q - first) * PAGE_SIZE, flags) else Entry(ts, root, q, 1)
    {
      assert Entry(vs, root, q, 1) == if q == first + n then Or(source + n * PAGE_SIZE, flags) else Entry(us, root, q, 1);
    }
  }

  lemma {:induction false} SourceFrame(virtual: nat, physical: nat, size: nat, i: nat)
    requires Mappable(virtual, physical, size) && i < PageCount(virtual, size)
    ensures FrameAddress(PageStart(physical) + i * PAGE_SIZE)
  {
    hide FrameAddress, Pow2, PageCount;
    LoopCount(virtual, size, i);
    var frame := physical / PAGE_SIZE + i;
    assert frame * PAGE_SIZE <= physical + i * PAGE_SIZE;
    FreshFrame(frame, frame + 1);
  }

  lemma {:induction false} LeafSetAfter(ts: Tables, us: Tables, vs: Tables, root: nat, page: nat, leaf: nat)
    requires LeavesSame(ts, us, root) && OneEntry(us, vs, root, page, 1, leaf) && page < PAGES
    ensures LeafSet(ts, vs, root, page, leaf)
  {
    hide Entry;
    forall q | 0 <= q < PAGES
      ensures Entry(vs, root, q, 1) == if q == page then leaf else Entry(ts, root, q, 1)
    {
      assert EntrySame(us, vs, root, page, 1, q, 1, leaf);
      assert Entry(us, root, q, 1) == Entry(ts, root, q, 1);
    }
  }

  lemma {:induction false} LeafRights(ts: Tables, us: Tables, root: nat, page: nat, leaf: nat)
    requires OneEntry(ts, us, root, page, 1, leaf) && page < PAGES
    ensures WriteXorExecute(ts, root) && (IsWritable(leaf) ==> IsNoExecute(leaf)) ==> WriteXorExecute(us, root)
  {
    hide Entry, IsPresent, IsWritable, IsNoExecute;
    if WriteXorExecute(ts, root) && (IsWritable(leaf) ==> IsNoExecute(leaf)) {
      forall q | 0 <= q < PAGES
        ensures var e := Entry(us, root, q, 1); IsPresent(e) && IsWritable(e) ==> IsNoExecute(e)
      {
        assert EntrySame(ts, us, root, page, 1, q, 1, leaf);
        var _ := Entry(ts, root, q, 1);
      }
    }
  }

  // ----- What the methods need of the state, each on its own

  lemma {:induction false} TableWhole(ts: Tables, root: nat, at: map<nat, Place>, page: nat, level: nat, f: nat)
    requires Tree(ts, root, at) && page < PAGES && 1 <= level <= 4 && TableFor(ts, root, page, level) == Some(f)
    ensures f in ts && |ts[f]| == ENTRIES && Entry(ts, root, page, level) == ts[f][Index(page, level)]
  {
    WalkPlace(ts, root, at, page, level);
    assert TableOk(ts, root, at, f);
    IndexBound(page, level);
  }

  lemma {:induction false} MaskIsPresent(e: nat)
    ensures And(e, PRESENT) != 0 <==> IsPresent(e)
  {
    MaskTests(e, 0);
  }

  /** No link became passable for user mode. */
  ghost predicate NoneOpened(ts: Tables, us: Tables, root: nat) {
    forall q, k {:trigger StaysClosed(ts, us, root, q, k)} :: 0 <= q < PAGES && 2 <= k <= 4 ==> StaysClosed(ts, us, root, q, k)
  }

  ghost predicate StaysClosed(ts: Tables, us: Tables, root: nat, q: nat, k: nat)
    requires 1 <= k <= 4
  {
    IsUser(Entry(us, root, q, k)) ==> IsUser(Entry(ts, root, q, k))
  }

  lemma {:induction false} SelfOpensNone(ts: Tables, root: nat)
    ensures NoneOpened(ts, ts, root)
  {
    hide Entry, IsUser;
  }

  lemma {:induction false} NoneOpenedAgain(ts: Tables, us: Tables, vs: Tables, root: nat)
    requires NoneOpened(ts, us, root) && NoneOpened(us, vs, root)
    ensures NoneOpened(ts, vs, root)
  {
    hide Entry, IsUser;
    forall q, k | 0 <= q < PAGES && 2 <= k <= 4
      ensures StaysClosed(ts, vs, root, q, k)
    {
      assert StaysClosed(ts, us, root, q, k) && StaysClosed(us, vs, root, q, k);
    }
  }

  lemma {:induction false} LinkOpensNone(ts: Tables, us: Tables, root: nat, page: nat, level: nat, e: nat)
    requires OneEntry(ts, us, root, page, level, e) && !IsUser(e) && 1 <= level <= 4
    ensures NoneOpened(ts, us, root)
  {
    hide Entry, IsUser, SamePath;
    forall q, k | 0 <= q < PAGES && 2 <= k <= 4
      ensures StaysClosed(ts, us, root, q, k)
    {
      assert EntrySame(ts, us, root, page, level, q, k, e);
    }
  }

  lemma {:induction false} LeafOpensNone(ts: Tables, us: Tables, root: nat, page: nat, leaf: nat)
    requires OneEntry(ts, us, root, page, 1, leaf)
    ensures NoneOpened(ts, us, root)
  {
    hide Entry, IsUser, SamePath;
    forall q, k | 0 <= q < PAGES && 2 <= k <= 4
      ensures StaysClosed(ts, us, root, q, k)
    {
      assert EntrySame(ts, us, root, page, 1, q, k, leaf);
    }
  }

  /** Adding no flags writes back what was there. */
  lemma {:induction false} NoFlags(ts: Tables, f: nat, i: nat, flags: nat)
    requires f in ts && i < |ts[f]|
    ensures flags == 0 ==> Written(ts, f, i, Or(ts[f][i], flags)) == ts
  {
    hide Or;
    OrZeroRight(ts[f][i]);
    assert ts[f][i := ts[f][i]] == ts[f];
    assert ts[f := ts[f]] == ts;
  }

  lemma {:induction false} SelfSame(ts: Tables, root: nat)
    ensures LeavesSame(ts, ts, root)
  {
  }

  /** After one entry changed, those of the levels above are what they were. */
  lemma {:induction false} EntriesAbove(ts: Tables, us: Tables, root: nat, page: nat, level: nat, e: nat)
    requires OneEntry(ts, us, root, page, level, e) && page < PAGES && 1 <= level <= 4
    ensures Entry(us, root, page, level) == e
    ensures forall k :: 1 <= k <= 4 && k != level ==> Entry(us, root, page, k) == Entry(ts, root, page, k)
  {
    hide Entry;
    assert EntrySame(ts, us, root, page, level, page, level, e);
    forall k | 1 <= k <= 4 && k != level
      ensures Entry(us, root, page, k) == Entry(ts, root, page, k)
    {
      assert EntrySame(ts, us, root, page, level, page, k, e);
    }
  }

  lemma {:induction false} SameRights(ts: Tables, us: Tables, root: nat)
    requires LeavesSame(ts, us, root)
    ensures WriteXorExecute(ts, root) ==> WriteXorExecute(us, root)
  {
    hide Entry, IsPresent, IsWritable, IsNoExecute;
    if WriteXorExecute(ts, root) {
      forall page | 0 <= page < PAGES
        ensures var leaf := Entry(us, root, page, 1); IsPresent(leaf) && IsWritable(leaf) ==> IsNoExecute(leaf)
      {
        assert Entry(us, root, page, 1) == Entry(ts, root, page, 1);
      }
    }
  }

  lemma {:induction false} LinkedWrites(ts: Tables, f: nat, i: nat, c: nat, e: nat, live: set<nat>)
    requires f in ts && |ts[f]| == ENTRIES && i < ENTRIES && c != f
    requires Backed(ts[c := EmptyTable()], live)
    ensures f in ts[c := EmptyTable()] && i < |ts[c := EmptyTable()][f]|
    ensures Written(ts[c := EmptyTable()], f, i, e) == Linked(ts, f, i, c, e)
    ensures Backed(Linked(ts, f, i, c, e), live) && |Linked(ts, f, i, c, e)| == |ts[c := EmptyTable()]|
  {
    assert Linked(ts, f, i, c, e).Keys == ts[c := EmptyTable()].Keys;
  }

  lemma {:induction false} LeavesSameAgain(ts: Tables, us: Tables, vs: Tables, root: nat)
    requires LeavesSame(ts, us, root) && LeavesSame(us, vs, root)
    ensures LeavesSame(ts, vs, root)
  {
    hide Entry;
    forall page | 0 <= page < PAGES
      ensures Entry(vs, root, page, 1) == Entry(ts, root, page, 1)
    {
      assert Entry(us, root, page, 1) == Entry(ts, root, page, 1);
    }
  }

  lemma {:induction false} WrittenBacked(ts: Tables, f: nat, i: nat, e: nat, live: set<nat>)
    requires f in ts && i < |ts[f]| && Backed(ts, live)
    ensures Backed(Written(ts, f, i, e), live) && |Written(ts, f, i, e)| == |ts|
  {
    assert Written(ts, f, i, e).Keys == ts.Keys;
  }
}
