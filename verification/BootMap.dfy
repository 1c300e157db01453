/**
 * The address space the kernel builds at boot: low memory and device registers
 * one to one, all of RAM in the higher half, and the kernel image last, so that
 * its permissions win.
 */
module BootMap {
  import opened Powers
  import opened Bitmap
  import opened PageTables
  import opened PageRights
  import opened Paging
  import F = Frames
  import S = Stacks

  const LOW_MEMORY_END: nat := 0x20_0000
  const DIRECT_MAP_BASE: nat := 0xFFFF_8000_0000_0000
  const DIRECT_LIMIT: nat := S.KERNEL_STACK_BASE - DIRECT_MAP_BASE

  /** Page numbers where the direct map and the kernel image begin. */
  const DIRECT_FIRST: nat := 0x8_0000_0000
  const IMAGE_FIRST: nat := 0xF_FFF8_0000

  datatype Span = Span(start: nat, end: nat)

  datatype Layout = Layout(regions: seq<F.Region>, localApic: nat, ioApic: nat, boot: Span, text: Span, rodata: Span, data: Span)

  /** RAM ends where the stacks begin, devices and boot code lie low, the image is linked high. */
  predicate Sane(l: Layout) {
    && (forall i :: 0 <= i < |l.regions| ==> l.regions[i].End() <= DIRECT_LIMIT)
    && l.localApic + PAGE_SIZE <= S.LOW_LIMIT && l.ioApic + PAGE_SIZE <= S.LOW_LIMIT && l.boot.end <= S.LOW_LIMIT
    && Linked(l.text) && Linked(l.rodata) && Linked(l.data)
  }

  predicate Linked(s: Span) {
    S.KERNEL_VMA <= s.start <= s.end <= ADDRESS_SPACE - PAGE_SIZE
  }

  /** One call of Map, for the kernel. */
  datatype Request = Request(virtual: nat, physical: nat, size: nat, access: Access, caching: Caching)

  predicate Fits(r: Request) {
    Mappable(r.virtual, r.physical, r.size)
  }

  predicate Covers(r: Request, q: nat) {
    Page(r.virtual) <= q < Page(r.virtual) + PageCount(r.virtual, r.size)
  }

  function LeafFor(r: Request, q: nat, nx: bool): (e: nat)
    requires Covers(r, q)
  {
    Or(PageStart(r.physical) + (q - Page(r.virtual)) * PAGE_SIZE, FlagsFor(r.access, KERNEL_ONLY, r.caching, nx))
  }

  /** The last request for a page wins. */
  function Outcome(log: seq<Request>, q: nat, nx: bool): (e: nat) {
    if log == [] then 0 else
      var r := log[|log| - 1];
      if Covers(r, q) then LeafFor(r, q, nx) else Outcome(log[..|log| - 1], q, nx)
  }

  ghost predicate Touched(log: seq<Request>, q: nat) {
    exists i :: 0 <= i < |log| && Covers(log[i], q)
  }

  /** The tables say what the requests so far amount to. */
  ghost predicate Reflects(ts: Tables, root: nat, nx: bool, log: seq<Request>) {
    forall q {:trigger Entry(ts, root, q, 1)} :: 0 <= q < PAGES ==> Entry(ts, root, q, 1) == Outcome(log, q, nx)
  }

  // ----- What is asked for, in order

  function Identity(start: nat, end: nat, access: Access, caching: Caching): (log: seq<Request>) {
    if end <= start then [] else [Request(start, start, end - start, access, caching)]
  }

  function Devices(l: Layout): (log: seq<Request>) {
    Identity(l.localApic, l.localApic + PAGE_SIZE, READ_WRITE, DISABLED) +
    if l.ioApic != 0 then Identity(l.ioApic, l.ioApic + PAGE_SIZE, READ_WRITE, DISABLED) else []
  }

  function AtOffset(r: F.Region): (q: Request) {
    Request(r.address + DIRECT_MAP_BASE, r.address, r.length, READ_WRITE, NORMAL)
  }

  function Direct(regions: seq<F.Region>): (log: seq<Request>) {
    if regions == [] then [] else
      var r := regions[|regions| - 1];
      Direct(regions[..|regions| - 1]) +
      if r.available then [AtOffset(r)] else []
  }

  function Image(s: Span, access: Access): (log: seq<Request>) {
    if s.end <= s.start || s.start < S.KERNEL_VMA then []
    else [Request(s.start, s.start - S.KERNEL_VMA, s.end - s.start, access, NORMAL)]
  }

  function Requests(l: Layout): (log: seq<Request>) {
    Identity(0, LOW_MEMORY_END, READ_WRITE, NORMAL) + Devices(l) + Direct(l.regions) +
    Identity(l.boot.start, l.boot.end, READ_EXECUTE, NORMAL) +
    Image(l.text, READ_EXECUTE) + Image(l.rodata, READ_ONLY) + Image(l.data, READ_WRITE)
  }

  // ----- The code

  /** One request; false stands for the panic when memory for tables runs out. */
  method Ask(pages: PageMap, r: Request, ghost log: seq<Request>) returns (ok: bool)
    requires pages.Valid() && Fits(r) && Reflects(pages.tables, pages.root, pages.noExecuteAvailable, log)
    modifies pages`tables, pages`tableCount, pages`at, pages.frames`freeFrames, pages.frames`nextIndex, pages.frames`live, pages.frames.words
    ensures pages.Valid() && (!ok ==> F.NoRun(pages.frames.Taken(), pages.frames.reachable, 0, 1))
    ensures ok ==> Reflects(pages.tables, pages.root, pages.noExecuteAvailable, log + [r])
  {
    hide Bits, F.NoRun, F.FrameAllocator.Taken, PageMap.Valid, RangeSet, RangeGranted, Reflects, FlagsFor, Page, PageCount;
    ghost var ts := pages.tables;
    ghost var done;
    ok, done := pages.Map(r.virtual, r.physical, r.size, r.access, KERNEL_ONLY, r.caching);
    if ok {
      Reflected(ts, pages.tables, pages.root, pages.noExecuteAvailable, log, r);
    }
  }

  method MapIdentity(pages: PageMap, start: nat, end: nat, access: Access, caching: Caching, ghost log: seq<Request>) returns (ok: bool)
    requires pages.Valid() && Reflects(pages.tables, pages.root, pages.noExecuteAvailable, log)
    requires start < end ==> Fits(Request(start, start, end - start, access, caching))
    modifies pages`tables, pages`tableCount, pages`at, pages.frames`freeFrames, pages.frames`nextIndex, pages.frames`live, pages.frames.words
    ensures pages.Valid() && (!ok ==> F.NoRun(pages.frames.Taken(), pages.frames.reachable, 0, 1))
    ensures ok ==> Reflects(pages.tables, pages.root, pages.noExecuteAvailable, log + Identity(start, end, access, caching))
  {
    hide Bits, F.NoRun, F.FrameAllocator.Taken, PageMap.Valid, Reflects;
    assert log + [] == log;
    if end <= start {
      return true;
    }
    ok := Ask(pages, Request(start, start, end - start, access, caching), log);
  }

  method MapDeviceRegisters(pages: PageMap, l: Layout, ghost log: seq<Request>) returns (ok: bool)
    requires pages.Valid() && Sane(l) && Reflects(pages.tables, pages.root, pages.noExecuteAvailable, log)
    modifies pages`tables, pages`tableCount, pages`at, pages.frames`freeFrames, pages.frames`nextIndex, pages.frames`live, pages.frames.words
    ensures pages.Valid() && (!ok ==> F.NoRun(pages.frames.Taken(), pages.frames.reachable, 0, 1))
    ensures ok ==> Reflects(pages.tables, pages.root, pages.noExecuteAvailable, log + Devices(l))
  {
    hide Bits, F.NoRun, F.FrameAllocator.Taken, PageMap.Valid, Reflects, Identity;
    ghost var first := Identity(l.localApic, l.localApic + PAGE_SIZE, READ_WRITE, DISABLED);
    assert log + first == log + (first + []);
    LowFits(l.localApic, l.localApic + PAGE_SIZE, READ_WRITE, DISABLED);
    ok := MapIdentity(pages, l.localApic, l.localApic + PAGE_SIZE, READ_WRITE, DISABLED, log);
    if ok && l.ioApic != 0 {
      ghost var second := Identity(l.ioApic, l.ioApic + PAGE_SIZE, READ_WRITE, DISABLED);
      assert log + first + second == log + (first + second);
      LowFits(l.ioApic, l.ioApic + PAGE_SIZE, READ_WRITE, DISABLED);
      ok := MapIdentity(pages, l.ioApic, l.ioApic + PAGE_SIZE, READ_WRITE, DISABLED, log + first);
    }
  }

  /** All of RAM at a constant offset; also says where it ends. */
  method MapDirectMap(pages: PageMap, l: Layout, ghost log: seq<Request>) returns (ok: bool, ramEnd: nat)
    requires pages.Valid() && Sane(l) && Reflects(pages.tables, pages.root, pages.noExecuteAvailable, log)
    modifies pages`tables, pages`tableCount, pages`at, pages.frames`freeFrames, pages.frames`nextIndex, pages.frames`live, pages.frames.words
    ensures pages.Valid() && (!ok ==> F.NoRun(pages.frames.Taken(), pages.frames.reachable, 0, 1))
    ensures ok ==> Reflects(pages.tables, pages.root, pages.noExecuteAvailable, log + Direct(l.regions))
    ensures ok ==> forall i :: 0 <= i < |l.regions| && l.regions[i].available ==> l.regions[i].End() <= ramEnd
    ensures ok ==> ramEnd == 0 || exists i :: 0 <= i < |l.regions| && l.regions[i].available && l.regions[i].End() == ramEnd
  {
    hide Bits, F.NoRun, F.FrameAllocator.Taken, PageMap.Valid, Reflects, Mappable;
    ramEnd := 0;
    assert log + Direct(l.regions[..0]) == log;
    for i := 0 to |l.regions|
      invariant pages.Valid() && Reflects(pages.tables, pages.root, pages.noExecuteAvailable, log + Direct(l.regions[..i]))
      invariant forall j :: 0 <= j < i && l.regions[j].available ==> l.regions[j].End() <= ramEnd
      invariant ramEnd == 0 || exists j :: 0 <= j < i && l.regions[j].available && l.regions[j].End() == ramEnd
    {
      var r := l.regions[i];
      MoreDirect(l.regions, i, log);
      if r.available {
        DirectFits(r);
        ok := Ask(pages, AtOffset(r), log + Direct(l.regions[..i]));
        if !ok {
          return false, 0;
        }
        ramEnd := if r.End() > ramEnd then r.End() else ramEnd;
      }
    }
    assert l.regions[..|l.regions|] == l.regions;
    ok := true;
  }

  method MapKernelSpan(pages: PageMap, s: Span, access: Access, ghost log: seq<Request>) returns (ok: bool)
    requires pages.Valid() && Linked(s) && Reflects(pages.tables, pages.root, pages.noExecuteAvailable, log)
    modifies pages`tables, pages`tableCount, pages`at, pages.frames`freeFrames, pages.frames`nextIndex, pages.frames`live, pages.frames.words
    ensures pages.Valid() && (!ok ==> F.NoRun(pages.frames.Taken(), pages.frames.reachable, 0, 1))
    ensures ok ==> Reflects(pages.tables, pages.root, pages.noExecuteAvailable, log + Image(s, access))
  {
    hide Bits, F.NoRun, F.FrameAllocator.Taken, PageMap.Valid, Reflects;
    assert log + [] == log;
    if s.end <= s.start {
      return true;
    }
    TwoTo52();
    ok := Ask(pages, Request(s.start, s.start - S.KERNEL_VMA, s.end - s.start, access, NORMAL), log);
  }

  method MapKernelImage(pages: PageMap, l: Layout, ghost log: seq<Request>) returns (ok: bool)
    requires pages.Valid() && Sane(l) && Reflects(pages.tables, pages.root, pages.noExecuteAvailable, log)
    modifies pages`tables, pages`tableCount, pages`at, pages.frames`freeFrames, pages.frames`nextIndex, pages.frames`live, pages.frames.words
    ensures pages.Valid() && (!ok ==> F.NoRun(pages.frames.Taken(), pages.frames.reachable, 0, 1))
    ensures ok ==> Reflects(pages.tables, pages.root, pages.noExecuteAvailable, log + Identity(l.boot.start, l.boot.end, READ_EXECUTE, NORMAL) +
      Image(l.text, READ_EXECUTE) + Image(l.rodata, READ_ONLY) + Image(l.data, READ_WRITE))
  {
    hide Bits, F.NoRun, F.FrameAllocator.Taken, PageMap.Valid, Reflects, Identity, Image;
    ghost var a := log + Identity(l.boot.start, l.boot.end, READ_EXECUTE, NORMAL);
    ghost var b := a + Image(l.text, READ_EXECUTE);
    if l.boot.start < l.boot.end {
      LowFits(l.boot.start, l.boot.end, READ_EXECUTE, NORMAL);
    }
    ok := MapIdentity(pages, l.boot.start, l.boot.end, READ_EXECUTE, NORMAL, log);
    if ok {
      ok := MapKernelSpan(pages, l.text, READ_EXECUTE, a);
    }
    if ok {
      ok := MapKernelSpan(pages, l.rodata, READ_ONLY, b);
    }
    if ok {
      ok := MapKernelSpan(pages, l.data, READ_WRITE, b + Image(l.rodata, READ_ONLY));
    }
  }

  /** The root table and everything the kernel maps at boot. False stands for a panic. */
  method Initialize(frames: F.FrameAllocator, nx: bool, l: Layout) returns (ok: bool, pages: PageMap)
    requires frames.Valid() && frames.frameCount * PAGE_SIZE <= Pow2(52) && !F.NoRun(frames.Taken(), frames.reachable, 0, 1) && Sane(l)
    modifies frames`freeFrames, frames`nextIndex, frames`live, frames`reachable, frames.words
    ensures pages.frames == frames && pages.noExecuteAvailable == nx
    ensures ok ==> pages.Valid() && Reflects(pages.tables, pages.root, nx, Requests(l))
    ensures !ok ==> F.NoRun(frames.Taken(), frames.reachable, 0, 1)
    ensures ok ==> S.KernelArea(pages.tables, pages.root, 0) && S.UserArea(pages.tables, pages.root, 0)
    ensures ok ==> forall i :: 0 <= i < |l.regions| && l.regions[i].available && frames.frameCount * PAGE_SIZE >= l.regions[i].End() ==>
      frames.reachable >= l.regions[i].End() / PAGE_SIZE
    ensures ok && frames.reachable != 0 ==>
      exists i :: 0 <= i < |l.regions| && l.regions[i].available && frames.reachable * PAGE_SIZE <= l.regions[i].End()
  {
    hide Bits, F.FrameAllocator.Taken, F.FrameAllocator.Valid, F.NoRun, PageMap.Valid, Reflects, Requests, S.KernelArea, S.UserArea, Entry, Pow2;
    pages := new PageMap(frames, nx);
    Empty(pages);
    ok := MapAll(pages, l);
    if ok {
      StacksFree(l, pages.tables, pages.root, nx);
    }
  }

  lemma {:induction false} Empty(pages: PageMap)
    requires forall q :: 0 <= q < PAGES ==> pages.Leaf(q) == 0
    ensures Reflects(pages.tables, pages.root, pages.noExecuteAvailable, [])
  {
    hide Entry;
    forall q | 0 <= q < PAGES
      ensures Entry(pages.tables, pages.root, q, 1) == 0
    {
      assert pages.Leaf(q) == 0;
    }
  }

  /** The maps in their order, on an empty page map. */
  method MapAll(pages: PageMap, l: Layout) returns (ok: bool)
    requires pages.Valid() && Sane(l) && Reflects(pages.tables, pages.root, pages.noExecuteAvailable, [])
    modifies pages`tables, pages`tableCount, pages`at, pages.frames`freeFrames, pages.frames`nextIndex, pages.frames`live, pages.frames`reachable, pages.frames.words
    ensures ok ==> pages.Valid() && Reflects(pages.tables, pages.root, pages.noExecuteAvailable, Requests(l))
    ensures !ok ==> F.NoRun(pages.frames.Taken(), pages.frames.reachable, 0, 1)
    ensures ok ==> forall i :: 0 <= i < |l.regions| && l.regions[i].available && pages.frames.frameCount * PAGE_SIZE >= l.regions[i].End() ==>
      pages.frames.reachable >= l.regions[i].End() / PAGE_SIZE
    ensures ok && pages.frames.reachable != 0 ==>
      exists i :: 0 <= i < |l.regions| && l.regions[i].available && pages.frames.reachable * PAGE_SIZE <= l.regions[i].End()
  {
    hide Bits, F.NoRun, F.FrameAllocator.Taken, F.FrameAllocator.Valid, Reflects, Identity, Devices, Direct, Image, Tree, UserPaths, WriteXorExecute, Backed;
    ghost var a := Identity(0, LOW_MEMORY_END, READ_WRITE, NORMAL);
    assert [] + a == a;
    LowFits(0, LOW_MEMORY_END, READ_WRITE, NORMAL);
    ok := MapIdentity(pages, 0, LOW_MEMORY_END, READ_WRITE, NORMAL, []);
    if !ok {
      return;
    }
    ok := MapDeviceRegisters(pages, l, a);
    if !ok {
      return;
    }
    var ramEnd;
    ok, ramEnd := MapDirectMap(pages, l, a + Devices(l));
    if !ok {
      return;
    }
    ok := MapKernelImage(pages, l, a + Devices(l) + Direct(l.regions));
    if !ok {
      return;
    }
    pages.frames.SetReachableLimit(ramEnd);
  }

  // ----- One request

  lemma {:induction false} TwoTo52()
    ensures Pow2(52) == 0x10_0000_0000_0000
  {
    assert Pow2(13) == 8192;
    assert Pow2(26) == 67108864;
    assert Pow2(39) == 549755813888;
  }

  lemma {:induction false} Reflected(ts: Tables, us: Tables, root: nat, nx: bool, log: seq<Request>, r: Request)
    requires Reflects(ts, root, nx, log)
    requires RangeSet(ts, us, root, Page(r.virtual), PageCount(r.virtual, r.size), PageStart(r.physical), FlagsFor(r.access, KERNEL_ONLY, r.caching, nx))
    ensures Reflects(us, root, nx, log + [r])
  {
    hide Entry, Or, FlagsFor, Page, PageCount;
    assert (log + [r])[..|log|] == log;
  }

  lemma {:induction false} MoreDirect(regions: seq<F.Region>, i: nat, log: seq<Request>)
    requires i < |regions|
    ensures var r := regions[i]; r.available ==> log + Direct(regions[..i + 1]) == log + Direct(regions[..i]) + [AtOffset(r)]
    ensures !regions[i].available ==> log + Direct(regions[..i + 1]) == log + Direct(regions[..i])
  {
    assert regions[..i + 1][..i] == regions[..i];
    var front := Direct(regions[..i]);
    assert log + (front + [AtOffset(regions[i])]) == log + front + [AtOffset(regions[i])];
    assert front + [] == front;
  }

  lemma {:induction false} LowFits(start: nat, end: nat, access: Access, caching: Caching)
    requires start < end <= S.LOW_LIMIT
    ensures Fits(Request(start, start, end - start, access, caching))
  {
    TwoTo52();
  }

  lemma {:induction false} DirectFits(r: F.Region)
    requires r.End() <= DIRECT_LIMIT
    ensures Fits(AtOffset(r))
  {
    TwoTo52();
  }

  // ----- What the requests amount to

  lemma {:induction false} OutcomeSplit(a: seq<Request>, b: seq<Request>, q: nat, nx: bool)
    ensures Outcome(a + b, q, nx) == if Touched(b, q) then Outcome(b, q, nx) else Outcome(a, q, nx)
  {
    hide Covers, LeafFor;
    if b == [] {
      assert a + b == a;
    } else {
      var c, r := b[..|b| - 1], b[|b| - 1];
      assert (a + b)[..|a + b| - 1] == a + c;
      OutcomeSplit(a, c, q, nx);
      assert Touched(b, q) <==> Covers(r, q) || Touched(c, q) by {
        assert b == c + [r];
        assert Covers(r, q) ==> Covers(b[|b| - 1], q);
        assert forall i :: 0 <= i < |c| ==> c[i] == b[i];
      }
    }
  }

  lemma {:induction false} Untouched(log: seq<Request>, q: nat, nx: bool)
    requires !Touched(log, q)
    ensures Outcome(log, q, nx) == 0
  {
    hide Covers, LeafFor;
    if log != [] {
      var c := log[..|log| - 1];
      assert !Covers(log[|log| - 1], q);
      assert forall i :: 0 <= i < |c| ==> c[i] == log[i];
      Untouched(c, q, nx);
    }
  }

  /** Page numbers of addresses in the two halves. */
  lemma {:induction false} PageNumbers(v: nat)
    ensures v < HALF ==> Page(v) == v / PAGE_SIZE
    ensures ADDRESS_SPACE - HALF <= v < ADDRESS_SPACE ==> Page(v) == v / PAGE_SIZE - 0xFFFF * PAGES
  {
    var p := v / PAGE_SIZE;
    if v < HALF {
      Euclid(p, PAGES, 0, p);
    } else if ADDRESS_SPACE - HALF <= v < ADDRESS_SPACE {
      Euclid(p, PAGES, 0xFFFF, p - 0xFFFF * PAGES);
    }
  }

  /** A request covers the pages its addresses lie on: from lo up to hi, if these bound it. */
  lemma {:induction false} CoversBetween(r: Request, q: nat, lo: nat, hi: nat)
    requires Covers(r, q) && lo % PAGE_SIZE == 0 && hi % PAGE_SIZE == 0 && lo <= r.virtual && r.virtual + r.size <= hi
    requires hi <= HALF || (ADDRESS_SPACE - HALF <= lo && hi < ADDRESS_SPACE)
    ensures Page(lo) <= q && q - Page(lo) < (hi - lo) / PAGE_SIZE
  {
    hide Page;
    PageNumbers(lo);
    PageNumbers(r.virtual);
  }

  // ----- Each kind of request stays in its part of the address space

  lemma {:induction false} IdentityLow(start: nat, end: nat, access: Access, caching: Caching, q: nat)
    requires end <= S.LOW_LIMIT && Touched(Identity(start, end, access, caching), q)
    ensures q < S.LOW_LIMIT / PAGE_SIZE
  {
    hide Covers;
    PageNumbers(0);
    CoversBetween(Identity(start, end, access, caching)[0], q, 0, S.LOW_LIMIT);
  }

  lemma {:induction false} ImageHigh(s: Span, access: Access, q: nat)
    requires Linked(s) && Touched(Image(s, access), q)
    ensures q >= IMAGE_FIRST
  {
    hide Covers;
    PageNumbers(S.KERNEL_VMA);
    CoversBetween(Image(s, access)[0], q, S.KERNEL_VMA, ADDRESS_SPACE - PAGE_SIZE);
  }

  lemma {:induction false} RegionBetween(r: F.Region, q: nat, nx: bool)
    requires r.End() <= DIRECT_LIMIT && Covers(AtOffset(r), q)
    ensures DIRECT_FIRST <= q < S.KERNEL_FIRST
    ensures LeafFor(AtOffset(r), q, nx) == Or((q - DIRECT_FIRST) * PAGE_SIZE, FlagsFor(READ_WRITE, KERNEL_ONLY, NORMAL, nx))
  {
    hide Covers, Page, PageCount, Or, FlagsFor;
    PageNumbers(DIRECT_MAP_BASE);
    PageNumbers(r.address + DIRECT_MAP_BASE);
    CoversBetween(AtOffset(r), q, DIRECT_MAP_BASE, S.KERNEL_STACK_BASE);
    CoversFrom(AtOffset(r), q);
    assert (r.address + DIRECT_MAP_BASE) / PAGE_SIZE == r.address / PAGE_SIZE + DIRECT_MAP_BASE / PAGE_SIZE;
    assert PageStart(r.address) + (q - Page(r.address + DIRECT_MAP_BASE)) * PAGE_SIZE == (q - DIRECT_FIRST) * PAGE_SIZE;
  }

  lemma {:induction false} CoversFrom(r: Request, q: nat)
    requires Covers(r, q)
    ensures Page(r.virtual) <= q
  {
  }

  /** Whatever region a page of the direct map belongs to, its frame is at the offset. */
  lemma {:induction false} DirectOutcome(regions: seq<F.Region>, q: nat, nx: bool)
    requires (forall i :: 0 <= i < |regions| ==> regions[i].End() <= DIRECT_LIMIT) && Touched(Direct(regions), q)
    ensures DIRECT_FIRST <= q < S.KERNEL_FIRST
    ensures Outcome(Direct(regions), q, nx) == Or((q - DIRECT_FIRST) * PAGE_SIZE, FlagsFor(READ_WRITE, KERNEL_ONLY, NORMAL, nx))
  {
    hide Covers, LeafFor, Or, FlagsFor, AtOffset;
    var n := |regions| - 1;
    var rest, r := regions[..n], regions[n];
    var last := if r.available then [AtOffset(r)] else [];
    OutcomeSplit(Direct(rest), last, q, nx);
    if Touched(last, q) {
      RegionBetween(r, q, nx);
      assert last[..0] == [];
    } else {
      TouchedParts(Direct(rest), last, q);
      DirectOutcome(rest, q, nx);
    }
  }

  lemma {:induction false} TouchedParts(a: seq<Request>, b: seq<Request>, q: nat)
    ensures Touched(a + b, q) <==> Touched(a, q) || Touched(b, q)
  {
    hide Covers;
    if i :| 0 <= i < |a| && Covers(a[i], q) {
      assert (a + b)[i] == a[i];
    }
    if i :| 0 <= i < |b| && Covers(b[i], q) {
      assert (a + b)[|a| + i] == b[i];
    }
    if i :| 0 <= i < |a + b| && Covers((a + b)[i], q) {
      assert (a + b)[i] == if i < |a| then a[i] else b[i - |a|];
    }
  }

  lemma {:induction false} DevicesLow(l: Layout, q: nat)
    requires Sane(l) && Touched(Devices(l), q)
    ensures q < S.LOW_LIMIT / PAGE_SIZE
  {
    hide Covers, Identity;
    var first := Identity(l.localApic, l.localApic + PAGE_SIZE, READ_WRITE, DISABLED);
    var second := Identity(l.ioApic, l.ioApic + PAGE_SIZE, READ_WRITE, DISABLED);
    TouchedParts(first, if l.ioApic != 0 then second else [], q);
    if Touched(first, q) {
      IdentityLow(l.localApic, l.localApic + PAGE_SIZE, READ_WRITE, DISABLED, q);
    } else {
      IdentityLow(l.ioApic, l.ioApic + PAGE_SIZE, READ_WRITE, DISABLED, q);
    }
  }

  /** Above low memory a page has what the direct map or the image asks for. */
  lemma {:induction false} AboveLow(l: Layout, q: nat, nx: bool)
    requires Sane(l) && q >= S.LOW_LIMIT / PAGE_SIZE
    ensures var image := Image(l.text, READ_EXECUTE) + Image(l.rodata, READ_ONLY) + Image(l.data, READ_WRITE);
      Outcome(Requests(l), q, nx) == if Touched(image, q) then Outcome(image, q, nx) else Outcome(Direct(l.regions), q, nx)
  {
    hide Covers, Outcome, Identity, Devices, Direct, Image;
    var low, devices, direct := Identity(0, LOW_MEMORY_END, READ_WRITE, NORMAL), Devices(l), Direct(l.regions);
    var boot := Identity(l.boot.start, l.boot.end, READ_EXECUTE, NORMAL);
    var text, rodata, data := Image(l.text, READ_EXECUTE), Image(l.rodata, READ_ONLY), Image(l.data, READ_WRITE);
    var image := text + rodata + data;
    assert Requests(l) == low + devices + direct + boot + image;
    OutcomeSplit(low + devices + direct + boot, image, q, nx);
    OutcomeSplit(low + devices + direct, boot, q, nx);
    OutcomeSplit(low + devices, direct, q, nx);
    OutcomeSplit(low, devices, q, nx);
    NotLow(l, q);
    Untouched(low, q, nx);
    if !Touched(direct, q) {
      Untouched(direct, q, nx);
    }
  }

  lemma {:induction false} NotLow(l: Layout, q: nat)
    requires Sane(l) && q >= S.LOW_LIMIT / PAGE_SIZE
    ensures !Touched(Identity(0, LOW_MEMORY_END, READ_WRITE, NORMAL), q) && !Touched(Devices(l), q)
    ensures !Touched(Identity(l.boot.start, l.boot.end, READ_EXECUTE, NORMAL), q)
  {
    hide Covers, Identity, Devices;
    if Touched(Identity(0, LOW_MEMORY_END, READ_WRITE, NORMAL), q) {
      IdentityLow(0, LOW_MEMORY_END, READ_WRITE, NORMAL, q);
    }
    if Touched(Devices(l), q) {
      DevicesLow(l, q);
    }
    if Touched(Identity(l.boot.start, l.boot.end, READ_EXECUTE, NORMAL), q) {
      IdentityLow(l.boot.start, l.boot.end, READ_EXECUTE, NORMAL, q);
    }
  }

  lemma {:induction false} ImagesHigh(l: Layout, q: nat)
    requires Sane(l) && q < IMAGE_FIRST
    ensures !Touched(Image(l.text, READ_EXECUTE) + Image(l.rodata, READ_ONLY) + Image(l.data, READ_WRITE), q)
  {
    hide Covers, Image;
    var text, rodata, data := Image(l.text, READ_EXECUTE), Image(l.rodata, READ_ONLY), Image(l.data, READ_WRITE);
    TouchedParts(text + rodata, data, q);
    TouchedParts(text, rodata, q);
    if Touched(text, q) {
      ImageHigh(l.text, READ_EXECUTE, q);
    } else if Touched(rodata, q) {
      ImageHigh(l.rodata, READ_ONLY, q);
    } else if Touched(data, q) {
      ImageHigh(l.data, READ_WRITE, q);
    }
  }

  // ----- The results

  /** The areas for stacks are left free, so the stack allocator can start on these tables. */
  lemma {:induction false} StacksFree(l: Layout, ts: Tables, root: nat, nx: bool)
    requires Sane(l) && Reflects(ts, root, nx, Requests(l))
    ensures S.KernelArea(ts, root, 0) && S.UserArea(ts, root, 0)
  {
    hide Entry, Outcome, Requests, Direct, Image, Covers;
    forall q: nat | S.StackPage(q)
      ensures Entry(ts, root, q, 1) == 0
    {
      AboveLow(l, q, nx);
      ImagesHigh(l, q);
      if Touched(Direct(l.regions), q) {
        DirectOutcome(l.regions, q, nx);
      } else {
        Untouched(Direct(l.regions), q, nx);
      }
    }
    ZeroIsNotPresent();
  }

  /** Every byte of available RAM is where the offset says: mapped writable, for the kernel only. */
  lemma {:induction false} DirectMap(l: Layout, i: nat, a: nat, nx: bool)
    requires Sane(l) && i < |l.regions| && l.regions[i].available && l.regions[i].address <= a < l.regions[i].End()
    ensures var e := Outcome(Requests(l), Page(a + DIRECT_MAP_BASE), nx);
      && IsPresent(e) && IsWritable(e) && !IsUser(e) && (IsNoExecute(e) <==> nx) && !IsUncached(e)
      && Address(e) + (a + DIRECT_MAP_BASE) % PAGE_SIZE == a
  {
    hide Outcome, Requests, Direct, Image, Covers, IsPresent, IsWritable, IsUser, IsNoExecute, IsUncached, Address, FlagsFor, Or, FrameAddress;
    var q := Page(a + DIRECT_MAP_BASE);
    PageNumbers(a + DIRECT_MAP_BASE);
    RegionTouched(l.regions, i, a);
    DirectOutcome(l.regions, q, nx);
    AboveLow(l, q, nx);
    ImagesHigh(l, q);
    TwoTo52();
    FreshFrame(a / PAGE_SIZE, a / PAGE_SIZE + 1);
    LeafBits(a / PAGE_SIZE * PAGE_SIZE, READ_WRITE, KERNEL_ONLY, NORMAL, nx);
  }

  lemma {:induction false} RegionTouched(regions: seq<F.Region>, i: nat, a: nat)
    requires (forall j :: 0 <= j < |regions| ==> regions[j].End() <= DIRECT_LIMIT)
    requires i < |regions| && regions[i].available && regions[i].address <= a < regions[i].End()
    ensures Touched(Direct(regions), Page(a + DIRECT_MAP_BASE))
  {
    hide Covers, AtOffset, Page;
    var n, q := |regions| - 1, Page(a + DIRECT_MAP_BASE);
    var r := regions[n];
    var last := if r.available then [AtOffset(r)] else [];
    TouchedParts(Direct(regions[..n]), last, q);
    if i == n {
      AddressCovered(r, a);
      assert Covers(last[0], q);
    } else {
      RegionTouched(regions[..n], i, a);
    }
  }

  lemma {:induction false} AddressCovered(r: F.Region, a: nat)
    requires r.End() <= DIRECT_LIMIT && r.address <= a < r.End()
    ensures Covers(AtOffset(r), Page(a + DIRECT_MAP_BASE))
  {
    hide Page;
    PageNumbers(a + DIRECT_MAP_BASE);
    PageNumbers(r.address + DIRECT_MAP_BASE);
  }

  /** Sections start and end on page boundaries and follow one another. */
  predicate Sectioned(l: Layout) {
    && l.text.start % PAGE_SIZE == 0 && l.text.end % PAGE_SIZE == 0 && l.rodata.start % PAGE_SIZE == 0
    && l.rodata.end % PAGE_SIZE == 0 && l.data.start % PAGE_SIZE == 0 && l.data.end % PAGE_SIZE == 0
    && l.text.end <= l.rodata.start && l.rodata.end <= l.data.start
  }

  /** The rights of the section an address of the image lies in. */
  function SectionAccess(l: Layout, x: nat): (access: Access) {
    if x < l.text.end then READ_EXECUTE else if x < l.rodata.end then READ_ONLY else READ_WRITE
  }

  predicate InSection(l: Layout, x: nat) {
    l.text.start <= x < l.text.end || l.rodata.start <= x < l.rodata.end || l.data.start <= x < l.data.end
  }

  /** The kernel runs from its text alone, may write its data alone, and finds both at the link offset. */
  lemma {:induction false} ImageRights(l: Layout, x: nat, nx: bool)
    requires Sane(l) && Sectioned(l) && InSection(l, x)
    ensures var e := Outcome(Requests(l), Page(x), nx); var access := SectionAccess(l, x);
      && IsPresent(e) && !IsUser(e) && (IsWritable(e) <==> access == READ_WRITE) && (IsNoExecute(e) <==> access != READ_EXECUTE && nx)
      && !IsUncached(e) && Address(e) + x % PAGE_SIZE == x - S.KERNEL_VMA
  {
    hide Outcome, Requests, Direct, Image, Covers, IsPresent, IsWritable, IsUser, IsNoExecute, IsUncached, Address, FlagsFor, Or, FrameAddress;
    var q := Page(x);
    PageNumbers(x);
    AboveLow(l, q, nx);
    var text, rodata, data := Image(l.text, READ_EXECUTE), Image(l.rodata, READ_ONLY), Image(l.data, READ_WRITE);
    TouchedParts(text + rodata, data, q);
    TouchedParts(text, rodata, q);
    OutcomeSplit(text + rodata, data, q, nx);
    OutcomeSplit(text, rodata, q, nx);
    SpanTouched(l.text, READ_EXECUTE, x, nx);
    SpanTouched(l.rodata, READ_ONLY, x, nx);
    SpanTouched(l.data, READ_WRITE, x, nx);
    var f := (x - S.KERNEL_VMA) / PAGE_SIZE;
    TwoTo52();
    FreshFrame(f, f + 1);
    LeafBits(f * PAGE_SIZE, SectionAccess(l, x), KERNEL_ONLY, NORMAL, nx);
  }

  /** A section on page boundaries covers exactly the pages of its addresses. */
  lemma {:induction false} SpanTouched(s: Span, access: Access, x: nat, nx: bool)
    requires Linked(s) && s.start % PAGE_SIZE == 0 && s.end % PAGE_SIZE == 0 && S.KERNEL_VMA <= x < ADDRESS_SPACE - PAGE_SIZE
    ensures Touched(Image(s, access), Page(x)) <==> s.start <= x < s.end
    ensures s.start <= x < s.end ==>
      Outcome(Image(s, access), Page(x), nx) == Or((x - S.KERNEL_VMA) / PAGE_SIZE * PAGE_SIZE, FlagsFor(access, KERNEL_ONLY, NORMAL, nx))
  {
    hide Page, PageCount, PageStart, Or, FlagsFor;
    PageNumbers(x);
    PageNumbers(s.start);
    if s.start < s.end {
      var log := Image(s, access);
      AlignedSpan(s.start, s.end, x);
      assert Covers(log[0], Page(x)) <==> s.start <= x < s.end;
      assert log[..0] == [];
      if s.start <= x {
        AlignedOffset(S.KERNEL_VMA, s.start, x);
      }
    }
  }

  /** Between page boundaries, the pages are those of the bytes. */
  lemma {:induction false} AlignedSpan(start: nat, end: nat, x: nat)
    requires start % PAGE_SIZE == 0 && end % PAGE_SIZE == 0 && start < end
    ensures start / PAGE_SIZE <= x / PAGE_SIZE <= (end - 1) / PAGE_SIZE <==> start <= x < end
    ensures PageCount(start, end - start) == (end - 1) / PAGE_SIZE + 1 - start / PAGE_SIZE
  {
  }

  lemma {:induction false} AlignedOffset(base: nat, start: nat, x: nat)
    requires base % PAGE_SIZE == 0 && start % PAGE_SIZE == 0 && base <= start <= x
    ensures PageStart(start - base) + (x / PAGE_SIZE - start / PAGE_SIZE) * PAGE_SIZE == (x - base) / PAGE_SIZE * PAGE_SIZE
  {
    assert start - base == (start / PAGE_SIZE - base / PAGE_SIZE) * PAGE_SIZE;
    assert (x - base) / PAGE_SIZE == x / PAGE_SIZE - base / PAGE_SIZE;
  }

  // ----- Low memory, one to one

  /** Some byte of x's page lies from start up to end. */
  predicate OnPageOf(start: nat, end: nat, x: nat) {
    start < end && start / PAGE_SIZE <= x / PAGE_SIZE <= (end - 1) / PAGE_SIZE
  }

  predicate OnDevicePage(l: Layout, x: nat) {
    OnPageOf(l.localApic, l.localApic + PAGE_SIZE, x) || (l.ioApic != 0 && OnPageOf(l.ioApic, l.ioApic + PAGE_SIZE, x))
  }

  /**
   * Below 4 GiB every address that is mapped is mapped to itself, for the kernel only.
   * The boot code may be run and not written; device registers, and nothing else, bypass
   * the cache; the rest of low memory may be written and not run; and no other page exists.
   */
  lemma {:induction false} LowMap(l: Layout, x: nat, nx: bool)
    requires Sane(l) && x < S.LOW_LIMIT
    ensures var e := Outcome(Requests(l), Page(x), nx);
      var boot, device := OnPageOf(l.boot.start, l.boot.end, x), OnDevicePage(l, x);
      if boot || device || x < LOW_MEMORY_END then
        && IsPresent(e) && !IsUser(e) && Address(e) + x % PAGE_SIZE == x
        && (IsWritable(e) <==> !boot) && (IsNoExecute(e) <==> !boot && nx) && (IsUncached(e) <==> device && !boot)
      else e == 0
  {
    hide Outcome, Requests, Direct, Image, Identity, Devices, Covers, IsPresent, IsWritable, IsUser, IsNoExecute, IsUncached, Address, FlagsFor, Or, FrameAddress, OnPageOf;
    var q, boot, device := Page(x), OnPageOf(l.boot.start, l.boot.end, x), OnDevicePage(l, x);
    BelowDirect(l, x, nx);
    var lowest, apics := Identity(0, LOW_MEMORY_END, READ_WRITE, NORMAL), Devices(l);
    IdentityLeaf(l.boot.start, l.boot.end, READ_EXECUTE, NORMAL, x, nx);
    DevicesLeaf(l, x, nx);
    IdentityLeaf(0, LOW_MEMORY_END, READ_WRITE, NORMAL, x, nx);
    LowestPages(x);
    if !Touched(lowest, q) {
      Untouched(lowest, q, nx);
    }
    var f := x / PAGE_SIZE;
    TwoTo52();
    FreshFrame(f, f + 1);
    LeafBits(f * PAGE_SIZE, if boot then READ_EXECUTE else READ_WRITE, KERNEL_ONLY, if device && !boot then DISABLED else NORMAL, nx);
  }

  lemma {:induction false} LowestPages(x: nat)
    ensures OnPageOf(0, LOW_MEMORY_END, x) <==> x < LOW_MEMORY_END
  {
  }

  /** A low page has what the boot code asks for, or else the devices, or else low memory. */
  lemma {:induction false} BelowDirect(l: Layout, x: nat, nx: bool)
    requires Sane(l) && x < S.LOW_LIMIT
    ensures var boot := Identity(l.boot.start, l.boot.end, READ_EXECUTE, NORMAL);
      Outcome(Requests(l), Page(x), nx) ==
        if Touched(boot, Page(x)) then Outcome(boot, Page(x), nx)
        else if Touched(Devices(l), Page(x)) then Outcome(Devices(l), Page(x), nx)
        else Outcome(Identity(0, LOW_MEMORY_END, READ_WRITE, NORMAL), Page(x), nx)
  {
    hide Covers, Outcome, Identity, Devices, Direct, Image, Page;
    var q := Page(x);
    PageNumbers(x);
    var lowest, devices, direct := Identity(0, LOW_MEMORY_END, READ_WRITE, NORMAL), Devices(l), Direct(l.regions);
    var boot := Identity(l.boot.start, l.boot.end, READ_EXECUTE, NORMAL);
    var image := Image(l.text, READ_EXECUTE) + Image(l.rodata, READ_ONLY) + Image(l.data, READ_WRITE);
    assert Requests(l) == lowest + devices + direct + boot + image;
    OutcomeSplit(lowest + devices + direct + boot, image, q, nx);
    OutcomeSplit(lowest + devices + direct, boot, q, nx);
    OutcomeSplit(lowest + devices, direct, q, nx);
    OutcomeSplit(lowest, devices, q, nx);
    ImagesHigh(l, q);
    if Touched(direct, q) {
      DirectOutcome(l.regions, q, nx);
    }
  }

  /** A one-to-one request covers the pages its bytes lie on and gives each its own address. */
  lemma {:induction false} IdentityLeaf(start: nat, end: nat, access: Access, caching: Caching, x: nat, nx: bool)
    requires end <= S.LOW_LIMIT && x < S.LOW_LIMIT
    ensures Touched(Identity(start, end, access, caching), Page(x)) <==> OnPageOf(start, end, x)
    ensures OnPageOf(start, end, x) ==>
      Outcome(Identity(start, end, access, caching), Page(x), nx) == Or(x / PAGE_SIZE * PAGE_SIZE, FlagsFor(access, KERNEL_ONLY, caching, nx))
  {
    hide Page, Or, FlagsFor;
    PageNumbers(x);
    PageNumbers(start);
    if start < end {
      var log := Identity(start, end, access, caching);
      assert Covers(log[0], Page(x)) <==> OnPageOf(start, end, x);
      assert log[..0] == [];
    }
  }

  lemma {:induction false} DevicesLeaf(l: Layout, x: nat, nx: bool)
    requires Sane(l) && x < S.LOW_LIMIT
    ensures Touched(Devices(l), Page(x)) <==> OnDevicePage(l, x)
    ensures OnDevicePage(l, x) ==>
      Outcome(Devices(l), Page(x), nx) == Or(x / PAGE_SIZE * PAGE_SIZE, FlagsFor(READ_WRITE, KERNEL_ONLY, DISABLED, nx))
  {
    hide Page, Or, FlagsFor, Identity, Outcome, Covers, OnPageOf;
    var first := Identity(l.localApic, l.localApic + PAGE_SIZE, READ_WRITE, DISABLED);
    var second := if l.ioApic != 0 then Identity(l.ioApic, l.ioApic + PAGE_SIZE, READ_WRITE, DISABLED) else [];
    IdentityLeaf(l.localApic, l.localApic + PAGE_SIZE, READ_WRITE, DISABLED, x, nx);
    IdentityLeaf(l.ioApic, l.ioApic + PAGE_SIZE, READ_WRITE, DISABLED, x, nx);
    TouchedParts(first, second, Page(x));
    OutcomeSplit(first, second, Page(x), nx);
  }
}
