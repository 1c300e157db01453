/** The four-level radix tree of x86-64 paging (Intel SDM volume 3A, section 4.5), as the
    contents of the frames that hold its tables. An entry is a 64-bit word. */
module PageTables {
  import opened Options
  import opened Powers
  import opened Bitmap

  const PRESENT: nat := 1
  const WRITABLE: nat := 2
  const USER: nat := 4
  const CACHE_DISABLE: nat := 16
  const LARGE: nat := 128
  const NO_EXECUTE: nat := Pow2(63)
  const ADDRESS_MASK: nat := Pow2(52) - Pow2(12)

  const PAGE_SIZE: nat := 4096
  const ENTRIES: nat := 512
  const PAGES: nat := 0x10_0000_0000   // 512^4, the pages 48 bits of address reach

  type Tables = map<nat, seq<nat>>

  // ----- Bits of an entry

  predicate IsPresent(e: nat) { Bit(e, 0) }
  predicate IsWritable(e: nat) { Bit(e, 1) }
  predicate IsUser(e: nat) { Bit(e, 2) }
  predicate IsUncached(e: nat) { Bit(e, 4) }
  predicate IsLarge(e: nat) { Bit(e, 7) }
  predicate IsNoExecute(e: nat) { Bit(e, 63) }

  /** The frame an entry points to. */
  function Address(e: nat): (a: nat) { And(e, ADDRESS_MASK) }

  lemma {:induction false} BitsDecide(a: nat, b: nat)
    requires forall i: nat :: Bit(a, i) == Bit(b, i)
    ensures a == b
  {
    if a != 0 || b != 0 {
      assert Bit(a, 0) == Bit(b, 0);
      forall i: nat
        ensures Bit(a / 2, i) == Bit(b / 2, i)
      {
        assert Bit(a, i + 1) == Bit(b, i + 1);
      }
      BitsDecide(a / 2, b / 2);
    }
  }

  lemma {:induction false} SpanBit(a: nat, b: nat, i: nat)
    requires a <= b
    ensures Pow2(a) <= Pow2(b)
    ensures Bit(Pow2(b) - Pow2(a), i) <==> a <= i < b
  {
    Pow2Monotone(a, b);
    if b == 0 {
      ZeroBit(i);
    } else if a == 0 {
      assert Pow2(b) - 1 == 2 * (Pow2(b - 1) - 1) + 1;
      if i > 0 { SpanBit(0, b - 1, i - 1); }
    } else {
      assert Pow2(b) - Pow2(a) == 2 * (Pow2(b - 1) - Pow2(a - 1));
      SpanBit(a - 1, b - 1, if i > 0 then i - 1 else 0);
    }
  }

  lemma {:induction false} HighBitsClear(x: nat, k: nat, i: nat)
    requires x < Pow2(k) && k <= i
    ensures !Bit(x, i)
  {
    if k == 0 { ZeroBit(i); } else { HighBitsClear(x / 2, k - 1, i - 1); }
  }

  lemma {:induction false} LowBitsClear(x: nat, k: nat, i: nat)
    requires Aligned(x, k) && i < k
    ensures !Bit(x, i)
  {
    if i > 0 { LowBitsClear(x / 2, k - 1, i - 1); }
  }

  /** A frame address as it can stand in an entry: page aligned and below 2^52. */
  ghost predicate FrameAddress(a: nat) {
    Aligned(a, 12) && a < Pow2(52)
  }

  lemma {:induction false} FrameBits(a: nat, i: nat)
    requires FrameAddress(a) && Bit(a, i)
    ensures 12 <= i < 52
  {
    if i < 12 { LowBitsClear(a, 12, i); }
    if i >= 52 { HighBitsClear(a, 52, i); }
  }

  /** Flags outside the address bits leave the address alone. */
  lemma {:induction false} AddressOfOr(a: nat, f: nat)
    requires FrameAddress(a)
    requires forall i: nat :: Bit(f, i) ==> i < 12 || i >= 52
    ensures Address(Or(a, f)) == a
  {
    hide Bit, And, Or, Pow2;
    forall i: nat
      ensures Bit(Address(Or(a, f)), i) == Bit(a, i)
    {
      AndBit(Or(a, f), ADDRESS_MASK, i);
      OrBit(a, f, i);
      SpanBit(12, 52, i);
      if Bit(a, i) { FrameBits(a, i); }
    }
    BitsDecide(Address(Or(a, f)), a);
  }

  /** Adding flags to an entry keeps the address it points to. */
  lemma {:induction false} AddressUnflagged(e: nat, f: nat)
    requires forall i: nat :: Bit(f, i) ==> i < 12 || i >= 52
    ensures Address(Or(e, f)) == Address(e)
  {
    hide Bit, And, Or, Pow2;
    forall i: nat
      ensures Bit(Address(Or(e, f)), i) == Bit(Address(e), i)
    {
      AndBit(Or(e, f), ADDRESS_MASK, i);
      AndBit(e, ADDRESS_MASK, i);
      OrBit(e, f, i);
      SpanBit(12, 52, i);
    }
    BitsDecide(Address(Or(e, f)), Address(e));
  }

  lemma {:induction false} FlagBits(i: nat)
    ensures Bit(PRESENT, i) <==> i == 0
    ensures Bit(WRITABLE, i) <==> i == 1
    ensures Bit(USER, i) <==> i == 2
    ensures Bit(CACHE_DISABLE, i) <==> i == 4
    ensures Bit(NO_EXECUTE, i) <==> i == 63
  {
    Pow2Bit(0, i);
    Pow2Bit(1, i);
    Pow2Bit(2, i);
    Pow2Bit(4, i);
    Pow2Bit(63, i);
    assert Pow2(1) == 2 && Pow2(2) == 4 && Pow2(4) == 16;
  }

  // ----- Walking the tree

  /** Pages covered by one entry at a level. */
  function Scale(level: nat): (r: nat)
    ensures r >= 1
  {
    if level <= 1 then 1 else if level == 2 then 512 else if level == 3 then 262144 else 134217728
  }

  function Index(page: nat, level: nat): (r: nat)
    ensures r < ENTRIES
  {
    page / Scale(level) % ENTRIES
  }

  /** What the indices above a level have in common: it names the table at that level. */
  function Prefix(page: nat, level: nat): (r: nat) {
    page / Scale(level) / ENTRIES
  }

  lemma {:induction false} PrefixStep(page: nat, level: nat)
    requires 2 <= level <= 4
    ensures Prefix(page, level - 1) == page / Scale(level)
    ensures Prefix(page, level - 1) == Prefix(page, level) * ENTRIES + Index(page, level)
  {
  }

  lemma {:induction false} TopPrefix(page: nat)
    requires page < PAGES
    ensures Prefix(page, 4) == 0
  {
  }

  function EntryAt(ts: Tables, f: nat, i: nat): (e: nat) {
    if f in ts && i < |ts[f]| then ts[f][i] else 0
  }

  /** The table consulted for a page at a level, if the entries above lead to one. */
  function TableFor(ts: Tables, root: nat, page: nat, level: nat): (t: Option<nat>)
    requires 1 <= level <= 4
    decreases 4 - level
  {
    if level == 4 then Some(root)
    else
      match TableFor(ts, root, page, level + 1)
      case None => None
      case Some(f) =>
        var e := EntryAt(ts, f, Index(page, level + 1));
        if IsPresent(e) && !IsLarge(e) then Some(Address(e)) else None
  }

  /** The entry consulted for a page at a level, or 0 when the walk ends above it. */
  function Entry(ts: Tables, root: nat, page: nat, level: nat): (e: nat)
    requires 1 <= level <= 4
  {
    match TableFor(ts, root, page, level)
    case None => 0
    case Some(f) => EntryAt(ts, f, Index(page, level))
  }

  // ----- The shape of the tree

  /** A table's level, and one of the pages it serves. */
  datatype Place = Place(level: nat, page: nat)

  /** A present entry above the leaves is permissive and leads to a table for its pages. */
  ghost predicate LinkOk(ts: Tables, at: map<nat, Place>, f: nat, i: nat)
    requires f in at && at[f].level > 1
  {
    var e, level := EntryAt(ts, f, i), at[f].level;
    IsPresent(e) ==>
      && IsWritable(e) && !IsLarge(e) && !IsNoExecute(e)
      && Address(e) in at && at[Address(e)].level == level - 1
      && Prefix(at[Address(e)].page, level - 1) == Prefix(at[f].page, level) * ENTRIES + i
  }

  /** A table is whole, and the walk for its page arrives at it. */
  ghost predicate TableOk(ts: Tables, root: nat, at: map<nat, Place>, f: nat)
    requires f in at
  {
    && f in ts && |ts[f]| == ENTRIES && FrameAddress(f)
    && 1 <= at[f].level <= 4 && at[f].page < PAGES
    && TableFor(ts, root, at[f].page, at[f].level) == Some(f)
  }

  /** The tables form a tree: every one is reached, and each serves pages of its own. */
  ghost predicate Tree(ts: Tables, root: nat, at: map<nat, Place>) {
    && at.Keys == ts.Keys
    && root in at && at[root].level == 4
    && (forall f {:trigger TableOk(ts, root, at, f)} :: f in at ==> TableOk(ts, root, at, f))
    && (forall f, i {:trigger LinkOk(ts, at, f, i)} :: f in at && at[f].level > 1 && 0 <= i < ENTRIES ==> LinkOk(ts, at, f, i))
  }

  lemma {:induction false} WalkPlace(ts: Tables, root: nat, at: map<nat, Place>, page: nat, level: nat)
    requires Tree(ts, root, at) && page < PAGES && 1 <= level <= 4
    ensures TableFor(ts, root, page, level).Some? ==>
      var f := TableFor(ts, root, page, level).value;
      f in at && at[f].level == level && Prefix(at[f].page, level) == Prefix(page, level)
    decreases 4 - level
  {
    hide Prefix, Index, Address, IsPresent, IsLarge, IsWritable, IsNoExecute, FrameAddress;
    if level == 4 {
      assert TableOk(ts, root, at, root);
      TopPrefix(page);
      TopPrefix(at[root].page);
    } else {
      WalkPlace(ts, root, at, page, level + 1);
      var up := TableFor(ts, root, page, level + 1);
      if up.Some? { WalkDown(ts, root, at, page, level + 1, up.value); }
    }
  }

  lemma {:induction false} WalkDown(ts: Tables, root: nat, at: map<nat, Place>, page: nat, level: nat, f: nat)
    requires Tree(ts, root, at) && 2 <= level <= 4
    requires f in at && at[f].level == level && Prefix(at[f].page, level) == Prefix(page, level)
    ensures var e := EntryAt(ts, f, Index(page, level));
      IsPresent(e) ==> Address(e) in at && at[Address(e)].level == level - 1 && Prefix(at[Address(e)].page, level - 1) == Prefix(page, level - 1)
  {
    hide IsPresent, Address, Index, Prefix, IsLarge, IsWritable, IsNoExecute;
    PrefixStep(page, level);
    IndexBound(page, level);
    assert LinkOk(ts, at, f, Index(page, level));
  }

  lemma {:induction false} IndexBound(page: nat, level: nat)
    ensures 0 <= Index(page, level) < ENTRIES
  {
  }

  /** No two entries lead to the same table. */
  lemma {:induction false} UniqueParent(ts: Tables, root: nat, at: map<nat, Place>, f: nat, i: nat, g: nat, j: nat)
    requires Tree(ts, root, at) && f in at && g in at && at[f].level > 1 && at[g].level > 1 && i < ENTRIES && j < ENTRIES
    requires IsPresent(EntryAt(ts, f, i)) && IsPresent(EntryAt(ts, g, j))
    requires Address(EntryAt(ts, f, i)) == Address(EntryAt(ts, g, j))
    ensures f == g && i == j
  {
    hide IsPresent, Address, Prefix, IsLarge, IsWritable, IsNoExecute, FrameAddress, EntryAt;
    assert LinkOk(ts, at, f, i) && LinkOk(ts, at, g, j);
    assert TableOk(ts, root, at, f) && TableOk(ts, root, at, g);
    SharedPath(ts, root, at[f].page, at[g].page, at[f].level);
  }

  /** Pages with the same prefix share the whole path down to that level. */
  lemma {:induction false} SharedPath(ts: Tables, root: nat, p: nat, q: nat, level: nat)
    requires 1 <= level <= 4 && Prefix(p, level) == Prefix(q, level)
    ensures TableFor(ts, root, p, level) == TableFor(ts, root, q, level)
    decreases 4 - level
  {
    if level < 4 {
      PrefixStep(p, level + 1);
      PrefixStep(q, level + 1);
      SharedPath(ts, root, p, q, level + 1);
    }
  }

  /** A walk passes through the table at a level only for the pages that table is for. */
  lemma {:induction false} WalkMeets(ts: Tables, root: nat, at: map<nat, Place>, p: nat, level: nat, q: nat, k: nat)
    requires Tree(ts, root, at) && p < PAGES && q < PAGES && 1 <= level <= 4 && 1 <= k <= 4
    requires TableFor(ts, root, p, level).Some? && TableFor(ts, root, q, k).Some?
    ensures TableFor(ts, root, p, level) == TableFor(ts, root, q, k) <==> level == k && Prefix(p, level) == Prefix(q, k)
  {
    WalkPlace(ts, root, at, p, level);
    WalkPlace(ts, root, at, q, k);
    if level == k && Prefix(p, level) == Prefix(q, k) { SharedPath(ts, root, p, q, level); }
  }

  // ----- One entry changes

  ghost predicate SamePath(p: nat, q: nat, level: nat) {
    p / Scale(level) == q / Scale(level)
  }

  ghost predicate EntrySame(ts: Tables, us: Tables, root: nat, page: nat, level: nat, q: nat, k: nat, e: nat)
    requires 1 <= k <= 4
  {
    Entry(us, root, q, k) == if k == level && SamePath(q, page, level) then e else Entry(ts, root, q, k)
  }

  /** From ts to us exactly the entry for the page at the level has become e. */
  ghost predicate OneEntry(ts: Tables, us: Tables, root: nat, page: nat, level: nat, e: nat) {
    forall q, k {:trigger EntrySame(ts, us, root, page, level, q, k, e)} ::
      0 <= q < PAGES && 1 <= k <= 4 ==> EntrySame(ts, us, root, page, level, q, k, e)
  }

  function Written(ts: Tables, f: nat, i: nat, e: nat): (us: Tables)
    requires f in ts && i < |ts[f]|
  {
    var table: seq<nat> := ts[f][i := e];
    ts[f := table]
  }

  /** Two entries that send a walk the same way. */
  ghost predicate SameTarget(e: nat, f: nat) {
    IsPresent(e) == IsPresent(f) && IsLarge(e) == IsLarge(f) && Address(e) == Address(f)
  }

  /** The entry above decides where a walk goes. */
  lemma {:induction false} StepByEntry(ts: Tables, root: nat, q: nat, k: nat)
    requires 1 <= k < 4
    ensures var e := Entry(ts, root, q, k + 1);
      TableFor(ts, root, q, k) == if IsPresent(e) && !IsLarge(e) then Some(Address(e)) else None
  {
  }

  lemma {:induction false} SharedEntry(ts: Tables, root: nat, p: nat, q: nat, level: nat)
    requires 1 <= level <= 4 && SamePath(p, q, level)
    ensures Entry(ts, root, p, level) == Entry(ts, root, q, level)
  {
    PathOfIndex(p, q, level);
    SharedPath(ts, root, p, q, level);
  }

  /** Rewriting an entry at the leaves, or one above them without redirecting it, changes
      no walk and no other entry. */
  lemma {:induction false} RewriteWalk(ts: Tables, root: nat, at: map<nat, Place>, page: nat, level: nat, f: nat, e: nat, q: nat, k: nat)
    requires Tree(ts, root, at) && page < PAGES && q < PAGES && 1 <= level <= 4 && 1 <= k <= 4
    requires TableFor(ts, root, page, level) == Some(f) && f in ts && |ts[f]| == ENTRIES
    requires level > 1 ==> SameTarget(Entry(ts, root, page, level), e)
    ensures TableFor(Written(ts, f, Index(page, level), e), root, q, k) == TableFor(ts, root, q, k)
    ensures EntrySame(ts, Written(ts, f, Index(page, level), e), root, page, level, q, k, e)
    decreases 4 - k
  {
    hide Tree, Entry, SamePath, Written, IsPresent, IsLarge, Address, Index;
    var us := Written(ts, f, Index(page, level), e);
    if k < 4 {
      RewriteWalk(ts, root, at, page, level, f, e, q, k + 1);
      StepByEntry(ts, root, q, k);
      StepByEntry(us, root, q, k);
      if SamePath(q, page, level) { SharedEntry(ts, root, q, page, level); }
    } else {
      RootTable(ts, root, q);
      RootTable(us, root, q);
    }
    RewriteEntry(ts, root, at, page, level, f, e, q, k);
  }

  lemma {:induction false} RootTable(ts: Tables, root: nat, q: nat)
    ensures TableFor(ts, root, q, 4) == Some(root)
  {
  }

  lemma {:induction false} PathOfIndex(p: nat, q: nat, level: nat)
    ensures SamePath(p, q, level) <==> Prefix(p, level) == Prefix(q, level) && Index(p, level) == Index(q, level)
  {
    var a, b := p / Scale(level), q / Scale(level);
    assert a == a / ENTRIES * ENTRIES + a % ENTRIES && b == b / ENTRIES * ENTRIES + b % ENTRIES;
  }

  lemma {:induction false} RewriteEntry(ts: Tables, root: nat, at: map<nat, Place>, page: nat, level: nat, f: nat, e: nat, q: nat, k: nat)
    requires Tree(ts, root, at) && page < PAGES && q < PAGES && 1 <= level <= 4 && 1 <= k <= 4
    requires TableFor(ts, root, page, level) == Some(f) && f in ts && |ts[f]| == ENTRIES
    requires TableFor(Written(ts, f, Index(page, level), e), root, q, k) == TableFor(ts, root, q, k)
    ensures EntrySame(ts, Written(ts, f, Index(page, level), e), root, page, level, q, k, e)
  {
    hide Tree, TableFor, SamePath, Index, Prefix;
    PathOfIndex(q, page, level);
    if TableFor(ts, root, q, k).Some? {
      WalkMeets(ts, root, at, page, level, q, k);
    } else if k == level && Prefix(q, level) == Prefix(page, level) {
      SharedPath(ts, root, q, page, level);
    }
  }

  // ----- A new table is linked in

  function EmptyTable(): (t: seq<nat>)
    ensures |t| == ENTRIES && forall i :: 0 <= i < ENTRIES ==> t[i] == 0
  {
    seq(ENTRIES, _ => 0)
  }

  function Linked(ts: Tables, f: nat, i: nat, c: nat, e: nat): (us: Tables)
    requires f in ts && i < |ts[f]| && c != f
  {
    Written(ts[c := EmptyTable()], f, i, e)
  }

  lemma {:induction false} EmptyEntries(us: Tables, c: nat, i: nat)
    requires c in us && us[c] == EmptyTable()
    ensures EntryAt(us, c, i) == 0 && !IsPresent(EntryAt(us, c, i))
  {
  }

  ghost predicate FreshLink(ts: Tables, root: nat, at: map<nat, Place>, page: nat, level: nat, f: nat, c: nat, e: nat) {
    && Tree(ts, root, at) && page < PAGES && 2 <= level <= 4
    && TableFor(ts, root, page, level) == Some(f) && f in ts && |ts[f]| == ENTRIES
    && !IsPresent(Entry(ts, root, page, level))
    && c !in ts && IsPresent(e) && !IsLarge(e) && Address(e) == c
  }

  /** Below the new link a walk ends where it ended before, in nothing; elsewhere it is
      unchanged. */
  lemma {:induction false} LinkWalk(ts: Tables, root: nat, at: map<nat, Place>, page: nat, level: nat, f: nat, c: nat, e: nat, q: nat, k: nat)
    requires FreshLink(ts, root, at, page, level, f, c, e) && q < PAGES && 1 <= k <= 4
    ensures TableFor(ts, root, q, k).Some? ==>
      TableFor(Linked(ts, f, Index(page, level), c, e), root, q, k) == TableFor(ts, root, q, k)
    ensures k == level - 1 && SamePath(q, page, level) ==>
      TableFor(Linked(ts, f, Index(page, level), c, e), root, q, k) == Some(c)
    ensures EntrySame(ts, Linked(ts, f, Index(page, level), c, e), root, page, level, q, k, e)
    decreases 4 - k
  {
    hide Tree, Entry, SamePath, Linked, IsPresent, IsLarge, Address, Index;
    var us := Linked(ts, f, Index(page, level), c, e);
    if k == 4 {
      RootTable(ts, root, q);
      RootTable(us, root, q);
      LinkEntry(ts, root, at, page, level, f, c, e, q, k);
    } else {
      LinkWalk(ts, root, at, page, level, f, c, e, q, k + 1);
      StepByEntry(ts, root, q, k);
      StepByEntry(us, root, q, k);
      if k + 1 == level && SamePath(q, page, level) {
        SharedEntry(ts, root, q, page, level);
        LinkBelow(ts, us, root, page, level, f, c, e, q, k);
      } else {
        LinkEntry(ts, root, at, page, level, f, c, e, q, k);
      }
    }
  }

  lemma {:induction false} LinkBelow(ts: Tables, us: Tables, root: nat, page: nat, level: nat, f: nat, c: nat, e: nat, q: nat, k: nat)
    requires 1 <= k <= 4 && k != level && f in ts && |ts[f]| == ENTRIES && c != f
    requires us == Linked(ts, f, Index(page, level), c, e)
    requires TableFor(ts, root, q, k) == None && TableFor(us, root, q, k) == Some(c)
    ensures EntrySame(ts, us, root, page, level, q, k, e)
  {
    hide TableFor, SamePath, Index;
    EmptyEntries(us, c, Index(q, k));
  }

  lemma {:induction false} LinkEntry(ts: Tables, root: nat, at: map<nat, Place>, page: nat, level: nat, f: nat, c: nat, e: nat, q: nat, k: nat)
    requires FreshLink(ts, root, at, page, level, f, c, e) && q < PAGES && 1 <= k <= 4
    requires TableFor(Linked(ts, f, Index(page, level), c, e), root, q, k) == TableFor(ts, root, q, k)
    ensures EntrySame(ts, Linked(ts, f, Index(page, level), c, e), root, page, level, q, k, e)
  {
    hide Tree, TableFor, SamePath, Index, Prefix, IsPresent, IsLarge, Address;
    PathOfIndex(q, page, level);
    if TableFor(ts, root, q, k).Some? {
      WalkMeets(ts, root, at, page, level, q, k);
      WalkPlace(ts, root, at, q, k);
      TreeKeys(ts, root, at);
    } else if k == level && Prefix(q, level) == Prefix(page, level) {
      SharedPath(ts, root, q, page, level);
    }
  }

  lemma {:induction false} TreeKeys(ts: Tables, root: nat, at: map<nat, Place>)
    requires Tree(ts, root, at)
    ensures at.Keys == ts.Keys && root in at
  {
  }

  // ----- The tree stays a tree

  lemma {:induction false} RewriteTree(ts: Tables, root: nat, at: map<nat, Place>, page: nat, level: nat, f: nat, e: nat)
    requires Tree(ts, root, at) && page < PAGES && 1 <= level <= 4
    requires TableFor(ts, root, page, level) == Some(f) && f in ts && |ts[f]| == ENTRIES
    requires level > 1 ==> SameTarget(Entry(ts, root, page, level), e) && (IsPresent(e) ==> IsWritable(e) && !IsNoExecute(e))
    ensures Tree(Written(ts, f, Index(page, level), e), root, at)
    ensures OneEntry(ts, Written(ts, f, Index(page, level), e), root, page, level, e)
  {
    var us := Written(ts, f, Index(page, level), e);
    assert us.Keys == ts.Keys;
    forall q, k | 0 <= q < PAGES && 1 <= k <= 4
      ensures EntrySame(ts, us, root, page, level, q, k, e)
    {
      RewriteWalk(ts, root, at, page, level, f, e, q, k);
    }
    forall g | g in at
      ensures TableOk(us, root, at, g)
    {
      RewriteTable(ts, root, at, page, level, f, e, g);
    }
    forall g, i | g in at && at[g].level > 1 && 0 <= i < ENTRIES
      ensures LinkOk(us, at, g, i)
    {
      RewriteLink(ts, root, at, page, level, f, e, g, i);
    }
  }

  lemma {:induction false} RewriteTable(ts: Tables, root: nat, at: map<nat, Place>, page: nat, level: nat, f: nat, e: nat, g: nat)
    requires Tree(ts, root, at) && page < PAGES && 1 <= level <= 4 && g in at
    requires TableFor(ts, root, page, level) == Some(f) && f in ts && |ts[f]| == ENTRIES
    requires level > 1 ==> SameTarget(Entry(ts, root, page, level), e)
    ensures TableOk(Written(ts, f, Index(page, level), e), root, at, g)
  {
    hide Index, Address, IsPresent, IsLarge, FrameAddress;
    assert TableOk(ts, root, at, g);
    RewriteWalk(ts, root, at, page, level, f, e, at[g].page, at[g].level);
  }

  lemma {:induction false} RewriteLink(ts: Tables, root: nat, at: map<nat, Place>, page: nat, level: nat, f: nat, e: nat, g: nat, i: nat)
    requires Tree(ts, root, at) && page < PAGES && 1 <= level <= 4 && g in at && at[g].level > 1 && i < ENTRIES
    requires TableFor(ts, root, page, level) == Some(f) && f in ts && |ts[f]| == ENTRIES
    requires level > 1 ==> SameTarget(Entry(ts, root, page, level), e) && (IsPresent(e) ==> IsWritable(e) && !IsNoExecute(e))
    ensures LinkOk(Written(ts, f, Index(page, level), e), at, g, i)
  {
    hide TableFor, Index, Address, IsPresent, IsLarge, IsWritable, IsNoExecute, Prefix;
    WalkPlace(ts, root, at, page, level);
    assert LinkOk(ts, at, g, i);
  }

  lemma {:induction false} LinkTree(ts: Tables, root: nat, at: map<nat, Place>, page: nat, level: nat, f: nat, c: nat, e: nat)
    requires FreshLink(ts, root, at, page, level, f, c, e) && FrameAddress(c) && IsWritable(e) && !IsNoExecute(e)
    ensures Tree(Linked(ts, f, Index(page, level), c, e), root, at[c := Place(level - 1, page)])
    ensures OneEntry(ts, Linked(ts, f, Index(page, level), c, e), root, page, level, e)
  {
    var us := Linked(ts, f, Index(page, level), c, e);
    var bt: map<nat, Place> := at[c := Place(level - 1, page)];
    assert us.Keys == ts.Keys + {c};
    forall q, k | 0 <= q < PAGES && 1 <= k <= 4
      ensures EntrySame(ts, us, root, page, level, q, k, e)
    {
      LinkWalk(ts, root, at, page, level, f, c, e, q, k);
    }
    forall g | g in bt
      ensures TableOk(us, root, bt, g)
    {
      LinkTable(ts, root, at, page, level, f, c, e, g);
    }
    forall g, i | g in bt && bt[g].level > 1 && 0 <= i < ENTRIES
      ensures LinkOk(us, bt, g, i)
    {
      LinkLink(ts, root, at, page, level, f, c, e, g, i);
    }
  }

  lemma {:induction false} LinkTable(ts: Tables, root: nat, at: map<nat, Place>, page: nat, level: nat, f: nat, c: nat, e: nat, g: nat)
    requires FreshLink(ts, root, at, page, level, f, c, e) && FrameAddress(c) && (g in at || g == c)
    ensures TableOk(Linked(ts, f, Index(page, level), c, e), root, at[c := Place(level - 1, page)], g)
  {
    hide Index, Address, IsPresent, IsLarge, FrameAddress, Entry;
    if g == c {
      LinkWalk(ts, root, at, page, level, f, c, e, page, level - 1);
    } else {
      assert TableOk(ts, root, at, g);
      LinkWalk(ts, root, at, page, level, f, c, e, at[g].page, at[g].level);
    }
  }

  lemma {:induction false} LinkLink(ts: Tables, root: nat, at: map<nat, Place>, page: nat, level: nat, f: nat, c: nat, e: nat, g: nat, i: nat)
    requires FreshLink(ts, root, at, page, level, f, c, e) && IsWritable(e) && !IsNoExecute(e) && i < ENTRIES
    requires (g in at && g != c && at[g].level > 1) || (g == c && level - 1 > 1)
    ensures LinkOk(Linked(ts, f, Index(page, level), c, e), at[c := Place(level - 1, page)], g, i)
  {
    hide TableFor, Index, Address, IsPresent, IsLarge, IsWritable, IsNoExecute, Prefix;
    var us := Linked(ts, f, Index(page, level), c, e);
    if g == c {
      EmptyEntries(us, c, i);
    } else if g == f && i == Index(page, level) {
      WalkPlace(ts, root, at, page, level);
      PrefixStep(page, level);
    } else {
      assert LinkOk(ts, at, g, i);
    }
  }
}
