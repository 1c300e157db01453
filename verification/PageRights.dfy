/** What the CPU grants for a page (Intel SDM volume 3A, section 4.6), and how the three
    kinds of entry write in Paging leave it alone everywhere else. */
module PageRights {
  import opened Options
  import opened Powers
  import opened Bitmap
  import opened PageTables

  // ----- Effective rights

  function Rights(): (r: nat) { Or(Or(PRESENT, WRITABLE), USER) }

  /** Present, writable and user are granted only if every level above grants them. */
  function Granted(ts: Tables, root: nat, page: nat, level: nat): (r: nat)
    requires 1 <= level <= 4
    decreases 4 - level
  {
    if level == 4 then Rights() else And(Granted(ts, root, page, level + 1), Entry(ts, root, page, level + 1))
  }

  /** No-execute is set if any level above sets it. */
  function Forbidden(ts: Tables, root: nat, page: nat, level: nat): (r: nat)
    requires 1 <= level <= 4
    decreases 4 - level
  {
    if level == 4 then 0
    else Or(Forbidden(ts, root, page, level + 1), And(Entry(ts, root, page, level + 1), NO_EXECUTE))
  }

  function Effective(ts: Tables, root: nat, page: nat): (r: nat) {
    var leaf := Entry(ts, root, page, 1);
    if !IsPresent(leaf) then 0
    else Or(Or(And(Granted(ts, root, page, 1), leaf), Or(Forbidden(ts, root, page, 1), And(leaf, NO_EXECUTE))), And(leaf, ADDRESS_MASK))
  }

  /** The rights a leaf asks for, regardless of the levels above it. */
  function Asked(leaf: nat): (r: nat) {
    if !IsPresent(leaf) then 0
    else Or(Or(And(Rights(), leaf), And(leaf, NO_EXECUTE)), And(leaf, ADDRESS_MASK))
  }

  /** A user leaf has user entries all the way up. */
  ghost predicate UserPath(ts: Tables, root: nat, page: nat) {
    var leaf := Entry(ts, root, page, 1);
    IsPresent(leaf) && IsUser(leaf) ==>
      IsUser(Entry(ts, root, page, 2)) && IsUser(Entry(ts, root, page, 3)) && IsUser(Entry(ts, root, page, 4))
  }

  ghost predicate UserPaths(ts: Tables, root: nat) {
    forall page {:trigger UserPath(ts, root, page)} :: 0 <= page < PAGES ==> UserPath(ts, root, page)
  }

  lemma {:induction false} RightsBit(i: nat)
    ensures Bit(Rights(), i) <==> i < 3
  {
    hide Bit, Or;
    OrBit(Or(PRESENT, WRITABLE), USER, i);
    OrBit(PRESENT, WRITABLE, i);
    FlagBits(i);
  }

  /** An entry on the way to a present leaf is present, writable and executable. */
  lemma {:induction false} PathEntry(ts: Tables, root: nat, at: map<nat, Place>, page: nat, level: nat)
    requires Tree(ts, root, at) && page < PAGES && 2 <= level <= 4
    requires TableFor(ts, root, page, level - 1).Some?
    ensures var e := Entry(ts, root, page, level); IsPresent(e) && IsWritable(e) && !IsNoExecute(e)
    ensures TableFor(ts, root, page, level).Some?
  {
    hide IsPresent, IsWritable, IsNoExecute, IsLarge, Address, Index, Prefix;
    var f := TableFor(ts, root, page, level);
    if f.Some? {
      WalkPlace(ts, root, at, page, level);
      IndexBound(page, level);
      assert LinkOk(ts, at, f.value, Index(page, level));
    }
  }

  lemma {:induction false} LeafHasTable(ts: Tables, root: nat, page: nat)
    requires IsPresent(Entry(ts, root, page, 1))
    ensures TableFor(ts, root, page, 1).Some?
  {
  }

  /** With permissive entries above, masking by every level is masking by none. */
  lemma {:induction false} AndPermissive(e4: nat, e3: nat, e2: nat, leaf: nat)
    requires forall i: nat :: i < 3 && Bit(leaf, i) ==> Bit(e4, i) && Bit(e3, i) && Bit(e2, i)
    ensures And(And(And(And(Rights(), e4), e3), e2), leaf) == And(Rights(), leaf)
  {
    hide Bit, And, Rights;
    var x, y := And(And(And(And(Rights(), e4), e3), e2), leaf), And(Rights(), leaf);
    forall i: nat
      ensures Bit(x, i) == Bit(y, i)
    {
      RightsBit(i);
      AndBit(And(And(And(Rights(), e4), e3), e2), leaf, i);
      AndBit(And(And(Rights(), e4), e3), e2, i);
      AndBit(And(Rights(), e4), e3, i);
      AndBit(Rights(), e4, i);
      AndBit(Rights(), leaf, i);
    }
    BitsDecide(x, y);
  }

  lemma {:induction false} OrZero(a: nat)
    ensures Or(0, a) == a
  {
    if a != 0 { OrZero(a / 2); }
  }

  lemma {:induction false} NothingForbidden(e4: nat, e3: nat, e2: nat)
    requires !IsNoExecute(e4) && !IsNoExecute(e3) && !IsNoExecute(e2)
    ensures Or(Or(Or(0, And(e4, NO_EXECUTE)), And(e3, NO_EXECUTE)), And(e2, NO_EXECUTE)) == 0
  {
    hide Bit, And, Pow2;
    MaskTests(e4, 63);
    MaskTests(e3, 63);
    MaskTests(e2, 63);
    OrZero(0);
  }

  /** In a tree with user paths the levels above never take away what a leaf asks for:
      the tree grants exactly what the flat map from pages to leaves says. */
  lemma {:induction false} EffectiveIsAsked(ts: Tables, root: nat, at: map<nat, Place>, page: nat)
    requires Tree(ts, root, at) && page < PAGES && UserPath(ts, root, page)
    ensures Effective(ts, root, page) == Asked(Entry(ts, root, page, 1))
  {
    hide Tree, Entry, IsPresent, IsWritable, And, Or, Bit, Rights, Pow2, TableFor;
    var leaf := Entry(ts, root, page, 1);
    if IsPresent(leaf) {
      LeafHasTable(ts, root, page);
      PathEntry(ts, root, at, page, 2);
      PathEntry(ts, root, at, page, 3);
      PathEntry(ts, root, at, page, 4);
      var e4, e3, e2 := Entry(ts, root, page, 4), Entry(ts, root, page, 3), Entry(ts, root, page, 2);
      PermissiveBits(e4, e3, e2, leaf);
      AndPermissive(e4, e3, e2, leaf);
      NothingForbidden(e4, e3, e2);
      OrZero(And(leaf, NO_EXECUTE));
    }
  }

  lemma {:induction false} PermissiveBits(e4: nat, e3: nat, e2: nat, leaf: nat)
    requires IsPresent(e4) && IsPresent(e3) && IsPresent(e2) && IsWritable(e4) && IsWritable(e3) && IsWritable(e2)
    requires IsUser(leaf) ==> IsUser(e4) && IsUser(e3) && IsUser(e2)
    ensures forall i: nat :: i < 3 && Bit(leaf, i) ==> Bit(e4, i) && Bit(e3, i) && Bit(e2, i)
  {
    hide Bit;
    forall i: nat | i < 3 && Bit(leaf, i)
      ensures Bit(e4, i) && Bit(e3, i) && Bit(e2, i)
    {
      assert i == 0 || i == 1 || i == 2;
    }
  }

  // ----- The three kinds of entry write

  /** Every leaf is as it was. */
  ghost predicate LeavesSame(ts: Tables, us: Tables, root: nat) {
    forall page {:trigger Entry(us, root, page, 1)} :: 0 <= page < PAGES ==> Entry(us, root, page, 1) == Entry(ts, root, page, 1)
  }

  /** Only flags below bit 12, none of them PRESENT, LARGE or NO_EXECUTE. */
  ghost predicate TableFlags(f: nat) {
    f == 0 || f == USER
  }

  function LinkEntryOf(c: nat): (e: nat) { Or(Or(c, PRESENT), WRITABLE) }

  lemma {:induction false} LinkEntryBits(c: nat)
    requires FrameAddress(c)
    ensures var e := LinkEntryOf(c);
      IsPresent(e) && IsWritable(e) && !IsLarge(e) && !IsNoExecute(e) && !IsUser(e) && Address(e) == c
  {
    hide Bit, Or, Pow2, FrameAddress;
    var e := LinkEntryOf(c);
    forall i: nat
      ensures Bit(e, i) <==> Bit(c, i) || i == 0 || i == 1
    {
      OrBit(Or(c, PRESENT), WRITABLE, i);
      OrBit(c, PRESENT, i);
      FlagBits(i);
    }
    assert Bit(e, 0) && Bit(e, 1);
    if Bit(c, 2) { FrameBits(c, 2); }
    if Bit(c, 7) { FrameBits(c, 7); }
    if Bit(c, 63) { FrameBits(c, 63); }
    LinkAddress(c);
  }

  lemma {:induction false} LinkAddress(c: nat)
    requires FrameAddress(c)
    ensures Address(LinkEntryOf(c)) == c
  {
    hide Bit, Or, And, Pow2, FrameAddress;
    FlagsOutside(PRESENT);
    FlagsOutside(WRITABLE);
    AddressOfOr(c, PRESENT);
    AddressUnflagged(Or(c, PRESENT), WRITABLE);
  }

  lemma {:induction false} FlagsOutside(f: nat)
    requires f == PRESENT || f == WRITABLE || f == USER
    ensures forall i: nat :: Bit(f, i) ==> i < 12 || i >= 52
  {
    hide Bit, Pow2;
    forall i: nat | Bit(f, i)
      ensures i < 12 || i >= 52
    {
      FlagBits(i);
    }
  }

  /** Linking a fresh table changes no leaf and breaks no user path. */
  lemma {:induction false} LinkStep(ts: Tables, root: nat, at: map<nat, Place>, page: nat, level: nat, f: nat, c: nat)
    requires Tree(ts, root, at) && UserPaths(ts, root) && page < PAGES && 2 <= level <= 4
    requires TableFor(ts, root, page, level) == Some(f) && f in ts && |ts[f]| == ENTRIES
    requires !IsPresent(Entry(ts, root, page, level)) && c !in ts && FrameAddress(c)
    ensures c != f
    ensures var us := Linked(ts, f, Index(page, level), c, LinkEntryOf(c));
      Tree(us, root, at[c := Place(level - 1, page)]) && UserPaths(us, root) && LeavesSame(ts, us, root) &&
      OneEntry(ts, us, root, page, level, LinkEntryOf(c)) && TableFor(us, root, page, level) == Some(f)
  {
    hide Tree, IsPresent, IsWritable, IsLarge, IsNoExecute, IsUser, Address, FrameAddress, TableFor, LinkEntryOf, Index, Entry, UserPaths, LeavesSame, OneEntry;
    LinkEntryBits(c);
    var us := Linked(ts, f, Index(page, level), c, LinkEntryOf(c));
    LinkTree(ts, root, at, page, level, f, c, LinkEntryOf(c));
    LinkWalk(ts, root, at, page, level, f, c, LinkEntryOf(c), page, level);
    OneEntryAbove(ts, us, root, page, level, LinkEntryOf(c));
    LinkUserPaths(ts, us, root, page, level, LinkEntryOf(c));
  }

  lemma {:induction false} OneEntryAbove(ts: Tables, us: Tables, root: nat, page: nat, level: nat, e: nat)
    requires OneEntry(ts, us, root, page, level, e) && 2 <= level <= 4
    ensures LeavesSame(ts, us, root)
  {
    hide Entry;
    forall q | 0 <= q < PAGES
      ensures Entry(us, root, q, 1) == Entry(ts, root, q, 1)
    {
      assert EntrySame(ts, us, root, page, level, q, 1, e);
    }
  }

  /** Below an entry that is not present there is no present leaf. */
  lemma {:induction false} NoLeafBelow(ts: Tables, root: nat, page: nat, level: nat)
    requires 2 <= level <= 4 && !IsPresent(Entry(ts, root, page, level))
    ensures Entry(ts, root, page, 1) == 0 && !IsPresent(Entry(ts, root, page, 1))
  {
    hide IsPresent, IsLarge, Address, Index;
    ZeroIsNotPresent();
    StepByEntry(ts, root, page, level - 1);
    if level > 2 { StepByEntry(ts, root, page, level - 2); }
    if level > 3 { StepByEntry(ts, root, page, level - 3); }
  }

  lemma {:induction false} ZeroIsNotPresent()
    ensures !IsPresent(0)
  {
  }

  lemma {:induction false} LinkUserPaths(ts: Tables, us: Tables, root: nat, page: nat, level: nat, e: nat)
    requires UserPaths(ts, root) && OneEntry(ts, us, root, page, level, e) && 2 <= level <= 4
    requires !IsPresent(Entry(ts, root, page, level))
    ensures UserPaths(us, root)
  {
    hide Entry, IsPresent, IsUser, SamePath;
    forall q | 0 <= q < PAGES
      ensures UserPath(us, root, q)
    {
      assert UserPath(ts, root, q);
      assert EntrySame(ts, us, root, page, level, q, 1, e) && EntrySame(ts, us, root, page, level, q, 2, e);
      assert EntrySame(ts, us, root, page, level, q, 3, e) && EntrySame(ts, us, root, page, level, q, 4, e);
      if SamePath(q, page, level) {
        SharedEntry(ts, root, q, page, level);
        NoLeafBelow(ts, root, q, level);
      }
    }
  }

  lemma {:induction false} FlaggedBits(e: nat, f: nat)
    requires TableFlags(f)
    ensures SameTarget(e, Or(e, f)) && IsWritable(Or(e, f)) == IsWritable(e) && IsNoExecute(Or(e, f)) == IsNoExecute(e)
    ensures IsUser(Or(e, f)) <==> IsUser(e) || f == USER
  {
    hide Bit, Or, And, Pow2;
    FlagAt(e, f, 0);
    FlagAt(e, f, 1);
    FlagAt(e, f, 2);
    FlagAt(e, f, 7);
    FlagAt(e, f, 63);
    if f == USER { FlagsOutside(USER); } else { forall i: nat ensures !Bit(0, i) { ZeroBit(i); } }
    AddressUnflagged(e, f);
  }

  lemma {:induction false} FlagAt(e: nat, f: nat, i: nat)
    requires TableFlags(f)
    ensures Bit(Or(e, f), i) <==> Bit(e, i) || (f == USER && i == 2)
  {
    hide Bit, Or, Pow2;
    OrBit(e, f, i);
    FlagBits(i);
    ZeroBit(i);
  }

  /** Opening a shared table to user pages changes no leaf and no other entry. */
  lemma {:induction false} FlagStep(ts: Tables, root: nat, at: map<nat, Place>, page: nat, level: nat, f: nat, flags: nat)
    requires Tree(ts, root, at) && UserPaths(ts, root) && page < PAGES && 2 <= level <= 4 && TableFlags(flags)
    requires TableFor(ts, root, page, level) == Some(f) && f in ts && |ts[f]| == ENTRIES
    requires IsPresent(Entry(ts, root, page, level))
    ensures var e := Or(Entry(ts, root, page, level), flags);
      var us := Written(ts, f, Index(page, level), e);
      Tree(us, root, at) && UserPaths(us, root) && LeavesSame(ts, us, root) && OneEntry(ts, us, root, page, level, e) &&
      TableFor(us, root, page, level - 1) == Some(Address(e)) && (flags == USER ==> IsUser(e))
  {
    hide Tree, IsPresent, IsWritable, IsLarge, IsNoExecute, IsUser, Address, TableFor, Index, Entry, UserPaths, LeavesSame, OneEntry, Or, EntrySame;
    var e := Or(Entry(ts, root, page, level), flags);
    FlaggedBits(Entry(ts, root, page, level), flags);
    PresentLink(ts, root, at, page, level);
    RewriteTree(ts, root, at, page, level, f, e);
    var us := Written(ts, f, Index(page, level), e);
    RewriteWalk(ts, root, at, page, level, f, e, page, level - 1);
    OneEntryAbove(ts, us, root, page, level, e);
    FlagUserPaths(ts, us, root, page, level, e);
  }

  lemma {:induction false} PresentLink(ts: Tables, root: nat, at: map<nat, Place>, page: nat, level: nat)
    requires Tree(ts, root, at) && page < PAGES && 2 <= level <= 4 && IsPresent(Entry(ts, root, page, level))
    ensures var e := Entry(ts, root, page, level); IsWritable(e) && !IsNoExecute(e) && !IsLarge(e)
    ensures TableFor(ts, root, page, level - 1) == Some(Address(Entry(ts, root, page, level)))
  {
    hide IsPresent, IsWritable, IsNoExecute, IsLarge, Address, Index, Prefix;
    ZeroIsNotPresent();
    var f := TableFor(ts, root, page, level);
    if f.Some? {
      WalkPlace(ts, root, at, page, level);
      IndexBound(page, level);
      assert LinkOk(ts, at, f.value, Index(page, level));
      StepByEntry(ts, root, page, level - 1);
    }
  }

  lemma {:induction false} FlagUserPaths(ts: Tables, us: Tables, root: nat, page: nat, level: nat, e: nat)
    requires UserPaths(ts, root) && OneEntry(ts, us, root, page, level, e) && 2 <= level <= 4
    requires IsUser(Entry(ts, root, page, level)) ==> IsUser(e)
    ensures UserPaths(us, root)
  {
    hide Entry, IsPresent, IsUser, SamePath;
    forall q | 0 <= q < PAGES
      ensures UserPath(us, root, q)
    {
      assert UserPath(ts, root, q);
      assert EntrySame(ts, us, root, page, level, q, 1, e) && EntrySame(ts, us, root, page, level, q, 2, e);
      assert EntrySame(ts, us, root, page, level, q, 3, e) && EntrySame(ts, us, root, page, level, q, 4, e);
      if SamePath(q, page, level) { SharedEntry(ts, root, q, page, level); }
    }
  }

  /** Writing a leaf changes that page and no other. */
  lemma {:induction false} LeafStep(ts: Tables, root: nat, at: map<nat, Place>, page: nat, f: nat, leaf: nat)
    requires Tree(ts, root, at) && UserPaths(ts, root) && page < PAGES
    requires TableFor(ts, root, page, 1) == Some(f) && f in ts && |ts[f]| == ENTRIES
    requires IsUser(leaf) ==> IsUser(Entry(ts, root, page, 2)) && IsUser(Entry(ts, root, page, 3)) && IsUser(Entry(ts, root, page, 4))
    ensures var us := Written(ts, f, Index(page, 1), leaf);
      Tree(us, root, at) && UserPaths(us, root) && OneEntry(ts, us, root, page, 1, leaf)
  {
    hide Tree, IsPresent, IsUser, TableFor, Index, Entry;
    var us := Written(ts, f, Index(page, 1), leaf);
    RewriteTree(ts, root, at, page, 1, f, leaf);
    forall q | 0 <= q < PAGES
      ensures UserPath(us, root, q)
    {
      assert UserPath(ts, root, q);
      assert EntrySame(ts, us, root, page, 1, q, 1, leaf) && EntrySame(ts, us, root, page, 1, q, 2, leaf);
      assert EntrySame(ts, us, root, page, 1, q, 3, leaf) && EntrySame(ts, us, root, page, 1, q, 4, leaf);
    }
  }
}
