/** Each step of Allocate and Free, as a change of the whole heap state: memory, free
    lists and the block structure they stand for move together. */
module HeapSteps {
  import opened Powers
  import opened Tiling
  import opened HeapMemory

  /** Everything the allocator relies on; raw holds blocks whose header is not yet written. */
  ghost predicate Sound(m: seq<byte>, base: nat, heads: seq<nat>, bs: Blocks, ls: seq<seq<nat>>, raw: set<nat>, used: nat) {
    && Represents(m, base, heads, bs, ls, raw)
    && Tiled(bs) && Coalesced(bs) && Used(bs) == used
  }

  /** The blocks handed out, with their orders. */
  ghost function LiveOf(bs: Blocks): (r: map<nat, nat>) {
    map o | o in bs && !bs[o].free :: bs[o].order
  }

  ghost predicate SomeFreeAtLeast(bs: Blocks, bytes: nat) {
    exists o :: o in bs && bs[o].free && Size(bs[o]) >= bytes
  }

  ghost predicate SmallestOrder(bytes: nat, k: nat) {
    && MIN_ORDER <= k <= MAX_ORDER
    && bytes <= Pow2(k)
    && (k > MIN_ORDER ==> Pow2(k - 1) < bytes)
  }

  // ----- Reading the free lists

  lemma {:induction false} ListEmpty(m: seq<byte>, base: nat, heads: seq<nat>, bs: Blocks, ls: seq<seq<nat>>, raw: set<nat>, k: nat)
    requires Represents(m, base, heads, bs, ls, raw) && MIN_ORDER <= k <= MAX_ORDER
    ensures heads[k - MIN_ORDER] == 0 <==> forall o :: !IsFreeBlock(bs, o, k)
  {
    assert ListAt(m, base, heads, bs, ls, k);
    var l := ls[k - MIN_ORDER];
    if l != [] {
      assert l[0] in l && IsFreeBlock(bs, l[0], k);
    }
  }

  /** Empty lists from the wanted order up mean that no free block is large enough. */
  lemma {:induction false} NothingLargeEnough(m: seq<byte>, base: nat, heads: seq<nat>, bs: Blocks, ls: seq<seq<nat>>, bytes: nat, k: nat)
    requires Represents(m, base, heads, bs, ls, {}) && Tiled(bs) && SmallestOrder(bytes, k)
    requires forall i :: k - MIN_ORDER <= i < ORDER_COUNT ==> heads[i] == 0
    ensures !SomeFreeAtLeast(bs, bytes)
  {
    forall o | o in bs && bs[o].free
      ensures Size(bs[o]) < bytes
    {
      Bounds(bs, o);
      ListEmpty(m, base, heads, bs, ls, {}, bs[o].order);
      assert IsFreeBlock(bs, o, bs[o].order);
      OrderTooSmall(bytes, k, bs[o].order);
    }
  }

  lemma {:induction false} OrderTooSmall(bytes: nat, k: nat, q: nat)
    requires SmallestOrder(bytes, k) && MIN_ORDER <= q < k
    ensures Pow2(q) < bytes
  {
    Pow2Monotone(q, k - 1);
  }

  // ----- Allocate

  lemma {:induction false} TakeStep(m: seq<byte>, base: nat, heads: seq<nat>, bs: Blocks, ls: seq<seq<nat>>, used: nat, k: nat)
    requires Sound(m, base, heads, bs, ls, {}, used) && MIN_ORDER <= k <= MAX_ORDER && heads[k - MIN_ORDER] != 0
    ensures |heads| == |ls| == ORDER_COUNT
    ensures |ls[k - MIN_ORDER]| > 0 && heads[k - MIN_ORDER] == base + ls[k - MIN_ORDER][0]
    ensures var o := ls[k - MIN_ORDER][0];
      IsFreeBlock(bs, o, k) && o + HEADER_SIZE <= HEAP_SIZE &&
      Sound(m, base, heads[k - MIN_ORDER := HeaderAt(m, o).next], bs[o := Block(k, false)],
            ls[k - MIN_ORDER := ls[k - MIN_ORDER][1..]], {o}, used + Pow2(k))
  {
    PopRepresents(m, base, heads, bs, ls, k);
    var o := ls[k - MIN_ORDER][0];
    RetypeTiled(bs, o, false);
    UseCoalesced(bs, o);
    RetypeBytes(bs, bs[o := Block(k, false)], o);
  }

  lemma {:induction false} SplitStep(m: seq<byte>, base: nat, heads: seq<nat>, bs: Blocks, ls: seq<seq<nat>>, used: nat, o: nat, k: nat, u: nat)
    requires Sound(m, base, heads, bs, ls, {o}, used) && o in bs && bs[o] == Block(k + 1, false) && MIN_ORDER <= k < MAX_ORDER
    requires u == o + Pow2(k)
    ensures u + HEADER_SIZE <= HEAP_SIZE && used >= Pow2(k) && |ls| == |heads| == ORDER_COUNT
    ensures o in Split(bs, o) && Split(bs, o)[o] == Block(k, false)
    ensures LiveOf(Split(bs, o)) == LiveOf(bs)[o := k]
    ensures var i := k - MIN_ORDER;
      Sound(PutHeader(m, u, FreeHeader(m, u, k, heads[i])), base, heads[i := base + u], Split(bs, o), ls[i := [u] + ls[i]], {o}, used - Pow2(k))
  {
    hide Represents, Coalesced, Used, LiveOf, PutHeader, FreeHeader;
    SplitStepMemory(m, base, heads, bs, ls, o, k, u);
    SplitTiled(bs, o);
    SplitCoalesced(bs, o);
    SplitBytes(bs, o);
    SplitLive(bs, o, k);
  }

  lemma {:induction false} SplitStepMemory(m: seq<byte>, base: nat, heads: seq<nat>, bs: Blocks, ls: seq<seq<nat>>, o: nat, k: nat, u: nat)
    requires Represents(m, base, heads, bs, ls, {o}) && Tiled(bs) && o in bs && bs[o] == Block(k + 1, false) && MIN_ORDER <= k < MAX_ORDER
    requires u == o + Pow2(k)
    ensures u + HEADER_SIZE <= HEAP_SIZE && |ls| == |heads| == ORDER_COUNT && Used(bs) >= Pow2(k)
    ensures var i := k - MIN_ORDER;
      Represents(PutHeader(m, u, FreeHeader(m, u, k, heads[i])), base, heads[i := base + u], Split(bs, o), ls[i := [u] + ls[i]], {o})
  {
    hide Represents, Used, Tiled, PutHeader, FreeHeader;
    var cs: Blocks := Split(bs, o)[u := Block(k, false)];
    SplitRepresents(m, base, heads, bs, ls, o, u, cs);
    UpperHalfIsNew(bs, o);
    RepresentedSizes(m, base, heads, cs, ls, {o} + {u}, u);
    assert {o} - {u} == {o};
    assert cs[u := Block(k, true)] == Split(bs, o);
    SplitBytes(bs, o);
    PushRepresents(m, base, heads, cs, ls, {o}, u, k);
  }

  lemma {:induction false} RepresentedSizes(m: seq<byte>, base: nat, heads: seq<nat>, bs: Blocks, ls: seq<seq<nat>>, raw: set<nat>, o: nat)
    requires Represents(m, base, heads, bs, ls, raw) && o in bs
    ensures |m| == HEAP_SIZE && |ls| == |heads| == ORDER_COUNT && o + HEADER_SIZE <= HEAP_SIZE
  {
  }

  lemma {:induction false} SplitLive(bs: Blocks, o: nat, k: nat)
    requires Tiled(bs) && o in bs && bs[o] == Block(k + 1, false) && k >= MIN_ORDER
    ensures LiveOf(Split(bs, o)) == LiveOf(bs)[o := k]
  {
    UpperHalfIsNew(bs, o);
    var cs: Blocks := Split(bs, o);
    assert forall p :: p in LiveOf(cs) <==> p in LiveOf(bs);
  }

  // ----- Free

  /** The buddy Free probes has a truthful header, so the three tests of the header
      decide exactly whether the buddy is a whole free block of the same order. */
  lemma {:induction false} ProbeStep(m: seq<byte>, base: nat, heads: seq<nat>, bs: Blocks, ls: seq<seq<nat>>, o: nat, k: nat)
    requires Represents(m, base, heads, bs, ls, {o}) && Tiled(bs) && o in bs && bs[o].order == k < MAX_ORDER
    ensures Buddy(o, k) in bs && Buddy(o, k) != o && Buddy(o, k) + HEADER_SIZE <= HEAP_SIZE
    ensures HeaderMatches(m, Buddy(o, k), bs[Buddy(o, k)])
    ensures IsFreeBlock(bs, Buddy(o, k), k) <==>
      (var h := HeaderAt(m, Buddy(o, k)); h.magic == BLOCK_MAGIC && h.isFree != 0 && h.order == k)
  {
    BuddyIsBlock(bs, o);
    BuddyInvolution(bs, o);
    assert HeaderMatches(m, Buddy(o, k), bs[Buddy(o, k)]);
  }

  /** Where the two buddies lie and that together they form one aligned block. */
  lemma {:induction false} BuddyPair(bs: Blocks, o: nat, k: nat)
    requires Tiled(bs) && o in bs && bs[o].order == k < MAX_ORDER && Buddy(o, k) in bs && bs[Buddy(o, k)].order == k
    ensures var y := Buddy(o, k); var lower := if o < y then o else y;
      Mergeable(bs, lower, k) && (o == lower || o == lower + Pow2(k)) && (y == lower || y == lower + Pow2(k)) && y != o
  {
    assert Shaped(o, bs[o]);
    BuddyFacts(o, k);
  }

  /** With the free buddy unlinked, the block in hand absorbs it. */
  lemma {:induction false} AbsorbStep(m: seq<byte>, base: nat, heads: seq<nat>, bs: Blocks, cs: Blocks, ls: seq<seq<nat>>, used: nat, o: nat, y: nat, lower: nat, k: nat)
    requires Tiled(bs) && Coalesced(bs) && Used(bs) == used
    requires o in bs && bs[o] == Block(k, false) && k < MAX_ORDER && y == Buddy(o, k) && IsFreeBlock(bs, y, k)
    requires lower == (if o < y then o else y)
    requires cs == bs[y := Block(k, false)]
    requires Represents(m, base, heads, cs, ls, {o})
    ensures Sound(m, base, heads, Merge(cs, lower, k), ls, {lower}, used + Pow2(k)) && lower in Merge(cs, lower, k)
  {
    BuddyPair(bs, o, k);
    AbsorbBlocks(bs, lower, k);
    AbsorbSame(bs, cs, y, lower, k);
    MergeRepresents(m, base, heads, cs, ls, o, lower, k);
  }

  lemma {:induction false} AbsorbSame(bs: Blocks, cs: Blocks, y: nat, lower: nat, k: nat)
    requires Mergeable(bs, lower, k) && (y == lower || y == lower + Pow2(k)) && cs == bs[y := Block(k, false)]
    ensures Merge(cs, lower, k) == Merge(bs, lower, k) && Mergeable(cs, lower, k)
  {
  }

  lemma {:induction false} AbsorbBlocks(bs: Blocks, lower: nat, k: nat)
    requires Tiled(bs) && Coalesced(bs) && Mergeable(bs, lower, k) && bs[lower].free != bs[lower + Pow2(k)].free
    ensures Tiled(Merge(bs, lower, k)) && Coalesced(Merge(bs, lower, k)) && Used(Merge(bs, lower, k)) == Used(bs) + Pow2(k)
  {
    MergeTiled(bs, lower, k);
    MergeCoalesced(bs, lower, k);
    MergeBytes(bs, lower, k);
  }

  lemma {:induction false} AbsorbLive(bs: Blocks, cs: Blocks, o: nat, y: nat, lower: nat, k: nat)
    requires o in bs && !bs[o].free && IsFreeBlock(bs, y, k) && cs == bs[y := Block(k, false)]
    requires (o == lower && y == lower + Pow2(k)) || (y == lower && o == lower + Pow2(k))
    ensures LiveOf(Merge(cs, lower, k)) - {lower} == LiveOf(bs) - {o}
  {
    var ds: Blocks := Merge(cs, lower, k);
    assert forall p :: p in LiveOf(ds) - {lower} <==> p in LiveOf(bs) - {o};
  }

  lemma {:induction false} ReleaseStep(m: seq<byte>, base: nat, heads: seq<nat>, bs: Blocks, ls: seq<seq<nat>>, used: nat, o: nat, k: nat)
    requires Sound(m, base, heads, bs, ls, {o}, used) && o in bs && bs[o] == Block(k, false)
    requires k < MAX_ORDER ==> !IsFreeBlock(bs, Buddy(o, k), k)
    ensures MIN_ORDER <= k <= MAX_ORDER && o + HEADER_SIZE <= HEAP_SIZE && used >= Pow2(k)
    ensures |ls| == |heads| == ORDER_COUNT
    ensures LiveOf(bs[o := Block(k, true)]) == LiveOf(bs) - {o}
    ensures var i := k - MIN_ORDER;
      Sound(PutHeader(m, o, FreeHeader(m, o, k, heads[i])), base, heads[i := base + o], bs[o := Block(k, true)], ls[i := [o] + ls[i]], {}, used - Pow2(k))
  {
    hide PutHeader, FreeHeader, LiveOf, Tiled, Coalesced, Used, Represents, Pow2;
    Bounds(bs, o);
    RepresentedSizes(m, base, heads, bs, ls, {o}, o);
    assert {o} + {o} == {o} && {o} - {o} == {};
    PushRepresents(m, base, heads, bs, ls, {o}, o, k);
    RetypeTiled(bs, o, true);
    ReleaseCoalesced(bs, o);
    var cs: Blocks := bs[o := Block(k, true)];
    assert cs[o := Block(k, false)] == bs;
    RetypeBytes(cs, bs, o);
    ReleaseLive(bs, o, k);
  }

  lemma {:induction false} ReleaseLive(bs: Blocks, o: nat, k: nat)
    requires o in bs
    ensures LiveOf(bs[o := Block(k, true)]) == LiveOf(bs) - {o}
  {
  }

  // ----- Bytes that stay as they are

  /** The bytes from lo up to hi are the same in both memories. */
  ghost predicate Kept(m: seq<byte>, r: seq<byte>, lo: nat, hi: nat) {
    |m| == |r| && lo <= hi <= |m| && m[lo..hi] == r[lo..hi]
  }

  /** Only bytes from lo up to hi may differ. */
  ghost predicate Outside(m: seq<byte>, r: seq<byte>, lo: nat, hi: nat) {
    |m| == |r| && lo <= hi <= |m| && m[..lo] == r[..lo] && m[hi..] == r[hi..]
  }

  lemma {:induction false} PutOutside(m: seq<byte>, r: seq<byte>, lo: nat, hi: nat, o: nat, h: Header)
    requires Outside(m, r, lo, hi) && lo <= o && o + HEADER_SIZE <= hi
    ensures Outside(m, PutHeader(r, o, h), lo, hi)
  {
    assert PutHeader(r, o, h)[..lo] == r[..lo];
    assert PutHeader(r, o, h)[hi..] == r[hi..];
  }

  lemma {:induction false} SplitOutside(m: seq<byte>, r: seq<byte>, o: nat, hi: nat, k: nat, h: Header)
    requires Outside(m, r, o, hi) && hi >= o + Pow2(k + 1) && k >= MIN_ORDER
    ensures o + Pow2(k) + HEADER_SIZE <= |r| && Outside(m, PutHeader(r, o + Pow2(k), h), o, hi)
  {
    Pow2Monotone(MIN_ORDER, k);
    assert Pow2(5) == 32;
    PutOutside(m, r, o, hi, o + Pow2(k), h);
  }

  lemma {:induction false} OutsideKept(m: seq<byte>, r: seq<byte>, lo: nat, hi: nat, from: nat, to: nat)
    requires Outside(m, r, lo, hi) && from <= to <= |m| && (to <= lo || hi <= from)
    ensures Kept(m, r, from, to)
  {
    forall i | from <= i < to
      ensures m[i] == r[i]
    {
      if to <= lo {
        assert m[i] == m[..lo][i] && r[i] == r[..lo][i];
      } else {
        assert m[i] == m[hi..][i - hi] && r[i] == r[hi..][i - hi];
      }
    }
  }

  lemma {:induction false} PutKept(m: seq<byte>, r: seq<byte>, lo: nat, hi: nat, o: nat, h: Header)
    requires Kept(m, r, lo, hi) && o + HEADER_SIZE <= |m| && (o + HEADER_SIZE <= lo || hi <= o)
    ensures Kept(m, PutHeader(r, o, h), lo, hi)
  {
    assert PutHeader(r, o, h)[lo..hi] == r[lo..hi];
  }

  /** Every block in use other than o has kept its bytes, header and payload alike. */
  ghost predicate LiveKept(m: seq<byte>, r: seq<byte>, bs: Blocks, o: int) {
    forall q {:trigger bs[q]} :: q in bs && !bs[q].free && q != o ==> Kept(m, r, q, q + Size(bs[q]))
  }

  lemma {:induction false} OutsideLiveKept(m: seq<byte>, r: seq<byte>, bs: Blocks, o: nat)
    requires Tiled(bs) && o in bs && |m| == HEAP_SIZE && Outside(m, r, o, o + Size(bs[o]))
    ensures LiveKept(m, r, bs, o)
  {
    forall q | q in bs && !bs[q].free && q != o
      ensures Kept(m, r, q, q + Size(bs[q]))
    {
      Bounds(bs, q);
      assert q < o ==> Before(bs, q, o);
      assert o < q ==> Before(bs, o, q);
      OutsideKept(m, r, o, o + Size(bs[o]), q, q + Size(bs[q]));
    }
  }

  /** A header written to a free block, or to the block in hand, leaves the live ones alone. */
  lemma {:induction false} PutLiveKept(m: seq<byte>, r: seq<byte>, bs: Blocks, o: nat, at: nat, h: Header)
    requires Tiled(bs) && |m| == HEAP_SIZE && LiveKept(m, r, bs, o) && |r| == |m|
    requires at in bs && (bs[at].free || at == o)
    ensures at + HEADER_SIZE <= HEAP_SIZE && LiveKept(m, PutHeader(r, at, h), bs, o)
  {
    TiledSpaced(bs);
    forall q | q in bs && !bs[q].free && q != o
      ensures Kept(m, PutHeader(r, at, h), q, q + Size(bs[q]))
    {
      assert Clear(q, at);
      assert q < at ==> Before(bs, q, at);
      PutKept(m, r, q, q + Size(bs[q]), at, h);
    }
  }

  /** A client writing inside the payload of a live block disturbs no header. */
  lemma {:induction false} PayloadStep(m: seq<byte>, r: seq<byte>, base: nat, heads: seq<nat>, bs: Blocks, ls: seq<seq<nat>>, used: nat, o: nat, lo: nat, hi: nat)
    requires Sound(m, base, heads, bs, ls, {}, used) && o in bs && !bs[o].free
    requires o + HEADER_SIZE <= lo <= hi <= o + Size(bs[o]) && Outside(m, r, lo, hi)
    ensures Sound(r, base, heads, bs, ls, {}, used)
  {
    hide Tiled, Coalesced, Used, HeaderAt;
    forall p | p in bs
      ensures SameHeader(m, r, p)
    {
      PayloadHeader(m, r, bs, o, lo, hi, p);
    }
    assert HeaderMatches(m, o, bs[o]) && SameHeader(m, r, o);
    assert HeadersMatch(m, bs, {} + {o});
    RewriteKeepsHeaders(m, r, bs, {}, o);
    RewriteKeepsLists(m, r, base, heads, bs, ls, o);
  }

  /** Writing inside a payload leaves every header alone. */
  lemma {:induction false} PayloadHeader(m: seq<byte>, r: seq<byte>, bs: Blocks, o: nat, lo: nat, hi: nat, p: nat)
    requires Tiled(bs) && |m| == HEAP_SIZE && o in bs && p in bs
    requires o + HEADER_SIZE <= lo <= hi <= o + Size(bs[o]) && Outside(m, r, lo, hi)
    ensures |r| == |m| && SameHeader(m, r, p)
  {
    assert p < o ==> Before(bs, p, o);
    assert o < p ==> Before(bs, o, p);
    Bounds(bs, p);
    TiledSpaced(bs);
    assert p != o ==> Clear(o, p);
    OutsideKept(m, r, lo, hi, p, p + HEADER_SIZE);
  }

  /** The same live blocks, apart from the one in hand, have kept their bytes. */
  lemma {:induction false} LiveKeptAlso(m: seq<byte>, r: seq<byte>, bs: Blocks, o: int, cs: Blocks, p: int)
    requires LiveKept(m, r, bs, o)
    requires forall q :: q in LiveOf(cs) && q != p ==> q in LiveOf(bs) && q != o && LiveOf(cs)[q] == LiveOf(bs)[q]
    ensures LiveKept(m, r, cs, p)
  {
    forall q | q in cs && !cs[q].free && q != p
      ensures Kept(m, r, q, q + Size(cs[q]))
    {
      assert q in LiveOf(cs) && LiveOf(cs)[q] == cs[q].order;
      assert bs[q].order == cs[q].order;
    }
  }

  /** No free block is larger than the heap. */
  lemma {:induction false} TooLarge(bs: Blocks, bytes: nat)
    requires Tiled(bs) && bytes > HEAP_SIZE
    ensures !SomeFreeAtLeast(bs, bytes)
  {
    forall o | o in bs && bs[o].free
      ensures Size(bs[o]) < bytes
    {
      Bounds(bs, o);
    }
  }

  lemma {:induction false} ClaimStep(m: seq<byte>, base: nat, heads: seq<nat>, bs: Blocks, ls: seq<seq<nat>>, used: nat, o: nat, k: nat)
    requires Sound(m, base, heads, bs, ls, {o}, used) && o in bs && bs[o] == Block(k, false)
    ensures o + HEADER_SIZE <= |m| && o % 16 == 0
    ensures Sound(PutHeader(m, o, UsedHeader(m, o, k)), base, heads, bs, ls, {}, used)
  {
    Bounds(bs, o);
    assert Shaped(o, bs[o]);
    AlignedSixteen(o, k);
    ClaimRepresents(m, base, heads, bs, ls, o, k);
  }

  lemma {:induction false} AlignedSixteen(o: nat, k: nat)
    requires Aligned(o, k) && k >= MIN_ORDER
    ensures o % 16 == 0
  {
    AlignedWeaken(o, 4, k);
    assert Aligned(o / 2, 3) && Aligned(o / 2 / 2, 2) && Aligned(o / 2 / 2 / 2, 1);
  }

  /** Picking up a live block for Free: its header may go stale from here on. */
  lemma {:induction false} HandStep(m: seq<byte>, base: nat, heads: seq<nat>, bs: Blocks, ls: seq<seq<nat>>, used: nat, o: nat)
    requires Sound(m, base, heads, bs, ls, {}, used) && o in bs && !bs[o].free
    ensures HeaderMatches(m, o, bs[o]) && |m| == HEAP_SIZE && used >= Size(bs[o])
    ensures Sound(m, base, heads, bs, ls, {o}, used)
    ensures LiveKept(m, m, bs, o)
  {
    assert HeaderMatches(m, o, bs[o]);
    RetypeTiled(bs, o, true);
    var cs: Blocks := bs[o := Block(bs[o].order, true)];
    assert cs[o := Block(cs[o].order, false)] == bs;
    RetypeBytes(cs, bs, o);
    forall q | q in bs && !bs[q].free && q != o
      ensures Kept(m, m, q, q + Size(bs[q]))
    {
      Bounds(bs, q);
    }
  }
}
