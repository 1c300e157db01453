/** The block structure of the buddy heap: which offsets start a block, how large
    each block is and whether it is free. Everything Free relies on when it probes
    a buddy follows from the region being tiled by aligned power-of-two blocks. */
module Tiling {
  import opened Powers

  const MIN_ORDER: nat := 5
  const MAX_ORDER: nat := 24
  const HEAP_SIZE: nat := Pow2(MAX_ORDER)

  datatype Block = Block(order: nat, free: bool)

  type Blocks = map<nat, Block>

  function Size(b: Block): (r: nat)
    ensures r >= 1
  {
    Pow2(b.order)
  }

  ghost predicate Shaped(o: nat, b: Block) {
    && MIN_ORDER <= b.order <= MAX_ORDER
    && Aligned(o, b.order)
    && o + Size(b) <= HEAP_SIZE
  }

  /** The block at o ends where the heap ends or where another block starts. */
  ghost predicate Followed(bs: Blocks, o: nat)
    requires o in bs
  {
    o + Size(bs[o]) == HEAP_SIZE || o + Size(bs[o]) in bs
  }

  ghost predicate Before(bs: Blocks, o: nat, p: nat)
    requires o in bs
  {
    o + Size(bs[o]) <= p
  }

  /** Aligned blocks follow one another without gap or overlap from 0 to HEAP_SIZE. */
  ghost predicate Tiled(bs: Blocks) {
    && 0 in bs
    && (forall o {:trigger Shaped(o, bs[o])} :: o in bs ==> Shaped(o, bs[o]))
    && (forall o {:trigger Followed(bs, o)} :: o in bs ==> Followed(bs, o))
    && (forall o, p {:trigger Before(bs, o, p)} :: o in bs && p in bs && o < p ==> Before(bs, o, p))
  }

  function Buddy(o: nat, k: nat): (r: nat) {
    Xor(o, Pow2(k))
  }

  ghost predicate IsFreeBlock(bs: Blocks, o: nat, k: nat) {
    o in bs && bs[o] == Block(k, true)
  }

  /** No free block has a free buddy of its own size. */
  ghost predicate Coalesced(bs: Blocks) {
    forall o :: o in bs && bs[o].free && bs[o].order < MAX_ORDER ==> !IsFreeBlock(bs, Buddy(o, bs[o].order), bs[o].order)
  }

  // ----- Every address lies in exactly one block

  lemma {:induction false} CoveringFrom(bs: Blocks, from: nat, x: nat) returns (o: nat)
    requires Tiled(bs) && from in bs && from <= x < HEAP_SIZE
    ensures o in bs && o <= x < o + Size(bs[o])
    decreases HEAP_SIZE - from
  {
    if x < from + Size(bs[from]) {
      o := from;
    } else {
      assert Followed(bs, from);
      o := CoveringFrom(bs, from + Size(bs[from]), x);
    }
  }

  /** The region is exactly tiled: each byte belongs to one and only one block. */
  lemma {:induction false} TiledExactly(bs: Blocks, x: nat)
    requires Tiled(bs) && x < HEAP_SIZE
    ensures exists o :: o in bs && o <= x < o + Size(bs[o])
    ensures forall o, p :: o in bs && p in bs && o <= x < o + Size(bs[o]) && p <= x < p + Size(bs[p]) ==> o == p
  {
    var o := CoveringFrom(bs, 0, x);
    forall o, p | o in bs && p in bs && o <= x < o + Size(bs[o]) && p <= x < p + Size(bs[p])
      ensures o == p
    {
      assert o < p ==> Before(bs, o, p);
      assert p < o ==> Before(bs, p, o);
    }
  }

  lemma {:induction false} Bounds(bs: Blocks, o: nat)
    requires Tiled(bs) && o in bs
    ensures MIN_ORDER <= bs[o].order <= MAX_ORDER && o + Size(bs[o]) <= HEAP_SIZE
  {
    assert Shaped(o, bs[o]);
  }

  // ----- Buddies

  lemma {:induction false} BuddyFacts(o: nat, k: nat)
    requires k < MAX_ORDER && Aligned(o, k) && o + Pow2(k) <= HEAP_SIZE
    ensures Buddy(o, k) == (if Aligned(o, k + 1) then o + Pow2(k) else o - Pow2(k))
    ensures !Aligned(o, k + 1) ==> o >= Pow2(k) && Aligned(o - Pow2(k), k + 1)
    ensures Aligned(Buddy(o, k), k)
    ensures Buddy(o, k) + Pow2(k) <= HEAP_SIZE
    ensures Buddy(Buddy(o, k), k) == o
    ensures Buddy(o, k) != o
  {
    hide Xor, Aligned;
    XorPow2(o, k);
    Pow2Aligned(k, k);
    if Aligned(o, k + 1) {
      AlignedAdd(o, Pow2(k), k);
      UpperHalfUnaligned(o, k);
      XorPow2(o + Pow2(k), k);
      UpperHalfFits(o, k);
    } else {
      AlignedSub(o, Pow2(k), k);
      XorPow2(o - Pow2(k), k);
    }
  }

  lemma {:induction false} UpperHalfUnaligned(o: nat, k: nat)
    requires Aligned(o, k + 1)
    ensures !Aligned(o + Pow2(k), k + 1)
  {
    if Aligned(o + Pow2(k), k + 1) { AlignedGap(o, o + Pow2(k), k + 1); }
  }

  lemma {:induction false} UpperHalfFits(o: nat, k: nat)
    requires k < MAX_ORDER && Aligned(o, k + 1) && o + Pow2(k) <= HEAP_SIZE
    ensures o + Pow2(k + 1) <= HEAP_SIZE
  {
    Pow2Aligned(k + 1, MAX_ORDER);
    AlignedGap(o, HEAP_SIZE, k + 1);
  }

  /** What Free probes is always the header of a real block, and never of a larger one. */
  lemma {:induction false} BuddyIsBlock(bs: Blocks, o: nat)
    requires Tiled(bs) && o in bs && bs[o].order < MAX_ORDER
    ensures Buddy(o, bs[o].order) in bs
    ensures bs[Buddy(o, bs[o].order)].order <= bs[o].order
  {
    var k := bs[o].order;
    assert Shaped(o, bs[o]);
    BuddyFacts(o, k);
    var y := Buddy(o, k);
    if Aligned(o, k + 1) {
      assert Followed(bs, o);
      UpperHalfFits(o, k);
      UpperHalfUnaligned(o, k);
      if bs[y].order > k {
        assert Shaped(y, bs[y]);
        AlignedWeaken(y, k + 1, bs[y].order);
      }
    } else {
      LowerBuddyIsBlock(bs, o, y);
    }
  }

  lemma {:induction false} LowerBuddyIsBlock(bs: Blocks, o: nat, y: nat)
    requires Tiled(bs) && o in bs && bs[o].order < MAX_ORDER
    requires y + Pow2(bs[o].order) == o && Aligned(y, bs[o].order + 1)
    ensures y in bs && bs[y].order <= bs[o].order
  {
    var k := bs[o].order;
    assert Shaped(o, bs[o]);
    var p := CoveringFrom(bs, 0, y);
    assert Shaped(p, bs[p]);
    assert Before(bs, p, o);
    CoverIsHalf(p, bs[p].order, y, k);
  }

  /** A block that covers the lower half of a pair and ends within it starts with it. */
  lemma {:induction false} CoverIsHalf(p: nat, j: nat, y: nat, k: nat)
    requires Aligned(p, j) && p <= y < p + Pow2(j) <= y + Pow2(k) && Aligned(y, k + 1)
    ensures p == y && j <= k
  {
    if j > k {
      // p's end would be a multiple of 2^(k+1) strictly between y and y + 2^(k+1).
      AlignedWeaken(p, k + 1, j);
      Pow2Aligned(k + 1, j);
      AlignedAdd(p, Pow2(j), k + 1);
      AlignedGap(y, p + Pow2(j), k + 1);
    } else {
      AlignedWeaken(y, j, k + 1);
      if p < y { AlignedGap(p, y, j); }
    }
  }

  // ----- Splitting and merging keep the tiling

  function Split(bs: Blocks, o: nat): (r: Blocks)
    requires o in bs && bs[o].order > 0
  {
    var k := bs[o].order - 1;
    bs[o := Block(k, false)][o + Pow2(k) := Block(k, true)]
  }

  /** Joins the block at lower with the one directly above it into a block in use. */
  function Merge(bs: Blocks, lower: nat, k: nat): (r: Blocks) {
    (bs - {lower + Pow2(k)})[lower := Block(k + 1, false)]
  }

  lemma {:induction false} HalvesShaped(o: nat, k: nat)
    requires Shaped(o, Block(k + 1, false)) && k >= MIN_ORDER
    ensures Shaped(o, Block(k, false)) && Shaped(o + Pow2(k), Block(k, true))
  {
    AlignedWeaken(o, k, k + 1);
    Pow2Aligned(k, k);
    AlignedAdd(o, Pow2(k), k);
  }

  lemma {:induction false} SplitTiled(bs: Blocks, o: nat)
    requires Tiled(bs) && o in bs && bs[o].order > MIN_ORDER
    ensures Tiled(Split(bs, o))
  {
    hide Pow2, Aligned, Shaped, Followed, Before;
    var r: Blocks := Split(bs, o);
    forall p | p in r
      ensures Shaped(p, r[p]) && Followed(r, p)
    {
      SplitOne(bs, o, p);
    }
    forall p, q | p in r && q in r && p < q
      ensures Before(r, p, q)
    {
      SplitApart(bs, o, p, q);
    }
  }

  lemma {:induction false} SplitOne(bs: Blocks, o: nat, p: nat)
    requires Tiled(bs) && o in bs && bs[o].order > MIN_ORDER && p in Split(bs, o)
    ensures Shaped(p, Split(bs, o)[p]) && Followed(Split(bs, o), p)
  {
    hide Aligned, Pow2, Shaped, Tiled;
    var k := bs[o].order - 1;
    BlockAt(bs, o);
    if p == o || p == o + Pow2(k) {
      HalvesShaped(o, k);
    } else {
      BlockAt(bs, p);
    }
  }

  lemma {:induction false} BlockAt(bs: Blocks, o: nat)
    requires Tiled(bs) && o in bs
    ensures Shaped(o, bs[o]) && Followed(bs, o)
    ensures bs[o].order > 0 ==> Shaped(o, Block(bs[o].order - 1 + 1, false)) && Size(bs[o]) == 2 * Pow2(bs[o].order - 1)
  {
    assert Shaped(o, bs[o]) && Followed(bs, o);
  }

  lemma {:induction false} SplitApart(bs: Blocks, o: nat, p: nat, q: nat)
    requires Tiled(bs) && o in bs && bs[o].order > MIN_ORDER
    requires p in Split(bs, o) && q in Split(bs, o) && p < q
    ensures Before(Split(bs, o), p, q)
  {
    var u: nat := o + Pow2(bs[o].order - 1);
    if p == u {
      assert Before(bs, o, q);
    } else if q == u {
      assert p < o ==> Before(bs, p, o);
      assert o < p ==> Before(bs, o, p);
    } else {
      assert Before(bs, p, q);
    }
  }

  ghost predicate Mergeable(bs: Blocks, lower: nat, k: nat) {
    && k < MAX_ORDER && Aligned(lower, k + 1)
    && lower in bs && bs[lower].order == k
    && lower + Pow2(k) in bs && bs[lower + Pow2(k)].order == k
  }

  lemma {:induction false} MergeTiled(bs: Blocks, lower: nat, k: nat)
    requires Tiled(bs) && Mergeable(bs, lower, k)
    ensures Tiled(Merge(bs, lower, k))
  {
    var r: Blocks := Merge(bs, lower, k);
    forall p | p in r
      ensures Shaped(p, r[p]) && Followed(r, p)
    {
      MergeShaped(bs, lower, k, p);
    }
    forall p, q | p in r && q in r && p < q
      ensures Before(r, p, q)
    {
      MergeApart(bs, lower, k, p, q);
    }
  }

  lemma {:induction false} MergeShaped(bs: Blocks, lower: nat, k: nat, p: nat)
    requires Tiled(bs) && Mergeable(bs, lower, k) && p in Merge(bs, lower, k)
    ensures Shaped(p, Merge(bs, lower, k)[p]) && Followed(Merge(bs, lower, k), p)
  {
    var u: nat := lower + Pow2(k);
    if p == lower {
      assert Shaped(lower, bs[lower]) && Shaped(u, bs[u]) && Followed(bs, u);
    } else {
      assert Shaped(p, bs[p]) && Followed(bs, p);
      assert p < lower ==> Before(bs, p, lower);
      assert lower < p ==> Before(bs, lower, p);
    }
  }

  lemma {:induction false} MergeApart(bs: Blocks, lower: nat, k: nat, p: nat, q: nat)
    requires Tiled(bs) && Mergeable(bs, lower, k)
    requires p in Merge(bs, lower, k) && q in Merge(bs, lower, k) && p < q
    ensures Before(Merge(bs, lower, k), p, q)
  {
    var u: nat := lower + Pow2(k);
    if p == lower {
      assert Before(bs, lower, q) && (u < q ==> Before(bs, u, q));
    } else {
      assert Before(bs, p, q);
    }
  }

  lemma {:induction false} RetypeTiled(bs: Blocks, o: nat, free: bool)
    requires Tiled(bs) && o in bs
    ensures Tiled(bs[o := Block(bs[o].order, free)])
  {
    var r: Blocks := bs[o := Block(bs[o].order, free)];
    forall p | p in r
      ensures Shaped(p, r[p]) && Followed(r, p)
    {
      assert Shaped(p, bs[p]) && Followed(bs, p);
    }
    forall p, q | p in r && q in r && p < q
      ensures Before(r, p, q)
    {
      assert Before(bs, p, q);
    }
  }

  // ----- Coalescing

  lemma {:induction false} SplitCoalesced(bs: Blocks, o: nat)
    requires Tiled(bs) && Coalesced(bs) && o in bs && bs[o].order > MIN_ORDER && !bs[o].free
    ensures Coalesced(Split(bs, o))
  {
    var r: Blocks := Split(bs, o);
    forall p | p in r && r[p].free && r[p].order < MAX_ORDER
      ensures !IsFreeBlock(r, Buddy(p, r[p].order), r[p].order)
    {
      SplitCoalescedAt(bs, o, p);
    }
  }

  lemma {:induction false} SplitCoalescedAt(bs: Blocks, o: nat, p: nat)
    requires Tiled(bs) && Coalesced(bs) && o in bs && bs[o].order > MIN_ORDER && !bs[o].free
    requires p in Split(bs, o) && Split(bs, o)[p].free && Split(bs, o)[p].order < MAX_ORDER
    ensures !IsFreeBlock(Split(bs, o), Buddy(p, Split(bs, o)[p].order), Split(bs, o)[p].order)
  {
    var k := bs[o].order - 1;
    SplitHalfBuddy(bs, o);
    if p != o + Pow2(k) {
      BuddyInvolution(bs, p);
      assert !IsFreeBlock(bs, Buddy(p, bs[p].order), bs[p].order);
    }
  }

  lemma {:induction false} BuddyInvolution(bs: Blocks, p: nat)
    requires Tiled(bs) && p in bs && bs[p].order < MAX_ORDER
    ensures Buddy(Buddy(p, bs[p].order), bs[p].order) == p
    ensures Buddy(p, bs[p].order) != p
  {
    assert Shaped(p, bs[p]);
    BuddyFacts(p, bs[p].order);
  }

  lemma {:induction false} SplitHalfBuddy(bs: Blocks, o: nat)
    requires Tiled(bs) && o in bs && bs[o].order > MIN_ORDER
    ensures Buddy(o + Pow2(bs[o].order - 1), bs[o].order - 1) == o
  {
    assert Shaped(o, bs[o]);
    HalfBuddy(o, bs[o].order - 1);
  }

  lemma {:induction false} HalfBuddy(o: nat, k: nat)
    requires Aligned(o, k + 1)
    ensures Xor(o + Pow2(k), Pow2(k)) == o
  {
    AlignedWeaken(o, k, k + 1);
    Pow2Aligned(k, k);
    AlignedAdd(o, Pow2(k), k);
    UpperHalfUnaligned(o, k);
    XorPow2(o + Pow2(k), k);
  }

  lemma {:induction false} MergeCoalesced(bs: Blocks, lower: nat, k: nat)
    requires Coalesced(bs)
    ensures Coalesced(Merge(bs, lower, k))
  {
    var r: Blocks := Merge(bs, lower, k);
    forall p | p in r && r[p].free && r[p].order < MAX_ORDER
      ensures !IsFreeBlock(r, Buddy(p, r[p].order), r[p].order)
    {
      assert r[p] == bs[p];
      var k' := bs[p].order;
      assert IsFreeBlock(r, Buddy(p, k'), k') ==> IsFreeBlock(bs, Buddy(p, k'), k');
    }
  }

  lemma {:induction false} UseCoalesced(bs: Blocks, o: nat)
    requires Coalesced(bs) && o in bs
    ensures Coalesced(bs[o := Block(bs[o].order, false)])
  {
    var r: Blocks := bs[o := Block(bs[o].order, false)];
    forall p | p in r && r[p].free && r[p].order < MAX_ORDER
      ensures !IsFreeBlock(r, Buddy(p, r[p].order), r[p].order)
    {
      assert IsFreeBlock(r, Buddy(p, r[p].order), r[p].order) ==> IsFreeBlock(bs, Buddy(p, r[p].order), r[p].order);
    }
  }

  lemma {:induction false} ReleaseCoalesced(bs: Blocks, o: nat)
    requires Tiled(bs) && Coalesced(bs) && o in bs
    requires bs[o].order < MAX_ORDER ==> !IsFreeBlock(bs, Buddy(o, bs[o].order), bs[o].order)
    ensures Coalesced(bs[o := Block(bs[o].order, true)])
  {
    var r: Blocks := bs[o := Block(bs[o].order, true)];
    assert Shaped(o, bs[o]);
    forall p | p in r && r[p].free && r[p].order < MAX_ORDER
      ensures !IsFreeBlock(r, Buddy(p, r[p].order), r[p].order)
    {
      BuddyInvolution(bs, p);
      assert p != o && Buddy(p, r[p].order) == o && r[p].order == bs[o].order ==> IsFreeBlock(bs, p, bs[o].order);
      assert p != o ==> !IsFreeBlock(bs, Buddy(p, bs[p].order), bs[p].order);
    }
  }

  lemma {:induction false} SmallestBlock(bs: Blocks, keys: set<nat>) returns (o: nat)
    requires keys != {} && keys <= bs.Keys
    ensures o in keys && forall p :: p in keys ==> bs[o].order <= bs[p].order
    decreases keys
  {
    o :| o in keys;
    if keys != {o} {
      var rest := keys - {o};
      assert keys == rest + {o};
      var p := SmallestBlock(bs, rest);
      if bs[p].order < bs[o].order { o := p; }
    }
  }

  /** Once nothing is live, coalescing has rebuilt the one block the heap started as. */
  lemma {:induction false} AllFreeIsWhole(bs: Blocks)
    requires Tiled(bs) && Coalesced(bs)
    requires forall o :: o in bs ==> bs[o].free
    ensures bs == map[0 := Block(MAX_ORDER, true)]
  {
    var s := SmallestBlock(bs, bs.Keys);
    if bs[s].order < MAX_ORDER {
      BuddyIsBlock(bs, s);
      assert IsFreeBlock(bs, Buddy(s, bs[s].order), bs[s].order);
    }
    forall o | o in bs
      ensures o == 0 && bs[o] == Block(MAX_ORDER, true)
    {
      assert Shaped(o, bs[o]);
    }
  }

  // ----- Accounting

  /** Bytes in blocks at or above o that are free (or in use). */
  ghost function Bytes(bs: Blocks, o: nat, free: bool): (r: nat)
    decreases HEAP_SIZE - o
  {
    if o >= HEAP_SIZE || o !in bs then 0
    else (if bs[o].free == free then Size(bs[o]) else 0) + Bytes(bs, o + Size(bs[o]), free)
  }

  ghost function Used(bs: Blocks): (r: nat) {
    Bytes(bs, 0, false)
  }

  /** Used and free bytes always add up to the heap. */
  lemma {:induction false} UsedPlusFree(bs: Blocks, o: nat)
    requires Tiled(bs) && (o in bs || o == HEAP_SIZE)
    ensures Bytes(bs, o, false) + Bytes(bs, o, true) == HEAP_SIZE - o
    decreases HEAP_SIZE - o
  {
    if o != HEAP_SIZE {
      Bounds(bs, o);
      assert Followed(bs, o);
      UsedPlusFree(bs, o + Size(bs[o]));
    }
  }

  ghost predicate SameFrom(bs: Blocks, cs: Blocks, o: nat) {
    forall p :: p >= o ==> (p in bs <==> p in cs) && (p in bs ==> bs[p] == cs[p])
  }

  lemma {:induction false} BytesAbove(bs: Blocks, cs: Blocks, o: nat, free: bool)
    requires SameFrom(bs, cs, o)
    ensures Bytes(bs, o, free) == Bytes(cs, o, free)
    decreases HEAP_SIZE - o
  {
    if o < HEAP_SIZE && o in bs {
      BytesAbove(bs, cs, o + Size(bs[o]), free);
    }
  }

  ghost predicate SameBelow(bs: Blocks, cs: Blocks, o: nat) {
    forall p :: p in bs && p < o ==> p in cs && cs[p] == bs[p]
  }

  /** A change at or above o changes the sum by what it changes from o on. */
  lemma {:induction false} BytesBelow(bs: Blocks, cs: Blocks, o: nat, at: nat)
    requires Tiled(bs) && o in bs && at in bs && at <= o && SameBelow(bs, cs, o)
    ensures Bytes(cs, at, false) - Bytes(bs, at, false) == Bytes(cs, o, false) - Bytes(bs, o, false)
    decreases HEAP_SIZE - at
  {
    hide Tiled, Pow2;
    if at < o {
      NextUpTo(bs, at, o);
      BytesBelow(bs, cs, o, at + Size(bs[at]));
    }
  }

  lemma {:induction false} NextUpTo(bs: Blocks, at: nat, o: nat)
    requires Tiled(bs) && o in bs && at in bs && at < o
    ensures at < HEAP_SIZE && at + Size(bs[at]) in bs && at + Size(bs[at]) <= o
  {
    Bounds(bs, at);
    Bounds(bs, o);
    assert Followed(bs, at) && Before(bs, at, o);
  }

  /** Marking one block in use, or free, moves exactly its size. */
  lemma {:induction false} RetypeBytes(bs: Blocks, cs: Blocks, o: nat)
    requires Tiled(bs) && o in bs && bs[o].free
    requires cs == bs[o := Block(bs[o].order, false)]
    ensures Used(cs) == Used(bs) + Size(bs[o])
  {
    Bounds(bs, o);
    assert SameBelow(bs, cs, o) && SameFrom(bs, cs, o + Size(bs[o]));
    RetypeBytesHere(bs, cs, o, bs[o].order);
    BytesBelow(bs, cs, o, 0);
  }

  lemma {:induction false} RetypeBytesHere(bs: Blocks, cs: Blocks, o: nat, k: nat)
    requires o in bs && bs[o] == Block(k, true) && o in cs && cs[o] == Block(k, false)
    requires o < HEAP_SIZE && SameFrom(bs, cs, o + Pow2(k))
    ensures Bytes(cs, o, false) == Bytes(bs, o, false) + Pow2(k)
  {
    BytesAbove(bs, cs, o + Pow2(k), false);
  }

  /** Two half blocks, one of them free, count as one half. */
  lemma {:induction false} PairBytes(bs: Blocks, o: nat, k: nat)
    requires o in bs && bs[o].order == k && o + Pow2(k) in bs && bs[o + Pow2(k)].order == k
    requires bs[o].free != bs[o + Pow2(k)].free && o + Pow2(k + 1) <= HEAP_SIZE
    ensures Bytes(bs, o, false) == Pow2(k) + Bytes(bs, o + Pow2(k + 1), false)
  {
    var u: nat := o + Pow2(k);
    assert Bytes(bs, o, false) == (if bs[o].free then 0 else Pow2(k)) + Bytes(bs, u, false);
    assert Bytes(bs, u, false) == (if bs[u].free then 0 else Pow2(k)) + Bytes(bs, u + Pow2(k), false);
  }

  lemma {:induction false} PairVersusWhole(pair: Blocks, whole: Blocks, o: nat, k: nat)
    requires o in pair && pair[o].order == k && o + Pow2(k) in pair && pair[o + Pow2(k)].order == k
    requires pair[o].free != pair[o + Pow2(k)].free && o + Pow2(k + 1) <= HEAP_SIZE
    requires o in whole && whole[o] == Block(k + 1, false)
    requires SameFrom(pair, whole, o + Pow2(k + 1))
    ensures Bytes(whole, o, false) == Bytes(pair, o, false) + Pow2(k)
  {
    PairBytes(pair, o, k);
    BytesAbove(pair, whole, o + Pow2(k + 1), false);
    assert Bytes(whole, o, false) == Pow2(k + 1) + Bytes(whole, o + Pow2(k + 1), false);
  }

  lemma {:induction false} SplitSame(bs: Blocks, o: nat, k: nat)
    requires o in bs && bs[o].order == k + 1
    ensures SameBelow(bs, Split(bs, o), o) && SameFrom(Split(bs, o), bs, o + Pow2(k + 1))
    ensures Split(bs, o)[o] == Block(k, false) && Split(bs, o)[o + Pow2(k)] == Block(k, true)
  {
  }

  lemma {:induction false} SplitBytes(bs: Blocks, o: nat)
    requires Tiled(bs) && o in bs && bs[o].order > MIN_ORDER && !bs[o].free
    ensures Used(Split(bs, o)) == Used(bs) - Pow2(bs[o].order - 1)
  {
    Bounds(bs, o);
    SplitSame(bs, o, bs[o].order - 1);
    PairVersusWhole(Split(bs, o), bs, o, bs[o].order - 1);
    BytesBelow(bs, Split(bs, o), o, 0);
  }

  lemma {:induction false} MergeSame(bs: Blocks, lower: nat, k: nat)
    ensures SameBelow(bs, Merge(bs, lower, k), lower) && SameFrom(bs, Merge(bs, lower, k), lower + Pow2(k + 1))
    ensures Merge(bs, lower, k)[lower] == Block(k + 1, false)
  {
  }

  /** Absorbing a free buddy of order k grows the block in hand by 2^k. */
  lemma {:induction false} MergeBytes(bs: Blocks, lower: nat, k: nat)
    requires Tiled(bs) && Mergeable(bs, lower, k)
    requires bs[lower].free != bs[lower + Pow2(k)].free
    ensures Used(Merge(bs, lower, k)) == Used(bs) + Pow2(k)
  {
    Bounds(bs, lower + Pow2(k));
    MergeSame(bs, lower, k);
    PairVersusWhole(bs, Merge(bs, lower, k), lower, k);
    BytesBelow(bs, Merge(bs, lower, k), lower, 0);
  }
}
