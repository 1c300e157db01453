/** The buddy allocator itself, working in place on the bytes of its region. */
module Heap {
  import opened Powers
  import opened Tiling
  import opened HeapMemory
  import opened HeapSteps

  const WORD: nat := 0x1_0000_0000_0000_0000

  /** The memory with s written over it from `to` on. */
  ghost function Overlaid(m: seq<byte>, to: nat, s: seq<byte>): (r: seq<byte>)
    requires to + |s| <= |m|
    ensures |r| == |m|
  {
    m[..to] + s + m[to + |s|..]
  }

  lemma {:induction false} OverlayEnds(m: seq<byte>, to: nat, s: seq<byte>)
    requires to + |s| <= |m|
    ensures Overlaid(m, to, s[..0]) == m && Overlaid(m, to, s) == m[..to] + s + m[to + |s|..]
  {
  }

  lemma {:induction false} OverlayOne(m: seq<byte>, to: nat, s: seq<byte>, i: nat)
    requires to + |s| <= |m| && i < |s|
    ensures Overlaid(m, to, s[..i])[to + i := s[i]] == Overlaid(m, to, s[..i + 1])
  {
  }

  lemma {:induction false} OverlayElsewhere(m: seq<byte>, to: nat, s: seq<byte>, x: nat)
    requires to + |s| <= |m| && x < |m| && !(to <= x < to + |s|)
    ensures Overlaid(m, to, s)[x] == m[x]
  {
  }

  class Heap {
    const base: nat
    const memory: array<byte>
    const freeLists: array<nat>
    var usedBytes: nat
    ghost var blocks: Blocks
    ghost var lists: seq<seq<nat>>

    ghost predicate Shape()
      reads this
    {
      && memory.Length == HEAP_SIZE && freeLists.Length == ORDER_COUNT
      && memory as object != freeLists as object
      && base % 16 == 0 && base > 0
    }

    /** The state inside a critical section: raw is the block in hand, hand its bytes
        not (or no longer) counted in usedBytes. */
    ghost predicate Working(raw: set<nat>, hand: nat)
      reads this, memory, freeLists
    {
      Shape() && Sound(memory[..], base, freeLists[..], blocks, lists, raw, usedBytes + hand)
    }

    ghost predicate Valid()
      reads this, memory, freeLists
    {
      Working({}, 0)
    }

    /** Offsets of the blocks handed out, with their orders. */
    ghost function Live(): (r: map<nat, nat>)
      reads this
    {
      LiveOf(blocks)
    }

    // ----- Header access

    method WriteHeader(o: nat, h: Header)
      requires o + HEADER_SIZE <= memory.Length
      modifies memory
      ensures memory[..] == PutHeader(old(memory[..]), o, h)
    {
      hide Overlaid;
      var s := Encode(h);
      ghost var m := memory[..];
      OverlayEnds(m, o, s);
      for i := 0 to HEADER_SIZE
        invariant memory[..] == Overlaid(m, o, s[..i])
      {
        OverlayOne(m, o, s, i);
        ghost var w := memory[..];
        memory[o + i] := s[i];
        assert memory[..] == w[o + i := s[i]];
      }
      assert s[..HEADER_SIZE] == s;
    }

    method PushFree(o: nat, k: nat)
      requires Shape() && o + HEADER_SIZE <= HEAP_SIZE && MIN_ORDER <= k <= MAX_ORDER
      modifies memory, freeLists
      ensures memory[..] == PutHeader(old(memory[..]), o, FreeHeader(old(memory[..]), o, k, old(freeLists[k - MIN_ORDER])))
      ensures freeLists[..] == old(freeLists[..])[k - MIN_ORDER := base + o]
    {
      WriteHeader(o, FreeHeader(memory[..], o, k, freeLists[k - MIN_ORDER]));
      freeLists[k - MIN_ORDER] := base + o;
    }

    // ----- Initialize

    /** The region arrives with arbitrary contents. */
    constructor (base: nat)
      requires base % 16 == 0 && base > 0 && base + HEAP_SIZE < Pow256(8)
      ensures Valid() && fresh(memory) && fresh(freeLists)
      ensures this.base == base && Live() == map[] && usedBytes == 0
      ensures blocks == map[0 := Block(MAX_ORDER, true)]
    {
      this.base := base;
      memory := new byte[HEAP_SIZE];
      freeLists := new nat[ORDER_COUNT](_ => 0);
      usedBytes := 0;
      blocks := map[0 := Block(MAX_ORDER, false)];
      lists := seq(ORDER_COUNT, _ => []);
      new;
      BlankSound(memory[..], base, freeLists[..], blocks, lists);
      Release(0, MAX_ORDER);
    }

    /** The PushFree that ends Free (and Initialize): the block in hand becomes free. */
    method Release(o: nat, k: nat)
      requires Working({o}, Pow2(k)) && o in blocks && blocks[o] == Block(k, false)
      requires k < MAX_ORDER ==> !IsFreeBlock(blocks, Buddy(o, k), k)
      modifies this`blocks, this`lists, memory, freeLists
      ensures Valid()
      ensures blocks == old(blocks)[o := Block(k, true)] && Live() == old(Live()) - {o}
      ensures o + HEADER_SIZE <= HEAP_SIZE && exists h :: memory[..] == PutHeader(old(memory[..]), o, h)
    {
      hide Sound, FreeHeader, PutHeader, LiveOf;
      ReleaseStep(memory[..], base, freeLists[..], blocks, lists, usedBytes + Pow2(k), o, k);
      PushFree(o, k);
      lists := lists[k - MIN_ORDER := [o] + lists[k - MIN_ORDER]];
      blocks := blocks[o := Block(k, true)];
    }

    // ----- RemoveFree

    method Unlink(prev: int, o: nat, k: nat)
      requires Shape() && o + HEADER_SIZE <= HEAP_SIZE && -1 <= prev && prev + HEADER_SIZE <= HEAP_SIZE
      requires MIN_ORDER <= k <= MAX_ORDER
      modifies memory, freeLists
      ensures memory[..] == UnlinkWrites(old(memory[..]), prev, o)
      ensures freeLists[..] == if prev < 0 then old(freeLists[..])[k - MIN_ORDER := HeaderAt(old(memory[..]), o).next] else old(freeLists[..])
    {
      hide HeaderAt, PutHeader;
      if prev < 0 {
        freeLists[k - MIN_ORDER] := HeaderAt(memory[..], o).next;
      } else {
        WriteHeader(prev, HeaderAt(memory[..], prev).(next := HeaderAt(memory[..], o).next));
      }
      WriteHeader(o, HeaderAt(memory[..], o).(next := 0, isFree := 0));
    }

    /** Follows the links until one points at the target, or to the end of the list. */
    method FindLink(target: nat, k: nat, ghost raw: set<nat>) returns (prev: int, cur: nat, ghost j: nat)
      requires Shape() && Represents(memory[..], base, freeLists[..], blocks, lists, raw) && MIN_ORDER <= k <= MAX_ORDER
      ensures |lists| == ORDER_COUNT && j <= |lists[k - MIN_ORDER]|
      ensures cur == Pointer(base, lists[k - MIN_ORDER], j) && target !in lists[k - MIN_ORDER][..j]
      ensures cur == 0 || cur == base + target
      ensures prev == if j == 0 then -1 else lists[k - MIN_ORDER][j - 1]
    {
      ghost var l := lists[k - MIN_ORDER];
      j := 0;
      prev, cur := -1, freeLists[k - MIN_ORDER];
      WalkStart(memory[..], base, freeLists[..], blocks, lists, raw, k);
      hide Represents, HeaderAt;
      while cur != 0 && cur != base + target
        invariant j <= |l| && cur == Pointer(base, l, j) && target !in l[..j]
        invariant prev == if j == 0 then -1 else l[j - 1]
        decreases |l| - j
      {
        WalkAt(memory[..], base, freeLists[..], blocks, lists, raw, j, k);
        prev := cur - base;
        cur := HeaderAt(memory[..], prev).next;
        j := j + 1;
      }
    }

    /** Unlinks a specific block; false, with nothing changed, when it is not on the list. */
    method RemoveFree(target: nat, k: nat, ghost raw: set<nat>, ghost before: seq<byte>, ghost hand: nat)
      returns (removed: bool)
      requires Shape() && Represents(memory[..], base, freeLists[..], blocks, lists, raw) && Tiled(blocks)
      requires MIN_ORDER <= k <= MAX_ORDER
      requires |before| == HEAP_SIZE && LiveKept(before, memory[..], blocks, hand)
      modifies this`blocks, this`lists, memory, freeLists
      ensures removed <==> IsFreeBlock(old(blocks), target, k)
      ensures blocks == if removed then old(blocks)[target := Block(k, false)] else old(blocks)
      ensures Represents(memory[..], base, freeLists[..], blocks, lists, raw)
      ensures LiveKept(before, memory[..], old(blocks), hand)
    {
      hide LiveKept, Tiled, Represents, UnlinkWrites, HeaderAt;
      var prev, cur, j := FindLink(target, k, raw);
      removed := cur != 0;
      if removed {
        WalkAt(memory[..], base, freeLists[..], blocks, lists, raw, j, k);
        RemoveStep(memory[..], base, freeLists[..], blocks, lists, raw, j, k);
        UnlinkLiveKept(before, memory[..], blocks, hand, prev, target);
        Unlink(prev, target, k);
        lists := lists[k - MIN_ORDER := lists[k - MIN_ORDER][..j] + lists[k - MIN_ORDER][j + 1..]];
        blocks := blocks[target := Block(k, false)];
      } else {
        WalkEnd(memory[..], base, freeLists[..], blocks, lists, raw, target, j, k);
      }
    }

    // ----- Allocate

    /** Smallest order whose block is at least bytes; capped at MAX_ORDER. */
    method OrderFor(bytes: nat) returns (order: nat)
      ensures MIN_ORDER <= order <= MAX_ORDER
      ensures bytes <= HEAP_SIZE ==> SmallestOrder(bytes, order)
      ensures bytes > HEAP_SIZE ==> order == MAX_ORDER
    {
      order := MIN_ORDER;
      while Pow2(order) < bytes && order < MAX_ORDER
        invariant MIN_ORDER <= order <= MAX_ORDER
        invariant order > MIN_ORDER ==> Pow2(order - 1) < bytes
      {
        order := order + 1;
      }
      if order < MAX_ORDER { Pow2Monotone(order, MAX_ORDER); }
    }

    /** First order from wanted up whose list is not empty, or MAX_ORDER + 1. */
    method FindOrder(bytes: nat, wanted: nat) returns (order: nat)
      requires Valid() && SmallestOrder(bytes, wanted)
      ensures wanted <= order <= MAX_ORDER + 1
      ensures order <= MAX_ORDER ==> freeLists[order - MIN_ORDER] != 0
      ensures order > MAX_ORDER <==> !SomeFreeAtLeast(blocks, bytes)
      ensures order <= MAX_ORDER ==> NoneSmaller(blocks, bytes, order)
    {
      order := wanted;
      while order <= MAX_ORDER && freeLists[order - MIN_ORDER] == 0
        invariant wanted <= order <= MAX_ORDER + 1
        invariant forall i :: wanted - MIN_ORDER <= i < order - MIN_ORDER ==> freeLists[..][i] == 0
      {
        order := order + 1;
      }
      if order > MAX_ORDER {
        NothingLargeEnough(memory[..], base, freeLists[..], blocks, lists, bytes, wanted);
      } else {
        SomethingLargeEnough(memory[..], base, freeLists[..], blocks, lists, bytes, wanted, order);
        NothingSmaller(memory[..], base, freeLists[..], blocks, lists, bytes, wanted, order);
      }
    }

    method TakeFirst(k: nat) returns (o: nat)
      requires Valid() && MIN_ORDER <= k <= MAX_ORDER && freeLists[k - MIN_ORDER] != 0
      modifies this`blocks, this`lists, freeLists
      ensures Working({o}, Pow2(k))
      ensures IsFreeBlock(old(blocks), o, k) && blocks == old(blocks)[o := Block(k, false)]
    {
      hide Sound, HeaderAt;
      TakeStep(memory[..], base, freeLists[..], blocks, lists, usedBytes, k);
      o := freeLists[k - MIN_ORDER] - base;
      freeLists[k - MIN_ORDER] := HeaderAt(memory[..], o).next;
      lists := lists[k - MIN_ORDER := lists[k - MIN_ORDER][1..]];
      blocks := blocks[o := Block(k, false)];
    }

    /** One round of splitting: the upper half goes back on the list one order below. */
    method SplitOnce(o: nat, k: nat, ghost before: seq<byte>, ghost hi: nat)
      requires Working({o}, Pow2(k + 1)) && o in blocks && blocks[o] == Block(k + 1, false) && MIN_ORDER <= k < MAX_ORDER
      requires Outside(before, memory[..], o, hi) && hi >= o + Pow2(k + 1)
      modifies this`blocks, this`lists, memory, freeLists
      ensures Working({o}, Pow2(k)) && o in blocks && blocks[o] == Block(k, false)
      ensures Live() == old(Live())[o := k]
      ensures Outside(before, memory[..], o, hi)
    {
      hide Sound, LiveOf, Outside, FreeHeader, PutHeader, Split;
      var u := o + Pow2(k);
      SplitStep(memory[..], base, freeLists[..], blocks, lists, usedBytes + Pow2(k + 1), o, k, u);
      SplitOutside(before, memory[..], o, hi, k, FreeHeader(memory[..], u, k, freeLists[k - MIN_ORDER]));
      PushFree(u, k);
      lists := lists[k - MIN_ORDER := [u] + lists[k - MIN_ORDER]];
      blocks := Split(blocks, o);
    }

    /** Null exactly when no free block is large enough. A request that makes size + 16
        wrap is served by the smallest block, and then the payload is too small. */
    method Allocate(size: nat) returns (p: nat)
      requires Valid() && size < WORD
      modifies this, memory, freeLists
      ensures Valid()
      ensures p != 0 <==> size > 0 && SomeFreeAtLeast(old(blocks), (size + HEADER_SIZE) % WORD)
      ensures p == 0 ==> blocks == old(blocks) && memory[..] == old(memory[..]) && usedBytes == old(usedBytes)
      ensures p != 0 ==> p >= base + HEADER_SIZE && Allocated(p - base - HEADER_SIZE, size, old(Live()), old(usedBytes))
      ensures p != 0 ==> BestFit(old(blocks), p - base - HEADER_SIZE, (size + HEADER_SIZE) % WORD)
      ensures LiveKept(old(memory[..]), memory[..], old(blocks), -1)
    {
      hide Sound, LiveKept, LiveOf, SomeFreeAtLeast, PutHeader, UsedHeader, Outside, NoneSmaller, BestFit;
      SelfKept(memory[..], base, freeLists[..], blocks, lists, usedBytes);
      if size == 0 { return 0; }
      var needed := (size + HEADER_SIZE) % WORD;
      if needed > HEAP_SIZE {
        SoundTooLarge(memory[..], base, freeLists[..], blocks, lists, usedBytes, needed);
        return 0;
      }
      var wanted := OrderFor(needed);
      var order := FindOrder(needed, wanted);
      if order > MAX_ORDER { return 0; }
      p := Carve(needed, wanted, order);
      SmallestTaken(old(blocks), p - base - HEADER_SIZE, needed, wanted, order);
      PayloadFits(size, needed, wanted);
    }

    /** What a successful Allocate has done to the set of live blocks. */
    ghost predicate Allocated(o: nat, size: nat, live: map<nat, nat>, used: nat)
      reads this
    {
      && o !in live && o in Live()
      && SmallestOrder((size + HEADER_SIZE) % WORD, Live()[o])
      && Live() == live[o := Live()[o]]
      && usedBytes == used + Pow2(Live()[o])
      && (base + o + HEADER_SIZE) % 16 == 0
      && (size + HEADER_SIZE <= Pow2(Live()[o]) <==> size + HEADER_SIZE < WORD)
    }

    /** The rest of Allocate once the list to take from is known. */
    method Carve(needed: nat, wanted: nat, start: nat) returns (p: nat)
      requires Valid() && SmallestOrder(needed, wanted) && wanted <= start <= MAX_ORDER && freeLists[start - MIN_ORDER] != 0
      modifies this, memory, freeLists
      ensures Valid()
      ensures p >= base + HEADER_SIZE && p - base - HEADER_SIZE !in old(Live())
      ensures IsFreeBlock(old(blocks), p - base - HEADER_SIZE, start)
      ensures Live() == old(Live())[p - base - HEADER_SIZE := wanted]
      ensures p % 16 == 0 && usedBytes == old(usedBytes) + Pow2(wanted)
      ensures LiveKept(old(memory[..]), memory[..], old(blocks), -1)
    {
      hide Sound, LiveKept, LiveOf, PutHeader, UsedHeader, Outside, Pow2;
      var order := start;
      var o := TakeFirst(order);
      ghost var hi := o + Pow2(order);
      TakenLive(old(blocks), blocks, o, order);
      WholeOutside(memory[..], base, freeLists[..], blocks, lists, usedBytes + Pow2(order), o);
      while order > wanted
        invariant wanted <= order <= start && hi >= o + Pow2(order)
        invariant Working({o}, Pow2(order)) && o in blocks && blocks[o] == Block(order, false)
        invariant Live() == old(Live())[o := order]
        invariant Outside(old(memory[..]), memory[..], o, hi)
        invariant usedBytes == old(usedBytes)
      {
        order := order - 1;
        Pow2Monotone(order, order + 1);
        SplitOnce(o, order, old(memory[..]), hi);
      }
      Claim(o, wanted, old(memory[..]), hi);
      CarvedKept(old(memory[..]), memory[..], base, old(freeLists[..]), old(blocks), old(lists), old(usedBytes), o, start);
      p := base + o + HEADER_SIZE;
    }

    method Claim(o: nat, k: nat, ghost before: seq<byte>, ghost hi: nat)
      requires Working({o}, Pow2(k)) && o in blocks && blocks[o] == Block(k, false)
      requires Outside(before, memory[..], o, hi) && hi >= o + Pow2(k) && k >= MIN_ORDER
      modifies this`usedBytes, memory
      ensures Valid() && usedBytes == old(usedBytes) + Pow2(k) && o % 16 == 0
      ensures Outside(before, memory[..], o, hi)
    {
      hide Sound, PutHeader, UsedHeader;
      ClaimStep(memory[..], base, freeLists[..], blocks, lists, usedBytes + Pow2(k), o, k);
      HeaderInBlock(k);
      PutOutside(before, memory[..], o, hi, o, UsedHeader(memory[..], o, k));
      WriteHeader(o, UsedHeader(memory[..], o, k));
      usedBytes := usedBytes + Pow2(k);
    }

    // ----- Free

    /** One round of merging: absorbs the buddy when it is a whole free block. */
    method MergeOnce(o: nat, k: nat, ghost before: seq<byte>) returns (merged: bool, lower: nat)
      requires Working({o}, Pow2(k)) && o in blocks && blocks[o] == Block(k, false) && k < MAX_ORDER
      requires |before| == HEAP_SIZE && LiveKept(before, memory[..], blocks, o)
      modifies this`blocks, this`lists, memory, freeLists
      ensures merged <==> IsFreeBlock(old(blocks), Buddy(o, k), k)
      ensures !merged ==> lower == o && blocks == old(blocks)
      ensures Working({lower}, if merged then Pow2(k + 1) else Pow2(k))
      ensures lower in blocks && blocks[lower] == Block(if merged then k + 1 else k, false)
      ensures LiveKept(before, memory[..], blocks, lower)
      ensures Live() - {lower} == old(Live()) - {o}
    {
      hide Sound, LiveKept, LiveOf, HeaderAt, Represents, Tiled, Coalesced, Used, Merge, Pow2, Xor;
      lower := o;
      var y := Xor(o, Pow2(k));
      SoundProbe(memory[..], base, freeLists[..], blocks, lists, usedBytes + Pow2(k), o, k);
      var h := HeaderAt(memory[..], y);
      if h.magic != BLOCK_MAGIC || h.isFree == 0 || h.order != k { return false, o; }
      merged := RemoveFree(y, k, {o}, before, o);
      if !merged { assert false; }
      lower := if o < y then o else y;
      Pow2Twice(k);
      AbsorbAll(before, memory[..], base, freeLists[..], old(blocks), blocks, lists, usedBytes + Pow2(k), o, y, lower, k);
      blocks := Merge(blocks, lower, k);
    }

    /** The merge loop: ends at a block whose buddy cannot be absorbed. */
    method MergeUp(start: nat, k: nat, ghost before: seq<byte>) returns (offset: nat, order: nat)
      requires Working({start}, Pow2(k)) && start in blocks && blocks[start] == Block(k, false) && k <= MAX_ORDER
      requires |before| == HEAP_SIZE && LiveKept(before, memory[..], blocks, start)
      modifies this`blocks, this`lists, memory, freeLists
      ensures Working({offset}, Pow2(order)) && offset in blocks && blocks[offset] == Block(order, false)
      ensures order < MAX_ORDER ==> !IsFreeBlock(blocks, Buddy(offset, order), order)
      ensures order <= MAX_ORDER && LiveKept(before, memory[..], blocks, offset)
      ensures Live() - {offset} == old(Live()) - {start}
    {
      hide Sound, LiveKept, LiveOf, Pow2, Buddy, IsFreeBlock;
      offset, order := start, k;
      while order < MAX_ORDER
        invariant Working({offset}, Pow2(order)) && offset in blocks && blocks[offset] == Block(order, false)
        invariant order <= MAX_ORDER && LiveKept(before, memory[..], blocks, offset)
        invariant Live() - {offset} == old(Live()) - {start}
      {
        var merged;
        merged, offset := MergeOnce(offset, order, before);
        if !merged { break; }
        order := order + 1;
      }
    }

    /** Takes the block of a live pointer out of use and merges it as far as possible. A
        pointer to a block that is free already is ignored. */
    method Free(p: nat)
      requires Valid() && (p != 0 ==> p >= base + HEADER_SIZE && p - base - HEADER_SIZE in blocks)
      modifies this, memory, freeLists
      ensures Valid()
      ensures p == 0 || !old(IsLivePointer(p)) ==> blocks == old(blocks) && memory[..] == old(memory[..]) && usedBytes == old(usedBytes)
      ensures old(IsLivePointer(p)) ==> Live() == old(Live()) - {p - base - HEADER_SIZE}
      ensures old(IsLivePointer(p)) ==> usedBytes == old(usedBytes) - Pow2(old(Live())[p - base - HEADER_SIZE])
      ensures LiveKept(old(memory[..]), memory[..], old(blocks), p - base - HEADER_SIZE)
    {
      hide Sound, LiveKept, LiveOf, HeaderAt, PutHeader;
      SelfKept(memory[..], base, freeLists[..], blocks, lists, usedBytes);
      if p == 0 {
        KeptExcept(memory[..], memory[..], blocks, p - base - HEADER_SIZE);
        return;
      }
      var start: nat := p - base - HEADER_SIZE;
      HeaderSeen(memory[..], base, freeLists[..], blocks, lists, usedBytes, start);
      var h := HeaderAt(memory[..], start);
      if h.magic != BLOCK_MAGIC || h.isFree != 0 {
        KeptExcept(memory[..], memory[..], blocks, start);
        return;
      }
      PickUp(memory[..], base, freeLists[..], blocks, lists, usedBytes, start);
      usedBytes := usedBytes - Pow2(h.order);
      var offset, order := MergeUp(start, h.order, old(memory[..]));
      ghost var m, bs := memory[..], blocks;
      SoundTiled(memory[..], base, freeLists[..], blocks, lists, usedBytes + Pow2(order), offset);
      Release(offset, order);
      ReleasedKept(old(memory[..]), m, memory[..], bs, offset, old(blocks), start);
    }

    // ----- Clients and Reallocate

    /** Clients write inside the payload of their own blocks, and whatever they like. */
    method Store(o: nat, i: nat, value: byte)
      requires Valid() && o in Live() && HEADER_SIZE <= i < Pow2(Live()[o])
      modifies memory
      ensures Valid() && o + i < HEAP_SIZE && memory[..] == old(memory[..])[o + i := value]
      ensures LiveKept(old(memory[..]), memory[..], blocks, o)
    {
      hide Sound, LiveKept, LiveOf, Outside;
      LiveInside(memory[..], base, freeLists[..], blocks, lists, usedBytes, o);
      ghost var r := memory[..][o + i := value];
      UpdateOutside(memory[..], o + i, value);
      PayloadWritten(memory[..], r, base, freeLists[..], blocks, lists, usedBytes, o, o + i, o + i + 1);
      memory[o + i] := value;
    }

    /** memcpy between two payloads that do not overlap. */
    method Copy(to: nat, from: nat, n: nat)
      requires to + n <= memory.Length && from + n <= memory.Length && (to + n <= from || from + n <= to)
      modifies memory
      ensures memory[..] == old(memory[..])[..to] + old(memory[..])[from..from + n] + old(memory[..])[to + n..]
    {
      hide Overlaid;
      ghost var m := memory[..];
      ghost var s := m[from..from + n];
      OverlayEnds(m, to, s);
      for i := 0 to n
        invariant memory[..] == Overlaid(m, to, s[..i])
      {
        OverlayOne(m, to, s, i);
        OverlayElsewhere(m, to, s[..i], from + i);
        ghost var w := memory[..];
        assert memory[from + i] == w[from + i];
        memory[to + i] := memory[from + i];
        assert memory[..] == w[to + i := s[i]];
      }
      assert s[..n] == s;
    }

    ghost predicate IsLivePointer(p: nat)
      reads this
    {
      p >= base + HEADER_SIZE && p - base - HEADER_SIZE in Live()
    }

    /** The test that lets Reallocate return the pointer it was given. */
    method FitsInPlace(size: nat, k: nat) returns (stays: bool)
      requires MIN_ORDER <= k <= MAX_ORDER
      ensures stays <==> SmallestOrder(size + HEADER_SIZE, k)
    {
      HeaderInBlock(k);
      stays := false;
      if size <= Pow2(k) - HEADER_SIZE {
        Pow2Monotone(k, MAX_ORDER);
        var order := OrderFor(size + HEADER_SIZE);
        OrderUnique(size + HEADER_SIZE, order, k);
        stays := order == k;
      }
    }

    /** Whether the copy stays inside the block it goes to: the request does not wrap, or
        nothing is copied, or the old block is of the least order. CopyFits says why. */
    ghost predicate Confined(p: nat, size: nat)
      reads this
    {
      || size + HEADER_SIZE < WORD
      || p == 0
      || !SomeFreeAtLeast(blocks, (size + HEADER_SIZE) % WORD)
      || (IsLivePointer(p) && Live()[p - base - HEADER_SIZE] == MIN_ORDER)
    }

    /** Keeps the common prefix of the payload; on failure the old block is untouched. */
    method Reallocate(p: nat, size: nat) returns (r: nat)
      requires Valid() && size < WORD && (p != 0 ==> IsLivePointer(p)) && Confined(p, size)
      modifies this, memory, freeLists
      ensures Valid()
      ensures p == 0 ==> (r != 0 <==> size > 0 && SomeFreeAtLeast(old(blocks), (size + HEADER_SIZE) % WORD))
      ensures p == 0 && r != 0 ==> r >= base + HEADER_SIZE && Allocated(r - base - HEADER_SIZE, size, old(Live()), old(usedBytes))
      ensures p != 0 && size == 0 ==> r == 0 && Live() == old(Live()) - {p - base - HEADER_SIZE}
      ensures p != 0 && size == 0 ==> usedBytes == old(usedBytes) - Pow2(old(Live())[p - base - HEADER_SIZE])
      ensures p != 0 && size > 0 ==> var o: nat := p - base - HEADER_SIZE; var k := old(Live())[o];
        if SmallestOrder(size + HEADER_SIZE, k) then
          r == p && blocks == old(blocks) && memory[..] == old(memory[..]) && usedBytes == old(usedBytes)
        else if !SomeFreeAtLeast(old(blocks), (size + HEADER_SIZE) % WORD) then
          r == 0 && blocks == old(blocks) && memory[..] == old(memory[..]) && usedBytes == old(usedBytes)
        else
          r != 0 && r >= base + HEADER_SIZE && Moved(old(memory[..]), o, k, r - base - HEADER_SIZE, size, old(Live()), old(usedBytes))
      ensures LiveKept(old(memory[..]), memory[..], old(blocks), p - base - HEADER_SIZE)
    {
      hide Sound, LiveKept, LiveOf, SomeFreeAtLeast, HeaderAt, PayloadMoved, SmallestOrder;
      SelfKept(memory[..], base, freeLists[..], blocks, lists, usedBytes);
      KeptExcept(memory[..], memory[..], blocks, p - base - HEADER_SIZE);
      if p == 0 {
        r := Allocate(size);
        KeptExcept(old(memory[..]), memory[..], old(blocks), p - base - HEADER_SIZE);
        return;
      }
      if size == 0 {
        LiveIsBlock(blocks, p - base - HEADER_SIZE);
        Free(p);
        return 0;
      }
      var o: nat := p - base - HEADER_SIZE;
      PickUp(memory[..], base, freeLists[..], blocks, lists, usedBytes, o);
      var k := HeaderAt(memory[..], o).order;
      var stays := FitsInPlace(size, k);
      if stays { return p; }
      r := Replace(p, o, k, size);
    }

    /** The live blocks and the copied prefix after a successful move from o to n. */
    ghost predicate Moved(before: seq<byte>, o: nat, k: nat, n: nat, size: nat, live: map<nat, nat>, used: nat)
      reads this, memory
    {
      && n !in live && n in Live() && SmallestOrder((size + HEADER_SIZE) % WORD, Live()[n])
      && Live() == live[n := Live()[n]] - {o}
      && usedBytes == used + Pow2(Live()[n]) - Pow2(k)
      && PayloadMoved(before, memory[..], o, k, n, size)
    }

    method Replace(p: nat, o: nat, k: nat, size: nat) returns (r: nat)
      requires Valid() && 0 < size < WORD && p == base + o + HEADER_SIZE && o in Live() && Live()[o] == k && MIN_ORDER <= k <= MAX_ORDER
      requires size + HEADER_SIZE < WORD || k == MIN_ORDER || !SomeFreeAtLeast(blocks, (size + HEADER_SIZE) % WORD)
      modifies this, memory, freeLists
      ensures Valid()
      ensures r != 0 <==> SomeFreeAtLeast(old(blocks), (size + HEADER_SIZE) % WORD)
      ensures r == 0 ==> blocks == old(blocks) && memory[..] == old(memory[..]) && usedBytes == old(usedBytes)
      ensures r != 0 ==> r >= base + HEADER_SIZE && Moved(old(memory[..]), o, k, r - base - HEADER_SIZE, size, old(Live()), old(usedBytes))
      ensures LiveKept(old(memory[..]), memory[..], old(blocks), o)
    {
      hide Sound, LiveKept, LiveOf, SomeFreeAtLeast, PrefixCopied, PayloadMoved, CommonPrefix;
      r := Allocate(size);
      KeptExcept(old(memory[..]), memory[..], old(blocks), o);
      if r != 0 {
        var n: nat := r - base - HEADER_SIZE;
        var c := CommonPrefix(size, k);
        ghost var m1, bs1 := memory[..], blocks;
        CopyFits(size, k, Live()[n]);
        ghost var m2 := MoveOver(p, o, n, k, size);
        MoveKept(old(memory[..]), m1, m2, memory[..], old(blocks), bs1, o, n);
        MovePrefix(old(memory[..]), m1, m2, memory[..], old(blocks), bs1, o, n, c);
        PrefixMoved(old(memory[..]), memory[..], o, k, n, size);
      }
    }

    /** memcpy into the new block, then Free of the old one. */
    method MoveOver(p: nat, o: nat, n: nat, k: nat, size: nat) returns (ghost copied: seq<byte>)
      requires Valid() && p == base + o + HEADER_SIZE && o in Live() && n in Live() && o != n
      requires Live()[o] == k && MIN_ORDER <= k && HEADER_SIZE + CommonPrefix(size, k) <= Pow2(Live()[n])
      modifies this, memory, freeLists
      ensures Valid() && Live() == old(Live()) - {o} && usedBytes == old(usedBytes) - Pow2(k)
      ensures LiveKept(old(memory[..]), copied, old(blocks), n) && LiveKept(copied, memory[..], old(blocks), o)
      ensures PrefixCopied(old(memory[..]), copied, o, n, CommonPrefix(size, k))
      ensures HEADER_SIZE + CommonPrefix(size, k) <= Pow2(k)
    {
      hide Sound, LiveKept, LiveOf, CommonPrefix, PrefixCopied, Pow2;
      var c := CommonPrefix(size, k);
      CopyRoom(memory[..], base, freeLists[..], blocks, lists, usedBytes, o, n, size, k, c);
      Copy(n + HEADER_SIZE, o + HEADER_SIZE, c);
      copied := memory[..];
      CopyStep(old(memory[..]), copied, base, freeLists[..], blocks, lists, usedBytes, o, n, c);
      LiveIsBlock(blocks, o);
      Free(p);
    }

    /** Freeing everything that is live, in whatever order, leaves the one block the
        heap started with. */
    method FreeAll(pointers: seq<nat>)
      requires Valid()
      requires forall i, j :: 0 <= i < j < |pointers| ==> pointers[i] != pointers[j]
      requires forall p :: p in pointers <==> IsLivePointer(p)
      modifies this, memory, freeLists
      ensures Valid() && usedBytes == 0
      ensures blocks == map[0 := Block(MAX_ORDER, true)]
    {
      hide Sound, LiveKept, LiveOf;
      for i := 0 to |pointers|
        invariant Valid()
        invariant forall p :: p in pointers[i..] <==> IsLivePointer(p)
      {
        assert pointers[i] in pointers[i..];
        LiveIsBlock(blocks, pointers[i] - base - HEADER_SIZE);
        Free(pointers[i]);
        forall p
          ensures p in pointers[i + 1..] <==> IsLivePointer(p)
        {
          assert p in pointers[i..] <==> p == pointers[i] || p in pointers[i + 1..];
        }
      }
      forall o: nat
        ensures o !in Live()
      {
        assert !IsLivePointer(base + o + HEADER_SIZE);
      }
      assert Live() == map[];
      NothingLiveIsWhole(memory[..], base, freeLists[..], blocks, lists, usedBytes);
    }
  }

  lemma {:induction false} NothingLiveIsWhole(m: seq<byte>, base: nat, heads: seq<nat>, bs: Blocks, ls: seq<seq<nat>>, used: nat)
    requires Sound(m, base, heads, bs, ls, {}, used) && LiveOf(bs) == map[]
    ensures bs == map[0 := Block(MAX_ORDER, true)] && used == 0
  {
    assert forall o :: o in bs && !bs[o].free ==> o in LiveOf(bs);
    AllFreeIsWhole(bs);
    assert Bytes(bs, HEAP_SIZE, false) == 0;
  }

  /** Payloads of different live blocks do not overlap, and lie inside the region. */
  lemma {:induction false} PayloadsDisjoint(m: seq<byte>, base: nat, heads: seq<nat>, bs: Blocks, ls: seq<seq<nat>>, used: nat, o: nat, p: nat)
    requires Sound(m, base, heads, bs, ls, {}, used) && o in LiveOf(bs) && p in LiveOf(bs) && o < p
    ensures o + Pow2(LiveOf(bs)[o]) < p + HEADER_SIZE && p + Pow2(LiveOf(bs)[p]) <= HEAP_SIZE
  {
    assert Before(bs, o, p);
    Bounds(bs, p);
  }

  /** usedBytes is the sum of the live block sizes, and the free blocks make up the rest. */
  lemma {:induction false} Accounting(m: seq<byte>, base: nat, heads: seq<nat>, bs: Blocks, ls: seq<seq<nat>>, used: nat)
    requires Sound(m, base, heads, bs, ls, {}, used)
    ensures used == Bytes(bs, 0, false) && used + Bytes(bs, 0, true) == HEAP_SIZE
  {
    UsedPlusFree(bs, 0);
  }

  /** How many payload bytes an old block of order k and a new request have in common. */
  function CommonPrefix(size: nat, k: nat): (c: nat)
    ensures c <= size && (k >= MIN_ORDER ==> c <= Pow2(k) - HEADER_SIZE)
    ensures k >= MIN_ORDER ==> c == size || c == Pow2(k) - HEADER_SIZE
  {
    if k < MIN_ORDER then 0
    else
      HeaderInBlock(k);
      if size < Pow2(k) - HEADER_SIZE then size else Pow2(k) - HEADER_SIZE
  }

  /** Every byte that both the old payload and the request have is in the new payload. */
  ghost predicate PayloadMoved(m: seq<byte>, r: seq<byte>, o: nat, k: nat, n: nat, size: nat) {
    forall i: nat {:trigger ByteMoved(m, r, o, n, i)} :: i < size && HEADER_SIZE + i < Pow2(k) ==> ByteMoved(m, r, o, n, i)
  }

  ghost predicate ByteMoved(m: seq<byte>, r: seq<byte>, o: nat, n: nat, i: nat) {
    o + HEADER_SIZE + i < |m| && n + HEADER_SIZE + i < |r| && r[n + HEADER_SIZE + i] == m[o + HEADER_SIZE + i]
  }

  lemma {:induction false} PrefixMoved(m: seq<byte>, r: seq<byte>, o: nat, k: nat, n: nat, size: nat)
    requires k >= MIN_ORDER && PrefixCopied(m, r, o, n, CommonPrefix(size, k))
    ensures PayloadMoved(m, r, o, k, n, size)
  {
    var c := CommonPrefix(size, k);
    forall i: nat | i < size && HEADER_SIZE + i < Pow2(k)
      ensures ByteMoved(m, r, o, n, i)
    {
      assert r[n + HEADER_SIZE..n + HEADER_SIZE + c][i] == m[o + HEADER_SIZE..o + HEADER_SIZE + c][i];
    }
  }

  ghost predicate PrefixCopied(m: seq<byte>, r: seq<byte>, o: nat, n: nat, c: nat) {
    && o + HEADER_SIZE + c <= |m| && n + HEADER_SIZE + c <= |r|
    && r[n + HEADER_SIZE..n + HEADER_SIZE + c] == m[o + HEADER_SIZE..o + HEADER_SIZE + c]
  }

  lemma {:induction false} OrderUnique(bytes: nat, k: nat, q: nat)
    requires SmallestOrder(bytes, k) && MIN_ORDER <= q <= MAX_ORDER && bytes <= Pow2(q)
    ensures k == q <==> SmallestOrder(bytes, q)
  {
    if k < q { Pow2Monotone(k, q - 1); }
    if q < k { Pow2Monotone(q, k - 1); }
  }

  lemma {:induction false} LiveInside(m: seq<byte>, base: nat, heads: seq<nat>, bs: Blocks, ls: seq<seq<nat>>, used: nat, o: nat)
    requires Sound(m, base, heads, bs, ls, {}, used) && o in LiveOf(bs)
    ensures |m| == HEAP_SIZE && o in bs && !bs[o].free && LiveOf(bs)[o] == bs[o].order && o + Pow2(bs[o].order) <= HEAP_SIZE
  {
    Bounds(bs, o);
  }

  lemma {:induction false} UpdateOutside(m: seq<byte>, i: nat, value: byte)
    requires i < |m|
    ensures Outside(m, m[i := value], i, i + 1)
  {
  }

  lemma {:induction false} PayloadWritten(m: seq<byte>, r: seq<byte>, base: nat, heads: seq<nat>, bs: Blocks, ls: seq<seq<nat>>, used: nat, o: nat, lo: nat, hi: nat)
    requires Sound(m, base, heads, bs, ls, {}, used) && o in bs && !bs[o].free
    requires o + HEADER_SIZE <= lo <= hi <= o + Pow2(bs[o].order) && Outside(m, r, lo, hi)
    ensures Sound(r, base, heads, bs, ls, {}, used) && LiveKept(m, r, bs, o)
  {
    PayloadStep(m, r, base, heads, bs, ls, used, o, lo, hi);
    Bounds(bs, o);
    assert Outside(m, r, o, o + Size(bs[o])) by {
      OutsideKept(m, r, lo, hi, 0, o);
      OutsideKept(m, r, lo, hi, o + Size(bs[o]), |m|);
    }
    OutsideLiveKept(m, r, bs, o);
  }

  /** Two live blocks do not overlap, and both payloads have room for the common prefix. */
  lemma {:induction false} CopyRoom(m: seq<byte>, base: nat, heads: seq<nat>, bs: Blocks, ls: seq<seq<nat>>, used: nat, o: nat, n: nat, size: nat, k: nat, c: nat)
    requires Sound(m, base, heads, bs, ls, {}, used) && o in LiveOf(bs) && n in LiveOf(bs) && o != n
    requires k == LiveOf(bs)[o] && c == CommonPrefix(size, k) && HEADER_SIZE + c <= Pow2(LiveOf(bs)[n])
    ensures |m| == HEAP_SIZE && n in bs && !bs[n].free && bs[n].order == LiveOf(bs)[n] && HEADER_SIZE + c <= Pow2(k)
    ensures n + HEADER_SIZE + c <= n + Pow2(bs[n].order) && n + Pow2(bs[n].order) <= HEAP_SIZE && o + HEADER_SIZE + c <= HEAP_SIZE
    ensures n + HEADER_SIZE + c <= o + HEADER_SIZE || o + HEADER_SIZE + c <= n + HEADER_SIZE
  {
    Bounds(bs, o);
    Bounds(bs, n);
    assert o < n ==> Before(bs, o, n);
    assert n < o ==> Before(bs, n, o);
  }

  lemma {:induction false} CopyStep(m: seq<byte>, r: seq<byte>, base: nat, heads: seq<nat>, bs: Blocks, ls: seq<seq<nat>>, used: nat, o: nat, n: nat, c: nat)
    requires Sound(m, base, heads, bs, ls, {}, used) && n in bs && !bs[n].free && HEADER_SIZE + c <= Pow2(bs[n].order)
    requires n + HEADER_SIZE + c <= |m| && o + HEADER_SIZE + c <= |m|
    requires r == m[..n + HEADER_SIZE] + m[o + HEADER_SIZE..o + HEADER_SIZE + c] + m[n + HEADER_SIZE + c..]
    ensures Sound(r, base, heads, bs, ls, {}, used) && LiveKept(m, r, bs, n) && PrefixCopied(m, r, o, n, c)
  {
    hide Sound, LiveKept;
    CopyOutside(m, r, n + HEADER_SIZE, o + HEADER_SIZE, c);
    PayloadWritten(m, r, base, heads, bs, ls, used, n, n + HEADER_SIZE, n + HEADER_SIZE + c);
  }

  lemma {:induction false} CopyOutside(m: seq<byte>, r: seq<byte>, to: nat, from: nat, c: nat)
    requires to + c <= |m| && from + c <= |m| && r == m[..to] + m[from..from + c] + m[to + c..]
    ensures Outside(m, r, to, to + c) && r[to..to + c] == m[from..from + c]
  {
  }

  lemma {:induction false} MoveKept(m0: seq<byte>, m1: seq<byte>, m2: seq<byte>, m3: seq<byte>, bs0: Blocks, bs1: Blocks, o: nat, n: nat)
    requires LiveKept(m0, m1, bs0, o) && LiveKept(m1, m2, bs1, n) && LiveKept(m2, m3, bs1, o)
    requires n !in LiveOf(bs0) && n in LiveOf(bs1) && LiveOf(bs1) == LiveOf(bs0)[n := LiveOf(bs1)[n]]
    ensures LiveKept(m0, m3, bs0, o)
  {
    forall q | q in bs0 && !bs0[q].free && q != o
      ensures Kept(m0, m3, q, q + Size(bs0[q]))
    {
      SameBlock(bs0, bs1, n, q);
      assert Kept(m0, m1, q, q + Size(bs0[q])) && Kept(m1, m2, q, q + Size(bs1[q])) && Kept(m2, m3, q, q + Size(bs1[q]));
    }
  }

  lemma {:induction false} SameBlock(bs0: Blocks, bs1: Blocks, n: nat, q: nat)
    requires n !in LiveOf(bs0) && n in LiveOf(bs1) && LiveOf(bs1) == LiveOf(bs0)[n := LiveOf(bs1)[n]]
    requires q in bs0 && !bs0[q].free
    ensures q != n && q in bs1 && bs1[q] == bs0[q]
  {
    assert q in LiveOf(bs0) && q in LiveOf(bs1);
  }

  lemma {:induction false} MovePrefix(m0: seq<byte>, m1: seq<byte>, m2: seq<byte>, m3: seq<byte>, bs0: Blocks, bs1: Blocks, o: nat, n: nat, c: nat)
    requires LiveKept(m0, m1, bs0, -1) && LiveKept(m2, m3, bs1, o)
    requires n !in LiveOf(bs0) && n in LiveOf(bs1) && LiveOf(bs1) == LiveOf(bs0)[n := LiveOf(bs1)[n]]
    requires o in LiveOf(bs0) && HEADER_SIZE + c <= Pow2(LiveOf(bs0)[o]) && HEADER_SIZE + c <= Pow2(LiveOf(bs1)[n])
    requires PrefixCopied(m1, m2, o, n, c)
    ensures PrefixCopied(m0, m3, o, n, c)
  {
    assert Kept(m0, m1, o, o + Size(bs0[o])) && Kept(m2, m3, n, n + Size(bs1[n]));
    KeptPart(m0, m1, o, o + Size(bs0[o]), o + HEADER_SIZE, o + HEADER_SIZE + c);
    KeptPart(m2, m3, n, n + Size(bs1[n]), n + HEADER_SIZE, n + HEADER_SIZE + c);
  }

  lemma {:induction false} KeptPart(m: seq<byte>, r: seq<byte>, lo: nat, hi: nat, from: nat, to: nat)
    requires Kept(m, r, lo, hi) && lo <= from <= to <= hi
    ensures m[from..to] == r[from..to]
  {
    forall i | from <= i < to
      ensures m[i] == r[i]
    {
      assert m[i] == m[lo..hi][i - lo] && r[i] == r[lo..hi][i - lo];
    }
  }

  // ----- Facts the merge loop needs, each from the state as a whole

  lemma {:induction false} SoundProbe(m: seq<byte>, base: nat, heads: seq<nat>, bs: Blocks, ls: seq<seq<nat>>, used: nat, o: nat, k: nat)
    requires Sound(m, base, heads, bs, ls, {o}, used) && o in bs && bs[o] == Block(k, false) && k < MAX_ORDER
    ensures Represents(m, base, heads, bs, ls, {o}) && Tiled(bs) && k >= MIN_ORDER
    ensures Buddy(o, k) + HEADER_SIZE <= |m|
    ensures IsFreeBlock(bs, Buddy(o, k), k) <==>
      (var h := HeaderAt(m, Buddy(o, k)); h.magic == BLOCK_MAGIC && h.isFree != 0 && h.order == k)
    ensures Coalesced(bs) && Used(bs) == used
  {
    Bounds(bs, o);
    ProbeStep(m, base, heads, bs, ls, o, k);
  }

  lemma {:induction false} AbsorbAll(before: seq<byte>, m: seq<byte>, base: nat, heads: seq<nat>, bs: Blocks, cs: Blocks, ls: seq<seq<nat>>, used: nat, o: nat, y: nat, lower: nat, k: nat)
    requires Tiled(bs) && Coalesced(bs) && Used(bs) == used
    requires o in bs && bs[o] == Block(k, false) && k < MAX_ORDER && y == Buddy(o, k) && IsFreeBlock(bs, y, k)
    requires lower == (if o < y then o else y)
    requires cs == bs[y := Block(k, false)] && Represents(m, base, heads, cs, ls, {o})
    requires LiveKept(before, m, bs, o)
    ensures Sound(m, base, heads, Merge(cs, lower, k), ls, {lower}, used + Pow2(k))
    ensures lower in Merge(cs, lower, k) && Merge(cs, lower, k)[lower] == Block(k + 1, false)
    ensures LiveOf(Merge(cs, lower, k)) - {lower} == LiveOf(bs) - {o}
    ensures LiveKept(before, m, Merge(cs, lower, k), lower)
  {
    hide Represents, Tiled, Coalesced, Used, LiveKept;
    AbsorbStep(m, base, heads, bs, cs, ls, used, o, y, lower, k);
    BuddyPair(bs, o, k);
    AbsorbLive(bs, cs, o, y, lower, k);
    SameLive(bs, o, Merge(cs, lower, k), lower);
    LiveKeptAlso(before, m, bs, o, Merge(cs, lower, k), lower);
  }

  lemma {:induction false} SameLive(bs: Blocks, o: nat, cs: Blocks, p: nat)
    requires LiveOf(cs) - {p} == LiveOf(bs) - {o}
    ensures forall q :: q in LiveOf(cs) && q != p ==> q in LiveOf(bs) && q != o && LiveOf(cs)[q] == LiveOf(bs)[q]
  {
    forall q | q in LiveOf(cs) && q != p
      ensures q in LiveOf(bs) && q != o && LiveOf(cs)[q] == LiveOf(bs)[q]
    {
      assert q in LiveOf(cs) - {p};
      assert (LiveOf(cs) - {p})[q] == (LiveOf(bs) - {o})[q];
    }
  }

  /** The header of a block tells whether it is live. */
  lemma {:induction false} HeaderSeen(m: seq<byte>, base: nat, heads: seq<nat>, bs: Blocks, ls: seq<seq<nat>>, used: nat, o: nat)
    requires Sound(m, base, heads, bs, ls, {}, used) && o in bs
    ensures |m| == HEAP_SIZE && o + HEADER_SIZE <= |m| && HeaderAt(m, o).magic == BLOCK_MAGIC
    ensures HeaderAt(m, o).isFree == 0 <==> o in LiveOf(bs)
  {
    assert HeaderMatches(m, o, bs[o]);
  }

  lemma {:induction false} LiveIsBlock(bs: Blocks, o: nat)
    requires o in LiveOf(bs)
    ensures o in bs
  {
  }

  lemma {:induction false} PickUp(m: seq<byte>, base: nat, heads: seq<nat>, bs: Blocks, ls: seq<seq<nat>>, used: nat, o: nat)
    requires Sound(m, base, heads, bs, ls, {}, used) && o in LiveOf(bs)
    ensures o in bs && !bs[o].free && LiveOf(bs)[o] == bs[o].order && MIN_ORDER <= bs[o].order <= MAX_ORDER
    ensures |m| == HEAP_SIZE && o + HEADER_SIZE <= |m| && used >= Pow2(bs[o].order)
    ensures HeaderAt(m, o).magic == BLOCK_MAGIC && HeaderAt(m, o).isFree == 0 && HeaderAt(m, o).order == bs[o].order
    ensures Sound(m, base, heads, bs, ls, {o}, used) && LiveKept(m, m, bs, o)
  {
    HandStep(m, base, heads, bs, ls, used, o);
    Bounds(bs, o);
  }

  lemma {:induction false} SoundTiled(m: seq<byte>, base: nat, heads: seq<nat>, bs: Blocks, ls: seq<seq<nat>>, used: nat, o: nat)
    requires Sound(m, base, heads, bs, ls, {o}, used)
    ensures Tiled(bs) && |m| == HEAP_SIZE
  {
  }

  lemma {:induction false} KeptExcept(m: seq<byte>, r: seq<byte>, bs: Blocks, o: int)
    requires LiveKept(m, r, bs, -1)
    ensures LiveKept(m, r, bs, o)
  {
  }

  lemma {:induction false} ReleasedKept(before: seq<byte>, m: seq<byte>, r: seq<byte>, bs: Blocks, o: nat, cs: Blocks, p: nat)
    requires Tiled(bs) && |before| == |m| == HEAP_SIZE && o in bs && LiveKept(before, m, bs, o)
    requires o + HEADER_SIZE <= |m| && exists h :: r == PutHeader(m, o, h)
    requires LiveOf(bs) - {o} == LiveOf(cs) - {p}
    ensures LiveKept(before, r, cs, p)
  {
    var h :| r == PutHeader(m, o, h);
    PutLiveKept(before, m, bs, o, o, h);
    SameLive(bs, o, cs, p);
    LiveKeptAlso(before, r, bs, o, cs, p);
  }

  lemma {:induction false} HeaderInBlock(k: nat)
    requires k >= MIN_ORDER
    ensures Pow2(k) >= 2 * HEADER_SIZE
  {
    Pow2Monotone(MIN_ORDER, k);
    assert Pow2(5) == 32;
  }

  /** The block is large enough for the request exactly when size + 16 did not wrap. */
  lemma {:induction false} PayloadFits(size: nat, needed: nat, k: nat)
    requires size < WORD && needed == (size + HEADER_SIZE) % WORD && SmallestOrder(needed, k)
    ensures size + HEADER_SIZE <= Pow2(k) <==> size + HEADER_SIZE < WORD
  {
    Pow2Monotone(k, MAX_ORDER);
    HeapSizeInBytes();
  }

  /** The copy of Reallocate stays inside the new block, of order w, if and only if
      size + 16 does not wrap or the old block, of order k, is as small as any. */
  lemma {:induction false} CopyFits(size: nat, k: nat, w: nat)
    requires size < WORD && MIN_ORDER <= k <= MAX_ORDER && SmallestOrder((size + HEADER_SIZE) % WORD, w)
    ensures HEADER_SIZE + CommonPrefix(size, k) <= Pow2(w) <==> size + HEADER_SIZE < WORD || k == MIN_ORDER
  {
    HeapSizeInBytes();
    HeaderInBlock(k);
    HeaderInBlock(w);
    Pow2Monotone(k, MAX_ORDER);
    assert Pow2(MIN_ORDER) == 32;
    if size + HEADER_SIZE >= WORD {
      OrderUnique((size + HEADER_SIZE) % WORD, w, MIN_ORDER);
      if k > MIN_ORDER { Pow2Monotone(MIN_ORDER + 1, k); }
    }
  }

  /** A request that wraps gets a block of the least order from a fresh heap. */
  method WrappedRequest(base: nat) returns (heap: Heap, p: nat)
    requires base % 16 == 0 && base > 0 && base + HEAP_SIZE < Pow256(8)
    ensures heap.Valid() && p != 0 && heap.IsLivePointer(p)
    ensures heap.Live()[p - heap.base - HEADER_SIZE] == MIN_ORDER
  {
    hide LiveOf, LiveKept, Heap.Valid;
    heap := new Heap(base);
    HeapSizeInBytes();
    WholeHasRoom(heap.blocks, (WORD - 1 + HEADER_SIZE) % WORD);
    p := heap.Allocate(WORD - 1);
    OrderUnique((WORD - 1 + HEADER_SIZE) % WORD, heap.Live()[p - heap.base - HEADER_SIZE], MIN_ORDER);
  }

  /** The smallest heap in which a wrapped Reallocate would copy past its new block. */
  method Unconfined(base: nat) returns (heap: Heap, p: nat)
    requires base % 16 == 0 && base > 0 && base + HEAP_SIZE < Pow256(8)
    ensures heap.Valid() && p != 0 && heap.IsLivePointer(p) && !heap.Confined(p, WORD - 1)
    ensures heap.Live()[p - heap.base - HEADER_SIZE] == MIN_ORDER + 1
    ensures HEADER_SIZE + CommonPrefix(WORD - 1, MIN_ORDER + 1) > Pow2(MIN_ORDER)
  {
    hide LiveOf, LiveKept, Heap.Valid, Sound, SomeFreeAtLeast, CommonPrefix;
    heap := new Heap(base);
    HeapSizeInBytes();
    assert Pow2(MIN_ORDER + 1) == 64;
    WholeHasRoom(heap.blocks, 56);
    p := heap.Allocate(40);
    OrderUnique(56, heap.Live()[p - heap.base - HEADER_SIZE], MIN_ORDER + 1);
    OrderUnique((WORD - 1 + HEADER_SIZE) % WORD, MIN_ORDER, MIN_ORDER);
    CopyFits(WORD - 1, MIN_ORDER + 1, MIN_ORDER);
    StillRoom(heap, (WORD - 1 + HEADER_SIZE) % WORD);
  }

  lemma {:induction false} WholeHasRoom(bs: Blocks, bytes: nat)
    requires bs == map[0 := Block(MAX_ORDER, true)] && bytes <= HEAP_SIZE
    ensures SomeFreeAtLeast(bs, bytes)
  {
    assert 0 in bs && bs[0].free && Size(bs[0]) >= bytes;
  }

  /** A heap that is not used up has a free block, if only of the least order. */
  lemma {:induction false} StillRoom(heap: Heap, bytes: nat)
    requires heap.Valid() && heap.usedBytes < HEAP_SIZE && bytes <= HEADER_SIZE
    ensures SomeFreeAtLeast(heap.blocks, bytes)
  {
    UsedPlusFree(heap.blocks, 0);
    if !SomeFreeAtLeast(heap.blocks, bytes) {
      forall o | o in heap.blocks ensures !heap.blocks[o].free {
        Bounds(heap.blocks, o);
        HeaderInBlock(heap.blocks[o].order);
      }
      NoneFree(heap.blocks, 0);
    }
  }

  lemma {:induction false} NoneFree(bs: Blocks, o: nat)
    requires forall p :: p in bs ==> !bs[p].free
    ensures Bytes(bs, o, true) == 0
    decreases HEAP_SIZE - o
  {
    if o < HEAP_SIZE && o in bs { NoneFree(bs, o + Size(bs[o])); }
  }

  lemma {:induction false} HeapSizeInBytes()
    ensures HEAP_SIZE == 16 * 1024 * 1024
  {
    assert Pow2(6) == 64;
    assert Pow2(12) == 4096;
    assert Pow2(18) == 262144;
  }

  lemma {:induction false} SelfKept(m: seq<byte>, base: nat, heads: seq<nat>, bs: Blocks, ls: seq<seq<nat>>, used: nat)
    requires Sound(m, base, heads, bs, ls, {}, used)
    ensures LiveKept(m, m, bs, -1)
  {
    forall q | q in bs && !bs[q].free
      ensures Kept(m, m, q, q + Size(bs[q]))
    {
      Bounds(bs, q);
    }
  }

  lemma {:induction false} SoundTooLarge(m: seq<byte>, base: nat, heads: seq<nat>, bs: Blocks, ls: seq<seq<nat>>, used: nat, bytes: nat)
    requires Sound(m, base, heads, bs, ls, {}, used) && bytes > HEAP_SIZE
    ensures !SomeFreeAtLeast(bs, bytes)
  {
    TooLarge(bs, bytes);
  }

  lemma {:induction false} TakenLive(bs: Blocks, cs: Blocks, o: nat, k: nat)
    requires IsFreeBlock(bs, o, k) && cs == bs[o := Block(k, false)]
    ensures o !in LiveOf(bs) && LiveOf(cs) == LiveOf(bs)[o := k]
  {
  }

  lemma {:induction false} WholeOutside(m: seq<byte>, base: nat, heads: seq<nat>, bs: Blocks, ls: seq<seq<nat>>, used: nat, o: nat)
    requires Sound(m, base, heads, bs, ls, {o}, used) && o in bs
    ensures Outside(m, m, o, o + Size(bs[o]))
  {
    Bounds(bs, o);
  }

  lemma {:induction false} CarvedKept(m: seq<byte>, r: seq<byte>, base: nat, heads: seq<nat>, bs: Blocks, ls: seq<seq<nat>>, used: nat, o: nat, k: nat)
    requires Sound(m, base, heads, bs, ls, {}, used) && IsFreeBlock(bs, o, k)
    requires Outside(m, r, o, o + Pow2(k))
    ensures LiveKept(m, r, bs, -1)
  {
    OutsideLiveKept(m, r, bs, o);
  }

  /** No free block of a smaller order has the bytes. */
  ghost predicate NoneSmaller(bs: Blocks, bytes: nat, k: nat) {
    forall q :: q in bs && bs[q].free && Size(bs[q]) >= bytes ==> bs[q].order >= k
  }

  /** The block is free, and the smallest among the free ones with the bytes. */
  ghost predicate BestFit(bs: Blocks, o: nat, bytes: nat) {
    o in bs && bs[o].free && Size(bs[o]) >= bytes && NoneSmaller(bs, bytes, bs[o].order)
  }

  lemma {:induction false} SmallestTaken(bs: Blocks, o: nat, bytes: nat, wanted: nat, k: nat)
    requires SmallestOrder(bytes, wanted) && wanted <= k && IsFreeBlock(bs, o, k) && NoneSmaller(bs, bytes, k)
    ensures BestFit(bs, o, bytes)
  {
    Pow2Monotone(wanted, k);
  }

  lemma {:induction false} NothingSmaller(m: seq<byte>, base: nat, heads: seq<nat>, bs: Blocks, ls: seq<seq<nat>>, bytes: nat, wanted: nat, k: nat)
    requires Represents(m, base, heads, bs, ls, {}) && Tiled(bs) && SmallestOrder(bytes, wanted) && wanted <= k <= MAX_ORDER
    requires forall i :: wanted - MIN_ORDER <= i < k - MIN_ORDER ==> heads[i] == 0
    ensures NoneSmaller(bs, bytes, k)
  {
    forall q | q in bs && bs[q].free && Size(bs[q]) >= bytes
      ensures bs[q].order >= k
    {
      Bounds(bs, q);
      if bs[q].order < wanted {
        OrderTooSmall(bytes, wanted, bs[q].order);
      } else if bs[q].order < k {
        ListEmpty(m, base, heads, bs, ls, {}, bs[q].order);
        assert IsFreeBlock(bs, q, bs[q].order);
      }
    }
  }

  lemma {:induction false} SomethingLargeEnough(m: seq<byte>, base: nat, heads: seq<nat>, bs: Blocks, ls: seq<seq<nat>>, bytes: nat, k: nat, q: nat)
    requires Represents(m, base, heads, bs, ls, {}) && SmallestOrder(bytes, k) && k <= q <= MAX_ORDER
    requires heads[q - MIN_ORDER] != 0
    ensures SomeFreeAtLeast(bs, bytes)
  {
    ListEmpty(m, base, heads, bs, ls, {}, q);
    Pow2Monotone(k, q);
    var o :| IsFreeBlock(bs, o, q);
    assert Size(bs[o]) >= bytes;
  }

  // ----- Walking a free list

  lemma {:induction false} WalkStart(m: seq<byte>, base: nat, heads: seq<nat>, bs: Blocks, ls: seq<seq<nat>>, raw: set<nat>, k: nat)
    requires Represents(m, base, heads, bs, ls, raw) && MIN_ORDER <= k <= MAX_ORDER
    ensures |heads| == |ls| == ORDER_COUNT && heads[k - MIN_ORDER] == Pointer(base, ls[k - MIN_ORDER], 0)
  {
    assert ListAt(m, base, heads, bs, ls, k);
  }

  lemma {:induction false} WalkAt(m: seq<byte>, base: nat, heads: seq<nat>, bs: Blocks, ls: seq<seq<nat>>, raw: set<nat>, j: nat, k: nat)
    requires Represents(m, base, heads, bs, ls, raw) && MIN_ORDER <= k <= MAX_ORDER
    requires |ls| == ORDER_COUNT && j <= |ls[k - MIN_ORDER]| && Pointer(base, ls[k - MIN_ORDER], j) != 0
    ensures var l := ls[k - MIN_ORDER];
      j < |l| && IsFreeBlock(bs, l[j], k) && NextIs(m, l[j], Pointer(base, l, j + 1)) && l[j] + HEADER_SIZE <= HEAP_SIZE
    ensures j > 0 ==> IsFreeBlock(bs, ls[k - MIN_ORDER][j - 1], k) && ls[k - MIN_ORDER][j - 1] + HEADER_SIZE <= HEAP_SIZE
  {
    assert ListAt(m, base, heads, bs, ls, k);
    var l := ls[k - MIN_ORDER];
    assert l[j] in l;
    assert j > 0 ==> l[j - 1] in l;
  }

  lemma {:induction false} WalkEnd(m: seq<byte>, base: nat, heads: seq<nat>, bs: Blocks, ls: seq<seq<nat>>, raw: set<nat>, target: nat, j: nat, k: nat)
    requires Represents(m, base, heads, bs, ls, raw) && MIN_ORDER <= k <= MAX_ORDER
    requires j <= |ls[k - MIN_ORDER]| && Pointer(base, ls[k - MIN_ORDER], j) == 0 && target !in ls[k - MIN_ORDER][..j]
    ensures !IsFreeBlock(bs, target, k)
  {
    assert ListAt(m, base, heads, bs, ls, k);
    assert ls[k - MIN_ORDER][..j] == ls[k - MIN_ORDER];
  }

  lemma {:induction false} RemoveStep(m: seq<byte>, base: nat, heads: seq<nat>, bs: Blocks, ls: seq<seq<nat>>, raw: set<nat>, j: nat, k: nat)
    requires Represents(m, base, heads, bs, ls, raw) && MIN_ORDER <= k <= MAX_ORDER && j < |ls[k - MIN_ORDER]|
    ensures var l := ls[k - MIN_ORDER]; var prev := if j == 0 then -1 else l[j - 1];
      |m| == HEAP_SIZE && l[j] in bs && l[j] + HEADER_SIZE <= |m| && prev + HEADER_SIZE <= |m| &&
      Represents(UnlinkWrites(m, prev, l[j]), base, if prev < 0 then heads[k - MIN_ORDER := HeaderAt(m, l[j]).next] else heads,
                 bs[l[j] := Block(k, false)], ls[k - MIN_ORDER := l[..j] + l[j + 1..]], raw)
  {
    if j == 0 {
      RemoveFirst(m, base, heads, bs, ls, raw, k);
    } else {
      RemoveLater(m, base, heads, bs, ls, raw, j, k);
    }
  }

  lemma {:induction false} RemoveFirst(m: seq<byte>, base: nat, heads: seq<nat>, bs: Blocks, ls: seq<seq<nat>>, raw: set<nat>, k: nat)
    requires Represents(m, base, heads, bs, ls, raw) && MIN_ORDER <= k <= MAX_ORDER && |ls| == ORDER_COUNT && 0 < |ls[k - MIN_ORDER]|
    ensures var l := ls[k - MIN_ORDER];
      |m| == HEAP_SIZE && |heads| == ORDER_COUNT && l[0] in bs && l[0] + HEADER_SIZE <= |m| &&
      Represents(UnlinkWrites(m, -1, l[0]), base, heads[k - MIN_ORDER := HeaderAt(m, l[0]).next],
                 bs[l[0] := Block(k, false)], ls[k - MIN_ORDER := l[..0] + l[1..]], raw)
  {
    hide UnlinkWrites, HeaderAt, Spaced, Represents, ListAt, Lists, Unlinked, HeaderMatches;
    var l := ls[k - MIN_ORDER];
    WalkElement(m, base, heads, bs, ls, raw, 0, k);
    UnlinkFirst(m, base, bs, l, k);
    RemoveRepresents(m, UnlinkWrites(m, -1, l[0]), base, heads, Pointer(base, l, 1), bs, ls, raw, 0, k);
  }

  lemma {:induction false} RemoveLater(m: seq<byte>, base: nat, heads: seq<nat>, bs: Blocks, ls: seq<seq<nat>>, raw: set<nat>, j: nat, k: nat)
    requires Represents(m, base, heads, bs, ls, raw) && MIN_ORDER <= k <= MAX_ORDER && |ls| == ORDER_COUNT && 0 < j < |ls[k - MIN_ORDER]|
    ensures var l := ls[k - MIN_ORDER];
      |m| == HEAP_SIZE && l[j] in bs && l[j] + HEADER_SIZE <= |m| && l[j - 1] + HEADER_SIZE <= |m| &&
      Represents(UnlinkWrites(m, l[j - 1], l[j]), base, heads, bs[l[j] := Block(k, false)], ls[k - MIN_ORDER := l[..j] + l[j + 1..]], raw)
  {
    hide UnlinkWrites, HeaderAt, Spaced, Represents, ListAt, Lists, Unlinked, HeaderMatches, NextIs, Pointer;
    var l := ls[k - MIN_ORDER];
    WalkElement(m, base, heads, bs, ls, raw, j, k);
    WalkElement(m, base, heads, bs, ls, raw, j - 1, k);
    UnlinkLater(m, base, bs, l, j, k);
    RemoveRepresents(m, UnlinkWrites(m, l[j - 1], l[j]), base, heads, heads[k - MIN_ORDER], bs, ls, raw, j, k);
    assert heads[k - MIN_ORDER := heads[k - MIN_ORDER]] == heads;
  }

  lemma {:induction false} WalkElement(m: seq<byte>, base: nat, heads: seq<nat>, bs: Blocks, ls: seq<seq<nat>>, raw: set<nat>, j: nat, k: nat)
    requires Represents(m, base, heads, bs, ls, raw) && MIN_ORDER <= k <= MAX_ORDER && j < |ls[k - MIN_ORDER]|
    ensures |m| == HEAP_SIZE && Spaced(bs) && |heads| == ORDER_COUNT
    ensures var l := ls[k - MIN_ORDER];
      Lists(bs, l, k) && IsFreeBlock(bs, l[j], k) && l[j] + HEADER_SIZE <= |m| &&
      HeaderMatches(m, l[j], Block(k, true)) && NextIs(m, l[j], Pointer(base, l, j + 1))
  {
    assert ListAt(m, base, heads, bs, ls, k);
    var l := ls[k - MIN_ORDER];
    assert l[j] in l && IsFreeBlock(bs, l[j], k);
    assert HeaderMatches(m, l[j], bs[l[j]]);
  }

  lemma {:induction false} UnlinkLiveKept(before: seq<byte>, m: seq<byte>, bs: Blocks, hand: nat, prev: int, o: nat)
    requires Tiled(bs) && |before| == |m| == HEAP_SIZE && LiveKept(before, m, bs, hand)
    requires o in bs && bs[o].free && -1 <= prev && (prev >= 0 ==> prev in bs && bs[prev].free)
    ensures o + HEADER_SIZE <= |m| && prev + HEADER_SIZE <= |m|
    ensures LiveKept(before, UnlinkWrites(m, prev, o), bs, hand)
  {
    hide HeaderAt, PutHeader, LiveKept, Tiled;
    FreeHeaderInside(bs, o);
    if prev >= 0 {
      FreeHeaderInside(bs, prev);
      var m' := PutHeader(m, prev, HeaderAt(m, prev).(next := HeaderAt(m, o).next));
      PutLiveKept(before, m, bs, hand, prev, HeaderAt(m, prev).(next := HeaderAt(m, o).next));
      PutLiveKept(before, m', bs, hand, o, HeaderAt(m', o).(next := 0, isFree := 0));
    } else {
      PutLiveKept(before, m, bs, hand, o, HeaderAt(m, o).(next := 0, isFree := 0));
    }
  }

  lemma {:induction false} FreeHeaderInside(bs: Blocks, o: nat)
    requires Tiled(bs) && o in bs
    ensures o + HEADER_SIZE <= HEAP_SIZE
  {
    TiledSpaced(bs);
  }

  /** One block in hand that covers everything, and nothing on any list. */
  lemma {:induction false} BlankSound(m: seq<byte>, base: nat, heads: seq<nat>, bs: Blocks, ls: seq<seq<nat>>)
    requires |m| == HEAP_SIZE && base > 0 && base + HEAP_SIZE < Pow256(8)
    requires |heads| == |ls| == ORDER_COUNT
    requires forall i :: 0 <= i < ORDER_COUNT ==> heads[i] == 0 && ls[i] == []
    requires bs == map[0 := Block(MAX_ORDER, false)]
    ensures Sound(m, base, heads, bs, ls, {0}, HEAP_SIZE)
  {
    ZeroAligned(MAX_ORDER);
    assert Tiled(bs) by {
      assert Shaped(0, bs[0]) && Followed(bs, 0);
    }
    TiledSpaced(bs);
    assert Bytes(bs, HEAP_SIZE, false) == 0;
    forall k | MIN_ORDER <= k <= MAX_ORDER
      ensures ListAt(m, base, heads, bs, ls, k)
    {
      assert forall o :: !IsFreeBlock(bs, o, k);
    }
  }

  lemma {:induction false} ZeroAligned(k: nat)
    ensures Aligned(0, k)
  {
    if k > 0 { ZeroAligned(k - 1); }
  }
}
