/** Physical frames: a bitmap in which a set bit is a frame that must not be handed out. */
module Frames {
  import opened Powers
  import opened Bitmap

  const SIZE: nat := 4096
  const MIB: nat := 1024 * 1024
  const IDENTITY_MAPPED_LIMIT: nat := 0x1_0000_0000

  // ----- Bit sequences

  ghost function CountFree(bits: seq<bool>): (r: nat)
    ensures r <= |bits|
  {
    if bits == [] then 0
    else CountFree(bits[..|bits| - 1]) + (if bits[|bits| - 1] then 0 else 1)
  }

  /** Changing one bit changes the count by at most one, in the expected direction. */
  lemma {:induction false} CountFreeUpdate(bits: seq<bool>, i: nat, v: bool)
    requires i < |bits|
    ensures CountFree(bits[i := v]) == CountFree(bits) + (if bits[i] then 1 else 0) - (if v then 1 else 0)
  {
    var n := |bits| - 1;
    if i == n {
      assert bits[i := v][..n] == bits[..n];
    } else {
      assert bits[i := v][..n] == bits[..n][i := v];
      CountFreeUpdate(bits[..n], i, v);
    }
  }

  lemma {:induction false} CountFreeNone(bits: seq<bool>)
    requires forall i :: 0 <= i < |bits| ==> bits[i]
    ensures CountFree(bits) == 0
  {
    if bits != [] { CountFreeNone(bits[..|bits| - 1]); }
  }

  lemma {:induction false} SomeFree(bits: seq<bool>)
    ensures CountFree(bits) > 0 <==> exists i :: 0 <= i < |bits| && !bits[i]
  {
    if forall i :: 0 <= i < |bits| ==> bits[i] {
      CountFreeNone(bits);
    } else {
      var i :| 0 <= i < |bits| && !bits[i];
      CountFreeUpdate(bits, i, true);
    }
  }

  /** The bits from lo up to hi set to v, the others as they were. */
  ghost function Filled(bits: seq<bool>, lo: nat, hi: nat, v: bool): (r: seq<bool>)
    ensures |r| == |bits|
    ensures forall i :: 0 <= i < |bits| ==> r[i] == if lo <= i < hi then v else bits[i]
  {
    seq(|bits|, i requires 0 <= i < |bits| => if lo <= i < hi then v else bits[i])
  }

  lemma {:induction false} FilledNext(bits: seq<bool>, lo: nat, hi: nat, v: bool)
    requires lo <= hi < |bits|
    ensures Filled(bits, lo, hi + 1, v) == Filled(bits, lo, hi, v)[hi := v]
  {
  }

  /** All frames from f up to f + n are free. */
  ghost predicate FreeRun(bits: seq<bool>, f: nat, n: nat) {
    f + n <= |bits| && forall i :: f <= i < f + n ==> !bits[i]
  }

  ghost predicate RunBelow(bits: seq<bool>, limit: nat, f: nat, n: nat) {
    f + n <= limit && FreeRun(bits, f, n)
  }

  /** f is the lowest start, from `from` on, of a free run of n frames below the limit. */
  ghost predicate LowestRun(bits: seq<bool>, limit: nat, from: nat, f: nat, n: nat) {
    && from <= f && RunBelow(bits, limit, f, n)
    && forall g :: from <= g < f ==> !RunBelow(bits, limit, g, n)
  }

  ghost predicate NoRun(bits: seq<bool>, limit: nat, from: nat, n: nat) {
    forall g :: from <= g ==> !RunBelow(bits, limit, g, n)
  }

  /** Where not one frame is free, no longer run is. */
  lemma {:induction false} LongerRun(bits: seq<bool>, limit: nat, n: nat)
    requires NoRun(bits, limit, 0, 1) && n >= 1
    ensures NoRun(bits, limit, 0, n)
  {
    forall g: nat
      ensures !RunBelow(bits, limit, g, n)
    {
      assert !RunBelow(bits, limit, g, 1);
    }
  }

  ghost function Frames(f: nat, n: nat): (r: set<nat>)
    ensures forall i :: i in r <==> f <= i < f + n
    ensures |r| == n
  {
    if n == 0 then {} else Frames(f, n - 1) + {f + n - 1}
  }

  // ----- What the boot loader reports

  datatype Range = Range(start: nat, end: nat)

  datatype Region = Region(address: nat, length: nat, available: bool) {
    function End(): (r: nat)
      ensures r == address + length
    {
      address + length
    }

    function Span(): (r: Range)
      ensures r.start == address && r.end == address + length
    {
      Range(address, End())
    }
  }

  datatype Machine = Machine(kernel: Range, regions: seq<Region>, infos: seq<Region>, modules: seq<Range>)

  predicate Overlaps(a: Range, b: Range) {
    a.start < b.end && b.start < a.end
  }

  predicate Holds(r: Range, y: nat) {
    r.start <= y < r.end
  }

  /** Ranges that are not empty overlap exactly when they have an address in common. */
  lemma {:induction false} OverlapsMeans(a: Range, b: Range)
    requires a.start < a.end && b.start < b.end
    ensures Overlaps(a, b) <==> exists y: nat :: Holds(a, y) && Holds(b, y)
  {
    var y := if a.start < b.start then b.start else a.start;
    assert Overlaps(a, b) ==> Holds(a, y) && Holds(b, y);
  }

  function AlignUp(x: nat): (r: nat)
    ensures r % SIZE == 0 && x <= r < x + SIZE
  {
    (x + SIZE - 1) / SIZE * SIZE
  }

  /** The areas a new structure in low memory has to stay clear of. */
  ghost predicate Obstacle(m: Machine, a: Range) {
    || a == m.kernel
    || (exists i :: 0 <= i < |m.infos| && m.infos[i].length != 0 && a == m.infos[i].Span())
    || a in m.modules
  }

  ghost predicate Blocked(m: Machine, r: Range) {
    exists a :: Obstacle(m, a) && Overlaps(r, a)
  }

  /** x is a page-aligned start in the range with room for n unobstructed bytes. */
  ghost predicate Fits(m: Machine, r: Range, n: nat, x: nat) {
    x % SIZE == 0 && r.start <= x && x + n <= r.end && !Blocked(m, Range(x, x + n))
  }

  method IsBlocked(m: Machine, r: Range) returns (blocked: bool, retryAt: nat)
    ensures blocked <==> Blocked(m, r)
    ensures blocked ==> exists a :: Obstacle(m, a) && Overlaps(r, a) && retryAt == a.end
  {
    retryAt := 0;
    if Overlaps(r, m.kernel) {
      assert Obstacle(m, m.kernel);
      return true, m.kernel.end;
    }
    for i := 0 to |m.infos|
      invariant forall j :: 0 <= j < i && m.infos[j].length != 0 ==> !Overlaps(r, m.infos[j].Span())
    {
      if m.infos[i].length != 0 && Overlaps(r, m.infos[i].Span()) {
        assert Obstacle(m, m.infos[i].Span());
        return true, m.infos[i].End();
      }
    }
    for i := 0 to |m.modules|
      invariant forall j :: 0 <= j < i ==> !Overlaps(r, m.modules[j])
    {
      if Overlaps(r, m.modules[i]) {
        assert Obstacle(m, m.modules[i]);
        return true, m.modules[i].end;
      }
    }
    blocked := false;
  }

  /** Nothing between a blocked start and the end of what blocks it can fit either. */
  lemma {:induction false} SkipIsSafe(m: Machine, r: Range, n: nat, start: nat, a: Range, x: nat)
    requires Obstacle(m, a) && Overlaps(Range(start, start + n), a) && start <= x < a.end
    ensures !Fits(m, r, n, x)
  {
    assert Overlaps(Range(x, x + n), a);
  }

  /** The lowest fitting start, or 0 exactly when there is none. */
  method FirstFit(m: Machine, r: Range, n: nat) returns (x: nat)
    requires r.start > 0
    ensures x != 0 ==> Fits(m, r, n, x) && forall y :: 0 <= y < x ==> !Fits(m, r, n, y)
    ensures x == 0 ==> forall y :: !Fits(m, r, n, y)
  {
    x := AlignUp(r.start);
    while x + n <= r.end
      invariant x % SIZE == 0 && r.start <= x
      invariant forall y :: 0 <= y < x ==> !Fits(m, r, n, y)
      decreases r.end - x
    {
      var blocked, retryAt := IsBlocked(m, Range(x, x + n));
      if !blocked { return; }
      ghost var a :| Obstacle(m, a) && Overlaps(Range(x, x + n), a) && retryAt == a.end;
      forall y | x <= y < AlignUp(retryAt)
        ensures !Fits(m, r, n, y)
      {
        if y < retryAt { SkipIsSafe(m, r, n, x, a, y); }
      }
      x := AlignUp(retryAt);
    }
    x := 0;
  }

  /** The part of a region the bitmap may go to. */
  function Usable(r: Region): (u: Range) {
    Range(if r.address > MIB then r.address else MIB,
          if r.End() > IDENTITY_MAPPED_LIMIT then IDENTITY_MAPPED_LIMIT else r.End())
  }

  /** n bytes from x on lie in available region i, above the first megabyte, where the boot
      map reaches, on a page boundary and clear of every obstacle. */
  ghost predicate PlacedIn(m: Machine, n: nat, i: nat, x: nat) {
    && i < |m.regions| && m.regions[i].available && m.regions[i].address <= x && x + n <= m.regions[i].address + m.regions[i].length
    && MIB <= x && x + n <= IDENTITY_MAPPED_LIMIT
    && x % SIZE == 0 && !Blocked(m, Range(x, x + n))
  }

  /** The lowest place in the region, and no earlier region has one. */
  ghost predicate FirstPlace(m: Machine, n: nat, i: nat, x: nat) {
    && PlacedIn(m, n, i, x) && (forall y: nat :: y < x ==> !PlacedIn(m, n, i, y))
    && (n > 0 ==> forall k: nat, y: nat :: k < i ==> !PlacedIn(m, n, k, y))
  }

  ghost predicate HasPlace(m: Machine, n: nat) {
    exists i: nat, x: nat :: PlacedIn(m, n, i, x)
  }

  lemma {:induction false} UsableMeans(m: Machine, n: nat, i: nat, x: nat)
    requires i < |m.regions| && m.regions[i].available
    ensures Fits(m, Usable(m.regions[i]), n, x) <==> PlacedIn(m, n, i, x)
    ensures n > 0 && PlacedIn(m, n, i, x) ==> Usable(m.regions[i]).start < Usable(m.regions[i]).end
  {
    hide Blocked;
  }

  /** The lowest place in the first region that has one; 0 only if no region has, unless
      nothing is to be placed. */
  method ChooseBitmapLocation(m: Machine, n: nat) returns (x: nat)
    ensures x != 0 ==> exists i: nat :: FirstPlace(m, n, i, x)
    ensures n > 0 ==> (x != 0 <==> HasPlace(m, n))
  {
    hide Fits;
    for i := 0 to |m.regions|
      invariant n > 0 ==> forall j: nat, y: nat :: j < i ==> !PlacedIn(m, n, j, y)
    {
      var u := Usable(m.regions[i]);
      if m.regions[i].available {
        forall y: nat ensures Fits(m, u, n, y) <==> PlacedIn(m, n, i, y) {
          UsableMeans(m, n, i, y);
        }
        if u.start < u.end {
          x := FirstFit(m, u, n);
          if x != 0 {
            assert FirstPlace(m, n, i, x);
            return;
          }
        } else {
          forall y: nat ensures n > 0 ==> !PlacedIn(m, n, i, y) {
            UsableMeans(m, n, i, y);
          }
        }
      }
    }
    x := 0;
  }

  lemma {:induction false} PlaceFound(m: Machine, n: nat, x: nat)
    ensures (exists i: nat :: FirstPlace(m, n, i, x)) ==> HasPlace(m, n)
  {
    hide PlacedIn;
  }

  /** Without any memory there is no place either. */
  lemma {:induction false} NothingToPlace(m: Machine)
    requires forall i :: 0 <= i < |m.regions| && m.regions[i].available ==> m.regions[i].End() == 0
    ensures !HasPlace(m, 0)
  {
    hide Blocked;
  }

  method HighestAvailableAddress(m: Machine) returns (highest: nat)
    ensures forall i :: 0 <= i < |m.regions| && m.regions[i].available ==> m.regions[i].End() <= highest
    ensures highest > 0 ==> exists i :: 0 <= i < |m.regions| && m.regions[i].available && m.regions[i].End() == highest
  {
    highest := 0;
    for i := 0 to |m.regions|
      invariant forall j :: 0 <= j < i && m.regions[j].available ==> m.regions[j].End() <= highest
      invariant highest > 0 ==> exists j :: 0 <= j < i && m.regions[j].available && m.regions[j].End() == highest
    {
      if m.regions[i].available && m.regions[i].End() > highest {
        highest := m.regions[i].End();
      }
    }
  }

  // ----- Which frames may be handed out

  /** Frame i lies wholly inside the range. */
  ghost predicate Inside(i: nat, r: Range) {
    r.start <= i * SIZE && (i + 1) * SIZE <= r.end
  }

  /** Frame i shares a byte with the range. */
  ghost predicate Touches(i: nat, r: Range) {
    r.start < r.end && Overlaps(Range(i * SIZE, (i + 1) * SIZE), r)
  }

  ghost predicate InAvailable(m: Machine, n: nat, i: nat) {
    exists j :: 0 <= j < n && j < |m.regions| && m.regions[j].available && Inside(i, m.regions[j].Span())
  }

  /** Which of the first n frames are not wholly inside available memory. */
  ghost function Unavailable(m: Machine, n: nat): (bits: seq<bool>)
    ensures |bits| == n && forall i :: 0 <= i < n ==> (bits[i] <==> !InAvailable(m, |m.regions|, i))
  {
    seq(n, i requires 0 <= i < n => !InAvailable(m, |m.regions|, i))
  }

  ghost predicate TouchesInfo(m: Machine, n: nat, i: nat) {
    exists j :: 0 <= j < n && j < |m.infos| && Touches(i, m.infos[j].Span())
  }

  ghost predicate TouchesModule(m: Machine, n: nat, i: nat) {
    exists j :: 0 <= j < n && j < |m.modules| && Touches(i, m.modules[j])
  }

  /** Exactly the frames that are memory and belong to nobody. */
  ghost predicate MayBeHandedOut(m: Machine, bitmap: Range, i: nat) {
    && InAvailable(m, |m.regions|, i)
    && !Touches(i, Range(0, MIB)) && !Touches(i, m.kernel)
    && !TouchesInfo(m, |m.infos|, i) && !TouchesModule(m, |m.modules|, i)
    && !Touches(i, bitmap)
  }

  ghost predicate SomeFrame(m: Machine, bitmap: Range) {
    exists i: nat :: MayBeHandedOut(m, bitmap, i)
  }

  ghost predicate KnownUser(m: Machine, i: nat) {
    || Touches(i, Range(0, MIB)) || Touches(i, m.kernel)
    || TouchesInfo(m, |m.infos|, i) || TouchesModule(m, |m.modules|, i)
  }

  lemma {:induction false} MoreAvailable(m: Machine, j: nat)
    requires j < |m.regions|
    ensures forall i: nat :: InAvailable(m, j + 1, i) <==> InAvailable(m, j, i) || (m.regions[j].available && Inside(i, m.regions[j].Span()))
  {
  }

  lemma {:induction false} MoreInfos(m: Machine, j: nat)
    requires j < |m.infos|
    ensures forall i: nat :: TouchesInfo(m, j + 1, i) <==> TouchesInfo(m, j, i) || Touches(i, m.infos[j].Span())
  {
  }

  lemma {:induction false} MoreModules(m: Machine, j: nat)
    requires j < |m.modules|
    ensures forall i: nat :: TouchesModule(m, j + 1, i) <==> TouchesModule(m, j, i) || Touches(i, m.modules[j])
  {
  }

  lemma {:induction false} AllTaken(ws: seq<nat>)
    requires forall w :: 0 <= w < |ws| ==> ws[w] == Pow2(64) - 1
    ensures forall i :: 0 <= i < |Bits(ws)| ==> Bits(ws)[i]
    ensures CountFree(Bits(ws)) == 0 && Words(ws)
  {
    hide Pow2;
    forall i: nat | i < |Bits(ws)|
      ensures Bits(ws)[i]
    {
      OnesBit(64, i % BITS_PER_WORD);
    }
    CountFreeNone(Bits(ws));
  }

  lemma {:induction false} AvailableBelow(m: Machine, count: nat)
    requires forall j :: 0 <= j < |m.regions| && m.regions[j].available ==> m.regions[j].End() <= count * SIZE
    ensures forall i: nat :: InAvailable(m, |m.regions|, i) ==> i < count
  {
  }

  const NOT_FOUND: int := -1

  class FrameAllocator {
    var words: array<nat>
    var frameCount: nat
    var reachable: nat
    var totalFrames: nat
    var freeFrames: nat
    var nextIndex: nat
    ghost var live: set<nat>

    ghost function Taken(): (r: seq<bool>)
      reads this`words, words
    {
      Bits(words[..])
    }

    /** The bitmap is made of 64-bit words. */
    ghost predicate Whole()
      reads this`words, words
    {
      Words(words[..])
    }

    /** The bitmap and its counters agree; frames handed out are taken. */
    ghost predicate Valid()
      reads this, words
    {
      && reachable <= frameCount <= |Taken()|
      && Counted()
      && InOrder(Taken(), live, frameCount)
      && freeFrames + |live| <= totalFrames
    }

    ghost predicate Counted()
      reads this`words, this`freeFrames, words
    {
      Whole() && freeFrames == CountFree(Taken())
    }

    // ----- Single bits

    method IsTaken(i: nat) returns (r: bool)
      requires i < |Taken()|
      ensures r == Taken()[i]
    {
      IsTakenBit(words[..], i);
      r := And(words[i / BITS_PER_WORD], Pow2(i % BITS_PER_WORD)) != 0;
    }

    method Take(i: nat)
      requires i < |Taken()| && Whole()
      modifies words
      ensures Taken() == old(Taken())[i := true] && Whole()
    {
      hide Words;
      TakeWord(words[..], i);
      TakeBit(words[..], i);
      ghost var before := words[..];
      var w := i / BITS_PER_WORD;
      words[w] := Or(words[w], Pow2(i % BITS_PER_WORD));
      assert words[..] == before[w := Or(before[w], Pow2(i % BITS_PER_WORD))];
    }

    method Release(i: nat)
      requires i < |Taken()| && Whole()
      modifies words
      ensures Taken() == old(Taken())[i := false] && Whole()
    {
      hide Words;
      ReleaseWord(words[..], i);
      ReleaseBit(words[..], i);
      ghost var before := words[..];
      var w := i / BITS_PER_WORD;
      words[w] := AndNot(words[w], Pow2(i % BITS_PER_WORD));
      assert words[..] == before[w := AndNot(before[w], Pow2(i % BITS_PER_WORD))];
    }

    // ----- Initialize

    constructor ()
      ensures Taken() == [] && frameCount == 0 && live == {}
    {
      words := new nat[0];
      frameCount, reachable, totalFrames, freeFrames, nextIndex := 0, 0, 0, 0, 0;
      live := {};
    }

    /** The frames wholly inside [start, end) become allocatable. */
    method Add(start: nat, end: nat)
      requires Counted() && frameCount <= |Taken()| && freeFrames <= totalFrames
      modifies this`freeFrames, this`totalFrames, words
      ensures Counted() && |Taken()| == |old(Taken())| && freeFrames <= totalFrames
      ensures totalFrames - old(totalFrames) == freeFrames - old(freeFrames)
      ensures forall i :: 0 <= i < |Taken()| ==> (!Taken()[i] <==> !old(Taken())[i] || (i < frameCount && Inside(i, Range(start, end))))
    {
      hide Bits;
      var first := (start + SIZE - 1) / SIZE;
      var last := if end / SIZE > frameCount then frameCount else end / SIZE;
      ghost var before := Taken();
      var index := first;
      while index < last
        invariant first <= index && (index <= last || index == first)
        invariant Counted() && |Taken()| == |before| && freeFrames <= totalFrames
        invariant totalFrames - old(totalFrames) == freeFrames - old(freeFrames)
        invariant forall i :: 0 <= i < |before| ==> (!Taken()[i] <==> !before[i] || (i < last && first <= i < index))
      {
        var taken := IsTaken(index);
        if taken {
          CountFreeUpdate(Taken(), index, false);
          Release(index);
          totalFrames := totalFrames + 1;
          freeFrames := freeFrames + 1;
        }
        index := index + 1;
      }
    }

    /** Every frame that [start, end) touches is withdrawn. */
    method Reserve(start: nat, end: nat)
      requires Counted() && frameCount <= |Taken()| && freeFrames <= totalFrames
      modifies this`freeFrames, words
      ensures Counted() && |Taken()| == |old(Taken())| && freeFrames <= totalFrames
      ensures forall i :: 0 <= i < |Taken()| && i < frameCount ==> (!Taken()[i] <==> !old(Taken())[i] && !Touches(i, Range(start, end)))
      ensures forall i :: frameCount <= i < |Taken()| ==> Taken()[i] == old(Taken())[i]
    {
      hide Bits;
      if end <= start { return; }
      var first := start / SIZE;
      var last := if (end + SIZE - 1) / SIZE > frameCount then frameCount else (end + SIZE - 1) / SIZE;
      ghost var before := Taken();
      var index := first;
      while index < last
        invariant first <= index && (index <= last || index == first)
        invariant Counted() && |Taken()| == |before| && freeFrames <= totalFrames
        invariant forall i :: 0 <= i < |before| ==> (!Taken()[i] <==> !before[i] && !(i < last && first <= i < index))
      {
        var taken := IsTaken(index);
        if !taken {
          CountFreeUpdate(Taken(), index, true);
          Take(index);
          freeFrames := freeFrames - 1;
        }
        index := index + 1;
      }
    }

    ghost predicate Booting()
      reads this`words, this`freeFrames, this`totalFrames, this`frameCount, words
    {
      && Counted() && frameCount <= |Taken()| && freeFrames <= totalFrames
      && forall i :: frameCount <= i < |Taken()| ==> Taken()[i]
    }

    method AddAvailableMemory(m: Machine)
      requires Booting() && forall i :: 0 <= i < |Taken()| ==> Taken()[i]
      requires forall j :: 0 <= j < |m.regions| && m.regions[j].available ==> m.regions[j].End() <= frameCount * SIZE
      modifies this`freeFrames, this`totalFrames, words
      ensures Booting() && |Taken()| == |old(Taken())|
      ensures forall i :: 0 <= i < |Taken()| ==> (!Taken()[i] <==> InAvailable(m, |m.regions|, i))
      ensures totalFrames - old(totalFrames) == freeFrames - old(freeFrames)
    {
      hide Bits;
      for j := 0 to |m.regions|
        invariant Booting() && |Taken()| == |old(Taken())|
        invariant totalFrames - old(totalFrames) == freeFrames - old(freeFrames)
        invariant forall i :: 0 <= i < |Taken()| ==> (!Taken()[i] <==> InAvailable(m, j, i))
      {
        if m.regions[j].available {
          Add(m.regions[j].address, m.regions[j].End());
        }
        MoreAvailable(m, j);
      }
    }

    method ReserveKnownUsers(m: Machine)
      requires Booting()
      modifies this`freeFrames, words
      ensures Booting() && |Taken()| == |old(Taken())|
      ensures forall i :: 0 <= i < |Taken()| ==> (!Taken()[i] <==> !old(Taken())[i] && !KnownUser(m, i))
    {
      hide Bits;
      Reserve(0, MIB);
      Reserve(m.kernel.start, m.kernel.end);
      ghost var before := Taken();
      ReserveInfos(m);
      ReserveModules(m);
    }

    method ReserveInfos(m: Machine)
      requires Booting()
      modifies this`freeFrames, words
      ensures Booting() && |Taken()| == |old(Taken())|
      ensures forall i :: 0 <= i < |Taken()| ==> (!Taken()[i] <==> !old(Taken())[i] && !TouchesInfo(m, |m.infos|, i))
    {
      hide Bits;
      for j := 0 to |m.infos|
        invariant Booting() && |Taken()| == |old(Taken())|
        invariant forall i :: 0 <= i < |Taken()| ==> (!Taken()[i] <==> !old(Taken())[i] && !TouchesInfo(m, j, i))
      {
        Reserve(m.infos[j].address, m.infos[j].End());
        MoreInfos(m, j);
      }
    }

    method ReserveModules(m: Machine)
      requires Booting()
      modifies this`freeFrames, words
      ensures Booting() && |Taken()| == |old(Taken())|
      ensures forall i :: 0 <= i < |Taken()| ==> (!Taken()[i] <==> !old(Taken())[i] && !TouchesModule(m, |m.modules|, i))
    {
      hide Bits;
      for j := 0 to |m.modules|
        invariant Booting() && |Taken()| == |old(Taken())|
        invariant forall i :: 0 <= i < |Taken()| ==> (!Taken()[i] <==> !old(Taken())[i] && !TouchesModule(m, j, i))
      {
        Reserve(m.modules[j].start, m.modules[j].end);
        MoreModules(m, j);
      }
    }

    /** Releases available memory, then withdraws everything that is in use. */
    method Populate(m: Machine, bitmap: Range)
      requires Booting() && totalFrames == 0 && live == {} && reachable <= frameCount
      requires forall i :: 0 <= i < |Taken()| ==> Taken()[i]
      requires forall j :: 0 <= j < |m.regions| && m.regions[j].available ==> m.regions[j].End() <= frameCount * SIZE
      modifies this`freeFrames, this`totalFrames, words
      ensures Valid()
      ensures forall i: nat :: (i < |Taken()| && !Taken()[i]) <==> MayBeHandedOut(m, bitmap, i)
      ensures |Taken()| == |old(Taken())| && totalFrames == CountFree(Unavailable(m, |Taken()|))
    {
      hide Bits, InAvailable, TouchesInfo, TouchesModule, CountFree;
      AvailableBelow(m, frameCount);
      CountFreeNone(Taken());
      AddAvailableMemory(m);
      assert Taken() == Unavailable(m, |Taken()|);
      ReserveKnownUsers(m);
      Reserve(bitmap.start, bitmap.end);
      assert Touches(0, Range(0, MIB));
    }

    /** A bitmap in which every frame is taken. */
    method Blank(wordCount: nat)
      requires frameCount <= wordCount * BITS_PER_WORD
      modifies this`words, this`totalFrames, this`freeFrames, this`nextIndex, this`live, this`reachable
      ensures fresh(words) && Booting() && totalFrames == 0 && live == {} && reachable <= frameCount
      ensures forall i :: 0 <= i < |Taken()| ==> Taken()[i]
      ensures |Taken()| == wordCount * BITS_PER_WORD
      ensures nextIndex == 0 && reachable == if frameCount < IDENTITY_MAPPED_LIMIT / SIZE then frameCount else IDENTITY_MAPPED_LIMIT / SIZE
    {
      hide Bits, CountFree, Words, Pow2;
      words := new nat[wordCount](_ => Pow2(64) - 1);
      AllTaken(words[..]);
      totalFrames, freeFrames, nextIndex, live := 0, 0, 0, {};
      reachable := if IDENTITY_MAPPED_LIMIT / SIZE > frameCount then frameCount else IDENTITY_MAPPED_LIMIT / SIZE;
    }

    /** After boot a frame is free exactly when it is memory and touches nothing that is in
        use. The boot panics exactly when the bitmap fits nowhere or leaves no free frame. */
    method Initialize(m: Machine) returns (ok: bool, location: nat, bytes: nat)
      modifies this
      ensures forall j :: 0 <= j < |m.regions| && m.regions[j].available ==> m.regions[j].End() <= bytes * 8 * SIZE
      ensures bytes == 0 || exists j :: 0 <= j < |m.regions| && m.regions[j].available && m.regions[j].End() > (bytes - 8) * 8 * SIZE
      ensures forall j :: 0 <= j < |m.regions| && m.regions[j].available ==> m.regions[j].End() <= frameCount * SIZE
      ensures frameCount == 0 || exists j :: 0 <= j < |m.regions| && m.regions[j].available && m.regions[j].End() > (frameCount - 1) * SIZE
      ensures ok <==> HasPlace(m, bytes) && SomeFrame(m, Range(location, location + bytes))
      ensures ok ==> Valid() && live == {} && fresh(words) && freeFrames > 0
      ensures ok ==> forall i: nat :: (i < |Taken()| && !Taken()[i]) <==> MayBeHandedOut(m, Range(location, location + bytes), i)
      ensures HasPlace(m, bytes) ==> exists j: nat :: FirstPlace(m, bytes, j, location)
      ensures ok ==> nextIndex == 0 && reachable <= frameCount && reachable * SIZE <= IDENTITY_MAPPED_LIMIT
      ensures ok ==> reachable == frameCount || (reachable + 1) * SIZE > IDENTITY_MAPPED_LIMIT
      ensures ok ==> |Taken()| == bytes * 8 && totalFrames == CountFree(Unavailable(m, |Taken()|))
    {
      hide Bits, PlacedIn, FirstPlace, MayBeHandedOut;
      var highest := HighestAvailableAddress(m);
      frameCount := (highest + SIZE - 1) / SIZE;
      var wordCount := (frameCount + BITS_PER_WORD - 1) / BITS_PER_WORD;
      bytes := wordCount * 8;
      location := ChooseBitmapLocation(m, bytes);
      if bytes == 0 {
        NothingToPlace(m);
      }
      PlaceFound(m, bytes, location);
      if location == 0 { return false, location, bytes; }
      Blank(wordCount);
      Populate(m, Range(location, location + bytes));
      ok := freeFrames > 0;
      SomeFree(Taken());
    }

    // ----- Searching

    /** The lowest run of count free frames from `from` on, or NOT_FOUND if there is none. */
    method FindRun(from: nat, count: nat) returns (f: int)
      requires count > 0 && reachable <= |Taken()|
      ensures f >= 0 ==> LowestRun(Taken(), reachable, from, f, count)
      ensures f < 0 ==> f == NOT_FOUND && NoRun(Taken(), reachable, from, count)
    {
      hide Bits;
      var run, index := 0, from;
      while index < reachable
        invariant from <= index && (from <= reachable ==> index <= reachable)
        invariant from <= index - run && run < count
        invariant forall i :: index - run <= i < index ==> i < |Taken()| && !Taken()[i]
        invariant index - run == from || (index - run - 1 < |Taken()| && Taken()[index - run - 1])
        invariant forall g :: from <= g && g + count <= index ==> !FreeRun(Taken(), g, count)
      {
        var taken := IsTaken(index);
        if taken {
          forall g | from <= g && g + count <= index + 1
            ensures !FreeRun(Taken(), g, count)
          {
            assert g + count == index + 1 ==> g <= index < g + count && Taken()[index];
          }
          run := 0;
        } else {
          run := run + 1;
          if run == count {
            f := index + 1 - count;
            return;
          }
          assert index + 1 - run == from || Taken()[index - run];
        }
        index := index + 1;
      }
      f := NOT_FOUND;
    }

    // ----- Allocate and Free

    /** Next fit: the lowest run at or after nextIndex, else the lowest run of all. The
        result is zero exactly when no run of count free frames lies below the limit. */
    method Allocate(count: nat) returns (address: nat)
      requires Valid()
      modifies this`freeFrames, this`nextIndex, this`live, words
      ensures Valid()
      ensures address != 0 <==> count > 0 && !NoRun(old(Taken()), reachable, 0, count)
      ensures address == 0 ==> Taken() == old(Taken()) && live == old(live) && freeFrames == old(freeFrames) && nextIndex == old(nextIndex)
      ensures address != 0 ==> address % SIZE == 0 && address / SIZE + count <= frameCount
      ensures address != 0 ==> live == old(live) + Frames(address / SIZE, count) && old(live) !! Frames(address / SIZE, count)
      ensures address != 0 ==> HandedOut(address / SIZE, count, old(Taken()), old(freeFrames))
      ensures address != 0 ==> nextIndex == if address / SIZE + count < reachable then address / SIZE + count else 0
      ensures address != 0 && !NoRun(old(Taken()), reachable, old(nextIndex), count) ==> LowestRun(old(Taken()), reachable, old(nextIndex), address / SIZE, count)
      ensures address != 0 && NoRun(old(Taken()), reachable, old(nextIndex), count) ==> LowestRun(old(Taken()), reachable, 0, address / SIZE, count)
    {
      hide Bits, LowestRun, NoRun, Frames, Filled, FreeRun;
      if count == 0 { return 0; }
      var first := Choose(count);
      if first == NOT_FOUND { return 0; }
      HandOut(first, count);
      address := first * SIZE;
    }

    /** The two searches of next fit. */
    method Choose(count: nat) returns (first: int)
      requires Valid() && count > 0
      ensures first < 0 <==> NoRun(Taken(), reachable, 0, count)
      ensures first < 0 ==> first == NOT_FOUND
      ensures first >= 0 ==> RunBelow(Taken(), reachable, first, count) && first > 0
      ensures first >= 0 && !NoRun(Taken(), reachable, nextIndex, count) ==> LowestRun(Taken(), reachable, nextIndex, first, count)
      ensures first >= 0 && NoRun(Taken(), reachable, nextIndex, count) ==> LowestRun(Taken(), reachable, 0, first, count)
    {
      hide Bits;
      first := FindRun(nextIndex, count);
      if first == NOT_FOUND && nextIndex != 0 {
        first := FindRun(0, count);
      }
      assert first >= 0 ==> RunBelow(Taken(), reachable, first, count);
      if first >= 0 { RunIsNotFirst(Taken(), reachable, first, count); }
    }

    method HandOut(first: nat, count: nat)
      requires Valid() && RunBelow(Taken(), reachable, first, count) && first > 0
      modifies this`freeFrames, this`nextIndex, this`live, words
      ensures Valid() && HandedOut(first, count, old(Taken()), old(freeFrames))
      ensures live == old(live) + Frames(first, count) && old(live) !! Frames(first, count)
      ensures nextIndex == if first + count < reachable then first + count else 0
    {
      hide Bits, CountFree, Filled, Frames;
      RunFrames(Taken(), reachable, first, count, live);
      TakenInOrder(Taken(), live, frameCount, reachable, first, count);
      nextIndex := if first + count < reachable then first + count else 0;
      live := live + Frames(first, count);
      TakeRun(first, count);
    }

    /** Exactly the frames first up to first + count were free and now are taken. */
    ghost predicate HandedOut(first: nat, count: nat, before: seq<bool>, wasFree: nat)
      reads this`words, this`freeFrames, words
    {
      && FreeRun(before, first, count)
      && Taken() == Filled(before, first, first + count, true)
      && freeFrames == wasFree - count
    }

    method TakeRun(first: nat, count: nat)
      requires Counted() && FreeRun(Taken(), first, count)
      modifies this`freeFrames, words
      ensures Counted() && Taken() == Filled(old(Taken()), first, first + count, true)
      ensures freeFrames == old(freeFrames) - count
    {
      hide Bits;
      ghost var before := Taken();
      assert Filled(before, first, first, true) == before;
      for index := first to first + count
        invariant Taken() == Filled(before, first, index, true) && freeFrames == old(freeFrames)
        invariant Whole() && CountFree(Taken()) == freeFrames - (index - first)
      {
        CountFreeUpdate(Taken(), index, true);
        FilledNext(before, first, index, true);
        Take(index);
      }
      freeFrames := freeFrames - count;
    }

    /** Only frames that are live may be given back. */
    method Free(address: nat, count: nat)
      requires Valid() && (address != 0 ==> address % SIZE == 0 && Frames(address / SIZE, count) <= live)
      modifies this`freeFrames, this`live, words
      ensures Valid()
      ensures address == 0 ==> Taken() == old(Taken()) && live == old(live) && freeFrames == old(freeFrames)
      ensures address != 0 ==> Taken() == Filled(old(Taken()), address / SIZE, address / SIZE + count, false)
      ensures address != 0 ==> live == old(live) - Frames(address / SIZE, count) && freeFrames == old(freeFrames) + count
    {
      hide Bits;
      if address == 0 || count == 0 {
        assert Filled(Taken(), address / SIZE, address / SIZE, false) == Taken();
        return;
      }
      GiveBack(address / SIZE, count);
    }

    method GiveBack(first: nat, count: nat)
      requires Valid() && Frames(first, count) <= live && count > 0
      modifies this`freeFrames, this`live, words
      ensures Valid()
      ensures Taken() == Filled(old(Taken()), first, first + count, false)
      ensures live == old(live) - Frames(first, count) && freeFrames == old(freeFrames) + count
    {
      hide Bits;
      LiveMinus(live, first, count, frameCount);
      live := live - Frames(first, count);
      ReleaseRun(first, count);
    }

    method ReleaseRun(first: nat, count: nat)
      requires Counted() && first + count <= |Taken()| && forall i :: first <= i < first + count ==> Taken()[i]
      modifies this`freeFrames, words
      ensures Counted() && Taken() == Filled(old(Taken()), first, first + count, false)
      ensures freeFrames == old(freeFrames) + count
    {
      hide Bits;
      ghost var before := Taken();
      assert Filled(before, first, first, false) == before;
      for index := first to first + count
        invariant Taken() == Filled(before, first, index, false)
        invariant Counted() && freeFrames == old(freeFrames) + (index - first)
      {
        CountFreeUpdate(Taken(), index, false);
        FilledNext(before, first, index, false);
        Release(index);
        freeFrames := freeFrames + 1;
      }
    }

    /** Frames past the limit stay managed but are not handed out. */
    method SetReachableLimit(limit: nat)
      requires Valid()
      modifies this`reachable
      ensures Valid()
      ensures reachable == if limit / SIZE < frameCount then limit / SIZE else frameCount
    {
      hide Bits;
      reachable := if limit / SIZE > frameCount then frameCount else limit / SIZE;
    }
  }

  lemma {:induction false} RunIsNotFirst(bits: seq<bool>, limit: nat, first: nat, count: nat)
    requires RunBelow(bits, limit, first, count) && count > 0 && |bits| > 0 && bits[0]
    ensures first > 0
  {
    assert first < first + count ==> !bits[first];
  }

  /** What the bitmap says of the frames in use and of those past the end. */
  ghost predicate InOrder(bits: seq<bool>, live: set<nat>, frameCount: nat) {
    && frameCount <= |bits|
    && (forall i :: frameCount <= i < |bits| ==> bits[i])
    && (frameCount > 0 ==> bits[0])
    && (forall i :: i in live ==> 0 < i < frameCount && bits[i])
  }

  lemma {:induction false} TakenInOrder(bits: seq<bool>, live: set<nat>, frameCount: nat, limit: nat, first: nat, count: nat)
    requires InOrder(bits, live, frameCount) && limit <= frameCount && 0 < first && RunBelow(bits, limit, first, count)
    ensures InOrder(Filled(bits, first, first + count, true), live + Frames(first, count), frameCount)
  {
  }

  /** Free frames are in nobody's hands, so a new run is disjoint from every live one. */
  lemma {:induction false} RunFrames(bits: seq<bool>, limit: nat, first: nat, count: nat, live: set<nat>)
    requires RunBelow(bits, limit, first, count) && limit <= |bits|
    requires forall i :: i in live ==> 0 < i < |bits| && bits[i]
    ensures live !! Frames(first, count) && |live + Frames(first, count)| == |live| + count
  {
    forall i | i in live
      ensures i !in Frames(first, count)
    {
    }
  }

  lemma {:induction false} LiveMinus(live: set<nat>, first: nat, count: nat, limit: nat)
    requires Frames(first, count) <= live && forall i :: i in live ==> 0 < i < limit
    ensures |live - Frames(first, count)| == |live| - count
    ensures forall i :: first <= i < first + count ==> i in live && i < limit
    ensures count > 0 ==> 0 < first && first + count <= limit
  {
    assert live == (live - Frames(first, count)) + Frames(first, count);
    forall i | first <= i < first + count
      ensures i in live
    {
      assert i in Frames(first, count);
    }
    if count > 0 { assert first in Frames(first, count) && first + count - 1 in Frames(first, count); }
  }
}
