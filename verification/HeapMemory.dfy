/** The bytes of the heap region: headers written in band, and the free lists that
    run through them. Any 16 bytes read as some header, so nothing in the memory
    itself tells a header from payload; Represents is what ties the two together. */
module HeapMemory {
  import opened Powers
  import opened Tiling

  type byte = x: int | 0 <= x < 256

  const HEADER_SIZE: nat := 16
  const BLOCK_MAGIC: nat := 0x484b_424c
  const ORDER_COUNT: nat := MAX_ORDER - MIN_ORDER + 1

  // ----- Little-endian words

  function Bytes256(x: nat, n: nat): (s: seq<byte>)
    ensures |s| == n
  {
    if n == 0 then [] else [x % 256] + Bytes256(x / 256, n - 1)
  }

  function Word(s: seq<byte>): (x: nat) {
    if s == [] then 0 else s[0] + 256 * Word(s[1..])
  }

  function Pow256(n: nat): (r: nat) {
    if n == 0 then 1 else 256 * Pow256(n - 1)
  }

  lemma {:induction false} WordOfBytes(x: nat, n: nat)
    requires x < Pow256(n)
    ensures Word(Bytes256(x, n)) == x
  {
    if n > 0 {
      WordOfBytes(x / 256, n - 1);
      assert Bytes256(x, n)[1..] == Bytes256(x / 256, n - 1);
    }
  }

  // ----- Headers

  datatype Header = Header(magic: nat, order: nat, isFree: nat, padding: nat, next: nat)

  predicate Fits(h: Header) {
    && h.magic < Pow256(4) && h.order < Pow256(1) && h.isFree < Pow256(1)
    && h.padding < Pow256(2) && h.next < Pow256(8)
  }

  function Encode(h: Header): (s: seq<byte>)
    ensures |s| == HEADER_SIZE
  {
    Bytes256(h.magic, 4) + Bytes256(h.order, 1) + Bytes256(h.isFree, 1) + Bytes256(h.padding, 2) + Bytes256(h.next, 8)
  }

  function Decode(s: seq<byte>): (h: Header)
    requires |s| == HEADER_SIZE
  {
    Header(Word(s[..4]), Word(s[4..5]), Word(s[5..6]), Word(s[6..8]), Word(s[8..]))
  }

  lemma {:induction false} DecodeEncode(h: Header)
    requires Fits(h)
    ensures Decode(Encode(h)) == h
  {
    var s := Encode(h);
    assert s[..4] == Bytes256(h.magic, 4);
    assert s[4..5] == Bytes256(h.order, 1);
    assert s[5..6] == Bytes256(h.isFree, 1);
    assert s[6..8] == Bytes256(h.padding, 2);
    assert s[8..] == Bytes256(h.next, 8);
    WordOfBytes(h.magic, 4);
    WordOfBytes(h.order, 1);
    WordOfBytes(h.isFree, 1);
    WordOfBytes(h.padding, 2);
    WordOfBytes(h.next, 8);
  }

  /** Where each field lies: little-endian, the magic first and the link in the last eight bytes. */
  lemma {:induction false} HeaderLayout(h: Header)
    requires Fits(h)
    ensures var s := Encode(h);
      && s[0] + 0x100 * (s[1] as int) + 0x1_0000 * (s[2] as int) + 0x100_0000 * (s[3] as int) == h.magic
      && s[4] == h.order && s[5] == h.isFree && s[6] + 0x100 * (s[7] as int) == h.padding
      && Word(s[8..16]) == h.next
  {
    DecodeEncode(h);
    var s := Encode(h);
    FourBytes(s[..4]);
    TwoBytes(s[6..8]);
    OneByte(s[4..5]);
    OneByte(s[5..6]);
    assert s[8..16] == s[8..];
  }

  lemma {:induction false} OneByte(s: seq<byte>)
    requires |s| == 1
    ensures Word(s) == s[0]
  {
    assert Word(s[1..]) == 0;
  }

  lemma {:induction false} TwoBytes(s: seq<byte>)
    requires |s| == 2
    ensures Word(s) == s[0] + 0x100 * (s[1] as int)
  {
    OneByte(s[1..]);
  }

  lemma {:induction false} FourBytes(s: seq<byte>)
    requires |s| == 4
    ensures Word(s) == s[0] + 0x100 * (s[1] as int) + 0x1_0000 * (s[2] as int) + 0x100_0000 * (s[3] as int)
  {
    TwoBytes(s[2..]);
    assert s[1..][1..] == s[2..];
    assert Word(s) == s[0] + 256 * (s[1] + 256 * Word(s[2..]));
  }

  lemma {:induction false} WordBound(s: seq<byte>)
    ensures Word(s) < Pow256(|s|)
  {
    if s != [] { WordBound(s[1..]); }
  }

  function HeaderAt(m: seq<byte>, o: nat): (h: Header)
    requires o + HEADER_SIZE <= |m|
  {
    Decode(m[o..o + HEADER_SIZE])
  }

  function PutHeader(m: seq<byte>, o: nat, h: Header): (r: seq<byte>)
    requires o + HEADER_SIZE <= |m|
    ensures |r| == |m|
  {
    m[..o] + Encode(h) + m[o + HEADER_SIZE..]
  }

  lemma {:induction false} HeaderFits(m: seq<byte>, o: nat)
    requires o + HEADER_SIZE <= |m|
    ensures Fits(HeaderAt(m, o))
  {
    var s := m[o..o + HEADER_SIZE];
    WordBound(s[..4]);
    WordBound(s[4..5]);
    WordBound(s[5..6]);
    WordBound(s[6..8]);
    WordBound(s[8..]);
  }

  lemma {:induction false} HeaderHere(m: seq<byte>, o: nat, h: Header)
    requires o + HEADER_SIZE <= |m| && Fits(h)
    ensures HeaderAt(PutHeader(m, o, h), o) == h
  {
    assert PutHeader(m, o, h)[o..o + HEADER_SIZE] == Encode(h);
    DecodeEncode(h);
  }

  lemma {:induction false} HeaderElsewhere(m: seq<byte>, o: nat, h: Header, p: nat)
    requires o + HEADER_SIZE <= |m| && p + HEADER_SIZE <= |m|
    requires o + HEADER_SIZE <= p || p + HEADER_SIZE <= o
    ensures HeaderAt(PutHeader(m, o, h), p) == HeaderAt(m, p)
  {
    hide Encode, Decode;
    var r := PutHeader(m, o, h);
    if p + HEADER_SIZE <= o {
      assert r[p..p + HEADER_SIZE] == m[p..p + HEADER_SIZE];
    } else {
      assert forall j :: o + HEADER_SIZE <= j < |m| ==> r[j] == m[j];
      assert r[p..p + HEADER_SIZE] == m[p..p + HEADER_SIZE];
    }
  }

  // ----- What the memory has to say about the blocks

  ghost predicate HeaderMatches(m: seq<byte>, o: nat, b: Block) {
    && o + HEADER_SIZE <= |m|
    && HeaderAt(m, o).magic == BLOCK_MAGIC
    && HeaderAt(m, o).order == b.order
    && HeaderAt(m, o).isFree == (if b.free then 1 else 0)
    && (!b.free ==> HeaderAt(m, o).next == 0)
  }

  /** Every block but those in raw, which are being worked on, has a truthful header. */
  ghost predicate HeadersMatch(m: seq<byte>, bs: Blocks, raw: set<nat>) {
    forall o {:trigger HeaderMatches(m, o, bs[o])} :: o in bs && o !in raw ==> HeaderMatches(m, o, bs[o])
  }

  /** The address of the j-th list element, or the null that ends the list. */
  function Pointer(base: nat, l: seq<nat>, j: nat): (r: nat) {
    if j < |l| then base + l[j] else 0
  }

  ghost predicate NextIs(m: seq<byte>, o: nat, next: nat) {
    o + HEADER_SIZE <= |m| && HeaderAt(m, o).next == next
  }

  ghost predicate Linked(m: seq<byte>, base: nat, head: nat, l: seq<nat>) {
    && head == Pointer(base, l, 0)
    && forall j {:trigger l[j]} :: 0 <= j < |l| ==> NextIs(m, l[j], Pointer(base, l, j + 1))
  }

  ghost predicate Distinct(l: seq<nat>) {
    forall i, j :: 0 <= i < j < |l| ==> l[i] != l[j]
  }

  ghost predicate Lists(bs: Blocks, l: seq<nat>, k: nat) {
    Distinct(l) && forall o :: o in l <==> IsFreeBlock(bs, o, k)
  }

  ghost predicate ListAt(m: seq<byte>, base: nat, heads: seq<nat>, bs: Blocks, ls: seq<seq<nat>>, k: nat)
    requires |heads| == |ls| == ORDER_COUNT && MIN_ORDER <= k <= MAX_ORDER
  {
    Linked(m, base, heads[k - MIN_ORDER], ls[k - MIN_ORDER]) && Lists(bs, ls[k - MIN_ORDER], k)
  }

  ghost predicate ListsMatch(m: seq<byte>, base: nat, heads: seq<nat>, bs: Blocks, ls: seq<seq<nat>>) {
    && |heads| == |ls| == ORDER_COUNT
    && forall k {:trigger ListAt(m, base, heads, bs, ls, k)} :: MIN_ORDER <= k <= MAX_ORDER ==> ListAt(m, base, heads, bs, ls, k)
  }

  /** Block starts lie far enough apart for their headers not to touch. */
  ghost predicate Spaced(bs: Blocks) {
    && (forall o {:trigger o in bs} :: o in bs ==> o + HEADER_SIZE <= HEAP_SIZE)
    && (forall o, p {:trigger Clear(o, p)} :: o in bs && p in bs && o != p ==> Clear(o, p))
  }

  ghost predicate Clear(o: nat, p: nat) {
    o + HEADER_SIZE <= p || p + HEADER_SIZE <= o
  }

  lemma {:induction false} TiledSpaced(bs: Blocks)
    requires Tiled(bs)
    ensures Spaced(bs)
  {
    forall o | o in bs
      ensures Size(bs[o]) >= HEADER_SIZE && o + Size(bs[o]) <= HEAP_SIZE
    {
      Bounds(bs, o);
      Pow2Monotone(MIN_ORDER, bs[o].order);
      assert Pow2(5) == 32;
    }
    forall o, p | o in bs && p in bs && o != p
      ensures Clear(o, p)
    {
      assert o < p ==> Before(bs, o, p);
      assert p < o ==> Before(bs, p, o);
    }
  }

  ghost predicate Represents(m: seq<byte>, base: nat, heads: seq<nat>, bs: Blocks, ls: seq<seq<nat>>, raw: set<nat>) {
    && |m| == HEAP_SIZE && Spaced(bs)
    && base > 0 && base + HEAP_SIZE < Pow256(8)
    && HeadersMatch(m, bs, raw)
    && ListsMatch(m, base, heads, bs, ls)
    && forall o :: o in raw && o in bs ==> !bs[o].free
  }

  // ----- The ways the allocator changes memory

  ghost predicate SameHeader(m: seq<byte>, r: seq<byte>, p: nat)
    requires |r| == |m|
  {
    p + HEADER_SIZE <= |m| ==> HeaderAt(r, p) == HeaderAt(m, p)
  }

  /** From m to r only the header of the block at o may have changed. */
  ghost predicate OnlyHeader(m: seq<byte>, r: seq<byte>, bs: Blocks, o: nat) {
    && |r| == |m|
    && forall p {:trigger SameHeader(m, r, p)} :: p in bs && p != o ==> SameHeader(m, r, p)
  }

  lemma {:induction false} PutOnlyHeader(m: seq<byte>, bs: Blocks, o: nat, h: Header)
    requires |m| == HEAP_SIZE && Spaced(bs) && o in bs
    ensures OnlyHeader(m, PutHeader(m, o, h), bs, o)
  {
    forall p | p in bs && p != o
      ensures SameHeader(m, PutHeader(m, o, h), p)
    {
      assert Clear(o, p);
      HeaderElsewhere(m, o, h, p);
    }
  }

  /** Rewriting the header of a block in use disturbs no free list. */
  lemma {:induction false} RewriteKeepsLists(m: seq<byte>, r: seq<byte>, base: nat, heads: seq<nat>, bs: Blocks, ls: seq<seq<nat>>, o: nat)
    requires ListsMatch(m, base, heads, bs, ls) && OnlyHeader(m, r, bs, o)
    requires o in bs && !bs[o].free
    ensures ListsMatch(r, base, heads, bs, ls)
  {
    forall k | MIN_ORDER <= k <= MAX_ORDER
      ensures ListAt(r, base, heads, bs, ls, k)
    {
      assert ListAt(m, base, heads, bs, ls, k);
      RewriteKeepsLinked(m, r, base, heads[k - MIN_ORDER], bs, ls[k - MIN_ORDER], k, o);
    }
  }

  lemma {:induction false} RewriteKeepsLinked(m: seq<byte>, r: seq<byte>, base: nat, head: nat, bs: Blocks, l: seq<nat>, k: nat, o: nat)
    requires Linked(m, base, head, l) && Lists(bs, l, k) && OnlyHeader(m, r, bs, o)
    requires o !in l
    ensures Linked(r, base, head, l)
  {
    forall j | 0 <= j < |l|
      ensures NextIs(r, l[j], Pointer(base, l, j + 1))
    {
      assert l[j] in l && IsFreeBlock(bs, l[j], k);
      assert SameHeader(m, r, l[j]);
    }
  }

  lemma {:induction false} RewriteKeepsHeaders(m: seq<byte>, r: seq<byte>, bs: Blocks, raw: set<nat>, o: nat)
    requires HeadersMatch(m, bs, raw + {o}) && OnlyHeader(m, r, bs, o)
    requires o in bs && HeaderMatches(r, o, bs[o])
    ensures HeadersMatch(r, bs, raw)
  {
    forall p | p in bs && p !in raw
      ensures HeaderMatches(r, p, bs[p])
    {
      if p != o {
        assert HeaderMatches(m, p, bs[p]) && SameHeader(m, r, p);
      }
    }
  }

  function FreeHeader(m: seq<byte>, o: nat, k: nat, next: nat): (h: Header)
    requires o + HEADER_SIZE <= |m|
  {
    Header(BLOCK_MAGIC, k, 1, HeaderAt(m, o).padding, next)
  }

  function UsedHeader(m: seq<byte>, o: nat, k: nat): (h: Header)
    requires o + HEADER_SIZE <= |m|
  {
    Header(BLOCK_MAGIC, k, 0, HeaderAt(m, o).padding, 0)
  }

  lemma {:induction false} MadeHeadersFit(m: seq<byte>, o: nat, k: nat, next: nat)
    requires o + HEADER_SIZE <= |m| && k <= MAX_ORDER && next < Pow256(8)
    ensures Fits(FreeHeader(m, o, k, next)) && Fits(UsedHeader(m, o, k))
  {
    HeaderFits(m, o);
    assert Pow256(4) == 256 * (256 * (256 * 256)) && Pow256(1) == 256;
  }

  /** PushFree: the block in hand becomes the new head of its order's list. */
  lemma {:induction false} PushRepresents(m: seq<byte>, base: nat, heads: seq<nat>, bs: Blocks, ls: seq<seq<nat>>, raw: set<nat>, o: nat, k: nat)
    requires Represents(m, base, heads, bs, ls, raw + {o})
    requires o in bs && bs[o] == Block(k, false) && MIN_ORDER <= k <= MAX_ORDER
    ensures var i := k - MIN_ORDER;
      Represents(PutHeader(m, o, FreeHeader(m, o, k, heads[i])), base, heads[i := base + o],
                 bs[o := Block(k, true)], ls[i := [o] + ls[i]], raw - {o})
  {
    var i := k - MIN_ORDER;
    HeadBelow(base, heads, bs, ls, k, m);
    FreeHeaderWritten(m, bs, o, k, heads[i]);
    PushRewritten(m, PutHeader(m, o, FreeHeader(m, o, k, heads[i])), base, heads, bs, ls, raw, o, k);
  }

  lemma {:induction false} FreeHeaderWritten(m: seq<byte>, bs: Blocks, o: nat, k: nat, next: nat)
    requires |m| == HEAP_SIZE && Spaced(bs) && o in bs && k <= MAX_ORDER && next < Pow256(8)
    ensures var r := PutHeader(m, o, FreeHeader(m, o, k, next));
      HeaderMatches(r, o, Block(k, true)) && NextIs(r, o, next) && OnlyHeader(m, r, bs, o)
  {
    var h := FreeHeader(m, o, k, next);
    MadeHeadersFit(m, o, k, next);
    HeaderHere(m, o, h);
    PutOnlyHeader(m, bs, o, h);
  }

  lemma {:induction false} PushRewritten(m: seq<byte>, r: seq<byte>, base: nat, heads: seq<nat>, bs: Blocks, ls: seq<seq<nat>>, raw: set<nat>, o: nat, k: nat)
    requires Represents(m, base, heads, bs, ls, raw + {o}) && OnlyHeader(m, r, bs, o)
    requires o in bs && bs[o] == Block(k, false) && MIN_ORDER <= k <= MAX_ORDER
    requires HeaderMatches(r, o, Block(k, true)) && NextIs(r, o, heads[k - MIN_ORDER])
    ensures var i := k - MIN_ORDER;
      Represents(r, base, heads[i := base + o], bs[o := Block(k, true)], ls[i := [o] + ls[i]], raw - {o})
  {
    PushHeaders(m, r, bs, raw, o, k);
    PushLists(m, r, base, heads, bs, ls, o, k);
    RetypeSpaced(bs, o, Block(k, true));
  }

  lemma {:induction false} PushHeaders(m: seq<byte>, r: seq<byte>, bs: Blocks, raw: set<nat>, o: nat, k: nat)
    requires HeadersMatch(m, bs, raw + {o}) && OnlyHeader(m, r, bs, o) && o in bs
    requires HeaderMatches(r, o, Block(k, true))
    ensures HeadersMatch(r, bs[o := Block(k, true)], raw - {o})
  {
    var cs: Blocks := bs[o := Block(k, true)];
    forall p | p in cs && p !in raw - {o}
      ensures HeaderMatches(r, p, cs[p])
    {
      if p != o {
        assert HeaderMatches(m, p, bs[p]) && SameHeader(m, r, p);
      }
    }
  }

  lemma {:induction false} HeadBelow(base: nat, heads: seq<nat>, bs: Blocks, ls: seq<seq<nat>>, k: nat, m: seq<byte>)
    requires base + HEAP_SIZE < Pow256(8) && Spaced(bs) && ListsMatch(m, base, heads, bs, ls)
    requires MIN_ORDER <= k <= MAX_ORDER
    ensures heads[k - MIN_ORDER] < Pow256(8)
  {
    assert ListAt(m, base, heads, bs, ls, k);
    var l := ls[k - MIN_ORDER];
    if l != [] { assert l[0] in l && IsFreeBlock(bs, l[0], k); }
  }

  lemma {:induction false} PushLists(m: seq<byte>, r: seq<byte>, base: nat, heads: seq<nat>, bs: Blocks, ls: seq<seq<nat>>, o: nat, k: nat)
    requires ListsMatch(m, base, heads, bs, ls) && OnlyHeader(m, r, bs, o)
    requires o in bs && bs[o] == Block(k, false) && MIN_ORDER <= k <= MAX_ORDER
    requires NextIs(r, o, heads[k - MIN_ORDER])
    ensures var i := k - MIN_ORDER;
      ListsMatch(r, base, heads[i := base + o], bs[o := Block(k, true)], ls[i := [o] + ls[i]])
  {
    hide Linked, Lists, NextIs, HeaderMatches;
    var i := k - MIN_ORDER;
    var cs: Blocks := bs[o := Block(k, true)];
    var heads', ls' := heads[i := base + o], ls[i := [o] + ls[i]];
    RewriteKeepsLists(m, r, base, heads, bs, ls, o);
    forall q | MIN_ORDER <= q <= MAX_ORDER
      ensures ListAt(r, base, heads', cs, ls', q)
    {
      assert ListAt(r, base, heads, bs, ls, q);
      if q == k {
        ConsLinked(r, base, heads[i], ls[i], o);
        ConsLists(bs, ls[i], o, k);
      } else {
        OtherLists(bs, cs, ls[q - MIN_ORDER], o, q);
      }
    }
  }

  lemma {:induction false} ConsLinked(m: seq<byte>, base: nat, head: nat, l: seq<nat>, o: nat)
    requires Linked(m, base, head, l) && NextIs(m, o, head)
    ensures Linked(m, base, base + o, [o] + l)
  {
    var l' := [o] + l;
    forall j | 0 <= j < |l'|
      ensures NextIs(m, l'[j], Pointer(base, l', j + 1))
    {
      if j > 0 { assert l'[j] == l[j - 1] && Pointer(base, l', j + 1) == Pointer(base, l, j); }
    }
  }

  lemma {:induction false} ConsLists(bs: Blocks, l: seq<nat>, o: nat, k: nat)
    requires Lists(bs, l, k) && o in bs && bs[o] == Block(k, false)
    ensures Lists(bs[o := Block(k, true)], [o] + l, k)
  {
    var cs: Blocks := bs[o := Block(k, true)];
    assert !IsFreeBlock(bs, o, k);
    forall p ensures p in [o] + l <==> IsFreeBlock(cs, p, k) {
      assert p in l <==> IsFreeBlock(bs, p, k);
    }
  }

  /** Blocks of one order do not show up in the list of another. */
  lemma {:induction false} OtherLists(bs: Blocks, cs: Blocks, l: seq<nat>, o: nat, q: nat)
    requires Lists(bs, l, q) && o in bs && o in cs && cs == bs[o := cs[o]]
    requires !IsFreeBlock(bs, o, q) && !IsFreeBlock(cs, o, q)
    ensures Lists(cs, l, q)
  {
    forall p ensures p in l <==> IsFreeBlock(cs, p, q) {
      assert p in l <==> IsFreeBlock(bs, p, q);
    }
  }

  /** Taking the first block off a list touches no memory at all. */
  lemma {:induction false} PopRepresents(m: seq<byte>, base: nat, heads: seq<nat>, bs: Blocks, ls: seq<seq<nat>>, k: nat)
    requires Represents(m, base, heads, bs, ls, {}) && MIN_ORDER <= k <= MAX_ORDER
    requires heads[k - MIN_ORDER] != 0
    ensures |ls[k - MIN_ORDER]| > 0 && heads[k - MIN_ORDER] == base + ls[k - MIN_ORDER][0]
    ensures var o := ls[k - MIN_ORDER][0];
      IsFreeBlock(bs, o, k) && o + HEADER_SIZE <= HEAP_SIZE &&
      Represents(m, base, heads[k - MIN_ORDER := HeaderAt(m, o).next], bs[o := Block(k, false)],
                 ls[k - MIN_ORDER := ls[k - MIN_ORDER][1..]], {o})
  {
    var l := ls[k - MIN_ORDER];
    assert ListAt(m, base, heads, bs, ls, k);
    assert l[0] in l && IsFreeBlock(bs, l[0], k);
    DropLinked(m, base, heads[k - MIN_ORDER], l);
    PopVia(m, base, heads, HeaderAt(m, l[0]).next, bs, ls, l[0], k);
  }

  lemma {:induction false} PopVia(m: seq<byte>, base: nat, heads: seq<nat>, head: nat, bs: Blocks, ls: seq<seq<nat>>, o: nat, k: nat)
    requires Represents(m, base, heads, bs, ls, {}) && MIN_ORDER <= k <= MAX_ORDER
    requires |ls[k - MIN_ORDER]| > 0 && o == ls[k - MIN_ORDER][0] && o in bs
    requires Linked(m, base, head, ls[k - MIN_ORDER][1..])
    ensures Represents(m, base, heads[k - MIN_ORDER := head], bs[o := Block(k, false)],
                       ls[k - MIN_ORDER := ls[k - MIN_ORDER][1..]], {o})
  {
    var l := ls[k - MIN_ORDER];
    assert ListAt(m, base, heads, bs, ls, k);
    RetypeHeaders(m, bs, o, {}, k);
    assert l[..0] + l[1..] == l[1..];
    UnlistRepresents(m, base, heads, head, bs, ls, 0, k);
    assert {} + {o} == {o};
    RetypeSpaced(bs, o, Block(k, false));
  }

  lemma {:induction false} RetypeSpaced(bs: Blocks, o: nat, b: Block)
    requires Spaced(bs) && o in bs
    ensures Spaced(bs[o := b])
  {
    assert bs[o := b].Keys == bs.Keys;
  }

  lemma {:induction false} RetypeHeaders(m: seq<byte>, bs: Blocks, o: nat, raw: set<nat>, k: nat)
    requires HeadersMatch(m, bs, raw) && o in bs
    ensures HeadersMatch(m, bs[o := Block(k, false)], raw + {o})
  {
    var cs: Blocks := bs[o := Block(k, false)];
    forall p | p in cs && p !in raw + {o}
      ensures HeaderMatches(m, p, cs[p])
    {
      assert HeaderMatches(m, p, bs[p]);
    }
  }

  /** With the j-th element of one list unlinked, the others still match. */
  lemma {:induction false} UnlistRepresents(m: seq<byte>, base: nat, heads: seq<nat>, head: nat, bs: Blocks, ls: seq<seq<nat>>, j: nat, k: nat)
    requires ListsMatch(m, base, heads, bs, ls) || ListsMatchBut(m, base, heads, bs, ls, k)
    requires MIN_ORDER <= k <= MAX_ORDER && |heads| == |ls| == ORDER_COUNT
    requires j < |ls[k - MIN_ORDER]| && Lists(bs, ls[k - MIN_ORDER], k)
    requires var l := ls[k - MIN_ORDER]; Linked(m, base, head, l[..j] + l[j + 1..])
    ensures var l := ls[k - MIN_ORDER];
      l[j] in bs && ListsMatch(m, base, heads[k - MIN_ORDER := head], bs[l[j] := Block(k, false)], ls[k - MIN_ORDER := l[..j] + l[j + 1..]])
  {
    var l := ls[k - MIN_ORDER];
    DropLists(bs, l, j, k);
    var cs: Blocks := bs[l[j] := Block(k, false)];
    var heads', ls' := heads[k - MIN_ORDER := head], ls[k - MIN_ORDER := l[..j] + l[j + 1..]];
    assert l[j] in l && IsFreeBlock(bs, l[j], k);
    forall q | MIN_ORDER <= q <= MAX_ORDER
      ensures ListAt(m, base, heads', cs, ls', q)
    {
      if q != k {
        assert ListAt(m, base, heads, bs, ls, q);
        OtherLists(bs, cs, ls[q - MIN_ORDER], l[j], q);
      }
    }
  }

  ghost predicate ListsMatchBut(m: seq<byte>, base: nat, heads: seq<nat>, bs: Blocks, ls: seq<seq<nat>>, k: nat) {
    && |heads| == |ls| == ORDER_COUNT
    && forall q {:trigger ListAt(m, base, heads, bs, ls, q)} :: MIN_ORDER <= q <= MAX_ORDER && q != k ==> ListAt(m, base, heads, bs, ls, q)
  }

  lemma {:induction false} DropLinked(m: seq<byte>, base: nat, head: nat, l: seq<nat>)
    requires Linked(m, base, head, l) && l != []
    ensures l[0] + HEADER_SIZE <= |m| && Linked(m, base, HeaderAt(m, l[0]).next, l[1..])
  {
    var l' := l[1..];
    assert NextIs(m, l[0], Pointer(base, l, 1));
    forall j | 0 <= j < |l'|
      ensures NextIs(m, l'[j], Pointer(base, l', j + 1))
    {
      assert l'[j] == l[j + 1] && Pointer(base, l', j + 1) == Pointer(base, l, j + 2);
    }
  }

  lemma {:induction false} DropLists(bs: Blocks, l: seq<nat>, j: nat, k: nat)
    requires Lists(bs, l, k) && j < |l|
    ensures l[j] in bs && Lists(bs[l[j] := Block(k, false)], l[..j] + l[j + 1..], k)
  {
    var o := l[j];
    assert o in l && IsFreeBlock(bs, o, k);
    var cs: Blocks := bs[o := Block(k, false)];
    var l' := l[..j] + l[j + 1..];
    forall p ensures p in l' <==> IsFreeBlock(cs, p, k) {
      assert p in l <==> IsFreeBlock(bs, p, k);
      assert p in l <==> p in l' || p == o;
      assert p in l' ==> p != o;
    }
  }

  /** The last write of Allocate: the block in hand gets its header. */
  lemma {:induction false} ClaimRepresents(m: seq<byte>, base: nat, heads: seq<nat>, bs: Blocks, ls: seq<seq<nat>>, o: nat, k: nat)
    requires Represents(m, base, heads, bs, ls, {o}) && o in bs && bs[o] == Block(k, false) && k <= MAX_ORDER
    ensures Represents(PutHeader(m, o, UsedHeader(m, o, k)), base, heads, bs, ls, {})
  {
    var h := UsedHeader(m, o, k);
    MadeHeadersFit(m, o, k, 0);
    HeaderHere(m, o, h);
    PutOnlyHeader(m, bs, o, h);
    assert {} + {o} == {o};
    RewriteKeepsHeaders(m, PutHeader(m, o, h), bs, {}, o);
    RewriteKeepsLists(m, PutHeader(m, o, h), base, heads, bs, ls, o);
  }

  /** Carving the upper half out of the block in hand, before PushFree writes its header. */
  lemma {:induction false} SplitRepresents(m: seq<byte>, base: nat, heads: seq<nat>, bs: Blocks, ls: seq<seq<nat>>, o: nat, u: nat, cs: Blocks)
    requires Represents(m, base, heads, bs, ls, {o}) && Tiled(bs) && o in bs && !bs[o].free && bs[o].order > MIN_ORDER
    requires u == o + Pow2(bs[o].order - 1) && cs == Split(bs, o)[u := Block(bs[o].order - 1, false)]
    ensures Represents(m, base, heads, cs, ls, {o} + {u})
  {
    SplitSpaced(bs, o, u, cs);
    UpperHalfIsNew(bs, o);
    SplitElsewhere(bs, o, u, cs);
    forall p | p in cs && p !in {o} + {u}
      ensures HeaderMatches(m, p, cs[p])
    {
      assert HeaderMatches(m, p, bs[p]);
    }
    SameFreeLists(m, base, heads, bs, cs, ls);
  }

  lemma {:induction false} SplitSpaced(bs: Blocks, o: nat, u: nat, cs: Blocks)
    requires Tiled(bs) && o in bs && bs[o].order > MIN_ORDER
    requires u == o + Pow2(bs[o].order - 1) && cs == Split(bs, o)[u := Block(bs[o].order - 1, false)]
    ensures Spaced(cs)
  {
    SplitTiled(bs, o);
    TiledSpaced(Split(bs, o));
    RetypeSpaced(Split(bs, o), u, Block(bs[o].order - 1, false));
  }

  lemma {:induction false} SplitElsewhere(bs: Blocks, o: nat, u: nat, cs: Blocks)
    requires o in bs && bs[o].order > MIN_ORDER
    requires u == o + Pow2(bs[o].order - 1) && cs == Split(bs, o)[u := Block(bs[o].order - 1, false)]
    ensures o in cs && u in cs && !cs[o].free && !cs[u].free
    ensures forall p :: p != o && p != u ==> (p in cs <==> p in bs) && (p in bs ==> cs[p] == bs[p])
  {
  }

  ghost predicate SameFree(bs: Blocks, cs: Blocks) {
    forall p, q :: IsFreeBlock(cs, p, q) <==> IsFreeBlock(bs, p, q)
  }

  lemma {:induction false} SameFreeLists(m: seq<byte>, base: nat, heads: seq<nat>, bs: Blocks, cs: Blocks, ls: seq<seq<nat>>)
    requires ListsMatch(m, base, heads, bs, ls) && SameFree(bs, cs)
    ensures ListsMatch(m, base, heads, cs, ls)
  {
    forall q | MIN_ORDER <= q <= MAX_ORDER
      ensures ListAt(m, base, heads, cs, ls, q)
    {
      assert ListAt(m, base, heads, bs, ls, q);
    }
  }

  lemma {:induction false} UpperHalfIsNew(bs: Blocks, o: nat)
    requires Tiled(bs) && o in bs && bs[o].order > MIN_ORDER
    ensures o + Pow2(bs[o].order - 1) !in bs
  {
    var u: nat := o + Pow2(bs[o].order - 1);
    assert u in bs ==> Before(bs, o, u);
  }

  // ----- RemoveFree

  /** RemoveFree as it leaves the memory: the predecessor's link skips the block,
      and the block itself is marked in use. */
  ghost predicate Unlinked(m: seq<byte>, r: seq<byte>, base: nat, bs: Blocks, l: seq<nat>, j: nat, k: nat)
    requires j < |l|
  {
    && |r| == |m|
    && (forall p {:trigger SameHeader(m, r, p)} :: p in bs && p != l[j] && (j > 0 ==> p != l[j - 1]) ==> SameHeader(m, r, p))
    && HeaderMatches(r, l[j], Block(k, false))
    && (j > 0 ==> HeaderMatches(r, l[j - 1], Block(k, true)) && NextIs(r, l[j - 1], Pointer(base, l, j + 1)))
  }

  /** The two header writes of RemoveFree; prev is -1 when the list head was the link. */
  function UnlinkWrites(m: seq<byte>, prev: int, o: nat): (r: seq<byte>)
    requires o + HEADER_SIZE <= |m| && prev + HEADER_SIZE <= |m|
    ensures |r| == |m|
  {
    var linked := if prev < 0 then m else PutHeader(m, prev, HeaderAt(m, prev).(next := HeaderAt(m, o).next));
    PutHeader(linked, o, HeaderAt(linked, o).(next := 0, isFree := 0))
  }

  lemma {:induction false} UnlinkFirst(m: seq<byte>, base: nat, bs: Blocks, l: seq<nat>, k: nat)
    requires |m| == HEAP_SIZE && Spaced(bs) && Lists(bs, l, k) && l != [] && HeaderMatches(m, l[0], Block(k, true))
    ensures Unlinked(m, UnlinkWrites(m, -1, l[0]), base, bs, l, 0, k)
  {
    var h := HeaderAt(m, l[0]).(next := 0, isFree := 0);
    assert l[0] in l && IsFreeBlock(bs, l[0], k);
    HeaderFits(m, l[0]);
    HeaderHere(m, l[0], h);
    PutOnlyHeader(m, bs, l[0], h);
  }

  lemma {:induction false} UnlinkLater(m: seq<byte>, base: nat, bs: Blocks, l: seq<nat>, j: nat, k: nat)
    requires |m| == HEAP_SIZE && Spaced(bs) && Lists(bs, l, k) && 0 < j < |l|
    requires HeaderMatches(m, l[j], Block(k, true)) && HeaderMatches(m, l[j - 1], Block(k, true))
    requires NextIs(m, l[j], Pointer(base, l, j + 1))
    ensures Unlinked(m, UnlinkWrites(m, l[j - 1], l[j]), base, bs, l, j, k)
  {
    hide PutHeader, HeaderAt, Pointer, Lists;
    var p, o := l[j - 1], l[j];
    TwoOnList(bs, l, j, k);
    var hp := HeaderAt(m, p).(next := HeaderAt(m, o).next);
    var m' := PutHeader(m, p, hp);
    HeaderFits(m, p);
    HeaderFits(m, o);
    HeaderHere(m, p, hp);
    PutOnlyHeader(m, bs, p, hp);
    assert SameHeader(m, m', o);
    var ho := HeaderAt(m', o).(next := 0, isFree := 0);
    HeaderFits(m', o);
    HeaderHere(m', o, ho);
    PutOnlyHeader(m', bs, o, ho);
    var r := PutHeader(m', o, ho);
    assert r == UnlinkWrites(m, p, o);
    forall q | q in bs && q != o && q != p
      ensures SameHeader(m, r, q)
    {
      assert SameHeader(m, m', q) && SameHeader(m', r, q);
    }
    assert SameHeader(m', r, p);
  }

  lemma {:induction false} TwoOnList(bs: Blocks, l: seq<nat>, j: nat, k: nat)
    requires Lists(bs, l, k) && 0 < j < |l|
    ensures l[j] in bs && l[j - 1] in bs && l[j] != l[j - 1]
  {
    assert l[j] in l && IsFreeBlock(bs, l[j], k);
    assert l[j - 1] in l && IsFreeBlock(bs, l[j - 1], k);
  }

  lemma {:induction false} RemoveRepresents(m: seq<byte>, r: seq<byte>, base: nat, heads: seq<nat>, head: nat, bs: Blocks, ls: seq<seq<nat>>, raw: set<nat>, j: nat, k: nat)
    requires Represents(m, base, heads, bs, ls, raw) && MIN_ORDER <= k <= MAX_ORDER && j < |ls[k - MIN_ORDER]|
    requires Unlinked(m, r, base, bs, ls[k - MIN_ORDER], j, k)
    requires head == (if j > 0 then heads[k - MIN_ORDER] else Pointer(base, ls[k - MIN_ORDER], 1))
    ensures var l := ls[k - MIN_ORDER];
      l[j] in bs &&
      Represents(r, base, heads[k - MIN_ORDER := head], bs[l[j] := Block(k, false)], ls[k - MIN_ORDER := l[..j] + l[j + 1..]], raw)
  {
    var l := ls[k - MIN_ORDER];
    assert ListAt(m, base, heads, bs, ls, k);
    assert l[j] in l && IsFreeBlock(bs, l[j], k);
    UnlinkedHeaders(m, r, base, bs, l, raw, j, k);
    UnlinkedLinked(m, r, base, heads[k - MIN_ORDER], head, bs, l, j, k);
    UnlinkedOthers(m, r, base, heads, bs, ls, j, k);
    UnlistRepresents(r, base, heads, head, bs, ls, j, k);
    RetypeSpaced(bs, l[j], Block(k, false));
  }

  lemma {:induction false} UnlinkedHeaders(m: seq<byte>, r: seq<byte>, base: nat, bs: Blocks, l: seq<nat>, raw: set<nat>, j: nat, k: nat)
    requires HeadersMatch(m, bs, raw) && Lists(bs, l, k) && j < |l| && Unlinked(m, r, base, bs, l, j, k)
    ensures l[j] in bs && HeadersMatch(r, bs[l[j] := Block(k, false)], raw)
  {
    assert l[j] in l && IsFreeBlock(bs, l[j], k);
    var cs: Blocks := bs[l[j] := Block(k, false)];
    forall p | p in cs && p !in raw
      ensures HeaderMatches(r, p, cs[p])
    {
      if j > 0 && p == l[j - 1] {
        assert p in l && IsFreeBlock(bs, p, k);
      } else if p != l[j] {
        assert HeaderMatches(m, p, bs[p]) && SameHeader(m, r, p);
      }
    }
  }

  lemma {:induction false} UnlinkedLinked(m: seq<byte>, r: seq<byte>, base: nat, old_head: nat, head: nat, bs: Blocks, l: seq<nat>, j: nat, k: nat)
    requires Linked(m, base, old_head, l) && Lists(bs, l, k) && j < |l| && Unlinked(m, r, base, bs, l, j, k)
    requires head == (if j > 0 then old_head else Pointer(base, l, 1))
    ensures Linked(r, base, head, l[..j] + l[j + 1..])
  {
    hide NextIs, Lists, Unlinked;
    var l' := l[..j] + l[j + 1..];
    forall i | 0 <= i < |l'|
      ensures NextIs(r, l'[i], Pointer(base, l', i + 1))
    {
      UnlinkedNext(m, r, base, old_head, bs, l, j, k, i);
    }
  }

  lemma {:induction false} UnlinkedNext(m: seq<byte>, r: seq<byte>, base: nat, old_head: nat, bs: Blocks, l: seq<nat>, j: nat, k: nat, i: nat)
    requires Linked(m, base, old_head, l) && Lists(bs, l, k) && j < |l| && Unlinked(m, r, base, bs, l, j, k) && i < |l| - 1
    ensures var l' := l[..j] + l[j + 1..]; NextIs(r, l'[i], Pointer(base, l', i + 1))
  {
    hide Pointer, NextIs, HeaderMatches;
    SkipOne(base, l, j, i);
    var i' := if i < j then i else i + 1;
    if i + 1 != j {
      OnList(bs, l, k, i', j);
      if j > 0 {
        OnList(bs, l, k, i', j - 1);
      }
      SameNext(m, r, l[i'], Pointer(base, l, i' + 1));
    }
  }

  /** The list without element j, and where its elements point. */
  lemma {:induction false} SkipOne(base: nat, l: seq<nat>, j: nat, i: nat)
    requires j < |l| && i < |l| - 1
    ensures var l' := l[..j] + l[j + 1..];
      && l'[i] == (if i < j then l[i] else l[i + 1])
      && Pointer(base, l', i + 1) == (if i + 1 < j then Pointer(base, l, i + 1) else Pointer(base, l, i + 2))
  {
  }

  lemma {:induction false} OnList(bs: Blocks, l: seq<nat>, k: nat, i: nat, j: nat)
    requires Lists(bs, l, k) && i < |l| && j < |l| && i != j
    ensures l[i] in bs && l[i] != l[j]
  {
    assert l[i] in l && IsFreeBlock(bs, l[i], k);
  }

  lemma {:induction false} SameNext(m: seq<byte>, r: seq<byte>, o: nat, next: nat)
    requires |m| == |r| && SameHeader(m, r, o) && NextIs(m, o, next)
    ensures NextIs(r, o, next)
  {
  }

  lemma {:induction false} UnlinkedOthers(m: seq<byte>, r: seq<byte>, base: nat, heads: seq<nat>, bs: Blocks, ls: seq<seq<nat>>, j: nat, k: nat)
    requires ListsMatch(m, base, heads, bs, ls) && MIN_ORDER <= k <= MAX_ORDER && j < |ls[k - MIN_ORDER]|
    requires Unlinked(m, r, base, bs, ls[k - MIN_ORDER], j, k)
    ensures ListsMatchBut(r, base, heads, bs, ls, k)
  {
    forall q | MIN_ORDER <= q <= MAX_ORDER && q != k
      ensures ListAt(r, base, heads, bs, ls, q)
    {
      assert ListAt(m, base, heads, bs, ls, q) && ListAt(m, base, heads, bs, ls, k);
      UnlinkedOther(m, r, base, heads[q - MIN_ORDER], bs, ls[k - MIN_ORDER], ls[q - MIN_ORDER], j, k, q);
    }
  }

  lemma {:induction false} UnlinkedOther(m: seq<byte>, r: seq<byte>, base: nat, head: nat, bs: Blocks, l: seq<nat>, other: seq<nat>, j: nat, k: nat, q: nat)
    requires Linked(m, base, head, other) && Lists(bs, l, k) && Lists(bs, other, q) && q != k
    requires j < |l| && Unlinked(m, r, base, bs, l, j, k)
    ensures Linked(r, base, head, other)
  {
    assert l[j] in l && IsFreeBlock(bs, l[j], k);
    assert j > 0 ==> l[j - 1] in l && IsFreeBlock(bs, l[j - 1], k);
    forall i | 0 <= i < |other|
      ensures NextIs(r, other[i], Pointer(base, other, i + 1))
    {
      assert other[i] in other && IsFreeBlock(bs, other[i], q);
      assert SameHeader(m, r, other[i]);
    }
  }

  /** Joining two blocks in use changes no memory: the merged header is written later. */
  lemma {:induction false} MergeRepresents(m: seq<byte>, base: nat, heads: seq<nat>, bs: Blocks, ls: seq<seq<nat>>, o: nat, lower: nat, k: nat)
    requires Represents(m, base, heads, bs, ls, {o}) && Mergeable(bs, lower, k)
    requires !bs[lower].free && !bs[lower + Pow2(k)].free && (o == lower || o == lower + Pow2(k))
    ensures Represents(m, base, heads, Merge(bs, lower, k), ls, {lower})
  {
    var cs: Blocks := Merge(bs, lower, k);
    MergeElsewhere(bs, lower, k, cs);
    forall p | p in cs && p !in {lower}
      ensures HeaderMatches(m, p, cs[p])
    {
      assert HeaderMatches(m, p, bs[p]);
    }
    SameFreeLists(m, base, heads, bs, cs, ls);
  }

  lemma {:induction false} MergeElsewhere(bs: Blocks, lower: nat, k: nat, cs: Blocks)
    requires Mergeable(bs, lower, k) && !bs[lower].free && !bs[lower + Pow2(k)].free
    requires Spaced(bs) && cs == Merge(bs, lower, k)
    ensures Spaced(cs) && lower in cs && !cs[lower].free && SameFree(bs, cs)
    ensures forall p :: p in cs && p != lower ==> p in bs && cs[p] == bs[p] && p != lower + Pow2(k)
  {
    hide Pow2, Spaced;
    assert cs.Keys <= bs.Keys;
    SpacedSubset(bs, cs);
  }

  lemma {:induction false} SpacedSubset(bs: Blocks, cs: Blocks)
    requires Spaced(bs) && cs.Keys <= bs.Keys
    ensures Spaced(cs)
  {
    assert forall o :: o in cs ==> o in bs;
  }
}
