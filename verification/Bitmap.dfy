/** Bits packed into 64-bit words, as the frame allocator keeps them. Words are numbers
    below 2^64, and the bitwise operators work one binary digit at a time. */
module Bitmap {
  import opened Powers

  const BITS_PER_WORD: nat := 64

  /** Digit i of w. */
  predicate Bit(w: nat, i: nat) {
    if i == 0 then w % 2 == 1 else Bit(w / 2, i - 1)
  }

  function And(a: nat, b: nat): (r: nat) {
    if a == 0 || b == 0 then 0
    else 2 * And(a / 2, b / 2) + (if a % 2 == 1 && b % 2 == 1 then 1 else 0)
  }

  function Or(a: nat, b: nat): (r: nat) {
    if a == 0 && b == 0 then 0
    else 2 * Or(a / 2, b / 2) + (if a % 2 == 1 || b % 2 == 1 then 1 else 0)
  }

  /** a & ~b */
  function AndNot(a: nat, b: nat): (r: nat) {
    if a == 0 then 0
    else 2 * AndNot(a / 2, b / 2) + (if a % 2 == 1 && b % 2 == 0 then 1 else 0)
  }

  lemma {:induction false} AndBit(a: nat, b: nat, i: nat)
    ensures Bit(And(a, b), i) <==> Bit(a, i) && Bit(b, i)
  {
    if a == 0 || b == 0 {
      ZeroBit(i);
    } else if i > 0 {
      AndBit(a / 2, b / 2, i - 1);
      assert And(a, b) / 2 == And(a / 2, b / 2);
    }
  }

  lemma {:induction false} ZeroBit(i: nat)
    ensures !Bit(0, i)
  {
    if i > 0 { ZeroBit(i - 1); }
  }

  lemma {:induction false} OrBit(a: nat, b: nat, i: nat)
    ensures Bit(Or(a, b), i) <==> Bit(a, i) || Bit(b, i)
  {
    if a == 0 && b == 0 {
      ZeroBit(i);
    } else if i > 0 {
      OrBit(a / 2, b / 2, i - 1);
      assert Or(a, b) / 2 == Or(a / 2, b / 2);
    }
  }

  lemma {:induction false} AndNotBit(a: nat, b: nat, i: nat)
    ensures Bit(AndNot(a, b), i) <==> Bit(a, i) && !Bit(b, i)
  {
    if a == 0 {
      ZeroBit(i);
    } else if i > 0 {
      AndNotBit(a / 2, b / 2, i - 1);
      assert AndNot(a, b) / 2 == AndNot(a / 2, b / 2);
    }
  }

  lemma {:induction false} Pow2Bit(k: nat, i: nat)
    ensures Bit(Pow2(k), i) <==> i == k
  {
    if k == 0 {
      if i > 0 { ZeroBit(i - 1); }
    } else {
      assert Pow2(k) / 2 == Pow2(k - 1);
      if i > 0 { Pow2Bit(k - 1, i - 1); }
    }
  }

  /** Masking with a single bit is nonzero exactly when that bit is set. */
  lemma {:induction false} MaskTests(w: nat, k: nat)
    ensures And(w, Pow2(k)) != 0 <==> Bit(w, k)
  {
    if w == 0 {
      ZeroBit(k);
    } else if k > 0 {
      MaskTests(w / 2, k - 1);
      assert Pow2(k) / 2 == Pow2(k - 1) && Pow2(k) % 2 == 0;
    } else {
      assert And(w, 1) == 2 * And(w / 2, 0) + (if w % 2 == 1 then 1 else 0);
    }
  }

  lemma {:induction false} OnesBit(k: nat, i: nat)
    requires i < k
    ensures Bit(Pow2(k) - 1, i)
  {
    assert Pow2(k) - 1 == 2 * (Pow2(k - 1) - 1) + 1;
    if i > 0 { OnesBit(k - 1, i - 1); }
  }

  lemma {:induction false} OrBound(a: nat, b: nat, k: nat)
    requires a < Pow2(k) && b < Pow2(k)
    ensures Or(a, b) < Pow2(k)
  {
    if k > 0 && !(a == 0 && b == 0) { OrBound(a / 2, b / 2, k - 1); }
  }

  lemma {:induction false} AndNotBound(a: nat, b: nat, k: nat)
    requires a < Pow2(k)
    ensures AndNot(a, b) < Pow2(k)
  {
    if k > 0 && a != 0 { AndNotBound(a / 2, b / 2, k - 1); }
  }

  // ----- The whole bitmap as a sequence of bits

  ghost function Bits(ws: seq<nat>): (r: seq<bool>)
    ensures |r| == |ws| * BITS_PER_WORD
  {
    seq(|ws| * BITS_PER_WORD, i requires 0 <= i < |ws| * BITS_PER_WORD => Bit(ws[i / BITS_PER_WORD], i % BITS_PER_WORD))
  }

  /** Every word fits in 64 bits. */
  ghost predicate Words(ws: seq<nat>) {
    forall w :: 0 <= w < |ws| ==> ws[w] < Pow2(BITS_PER_WORD)
  }

  lemma {:induction false} TakeWord(ws: seq<nat>, i: nat)
    requires Words(ws) && i < |ws| * BITS_PER_WORD
    ensures var w := i / BITS_PER_WORD; Words(ws[w := Or(ws[w], Pow2(i % BITS_PER_WORD))])
  {
    hide Or, Pow2;
    Pow2Below(i % BITS_PER_WORD);
    OrBound(ws[i / BITS_PER_WORD], Pow2(i % BITS_PER_WORD), BITS_PER_WORD);
  }

  lemma {:induction false} ReleaseWord(ws: seq<nat>, i: nat)
    requires Words(ws) && i < |ws| * BITS_PER_WORD
    ensures var w := i / BITS_PER_WORD; Words(ws[w := AndNot(ws[w], Pow2(i % BITS_PER_WORD))])
  {
    hide AndNot, Pow2;
    AndNotBound(ws[i / BITS_PER_WORD], Pow2(i % BITS_PER_WORD), BITS_PER_WORD);
  }

  lemma {:induction false} Pow2Below(b: nat)
    requires b < BITS_PER_WORD
    ensures Pow2(b) < Pow2(BITS_PER_WORD)
  {
    Pow2Monotone(b, BITS_PER_WORD - 1);
  }

  lemma {:induction false} IsTakenBit(ws: seq<nat>, i: nat)
    requires i < |ws| * BITS_PER_WORD
    ensures And(ws[i / BITS_PER_WORD], Pow2(i % BITS_PER_WORD)) != 0 <==> Bits(ws)[i]
  {
    MaskTests(ws[i / BITS_PER_WORD], i % BITS_PER_WORD);
  }

  /** Setting one bit of one word sets exactly that bit of the bitmap. */
  lemma {:induction false} TakeBit(ws: seq<nat>, i: nat)
    requires i < |ws| * BITS_PER_WORD
    ensures var w := i / BITS_PER_WORD;
      Bits(ws[w := Or(ws[w], Pow2(i % BITS_PER_WORD))]) == Bits(ws)[i := true]
  {
    hide Bit, Or;
    var w, b := i / BITS_PER_WORD, i % BITS_PER_WORD;
    var r := ws[w := Or(ws[w], Pow2(b))];
    forall j: nat | j < |Bits(ws)|
      ensures Bits(r)[j] == Bits(ws)[i := true][j]
    {
      OrBit(ws[w], Pow2(b), j % BITS_PER_WORD);
      Pow2Bit(b, j % BITS_PER_WORD);
    }
  }

  lemma {:induction false} ReleaseBit(ws: seq<nat>, i: nat)
    requires i < |ws| * BITS_PER_WORD
    ensures var w := i / BITS_PER_WORD;
      Bits(ws[w := AndNot(ws[w], Pow2(i % BITS_PER_WORD))]) == Bits(ws)[i := false]
  {
    hide Bit, AndNot;
    var w, b := i / BITS_PER_WORD, i % BITS_PER_WORD;
    var r := ws[w := AndNot(ws[w], Pow2(b))];
    forall j: nat | j < |Bits(ws)|
      ensures Bits(r)[j] == Bits(ws)[i := false][j]
    {
      AndNotBit(ws[w], Pow2(b), j % BITS_PER_WORD);
      Pow2Bit(b, j % BITS_PER_WORD);
    }
  }
}
