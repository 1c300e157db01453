/** Powers of two, alignment and the exclusive-or that finds a buddy block. All by
    halving, which keeps the arithmetic linear. */
module Powers {

  function Pow2(k: nat): (r: nat)
    ensures r >= 1
  {
    if k == 0 then 1 else 2 * Pow2(k - 1)
  }

  /** x is a multiple of 2^k; AlignedIsDivisible says so with a remainder. */
  predicate Aligned(x: nat, k: nat) {
    k == 0 || (x % 2 == 0 && Aligned(x / 2, k - 1))
  }

  /** Bitwise exclusive or, one binary digit at a time. */
  function Xor(a: nat, b: nat): (r: nat)
  {
    if a == 0 && b == 0 then 0
    else 2 * Xor(a / 2, b / 2) + (if a % 2 == b % 2 then 0 else 1)
  }

  lemma {:induction false} Pow2Monotone(j: nat, k: nat)
    requires j <= k
    ensures Pow2(j) <= Pow2(k)
  {
    if j < k { Pow2Monotone(j, k - 1); }
  }

  lemma {:induction false} AlignedWeaken(x: nat, j: nat, k: nat)
    requires j <= k && Aligned(x, k)
    ensures Aligned(x, j)
  {
    if j > 0 { AlignedWeaken(x / 2, j - 1, k - 1); }
  }

  lemma {:induction false} AlignedAdd(x: nat, y: nat, k: nat)
    requires Aligned(x, k) && Aligned(y, k)
    ensures Aligned(x + y, k)
  {
    if k > 0 {
      AlignedAdd(x / 2, y / 2, k - 1);
      assert (x + y) / 2 == x / 2 + y / 2;
    }
  }

  lemma {:induction false} AlignedSub(x: nat, y: nat, k: nat)
    requires Aligned(x, k) && Aligned(y, k) && y <= x
    ensures Aligned(x - y, k)
  {
    if k > 0 {
      AlignedSub(x / 2, y / 2, k - 1);
      assert (x - y) / 2 == x / 2 - y / 2;
    }
  }

  /** Two distinct multiples of a power of two are at least that far apart. */
  lemma {:induction false} AlignedGap(x: nat, y: nat, k: nat)
    requires Aligned(x, k) && Aligned(y, k) && x < y
    ensures x + Pow2(k) <= y
  {
    if k > 0 { AlignedGap(x / 2, y / 2, k - 1); }
  }

  lemma {:induction false} Pow2Aligned(j: nat, k: nat)
    requires j <= k
    ensures Aligned(Pow2(k), j)
  {
    if j > 0 {
      Pow2Aligned(j - 1, k - 1);
      assert Pow2(k) / 2 == Pow2(k - 1);
    }
  }

  lemma {:induction false} AlignedIsDivisible(x: nat, k: nat)
    ensures Aligned(x, k) <==> exists q: nat :: x == Pow2(k) * q
  {
    if Aligned(x, k) {
      var q := AlignedQuotient(x, k);
    }
    if q: nat :| x == Pow2(k) * q {
      MultipleAligned(k, q);
    }
  }

  lemma {:induction false} AlignedQuotient(x: nat, k: nat) returns (q: nat)
    requires Aligned(x, k)
    ensures x == Pow2(k) * q
  {
    if k == 0 {
      q := x;
    } else {
      q := AlignedQuotient(x / 2, k - 1);
      TwiceProduct(Pow2(k - 1), q);
    }
  }

  lemma {:induction false} MultipleAligned(k: nat, q: nat)
    ensures Aligned(Pow2(k) * q, k)
  {
    if k > 0 {
      MultipleAligned(k - 1, q);
      TwiceProduct(Pow2(k - 1), q);
    }
  }

  lemma {:induction false} TwiceProduct(p: nat, q: nat)
    ensures 2 * p * q == 2 * (p * q)
  {
  }

  lemma {:induction false} XorZero(a: nat)
    ensures Xor(a, 0) == a
  {
    if a > 0 { XorZero(a / 2); }
  }

  /** Flipping bit k of a multiple of 2^k adds or subtracts 2^k. */
  lemma {:induction false} XorPow2(x: nat, k: nat)
    requires Aligned(x, k)
    ensures Aligned(x, k + 1) ==> Xor(x, Pow2(k)) == x + Pow2(k)
    ensures !Aligned(x, k + 1) ==> x >= Pow2(k) && Xor(x, Pow2(k)) == x - Pow2(k) && Aligned(x - Pow2(k), k + 1)
  {
    if k == 0 {
      XorZero(x / 2);
      assert Xor(x, 1) == 2 * Xor(x / 2, 0) + (if x % 2 == 1 then 0 else 1);
      assert Aligned(x, 1) <==> x % 2 == 0;
      if x % 2 == 1 { assert (x - 1) % 2 == 0; assert Aligned(x - 1, 1); }
    } else {
      XorPow2(x / 2, k - 1);
      assert Pow2(k) / 2 == Pow2(k - 1) && Pow2(k) % 2 == 0;
      assert Xor(x, Pow2(k)) == 2 * Xor(x / 2, Pow2(k - 1));
      if !Aligned(x, k + 1) {
        assert (x - Pow2(k)) / 2 == x / 2 - Pow2(k - 1);
      }
    }
  }

  lemma {:induction false} Pow2Twice(k: nat)
    ensures Pow2(k + 1) == Pow2(k) + Pow2(k)
  {
  }
}
