/** Integer formatting: the digits printed read back to the number. */
module OutputStream {

  const WORD: nat := 0x1_0000_0000_0000_0000

  function Pow(b: nat, k: nat): (r: nat) {
    if k == 0 then 1 else b * Pow(b, k - 1)
  }

  /** The character put for a digit: past 'z' it runs on through the bytes and wraps. */
  function DigitChar(d: nat): (c: char) {
    if d < 10 then '0' + d as char else ((97 + d - 10) % 256) as char
  }

  function Text(ds: seq<nat>): (s: string)
    ensures |s| == |ds| && forall i :: 0 <= i < |ds| ==> s[i] == DigitChar(ds[i])
  {
    if ds == [] then "" else [DigitChar(ds[0])] + Text(ds[1..])
  }

  function DigitValue(c: char): (d: nat) {
    if '0' <= c <= '9' then (c - '0') as nat else if c >= 'a' then c as nat - 97 + 10 else c as nat + 169
  }

  /** The digits behind a text. */
  function Values(s: string): (ds: seq<nat>)
    ensures |ds| == |s| && forall i :: 0 <= i < |s| ==> ds[i] == DigitValue(s[i])
  {
    if s == "" then [] else [DigitValue(s[0])] + Values(s[1..])
  }

  /** The number a row of digits stands for, most significant digit first. */
  function Read(ds: seq<nat>, b: nat): (v: nat) {
    if ds == [] then 0 else ds[0] * Pow(b, |ds| - 1) + Read(ds[1..], b)
  }

  predicate IsDigits(ds: seq<nat>, b: nat) {
    forall i :: 0 <= i < |ds| ==> ds[i] < b
  }

  /** Proper notation: the right value, only digits of the base, no leading zero. */
  predicate Notation(ds: seq<nat>, b: nat, v: nat) {
    ds != [] && IsDigits(ds, b) && Read(ds, b) == v && (ds[0] == 0 ==> ds == [0])
  }

  function Prefix(b: nat): (p: string) {
    if b == 2 then "0b" else if b == 8 then "0" else if b == 16 then "0x" else ""
  }

  lemma {:induction false} PowPositive(b: nat, k: nat)
    requires b > 0
    ensures Pow(b, k) > 0
  {
    if k > 0 {
      PowPositive(b, k - 1);
      ProductPositive(b, Pow(b, k - 1));
    }
  }

  lemma {:induction false} ProductPositive(a: nat, b: nat)
    requires a > 0 && b > 0
    ensures a * b > 0
  {
  }

  /** v / d reaches b exactly when d * b does not exceed v. */
  lemma {:induction false} QuotientAtLeast(v: nat, d: nat, b: nat)
    requires d > 0
    ensures v / d >= b <==> d * b <= v
  {
    var q, r := v / d, v % d;
    assert v == d * q + r && r < d;
    if q >= b {
      OrderedProduct(d, b, q);
    } else {
      OrderedProduct(d, q + 1, b);
      Distribute(d, q, 1);
    }
  }

  lemma {:induction false} PowShrinks(b: nat, k: nat)
    requires b > 1
    ensures Pow(b, k) > 0 && Pow(b, k) / b == if k == 0 then 0 else Pow(b, k - 1)
  {
    PowPositive(b, k);
    if k > 0 {
      var p := Pow(b, k - 1);
      assert Pow(b, k) == b * p;
      MultipleQuotient(b, p);
    }
  }

  lemma {:induction false} MultipleQuotient(b: nat, p: nat)
    requires b > 0
    ensures b * p / b == p
  {
    var q, r := b * p / b, b * p % b;
    assert b * (p - q) == r by { Distribute(b, p, -q); }
    if p != q {
      OrderedProduct(b, if p > q then 1 else p - q, if p > q then p - q else -1);
    }
  }

  lemma {:induction false} Distribute(a: int, b: int, c: int)
    ensures a * (b + c) == a * b + a * c
    ensures (b + c) * a == b * a + c * a
  {
  }

  lemma {:induction false} Associate(a: int, b: int, c: int)
    ensures a * (b * c) == a * b * c
  {
  }

  lemma {:induction false} OrderedProduct(a: nat, b: int, c: int)
    requires b <= c
    ensures a * b <= a * c
  {
    Distribute(a, b, c - b);
    assert a * (c - b) >= 0;
  }

  /** Reading digits in two parts. */
  lemma {:induction false} ReadSplit(s: seq<nat>, t: seq<nat>, b: nat)
    ensures Read(s + t, b) == Read(s, b) * Pow(b, |t|) + Read(t, b)
  {
    hide Pow;
    if s == [] {
      assert s + t == t;
    } else {
      ReadSplit(s[1..], t, b);
      ReadHead(s, b);
      ReadHead(s + t, b);
      assert (s + t)[1..] == s[1..] + t;
      PowSum(b, |s| - 1, |t|);
      SplitArithmetic(s[0], Pow(b, |s| - 1), Read(s[1..], b), Pow(b, |t|), Read(t, b));
    }
  }

  lemma {:induction false} ReadHead(s: seq<nat>, b: nat)
    requires s != []
    ensures Read(s, b) == s[0] * Pow(b, |s| - 1) + Read(s[1..], b)
  {
  }

  lemma {:induction false} SplitArithmetic(d: nat, p: nat, r: nat, q: nat, x: nat)
    ensures (d * p + r) * q + x == d * (p * q) + (r * q + x)
  {
    Distribute(q, d * p, r);
    Associate(d, p, q);
  }

  lemma {:induction false} PowSum(b: nat, j: nat, k: nat)
    ensures Pow(b, j + k) == Pow(b, j) * Pow(b, k)
  {
    if j > 0 {
      PowSum(b, j - 1, k);
      Associate(b, Pow(b, j - 1), Pow(b, k));
    }
  }

  class Stream {
    var out: string
    var base: int

    constructor ()
      ensures out == "" && base == 10
    {
      out, base := "", 10;
    }

    /** The base numbers are printed in; anything below 2 means 16. */
    function Base(): (b: nat)
      reads this`base
      ensures b >= 2 && (base >= 2 ==> b == base) && (base < 2 ==> b == 16)
    {
      if base < 2 then 16 else base
    }

    /** Prints the base prefix and then v in proper notation. */
    method PutUnsigned(v: nat) returns (ghost digits: seq<nat>)
      requires v < WORD
      modifies this`out
      ensures out == old(out) + Prefix(Base()) + Text(digits)
      ensures Notation(digits, Base(), v)
      ensures base < 2 || base == 2 || base == 8 || base == 10 || base == 16 ==>
        old(out) <= out && ReadBase(out[|old(out)|..]) == (if base < 2 then 16 else base) && ReadNumber(out[|old(out)|..]) == v
    {
      hide Notation, Text, ReadNumber, ReadBase;
      var b := Base();
      out := out + Prefix(b);
      var divisor, k := TopDivisor(v, b);
      digits := PutDigits(v, b, divisor, k);
      assert out[|old(out)|..] == Prefix(b) + Text(digits);
      if base < 2 || base == 2 || base == 8 || base == 10 || base == 16 {
        PrefixTellsBase(digits, b, v);
      }
    }

    /**
     * Signed numbers carry a sign in decimal only; every other base shows the
     * two's-complement machine word. The magnitude is the complement plus one,
     * in wrapping 64-bit arithmetic, so the most negative number is printed too.
     */
    method PutSigned(v: int) returns (ghost digits: seq<nat>)
      requires -(WORD / 2) <= v < WORD / 2
      modifies this`out
      ensures v >= 0 ==> out == old(out) + Prefix(Base()) + Text(digits) && Notation(digits, Base(), v)
      ensures v < 0 && base == 10 ==> out == old(out) + "-" + Text(digits) && Notation(digits, 10, -v)
      ensures v < 0 && base != 10 ==> out == old(out) + Prefix(Base()) + Text(digits) && Notation(digits, Base(), v + WORD)
    {
      hide Notation, Text, ReadNumber, ReadBase;
      var word := if v < 0 then v + WORD else v;
      if v < 0 && base == 10 {
        out := out + "-";
        var complement := WORD - 1 - word;
        digits := PutUnsigned((complement + 1) % WORD);
      } else {
        digits := PutUnsigned(word);
      }
    }

    /** An address is printed in base 16, whatever base is set, and the base comes back. */
    method PutPointer(address: nat) returns (ghost digits: seq<nat>)
      requires address < WORD
      modifies this
      ensures out == old(out) + "0x" + Text(digits) && Notation(digits, 16, address)
      ensures base == old(base)
    {
      hide Notation, Text, ReadNumber, ReadBase;
      var previous := base;
      base := 16;
      digits := PutUnsigned(address);
      base := previous;
    }

    /** Largest power of the base not above v; the product stays a 64-bit value. */
    method TopDivisor(v: nat, b: nat) returns (divisor: nat, ghost k: nat)
      requires 2 <= b && v < WORD
      ensures divisor == Pow(b, k) && divisor < WORD && v < Pow(b, k + 1)
      ensures k > 0 ==> divisor <= v
    {
      divisor, k := 1, 0;
      QuotientAtLeast(v, divisor, b);
      while v / divisor >= b
        invariant divisor == Pow(b, k) > 0 && (k > 0 ==> divisor <= v) && divisor < WORD
        decreases v - divisor
      {
        QuotientAtLeast(v, divisor, b);
        OrderedProduct(divisor, 2, b);
        divisor := divisor * b;
        k := k + 1;
      }
      QuotientAtLeast(v, divisor, b);
    }

    method PutDigits(v: nat, b: nat, top: nat, ghost k: nat) returns (ghost digits: seq<nat>)
      requires 2 <= b && top == Pow(b, k) && v < Pow(b, k + 1) && (k > 0 ==> top <= v)
      modifies this`out
      ensures out == old(out) + Text(digits) && Notation(digits, b, v)
    {
      hide Read, DigitChar, Notation, Pow, Progress, Text;
      Start(v, b, k);
      var rest: nat, divisor: nat := v, top;
      ghost var left: nat := k + 1;
      digits := [];
      NoText();
      while divisor > 0
        invariant out == old(out) + Text(digits)
        invariant left > 0 <==> divisor > 0
        invariant left > 0 ==> divisor == Pow(b, left - 1)
        invariant Progress(digits, rest, left, b, v, k)
        decreases left
      {
        var digit := rest / divisor;
        Step(digits, rest, left, b, v, k, divisor, digit);
        MoreText(digits, digit);
        out := out + [DigitChar(digit)];
        digits := digits + [digit];
        rest := rest % divisor;
        divisor := divisor / b;
        left := left - 1;
      }
      Finish(digits, rest, b, v, k);
    }
  }

  lemma {:induction false} NoText()
    ensures Text([]) == ""
  {
  }

  lemma {:induction false} MoreText(ds: seq<nat>, d: nat)
    ensures Text(ds + [d]) == Text(ds) + [DigitChar(d)]
  {
  }

  /** After some digits, those still missing are the digits of what is left. */
  ghost predicate Partway(digits: seq<nat>, rest: nat, left: nat, b: nat, v: nat) {
    IsDigits(digits, b) && rest < Pow(b, left) && Read(digits, b) * Pow(b, left) + rest == v
  }

  /** Partway, with the right number of digits and the first of them as it should be. */
  ghost predicate Progress(digits: seq<nat>, rest: nat, left: nat, b: nat, v: nat, k: nat) {
    left <= k + 1 && |digits| == k + 1 - left && Partway(digits, rest, left, b, v) &&
    (digits == [] ==> rest == v) && (k > 0 ==> Pow(b, k) <= v) &&
    (digits != [] && k > 0 ==> digits[0] != 0)
  }

  lemma {:induction false} Start(v: nat, b: nat, k: nat)
    requires 2 <= b && v < Pow(b, k + 1) && (k > 0 ==> Pow(b, k) <= v)
    ensures Progress([], v, k + 1, b, v, k) && Pow(b, k) > 0
  {
    PowPositive(b, k);
  }

  lemma {:induction false} Finish(digits: seq<nat>, rest: nat, b: nat, v: nat, k: nat)
    requires Progress(digits, rest, 0, b, v, k)
    ensures Notation(digits, b, v)
  {
    assert Pow(b, 0) == 1;
    assert k == 0 && digits[0] == 0 ==> digits == [0];
  }

  lemma {:induction false} Step(digits: seq<nat>, rest: nat, left: nat, b: nat, v: nat, k: nat, divisor: nat, digit: nat)
    requires 2 <= b && left > 0 && divisor == Pow(b, left - 1) && divisor > 0 && digit == rest / divisor
    requires Progress(digits, rest, left, b, v, k)
    ensures Progress(digits + [digit], rest % divisor, left - 1, b, v, k)
    ensures divisor / b == if left == 1 then 0 else Pow(b, left - 2)
    ensures left > 1 ==> Pow(b, left - 2) > 0
  {
    hide Partway, Pow;
    DigitStep(rest, b, left - 1, digits, v);
    if digits == [] && k > 0 {
      QuotientAtLeast(v, divisor, 1);
    }
    PowShrinks(b, left - 1);
    if left > 1 {
      PowPositive(b, left - 2);
    }
  }

  /** Moving one digit from the rest to the digits keeps their joint value. */
  lemma {:induction false} DigitStep(rest: nat, b: nat, j: nat, digits: seq<nat>, v: nat)
    requires 2 <= b && Partway(digits, rest, j + 1, b, v) && Pow(b, j) > 0
    ensures Partway(digits + [rest / Pow(b, j)], rest % Pow(b, j), j, b, v)
  {
    hide Read;
    var p := Pow(b, j);
    QuotientAtLeast(rest, p, b);
    Commute(b, p);
    DigitMoved(digits, rest, j, b, v, rest / p, rest % p);
  }

  lemma {:induction false} DigitMoved(digits: seq<nat>, rest: nat, j: nat, b: nat, v: nat, d: nat, m: nat)
    requires 2 <= b && d < b && m < Pow(b, j) && rest == Pow(b, j) * d + m
    requires Partway(digits, rest, j + 1, b, v)
    ensures Partway(digits + [d], m, j, b, v)
  {
    hide Read;
    ReadOne(d, b);
    ReadSplit(digits, [d], b);
    DigitArithmetic(Read(digits, b), b, Pow(b, j), d, m);
  }

  lemma {:induction false} Commute(a: int, b: int)
    ensures a * b == b * a
  {
  }

  lemma {:induction false} DigitArithmetic(r: nat, b: nat, p: nat, d: nat, m: nat)
    ensures (r * b + d) * p + m == r * (b * p) + (p * d + m)
  {
    Distribute(p, r * b, d);
    Associate(r, b, p);
  }

  lemma {:induction false} ReadOne(d: nat, b: nat)
    ensures Read([d], b) == d && Pow(b, 1) == b
  {
    ReadHead([d], b);
  }

  // ----- One number, one notation

  /** Digits of one length are below the next power of the base. */
  lemma {:induction false} ReadBound(s: seq<nat>, b: nat)
    requires 2 <= b && IsDigits(s, b)
    ensures Read(s, b) < Pow(b, |s|)
  {
    if s != [] {
      ReadBound(s[1..], b);
      var p := Pow(b, |s| - 1);
      OrderedProduct(p, s[0] + 1, b);
      Distribute(p, s[0], 1);
    }
  }

  /** A leading digit other than zero puts a number at or above its power of the base. */
  lemma {:induction false} ReadFloor(s: seq<nat>, b: nat)
    requires 2 <= b && s != [] && s[0] != 0
    ensures Read(s, b) >= Pow(b, |s| - 1)
  {
    OrderedProduct(Pow(b, |s| - 1), 1, s[0]);
  }

  lemma {:induction false} PowGrows(b: nat, j: nat, k: nat)
    requires 1 <= b && j <= k
    ensures Pow(b, j) <= Pow(b, k)
  {
    if j < k {
      PowGrows(b, j, k - 1);
      OrderedProduct(Pow(b, k - 1), 1, b);
    }
  }

  /** A longer number without a leading zero is larger. */
  lemma {:induction false} LongerIsLarger(s: seq<nat>, t: seq<nat>, b: nat)
    requires 2 <= b && IsDigits(s, b) && IsDigits(t, b) && |s| < |t| && t[0] != 0
    ensures Read(s, b) < Read(t, b)
  {
    hide Read, Pow;
    ReadBound(s, b);
    ReadFloor(t, b);
    PowGrows(b, |s|, |t| - 1);
  }

  /** Digits of one length are determined by the number they stand for. */
  lemma {:induction false} SameLengthUnique(s: seq<nat>, t: seq<nat>, b: nat)
    requires 2 <= b && IsDigits(s, b) && IsDigits(t, b) && |s| == |t| && Read(s, b) == Read(t, b)
    ensures s == t
  {
    hide Pow;
    if s != [] {
      ReadBound(s[1..], b);
      ReadBound(t[1..], b);
      SameQuotient(Pow(b, |s| - 1), s[0], t[0], Read(s[1..], b), Read(t[1..], b));
      SameLengthUnique(s[1..], t[1..], b);
      assert s == [s[0]] + s[1..] && t == [t[0]] + t[1..];
    }
  }

  lemma {:induction false} SameQuotient(p: nat, d: nat, e: nat, x: nat, y: nat)
    requires x < p && y < p && d * p + x == e * p + y
    ensures d == e && x == y
  {
    if d < e {
      OrderedProduct(p, d + 1, e);
      Distribute(p, d, 1);
    } else if e < d {
      OrderedProduct(p, e + 1, d);
      Distribute(p, e, 1);
    }
  }

  /** Every number has one proper notation, so what is printed is fixed by the number. */
  lemma {:induction false} NotationUnique(s: seq<nat>, t: seq<nat>, b: nat, v: nat)
    requires 2 <= b && Notation(s, b, v) && Notation(t, b, v)
    ensures s == t
  {
    if |s| < |t| {
      LongerIsLarger(s, t, b);
    } else if |t| < |s| {
      LongerIsLarger(t, s, b);
    } else {
      SameLengthUnique(s, t, b);
    }
  }

  // ----- Reading a text

  /** The most bases go to before two digits get the same character. */
  const READABLE: nat := 217

  lemma {:induction false} DigitRoundTrip(d: nat)
    requires d < READABLE
    ensures DigitValue(DigitChar(d)) == d
  {
  }

  /** Digits can be told apart by their characters exactly for bases up to 217. */
  lemma {:induction false} Legible(b: nat)
    ensures (forall d: nat, e: nat :: d < b && e < b && DigitChar(d) == DigitChar(e) ==> d == e) <==> b <= READABLE
  {
    if b <= READABLE {
      forall d: nat, e: nat | d < b && e < b && DigitChar(d) == DigitChar(e)
        ensures d == e
      {
        DigitRoundTrip(d);
        DigitRoundTrip(e);
      }
    } else {
      assert DigitChar(0) == DigitChar(READABLE);
    }
  }

  /** A text in such a base reads back to its digits, and so to the number. */
  lemma {:induction false} ReadsBack(ds: seq<nat>, b: nat, v: nat)
    requires b <= READABLE && Notation(ds, b, v)
    ensures Values(Text(ds)) == ds && Read(Values(Text(ds)), b) == v
  {
    hide DigitChar, DigitValue, Read;
    forall i | 0 <= i < |ds|
      ensures Values(Text(ds))[i] == ds[i]
    {
      DigitRoundTrip(ds[i]);
    }
  }

  // ----- Reading a text whose base is not known

  const HEX: string := "0123456789abcdef"

  /** The base a text announces: 0b, 0x, a leading 0, or none of them. */
  function ReadBase(s: string): (b: nat) {
    if |s| < 2 || s[0] != '0' then 10 else if s[1] == 'b' then 2 else if s[1] == 'x' then 16 else 8
  }

  /** The number a text stands for, with its base taken from the text. */
  function ReadNumber(s: string): (v: nat) {
    match ReadBase(s)
    case 10 => Read(Values(s), 10)
    case 8 => Read(Values(s[1..]), 8)
    case b => Read(Values(s[2..]), b)
  }

  /** In bases 2, 8, 10 and 16 the prefix tells which, so the text alone gives the number back. */
  lemma {:induction false} PrefixTellsBase(ds: seq<nat>, b: nat, v: nat)
    requires b == 2 || b == 8 || b == 10 || b == 16
    requires Notation(ds, b, v)
    ensures ReadBase(Prefix(b) + Text(ds)) == b && ReadNumber(Prefix(b) + Text(ds)) == v
  {
    hide Read, Values;
    var t := Text(ds);
    ReadsBack(ds, b, v);
    FirstDigit(ds, b, v);
    assert b != 10 ==> (Prefix(b) + t)[|Prefix(b)|..] == t;
    assert b == 10 ==> Prefix(b) + t == t;
  }

  lemma {:induction false} FirstDigit(ds: seq<nat>, b: nat, v: nat)
    requires Notation(ds, b, v) && b <= 16
    ensures Text(ds)[0] == HEX[ds[0]]
    ensures Text(ds)[0] == '0' ==> ds == [0]
    ensures b <= 10 ==> '0' <= Text(ds)[0] <= '9'
  {
    HexDigit(ds[0]);
  }

  lemma {:induction false} HexDigit(d: nat)
    requires d < |HEX|
    ensures DigitChar(d) == HEX[d] && (HEX[d] == '0' ==> d == 0)
  {
  }
}
