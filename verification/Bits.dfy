/** Machine words as natural numbers: the bitwise operators and what masks do. */
module Bits {
  const WORD := 0x1_0000_0000_0000_0000 // 2^64

  function Pow2(k: nat): (r: nat)
    ensures 1 <= r
  {
    if k == 0 then 1 else 2 * Pow2(k - 1)
  }

  function BitAnd(x: nat, y: nat): nat {
    if x == 0 || y == 0 then 0
    else (if x % 2 == 1 && y % 2 == 1 then 1 else 0) + 2 * BitAnd(x / 2, y / 2)
  }

  function BitXor(x: nat, y: nat): nat {
    if x == 0 then y
    else if y == 0 then x
    else (if x % 2 != y % 2 then 1 else 0) + 2 * BitXor(x / 2, y / 2)
  }

  function BitOr(x: nat, y: nat): nat {
    if x == 0 then y
    else if y == 0 then x
    else (if x % 2 == 1 || y % 2 == 1 then 1 else 0) + 2 * BitOr(x / 2, y / 2)
  }

  lemma Ordered(d: int, q: int, r: int, q': int, r': int)
    requires 0 <= r < d && 0 <= r' < d
    ensures q > q' ==> q * d + r > q' * d + r'
  {
    if q > q' {
      assert q * d >= (q' + 1) * d;
    }
  }

  /** Two splittings of a number into multiple and remainder are the same splitting. */
  lemma SameSplit(d: int, q: int, r: int, q': int, r': int)
    requires 0 <= r < d && 0 <= r' < d && q * d + r == q' * d + r'
    ensures q == q' && r == r'
  {
    Ordered(d, q, r, q', r');
    Ordered(d, q', r', q, r);
  }

  /** Quotient and remainder are determined by their defining equation. */
  lemma Division(x: int, d: int, q: int, r: int)
    requires 0 < d && x == q * d + r && 0 <= r < d
    ensures x / d == q && x % d == r
  {
    assert x == x / d * d + x % d;
    SameSplit(d, q, r, x / d, x % d);
  }

  lemma MaskStep(x: nat, half: nat)
    requires 0 < half
    ensures BitAnd(x, 2 * half - 1) == x % 2 + 2 * BitAnd(x / 2, half - 1)
  {
    assert (2 * half - 1) / 2 == half - 1;
    assert (2 * half - 1) % 2 == 1;
  }

  lemma RemainderOfDouble(x: nat, half: nat)
    requires half > 0
    ensures x % (2 * half) == x % 2 + 2 * ((x / 2) % half)
  {
    var q, r := x / 2 / half, (x / 2) % half;
    assert x == q * (2 * half) + (x % 2 + 2 * r) by {
      assert x / 2 == q * half + r;
      assert 2 * (q * half) == q * (2 * half);
    }
    Division(x, 2 * half, q, x % 2 + 2 * r);
  }

  /** The ones below half keep the remainder. */
  predicate Masks(half: nat, x: nat)
    requires 0 < half
  {
    BitAnd(x, half - 1) == x % half
  }

  lemma MaskOfDouble(x: nat, half: nat)
    requires 0 < half && Masks(half, x / 2)
    ensures Masks(2 * half, x)
  {
    hide BitAnd;
    MaskStep(x, half);
    RemainderOfDouble(x, half);
  }

  lemma {:induction false} PowerMasks(x: nat, k: nat)
    ensures Masks(Pow2(k), x)
  {
    if k == 0 {
      assert BitAnd(x, 0) == 0 && x % 1 == 0;
    } else {
      hide Masks;
      PowerMasks(x / 2, k - 1);
      MaskOfDouble(x, Pow2(k - 1));
    }
  }

  /** Masking with one less than a power of two is the remainder. */
  lemma MaskIsRemainder(x: nat, k: nat)
    ensures BitAnd(x, Pow2(k) - 1) == x % Pow2(k)
  {
    hide BitAnd, Pow2;
    PowerMasks(x, k);
  }

  /** n split by a, and its quotient by b. */
  lemma SplitTwice(n: nat, a: nat, b: nat, q: nat, r: nat, low: nat)
    requires n == (q * b + r) * a + low && low < a && r < b
    ensures n == q * (a * b) + (r * a + low) && r * a + low < a * b
  {
    assert (q * b + r) * a == q * b * a + r * a;
    assert q * b * a == q * (a * b);
    assert (r + 1) * a <= b * a;
  }

  /** Dividing twice is dividing by the product. */
  lemma DivideTwice(n: nat, a: nat, b: nat)
    requires 0 < a && 0 < b
    ensures 0 < a * b && n / (a * b) == n / a / b
  {
    var high, low := n / a, n % a;
    var q, r := high / b, high % b;
    SplitTwice(n, a, b, q, r, low);
    Division(n, a * b, q, r * a + low);
  }

  lemma OrStep(high: nat, y: nat)
    ensures BitOr(2 * high, y) == 2 * BitOr(high, y / 2) + y % 2
  {
  }

  lemma Doubled(x: nat, half: nat)
    ensures x * (2 * half) == 2 * (x * half)
  {
  }

  /** Joining numbers that share no bit is adding them. */
  lemma {:induction false} OrOfDisjoint(x: nat, y: nat, k: nat)
    requires y < Pow2(k)
    ensures BitOr(x * Pow2(k), y) == x * Pow2(k) + y
  {
    if k == 0 {
      assert BitOr(x, 0) == x;
    } else {
      hide BitOr;
      var half := Pow2(k - 1);
      Doubled(x, half);
      OrOfDisjoint(x, y / 2, k - 1);
      OrStep(x * half, y);
    }
  }
}
