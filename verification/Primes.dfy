/** The first eighty primes, which the constants of FIPS 180-4 come from. */
module Primes {
  predicate IsPrime(n: nat) {
    n >= 2 && forall d :: 2 <= d < n ==> n % d != 0
  }

  function FirstPrimes(): (primes: seq<nat>)
    ensures |primes| == 80
  {
    [2, 3, 5, 7, 11, 13, 17, 19]
    + [23, 29, 31, 37, 41, 43, 47, 53]
    + [59, 61, 67, 71, 73, 79, 83, 89]
    + [97, 101, 103, 107, 109, 113, 127, 131]
    + [137, 139, 149, 151, 157, 163, 167, 173]
    + [179, 181, 191, 193, 197, 199, 211, 223]
    + [227, 229, 233, 239, 241, 251, 257, 263]
    + [269, 271, 277, 281, 283, 293, 307, 311]
    + [313, 317, 331, 337, 347, 349, 353, 359]
    + [367, 373, 379, 383, 389, 397, 401, 409]
  }

  // ------------------------------------------------------------------- trial division

  predicate Passes(n: nat) {
    && (n == 2 || n % 2 != 0) && (n == 3 || n % 3 != 0) && (n == 5 || n % 5 != 0) && (n == 7 || n % 7 != 0)
    && (n == 11 || n % 11 != 0) && (n == 13 || n % 13 != 0) && (n == 17 || n % 17 != 0) && (n == 19 || n % 19 != 0)
  }

  /** Nothing from lo to hi - 1 passes. */
  predicate NonePasses(lo: nat, hi: nat) {
    hi <= lo || (!Passes(hi - 1) && NonePasses(lo, hi - 1))
  }

  lemma {:induction false} NonePassesMeans(lo: nat, hi: nat, n: nat)
    requires NonePasses(lo, hi) && lo <= n < hi
    ensures !Passes(n)
  {
    if n < hi - 1 {
      NonePassesMeans(lo, hi - 1, n);
    }
  }

  lemma {:induction false} AtLeast(e: nat, t: nat)
    requires t > 0
    ensures e <= e * t
  {
    if t > 1 {
      AtLeast(e, t - 1);
      assert e * t == e * (t - 1) + e;
    }
  }

  lemma Distribute(e: nat, a: nat, b: nat)
    ensures e * (a + b) == e * a + e * b
  {
  }

  lemma Cancel(e: nat, m: nat, k: nat, r: nat)
    requires e * m == e * k + r && r < e
    ensures r == 0
  {
    if m > k {
      Distribute(e, k, m - k);
      AtLeast(e, m - k);
    } else if m < k {
      Distribute(e, m, k - m);
      AtLeast(e, k - m);
    }
  }

  lemma Multiple(e: nat, m: nat, n: nat)
    requires e > 0 && n == e * m
    ensures n % e == 0
  {
    Cancel(e, m, n / e, n % e);
  }

  /** What has a divisor up to 20 has a prime one. */
  lemma SmallDivisor(n: nat, d: nat)
    requires d < n && 2 <= d <= 20 && n % d == 0
    ensures !Passes(n)
  {
    var q := n / d;
    assert n == d * q;
    if d % 2 == 0 {
      Multiple(2, d / 2 * q, n);
    } else if d % 3 == 0 {
      Multiple(3, d / 3 * q, n);
    } else if d % 5 == 0 {
      Multiple(5, d / 5 * q, n);
    } else {
      assert d == 7 || d == 11 || d == 13 || d == 17 || d == 19;
    }
  }

  lemma Quotient(n: nat, d: nat, q: nat)
    requires n == q * d && n < 21 * 21 && 20 < d < n
    ensures 2 <= q <= 20 && q < n && n % q == 0
  {
    assert q <= 1 ==> q * d <= d;
    assert q >= 21 ==> q * d >= 21 * 21;
    Multiple(q, d, n);
  }

  /** A number below 441 that has a divisor has one that is at most 20. */
  lemma Divisor(n: nat, d: nat)
    requires n < 21 * 21 && 2 <= d < n && n % d == 0
    ensures !Passes(n)
  {
    hide Passes;
    if d <= 20 {
      SmallDivisor(n, d);
    } else {
      Quotient(n, d, n / d);
      SmallDivisor(n, n / d);
    }
  }

  lemma PassesIsPrime(n: nat)
    requires 2 <= n < 21 * 21
    ensures Passes(n) <==> IsPrime(n)
  {
    if Passes(n) {
      hide Passes;
      forall d | 2 <= d < n ensures n % d != 0 {
        if n % d == 0 {
          Divisor(n, d);
        }
      }
    }
  }

  /** q is the first prime after p. */
  predicate Consecutive(p: nat, q: nat) {
    p < q && Passes(p) && Passes(q) && NonePasses(p + 1, q)
  }

  predicate InRow(t: nat) {
    t < 79 && Consecutive(FirstPrimes()[t], FirstPrimes()[t + 1])
  }

  lemma RowFrom0()
    ensures InRow(0) && InRow(1) && InRow(2) && InRow(3)
  {
  }

  lemma RowFrom4()
    ensures InRow(4) && InRow(5) && InRow(6) && InRow(7)
  {
  }

  lemma RowFrom8()
    ensures InRow(8) && InRow(9) && InRow(10) && InRow(11)
  {
  }

  lemma RowFrom12()
    ensures InRow(12) && InRow(13) && InRow(14) && InRow(15)
  {
  }

  lemma RowFrom16()
    ensures InRow(16) && InRow(17) && InRow(18) && InRow(19)
  {
  }

  lemma RowFrom20()
    ensures InRow(20) && InRow(21) && InRow(22) && InRow(23)
  {
  }

  lemma RowFrom24()
    ensures InRow(24) && InRow(25) && InRow(26) && InRow(27)
  {
  }

  lemma RowFrom28()
    ensures InRow(28) && InRow(29) && InRow(30) && InRow(31)
  {
  }

  lemma RowFrom32()
    ensures InRow(32) && InRow(33) && InRow(34) && InRow(35)
  {
  }

  lemma RowFrom36()
    ensures InRow(36) && InRow(37) && InRow(38) && InRow(39)
  {
  }

  lemma RowFrom40()
    ensures InRow(40) && InRow(41) && InRow(42) && InRow(43)
  {
  }

  lemma RowFrom44()
    ensures InRow(44) && InRow(45) && InRow(46) && InRow(47)
  {
  }

  lemma RowFrom48()
    ensures InRow(48) && InRow(49) && InRow(50) && InRow(51)
  {
  }

  lemma RowFrom52()
    ensures InRow(52) && InRow(53) && InRow(54) && InRow(55)
  {
  }

  lemma RowFrom56()
    ensures InRow(56) && InRow(57) && InRow(58) && InRow(59)
  {
  }

  lemma RowFrom60()
    ensures InRow(60) && InRow(61) && InRow(62) && InRow(63)
  {
  }

  lemma RowFrom64()
    ensures InRow(64) && InRow(65) && InRow(66) && InRow(67)
  {
  }

  lemma RowFrom68()
    ensures InRow(68) && InRow(69) && InRow(70) && InRow(71)
  {
  }

  lemma RowFrom72()
    ensures InRow(72) && InRow(73) && InRow(74) && InRow(75)
  {
  }

  lemma RowFrom76()
    ensures InRow(76) && InRow(77) && InRow(78)
  {
  }

  lemma Listed(t: nat)
    requires t < 79
    ensures Consecutive(FirstPrimes()[t], FirstPrimes()[t + 1])
  {
    hide FirstPrimes, Consecutive;
    assert InRow(t) by {
      hide InRow;
      if t < 8 {
        RowFrom0();
        RowFrom4();
      } else if t < 16 {
        RowFrom8();
        RowFrom12();
      } else if t < 24 {
        RowFrom16();
        RowFrom20();
      } else if t < 32 {
        RowFrom24();
        RowFrom28();
      } else if t < 40 {
        RowFrom32();
        RowFrom36();
      } else if t < 48 {
        RowFrom40();
        RowFrom44();
      } else if t < 56 {
        RowFrom48();
        RowFrom52();
      } else if t < 64 {
        RowFrom56();
        RowFrom60();
      } else if t < 72 {
        RowFrom64();
        RowFrom68();
      } else {
        RowFrom72();
        RowFrom76();
      }
    }
  }

  lemma FirstAndLast()
    ensures FirstPrimes()[0] == 2 && FirstPrimes()[79] == 409
  {
  }

  lemma {:induction false} Ascending(t: nat, u: nat)
    requires t <= u < 80
    ensures FirstPrimes()[t] <= FirstPrimes()[u]
    ensures t < u ==> FirstPrimes()[t] < FirstPrimes()[u]
    decreases u - t
  {
    hide Passes, NonePasses, FirstPrimes;
    if t < u {
      Ascending(t, u - 1);
      Listed(u - 1);
    }
  }

  lemma ListedPrime(t: nat)
    requires t < 80
    ensures 2 <= FirstPrimes()[t] <= 409 && Passes(FirstPrimes()[t])
  {
    FirstAndLast();
    hide Passes, NonePasses, FirstPrimes;
    Ascending(0, t);
    Ascending(t, 79);
    Listed(if t < 79 then t else 78);
  }

  /** Numbers up to the prime at u that pass are in the list. */
  lemma {:induction false} PassesIsListed(n: nat, u: nat) returns (t: nat)
    requires u < 80 && 2 <= n <= FirstPrimes()[u] && Passes(n)
    ensures t <= u && FirstPrimes()[t] == n
  {
    hide Passes, NonePasses, FirstPrimes;
    FirstAndLast();
    if n == FirstPrimes()[u] {
      t := u;
    } else {
      Ascending(0, u);
      assert u > 0;
      Listed(u - 1);
      var p, q := FirstPrimes()[u - 1], FirstPrimes()[u];
      if p < n {
        NonePassesMeans(p + 1, q, n);
      }
      t := PassesIsListed(n, u - 1);
    }
  }

  /** The list is in order, and it holds the primes up to its last one and no other number. */
  lemma FirstPrimesAreTheFirst(n: nat)
    requires n <= FirstPrimes()[79]
    ensures IsPrime(n) <==> n in FirstPrimes()
    ensures forall t, u :: 0 <= t < u < 80 ==> FirstPrimes()[t] < FirstPrimes()[u]
  {
    forall t, u | 0 <= t < u < 80 ensures FirstPrimes()[t] < FirstPrimes()[u] {
      Ascending(t, u);
    }
    FirstAndLast();
    hide Passes, IsPrime, FirstPrimes;
    if n in FirstPrimes() {
      var t :| 0 <= t < 80 && FirstPrimes()[t] == n;
      ListedPrime(t);
    }
    if n >= 2 {
      PassesIsPrime(n);
      if Passes(n) {
        var _ := PassesIsListed(n, 79);
      }
    }
  }
}
