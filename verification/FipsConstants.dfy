/** The constants of FIPS 180-4 are what its sections 4.2.2, 4.2.3 and 5.3 say they are. */
module FipsConstants {
  import opened Primes
  import FipsSha256
  import FipsSha512
  import Sha256
  import Sha512

  const UNIT_32 := 0x1_0000_0000
  const UNIT_64 := 0x1_0000_0000_0000_0000

  function Square(x: nat): nat {
    x * x
  }

  function Cube(x: nat): nat {
    x * x * x
  }

  /** The cube root of p, rounded down to units of 1 / unit, is whole + k / unit. */
  predicate CubeRoot(p: nat, unit: nat, whole: nat, k: nat) {
    k < unit && Cube(whole * unit + k) <= p * Cube(unit) < Cube(whole * unit + k + 1)
  }

  predicate SquareRoot(p: nat, unit: nat, whole: nat, k: nat) {
    k < unit && Square(whole * unit + k) <= p * Square(unit) < Square(whole * unit + k + 1)
  }

  /** k is the fractional part of the cube root of p, rounded down to units of 1 / unit. */
  ghost predicate CubeFraction(p: nat, unit: nat, k: nat) {
    exists whole :: CubeRoot(p, unit, whole, k)
  }

  /** k is the fractional part of the square root of p, rounded down to units of 1 / unit. */
  ghost predicate SquareFraction(p: nat, unit: nat, k: nat) {
    exists whole :: SquareRoot(p, unit, whole, k)
  }

  // ------------------------------------------------------------------- the round constants

  function WholeCubeRoot(p: nat): nat {
    if p < 8 then 1 else if p < 27 then 2 else if p < 64 then 3 else if p < 125 then 4
    else if p < 216 then 5 else if p < 343 then 6 else 7
  }

  predicate RoundConstant32(t: nat) {
    t < 64 && CubeRoot(FirstPrimes()[t], UNIT_32, WholeCubeRoot(FirstPrimes()[t]), FipsSha256.K()[t] as nat)
  }

  predicate RoundConstant64(t: nat) {
    t < 80 && CubeRoot(FirstPrimes()[t], UNIT_64, WholeCubeRoot(FirstPrimes()[t]), FipsSha512.K()[t] as nat)
  }

  lemma Row32From0()
    ensures RoundConstant32(0) && RoundConstant32(1) && RoundConstant32(2) && RoundConstant32(3)
  {
  }

  lemma Row32From4()
    ensures RoundConstant32(4) && RoundConstant32(5) && RoundConstant32(6) && RoundConstant32(7)
  {
  }

  lemma Row32From8()
    ensures RoundConstant32(8) && RoundConstant32(9) && RoundConstant32(10) && RoundConstant32(11)
  {
  }

  lemma Row32From12()
    ensures RoundConstant32(12) && RoundConstant32(13) && RoundConstant32(14) && RoundConstant32(15)
  {
  }

  lemma Row32From16()
    ensures RoundConstant32(16) && RoundConstant32(17) && RoundConstant32(18) && RoundConstant32(19)
  {
  }

  lemma Row32From20()
    ensures RoundConstant32(20) && RoundConstant32(21) && RoundConstant32(22) && RoundConstant32(23)
  {
  }

  lemma Row32From24()
    ensures RoundConstant32(24) && RoundConstant32(25) && RoundConstant32(26) && RoundConstant32(27)
  {
  }

  lemma Row32From28()
    ensures RoundConstant32(28) && RoundConstant32(29) && RoundConstant32(30) && RoundConstant32(31)
  {
  }

  lemma Row32From32()
    ensures RoundConstant32(32) && RoundConstant32(33) && RoundConstant32(34) && RoundConstant32(35)
  {
  }

  lemma Row32From36()
    ensures RoundConstant32(36) && RoundConstant32(37) && RoundConstant32(38) && RoundConstant32(39)
  {
  }

  lemma Row32From40()
    ensures RoundConstant32(40) && RoundConstant32(41) && RoundConstant32(42) && RoundConstant32(43)
  {
  }

  lemma Row32From44()
    ensures RoundConstant32(44) && RoundConstant32(45) && RoundConstant32(46) && RoundConstant32(47)
  {
  }

  lemma Row32From48()
    ensures RoundConstant32(48) && RoundConstant32(49) && RoundConstant32(50) && RoundConstant32(51)
  {
  }

  lemma Row32From52()
    ensures RoundConstant32(52) && RoundConstant32(53) && RoundConstant32(54) && RoundConstant32(55)
  {
  }

  lemma Row32From56()
    ensures RoundConstant32(56) && RoundConstant32(57) && RoundConstant32(58) && RoundConstant32(59)
  {
  }

  lemma Row32From60()
    ensures RoundConstant32(60) && RoundConstant32(61) && RoundConstant32(62) && RoundConstant32(63)
  {
  }

  lemma Row64From0()
    ensures RoundConstant64(0) && RoundConstant64(1) && RoundConstant64(2) && RoundConstant64(3)
  {
  }

  lemma Row64From4()
    ensures RoundConstant64(4) && RoundConstant64(5) && RoundConstant64(6) && RoundConstant64(7)
  {
  }

  lemma Row64From8()
    ensures RoundConstant64(8) && RoundConstant64(9) && RoundConstant64(10) && RoundConstant64(11)
  {
  }

  lemma Row64From12()
    ensures RoundConstant64(12) && RoundConstant64(13) && RoundConstant64(14) && RoundConstant64(15)
  {
  }

  lemma Row64From16()
    ensures RoundConstant64(16) && RoundConstant64(17) && RoundConstant64(18) && RoundConstant64(19)
  {
  }

  lemma Row64From20()
    ensures RoundConstant64(20) && RoundConstant64(21) && RoundConstant64(22) && RoundConstant64(23)
  {
  }

  lemma Row64From24()
    ensures RoundConstant64(24) && RoundConstant64(25) && RoundConstant64(26) && RoundConstant64(27)
  {
  }

  lemma Row64From28()
    ensures RoundConstant64(28) && RoundConstant64(29) && RoundConstant64(30) && RoundConstant64(31)
  {
  }

  lemma Row64From32()
    ensures RoundConstant64(32) && RoundConstant64(33) && RoundConstant64(34) && RoundConstant64(35)
  {
  }

  lemma Row64From36()
    ensures RoundConstant64(36) && RoundConstant64(37) && RoundConstant64(38) && RoundConstant64(39)
  {
  }

  lemma Row64From40()
    ensures RoundConstant64(40) && RoundConstant64(41) && RoundConstant64(42) && RoundConstant64(43)
  {
  }

  lemma Row64From44()
    ensures RoundConstant64(44) && RoundConstant64(45) && RoundConstant64(46) && RoundConstant64(47)
  {
  }

  lemma Row64From48()
    ensures RoundConstant64(48) && RoundConstant64(49) && RoundConstant64(50) && RoundConstant64(51)
  {
  }

  lemma Row64From52()
    ensures RoundConstant64(52) && RoundConstant64(53) && RoundConstant64(54) && RoundConstant64(55)
  {
  }

  lemma Row64From56()
    ensures RoundConstant64(56) && RoundConstant64(57) && RoundConstant64(58) && RoundConstant64(59)
  {
  }

  lemma Row64From60()
    ensures RoundConstant64(60) && RoundConstant64(61) && RoundConstant64(62) && RoundConstant64(63)
  {
  }

  lemma Row64From64()
    ensures RoundConstant64(64) && RoundConstant64(65) && RoundConstant64(66) && RoundConstant64(67)
  {
  }

  lemma Row64From68()
    ensures RoundConstant64(68) && RoundConstant64(69) && RoundConstant64(70) && RoundConstant64(71)
  {
  }

  lemma Row64From72()
    ensures RoundConstant64(72) && RoundConstant64(73) && RoundConstant64(74) && RoundConstant64(75)
  {
  }

  lemma Row64From76()
    ensures RoundConstant64(76) && RoundConstant64(77) && RoundConstant64(78) && RoundConstant64(79)
  {
  }

  /** Section 4.2.2: the first 32 bits of the fractional parts of the cube roots of the first 64 primes. */
  lemma RoundConstants32(t: nat)
    requires t < 64
    ensures CubeFraction(FirstPrimes()[t], UNIT_32, FipsSha256.K()[t] as nat)
  {
    hide CubeRoot, WholeCubeRoot, FirstPrimes, FipsSha256.K;
    assert RoundConstant32(t) by {
      hide RoundConstant32;
      if t < 8 {
        Row32From0();
        Row32From4();
      } else if t < 16 {
        Row32From8();
        Row32From12();
      } else if t < 24 {
        Row32From16();
        Row32From20();
      } else if t < 32 {
        Row32From24();
        Row32From28();
      } else if t < 40 {
        Row32From32();
        Row32From36();
      } else if t < 48 {
        Row32From40();
        Row32From44();
      } else if t < 56 {
        Row32From48();
        Row32From52();
      } else {
        Row32From56();
        Row32From60();
      }
    }
  }

  /** Section 4.2.3: the first 64 bits of the fractional parts of the cube roots of the first 80 primes. */
  lemma RoundConstants64(t: nat)
    requires t < 80
    ensures CubeFraction(FirstPrimes()[t], UNIT_64, FipsSha512.K()[t] as nat)
  {
    hide CubeRoot, WholeCubeRoot, FirstPrimes, FipsSha512.K;
    assert RoundConstant64(t) by {
      hide RoundConstant64;
      if t < 8 {
        Row64From0();
        Row64From4();
      } else if t < 16 {
        Row64From8();
        Row64From12();
      } else if t < 24 {
        Row64From16();
        Row64From20();
      } else if t < 32 {
        Row64From24();
        Row64From28();
      } else if t < 40 {
        Row64From32();
        Row64From36();
      } else if t < 48 {
        Row64From40();
        Row64From44();
      } else if t < 56 {
        Row64From48();
        Row64From52();
      } else if t < 64 {
        Row64From56();
        Row64From60();
      } else if t < 72 {
        Row64From64();
        Row64From68();
      } else {
        Row64From72();
        Row64From76();
      }
    }
  }

  // ------------------------------------------------------------------- the initial values

  function WholeSquareRoot(p: nat): nat {
    if p < 4 then 1 else if p < 9 then 2 else if p < 16 then 3 else if p < 25 then 4
    else if p < 36 then 5 else if p < 49 then 6 else 7
  }

  predicate StartsFrom(first: nat, unit: nat, t: nat, k: nat) {
    first + t < 80 && SquareRoot(FirstPrimes()[first + t], unit, WholeSquareRoot(FirstPrimes()[first + t]), k)
  }

  lemma InitialValue256Rows()
    ensures StartsFrom(0, UNIT_32, 0, Sha256.SHA256_IV[0] as nat)
    ensures StartsFrom(0, UNIT_32, 1, Sha256.SHA256_IV[1] as nat)
    ensures StartsFrom(0, UNIT_32, 2, Sha256.SHA256_IV[2] as nat)
    ensures StartsFrom(0, UNIT_32, 3, Sha256.SHA256_IV[3] as nat)
    ensures StartsFrom(0, UNIT_32, 4, Sha256.SHA256_IV[4] as nat)
    ensures StartsFrom(0, UNIT_32, 5, Sha256.SHA256_IV[5] as nat)
    ensures StartsFrom(0, UNIT_32, 6, Sha256.SHA256_IV[6] as nat)
    ensures StartsFrom(0, UNIT_32, 7, Sha256.SHA256_IV[7] as nat)
  {
  }

  /** Section 5.3.3: the first 32 bits of the fractional parts of the square roots of the first eight primes. */
  lemma InitialValue256(t: nat)
    requires t < 8
    ensures SquareFraction(FirstPrimes()[t], UNIT_32, Sha256.SHA256_IV[t] as nat)
  {
    hide SquareRoot, WholeSquareRoot, FirstPrimes;
    assert StartsFrom(0, UNIT_32, t, Sha256.SHA256_IV[t] as nat) by {
      hide StartsFrom;
      InitialValue256Rows();
    }
  }

  lemma InitialValue512Rows()
    ensures StartsFrom(0, UNIT_64, 0, Sha512.SHA512_IV[0] as nat)
    ensures StartsFrom(0, UNIT_64, 1, Sha512.SHA512_IV[1] as nat)
    ensures StartsFrom(0, UNIT_64, 2, Sha512.SHA512_IV[2] as nat)
    ensures StartsFrom(0, UNIT_64, 3, Sha512.SHA512_IV[3] as nat)
    ensures StartsFrom(0, UNIT_64, 4, Sha512.SHA512_IV[4] as nat)
    ensures StartsFrom(0, UNIT_64, 5, Sha512.SHA512_IV[5] as nat)
    ensures StartsFrom(0, UNIT_64, 6, Sha512.SHA512_IV[6] as nat)
    ensures StartsFrom(0, UNIT_64, 7, Sha512.SHA512_IV[7] as nat)
  {
  }

  /** Section 5.3.5: the first 64 bits of the fractional parts of the square roots of the first eight primes. */
  lemma InitialValue512(t: nat)
    requires t < 8
    ensures SquareFraction(FirstPrimes()[t], UNIT_64, Sha512.SHA512_IV[t] as nat)
  {
    hide SquareRoot, WholeSquareRoot, FirstPrimes;
    assert StartsFrom(0, UNIT_64, t, Sha512.SHA512_IV[t] as nat) by {
      hide StartsFrom;
      InitialValue512Rows();
    }
  }

  lemma InitialValue384Rows()
    ensures StartsFrom(8, UNIT_64, 0, Sha512.SHA384_IV[0] as nat)
    ensures StartsFrom(8, UNIT_64, 1, Sha512.SHA384_IV[1] as nat)
    ensures StartsFrom(8, UNIT_64, 2, Sha512.SHA384_IV[2] as nat)
    ensures StartsFrom(8, UNIT_64, 3, Sha512.SHA384_IV[3] as nat)
    ensures StartsFrom(8, UNIT_64, 4, Sha512.SHA384_IV[4] as nat)
    ensures StartsFrom(8, UNIT_64, 5, Sha512.SHA384_IV[5] as nat)
    ensures StartsFrom(8, UNIT_64, 6, Sha512.SHA384_IV[6] as nat)
    ensures StartsFrom(8, UNIT_64, 7, Sha512.SHA384_IV[7] as nat)
  {
  }

  /** Section 5.3.4: the first 64 bits of those of the ninth to sixteenth primes. */
  lemma InitialValue384(t: nat)
    requires t < 8
    ensures SquareFraction(FirstPrimes()[8 + t], UNIT_64, Sha512.SHA384_IV[t] as nat)
  {
    hide SquareRoot, WholeSquareRoot, FirstPrimes;
    assert StartsFrom(8, UNIT_64, t, Sha512.SHA384_IV[t] as nat) by {
      hide StartsFrom;
      InitialValue384Rows();
    }
  }

  /** Section 5.3.2: the second 32 bits of those fractional parts. */
  lemma InitialValue224(t: nat)
    requires t < 8
    ensures Sha256.SHA224_IV[t] as nat == Sha512.SHA384_IV[t] as nat % UNIT_32
  {
  }
}
