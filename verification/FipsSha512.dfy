/** The Sha512 block function, as sections 4.1 to 4.2 and 6 of FIPS 180-4 define it. */
module FipsSha512 {
  import opened BlockHash

  const BLOCK_SIZE := 128
  const ROUNDS := 80

  type Word = bv64

  /** The round constants. */
  function K(): (k: seq<Word>)
    ensures |k| == ROUNDS
  {
    [0x428a2f98d728ae22, 0x7137449123ef65cd, 0xb5c0fbcfec4d3b2f, 0xe9b5dba58189dbbc,
     0x3956c25bf348b538, 0x59f111f1b605d019, 0x923f82a4af194f9b, 0xab1c5ed5da6d8118]
    + [0xd807aa98a3030242, 0x12835b0145706fbe, 0x243185be4ee4b28c, 0x550c7dc3d5ffb4e2,
       0x72be5d74f27b896f, 0x80deb1fe3b1696b1, 0x9bdc06a725c71235, 0xc19bf174cf692694]
    + [0xe49b69c19ef14ad2, 0xefbe4786384f25e3, 0x0fc19dc68b8cd5b5, 0x240ca1cc77ac9c65,
       0x2de92c6f592b0275, 0x4a7484aa6ea6e483, 0x5cb0a9dcbd41fbd4, 0x76f988da831153b5]
    + [0x983e5152ee66dfab, 0xa831c66d2db43210, 0xb00327c898fb213f, 0xbf597fc7beef0ee4,
       0xc6e00bf33da88fc2, 0xd5a79147930aa725, 0x06ca6351e003826f, 0x142929670a0e6e70]
    + [0x27b70a8546d22ffc, 0x2e1b21385c26c926, 0x4d2c6dfc5ac42aed, 0x53380d139d95b3df,
       0x650a73548baf63de, 0x766a0abb3c77b2a8, 0x81c2c92e47edaee6, 0x92722c851482353b]
    + [0xa2bfe8a14cf10364, 0xa81a664bbc423001, 0xc24b8b70d0f89791, 0xc76c51a30654be30,
       0xd192e819d6ef5218, 0xd69906245565a910, 0xf40e35855771202a, 0x106aa07032bbd1b8]
    + [0x19a4c116b8d2d0c8, 0x1e376c085141ab53, 0x2748774cdf8eeb99, 0x34b0bcb5e19b48a8,
       0x391c0cb3c5c95a63, 0x4ed8aa4ae3418acb, 0x5b9cca4f7763e373, 0x682e6ff3d6b2b8a3]
    + [0x748f82ee5defb2fc, 0x78a5636f43172f60, 0x84c87814a1f0ab72, 0x8cc702081a6439ec,
       0x90befffa23631e28, 0xa4506cebde82bde9, 0xbef9a3f7b2c67915, 0xc67178f2e372532b]
    + [0xca273eceea26619c, 0xd186b8c721c0c207, 0xeada7dd6cde0eb1e, 0xf57d4f7fee6ed178,
       0x06f067aa72176fba, 0x0a637dc5a2c898a6, 0x113f9804bef90dae, 0x1b710b35131c471b]
    + [0x28db77f523047d84, 0x32caab7b40c72493, 0x3c9ebe0a15c9bebc, 0x431d67c49c100d4c,
       0x4cc5d4becb3e42b6, 0x597f299cfc657e2a, 0x5fcb6fab3ad6faec, 0x6c44198c4a475817]
  }

  /** Addition modulo 2^64. */
  function Add(x: Word, y: Word): Word {
    x + y
  }

  /** y where x has a bit set, z elsewhere. */
  function Ch(x: Word, y: Word, z: Word): (r: Word)
    ensures r & x == y & x && r & !x == z & !x
  {
    (x & y) ^ (!x & z)
  }

  /** Of each three bits, what two of them are. */
  function Maj(x: Word, y: Word, z: Word): (r: Word)
    ensures r & !(x ^ y) == x & !(x ^ y) && r & (x ^ y) == z & (x ^ y)
  {
    (x & y) ^ (x & z) ^ (y & z)
  }

  function BigSigma0(x: Word): Word {
    x.RotateRight(28) ^ x.RotateRight(34) ^ x.RotateRight(39)
  }

  function BigSigma1(x: Word): Word {
    x.RotateRight(14) ^ x.RotateRight(18) ^ x.RotateRight(41)
  }

  function SmallSigma0(x: Word): Word {
    x.RotateRight(1) ^ x.RotateRight(8) ^ (x >> 7)
  }

  function SmallSigma1(x: Word): Word {
    x.RotateRight(19) ^ x.RotateRight(61) ^ (x >> 6)
  }

  /** A big-endian word. */
  function Load(b: Bytes): (word: Word)
    requires |b| == 8
    ensures word ==
      (b[0] as bv64) * 0x100_0000_0000_0000 + (b[1] as bv64) * 0x1_0000_0000_0000 +
      (b[2] as bv64) * 0x100_0000_0000 + (b[3] as bv64) * 0x1_0000_0000 +
      (b[4] as bv64) * 0x100_0000 + (b[5] as bv64) * 0x1_0000 + (b[6] as bv64) * 0x100 + (b[7] as bv64)
  {
    ((b[0] as bv64) << 56) |
    ((b[1] as bv64) << 48) |
    ((b[2] as bv64) << 40) |
    ((b[3] as bv64) << 32) |
    ((b[4] as bv64) << 24) |
    ((b[5] as bv64) << 16) |
    ((b[6] as bv64) << 8) |
    (b[7] as bv64)
  }

  function Store(w: Word): (b: Bytes)
    ensures |b| == 8 && Load(b) == w
  {
    [((w >> 56) & 0xff) as bv8, ((w >> 48) & 0xff) as bv8, ((w >> 40) & 0xff) as bv8, ((w >> 32) & 0xff) as bv8,
     ((w >> 24) & 0xff) as bv8, ((w >> 16) & 0xff) as bv8, ((w >> 8) & 0xff) as bv8, (w & 0xff) as bv8]
  }

  /** Word t of the message schedule. */
  function W(block: Bytes, t: nat): Word
    requires |block| == BLOCK_SIZE && t < ROUNDS
  {
    if t < 16 then Load(block[8 * t..8 * t + 8])
    else Add(Add(Add(SmallSigma1(W(block, t - 2)), W(block, t - 7)), SmallSigma0(W(block, t - 15))), W(block, t - 16))
  }

  /** The working variables. */
  datatype Vars = Vars(a: Word, b: Word, c: Word, d: Word, e: Word, f: Word, g: Word, h: Word)

  function Round(v: Vars, k: Word, w: Word): Vars {
    var t1 := Add(Add(Add(Add(v.h, BigSigma1(v.e)), Ch(v.e, v.f, v.g)), k), w);
    var t2 := Add(BigSigma0(v.a), Maj(v.a, v.b, v.c));
    Vars(Add(t1, t2), v.a, v.b, v.c, Add(v.d, t1), v.e, v.f, v.g)
  }

  /** The working variables after t rounds. */
  function Rounds(v: Vars, block: Bytes, t: nat): Vars
    requires |block| == BLOCK_SIZE && t <= ROUNDS
  {
    if t == 0 then v else Round(Rounds(v, block, t - 1), K()[t - 1], W(block, t - 1))
  }

  function Plus(x: Vars, y: Vars): Vars {
    Vars(Add(x.a, y.a), Add(x.b, y.b), Add(x.c, y.c), Add(x.d, y.d),
         Add(x.e, y.e), Add(x.f, y.f), Add(x.g, y.g), Add(x.h, y.h))
  }

  /** The intermediate hash value after one more block. */
  function Compress(h: Vars, block: Bytes): Vars
    requires |block| == BLOCK_SIZE
  {
    Plus(h, Rounds(h, block, ROUNDS))
  }

  /** Compress, on sequences of any length. */
  function Block(h: Vars, block: Bytes): Vars {
    if |block| == BLOCK_SIZE then Compress(h, block) else h
  }
}
