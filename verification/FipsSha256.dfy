/** The Sha256 block function, as sections 4.1 to 4.2 and 6 of FIPS 180-4 define it. */
module FipsSha256 {
  import opened BlockHash

  const BLOCK_SIZE := 64
  const ROUNDS := 64

  type Word = bv32

  /** The round constants. */
  function K(): (k: seq<Word>)
    ensures |k| == ROUNDS
  {
    [0x428a2f98, 0x71374491, 0xb5c0fbcf, 0xe9b5dba5, 0x3956c25b, 0x59f111f1, 0x923f82a4, 0xab1c5ed5]
    + [0xd807aa98, 0x12835b01, 0x243185be, 0x550c7dc3, 0x72be5d74, 0x80deb1fe, 0x9bdc06a7, 0xc19bf174]
    + [0xe49b69c1, 0xefbe4786, 0x0fc19dc6, 0x240ca1cc, 0x2de92c6f, 0x4a7484aa, 0x5cb0a9dc, 0x76f988da]
    + [0x983e5152, 0xa831c66d, 0xb00327c8, 0xbf597fc7, 0xc6e00bf3, 0xd5a79147, 0x06ca6351, 0x14292967]
    + [0x27b70a85, 0x2e1b2138, 0x4d2c6dfc, 0x53380d13, 0x650a7354, 0x766a0abb, 0x81c2c92e, 0x92722c85]
    + [0xa2bfe8a1, 0xa81a664b, 0xc24b8b70, 0xc76c51a3, 0xd192e819, 0xd6990624, 0xf40e3585, 0x106aa070]
    + [0x19a4c116, 0x1e376c08, 0x2748774c, 0x34b0bcb5, 0x391c0cb3, 0x4ed8aa4a, 0x5b9cca4f, 0x682e6ff3]
    + [0x748f82ee, 0x78a5636f, 0x84c87814, 0x8cc70208, 0x90befffa, 0xa4506ceb, 0xbef9a3f7, 0xc67178f2]
  }

  /** Addition modulo 2^32. */
  function Add(x: Word, y: Word): Word {
    x + y
  }

  /** y where x has a bit set, z elsewhere. */
  function Ch(x: Word, y: Word, z: Word): (r: Word)
    ensures r & x == y & x && r & !x == z & !x
  {
    (x & y) ^ (!x & z)
  }

  /** Of each three bits, what two of them are. */
  function Maj(x: Word, y: Word, z: Word): (r: Word)
    ensures r & !(x ^ y) == x & !(x ^ y) && r & (x ^ y) == z & (x ^ y)
  {
    (x & y) ^ (x & z) ^ (y & z)
  }

  function BigSigma0(x: Word): Word {
    x.RotateRight(2) ^ x.RotateRight(13) ^ x.RotateRight(22)
  }

  function BigSigma1(x: Word): Word {
    x.RotateRight(6) ^ x.RotateRight(11) ^ x.RotateRight(25)
  }

  function SmallSigma0(x: Word): Word {
    x.RotateRight(7) ^ x.RotateRight(18) ^ (x >> 3)
  }

  function SmallSigma1(x: Word): Word {
    x.RotateRight(17) ^ x.RotateRight(19) ^ (x >> 10)
  }

  /** A big-endian word. */
  function Load(b: Bytes): (word: Word)
    requires |b| == 4
    ensures word == (b[0] as bv32) * 0x100_0000 + (b[1] as bv32) * 0x1_0000 + (b[2] as bv32) * 0x100 + (b[3] as bv32)
  {
    ((b[0] as bv32) << 24) |
    ((b[1] as bv32) << 16) |
    ((b[2] as bv32) << 8) |
    (b[3] as bv32)
  }

  function Store(w: Word): (b: Bytes)
    ensures |b| == 4 && Load(b) == w
  {
    [((w >> 24) & 0xff) as bv8, ((w >> 16) & 0xff) as bv8, ((w >> 8) & 0xff) as bv8, (w & 0xff) as bv8]
  }

  /** Word t of the message schedule. */
  function W(block: Bytes, t: nat): Word
    requires |block| == BLOCK_SIZE && t < ROUNDS
  {
    if t < 16 then Load(block[4 * t..4 * t + 4])
    else Add(Add(Add(SmallSigma1(W(block, t - 2)), W(block, t - 7)), SmallSigma0(W(block, t - 15))), W(block, t - 16))
  }

  /** The working variables. */
  datatype Vars = Vars(a: Word, b: Word, c: Word, d: Word, e: Word, f: Word, g: Word, h: Word)

  function Round(v: Vars, k: Word, w: Word): Vars {
    var t1 := Add(Add(Add(Add(v.h, BigSigma1(v.e)), Ch(v.e, v.f, v.g)), k), w);
    var t2 := Add(BigSigma0(v.a), Maj(v.a, v.b, v.c));
    Vars(Add(t1, t2), v.a, v.b, v.c, Add(v.d, t1), v.e, v.f, v.g)
  }

  /** The working variables after t rounds. */
  function Rounds(v: Vars, block: Bytes, t: nat): Vars
    requires |block| == BLOCK_SIZE && t <= ROUNDS
  {
    if t == 0 then v else Round(Rounds(v, block, t - 1), K()[t - 1], W(block, t - 1))
  }

  function Plus(x: Vars, y: Vars): Vars {
    Vars(Add(x.a, y.a), Add(x.b, y.b), Add(x.c, y.c), Add(x.d, y.d),
         Add(x.e, y.e), Add(x.f, y.f), Add(x.g, y.g), Add(x.h, y.h))
  }

  /** The intermediate hash value after one more block. */
  function Compress(h: Vars, block: Bytes): Vars
    requires |block| == BLOCK_SIZE
  {
    Plus(h, Rounds(h, block, ROUNDS))
  }

  /** Compress, on sequences of any length. */
  function Block(h: Vars, block: Bytes): Vars {
    if |block| == BLOCK_SIZE then Compress(h, block) else h
  }
}
