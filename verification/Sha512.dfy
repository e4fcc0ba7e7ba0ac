/** The streaming SHA-384 and SHA-512 implementation. */
module Sha512 {
  import Memory
  import opened Bits
  import opened BlockHash
  import opened FipsSha512

  const LENGTH_FIELD := 16
  const MODULUS := WORD * WORD

  // -------------------------------------------------- word functions, as coded

  // Rotation is written out as the code's rotr does it: two shifts joined by or.

  function CodeBigSigma0(x: Word): (y: Word)
    ensures y == BigSigma0(x)
  {
    ((x >> 28) | (x << 36)) ^ ((x >> 34) | (x << 30)) ^ ((x >> 39) | (x << 25))
  }

  function CodeBigSigma1(x: Word): (y: Word)
    ensures y == BigSigma1(x)
  {
    ((x >> 14) | (x << 50)) ^ ((x >> 18) | (x << 46)) ^ ((x >> 41) | (x << 23))
  }

  function CodeSmallSigma0(x: Word): (y: Word)
    ensures y == SmallSigma0(x)
  {
    ((x >> 1) | (x << 63)) ^ ((x >> 8) | (x << 56)) ^ (x >> 7)
  }

  function CodeSmallSigma1(x: Word): (y: Word)
    ensures y == SmallSigma1(x)
  {
    ((x >> 19) | (x << 45)) ^ ((x >> 61) | (x << 3)) ^ (x >> 6)
  }

  // ------------------------------------------------------------------ lengths

  /** bx_sha512_store_be64 of a length word. */
  function StoreNumber(value: nat): (b: Bytes)
    ensures |b| == 8
  {
    [ToByte(value / 0x100_0000_0000_0000 % 256), ToByte(value / 0x1_0000_0000_0000 % 256),
     ToByte(value / 0x100_0000_0000 % 256), ToByte(value / 0x1_0000_0000 % 256),
     ToByte(value / 0x100_0000 % 256), ToByte(value / 0x1_0000 % 256),
     ToByte(value / 0x100 % 256), ToByte(value % 256)]
  }

  lemma StoreNumberIsBigEndian(value: nat)
    ensures StoreNumber(value) == BigEndian(value, 8)
  {
    assert Pow256(0) == 1 && Pow256(1) == 0x100 && Pow256(2) == 0x1_0000 && Pow256(3) == 0x100_0000;
    assert Pow256(4) == 0x1_0000_0000 && Pow256(5) == 0x100_0000_0000;
    assert Pow256(6) == 0x1_0000_0000_0000 && Pow256(7) == 0x100_0000_0000_0000;
    hide ToByte, Pow256;
    forall i | 0 <= i < 8 ensures StoreNumber(value)[i] == BigEndian(value, 8)[i] {
      BigEndianAt(value, 8, i);
    }
  }

  // ------------------------------------------------------------------ context

  function AsVars(h: seq<Word>): Vars
    requires |h| == 8
  {
    Vars(h[0], h[1], h[2], h[3], h[4], h[5], h[6], h[7])
  }

  const SHA384_IV: seq<Word> := [
    0xcbbb9d5dc1059ed8, 0x629a292a367cd507, 0x9159015a3070dd17, 0x152fecd8f70e5939,
    0x67332667ffc00b31, 0x8eb44a8768581511, 0xdb0c2e0d64f98fa7, 0x47b5481dbefa4fa4
  ]

  const SHA512_IV: seq<Word> := [
    0x6a09e667f3bcc908, 0xbb67ae8584caa73b, 0x3c6ef372fe94f82b, 0xa54ff53a5f1d36f1,
    0x510e527fade682d1, 0x9b05688c2b3e6c1f, 0x1f83d9abfb41bd6b, 0x5be0cd19137e2179
  ]

  /** The specification of one update. */
  function Updated(c: Context<Vars>, data: Bytes): Context<Vars> {
    Absorb(Block, BLOCK_SIZE, MODULUS, c, data)
  }

  /** SHA-384 or SHA-512 of a whole message, before truncation: fold the block function over the padded message. */
  function HashOf(iv: Vars, message: Bytes): Vars {
    FoldBlocks(Block, BLOCK_SIZE, iv, Padded(BLOCK_SIZE, LENGTH_FIELD, message))
  }

  /** The first n words, stored big-endian. */
  function Digest(h: seq<Word>, n: nat): Bytes
    requires n <= |h|
  {
    if n == 0 then [] else Digest(h, n - 1) + Store(h[n - 1])
  }

  // ----------------------------------------------------------------- finishing

  /** How many bytes of {0x80, 0, 0, ...} finalize feeds. */
  function PadLength(pending: nat): nat
    requires pending < BLOCK_SIZE
  {
    if pending < 112 then 112 - pending else BLOCK_SIZE + 112 - pending
  }

  /** The bit count from the two words of the byte count. */
  function BitsHi(hi: nat, lo: nat): nat {
    BitOr(hi * 8 % WORD, lo / 0x2000_0000_0000_0000)
  }

  function BitsLo(lo: nat): nat {
    lo * 8 % WORD
  }

  function LengthBytes(hi: nat, lo: nat): Bytes {
    StoreNumber(BitsHi(hi, lo)) + StoreNumber(BitsLo(lo))
  }

  /** The specification of finalize. */
  function Finished(c: Context<Vars>): Context<Vars>
    requires |c.pending| < BLOCK_SIZE
  {
    Updated(Updated(c, [0x80] + Zeros(PadLength(|c.pending|) - 1)), LengthBytes(c.total / WORD, c.total % WORD))
  }

  lemma BitsAreEightTimesBytes(hi: nat, lo: nat)
    requires hi < WORD && lo < WORD
    ensures BitsHi(hi, lo) < WORD && BitsLo(lo) < WORD
    ensures exists q: nat :: 8 * (hi * WORD + lo) == q * MODULUS + (BitsHi(hi, lo) * WORD + BitsLo(lo))
  {
    var top, low := lo / 0x2000_0000_0000_0000, lo % 0x2000_0000_0000_0000;
    var q, rest := hi / 0x2000_0000_0000_0000, hi % 0x2000_0000_0000_0000;
    Division(lo * 8, WORD, top, 8 * low);
    Division(hi * 8, WORD, q, 8 * rest);
    assert Pow2(3) == 8;
    OrOfDisjoint(rest, top, 3);
    assert 8 * (hi * WORD + lo) == q * MODULUS + (BitsHi(hi, lo) * WORD + BitsLo(lo));
  }

  /** The sixteen length bytes are the message length in bits, whatever the byte count has wrapped to. */
  lemma LengthBytesAreRight(n: nat, hi: nat, lo: nat)
    requires hi < WORD && lo < WORD && hi * WORD + lo == n % MODULUS
    ensures LengthBytes(hi, lo) == BigEndian(8 * n, LENGTH_FIELD)
  {
    hide StoreNumber, BitsHi, BitsLo, BigEndian, Pow256;
    BitsAreEightTimesBytes(hi, lo);
    var bits := BitsHi(hi, lo) * WORD + BitsLo(lo);
    var q: nat :| 8 * (hi * WORD + lo) == q * MODULUS + bits;
    var k := n / MODULUS;
    assert n == k * MODULUS + (hi * WORD + lo);
    assert 8 * n == (8 * k + q) * MODULUS + bits;
    PowersOf256();
    StoreNumberIsBigEndian(BitsHi(hi, lo));
    StoreNumberIsBigEndian(BitsLo(lo));
    BigEndianInTwo(BitsHi(hi, lo), BitsLo(lo), 8, 8);
    BigEndianWraps(8 * n, LENGTH_FIELD, 8 * k + q, bits);
  }

  lemma PowersOf256()
    ensures Pow256(8) == WORD && Pow256(LENGTH_FIELD) == MODULUS
  {
    assert Pow256(4) == 256 * Pow256(3) == 0x1_0000 * Pow256(2) == 0x1_0000_0000;
    assert Pow256(8) == 256 * Pow256(7) == 0x1_0000 * Pow256(6) == 0x100_0000 * Pow256(5) == 0x1_0000_0000 * Pow256(4);
    assert Pow256(12) == 256 * Pow256(11) == 0x1_0000 * Pow256(10)
        == 0x100_0000 * Pow256(9) == 0x1_0000_0000 * Pow256(8);
    assert Pow256(16) == 256 * Pow256(15) == 0x1_0000 * Pow256(14)
        == 0x100_0000 * Pow256(13) == 0x1_0000_0000 * Pow256(12);
  }

  /**
   * Feeding a message in any pieces and finishing gives the FIPS 180-4 hash: the block
   * function folded over the message padded as in section 5.1.2.
   */
  lemma StreamIsHash(iv: Vars, pieces: seq<Bytes>)
    ensures
      var fed := AbsorbAll(Block, BLOCK_SIZE, MODULUS, Context(iv, [], 0), pieces);
      && |fed.pending| < BLOCK_SIZE
      && Finished(fed).h == HashOf(iv, Concat(pieces))
      && Finished(fed).pending == []
  {
    hide Block, FoldBlocks, BigEndian, LengthBytes;
    var message := Concat(pieces);
    AnySplitIsOneUpdate(Block, BLOCK_SIZE, MODULUS, Context(iv, [], 0), pieces);
    var fed := AbsorbAll(Block, BLOCK_SIZE, MODULUS, Context(iv, [], 0), pieces);
    assert [] + message == message;
    TailLength(BLOCK_SIZE, message);
    assert fed.total == |message| % MODULUS;
    assert fed.total == fed.total / WORD * WORD + fed.total % WORD;
    LengthBytesAreRight(|message|, fed.total / WORD, fed.total % WORD);
    FinishIsPaddedHash(Block, BLOCK_SIZE, LENGTH_FIELD, MODULUS, iv, message, PadLength(|fed.pending|),
                       LengthBytes(fed.total / WORD, fed.total % WORD));
  }

  lemma FoldOne(h: Vars, data: Bytes)
    requires |data| >= BLOCK_SIZE
    ensures FoldBlocks(Block, BLOCK_SIZE, h, data) ==
            FoldBlocks(Block, BLOCK_SIZE, Block(h, data[..BLOCK_SIZE]), data[BLOCK_SIZE..])
    ensures Tail(BLOCK_SIZE, data) == Tail(BLOCK_SIZE, data[BLOCK_SIZE..])
  {
  }

  lemma FoldNone(h: Vars, data: Bytes)
    requires |data| < BLOCK_SIZE
    ensures FoldBlocks(Block, BLOCK_SIZE, h, data) == h && Tail(BLOCK_SIZE, data) == data
  {
  }

  lemma LengthOfLength(hi: nat, lo: nat)
    ensures |LengthBytes(hi, lo)| == LENGTH_FIELD
  {
  }

  /** The carry test is right: both words together count modulo 2^128. */
  lemma Carry(hi: nat, lo: nat, len: nat)
    requires hi < WORD && lo < WORD && len < WORD
    ensures (hi * WORD + lo + len) % MODULUS ==
      if lo + len < WORD then hi * WORD + lo + len
      else if hi + 1 < WORD then (hi + 1) * WORD + (lo + len - WORD)
      else lo + len - WORD
  {
    var sum := hi * WORD + lo + len;
    if sum < MODULUS {
      Division(sum, MODULUS, 0, sum);
    } else {
      Division(sum, MODULUS, 1, sum - MODULUS);
    }
  }

  /** Hashing the rest from here ends as hashing all of it from there. */
  predicate SameBlocks(h: Vars, data: Bytes, h': Vars, data': Bytes) {
    && FoldBlocks(Block, BLOCK_SIZE, h', data') == FoldBlocks(Block, BLOCK_SIZE, h, data)
    && Tail(BLOCK_SIZE, data') == Tail(BLOCK_SIZE, data)
  }

  class Sha512Context {
    var h: seq<Word>
    var totalLenHi: nat
    var totalLenLo: nat
    const buffer: array<bv8>
    var bufferLen: nat

    /** bx_sha384_init or bx_sha512_init, by its initial value. */
    constructor (iv: seq<Word>)
      requires |iv| == 8
      ensures Valid() && fresh(buffer) && View() == Context(AsVars(iv), [], 0)
    {
      h := iv;
      totalLenHi, totalLenLo := 0, 0;
      buffer := new bv8[BLOCK_SIZE];
      bufferLen := 0;
    }

    ghost predicate Valid()
      reads this
    {
      && |h| == 8 && buffer.Length == BLOCK_SIZE && bufferLen < BLOCK_SIZE
      && totalLenHi < WORD && totalLenLo < WORD
    }

    /** Everything but the stale part of the buffer. */
    ghost function View(): Context<Vars>
      reads this, buffer
      requires |h| == 8 && bufferLen <= buffer.Length
    {
      Context(AsVars(h), buffer[..bufferLen], totalLenHi * WORD + totalLenLo)
    }

    /** The context is the given one, finished. */
    ghost predicate HoldsFinished(c: Context<Vars>)
      requires |c.pending| < BLOCK_SIZE
      reads this, buffer
    {
      Valid() && View() == Finished(c)
    }

    /** The message schedule. */
    static method Schedule(block: Bytes) returns (w: array<Word>)
      requires |block| == BLOCK_SIZE
      ensures fresh(w) && w.Length == ROUNDS
      ensures forall t :: 0 <= t < ROUNDS ==> w[t] == W(block, t)
    {
      hide Add, Load, SmallSigma0, SmallSigma1, CodeSmallSigma0, CodeSmallSigma1;
      w := new Word[ROUNDS];
      for i := 0 to 16
        invariant forall t :: 0 <= t < i ==> w[t] == W(block, t)
      {
        w[i] := Load(block[8 * i..8 * i + 8]);
      }
      for i := 16 to ROUNDS
        invariant forall t :: 0 <= t < i ==> w[t] == W(block, t)
      {
        w[i] := Add(Add(Add(CodeSmallSigma1(w[i - 2]), w[i - 7]), CodeSmallSigma0(w[i - 15])), w[i - 16]);
      }
    }

    /** One block into the hash value. */
    method Transform(block: Bytes)
      requires |h| == 8 && |block| == BLOCK_SIZE
      modifies this`h
      ensures |h| == 8 && AsVars(h) == Block(AsVars(old(h)), block)
    {
      hide Add, BigSigma0, BigSigma1, CodeBigSigma0, CodeBigSigma1, Ch, Maj, K, W;
      var w := Schedule(block);
      var a, b, c, d, e, f, g, hh := h[0], h[1], h[2], h[3], h[4], h[5], h[6], h[7];
      for i := 0 to ROUNDS
        invariant Vars(a, b, c, d, e, f, g, hh) == Rounds(AsVars(h), block, i)
      {
        var t1 := Add(Add(Add(Add(hh, CodeBigSigma1(e)), Ch(e, f, g)), K()[i]), w[i]);
        var t2 := Add(CodeBigSigma0(a), Maj(a, b, c));
        hh := g;
        g := f;
        f := e;
        e := Add(d, t1);
        d := c;
        c := b;
        b := a;
        a := Add(t1, t2);
      }
      h := [Add(h[0], a), Add(h[1], b), Add(h[2], c), Add(h[3], d),
            Add(h[4], e), Add(h[5], f), Add(h[6], g), Add(h[7], hh)];
    }

    /** The 128-bit byte count, as two words with a carry. */
    method AddLen(len: nat)
      requires totalLenHi < WORD && totalLenLo < WORD && len < WORD
      modifies this`totalLenHi, this`totalLenLo
      ensures totalLenHi < WORD && totalLenLo < WORD
      ensures totalLenHi * WORD + totalLenLo == (old(totalLenHi) * WORD + old(totalLenLo) + len) % MODULUS
    {
      var prevLo := totalLenLo;
      Carry(totalLenHi, totalLenLo, len);
      totalLenLo := if totalLenLo + len < WORD then totalLenLo + len else totalLenLo + len - WORD;
      if totalLenLo < prevLo {
        totalLenHi := if totalLenHi + 1 < WORD then totalLenHi + 1 else 0;
      }
    }

    /** The buffered part of update: how much of data it used. */
    method TopUp(data: Bytes) returns (offset: nat)
      requires |h| == 8 && buffer.Length == BLOCK_SIZE && bufferLen < BLOCK_SIZE
      modifies this`h, this`bufferLen, buffer
      ensures |h| == 8 && offset <= |data| && bufferLen < BLOCK_SIZE && (bufferLen > 0 ==> offset == |data|)
      ensures SameBlocks(old(AsVars(h)), old(buffer[..bufferLen]) + data,
                         AsVars(h), buffer[..bufferLen] + data[offset..])
    {
      hide AsVars, Block, Tail, FoldBlocks;
      offset := 0;
      if bufferLen > 0 {
        var take := if BLOCK_SIZE - bufferLen > |data| then |data| else BLOCK_SIZE - bufferLen;
        ghost var all := buffer[..bufferLen] + data;
        Memory.Copy(buffer, bufferLen, data[..take]);
        assert buffer[..bufferLen + take] == buffer[..bufferLen] + buffer[bufferLen..bufferLen + take];
        assert all == buffer[..bufferLen + take] + data[take..];
        bufferLen := bufferLen + take;
        offset := take;
        if bufferLen == BLOCK_SIZE {
          FoldOne(AsVars(h), all);
          assert all[..BLOCK_SIZE] == buffer[..] && all[BLOCK_SIZE..] == data[take..];
          Transform(buffer[..]);
          bufferLen := 0;
          assert buffer[..0] + data[take..] == data[take..];
        }
      } else {
        assert buffer[..bufferLen] + data[0..] == buffer[..bufferLen] + data;
      }
    }

    /** Feed data: top up the buffer, hash whole blocks straight from data, keep the rest. */
    method Update(data: Bytes)
      requires Valid() && |data| < WORD
      modifies this`h, this`totalLenHi, this`totalLenLo, this`bufferLen, buffer
      ensures Valid() && View() == Updated(old(View()), data)
    {
      hide AsVars, Block, Tail, FoldBlocks;
      ghost var c := View();
      AddLen(|data|);
      var offset := TopUp(data);
      while |data| - offset >= BLOCK_SIZE
        invariant |h| == 8 && buffer.Length == BLOCK_SIZE && offset <= |data|
        invariant bufferLen < BLOCK_SIZE && (bufferLen > 0 ==> offset == |data|)
        invariant FoldBlocks(Block, BLOCK_SIZE, AsVars(h), buffer[..bufferLen] + data[offset..]) ==
                  FoldBlocks(Block, BLOCK_SIZE, c.h, c.pending + data)
        invariant Tail(BLOCK_SIZE, buffer[..bufferLen] + data[offset..]) == Tail(BLOCK_SIZE, c.pending + data)
        decreases |data| - offset
        modifies this`h
      {
        assert buffer[..bufferLen] + data[offset..] == data[offset..];
        FoldOne(AsVars(h), data[offset..]);
        assert data[offset..][..BLOCK_SIZE] == data[offset..offset + BLOCK_SIZE];
        assert data[offset..][BLOCK_SIZE..] == data[offset + BLOCK_SIZE..];
        Transform(data[offset..offset + BLOCK_SIZE]);
        offset := offset + BLOCK_SIZE;
        assert buffer[..bufferLen] + data[offset..] == data[offset..];
      }
      FoldNone(AsVars(h), buffer[..bufferLen] + data[offset..]);
      if |data| - offset > 0 {
        Memory.Copy(buffer, 0, data[offset..]);
        bufferLen := |data| - offset;
      } else {
        assert buffer[..bufferLen] + data[offset..] == buffer[..bufferLen];
      }
    }

    /** Feed the padding and the length. */
    method Finalize()
      requires Valid()
      modifies this`h, this`totalLenHi, this`totalLenLo, this`bufferLen, buffer
      ensures HoldsFinished(old(View()))
    {
      hide AsVars, Block, Tail, FoldBlocks, Updated, LengthBytes;
      ghost var c := View();
      var pad: Bytes := [0x80] + Zeros(BLOCK_SIZE - 1);
      Division(c.total, WORD, totalLenHi, totalLenLo);
      var lengthBe := LengthBytes(totalLenHi, totalLenLo);
      var padLen := PadLength(bufferLen);
      assert pad[..padLen] == [0x80] + Zeros(padLen - 1);
      Update(pad[..padLen]);
      LengthOfLength(c.total / WORD, c.total % WORD);
      Update(lengthBe);
    }

    static method StoreWords(h: seq<Word>, words: nat) returns (out: Bytes)
      requires words <= |h|
      ensures out == Digest(h, words)
    {
      hide Store;
      out := [];
      for i := 0 to words
        invariant out == Digest(h, i)
      {
        out := out + Store(h[i]);
      }
    }

    /** bx_sha384_final with six words, bx_sha512_final with eight. */
    method Final(words: nat) returns (out: Bytes)
      requires Valid() && words <= 8
      modifies this`h, this`totalLenHi, this`totalLenLo, this`bufferLen, buffer
      ensures HoldsFinished(old(View()))
      ensures |h| == 8 && out == Digest(h, words)
    {
      hide AsVars, Finished, Digest;
      Finalize();
      out := StoreWords(h, words);
    }
  }
}
