/** The streaming SHA-224 and SHA-256 implementation. */
module Sha256 {
  import Memory
  import opened Bits
  import opened BlockHash
  import opened FipsSha256

  const LENGTH_FIELD := 8

  // -------------------------------------------------- word functions, as coded

  // Rotation is written out as the code's rotr does it: two shifts joined by or.

  function CodeBigSigma0(x: Word): (y: Word)
    ensures y == BigSigma0(x)
  {
    ((x >> 2) | (x << 30)) ^ ((x >> 13) | (x << 19)) ^ ((x >> 22) | (x << 10))
  }

  function CodeBigSigma1(x: Word): (y: Word)
    ensures y == BigSigma1(x)
  {
    ((x >> 6) | (x << 26)) ^ ((x >> 11) | (x << 21)) ^ ((x >> 25) | (x << 7))
  }

  function CodeSmallSigma0(x: Word): (y: Word)
    ensures y == SmallSigma0(x)
  {
    ((x >> 7) | (x << 25)) ^ ((x >> 18) | (x << 14)) ^ (x >> 3)
  }

  function CodeSmallSigma1(x: Word): (y: Word)
    ensures y == SmallSigma1(x)
  {
    ((x >> 17) | (x << 15)) ^ ((x >> 19) | (x << 13)) ^ (x >> 10)
  }

  // ------------------------------------------------------------------ context

  function AsVars(h: seq<Word>): Vars
    requires |h| == 8
  {
    Vars(h[0], h[1], h[2], h[3], h[4], h[5], h[6], h[7])
  }

  const SHA224_IV: seq<Word> := [
    0xc1059ed8, 0x367cd507, 0x3070dd17, 0xf70e5939, 0xffc00b31, 0x68581511, 0x64f98fa7, 0xbefa4fa4
  ]

  const SHA256_IV: seq<Word> := [
    0x6a09e667, 0xbb67ae85, 0x3c6ef372, 0xa54ff53a, 0x510e527f, 0x9b05688c, 0x1f83d9ab, 0x5be0cd19
  ]

  /** The specification of one update. */
  function Updated(c: Context<Vars>, data: Bytes): Context<Vars> {
    Absorb(Block, BLOCK_SIZE, WORD, c, data)
  }

  /** SHA-224 or SHA-256 of a whole message, before truncation: fold the block function over the padded message. */
  function HashOf(iv: Vars, message: Bytes): Vars {
    FoldBlocks(Block, BLOCK_SIZE, iv, Padded(BLOCK_SIZE, LENGTH_FIELD, message))
  }

  /** The first n words, stored big-endian. */
  function Digest(h: seq<Word>, n: nat): Bytes
    requires n <= |h|
  {
    if n == 0 then [] else Digest(h, n - 1) + Store(h[n - 1])
  }

  // ----------------------------------------------------------------- finishing

  /** How many bytes of {0x80, 0, 0, ...} finalize feeds. */
  function PadLength(pending: nat): nat
    requires pending < BLOCK_SIZE
  {
    if pending < 56 then 56 - pending else 64 + 56 - pending
  }

  /** The bit count, most significant byte first. */
  function LengthBytes(total: nat): Bytes {
    BigEndian(total * 8 % WORD, LENGTH_FIELD)
  }

  /** The specification of finalize. */
  function Finished(c: Context<Vars>): Context<Vars>
    requires |c.pending| < BLOCK_SIZE
  {
    Updated(Updated(c, [0x80] + Zeros(PadLength(|c.pending|) - 1)), LengthBytes(c.total))
  }

  /** The eight length bytes are the message length in bits, whatever the byte count has wrapped to. */
  lemma LengthBytesAreRight(n: nat, total: nat)
    requires total == n % WORD
    ensures LengthBytes(total) == BigEndian(8 * n, LENGTH_FIELD)
  {
    hide BigEndian, Pow256;
    PowerOf256();
    BigEndianWraps(total * 8, LENGTH_FIELD, total * 8 / WORD, total * 8 % WORD);
    var k := n / WORD;
    var bits := total * 8 % WORD;
    BigEndianWraps(8 * n, LENGTH_FIELD, 8 * k + total * 8 / WORD, bits);
  }

  lemma PowerOf256()
    ensures Pow256(LENGTH_FIELD) == WORD
  {
    assert Pow256(4) == 256 * Pow256(3) == 0x1_0000 * Pow256(2) == 0x1_0000_0000;
    assert Pow256(8) == 256 * Pow256(7) == 0x1_0000 * Pow256(6) == 0x100_0000 * Pow256(5) == 0x1_0000_0000 * Pow256(4);
  }

  /**
   * Feeding a message in any pieces and finishing gives the FIPS 180-4 hash: the block
   * function folded over the message padded as in section 5.1.1.
   */
  lemma StreamIsHash(iv: Vars, pieces: seq<Bytes>)
    ensures
      var fed := AbsorbAll(Block, BLOCK_SIZE, WORD, Context(iv, [], 0), pieces);
      && |fed.pending| < BLOCK_SIZE
      && Finished(fed).h == HashOf(iv, Concat(pieces))
      && Finished(fed).pending == []
  {
    hide Block, FoldBlocks, BigEndian, LengthBytes;
    var message := Concat(pieces);
    AnySplitIsOneUpdate(Block, BLOCK_SIZE, WORD, Context(iv, [], 0), pieces);
    var fed := AbsorbAll(Block, BLOCK_SIZE, WORD, Context(iv, [], 0), pieces);
    assert [] + message == message;
    TailLength(BLOCK_SIZE, message);
    LengthBytesAreRight(|message|, fed.total);
    FinishIsPaddedHash(Block, BLOCK_SIZE, LENGTH_FIELD, WORD, iv, message, PadLength(|fed.pending|),
                       LengthBytes(fed.total));
  }

  lemma FoldOne(h: Vars, data: Bytes)
    requires |data| >= BLOCK_SIZE
    ensures FoldBlocks(Block, BLOCK_SIZE, h, data) ==
            FoldBlocks(Block, BLOCK_SIZE, Block(h, data[..BLOCK_SIZE]), data[BLOCK_SIZE..])
    ensures Tail(BLOCK_SIZE, data) == Tail(BLOCK_SIZE, data[BLOCK_SIZE..])
  {
  }

  lemma FoldNone(h: Vars, data: Bytes)
    requires |data| < BLOCK_SIZE
    ensures FoldBlocks(Block, BLOCK_SIZE, h, data) == h && Tail(BLOCK_SIZE, data) == data
  {
  }

  /** Whole blocks in the middle of the data. */
  lemma FoldWhole(h: Vars, blocks: Bytes, rest: Bytes, count: nat)
    requires |blocks| == count * BLOCK_SIZE
    ensures FoldBlocks(Block, BLOCK_SIZE, h, blocks + rest) ==
            FoldBlocks(Block, BLOCK_SIZE, FoldBlocks(Block, BLOCK_SIZE, h, blocks), rest)
    ensures Tail(BLOCK_SIZE, blocks + rest) == Tail(BLOCK_SIZE, rest)
  {
    FoldInTwo(Block, BLOCK_SIZE, h, blocks, rest);
    TailOfMultiple(BLOCK_SIZE, blocks, count);
    assert [] + rest == rest;
  }

  lemma LengthOfLength(total: nat)
    ensures |LengthBytes(total)| == LENGTH_FIELD
  {
  }

  /** Hashing the rest from here ends as hashing all of it from there. */
  predicate SameBlocks(h: Vars, data: Bytes, h': Vars, data': Bytes) {
    && FoldBlocks(Block, BLOCK_SIZE, h', data') == FoldBlocks(Block, BLOCK_SIZE, h, data)
    && Tail(BLOCK_SIZE, data') == Tail(BLOCK_SIZE, data)
  }

  class Sha256Context {
    var h: seq<Word>
    var totalLen: nat
    const buffer: array<bv8>
    var bufferLen: nat

    /** bx_sha224_init or bx_sha256_init, by its initial value. */
    constructor (iv: seq<Word>)
      requires |iv| == 8
      ensures Valid() && fresh(buffer) && View() == Context(AsVars(iv), [], 0)
    {
      h := iv;
      totalLen := 0;
      buffer := new bv8[BLOCK_SIZE];
      bufferLen := 0;
    }

    ghost predicate Valid()
      reads this
    {
      && |h| == 8 && buffer.Length == BLOCK_SIZE && bufferLen < BLOCK_SIZE
      && totalLen < WORD
    }

    /** Everything but the stale part of the buffer. */
    ghost function View(): Context<Vars>
      reads this, buffer
      requires |h| == 8 && bufferLen <= buffer.Length
    {
      Context(AsVars(h), buffer[..bufferLen], totalLen)
    }

    /** The context is the given one, finished. */
    ghost predicate HoldsFinished(c: Context<Vars>)
      requires |c.pending| < BLOCK_SIZE
      reads this, buffer
    {
      Valid() && View() == Finished(c)
    }

    /** The message schedule. */
    static method Schedule(block: Bytes) returns (w: array<Word>)
      requires |block| == BLOCK_SIZE
      ensures fresh(w) && w.Length == ROUNDS
      ensures forall t :: 0 <= t < ROUNDS ==> w[t] == W(block, t)
    {
      hide Add, Load, SmallSigma0, SmallSigma1, CodeSmallSigma0, CodeSmallSigma1;
      w := new Word[ROUNDS];
      for i := 0 to 16
        invariant forall t :: 0 <= t < i ==> w[t] == W(block, t)
      {
        w[i] := Load(block[4 * i..4 * i + 4]);
      }
      for i := 16 to ROUNDS
        invariant forall t :: 0 <= t < i ==> w[t] == W(block, t)
      {
        w[i] := Add(Add(Add(CodeSmallSigma1(w[i - 2]), w[i - 7]), CodeSmallSigma0(w[i - 15])), w[i - 16]);
      }
    }

    /** One block into the hash value. */
    method Transform(block: Bytes)
      requires |h| == 8 && |block| == BLOCK_SIZE
      modifies this`h
      ensures |h| == 8 && AsVars(h) == Block(AsVars(old(h)), block)
    {
      hide Add, BigSigma0, BigSigma1, CodeBigSigma0, CodeBigSigma1, Ch, Maj, K, W;
      var w := Schedule(block);
      var a, b, c, d, e, f, g, hh := h[0], h[1], h[2], h[3], h[4], h[5], h[6], h[7];
      for i := 0 to ROUNDS
        invariant Vars(a, b, c, d, e, f, g, hh) == Rounds(AsVars(h), block, i)
      {
        var t1 := Add(Add(Add(Add(hh, CodeBigSigma1(e)), Ch(e, f, g)), K()[i]), w[i]);
        var t2 := Add(CodeBigSigma0(a), Maj(a, b, c));
        hh := g;
        g := f;
        f := e;
        e := Add(d, t1);
        d := c;
        c := b;
        b := a;
        a := Add(t1, t2);
      }
      h := [Add(h[0], a), Add(h[1], b), Add(h[2], c), Add(h[3], d),
            Add(h[4], e), Add(h[5], f), Add(h[6], g), Add(h[7], hh)];
    }

    /** The buffered part of update: how much of data it used. */
    method TopUp(data: Bytes) returns (offset: nat)
      requires |h| == 8 && buffer.Length == BLOCK_SIZE && bufferLen < BLOCK_SIZE
      modifies this`h, this`bufferLen, buffer
      ensures |h| == 8 && offset <= |data| && bufferLen < BLOCK_SIZE && (bufferLen > 0 ==> offset == |data|)
      ensures SameBlocks(old(AsVars(h)), old(buffer[..bufferLen]) + data,
                         AsVars(h), buffer[..bufferLen] + data[offset..])
    {
      hide AsVars, Block, Tail, FoldBlocks;
      offset := 0;
      if bufferLen > 0 {
        var take := if BLOCK_SIZE - bufferLen > |data| then |data| else BLOCK_SIZE - bufferLen;
        ghost var all := buffer[..bufferLen] + data;
        Memory.Copy(buffer, bufferLen, data[..take]);
        assert buffer[..bufferLen + take] == buffer[..bufferLen] + buffer[bufferLen..bufferLen + take];
        assert all == buffer[..bufferLen + take] + data[take..];
        bufferLen := bufferLen + take;
        offset := take;
        if bufferLen == BLOCK_SIZE {
          FoldOne(AsVars(h), all);
          assert all[..BLOCK_SIZE] == buffer[..] && all[BLOCK_SIZE..] == data[take..];
          Transform(buffer[..]);
          bufferLen := 0;
          assert buffer[..0] + data[take..] == data[take..];
        }
      } else {
        assert buffer[..bufferLen] + data[0..] == buffer[..bufferLen] + data;
      }
    }

    /** Feed data: top up the buffer, hash whole blocks straight from data, keep the rest. */
    method Update(data: Bytes)
      requires Valid() && |data| < WORD
      modifies this`h, this`totalLen, this`bufferLen, buffer
      ensures Valid() && View() == Updated(old(View()), data)
    {
      hide AsVars, Block, Tail, FoldBlocks;
      ghost var c := View();
      totalLen := (totalLen + |data|) % WORD;
      var offset := TopUp(data);
      var blockCount := (|data| - offset) / BLOCK_SIZE;
      if blockCount > 0 {
        ghost var rest := data[offset..];
        var consumed := blockCount * BLOCK_SIZE;
        assert buffer[..bufferLen] + rest == rest;
        var blocks := data[offset..offset + consumed];
        assert rest == blocks + data[offset + consumed..];
        FoldWhole(AsVars(h), blocks, data[offset + consumed..], blockCount);
        var done := AcceleratedBlocks(blocks, blockCount);
        if !done {
          TransformBlocks(blocks, blockCount);
        }
        offset := offset + consumed;
        assert buffer[..bufferLen] + data[offset..] == data[offset..];
      }
      FoldNone(AsVars(h), buffer[..bufferLen] + data[offset..]);
      if |data| - offset > 0 {
        Memory.Copy(buffer, 0, data[offset..]);
        bufferLen := |data| - offset;
      } else {
        assert buffer[..bufferLen] + data[offset..] == buffer[..bufferLen];
      }
    }

    /** The block function over count whole blocks. */
    method TransformBlocks(data: Bytes, count: nat)
      requires |h| == 8 && |data| == count * BLOCK_SIZE
      modifies this`h
      ensures |h| == 8 && AsVars(h) == FoldBlocks(Block, BLOCK_SIZE, old(AsVars(h)), data)
    {
      hide AsVars, Block, FoldBlocks;
      var rest, left := data, count;
      while left > 0
        invariant |h| == 8 && |rest| == left * BLOCK_SIZE
        invariant FoldBlocks(Block, BLOCK_SIZE, AsVars(h), rest) == FoldBlocks(Block, BLOCK_SIZE, old(AsVars(h)), data)
        decreases left
      {
        FoldOne(AsVars(h), rest);
        Transform(rest[..BLOCK_SIZE]);
        rest := rest[BLOCK_SIZE..];
        left := left - 1;
      }
      FoldNone(AsVars(h), rest);
    }

    /** The processor's SHA instructions, where there are any: the same fold, or a refusal. */
    method AcceleratedBlocks(data: Bytes, count: nat) returns (done: bool)
      requires |h| == 8 && |data| == count * BLOCK_SIZE
      modifies this`h
      ensures |h| == 8
      ensures AsVars(h) == if done then FoldBlocks(Block, BLOCK_SIZE, old(AsVars(h)), data) else old(AsVars(h))
    {
      done := *;
      if done {
        TransformBlocks(data, count);
      }
    }

    /** Feed the padding and the length. */
    method Finalize()
      requires Valid()
      modifies this`h, this`totalLen, this`bufferLen, buffer
      ensures HoldsFinished(old(View()))
    {
      hide AsVars, Block, Tail, FoldBlocks, Updated, LengthBytes;
      ghost var c := View();
      var pad: Bytes := [0x80] + Zeros(BLOCK_SIZE - 1);
      var lengthBe := LengthBytes(totalLen);
      var padLen := PadLength(bufferLen);
      assert pad[..padLen] == [0x80] + Zeros(padLen - 1);
      Update(pad[..padLen]);
      LengthOfLength(c.total);
      Update(lengthBe);
    }

    /** bx_sha224_final with seven words, bx_sha256_final with eight. */
    method Final(words: nat) returns (out: Bytes)
      requires Valid() && words <= 8
      modifies this`h, this`totalLen, this`bufferLen, buffer
      ensures HoldsFinished(old(View()))
      ensures |h| == 8 && out == Digest(h, words)
    {
      hide AsVars, Finished, Store;
      Finalize();
      out := [];
      for i := 0 to words
        invariant out == Digest(h, i)
      {
        out := out + Store(h[i]);
      }
    }
  }
}
