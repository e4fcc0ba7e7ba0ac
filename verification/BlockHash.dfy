/**
 * What SHA-256 and SHA-512 share: messages are folded block by block, a context that is
 * fed in pieces, and the padding of sections 5.1.1 and 5.1.2 of FIPS 180-4.
 */
module BlockHash {
  import opened Bits

  type Bytes = seq<bv8>

  /** Fold f over the complete blocks of data. */
  function FoldBlocks<H>(f: (H, Bytes) -> H, size: nat, h: H, data: Bytes): H
    requires 0 < size
    decreases |data|
  {
    if |data| < size then h else FoldBlocks(f, size, f(h, data[..size]), data[size..])
  }

  /** What is left of data after its complete blocks. */
  function Tail(size: nat, data: Bytes): (tail: Bytes)
    requires 0 < size
    ensures |tail| < size
    decreases |data|
  {
    if |data| < size then data else Tail(size, data[size..])
  }

  /** The hash so far, the bytes that wait for a complete block, and the byte count. */
  datatype Context<H> = Context(h: H, pending: Bytes, total: nat)

  /** The context after more data, in one piece. */
  function Absorb<H>(f: (H, Bytes) -> H, size: nat, modulus: nat, c: Context<H>, data: Bytes): Context<H>
    requires 0 < size && 0 < modulus
  {
    Context(FoldBlocks(f, size, c.h, c.pending + data), Tail(size, c.pending + data), (c.total + |data|) % modulus)
  }

  function AbsorbAll<H>(f: (H, Bytes) -> H, size: nat, modulus: nat, c: Context<H>, pieces: seq<Bytes>): Context<H>
    requires 0 < size && 0 < modulus
    decreases |pieces|
  {
    if pieces == [] then c
    else AbsorbAll(f, size, modulus, Absorb(f, size, modulus, c, pieces[0]), pieces[1..])
  }

  function Concat(pieces: seq<Bytes>): Bytes {
    if pieces == [] then [] else pieces[0] + Concat(pieces[1..])
  }

  /** Bytes that do not fill a block wait in front of what comes next. */
  lemma {:induction false} FoldInTwo<H>(f: (H, Bytes) -> H, size: nat, h: H, a: Bytes, b: Bytes)
    requires 0 < size
    ensures FoldBlocks(f, size, FoldBlocks(f, size, h, a), Tail(size, a) + b) == FoldBlocks(f, size, h, a + b)
    ensures Tail(size, Tail(size, a) + b) == Tail(size, a + b)
    decreases |a|
  {
    if |a| >= size {
      assert (a + b)[..size] == a[..size] && (a + b)[size..] == a[size..] + b;
      FoldInTwo(f, size, f(h, a[..size]), a[size..], b);
    }
  }

  /** Two updates are one update with the pieces joined. */
  lemma AbsorbInTwo<H>(f: (H, Bytes) -> H, size: nat, modulus: nat, c: Context<H>, a: Bytes, b: Bytes)
    requires 0 < size && 0 < modulus
    ensures Absorb(f, size, modulus, Absorb(f, size, modulus, c, a), b) == Absorb(f, size, modulus, c, a + b)
  {
    hide FoldBlocks, Tail;
    var first, joined := c.pending + a, c.pending + (a + b);
    assert first + b == joined;
    FoldInTwo(f, size, c.h, first, b);
    TotalInTwo(c.total, |a|, |b|, modulus);
  }

  lemma TotalInTwo(total: nat, a: nat, b: nat, m: nat)
    requires 0 < m
    ensures ((total + a) % m + b) % m == (total + (a + b)) % m
  {
    AddModTwice(total + a, b, m);
  }

  lemma AddModTwice(x: nat, y: nat, m: nat)
    requires 0 < m
    ensures (x % m + y) % m == (x + y) % m
  {
    var q, r := (x % m + y) / m, (x % m + y) % m;
    assert x + y == (x / m + q) * m + r by {
      assert x == x / m * m + x % m;
      assert x % m + y == q * m + r;
      assert (x / m + q) * m == x / m * m + q * m;
    }
    Division(x + y, m, x / m + q, r);
  }

  /** However a message is cut into pieces, feeding them one by one ends in the same context. */
  lemma {:induction false} AnySplitIsOneUpdate<H>(
    f: (H, Bytes) -> H, size: nat, modulus: nat, c: Context<H>, pieces: seq<Bytes>)
    requires 0 < size && 0 < modulus && |c.pending| < size && c.total < modulus
    ensures AbsorbAll(f, size, modulus, c, pieces) == Absorb(f, size, modulus, c, Concat(pieces))
    decreases |pieces|
  {
    if pieces == [] {
      assert c.pending + [] == c.pending;
      Division(c.total, modulus, 0, c.total);
    } else {
      AnySplitIsOneUpdate(f, size, modulus, Absorb(f, size, modulus, c, pieces[0]), pieces[1..]);
      AbsorbInTwo(f, size, modulus, c, pieces[0], Concat(pieces[1..]));
    }
  }

  // ------------------------------------------------------------------ padding

  function ToByte(n: nat): bv8
    requires n < 256
  {
    n as bv8
  }

  /** n as k bytes, most significant first. */
  function BigEndian(n: nat, k: nat): (bytes: Bytes)
    ensures |bytes| == k
  {
    if k == 0 then [] else BigEndian(n / 256, k - 1) + [ToByte(n % 256)]
  }

  function Zeros(k: nat): (bytes: Bytes)
    ensures |bytes| == k
  {
    seq(k, _ => 0)
  }

  /** The number of zero bytes: the least that lets the length field end a block. */
  function ZeroCount(size: nat, field: nat, n: nat): nat
    requires 0 < size && field < size
  {
    var used := n % size + 1 + field;
    if used <= size then size - used else 2 * size - used
  }

  /** The byte 0x80, zeros, and the message length in bits. */
  function Padding(size: nat, field: nat, n: nat): Bytes
    requires 0 < size && field < size
  {
    [0x80] + Zeros(ZeroCount(size, field, n)) + BigEndian(8 * n, field)
  }

  function Padded(size: nat, field: nat, message: Bytes): Bytes
    requires 0 < size && field < size
  {
    message + Padding(size, field, |message|)
  }

  lemma PaddedLength(size: nat, field: nat, n: nat) returns (blocks: nat)
    requires 0 < size && field < size
    ensures n + 1 + ZeroCount(size, field, n) + field == blocks * size
  {
    var q, r := n / size, n % size;
    var k := if r + 1 + field <= size then 1 else 2;
    blocks := q + k;
    assert n == q * size + r;
    assert (q + k) * size == q * size + k * size;
  }

  /** A padded message is made of complete blocks. */
  lemma PaddedIsWhole(size: nat, field: nat, message: Bytes)
    requires 0 < size && field < size
    ensures Tail(size, Padded(size, field, message)) == []
  {
    hide ZeroCount, Tail;
    var blocks := PaddedLength(size, field, |message|);
    TailOfMultiple(size, Padded(size, field, message), blocks);
  }

  lemma {:induction false} TailOfMultiple(size: nat, data: Bytes, k: nat)
    requires 0 < size && |data| == k * size
    ensures Tail(size, data) == []
  {
    if k > 0 {
      assert (k - 1) * size == k * size - size;
      TailOfMultiple(size, data[size..], k - 1);
    }
  }

  lemma {:induction false} TailLength(size: nat, data: Bytes)
    requires 0 < size
    ensures |Tail(size, data)| == |data| % size
    decreases |data|
  {
    if |data| < size {
      Division(|data|, size, 0, |data|);
    } else {
      TailLength(size, data[size..]);
      var q, r := |data[size..]| / size, |data[size..]| % size;
      assert |data| == (q + 1) * size + r by {
        assert |data[size..]| == q * size + r;
        assert (q + 1) * size == q * size + size;
      }
      Division(|data|, size, q + 1, r);
    }
  }

  lemma LowByte(hi: nat, lo: nat, p: nat)
    requires lo < 256 * p
    ensures (hi * (256 * p) + lo) / 256 == hi * p + lo / 256
    ensures (hi * (256 * p) + lo) % 256 == lo % 256
    ensures lo / 256 < p
  {
    assert hi * (256 * p) == (hi * p) * 256;
    Division(hi * (256 * p) + lo, 256, hi * p + lo / 256, lo % 256);
  }

  /** Splitting a number into its top bytes and its low k bytes. */
  lemma {:induction false} BigEndianInTwo(hi: nat, lo: nat, j: nat, k: nat)
    requires lo < Pow256(k)
    ensures BigEndian(hi * Pow256(k) + lo, j + k) == BigEndian(hi, j) + BigEndian(lo, k)
    decreases k
  {
    if k > 0 {
      var p := Pow256(k - 1);
      LowByte(hi, lo, p);
      BigEndianInTwo(hi, lo / 256, j, k - 1);
    } else {
      assert BigEndian(lo, 0) == [];
    }
  }

  function Pow256(k: nat): (p: nat)
    ensures 0 < p
  {
    if k == 0 then 1 else 256 * Pow256(k - 1)
  }

  /** Byte i of a number. */
  lemma {:induction false} BigEndianAt(n: nat, k: nat, i: nat)
    requires i < k
    ensures BigEndian(n, k)[i] == ToByte(n / Pow256(k - 1 - i) % 256)
  {
    if i < k - 1 {
      BigEndianAt(n / 256, k - 1, i);
      DivideTwice(n, 256, Pow256(k - 2 - i));
    }
  }

  /** Only the low k bytes of a number show in k bytes. */
  lemma {:induction false} BigEndianWraps(n: nat, k: nat, q: nat, m: nat)
    requires n == q * Pow256(k) + m && m < Pow256(k)
    ensures BigEndian(m, k) == BigEndian(n, k)
    decreases k
  {
    if k > 0 {
      LowByte(q, m, Pow256(k - 1));
      BigEndianWraps(n / 256, k - 1, q, m / 256);
    }
  }

  /**
   * Finishing a context: the zero padding the code computes from the pending bytes, then the
   * length, gives the fold over the padded message, whatever the running total has wrapped to.
   */
  lemma FinishIsPaddedHash<H>(f: (H, Bytes) -> H, size: nat, field: nat, modulus: nat, iv: H, message: Bytes,
                              padLength: nat, length: Bytes)
    requires 0 < size && field < size && 0 < modulus
    requires padLength == ZeroCount(size, field, |message|) + 1
    requires length == BigEndian(8 * |message|, field)
    ensures
      var c := Absorb(f, size, modulus, Context(iv, [], 0), message);
      var d := Absorb(f, size, modulus, Absorb(f, size, modulus, c, [0x80] + Zeros(padLength - 1)), length);
      d.h == FoldBlocks(f, size, iv, Padded(size, field, message)) && d.pending == []
  {
    var pad := [0x80] + Zeros(padLength - 1);
    var start := Context(iv, [], 0);
    var c := Absorb(f, size, modulus, start, message);
    AbsorbInTwo(f, size, modulus, c, pad, length);
    AbsorbInTwo(f, size, modulus, start, message, pad + length);
    assert [] + (message + (pad + length)) == Padded(size, field, message);
    PaddedIsWhole(size, field, message);
  }
}
