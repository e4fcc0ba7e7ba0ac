/** Base64 encoding and strict decoding. */
module Base64 {
  import opened Bits
  import opened CTypes
  import opened Wrappers

  type Bytes = seq<Octet>

  const PAD: Octet := 61 // '='

  // ------------------------------------------- section 4 of RFC 4648, by 24-bit groups

  /** Entry v of the alphabet table: A to Z, a to z, 0 to 9, + and /. */
  function Char(v: int): (ch: Octet)
    requires 0 <= v < 64
  {
    if v < 26 then 65 + v else if v < 52 then 97 + (v - 26) else if v < 62 then 48 + (v - 52)
    else if v == 62 then 43 else 47
  }

  /** bx_base64_decode_value; -1 for a character outside the alphabet. */
  function Value(ch: Octet): (v: int)
    ensures -1 <= v < 64
  {
    if 65 <= ch <= 90 then ch - 65
    else if 97 <= ch <= 122 then ch - 97 + 26
    else if 48 <= ch <= 57 then ch - 48 + 52
    else if ch == 43 then 62
    else if ch == 47 then 63
    else -1
  }

  /** Characters and values correspond one to one, and '=' is no value. */
  lemma CharsAndValues()
    ensures forall v :: 0 <= v < 64 ==> Value(Char(v)) == v
    ensures forall ch: Octet :: 0 <= Value(ch) ==> Char(Value(ch)) == ch
    ensures Value(PAD) == -1
  {
  }

  /** The four characters of the 24-bit group n. */
  function Quad(n: int): (q: Bytes)
    requires 0 <= n < 0x100_0000
    ensures |q| == 4
  {
    [Char(n / 0x4_0000), Char(n / 0x1000 % 64), Char(n / 64 % 64), Char(n % 64)]
  }

  /** The three bytes of the 24-bit group n. */
  function Triple(n: int): (t: Bytes)
    requires 0 <= n < 0x100_0000
    ensures |t| == 3
  {
    [n / 0x1_0000, n / 256 % 256, n % 256]
  }

  function Group(a: int, b: int, c: int): (n: int)
    requires 0 <= a < 256 && 0 <= b < 256 && 0 <= c < 256
    ensures 0 <= n < 0x100_0000
  {
    a * 0x1_0000 + b * 256 + c
  }

  function Group4(a: int, b: int, c: int, d: int): (n: int)
    requires 0 <= a < 64 && 0 <= b < 64 && 0 <= c < 64 && 0 <= d < 64
    ensures 0 <= n < 0x100_0000
  {
    a * 0x4_0000 + b * 0x1000 + c * 64 + d
  }

  function Encoded(x: Bytes): Bytes {
    if x == [] then []
    else if |x| == 1 then Quad(Group(x[0], 0, 0))[..2] + [PAD, PAD]
    else if |x| == 2 then Quad(Group(x[0], x[1], 0))[..3] + [PAD]
    else Quad(Group(x[0], x[1], x[2])) + Encoded(x[3..])
  }

  /** Four characters of the alphabet. */
  predicate IsQuad(s: Bytes) {
    |s| == 4 && forall i :: 0 <= i < 4 ==> 0 <= Value(s[i])
  }

  function QuadBytes(s: Bytes): (t: Bytes)
    requires IsQuad(s)
    ensures |t| == 3
  {
    Triple(Group4(Value(s[0]), Value(s[1]), Value(s[2]), Value(s[3])))
  }

  /** What the last four characters stand for; low bits that fill no byte are dropped. */
  function LastQuad(s: Bytes): Option<Bytes>
    requires |s| == 4
  {
    if IsQuad(s) then Some(QuadBytes(s))
    else if Value(s[0]) < 0 || Value(s[1]) < 0 || s[3] != PAD then None
    else if 0 <= Value(s[2]) then Some(Triple(Group4(Value(s[0]), Value(s[1]), Value(s[2]), 0))[..2])
    else if s[2] == PAD then Some(Triple(Group4(Value(s[0]), Value(s[1]), 0, 0))[..1])
    else None
  }

  function Decoded(s: Bytes): Option<Bytes> {
    if s == [] then Some([])
    else if |s| < 4 then None
    else if |s| == 4 then LastQuad(s)
    else if !IsQuad(s[..4]) then None
    else match Decoded(s[4..])
      case None => None
      case Some(rest) => Some(QuadBytes(s[..4]) + rest)
  }

  /** The strings of section 4: whole quads, at most two '=' and only at the very end. */
  ghost predicate IsBase64(s: Bytes) {
    && |s| % 4 == 0
    && exists pad :: PaddedBy(s, pad)
  }

  predicate PaddedBy(s: Bytes, pad: nat) {
    && pad <= 2 && pad <= |s|
    && (forall i :: 0 <= i < |s| - pad ==> 0 <= Value(s[i]))
    && (forall i :: |s| - pad <= i < |s| ==> s[i] == PAD)
  }

  // ------------------------------------------------------------------ round trip

  lemma QuadRoundTrip(n: int)
    requires 0 <= n < 0x100_0000
    ensures IsQuad(Quad(n)) && QuadBytes(Quad(n)) == Triple(n)
  {
    CharsAndValues();
    var q := Quad(n);
    assert Value(q[0]) == n / 0x4_0000 && Value(q[1]) == n / 0x1000 % 64;
    assert Value(q[2]) == n / 64 % 64 && Value(q[3]) == n % 64;
    SplitGroup(n);
  }

  lemma SplitGroup(n: int)
    requires 0 <= n < 0x100_0000
    ensures Group4(n / 0x4_0000, n / 0x1000 % 64, n / 64 % 64, n % 64) == n
  {
    var a, b := n / 64, n / 0x1000;
    assert n == a * 64 + n % 64;
    assert a / 64 == b && a == b * 64 + a % 64;
    assert b / 64 == n / 0x4_0000;
  }

  lemma TripleOfGroup(a: int, b: int, c: int)
    requires 0 <= a < 256 && 0 <= b < 256 && 0 <= c < 256
    ensures Triple(Group(a, b, c)) == [a, b, c]
  {
    var n := Group(a, b, c);
    Division(n, 0x1_0000, a, b * 256 + c);
    Division(n, 256, a * 256 + b, c);
    Division(a * 256 + b, 256, a, b);
  }

  lemma {:induction false} RoundTrip(x: Bytes)
    ensures Decoded(Encoded(x)) == Some(x)
    decreases |x|
  {
    if |x| >= 3 {
      RoundTrip(x[3..]);
      var q := Quad(Group(x[0], x[1], x[2]));
      QuadRoundTrip(Group(x[0], x[1], x[2]));
      TripleOfGroup(x[0], x[1], x[2]);
      var e := Encoded(x);
      assert e[..4] == q && e[4..] == Encoded(x[3..]);
      if x[3..] == [] {
        assert e == q && x == [x[0], x[1], x[2]];
      } else {
        EncodedNotEmpty(x[3..]);
        assert x == [x[0], x[1], x[2]] + x[3..];
      }
    } else if |x| == 2 {
      TwoRoundTrip(x[0], x[1]);
      assert x == [x[0], x[1]];
    } else if |x| == 1 {
      OneRoundTrip(x[0]);
      assert x == [x[0]];
    }
  }

  lemma EncodedNotEmpty(x: Bytes)
    requires x != []
    ensures |Encoded(x)| >= 4
  {
  }

  lemma TwoRoundTrip(a: int, b: int)
    requires 0 <= a < 256 && 0 <= b < 256
    ensures LastQuad(Quad(Group(a, b, 0))[..3] + [PAD]) == Some([a, b])
  {
    CharsAndValues();
    var n := Group(a, b, 0);
    SplitGroup(n);
    Division(n, 64, a * 1024 + b * 4, 0);
    TripleOfGroup(a, b, 0);
    hide Group, Group4, Triple, Value, Char;
    var q := Quad(n)[..3] + [PAD];
    assert Value(q[0]) == n / 0x4_0000 && Value(q[1]) == n / 0x1000 % 64 && Value(q[2]) == n / 64 % 64;
    assert !IsQuad(q) by {
      assert Value(q[3]) == -1;
    }
    assert [a, b, 0][..2] == [a, b];
  }

  lemma OneRoundTrip(a: int)
    requires 0 <= a < 256
    ensures LastQuad(Quad(Group(a, 0, 0))[..2] + [PAD, PAD]) == Some([a])
  {
    CharsAndValues();
    var n := Group(a, 0, 0);
    SplitGroup(n);
    Division(n, 64, a * 1024, 0);
    Division(a * 1024, 64, a * 16, 0);
    TripleOfGroup(a, 0, 0);
    hide Group, Group4, Triple, Value, Char;
    var q := Quad(n)[..2] + [PAD, PAD];
    assert Value(q[0]) == n / 0x4_0000 && Value(q[1]) == n / 0x1000 % 64;
    assert Value(q[2]) == -1;
    assert !IsQuad(q);
    assert [a, 0, 0][..1] == [a];
  }

  lemma PaddedTail(s: Bytes, pad: nat)
    requires |s| > 4 && |s| % 4 == 0
    ensures PaddedBy(s, pad) <==> IsQuad(s[..4]) && PaddedBy(s[4..], pad)
  {
    if PaddedBy(s[4..], pad) && IsQuad(s[..4]) {
      forall i | 0 <= i < |s| - pad ensures 0 <= Value(s[i]) {
        assert i < 4 ==> s[..4][i] == s[i];
        assert i >= 4 ==> s[4..][i - 4] == s[i];
      }
      forall i | |s| - pad <= i < |s| ensures s[i] == PAD {
        assert s[4..][i - 4] == s[i];
      }
    }
  }

  /** The decoder accepts exactly the strings of section 4. */
  lemma {:induction false} AcceptsExactlyBase64(s: Bytes)
    ensures Decoded(s).Some? <==> IsBase64(s)
    decreases |s|
  {
    if s == [] {
      assert PaddedBy(s, 0);
    } else if |s| == 4 {
      LastQuadIsBase64(s);
    } else if |s| > 4 && |s| % 4 == 0 {
      AcceptsExactlyBase64(s[4..]);
      hide PaddedBy, IsQuad;
      forall pad: nat ensures PaddedBy(s, pad) <==> IsQuad(s[..4]) && PaddedBy(s[4..], pad) {
        PaddedTail(s, pad);
      }
    } else {
      OddLengthIsRefused(s);
    }
  }

  lemma {:induction false} OddLengthIsRefused(s: Bytes)
    requires |s| % 4 != 0
    ensures Decoded(s) == None
    decreases |s|
  {
    hide QuadBytes, IsQuad, LastQuad;
    if |s| > 4 {
      OddLengthIsRefused(s[4..]);
    }
  }

  lemma LastQuadIsBase64(s: Bytes)
    requires |s| == 4
    ensures LastQuad(s).Some? <==> IsBase64(s)
  {
    CharsAndValues();
    if LastQuad(s).Some? {
      assert PaddedBy(s, if IsQuad(s) then 0 else if s[2] == PAD then 2 else 1);
    }
  }

  // ------------------------------------------------------------------- encoding

  /** bx_base64_encoded_size; SIZE_MAX when the size does not fit. */
  function EncodedSize(n: nat): nat {
    if n > SIZE_MAX - 2 then SIZE_MAX
    else if (n + 2) / 3 > SIZE_MAX / 4 then SIZE_MAX
    else (n + 2) / 3 * 4
  }

  lemma {:induction false} EncodedLength(x: Bytes)
    ensures |Encoded(x)| == (|x| + 2) / 3 * 4
    decreases |x|
  {
    hide Quad, Group;
    if |x| >= 3 {
      EncodedLength(x[3..]);
      assert (|x| + 2) / 3 == (|x[3..]| + 2) / 3 + 1;
    }
  }

  /** The four table indexes, with the shifts, masks and ors of the code. */
  function Indexes(a: int, b: int, c: int): (q: seq<int>)
    requires 0 <= a < 256 && 0 <= b < 256 && 0 <= c < 256
    ensures |q| == 4
  {
    [a / 4, BitOr(a % 4 * 16, b / 16), BitOr(b % 16 * 4, c / 64), c % 64]
  }

  /** Those indexes are the four six-bit values of the 24-bit group. */
  lemma IndexesAreSextets(a: int, b: int, c: int)
    requires 0 <= a < 256 && 0 <= b < 256 && 0 <= c < 256
    ensures var n := Group(a, b, c);
      Indexes(a, b, c) == [n / 0x4_0000, n / 0x1000 % 64, n / 64 % 64, n % 64]
  {
    hide BitOr, Group;
    OrIsSum(a % 4, b / 16, b % 16, c / 64);
    SextetsOfGroup(a, b, c);
  }

  lemma OrIsSum(high: int, low: int, high': int, low': int)
    requires 0 <= high < 4 && 0 <= low < 16 && 0 <= high' < 16 && 0 <= low' < 4
    ensures BitOr(high * 16, low) == high * 16 + low && BitOr(high' * 4, low') == high' * 4 + low'
  {
    assert Pow2(4) == 2 * Pow2(3) == 4 * Pow2(2) == 16 && Pow2(2) == 2 * Pow2(1) == 4;
    OrOfDisjoint(high, low, 4);
    OrOfDisjoint(high', low', 2);
  }

  lemma SextetsOfGroup(a: int, b: int, c: int)
    requires 0 <= a < 256 && 0 <= b < 256 && 0 <= c < 256
    ensures var n := Group(a, b, c);
      && n / 0x4_0000 == a / 4
      && n / 0x1000 % 64 == a % 4 * 16 + b / 16
      && n / 64 % 64 == b % 16 * 4 + c / 64
      && n % 64 == c % 64
  {
    var n := Group(a, b, c);
    Division(n, 64, a * 1024 + b * 4 + c / 64, c % 64);
    Division(a * 1024 + b * 4 + c / 64, 64, a * 16 + b / 16, b % 16 * 4 + c / 64);
    Division(n, 0x1000, a * 16 + b / 16, b % 16 * 256 + c);
    Division(a * 16 + b / 16, 64, a / 4, a % 4 * 16 + b / 16);
    Division(n, 0x4_0000, a / 4, a % 4 * 0x1_0000 + b * 256 + c);
  }

  /** Looking the indexes up gives the four characters of the group. */
  lemma SymbolsAreQuad(a: int, b: int, c: int)
    requires 0 <= a < 256 && 0 <= b < 256 && 0 <= c < 256
    ensures forall i :: 0 <= i < 4 ==> 0 <= Indexes(a, b, c)[i] < 64
    ensures forall i :: 0 <= i < 4 ==> Char(Indexes(a, b, c)[i]) == Quad(Group(a, b, c))[i]
  {
    IndexesAreSextets(a, b, c);
  }

  /** Complete groups first; the prefix done by vector code, if any, has the same contents. */
  lemma {:induction false} EncodedInTwo(x: Bytes, y: Bytes)
    requires |x| % 3 == 0
    ensures Encoded(x + y) == Encoded(x) + Encoded(y)
    decreases |x|
  {
    hide Quad, Group;
    if x == [] {
      assert x + y == y;
    } else {
      assert (x + y)[3..] == x[3..] + y;
      EncodedInTwo(x[3..], y);
    }
  }

  /** Write group (a, b, c) of the input at outPos. */
  method PutGroup(output: array<Octet>, outPos: nat, a: int, b: int, c: int)
    requires 0 <= a < 256 && 0 <= b < 256 && 0 <= c < 256 && outPos + 4 <= output.Length
    modifies output
    ensures output[..outPos] == old(output[..outPos])
    ensures output[outPos..outPos + 4] == Quad(Group(a, b, c))
  {
    SymbolsAreQuad(a, b, c);
    hide Char, Quad, Group;
    var q := Indexes(a, b, c);
    output[outPos] := Char(q[0]);
    output[outPos + 1] := Char(q[1]);
    output[outPos + 2] := Char(q[2]);
    output[outPos + 3] := Char(q[3]);
  }

  /** Vector instructions, where there are any: some groups of three bytes, encoded the same way. */
  method AcceleratedEncode(input: Bytes, output: array<Octet>) returns (consumed: nat, ghost groups: nat)
    requires output.Length >= (|input| + 2) / 3 * 4
    modifies output
    ensures consumed == 3 * groups <= |input| && 4 * groups <= output.Length
    ensures output[..4 * groups] == Encoded(input[..consumed])
  {
    consumed, groups := 0, 0;
    var available: bool := *;
    if available && |input| >= 48 {
      EncodeGroups(input, 0, 48, 0, 16, output);
      consumed, groups := 48, 16;
    }
  }

  /** Encode the groups from start to end of the input. */
  method EncodeGroups(input: Bytes, start: nat, end: nat, ghost first: nat, ghost last: nat, output: array<Octet>)
    requires start == 3 * first && end == 3 * last && first <= last && end <= |input|
    requires output.Length >= 4 * last
    requires output[..4 * first] == Encoded(input[..start])
    modifies output
    ensures output[..4 * last] == Encoded(input[..end])
  {
    hide Quad, Group, Encoded;
    var i, outPos := start, start / 3 * 4;
    ghost var g := first;
    while i < end
      invariant first <= g <= last && i == 3 * g && outPos == 4 * g
      invariant output[..outPos] == Encoded(input[..i])
    {
      PutGroup(output, outPos, input[i], input[i + 1], input[i + 2]);
      OneMoreGroup(input, i);
      assert output[..outPos + 4] == output[..outPos] + output[outPos..outPos + 4];
      outPos := outPos + 4;
      i := i + 3;
      g := g + 1;
    }
  }

  lemma OneMoreGroup(input: Bytes, i: nat)
    requires i % 3 == 0 && i + 3 <= |input|
    ensures Encoded(input[..i + 3]) == Encoded(input[..i]) + Quad(Group(input[i], input[i + 1], input[i + 2]))
  {
    hide Quad, Group;
    assert input[..i + 3] == input[..i] + input[i..i + 3];
    EncodedInTwo(input[..i], input[i..i + 3]);
    assert Encoded(input[i..i + 3]) == Quad(Group(input[i], input[i + 1], input[i + 2])) + Encoded([]);
  }

  /** bx_base64_encode. */
  method Encode(input: Bytes, output: array<Octet>) returns (outPos: nat)
    requires |input| <= SIZE_MAX - 2 && output.Length >= EncodedSize(|input|) && EncodedSize(|input|) < SIZE_MAX
    modifies output
    ensures outPos == EncodedSize(|input|) && output[..outPos] == Encoded(input)
  {
    hide Quad, Group, Encoded;
    EncodedLength(input);
    var completeLen := |input| - |input| % 3;
    ghost var all := completeLen / 3;
    var consumed, groups := AcceleratedEncode(input[..completeLen], output);
    assert input[..completeLen][..consumed] == input[..consumed];
    EncodeGroups(input, consumed, completeLen, groups, all, output);
    outPos := completeLen / 3 * 4;
    var tail := input[completeLen..];
    assert input == input[..completeLen] + tail;
    EncodedInTwo(input[..completeLen], tail);
    EncodedTail(tail);
    if |tail| == 1 {
      PutGroup(output, outPos, tail[0], 0, 0);
      output[outPos + 2] := PAD;
      output[outPos + 3] := PAD;
      outPos := outPos + 4;
    } else if |tail| == 2 {
      PutGroup(output, outPos, tail[0], tail[1], 0);
      output[outPos + 3] := PAD;
      outPos := outPos + 4;
    }
  }

  lemma EncodedTail(tail: Bytes)
    requires |tail| < 3
    ensures tail == [] ==> Encoded(tail) == []
    ensures |tail| == 1 ==> Encoded(tail) == Quad(Group(tail[0], 0, 0))[..2] + [PAD, PAD]
    ensures |tail| == 2 ==> Encoded(tail) == Quad(Group(tail[0], tail[1], 0))[..3] + [PAD]
  {
  }

  // ------------------------------------------------------------------- decoding

  /** How many quads of the alphabet s starts with. */
  function LeadingQuads(s: Bytes): (n: nat)
    ensures 4 * n <= |s|
  {
    if |s| >= 4 && IsQuad(s[..4]) then 1 + LeadingQuads(s[4..]) else 0
  }

  /** The bytes of the first n quads. */
  function QuadsBytes(s: Bytes, n: nat): (t: Bytes)
    requires n <= LeadingQuads(s)
    ensures |t| == 3 * n
  {
    if n == 0 then [] else QuadBytes(s[..4]) + QuadsBytes(s[4..], n - 1)
  }

  /** Going n quads further. */
  lemma {:induction false} QuadsInTwo(s: Bytes, n: nat, m: nat)
    requires n <= LeadingQuads(s) && m <= LeadingQuads(s[4 * n..])
    ensures LeadingQuads(s) == n + LeadingQuads(s[4 * n..])
    ensures QuadsBytes(s, n + m) == QuadsBytes(s, n) + QuadsBytes(s[4 * n..], m)
    decreases n
  {
    hide IsQuad, QuadBytes;
    if n > 0 {
      assert s[4..][4 * (n - 1)..] == s[4 * n..];
      QuadsInTwo(s[4..], n - 1, m);
    }
  }

  /** The three output bytes, with the shifts, ors and narrowing of the code. */
  function Shifted(a: int, b: int, c: int, d: int): (t: Bytes)
    requires 0 <= a < 64 && 0 <= b < 64 && 0 <= c < 64 && 0 <= d < 64
    ensures |t| == 3
  {
    [BitOr(a * 4, b / 16) % 256, BitOr(b * 16, c / 4) % 256, BitOr(c * 64, d) % 256]
  }

  lemma OrsAreSums(a: int, b: int, c: int, d: int)
    requires 0 <= a < 64 && 0 <= b < 64 && 0 <= c < 64 && 0 <= d < 64
    ensures BitOr(a * 4, b / 16) == a * 4 + b / 16
    ensures BitOr(b * 16, c / 4) == b * 16 + c / 4
    ensures BitOr(c * 64, d) == c * 64 + d
  {
    assert Pow2(6) == 2 * Pow2(5) == 4 * Pow2(4);
    assert Pow2(4) == 2 * Pow2(3) == 4 * Pow2(2) && Pow2(2) == 2 * Pow2(1) == 4;
    hide BitOr;
    OrOfDisjoint(a, b / 16, 2);
    OrOfDisjoint(b, c / 4, 4);
    OrOfDisjoint(c, d, 6);
  }

  lemma BytesOfGroup4(a: int, b: int, c: int, d: int)
    requires 0 <= a < 64 && 0 <= b < 64 && 0 <= c < 64 && 0 <= d < 64
    ensures var n := Group4(a, b, c, d);
      && n / 0x1_0000 == a * 4 + b / 16
      && n / 256 % 256 == b % 16 * 16 + c / 4
      && n % 256 == c % 4 * 64 + d
  {
    var n := Group4(a, b, c, d);
    Division(n, 0x1_0000, a * 4 + b / 16, b % 16 * 0x1000 + c * 64 + d);
    Division(n, 256, a * 1024 + b * 16 + c / 4, c % 4 * 64 + d);
    Division(a * 1024 + b * 16 + c / 4, 256, a * 4 + b / 16, b % 16 * 16 + c / 4);
  }

  /** They are the bytes of the 24-bit group. */
  lemma ShiftedIsTriple(a: int, b: int, c: int, d: int)
    requires 0 <= a < 64 && 0 <= b < 64 && 0 <= c < 64 && 0 <= d < 64
    ensures Shifted(a, b, c, d) == Triple(Group4(a, b, c, d))
  {
    OrsAreSums(a, b, c, d);
    BytesOfGroup4(a, b, c, d);
    hide BitOr, Group4;
    Division(a * 4 + b / 16, 256, 0, a * 4 + b / 16);
    Division(b * 16 + c / 4, 256, b / 16, b % 16 * 16 + c / 4);
    Division(c * 64 + d, 256, c / 4, c % 4 * 64 + d);
  }

  /** bx_base64_decode_quad. */
  method DecodeQuad(input: Bytes, inPos: nat, output: array<Octet>, outPos: nat) returns (ok: bool)
    requires inPos + 4 <= |input| && outPos + 3 <= output.Length
    modifies output
    ensures ok <==> IsQuad(input[inPos..inPos + 4])
    ensures output[..outPos] == old(output[..outPos])
    ensures ok ==> output[outPos..outPos + 3] == QuadBytes(input[inPos..inPos + 4])
  {
    var a, b := Value(input[inPos]), Value(input[inPos + 1]);
    var c, d := Value(input[inPos + 2]), Value(input[inPos + 3]);
    if a < 0 || b < 0 || c < 0 || d < 0 {
      assert !IsQuad(input[inPos..inPos + 4]) by {
        var q := input[inPos..inPos + 4];
        assert Value(q[0]) == a && Value(q[1]) == b && Value(q[2]) == c && Value(q[3]) == d;
      }
      return false;
    }
    ShiftedIsTriple(a, b, c, d);
    var t := Shifted(a, b, c, d);
    hide Value, Triple, Group4, Shifted;
    output[outPos] := t[0];
    output[outPos + 1] := t[1];
    output[outPos + 2] := t[2];
    assert output[outPos..outPos + 3] == t;
    return true;
  }

  /** Decode quads one by one until one is not in the alphabet. */
  method DecodeScalar(input: Bytes, start: nat, outStart: nat, ghost done: nat, output: array<Octet>)
    returns (inPos: nat)
    requires start == 4 * done <= |input| && outStart == 3 * done && done <= LeadingQuads(input)
    requires 4 * output.Length >= 3 * |input| && output[..3 * done] == QuadsBytes(input, done)
    modifies output
    ensures inPos == 4 * LeadingQuads(input)
    ensures output[..3 * LeadingQuads(input)] == QuadsBytes(input, LeadingQuads(input))
  {
    hide IsQuad, QuadBytes, QuadsBytes;
    inPos := start;
    var outPos := outStart;
    ghost var n := done;
    while |input| - inPos >= 4
      invariant inPos == 4 * n <= |input| && outPos == 3 * n && n <= LeadingQuads(input)
      invariant output[..outPos] == QuadsBytes(input, n)
    {
      NextQuad(input, n);
      var ok := DecodeQuad(input, inPos, output, outPos);
      if !ok {
        return;
      }
      assert output[..outPos + 3] == output[..outPos] + output[outPos..outPos + 3];
      inPos := inPos + 4;
      outPos := outPos + 3;
      n := n + 1;
    }
    QuadsInTwo(input, n, 0);
  }

  /** Whether quad n is one more leading quad. */
  lemma NextQuad(input: Bytes, n: nat)
    requires n <= LeadingQuads(input) && 4 * n + 4 <= |input|
    ensures var q := input[4 * n..4 * n + 4];
      if IsQuad(q) then n + 1 <= LeadingQuads(input) && QuadsBytes(input, n + 1) == QuadsBytes(input, n) + QuadBytes(q)
      else n == LeadingQuads(input)
  {
    hide IsQuad, QuadBytes;
    var rest := input[4 * n..];
    assert rest[..4] == input[4 * n..4 * n + 4];
    QuadsInTwo(input, n, 0);
    if IsQuad(rest[..4]) {
      QuadsInTwo(input, n, 1);
      assert QuadsBytes(rest, 1) == QuadBytes(rest[..4]) + QuadsBytes(rest[4..], 0);
    }
  }

  /**
   * bx_base64_decode_blocks. The vector path, where there is one, takes sixteen quads at a
   * time and may give up at any point; the same prefix is consumed either way.
   */
  method DecodeBlocks(input: Bytes, output: array<Octet>) returns (inPos: nat)
    requires 4 * output.Length >= 3 * |input|
    modifies output
    ensures inPos == 4 * LeadingQuads(input)
    ensures output[..3 * LeadingQuads(input)] == QuadsBytes(input, LeadingQuads(input))
  {
    hide IsQuad, QuadBytes;
    inPos := 0;
    var outPos := 0;
    ghost var n := 0;
    while |input| - inPos >= 64
      invariant inPos == 4 * n <= |input| && outPos == 3 * n && n <= LeadingQuads(input)
      invariant output[..3 * n] == QuadsBytes(input, n)
    {
      QuadsInTwo(input, n, 0);
      var ok := Accelerated64(input, inPos, outPos, n, output);
      if !ok {
        break;
      }
      QuadsInTwo(input, n, 16);
      assert output[..3 * (n + 16)] == output[..3 * n] + output[3 * n..3 * n + 48];
      inPos := inPos + 64;
      outPos := outPos + 48;
      n := n + 16;
    }
    inPos := DecodeScalar(input, inPos, outPos, n, output);
  }

  /** The vector decoder: refuses, or decodes sixteen quads exactly as the scalar code would. */
  method Accelerated64(input: Bytes, inPos: nat, outPos: nat, ghost n: nat, output: array<Octet>) returns (ok: bool)
    requires inPos == 4 * n && inPos + 64 <= |input| && outPos == 3 * n && 4 * output.Length >= 3 * |input|
    modifies output
    ensures output[..3 * n] == old(output[..3 * n])
    ensures ok ==> LeadingQuads(input[inPos..]) >= 16
    ensures ok ==> output[3 * n..3 * n + 48] == QuadsBytes(input[inPos..], 16)
  {
    hide IsQuad, QuadBytes;
    ok := *;
    if ok && LeadingQuads(input[inPos..]) >= 16 {
      var bytes := QuadsBytes(input[inPos..], 16);
      for i := 0 to 48
        invariant output[..3 * n] == old(output[..3 * n])
        invariant output[outPos..outPos + i] == bytes[..i]
      {
        output[outPos + i] := bytes[i];
        assert bytes[..i + 1] == bytes[..i] + [bytes[i]];
      }
      assert bytes[..48] == bytes;
    } else {
      ok := false;
    }
  }

  /** Decoding is all quads but the last, then the last. */
  lemma {:induction false} DecodedByQuads(s: Bytes, n: nat)
    requires |s| == 4 * n + 4
    ensures LeadingQuads(s[..4 * n]) < n ==> Decoded(s) == None
    ensures LeadingQuads(s[..4 * n]) >= n ==>
      Decoded(s) == (match LastQuad(s[4 * n..]) case None => None case Some(t) => Some(QuadsBytes(s[..4 * n], n) + t))
    decreases n
  {
    hide IsQuad, QuadBytes, LastQuad;
    if n == 0 {
      assert s[0..] == s;
      assert forall t: Bytes :: [] + t == t;
    } else {
      DecodedByQuads(s[4..], n - 1);
      var prefix := s[..4 * n];
      assert prefix[4..] == s[4..][..4 * (n - 1)] && s[4 * n..] == s[4..][4 * (n - 1)..];
      assert prefix[..4] == s[..4];
      if LeadingQuads(prefix) >= n && LastQuad(s[4 * n..]).Some? {
        var t := LastQuad(s[4 * n..]).value;
        assert QuadBytes(s[..4]) + (QuadsBytes(prefix[4..], n - 1) + t)
            == QuadBytes(s[..4]) + QuadsBytes(prefix[4..], n - 1) + t;
      }
    }
  }

  /** bx_base64_decode_exact. */
  method DecodeExact(input: Bytes, output: array<Octet>) returns (ok: bool, outputLen: nat)
    requires 4 * output.Length >= 3 * |input|
    modifies output
    ensures ok <==> Decoded(input).Some?
    ensures ok ==> outputLen <= output.Length && output[..outputLen] == Decoded(input).value
  {
    hide Decoded, QuadsBytes, LastQuad;
    outputLen := 0;
    if |input| == 0 {
      EmptyDecodes();
      return true, 0;
    }
    if |input| % 4 != 0 {
      OddLengthIsRefused(input);
      return false, 0;
    }
    var prefixLen := |input| - 4;
    ghost var n := prefixLen / 4;
    assert prefixLen == 4 * n;
    DecodedByQuads(input, n);
    var consumed := DecodeBlocks(input[..prefixLen], output);
    if consumed != prefixLen {
      return false, 0;
    }
    assert input[prefixLen..] == input[4 * n..];
    ok, outputLen := DecodeLast(input[prefixLen..], output, prefixLen / 4 * 3);
  }

  lemma EmptyDecodes()
    ensures Decoded([]) == Some([])
  {
  }

  /** The tests decode_exact makes on the last four characters, in its order. */
  function LastQuadCoded(q: Bytes): Option<Bytes>
    requires |q| == 4
  {
    var padding := (if q[3] == PAD then 1 else 0) + (if q[2] == PAD then 1 else 0);
    var a, b := Value(q[0]), Value(q[1]);
    var c := if q[2] == PAD then 0 else Value(q[2]);
    var d := if q[3] == PAD then 0 else Value(q[3]);
    if a < 0 || b < 0 || c < 0 || d < 0 || (q[2] == PAD && q[3] != PAD) || (q[2] == PAD && padding != 2) ||
       (q[3] == PAD && padding == 0)
    then None
    else Some(Shifted(a, b, c, d)[..3 - padding])
  }

  lemma LastQuadIsCoded(q: Bytes)
    requires |q| == 4
    ensures LastQuadCoded(q) == LastQuad(q)
  {
    CharsAndValues();
    var c := if q[2] == PAD then 0 else Value(q[2]);
    var d := if q[3] == PAD then 0 else Value(q[3]);
    if 0 <= Value(q[0]) && 0 <= Value(q[1]) && 0 <= c && 0 <= d {
      ShiftedIsTriple(Value(q[0]), Value(q[1]), c, d);
    }
    hide Value, Shifted, Triple, Group4;
    assert IsQuad(q) <==> 0 <= Value(q[0]) && 0 <= Value(q[1]) && 0 <= Value(q[2]) && 0 <= Value(q[3]);
    if IsQuad(q) {
      assert Shifted(Value(q[0]), Value(q[1]), c, d)[..3] == Shifted(Value(q[0]), Value(q[1]), c, d);
    }
  }

  /** The last four characters of decode_exact. */
  method DecodeLast(q: Bytes, output: array<Octet>, start: nat) returns (ok: bool, outPos: nat)
    requires |q| == 4 && output.Length >= start + 3
    modifies output
    ensures ok <==> LastQuad(q).Some?
    ensures ok ==> outPos <= output.Length
    ensures ok ==> output[..outPos] == old(output[..start]) + LastQuad(q).value
  {
    LastQuadIsCoded(q);
    hide LastQuad, Value, Shifted;
    var padding := (if q[3] == PAD then 1 else 0) + (if q[2] == PAD then 1 else 0);
    var a, b := Value(q[0]), Value(q[1]);
    var c := if q[2] == PAD then 0 else Value(q[2]);
    var d := if q[3] == PAD then 0 else Value(q[3]);
    outPos := start;
    if a < 0 || b < 0 || c < 0 || d < 0 || (q[2] == PAD && q[3] != PAD) || (q[2] == PAD && padding != 2) ||
       (q[3] == PAD && padding == 0) {
      return false, outPos;
    }
    var t := Shifted(a, b, c, d);
    output[outPos] := t[0];
    outPos := outPos + 1;
    if padding < 2 {
      output[outPos] := t[1];
      outPos := outPos + 1;
    }
    if padding == 0 {
      output[outPos] := t[2];
      outPos := outPos + 1;
    }
    return true, outPos;
  }
}
