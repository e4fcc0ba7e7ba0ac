/** Checksum lines: what digestsum prints for a file and how it reads the line back. */
module DigestLine {
  import opened CStrings
  import opened CTypes
  import opened Streams
  import opened Wrappers

  /** A digest program: its label and the size of its digests. */
  datatype Algorithm = Algorithm(tag: Text, size: nat)

  /** No label starts like a digest or an escaped line; records hold 64 bytes and prefixes 31 characters. */
  predicate ValidAlgorithm(a: Algorithm) {
    && 0 < |a.tag| <= 29 && HexValue(a.tag[0]) < 0 && a.tag[0] != '\\'
    && 0 < a.size <= 64
  }

  const ALGORITHMS := {Algorithm("MD5", 16), Algorithm("SHA1", 20), Algorithm("SHA256", 32)}

  lemma TheProgramsAreValid()
    ensures forall a :: a in ALGORITHMS ==> ValidAlgorithm(a)
  {
  }

  // --------------------------------------------------------------- hexadecimal digits

  function HexValue(c: Byte): (v: int)
    ensures -1 <= v < 16
  {
    if '0' <= c <= '9' then c as int - '0' as int
    else if 'a' <= c <= 'f' then c as int - 'a' as int + 10
    else if 'A' <= c <= 'F' then c as int - 'A' as int + 10
    else -1
  }

  function HexDigit(n: int): (c: Byte)
    requires 0 <= n < 16
    ensures HexValue(c) == n
  {
    if n < 10 then ('0' as int + n) as char else ('a' as int + n - 10) as char
  }

  /** The first n characters are hexadecimal digits. */
  predicate AllHex(s: Text, n: nat)
    requires n <= |s|
  {
    forall i :: 0 <= i < n ==> 0 <= HexValue(s[i])
  }

  /** The n bytes written as pairs of digits. */
  function HexBytes(s: Text, n: nat): (digest: seq<Octet>)
    requires 2 * n <= |s| && AllHex(s, 2 * n)
    ensures |digest| == n
  {
    if n == 0 then [] else HexBytes(s, n - 1) + [16 * HexValue(s[2 * n - 2]) + HexValue(s[2 * n - 1])]
  }

  function HexPair(n: Octet): (pair: Text)
    ensures |pair| == 2
  {
    [HexDigit(n / 16), HexDigit(n % 16)]
  }

  function HexLower(digest: seq<Octet>): (s: Text)
    ensures |s| == 2 * |digest|
  {
    if digest == [] then []
    else
      var last := digest[|digest| - 1];
      HexLower(digest[..|digest| - 1]) + HexPair(last)
  }

  lemma {:induction false} HexBytesPrefix(s: Text, t: Text, n: nat)
    requires 2 * n <= |s| && AllHex(s, 2 * n)
    ensures AllHex(s + t, 2 * n) && HexBytes(s + t, n) == HexBytes(s, n)
  {
    if n > 0 {
      HexBytesPrefix(s, t, n - 1);
    }
  }

  lemma HexPairValue(n: Octet)
    ensures var pair := HexPair(n);
      0 <= HexValue(pair[0]) && 0 <= HexValue(pair[1]) && 16 * HexValue(pair[0]) + HexValue(pair[1]) == n
  {
  }

  lemma {:induction false} HexRoundTrip(digest: seq<Octet>)
    ensures AllHex(HexLower(digest), 2 * |digest|) && HexBytes(HexLower(digest), |digest|) == digest
  {
    if digest != [] {
      var front, last := digest[..|digest| - 1], digest[|digest| - 1];
      HexRoundTrip(front);
      HexPairValue(last);
      HexBytesPrefix(HexLower(front), HexPair(last), |front|);
      hide HexValue, HexPair;
      assert HexLower(digest) == HexLower(front) + HexPair(last);
    }
  }

  // ---------------------------------------------------------------------- file names

  predicate NeedsEscape(path: Text) {
    exists i :: 0 <= i < |path| && (path[i] == '\\' || path[i] == '\n' || path[i] == '\r')
  }

  function EscapedChar(c: Byte): Text {
    if c == '\\' then "\\\\" else if c == '\n' then "\\n" else if c == '\r' then "\\r" else [c]
  }

  function Escaped(path: Text): Text {
    if path == [] then [] else EscapedChar(path[0]) + Escaped(path[1..])
  }

  /** The character behind an escape, 0 for none. */
  function Meaning(c: Byte): char {
    if c == '\\' then '\\' else if c == 'n' then '\n' else if c == 'r' then '\r' else '\0'
  }

  function Prepend(front: Text, rest: Option<Text>): Option<Text> {
    if rest.None? then None else Some(front + rest.value)
  }

  function Unescaped(text: Text): Option<Text> {
    if text == [] then Some([])
    else if text[0] != '\\' then Prepend([text[0]], Unescaped(text[1..]))
    else if |text| < 2 || Meaning(text[1]) == '\0' then None
    else Prepend([Meaning(text[1])], Unescaped(text[2..]))
  }

  lemma UnescapedFirst(c: Byte, rest: Text)
    ensures Unescaped(EscapedChar(c) + rest) == Prepend([c], Unescaped(rest))
  {
    var e := EscapedChar(c);
    assert (e + rest)[|e|..] == rest;
  }

  lemma {:induction false} UnescapeUndoesEscape(path: Text)
    ensures Unescaped(Escaped(path)) == Some(path)
  {
    if path != [] {
      UnescapeUndoesEscape(path[1..]);
      UnescapedFirst(path[0], Escaped(path[1..]));
      assert path == [path[0]] + path[1..];
    }
  }

  /** The other way round: an escaped text that shows no raw line break is the escape of its meaning. */
  lemma {:induction false} EscapeUndoesUnescape(text: Text)
    requires '\n' !in text && '\r' !in text && Unescaped(text).Some?
    ensures Escaped(Unescaped(text).value) == text
  {
    if text != [] {
      var n := if text[0] == '\\' then 2 else 1;
      EscapeUndoesUnescape(text[n..]);
      var path, rest := Unescaped(text).value, Unescaped(text[n..]).value;
      assert path[1..] == rest;
      assert text == text[..n] + text[n..];
      assert text[..n] == EscapedChar(path[0]);
    }
  }

  lemma {:induction false} EscapedHasNoLineBreak(path: Text)
    ensures '\n' !in Escaped(path) && '\r' !in Escaped(path)
    ensures path != [] ==> Escaped(path) != []
  {
    if path != [] {
      EscapedHasNoLineBreak(path[1..]);
    }
  }

  // -------------------------------------------------------------------- printed lines

  function Hidden(path: Text, zero: bool): bool {
    !zero && NeedsEscape(path)
  }

  function PrintedName(path: Text, zero: bool): Text {
    if Hidden(path, zero) then Escaped(path) else path
  }

  /** The line without its terminator. */
  function Printed(a: Algorithm, digest: seq<Octet>, path: Text, tagged: bool, binary: bool, zero: bool): Text {
    (if Hidden(path, zero) then "\\" else []) +
    if tagged then a.tag + " (" + PrintedName(path, zero) + ") = " + HexLower(digest)
    else HexLower(digest) + [' ', if binary then '*' else ' '] + PrintedName(path, zero)
  }

  // --------------------------------------------------------------------- read lines

  datatype Record = Record(digest: seq<Octet>, binary: bool, filename: Text)

  /** bx_parse_check_line. */
  function ParsedCheckLine(line: Text, size: nat): Option<Record> {
    if size == 0 || size > 64 || |line| < 2 * size + 2 || !AllHex(line, 2 * size) then None
    else if line[2 * size] != ' ' || (line[2 * size + 1] != '*' && line[2 * size + 1] != ' ') then None
    else if |line| == 2 * size + 2 then None
    else Some(Record(HexBytes(line, size), line[2 * size + 1] == '*', line[2 * size + 2..]))
  }

  predicate IsEscaped(line: Text) {
    line != [] && line[0] == '\\'
  }

  function Body(line: Text): Text {
    if IsEscaped(line) then line[1..] else line
  }

  /** The record with its name unescaped if the line asks for it. */
  function Named(line: Text, digest: seq<Octet>, binary: bool, name: Text): Option<Record> {
    if !IsEscaped(line) then Some(Record(digest, binary, name))
    else if Unescaped(name).None? then None
    else Some(Record(digest, binary, Unescaped(name).value))
  }

  function ParsedUntagged(line: Text, size: nat): Option<Record> {
    match ParsedCheckLine(Body(line), size)
    case None => None
    case Some(r) => Named(line, r.digest, r.binary, r.filename)
  }

  /** snprintf into 32 bytes. */
  function Prefix(a: Algorithm): Text {
    var prefix := a.tag + " (";
    if |prefix| <= 31 then prefix else prefix[..31]
  }

  predicate SeparatorAt(text: Text, k: nat) {
    k + 4 <= |text| && text[k] == ')' && text[k + 1] == ' ' && text[k + 2] == '=' && text[k + 3] == ' '
  }

  /** The last place of ") = ", -1 if there is none. */
  function LastSeparator(text: Text, n: nat): (k: int)
    ensures -1 <= k < n
    ensures 0 <= k ==> SeparatorAt(text, k)
    ensures forall j :: k < j < n ==> !SeparatorAt(text, j)
  {
    if n == 0 then -1
    else if SeparatorAt(text, n - 1) then n - 1
    else LastSeparator(text, n - 1)
  }

  /** Behind the prefix: a name, the last separator and the digest. */
  function TaggedRest(line: Text, rest: Text, size: nat): Option<Record> {
    var k := LastSeparator(rest, |rest|);
    if k <= 0 then None
    else
      var digits := rest[k + 4..];
      if |digits| != 2 * size || !AllHex(digits, |digits|) then None
      else Named(line, HexBytes(digits, size), false, rest[..k])
  }

  function ParsedTagged(line: Text, a: Algorithm): Option<Record> {
    if !(Prefix(a) <= Body(line)) then None else TaggedRest(line, Body(line)[|Prefix(a)|..], a.size)
  }

  function Parsed(line: Text, a: Algorithm): Option<Record> {
    if ParsedUntagged(line, a.size).Some? then ParsedUntagged(line, a.size) else ParsedTagged(line, a)
  }

  // ----------------------------------------------------------------------- round trip

  lemma UntaggedCore(a: Algorithm, digest: seq<Octet>, name: Text, binary: bool)
    requires ValidAlgorithm(a) && |digest| == a.size && name != []
    ensures ParsedCheckLine(HexLower(digest) + [' ', if binary then '*' else ' '] + name, a.size)
         == Some(Record(digest, binary, name))
  {
    var rest: Text := [' ', if binary then '*' else ' '] + name;
    var line := HexLower(digest) + [' ', if binary then '*' else ' '] + name;
    hide HexLower, HexBytes, AllHex;
    assert line == HexLower(digest) + rest;
    HexRoundTrip(digest);
    HexBytesPrefix(HexLower(digest), rest, a.size);
    assert line[2 * a.size + 2..] == name;
  }

  lemma NameReadsBack(line: Text, digest: seq<Octet>, binary: bool, path: Text)
    requires IsEscaped(line) <==> NeedsEscape(path)
    ensures Named(line, digest, binary, PrintedName(path, false)) == Some(Record(digest, binary, path))
  {
    UnescapeUndoesEscape(path);
  }

  lemma UntaggedRoundTrip(a: Algorithm, digest: seq<Octet>, path: Text, binary: bool)
    requires ValidAlgorithm(a) && |digest| == a.size && path != []
    ensures ParsedUntagged(Printed(a, digest, path, false, binary, false), a.size)
         == Some(Record(digest, binary, path))
  {
    var name, line := PrintedName(path, false), Printed(a, digest, path, false, binary, false);
    var core := HexLower(digest) + [' ', if binary then '*' else ' '] + name;
    EscapedHasNoLineBreak(path);
    UntaggedCore(a, digest, name, binary);
    HexRoundTrip(digest);
    assert core[0] == HexLower(digest)[0];
    assert line == (if NeedsEscape(path) then "\\" else []) + core;
    assert Body(line) == core;
    NameReadsBack(line, digest, binary, path);
  }

  /** Behind the digest no separator starts, so the last one is the printed one. */
  lemma SeparatorBeforeDigest(name: Text, digits: Text)
    requires AllHex(digits, |digits|)
    ensures var rest := name + ") = " + digits; LastSeparator(rest, |rest|) == |name|
  {
    var rest := name + ") = " + digits;
    assert SeparatorAt(rest, |name|);
    forall j | |name| < j < |rest| ensures !SeparatorAt(rest, j) {
      if j >= |name| + 4 {
        assert rest[j] == digits[j - |name| - 4];
      }
    }
  }

  /** Cutting name) = digits at the separator. */
  lemma CutAtSeparator(name: Text, digits: Text)
    requires AllHex(digits, |digits|)
    ensures var rest := name + ") = " + digits;
      rest[LastSeparator(rest, |rest|) + 4..] == digits && rest[..LastSeparator(rest, |rest|)] == name
  {
    SeparatorBeforeDigest(name, digits);
  }

  lemma TaggedCore(line: Text, a: Algorithm, digest: seq<Octet>, name: Text)
    requires ValidAlgorithm(a) && |digest| == a.size && name != []
    requires Body(line) == a.tag + " (" + (name + ") = " + HexLower(digest))
    ensures ParsedTagged(line, a) == Named(line, digest, false, name)
  {
    hide HexLower, HexBytes, AllHex, LastSeparator, Named, Body, HexValue;
    HexRoundTrip(digest);
    SeparatorBeforeDigest(name, HexLower(digest));
    CutAtSeparator(name, HexLower(digest));
    var rest := name + ") = " + HexLower(digest);
    assert Body(line)[|Prefix(a)|..] == rest;
  }

  lemma TagIsNoDigest(line: Text, a: Algorithm)
    requires ValidAlgorithm(a) && Body(line) != [] && Body(line)[0] == a.tag[0]
    ensures ParsedUntagged(line, a.size) == None
  {
    assert HexValue(Body(line)[0]) < 0;
  }

  lemma TaggedRoundTrip(a: Algorithm, digest: seq<Octet>, path: Text, binary: bool)
    requires ValidAlgorithm(a) && |digest| == a.size && path != []
    ensures var line := Printed(a, digest, path, true, binary, false);
      ParsedUntagged(line, a.size) == None && ParsedTagged(line, a) == Some(Record(digest, false, path))
  {
    hide HexLower, ParsedUntagged, ParsedTagged, Named, Escaped;
    var name, line := PrintedName(path, false), Printed(a, digest, path, true, binary, false);
    var core := a.tag + " (" + (name + ") = " + HexLower(digest));
    EscapedHasNoLineBreak(path);
    assert core == a.tag + " (" + name + ") = " + HexLower(digest);
    assert core[0] == a.tag[0];
    assert line == (if NeedsEscape(path) then "\\" else []) + core;
    assert Body(line) == core;
    TagIsNoDigest(line, a);
    TaggedCore(line, a, digest, name);
    NameReadsBack(line, digest, false, path);
  }

  /** The printed line of any digest and name is read back as that digest and name; untagged also keeps the mode. */
  lemma LineRoundTrip(a: Algorithm, digest: seq<Octet>, path: Text, tagged: bool, binary: bool)
    requires ValidAlgorithm(a) && |digest| == a.size && path != []
    ensures Parsed(Printed(a, digest, path, tagged, binary, false), a) == Some(Record(digest, !tagged && binary, path))
  {
    if tagged {
      TaggedRoundTrip(a, digest, path, binary);
    } else {
      UntaggedRoundTrip(a, digest, path, binary);
    }
  }

  /** What is left of a read line after its newline and one carriage return are dropped. */
  function Chomped(line: Text): Text {
    var l := if line != [] && line[|line| - 1] == '\n' then line[..|line| - 1] else line;
    if l != [] && l[|l| - 1] == '\r' then l[..|l| - 1] else l
  }

  predicate NoBreak(s: Text) {
    forall i :: 0 <= i < |s| ==> s[i] != '\n' && s[i] != '\r'
  }

  lemma NoBreakInParts(s: Text, t: Text)
    requires NoBreak(s) && NoBreak(t)
    ensures NoBreak(s + t)
  {
  }

  lemma HexHasNoBreak(s: Text)
    requires AllHex(s, |s|)
    ensures NoBreak(s)
  {
  }

  lemma PrintedHasNoBreak(a: Algorithm, digest: seq<Octet>, path: Text, tagged: bool, binary: bool)
    requires NoBreak(a.tag)
    ensures NoBreak(Printed(a, digest, path, tagged, binary, false))
  {
    var name, hex := PrintedName(path, false), HexLower(digest);
    HexRoundTrip(digest);
    HexHasNoBreak(hex);
    EscapedHasNoLineBreak(path);
    assert NoBreak(name);
    hide NoBreak;
    var mode: Text := [' ', if binary then '*' else ' '];
    var start: Text := if Hidden(path, false) then "\\" else [];
    assert NoBreak(start) && NoBreak(" (") && NoBreak(") = ") && NoBreak(mode) by {
      ShortHasNoBreak(start, mode);
    }
    if tagged {
      NoBreakInParts(a.tag, " (");
      NoBreakInParts(a.tag + " (", name);
      NoBreakInParts(a.tag + " (" + name, ") = ");
      NoBreakInParts(a.tag + " (" + name + ") = ", hex);
      NoBreakInParts(start, a.tag + " (" + name + ") = " + hex);
    } else {
      NoBreakInParts(hex, mode);
      NoBreakInParts(hex + mode, name);
      NoBreakInParts(start, hex + mode + name);
    }
  }

  lemma ShortHasNoBreak(start: Text, mode: Text)
    requires start == [] || start == "\\"
    requires mode == "  " || mode == " *"
    ensures NoBreak(start) && NoBreak(" (") && NoBreak(") = ") && NoBreak(mode)
  {
  }

  lemma ChompsOnlyNewline(line: Text)
    requires NoBreak(line) && line != []
    ensures '\n' !in line && Chomped(line + "\n") == line
  {
    assert (line + "\n")[..|line|] == line;
  }

  /** A printed line is one line, and reading it drops exactly its newline. */
  lemma PrintedIsOneLine(a: Algorithm, digest: seq<Octet>, path: Text, tagged: bool, binary: bool)
    requires ValidAlgorithm(a) && NoBreak(a.tag) && |digest| == a.size
    ensures var line := Printed(a, digest, path, tagged, binary, false);
      '\n' !in line && Chomped(line + "\n") == line
  {
    PrintedHasNoBreak(a, digest, path, tagged, binary);
    ChompsOnlyNewline(Printed(a, digest, path, tagged, binary, false));
  }

  // ------------------------------------------------------------------ printing, as coded

  lemma HexSnoc(digest: seq<Octet>, i: nat)
    requires i < |digest|
    ensures HexLower(digest[..i + 1]) == HexLower(digest[..i]) + HexPair(digest[i])
  {
    assert digest[..i + 1][..i] == digest[..i];
  }

  /** bx_hex_encode_lower. */
  method HexEncodeLower(digest: seq<Octet>, out: array<char>)
    requires 2 * |digest| < out.Length
    modifies out
    ensures out[..2 * |digest|] == HexLower(digest) && out[2 * |digest|] == '\0'
  {
    hide HexLower;
    assert HexLower([]) == [];
    for i := 0 to |digest|
      invariant out[..2 * i] == HexLower(digest[..i])
    {
      HexSnoc(digest, i);
      out[i * 2] := HexDigit(digest[i] / 16);
      out[i * 2 + 1] := HexDigit(digest[i] % 16);
    }
    assert digest[..|digest|] == digest;
    out[|digest| * 2] := '\0';
  }

  method FilenameNeedsEscape(path: Text) returns (needs: bool)
    ensures needs == NeedsEscape(path)
  {
    for i := 0 to |path|
      invariant forall j :: 0 <= j < i ==> path[j] != '\\' && path[j] != '\n' && path[j] != '\r'
    {
      if path[i] == '\\' || path[i] == '\n' || path[i] == '\r' {
        return true;
      }
    }
    return false;
  }

  lemma EscapedSnoc(path: Text, i: nat)
    requires i < |path|
    ensures Escaped(path[..i + 1]) == Escaped(path[..i]) + EscapedChar(path[i])
  {
    assert path[..i + 1] == path[..i] + [path[i]];
    EscapedInTwo(path[..i], [path[i]]);
    assert Escaped([path[i]]) == EscapedChar(path[i]) + Escaped([]);
  }

  lemma {:induction false} EscapedInTwo(s: Text, t: Text)
    ensures Escaped(s + t) == Escaped(s) + Escaped(t)
  {
    if s == [] {
      assert s + t == t;
    } else {
      EscapedInTwo(s[1..], t);
      assert (s + t)[0] == s[0] && (s + t)[1..] == s[1..] + t;
      var first, rest := EscapedChar(s[0]), Escaped(s[1..]);
      hide EscapedChar;
      assert first + (rest + Escaped(t)) == first + rest + Escaped(t);
    }
  }

  method WriteEscapedChar(writer: Stream, c: Byte) returns (ok: bool)
    modifies writer
    ensures ok ==> writer.written == old(writer.written) + EscapedChar(c)
    ensures old(writer.written) <= writer.written
    ensures writer.Size() == old(writer.Size()) && (!ok ==> writer.room == 0)
  {
    if c == '\\' {
      ok := writer.Put("\\\\");
    } else if c == '\n' {
      ok := writer.Put("\\n");
    } else if c == '\r' {
      ok := writer.Put("\\r");
    } else {
      ok := writer.Put([c]);
    }
  }

  method WriteEscapedPath(writer: Stream, path: Text) returns (ok: bool)
    modifies writer
    ensures ok ==> writer.written == old(writer.written) + Escaped(path)
    ensures old(writer.written) <= writer.written
    ensures writer.Size() == old(writer.Size()) && (!ok ==> writer.room == 0)
  {
    assert Escaped(path[..0]) == [];
    hide Escaped;
    for i := 0 to |path|
      invariant writer.written == old(writer.written) + Escaped(path[..i])
      invariant writer.Size() == old(writer.Size())
    {
      EscapedSnoc(path, i);
      ok := WriteEscapedChar(writer, path[i]);
      if !ok {
        return;
      }
    }
    assert path[..|path|] == path;
    return true;
  }

  method WriteName(writer: Stream, path: Text, escaped: bool) returns (ok: bool)
    modifies writer
    ensures ok ==> writer.written == old(writer.written) + if escaped then Escaped(path) else path
    ensures old(writer.written) <= writer.written
    ensures writer.Size() == old(writer.Size()) && (!ok ==> writer.room == 0)
  {
    if escaped {
      ok := WriteEscapedPath(writer, path);
    } else {
      ok := writer.Put(path);
    }
  }

  method PrintTagged(a: Algorithm, digestHex: Text, path: Text, escaped: bool, writer: Stream) returns (ok: bool)
    modifies writer
    ensures ok ==> writer.written == old(writer.written)
                                     + (a.tag + " (" + (if escaped then Escaped(path) else path) + ") = " + digestHex)
    ensures old(writer.written) <= writer.written
    ensures writer.Size() == old(writer.Size()) && (!ok ==> writer.room == 0)
  {
    hide Escaped;
    ok := writer.Put(a.tag);
    if ok {
      ok := writer.Put(" (");
    }
    if ok {
      ok := WriteName(writer, path, escaped);
    }
    if ok {
      ok := writer.Put(") = ");
    }
    if ok {
      ok := writer.Put(digestHex);
    }
  }

  method PrintUntagged(digestHex: Text, path: Text, escaped: bool, binary: bool, writer: Stream) returns (ok: bool)
    modifies writer
    ensures ok ==> writer.written == old(writer.written)
                                     + (digestHex + [' ', if binary then '*' else ' ']
                                         + if escaped then Escaped(path) else path)
    ensures old(writer.written) <= writer.written
    ensures writer.Size() == old(writer.Size()) && (!ok ==> writer.room == 0)
  {
    hide Escaped;
    ok := writer.Put(digestHex);
    if ok {
      ok := writer.Put(" ");
    }
    if ok {
      ok := writer.Put([if binary then '*' else ' ']);
    }
    if ok {
      ok := WriteName(writer, path, escaped);
    }
  }

  /** The line itself, marked with a backslash if the name is escaped. */
  method PrintMarked(a: Algorithm, hex: Text, path: Text, tagged: bool, binary: bool, escaped: bool, writer: Stream)
      returns (ok: bool)
    modifies writer
    ensures ok ==>
      var name := if escaped then Escaped(path) else path;
      var line := if tagged then a.tag + " (" + name + ") = " + hex
                  else hex + [' ', if binary then '*' else ' '] + name;
      writer.written == old(writer.written) + ((if escaped then "\\" else []) + line)
    ensures old(writer.written) <= writer.written
    ensures writer.Size() == old(writer.Size()) && (!ok ==> writer.room == 0)
  {
    hide Escaped;
    ok := true;
    if escaped {
      ok := writer.Put("\\");
    }
    if ok {
      if tagged {
        ok := PrintTagged(a, hex, path, escaped, writer);
      } else {
        ok := PrintUntagged(hex, path, escaped, binary, writer);
      }
    }
  }

  /** bx_digestsum_print_hash_result, for a digest already computed. */
  method PrintHashResult(a: Algorithm, digest: seq<Octet>, path: Text, tagged: bool, binary: bool, zero: bool,
                         writer: Stream) returns (ok: bool)
    requires ValidAlgorithm(a) && |digest| == a.size
    modifies writer
    ensures ok ==> writer.written == old(writer.written) + (Printed(a, digest, path, tagged, binary, zero)
                                                            + [if zero then '\0' else '\n'])
    ensures old(writer.written) <= writer.written
    ensures writer.Size() == old(writer.Size()) && (!ok ==> writer.room == 0)
  {
    hide HexLower, Escaped, NeedsEscape;
    var escapedPath := false;
    if !zero {
      escapedPath := FilenameNeedsEscape(path);
    }
    var digestHex := new char[129];
    HexEncodeLower(digest, digestHex);
    var hex := digestHex[..2 * a.size];
    ok := PrintMarked(a, hex, path, tagged, binary, escapedPath, writer);
    if ok {
      ok := writer.Put([if zero then '\0' else '\n']);
    }
  }

  // ------------------------------------------------------------------ reading, as coded

  /** A C string: the characters from start up to the first NUL. */
  predicate Holds(line: array<char>, start: nat, text: Text)
    reads line
  {
    start + |text| < line.Length && line[start..start + |text|] == text && line[start + |text|] == '\0'
  }

  lemma HoldsTail(line: array<char>, start: nat, text: Text, n: nat)
    requires Holds(line, start, text) && n <= |text|
    ensures Holds(line, start + n, text[n..])
  {
  }

  function Rest(text: Text, done: Text, src: nat): Option<Text>
    requires src <= |text|
  {
    Prepend(done, Unescaped(text[src..]))
  }

  lemma PrependTwice(a: Text, b: Text, rest: Option<Text>)
    ensures Prepend(a, Prepend(b, rest)) == Prepend(a + b, rest)
  {
    if rest.Some? {
      assert a + (b + rest.value) == a + b + rest.value;
    }
  }

  lemma RestStep(text: Text, done: Text, src: nat)
    requires src < |text|
    ensures text[src] != '\\' ==> Rest(text, done, src) == Rest(text, done + [text[src]], src + 1)
    ensures text[src] == '\\' && (src + 1 == |text| || Meaning(text[src + 1]) == '\0') ==> Rest(text, done, src) == None
    ensures text[src] == '\\' && src + 1 < |text| && Meaning(text[src + 1]) != '\0' ==>
              Rest(text, done, src) == Rest(text, done + [Meaning(text[src + 1])], src + 2)
  {
    assert text[src..][1..] == text[src + 1..];
    PrependTwice(done, [text[src]], Unescaped(text[src + 1..]));
    if src + 1 < |text| {
      assert text[src..][2..] == text[src + 2..];
      if Meaning(text[src + 1]) != '\0' {
        PrependTwice(done, [Meaning(text[src + 1])], Unescaped(text[src + 2..]));
      }
    }
  }

  /** The next character of the result and where to read on; NUL for a bad escape. */
  method NextChar(line: array<char>, start: nat, ghost text: Text, src: nat, ghost done: Text)
    returns (c: char, next: nat)
    requires start <= src < start + |text| < line.Length && line[start + |text|] == '\0'
    requires forall k :: src <= k < start + |text| ==> line[k] == text[k - start]
    ensures src < next <= start + |text| || c == '\0'
    ensures c as int < 256
    ensures if c == '\0' then Rest(text, done, src - start) == None
            else Rest(text, done + [c], next - start) == Rest(text, done, src - start)
  {
    hide Rest;
    RestStep(text, done, src - start);
    c, next := line[src], src;
    if c == '\\' {
      next := next + 1;
      c := if line[next] == '\\' then '\\' else if line[next] == 'n' then '\n'
           else if line[next] == 'r' then '\r' else '\0';
    }
    next := next + 1;
  }

  /**
   * bx_digestsum_unescape_path: in place, reading ahead of where it writes. A failure leaves
   * some string of the old length.
   */
  method UnescapePath(line: array<char>, start: nat, ghost text: Text) returns (ok: bool, ghost now: Text)
    requires Holds(line, start, text)
    modifies line
    ensures ok == Unescaped(text).Some?
    ensures ok ==> now == Unescaped(text).value
    ensures Holds(line, start, now) && (!ok ==> |now| == |text|)
    ensures forall k :: 0 <= k < start ==> line[k] == old(line[k])
  {
    var dst, src := start, start;
    now := [];
    RestAtStart(text);
    hide Rest, Holds, Unescaped, Meaning;
    HoldsAt(line, start, text);
    while line[src] != '\0'
      invariant start <= dst <= src <= start + |text|
      invariant |now| == dst - start && line[start..dst] == now
      invariant forall k :: dst <= k < start + |text| ==> line[k] == text[k - start]
      invariant line[start + |text|] == '\0'
      invariant Rest(text, now, src - start) == Unescaped(text)
      invariant forall k :: 0 <= k < start ==> line[k] == old(line[k])
      decreases start + |text| - src
    {
      var c;
      c, src := NextChar(line, start, text, src, now);
      if c == '\0' {
        Leftover(line, start, text, now);
        return false, now + text[dst - start..];
      }
      now := now + [c];
      line[dst] := c;
      assert line[start..dst + 1] == line[start..dst] + [c];
      dst := dst + 1;
    }
    RestAtEnd(text, now);
    line[dst] := '\0';
    Finished(line, start, now);
    return true, now;
  }

  lemma HoldsAt(line: array<char>, start: nat, text: Text)
    requires Holds(line, start, text)
    ensures start + |text| < line.Length && line[start + |text|] == '\0'
    ensures forall k :: start <= k < start + |text| ==> line[k] == text[k - start]
  {
  }

  lemma RestAtStart(text: Text)
    ensures Rest(text, [], 0) == Unescaped(text)
  {
    assert text[0..] == text;
    PrependNothing(Unescaped(text));
  }

  lemma Finished(line: array<char>, start: nat, now: Text)
    requires start + |now| < line.Length && line[start..start + |now|] == now && line[start + |now|] == '\0'
    ensures Holds(line, start, now)
  {
  }

  lemma Leftover(line: array<char>, start: nat, text: Text, now: Text)
    requires start + |text| < line.Length && |now| <= |text| && line[start + |text|] == '\0'
    requires line[start..start + |now|] == now
    requires forall k :: start + |now| <= k < start + |text| ==> line[k] == text[k - start]
    ensures Holds(line, start, now + text[|now|..])
  {
    assert line[start..start + |text|] == line[start..start + |now|] + line[start + |now|..start + |text|];
    assert line[start + |now|..start + |text|] == text[|now|..];
  }

  lemma PrependNothing(rest: Option<Text>)
    ensures Prepend([], rest) == rest
  {
    if rest.Some? {
      assert [] + rest.value == rest.value;
    }
  }

  lemma RestAtEnd(text: Text, done: Text)
    ensures Rest(text, done, |text|) == Some(done)
  {
    assert text[|text|..] == [];
    assert done + [] == done;
  }

  method StringLength(line: array<char>, start: nat, ghost text: Text) returns (n: nat)
    requires Holds(line, start, text)
    ensures n == |text|
  {
    n := 0;
    assert forall k :: 0 <= k < |text| ==> text[k] == line[start + k];
    while line[start + n] != '\0'
      invariant n <= |text|
      decreases |text| - n
    {
      n := n + 1;
    }
  }

  /** strstr for ") = ": the first occurrence, -1 for none. */
  method FindSeparator(line: array<char>, scan: nat, ghost text: Text) returns (found: int)
    requires Holds(line, scan, text)
    ensures found == -1 || scan <= found < scan + |text|
    ensures found != -1 ==> SeparatorAt(text, found - scan)
    ensures forall k :: 0 <= k < (if found == -1 then |text| else found - scan) ==> !SeparatorAt(text, k)
  {
    found := scan;
    while line[found] != '\0'
      invariant scan <= found <= scan + |text|
      invariant forall k :: 0 <= k < found - scan ==> !SeparatorAt(text, k)
      decreases scan + |text| - found
    {
      assert forall k :: found - scan <= k < |text| ==> text[k] == line[scan + k];
      if line[found] == ')' && line[found + 1] == ' ' && line[found + 2] == '=' && line[found + 3] == ' ' {
        return;
      }
      found := found + 1;
    }
    return -1;
  }

  lemma TailSeparator(text: Text, n: nat, k: nat)
    requires n <= |text|
    ensures SeparatorAt(text[n..], k) <==> SeparatorAt(text, n + k)
  {
  }

  /** bx_digestsum_find_last_tagged_separator. */
  method FindLastTaggedSeparator(line: array<char>, start: nat, ghost text: Text) returns (last: int)
    requires Holds(line, start, text)
    ensures last == if LastSeparator(text, |text|) == -1 then -1 else start + LastSeparator(text, |text|)
  {
    hide SeparatorAt, LastSeparator, Holds;
    last := -1;
    var scan := start;
    while true
      invariant start <= scan <= start + |text|
      invariant last == -1 ==> scan == start
      invariant last != -1 ==> scan == last + 1 && start <= last && SeparatorAt(text, last - start)
      decreases start + |text| - scan
    {
      HoldsTail(line, start, text, scan - start);
      var found := FindSeparator(line, scan, text[scan - start..]);
      if found == -1 {
        OnlyLast(text, if last == -1 then -1 else last - start, scan - start);
        return;
      }
      TailSeparator(text, scan - start, found - scan);
      last := found;
      scan := found + 1;
    }
  }

  lemma OnlyLast(text: Text, last: int, scan: nat)
    requires scan <= |text|
    requires if last < 0 then scan == 0 else scan == last + 1 && SeparatorAt(text, last)
    requires forall k :: 0 <= k < |text| - scan ==> !SeparatorAt(text[scan..], k)
    ensures LastSeparator(text, |text|) == if last < 0 then -1 else last
  {
    hide SeparatorAt;
    forall k | scan <= k < |text| ensures !SeparatorAt(text, k) {
      TailSeparator(text, scan, k - scan);
    }
  }

  /** The loop over digit pairs that both line formats use. */
  method ReadDigest(line: array<char>, start: nat, ghost text: Text, size: nat) returns (digest: Option<seq<Octet>>)
    requires Holds(line, start, text) && 2 * size <= |text|
    ensures digest == if AllHex(text, 2 * size) then Some(HexBytes(text, size)) else None
  {
    hide HexValue;
    var out: seq<Octet> := [];
    for i := 0 to size
      invariant AllHex(text, 2 * i) && out == HexBytes(text, i)
    {
      assert line[start + i * 2] == text[2 * i] && line[start + i * 2 + 1] == text[2 * i + 1];
      var hi, lo := HexValue(line[start + i * 2]), HexValue(line[start + i * 2 + 1]);
      if hi < 0 || lo < 0 {
        return None;
      }
      out := out + [16 * hi + lo];
    }
    return Some(out);
  }

  /** A record whose file name is a place in the line. */
  datatype Found = Found(digest: seq<Octet>, binary: bool, filename: nat)

  /** found describes the record: same digest and mode, and the name stands in the line. */
  predicate Describes(line: array<char>, found: Option<Found>, record: Option<Record>)
    reads line
  {
    if record.None? then found.None?
    else
      && found.Some?
      && found.value.digest == record.value.digest
      && found.value.binary == record.value.binary
      && Holds(line, found.value.filename, record.value.filename)
  }

  /** bx_parse_check_line. */
  method ParseCheckLine(line: array<char>, start: nat, ghost text: Text, size: nat) returns (found: Option<Found>)
    requires Holds(line, start, text)
    ensures Describes(line, found, ParsedCheckLine(text, size))
    ensures found.Some? ==> found.value.filename == start + 2 * size + 2
  {
    hide AllHex, HexBytes;
    var lineLength := StringLength(line, start, text);
    if size == 0 || size > 64 {
      return None;
    }
    if lineLength < 2 * size + 2 {
      return None;
    }
    var digest := ReadDigest(line, start, text, size);
    if digest.None? {
      return None;
    }
    assert line[start + 2 * size] == text[2 * size] && line[start + 2 * size + 1] == text[2 * size + 1];
    if line[start + 2 * size] != ' ' {
      return None;
    }
    var binary := line[start + 2 * size + 1] == '*';
    if !binary && line[start + 2 * size + 1] != ' ' {
      return None;
    }
    HoldsTail(line, start, text, 2 * size + 2);
    assert |text| > 2 * size + 2 ==> line[start + 2 * size + 2] == text[2 * size + 2];
    if line[start + 2 * size + 2] == '\0' {
      return None;
    }
    return Some(Found(digest.value, binary, start + 2 * size + 2));
  }

  /** The first character of the line proper: behind the escape mark. */
  function First(text: Text): char {
    if Body(text) == [] then '\0' else Body(text)[0]
  }

  predicate IsHexDigit(c: char) {
    0 < c as int < 256 && HexValue(c) >= 0
  }

  /** The name unescaped where it stands; whatever stands before it stays. */
  method UnescapeName(line: array<char>, ghost text: Text, name: nat) returns (ok: bool, ghost now: Text)
    requires Holds(line, 0, text) && name <= |text|
    modifies line
    ensures ok == Unescaped(text[name..]).Some?
    ensures ok ==> Holds(line, name, Unescaped(text[name..]).value)
    ensures Holds(line, 0, now) && name <= |now| && now[..name] == text[..name]
  {
    hide Unescaped;
    HoldsTail(line, 0, text, name);
    ghost var left;
    ok, left := UnescapePath(line, name, text[name..]);
    now := text[..name] + left;
    assert line[..name] == text[..name];
    assert line[0..|now|] == line[..name] + line[name..name + |left|];
  }

  lemma FirstIsHex(text: Text, size: nat)
    requires ParsedCheckLine(Body(text), size).Some?
    ensures HexValue(Body(text)[0]) >= 0
    ensures Body(text)[0] == text[if IsEscaped(text) then 1 else 0]
    ensures var r := ParsedCheckLine(Body(text), size).value; r.filename == Body(text)[2 * size + 2..]
  {
  }

  /**
   * bx_digestsum_parse_untagged_line. When it fails after changing the name, what it leaves
   * still starts with a digit of the digest.
   */
  method ParseUntagged(line: array<char>, ghost text: Text, size: nat) returns (found: Option<Found>, ghost now: Text)
    requires Holds(line, 0, text)
    modifies line
    ensures Describes(line, found, ParsedUntagged(text, size))
    ensures found.None? ==> Holds(line, 0, now)
    ensures found.None? ==> (now == text || (First(now) == First(text) && IsHexDigit(First(now))))
  {
    hide Unescaped, HexBytes, HexValue, AllHex;
    now := text;
    assert text != [] ==> line[0] == text[0];
    var escapedPath := line[0] == '\\';
    var start := if escapedPath then 1 else 0;
    HoldsTail(line, 0, text, start);
    assert text[start..] == Body(text);
    found := ParseCheckLine(line, start, Body(text), size);
    if found.None? || !escapedPath {
      return;
    }
    FirstIsHex(text, size);
    var name := found.value.filename;
    assert Body(text)[2 * size + 2..] == text[name..];
    hide ParsedCheckLine;
    var ok;
    ok, now := UnescapeName(line, text, name);
    if !ok {
      assert now[0] == text[..name][0] && now[1] == text[..name][1];
      found := None;
    }
  }

  /** strncmp: the string starts with the prefix. */
  method StartsWith(line: array<char>, start: nat, ghost text: Text, prefix: Text) returns (same: bool)
    requires Holds(line, start, text)
    ensures same == (prefix <= text)
  {
    for i := 0 to |prefix|
      invariant i <= |text| && text[..i] == prefix[..i]
    {
      assert i < |text| ==> line[start + i] == text[i];
      if line[start + i] != prefix[i] {
        return false;
      }
    }
    return true;
  }

  /** bx_digestsum_parse_hex_digest. */
  method ParseHexDigest(line: array<char>, start: nat, ghost text: Text, size: nat) returns (digest: Option<seq<Octet>>)
    requires Holds(line, start, text)
    ensures digest == if |text| == 2 * size && AllHex(text, |text|) then Some(HexBytes(text, size)) else None
  {
    hide AllHex, HexBytes;
    var length := StringLength(line, start, text);
    if length != 2 * size {
      return None;
    }
    digest := ReadDigest(line, start, text, size);
  }

  /** Writing a NUL over the separator leaves the name in front of it and the digest behind it. */
  method CutLine(line: array<char>, path: nat, sep: nat, ghost rest: Text)
    requires Holds(line, path, rest) && path <= sep && sep - path + 4 <= |rest|
    modifies line
    ensures Holds(line, path, rest[..sep - path])
    ensures Holds(line, sep + 4, rest[sep - path + 4..])
    ensures forall k :: 0 <= k < sep ==> line[k] == old(line[k])
  {
    HoldsTail(line, path, rest, sep - path + 4);
    line[sep] := '\0';
  }

  method ParseTaggedRest(line: array<char>, path: nat, ghost rest: Text, escapedPath: bool, size: nat, ghost text: Text)
      returns (found: Option<Found>)
    requires Holds(line, path, rest) && escapedPath == IsEscaped(text)
    modifies line
    ensures Describes(line, found, TaggedRest(text, rest, size))
  {
    hide Unescaped, HexBytes, HexValue, AllHex, LastSeparator, IsEscaped;
    var sep := FindLastTaggedSeparator(line, path, rest);
    if sep == -1 {
      return None;
    }
    CutLine(line, path, sep, rest);
    ghost var name := rest[..sep - path];
    assert sep > path ==> line[path] == name[0];
    if line[path] == '\0' {
      return None;
    }
    var digest := ParseHexDigest(line, sep + 4, rest[sep - path + 4..], size);
    if digest.None? {
      return None;
    }
    if escapedPath {
      var ok;
      ghost var now;
      ok, now := UnescapePath(line, path, name);
      if !ok {
        return None;
      }
    }
    return Some(Found(digest.value, false, path));
  }

  /** bx_digestsum_parse_tagged_line. */
  method ParseTagged(line: array<char>, ghost text: Text, a: Algorithm) returns (found: Option<Found>)
    requires Holds(line, 0, text)
    modifies line
    ensures Describes(line, found, ParsedTagged(text, a))
  {
    hide TaggedRest, Prefix;
    assert text != [] ==> line[0] == text[0];
    var escapedPath := line[0] == '\\';
    var start := if escapedPath then 1 else 0;
    HoldsTail(line, 0, text, start);
    assert text[start..] == Body(text);
    var prefix := Prefix(a);
    var same := StartsWith(line, start, Body(text), prefix);
    if !same {
      return None;
    }
    HoldsTail(line, start, Body(text), |prefix|);
    found := ParseTaggedRest(line, start + |prefix|, Body(text)[|prefix|..], escapedPath, a.size, text);
  }

  lemma HexIsNotTagged(text: Text, a: Algorithm)
    requires ValidAlgorithm(a) && IsHexDigit(First(text))
    ensures ParsedTagged(text, a) == None
  {
    assert Prefix(a)[0] == a.tag[0];
  }

  /** bx_digestsum_parse_check_record: the second attempt is not spoilt by what the first one changed. */
  method ParseCheckRecord(line: array<char>, ghost text: Text, a: Algorithm) returns (found: Option<Found>)
    requires Holds(line, 0, text) && ValidAlgorithm(a)
    modifies line
    ensures Describes(line, found, Parsed(text, a))
  {
    hide ParsedUntagged, ParsedTagged, Holds;
    ghost var now;
    found, now := ParseUntagged(line, text, a.size);
    if found.Some? {
      return;
    }
    if now != text {
      HexIsNotTagged(now, a);
      HexIsNotTagged(text, a);
    }
    found := ParseTagged(line, now, a);
  }
}
