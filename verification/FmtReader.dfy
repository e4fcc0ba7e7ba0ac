/** The input side of fmt: characters, columns and the prefix of a line. */
module FmtReader {
  import opened CTypes
  import opened FmtBreaks
  import opened Sequences

  const EOF := -1

  datatype Options = Options(width: nat, goal: nat, crownMargin: bool, splitOnly: bool, taggedParagraph: bool,
                             uniformSpacing: bool, prefix: seq<char>, prefixLeadSpace: nat, prefixFullLength: nat) {
    predicate Valid() {
      width <= MAX_WIDTH && goal <= MAX_WIDTH && |prefix| <= prefixFullLength && '\n' !in prefix
    }
  }

  predicate EndsWord(ch: int) {
    ch == 32 || 9 <= ch <= 13
  }

  predicate IsBlank(ch: int) {
    ch == 32 || ch == 9
  }

  predicate EndsLine(ch: int) {
    ch == EOF || ch == 10
  }

  /** Neither a blank nor the end of a line. */
  predicate IsDark(ch: int) {
    !IsBlank(ch) && !EndsLine(ch)
  }

  /** The dark bytes of a text: those that formatting must not lose. */
  function Ink(text: seq<char>): seq<char> {
    if text == [] then [] else (if IsDark(text[0] as int) then [text[0]] else []) + Ink(text[1..])
  }

  /** The byte of a character read, if there was one. */
  function Byte(ch: int): seq<char>
    requires -1 <= ch < 256
  {
    if ch == EOF then [] else [ch as char]
  }

  predicate AllBlank(s: seq<char>) {
    forall i :: 0 <= i < |s| ==> IsBlank(s[i] as int)
  }

  // ------------------------------------------------------------------- columns

  function NextColumn(column: nat, ch: int): nat {
    if EndsLine(ch) then 0 else if ch == 9 then (column / 8 + 1) * 8 else column + 1
  }

  /** The column behind a text that starts in the given one. */
  function ColumnFrom(column: nat, s: seq<char>): nat {
    if s == [] then column else NextColumn(ColumnFrom(column, s[..|s| - 1]), s[|s| - 1] as int)
  }

  lemma ColumnSnoc(column: nat, s: seq<char>, c: char)
    ensures ColumnFrom(column, s + [c]) == NextColumn(ColumnFrom(column, s), c as int)
    ensures AllBlank(s) && IsBlank(c as int) ==> AllBlank(s + [c])
  {
    assert (s + [c])[..|s|] == s;
  }

  lemma NoBlanks()
    ensures AllBlank([]) && forall column :: ColumnFrom(column, []) == column
  {
  }

  /** How a line begins: its indentation, as much of the prefix as it has, and the blanks behind the whole prefix. */
  datatype Head = Head(indent: seq<char>, matched: seq<char>, rest: seq<char>)

  predicate IsHead(prefix: seq<char>, head: Head) {
    && AllBlank(head.indent) && AllBlank(head.rest) && head.matched <= prefix
    && (head.matched != prefix ==> head.rest == [])
  }

  function RawHead(head: Head): seq<char> {
    head.indent + head.matched + head.rest
  }

  /** The column the text of the line begins in; every character of the prefix counts for one. */
  function HeadColumn(head: Head): nat {
    ColumnFrom(ColumnFrom(0, head.indent) + |head.matched|, head.rest)
  }

  /** The head goes on as long as it can: the next character belongs to none of its parts. */
  predicate EndsHead(prefix: seq<char>, head: Head, next: int) {
    && (head.matched == [] || head.matched == prefix ==> !IsBlank(next))
    && (|head.matched| < |prefix| ==> next != prefix[|head.matched|] as int)
  }

  /** The column the prefix is counted from; without one, no more than the leading space of the option. */
  function PrefixColumn(options: Options, head: Head): nat {
    var indent := ColumnFrom(0, head.indent);
    if options.prefix == [] && options.prefixLeadSpace < indent then options.prefixLeadSpace else indent
  }

  lemma BareHead(indent: seq<char>)
    requires AllBlank(indent)
    ensures IsHead([], Head(indent, [], [])) && HeadColumn(Head(indent, [], [])) == ColumnFrom(0, indent)
  {
  }

  lemma HeadBehind(before: seq<char>, head: Head)
    ensures before + RawHead(head) == before + head.indent + head.matched + head.rest
    ensures head.matched == [] && head.rest == [] ==> before + RawHead(head) == before + head.indent
  {
  }

  /** Where a line is before its next character: in its indentation, behind so much of the prefix, or in its text. */
  datatype Place = Indent | Within(matched: nat) | Body

  function NextPlace(prefix: seq<char>, place: Place, ch: int): Place {
    if EndsLine(ch) then Indent
    else if place == Body || (place == Indent && IsBlank(ch)) then place
    else
      var i := if place == Indent then 0 else place.matched;
      if i < |prefix| then (if ch == prefix[i] as int then Within(i + 1) else Body)
      else if place.Within? && IsBlank(ch) then place
      else Body
  }

  /** An indent may be taken from the column here. */
  predicate Indents(options: Options, place: Place) {
    place != Body || (!options.splitOnly && (options.crownMargin || options.taggedParagraph))
  }

  /** A column that fits its int, and the bounds of the costs where it may become an indent. */
  predicate Fits(options: Options, column: nat, place: Place) {
    column <= if Indents(options, place) then MAX_INDENT else INT_MAX
  }

  /** Bytes, with every column that comes up on the way one that fits. */
  predicate Narrow(options: Options, input: seq<char>, column: nat, place: Place) {
    input != [] ==>
      var ch := input[0] as int;
      && ch < 256 && Fits(options, NextColumn(column, ch), NextPlace(options.prefix, place, ch))
      && Narrow(options, input[1..], NextColumn(column, ch), NextPlace(options.prefix, place, ch))
  }

  function Next(input: seq<char>): (ch: int) {
    if input == [] then EOF else input[0] as int
  }

  function Rest(input: seq<char>): seq<char> {
    if input == [] then [] else input[1..]
  }

  lemma {:induction false} InkInTwo(s: seq<char>, t: seq<char>)
    ensures Ink(s + t) == Ink(s) + Ink(t)
  {
    if s == [] {
      assert s + t == t;
    } else {
      InkInTwo(s[1..], t);
      Regroup(if IsDark(s[0] as int) then [s[0]] else [], Ink(s[1..]), Ink(t));
      assert (s + t)[1..] == s[1..] + t;
    }
  }

  lemma InkSnoc(s: seq<char>, c: char)
    ensures Ink(s + [c]) == Ink(s) + if IsDark(c as int) then [c] else []
  {
    InkInTwo(s, [c]);
    assert Ink([c]) == (if IsDark(c as int) then [c] else []) + Ink([]);
  }

  lemma NoInk(text: seq<char>)
    requires text == []
    ensures Ink(text) == []
  {
  }

  /** The stream, with the column reached in it. */
  class Reader {
    const options: Options
    var input: seq<char>
    var inColumn: nat
    var nextPrefixIndent: nat
    var tabs: bool

    // The character read last, the column and the place it was read in, and everything read
    // before it. The first line counts as following a line end.
    ghost var last: int
    ghost var column: nat
    ghost var place: Place
    ghost var passed: seq<char>

    constructor (options: Options, input: seq<char>)
      requires options.Valid() && Narrow(options, input, 0, Indent)
      ensures Valid() && this.options == options && this.input == input && EndsLine(last)
      ensures Whole() == "\n" + input && Taken() == "\n"
    {
      this.options, this.input, inColumn, nextPrefixIndent, tabs := options, input, 0, 0, false;
      last, column, place, passed := 10, 0, Indent, [];
    }

    ghost predicate Valid()
      reads this
    {
      && options.Valid() && -1 <= last < 256 && (last == EOF ==> input == [])
      && Fits(options, column, place)
      && var column', place' := NextColumn(column, last), NextPlace(options.prefix, place, last);
         Fits(options, column', place') && Narrow(options, input, column', place')
    }

    /** What has been read. */
    ghost function Taken(): seq<char>
      requires -1 <= last < 256
      reads this`passed, this`last
    {
      passed + Byte(last)
    }

    /** The whole stream. */
    ghost function Whole(): seq<char>
      requires -1 <= last < 256
      reads this`passed, this`last, this`input
    {
      Taken() + input
    }

    /** ch is the character read last, and the column the code counts is at most the one ch is in. */
    ghost predicate Holds(ch: int, extra: nat)
      reads this
    {
      Valid() && ch == last && inColumn + extra <= column
    }

    /** ch follows the head of a line. */
    ghost predicate AtText(ch: int, head: Head)
      reads this
    {
      && Holds(ch, 0) && inColumn <= MAX_INDENT
      && IsHead(options.prefix, head) && EndsHead(options.prefix, head, ch)
      && inColumn == HeadColumn(head) && nextPrefixIndent == PrefixColumn(options, head)
      && nextPrefixIndent + |head.matched| <= inColumn
      && (head.matched != options.prefix ==> inColumn == nextPrefixIndent + |head.matched|)
    }

    /** The bound on the column the code counts. */
    lemma ColumnFits(ch: int, extra: nat)
      requires Holds(ch, extra)
      ensures inColumn + extra <= INT_MAX && (Indents(options, place) ==> inColumn + extra <= MAX_INDENT)
      ensures Indents(options, Body) ==> Indents(options, place)
    {
    }

    method Getc() returns (ch: int)
      requires Valid()
      modifies this`input, this`last, this`column, this`place, this`passed
      ensures Valid() && ch == last == Next(old(input)) && input == Rest(old(input))
      ensures column == NextColumn(old(column), old(last))
      ensures place == NextPlace(options.prefix, old(place), old(last))
      ensures passed == old(Taken()) && Whole() == old(Whole())
    {
      passed := Taken();
      column, place := NextColumn(column, last), NextPlace(options.prefix, place, last);
      if input == [] {
        last := EOF;
        return EOF;
      }
      ch := input[0] as int;
      assert passed + input == passed + [ch as char] + input[1..];
      input := input[1..];
      last := ch;
    }

    /** bx_fmt_engine_get_space. */
    method GetSpace(first: int) returns (ch: int, ghost blanks: seq<char>)
      requires Holds(first, 0)
      modifies this
      ensures Holds(ch, 0) && !IsBlank(ch)
      ensures passed == old(passed) + blanks && AllBlank(blanks) && Whole() == old(Whole())
      ensures inColumn == ColumnFrom(old(inColumn), blanks) && nextPrefixIndent == old(nextPrefixIndent)
      ensures IsBlank(first) <==> blanks != []
      ensures inColumn >= old(inColumn)
      ensures |input| <= old(|input|) && (first == EOF ==> ch == EOF)
      ensures old(place) == Indent || old(place) == Within(|options.prefix|) ==> place == old(place)
    {
      ch, blanks := first, [];
      NoBlanks();
      hide Fits, Narrow, Whole, AllBlank, ColumnFrom;
      while true
        invariant Holds(ch, 0)
        invariant passed == old(passed) + blanks && AllBlank(blanks) && Whole() == old(Whole())
        invariant inColumn == ColumnFrom(old(inColumn), blanks) && nextPrefixIndent == old(nextPrefixIndent)
        invariant if blanks == [] then ch == first else IsBlank(first)
        invariant inColumn >= old(inColumn)
        invariant |input| <= old(|input|) && (first == EOF ==> ch == EOF)
        invariant old(place) == Indent || old(place) == Within(|options.prefix|) ==> place == old(place)
        decreases |input|, ch != EOF
      {
        if ch == 32 {
          inColumn := inColumn + 1;
        } else if ch == 9 {
          tabs := true;
          inColumn := (inColumn / 8 + 1) * 8;
        } else {
          return;
        }
        ColumnSnoc(old(inColumn), blanks, ch as char);
        blanks := blanks + [ch as char];
        ch := Getc();
      }
    }

    /** The loop over the prefix: it stops at the first character that is not the prefix's. */
    method MatchPrefix(first: int) returns (ch: int, matched: nat)
      requires Holds(first, 0) && place == Indent && !IsBlank(first)
      modifies this
      ensures Holds(ch, 0) && matched <= |options.prefix| && inColumn == old(inColumn) + matched
      ensures matched < |options.prefix| ==> ch != options.prefix[matched] as int
      ensures matched == 0 ==> !IsBlank(ch)
      ensures place == if matched == 0 then Indent else Within(matched)
      ensures nextPrefixIndent == old(nextPrefixIndent)
      ensures |input| <= old(|input|) && (first == EOF ==> ch == EOF)
      ensures passed == old(passed) + options.prefix[..matched] && Whole() == old(Whole())
    {
      hide Fits, Narrow;
      ch, matched := first, 0;
      for i := 0 to |options.prefix|
        invariant Holds(ch, 0) && inColumn == old(inColumn) + i && matched == i
        invariant place == if i == 0 then Indent else Within(i)
        invariant i == 0 ==> !IsBlank(ch)
        invariant nextPrefixIndent == old(nextPrefixIndent)
        invariant |input| <= old(|input|) && (first == EOF ==> ch == EOF)
        invariant passed == old(passed) + options.prefix[..matched] && Whole() == old(Whole())
      {
        if ch != options.prefix[i] as int {
          return;
        }
        assert options.prefix[..i + 1] == options.prefix[..i] + [options.prefix[i]];
        inColumn := inColumn + 1;
        ch := Getc();
        matched := matched + 1;
      }
    }

    /** The prefix as far as it matches, and the blanks behind it if it does so to its end. */
    method GetHead(first: int, ghost indent: seq<char>) returns (ch: int, ghost head: Head)
      requires Holds(first, 0) && place == Indent && !IsBlank(first) && options.prefix != []
      requires AllBlank(indent) && inColumn == ColumnFrom(0, indent) == nextPrefixIndent
      modifies this
      ensures Holds(ch, 0) && place != Body && IsHead(options.prefix, head) && head.indent == indent
      ensures inColumn == HeadColumn(head) && nextPrefixIndent == old(nextPrefixIndent)
      ensures nextPrefixIndent + |head.matched| <= inColumn
      ensures head.matched != options.prefix ==> inColumn == nextPrefixIndent + |head.matched|
      ensures EndsHead(options.prefix, head, ch)
      ensures passed == old(passed) + head.matched + head.rest && Whole() == old(Whole())
      ensures |input| <= old(|input|) && (first == EOF ==> ch == EOF)
    {
      hide Fits, Narrow, AllBlank;
      NoBlanks();
      var length;
      ch, length := MatchPrefix(first);
      head := Head(indent, options.prefix[..length], []);
      if length == |options.prefix| {
        ghost var rest;
        ch, rest := GetSpace(ch);
        head := Head(indent, options.prefix, rest);
        assert options.prefix[..length] == options.prefix;
      } else {
        assert old(passed) + head.matched + head.rest == old(passed) + head.matched;
      }
    }

    /** bx_fmt_engine_get_prefix: the indentation of the next line and the prefix on it, as far as it matches. */
    method GetPrefix() returns (ch: int, ghost head: Head)
      requires Valid() && EndsLine(last)
      modifies this
      ensures AtText(ch, head)
      ensures passed == old(Taken()) + RawHead(head) && Whole() == old(Whole())
      ensures if old(input) == [] then ch == EOF else |input| < old(|input|)
    {
      NoBlanks();
      hide Fits, Narrow, AllBlank, Whole, Taken, IsHead, HeadColumn, RawHead, ColumnFrom;
      ghost var indent, before := [], Taken();
      inColumn := 0;
      ch := Getc();
      ch, indent := GetSpace(ch);
      head := Head(indent, [], []);
      if |options.prefix| == 0 {
        HeadBehind(before, head);
        BareHead(indent);
        nextPrefixIndent := if options.prefixLeadSpace < inColumn then options.prefixLeadSpace else inColumn;
      } else {
        nextPrefixIndent := inColumn;
        ch, head := GetHead(ch, indent);
        HeadBehind(before, head);
      }
      ColumnFits(ch, 0);
    }
  }
}
