/**
 * What fmt reads and what it prints, side by side: the words of the input and the gaps they
 * ask for, and the lines of the output.
 */
module FmtText {
  import opened FmtBreaks
  import opened FmtPrinter
  import opened FmtReader
  import opened Sequences
  import opened FmtTable
  import opened Wrappers

  // ------------------------------------------------------------------ the input

  /** A word of the input, and the blanks behind it. */
  datatype Spelled = Spelled(text: seq<char>, blanks: seq<char>)

  /** What comes behind the blanks. */
  datatype End = Inside | AtNewline | AtEof

  function EndOf(ch: int): End {
    if ch == EOF then AtEof else if ch == 10 then AtNewline else Inside
  }

  /** Characters up to the next one that ends a word; the first is one of the word's in any case. */
  predicate IsText(text: seq<char>) {
    && text != [] && IsDark(text[0] as int)
    && forall i :: 0 < i < |text| ==> !EndsWord(text[i] as int)
  }

  predicate IsSpelled(word: Spelled) {
    IsText(word.text) && AllBlank(word.blanks)
  }

  function RawWords(words: seq<Spelled>): seq<char> {
    if words == [] then []
    else
      var last := words[|words| - 1];
      RawWords(words[..|words| - 1]) + last.text + last.blanks
  }

  /** The text without its blanks. */
  function WordsText(words: seq<Spelled>): seq<char> {
    if words == [] then [] else WordsText(words[..|words| - 1]) + words[|words| - 1].text
  }

  /** A line of a paragraph. */
  datatype TextLine = TextLine(head: Head, words: seq<Spelled>, end: End)

  /** The bytes of the line, behind the line end in front of it. */
  function RawLine(line: TextLine): seq<char> {
    "\n" + RawHead(line.head) + RawWords(line.words)
  }

  function RawLines(lines: seq<TextLine>): seq<char> {
    if lines == [] then [] else RawLines(lines[..|lines| - 1]) + RawLine(lines[|lines| - 1])
  }

  function LinesText(lines: seq<TextLine>): seq<char> {
    if lines == [] then [] else LinesText(lines[..|lines| - 1]) + WordsText(lines[|lines| - 1].words)
  }

  // ------------------------------------------------------------------- the gaps

  /** Whether a word ends a sentence: a full stop, question or exclamation mark before its closing punctuation. */
  predicate EndsSentence(text: seq<char>)
    requires text != []
  {
    if |text| > 1 && IsClosePunct(text[|text| - 1]) then EndsSentence(text[..|text| - 1])
    else IsPeriodPunct(text[|text| - 1])
  }

  /** Closing punctuation is skipped, as long as there is something in front of it. */
  lemma SentenceEnds(text: seq<char>)
    ensures forall n :: 0 < n <= |text| ==>
      EndsSentence(text[..n]) ==
        if n > 1 && IsClosePunct(text[n - 1]) then EndsSentence(text[..n - 1]) else IsPeriodPunct(text[n - 1])
  {
    assert forall n :: 1 < n <= |text| ==> text[..n][..n - 1] == text[..n - 1];
  }

  /** What the costs of a layout see of a word besides its length. */
  datatype Mark = Mark(paren: bool, period: bool, punct: bool, final: bool)

  /** A word as it is to be printed, and the blanks that go behind it if another one follows in the line. */
  datatype Token = Token(text: seq<char>, gap: nat, mark: Mark)

  /** The columns of the blanks behind a word whose text starts in the given column of the input. */
  function Width(column: nat, word: Spelled): int {
    ColumnFrom(column + |word.text|, word.blanks) - (column + |word.text|)
  }

  /** Whether the word is the last one of a sentence. */
  predicate Closes(column: nat, word: Spelled, end: End)
    requires word.text != []
  {
    end == AtEof || (EndsSentence(word.text) && (end == AtNewline || Width(column, word) > 1))
  }

  /** The gap behind a word. */
  function Gap(uniform: bool, column: nat, word: Spelled, end: End): int
    requires word.text != []
  {
    if end == Inside && !uniform then Width(column, word) else if Closes(column, word, end) then 2 else 1
  }

  function MarkOf(column: nat, word: Spelled, end: End): Mark
    requires word.text != []
  {
    Mark(IsOpenPunct(word.text[0]), EndsSentence(word.text), IsPunct(word.text[|word.text| - 1]),
         Closes(column, word, end))
  }

  lemma {:induction false} BlanksGoOn(column: nat, blanks: seq<char>)
    requires AllBlank(blanks)
    ensures ColumnFrom(column, blanks) >= column + |blanks|
  {
    if blanks != [] {
      BlanksGoOn(column, blanks[..|blanks| - 1]);
    }
  }

  /** Words that a blank or a line end separates are asked to stay apart. */
  lemma GapIsPositive(uniform: bool, column: nat, word: Spelled, end: End)
    requires IsSpelled(word)
    ensures 0 <= Gap(uniform, column, word, end)
    ensures word.blanks != [] || end != Inside || uniform ==> 0 < Gap(uniform, column, word, end)
  {
    BlanksGoOn(column + |word.text|, word.blanks);
  }

  function TokenOf(uniform: bool, column: nat, word: Spelled, end: End): Token
    requires IsSpelled(word)
  {
    GapIsPositive(uniform, column, word, end);
    Token(word.text, Gap(uniform, column, word, end), MarkOf(column, word, end))
  }

  predicate AllSpelled(words: seq<Spelled>) {
    forall i :: 0 <= i < |words| ==> IsSpelled(words[i])
  }

  /** The tokens of the words of a line whose text starts in the given column. */
  function Tokens(uniform: bool, column: nat, words: seq<Spelled>, end: End): (tokens: seq<Token>)
    requires AllSpelled(words)
    ensures |tokens| == |words|
  {
    if words == [] then []
    else
      var front, last := words[..|words| - 1], words[|words| - 1];
      Tokens(uniform, column, front, Inside) + [TokenOf(uniform, ColumnFrom(column, RawWords(front)), last, end)]
  }

  lemma TokensSnoc(uniform: bool, column: nat, words: seq<Spelled>, word: Spelled, end: End)
    requires AllSpelled(words) && IsSpelled(word)
    ensures AllSpelled(words + [word])
    ensures Tokens(uniform, column, words + [word], end) ==
      Tokens(uniform, column, words, Inside) + [TokenOf(uniform, ColumnFrom(column, RawWords(words)), word, end)]
    ensures RawWords(words + [word]) == RawWords(words) + word.text + word.blanks
    ensures WordsText(words + [word]) == WordsText(words) + word.text
  {
    assert (words + [word])[..|words|] == words;
  }

  predicate GoodLine(prefix: seq<char>, line: TextLine) {
    && IsHead(prefix, line.head) && line.head.matched == prefix
    && line.words != [] && AllSpelled(line.words) && line.end != Inside
  }

  predicate GoodLines(prefix: seq<char>, lines: seq<TextLine>) {
    forall i :: 0 <= i < |lines| ==> GoodLine(prefix, lines[i])
  }

  function LineTokens(prefix: seq<char>, uniform: bool, line: TextLine): (tokens: seq<Token>)
    requires GoodLine(prefix, line)
    ensures |tokens| == |line.words|
  {
    Tokens(uniform, HeadColumn(line.head), line.words, line.end)
  }

  function WordCount(lines: seq<TextLine>): nat {
    if lines == [] then 0 else WordCount(lines[..|lines| - 1]) + |lines[|lines| - 1].words|
  }

  function LinesTokens(prefix: seq<char>, uniform: bool, lines: seq<TextLine>): (tokens: seq<Token>)
    requires GoodLines(prefix, lines)
    ensures |tokens| == WordCount(lines)
  {
    if lines == [] then []
    else LinesTokens(prefix, uniform, lines[..|lines| - 1]) + LineTokens(prefix, uniform, lines[|lines| - 1])
  }

  lemma LinesSnoc(prefix: seq<char>, uniform: bool, lines: seq<TextLine>, line: TextLine)
    requires GoodLines(prefix, lines) && GoodLine(prefix, line)
    ensures GoodLines(prefix, lines + [line])
    ensures LinesTokens(prefix, uniform, lines + [line])
         == LinesTokens(prefix, uniform, lines) + LineTokens(prefix, uniform, line)
    ensures RawLines(lines + [line]) == RawLines(lines) + RawLine(line)
    ensures LinesText(lines + [line]) == LinesText(lines) + WordsText(line.words)
  {
    assert (lines + [line])[..|lines|] == lines;
  }

  // ---------------------------------------------------------- the words in the buffer

  function MarkAt(word: Word): Mark {
    Mark(word.paren, word.period, word.punct, word.final)
  }

  function TokenAt(buf: seq<char>, word: Word): Token {
    Token(if word.text + word.length <= |buf| then buf[word.text..word.text + word.length] else [], word.space,
          MarkAt(word))
  }

  /** The tokens of a paragraph's end: its last word ends a sentence. */
  function Ended(tokens: seq<Token>): (ended: seq<Token>)
    ensures |ended| == |tokens|
    ensures forall k :: 0 <= k < |tokens| ==> ended[k].text == tokens[k].text && ended[k].gap == tokens[k].gap
  {
    if tokens == [] then []
    else
      var last := tokens[|tokens| - 1];
      tokens[|tokens| - 1 := last.(mark := last.mark.(period := true, final := true))]
  }

  lemma EndedBehind(front: seq<Token>, back: seq<Token>)
    requires back != []
    ensures front + Ended(back) == Ended(front + back)
  {
  }

  /** The words the layout is computed from, one text behind the other. */
  function WordsOf(tokens: seq<Token>): (words: seq<Word>)
    ensures |words| == |tokens|
  {
    if tokens == [] then []
    else
      var front, t := WordsOf(tokens[..|tokens| - 1]), tokens[|tokens| - 1];
      front + [Word(Start(front, |front|), |t.text|, t.gap, t.mark.paren, t.mark.period, t.mark.punct, t.mark.final)]
  }

  function HeldTokens(buf: seq<char>, words: seq<Word>): (tokens: seq<Token>)
    ensures |tokens| == |words| && forall k :: 0 <= k < |words| ==> tokens[k] == TokenAt(buf, words[k])
  {
    if words == [] then [] else HeldTokens(buf, words[..|words| - 1]) + [TokenAt(buf, words[|words| - 1])]
  }

  lemma WordsOfSnoc(tokens: seq<Token>, t: Token)
    ensures var front := WordsOf(tokens);
      WordsOf(tokens + [t]) == front +
        [Word(Start(front, |front|), |t.text|, t.gap, t.mark.paren, t.mark.period, t.mark.punct, t.mark.final)]
  {
    assert (tokens + [t])[..|tokens|] == tokens;
  }

  /** Words that fill the buffer from its start are those of their tokens. */
  lemma {:induction false} WordsOfHeld(buf: seq<char>, words: seq<Word>, limit: nat, wptr: nat, n: nat)
    requires Laid(words, limit, wptr) && n <= limit && |buf| == MAX_CHARS
    ensures n <= |words| && WordsOf(HeldTokens(buf, words[..n])) == words[..n]
  {
    hide Laid, HeldTokens, WordsOf;
    assert n < |words| by {
      LimitInTable(words, limit, wptr);
    }
    if n == 0 {
      NoWordsHeld(buf, words[..0]);
    } else {
      var m := n - 1;
      WordsOfHeld(buf, words, limit, wptr, m);
      WordEnds(words, limit, wptr, m);
      assert words[m].text == Start(words[..m], m) by {
        LaidInOrder(words, limit, wptr, m, n);
      }
      HeldOneMore(buf, words, m);
      WordsOfSnoc(HeldTokens(buf, words[..m]), TokenAt(buf, words[m]));
      assert words[..n] == words[..m] + [words[m]];
    }
  }

  lemma NoWordsHeld(buf: seq<char>, words: seq<Word>)
    requires words == []
    ensures WordsOf(HeldTokens(buf, words)) == []
  {
  }

  lemma HeldOneMore(buf: seq<char>, words: seq<Word>, limit: nat)
    requires limit < |words|
    ensures HeldTokens(buf, words[..limit + 1]) == HeldTokens(buf, words[..limit]) + [TokenAt(buf, words[limit])]
  {
  }

  lemma LimitInTable(words: seq<Word>, limit: nat, wptr: nat)
    requires Laid(words, limit, wptr)
    ensures limit < |words| && wptr <= MAX_CHARS
  {
  }

  lemma WordEnds(words: seq<Word>, limit: nat, wptr: nat, k: nat)
    requires Laid(words, limit, wptr) && k < limit
    ensures k < |words| && words[k].text + words[k].length <= wptr <= MAX_CHARS
  {
    LaidInOrder(words, limit, wptr, k, k + 1);
    LaidInOrder(words, limit, wptr, k + 1, k + 1);
  }

  /** A word whose text has moved down by shift is the same token. */
  lemma TokenMoved(buf: seq<char>, word: Word, shift: nat, wptr: nat, buf': seq<char>, word': Word)
    requires shift <= word.text && word.text + word.length <= wptr <= |buf| == |buf'|
    requires buf'[..wptr - shift] == buf[shift..wptr]
    requires word' == word.(text := word'.text) && word'.text == word.text - shift
    ensures TokenAt(buf', word') == TokenAt(buf, word)
  {
    var from, to := word.text, word.text + word.length;
    assert buf'[from - shift..to - shift] == buf'[..wptr - shift][from - shift..to - shift];
    assert buf[from..to] == buf[shift..wptr][from - shift..to - shift];
  }

  /** What is behind the words in the buffer does not matter. */
  lemma HeldKept(buf: seq<char>, words: seq<Word>, limit: nat, wptr: nat, buf': seq<char>, words': seq<Word>)
    requires Laid(words, limit, wptr) && |words'| == |words| && |buf| == |buf'| == MAX_CHARS
    requires buf'[..wptr] == buf[..wptr]
    requires forall k :: 0 <= k < limit ==> words'[k] == words[k]
    ensures HeldTokens(buf', words'[..limit]) == HeldTokens(buf, words[..limit])
  {
    hide Laid, TokenAt;
    assert limit < |words| by {
      LimitInTable(words, limit, wptr);
    }
    forall k | 0 <= k < limit ensures TokenAt(buf', words'[k]) == TokenAt(buf, words[k]) {
      WordEnds(words, limit, wptr, k);
      TokenMoved(buf, words[k], 0, wptr, buf', words'[k]);
    }
  }

  /** The last word of the buffer is marked as the last of a sentence. */
  lemma HeldEnded(buf: seq<char>, words: seq<Word>, limit: nat, wptr: nat, words': seq<Word>)
    requires Laid(words, limit, wptr) && |words'| == |words| && 0 < limit
    requires words' == words[limit - 1 := words[limit - 1].(period := true, final := true)]
    ensures HeldTokens(buf, words'[..limit]) == Ended(HeldTokens(buf, words[..limit]))
  {
    hide Laid, HeldTokens;
    assert limit < |words| by {
      LimitInTable(words, limit, wptr);
    }
    var m := limit - 1;
    assert words'[..m] == words[..m];
    assert TokenAt(buf, words'[m]) == Ended([TokenAt(buf, words[m])])[0];
    HeldOneMore(buf, words, m);
    HeldOneMore(buf, words', m);
    hide TokenAt, Ended;
    EndedBehind(HeldTokens(buf, words[..m]), [TokenAt(buf, words[m])]);
  }

  lemma HeldMoved(buf: seq<char>, words: seq<Word>, limit: nat, wptr: nat, split: nat, shift: nat,
                  buf': seq<char>, words': seq<Word>)
    requires Laid(words, limit, wptr) && |buf| == |buf'| == MAX_CHARS
    requires Moved(words, limit, split, shift, words') && shift <= wptr
    requires buf'[..wptr - shift] == buf[shift..wptr]
    ensures HeldTokens(buf', words'[..limit - split]) == HeldTokens(buf, words[..limit])[split..]
  {
    hide Laid, TokenAt;
    forall k | 0 <= k < limit - split ensures TokenAt(buf', words'[k]) == TokenAt(buf, words[k + split]) {
      WordEnds(words, limit, wptr, k + split);
      TokenMoved(buf, words[k + split], shift, wptr, buf', words'[k]);
    }
  }

  // ------------------------------------------------------------------ the output

  /** The items of an output line are the tokens, with the gaps the tokens ask for between them. */
  predicate Sets(items: seq<Item>, tokens: seq<Token>) {
    && |items| == |tokens|
    && (forall k :: 0 <= k < |items| ==> items[k].text == tokens[k].text)
    && (forall k :: 0 < k < |items| ==> items[k].gap == tokens[k - 1].gap)
  }

  lemma SetsSnoc(items: seq<Item>, tokens: seq<Token>, item: Item, token: Token)
    requires Sets(items, tokens) && item.text == token.text
    requires items != [] ==> item.gap == tokens[|tokens| - 1].gap
    ensures Sets(items + [item], tokens + [token])
  {
  }

  /** The rows are the tokens in order, cut into lines. */
  predicate Typeset(rows: seq<Row>, tokens: seq<Token>) {
    if rows == [] then tokens == []
    else
      var last := rows[|rows| - 1].items;
      && 0 < |last| <= |tokens|
      && Sets(last, tokens[|tokens| - |last|..])
      && Typeset(rows[..|rows| - 1], tokens[..|tokens| - |last|])
  }

  lemma TypesetSnoc(rows: seq<Row>, tokens: seq<Token>, row: Row, more: seq<Token>)
    requires Typeset(rows, tokens) && row.items != [] && Sets(row.items, more)
    ensures Typeset(rows + [row], tokens + more)
  {
    var all := tokens + more;
    assert (rows + [row])[..|rows|] == rows;
    assert all[|all| - |row.items|..] == more && all[..|all| - |row.items|] == tokens;
  }

  lemma LastLine(rows: seq<Row>, tokens: seq<Token>) returns (n: nat)
    requires Typeset(rows, tokens)
    ensures rows == [] <==> tokens == []
    ensures n <= |tokens|
    ensures rows != [] ==>
      var last := rows[|rows| - 1].items;
      last != [] && Typeset(rows[..|rows| - 1], tokens[..n]) && Sets(last, tokens[n..])
  {
    n := if rows == [] then 0 else |tokens| - |rows[|rows| - 1].items|;
  }

  lemma {:induction false} TypesetBoth(a: seq<Row>, s: seq<Token>, b: seq<Row>, t: seq<Token>)
    requires Typeset(a, s) && Typeset(b, t)
    ensures Typeset(a + b, s + t)
  {
    hide Typeset, Sets;
    var n := LastLine(b, t);
    if b == [] {
      assert a + b == a && s + t == s;
    } else {
      var m := |b| - 1;
      TypesetBoth(a, s, b[..m], t[..n]);
      TypesetSnoc(a + b[..m], s + t[..n], b[m], t[n..]);
      SplitAgain(s, t, n);
      assert a + b[..m] + [b[m]] == a + b;
    }
  }

  /** Where token k stands in the lines. */
  lemma {:induction false} TokenStands(rows: seq<Row>, tokens: seq<Token>, k: nat) returns (l: nat, i: nat)
    requires Typeset(rows, tokens) && k < |tokens|
    ensures l < |rows| && i < |rows[l].items| && rows[l].items[i].text == tokens[k].text
    ensures i + 1 < |rows[l].items| ==>
      && k + 1 < |tokens| && rows[l].items[i + 1].text == tokens[k + 1].text
      && rows[l].items[i + 1].gap == tokens[k].gap
    ensures i + 1 == |rows[l].items| && k + 1 < |tokens| ==>
      l + 1 < |rows| && rows[l + 1].items != [] && rows[l + 1].items[0].text == tokens[k + 1].text
    ensures k + 1 == |tokens| ==> l + 1 == |rows| && i + 1 == |rows[l].items|
  {
    var last := rows[|rows| - 1].items;
    var n := |tokens| - |last|;
    if n <= k {
      l, i := |rows| - 1, k - n;
      assert tokens[n..][i] == tokens[k];
    } else {
      l, i := TokenStands(rows[..|rows| - 1], tokens[..n], k);
      if k + 1 == n {
        assert tokens[n..][0] == tokens[n];
      }
    }
  }

  /** Where the lines of a paragraph stand: their prefix and its column, and the columns their texts begin in. */
  datatype Form = Form(at: nat, prefix: seq<char>, first: nat, other: Option<nat>)

  /** The row stands as the form wants; without a column for the other lines, these may begin anywhere. */
  predicate Aligned(form: Form, r: nat, row: Row) {
    && row.at == form.at && row.prefix == form.prefix && row.items != []
    && (r == 0 ==> row.items[0].gap == form.first)
    && (r > 0 && form.other.Some? ==> row.items[0].gap == form.other.value)
  }

  predicate AllAligned(form: Form, rows: seq<Row>) {
    forall r :: 0 <= r < |rows| ==> Aligned(form, r, rows[r])
  }

  lemma AlignedBoth(form: Form, a: seq<Row>, first: nat, b: seq<Row>)
    requires AllAligned(form, a) && AllAligned(form.(first := first), b)
    requires a == [] ==> first == form.first
    requires form.other.None? || form.other.value == first
    ensures AllAligned(form, a + b)
  {
    forall r | 0 <= r < |a + b| ensures Aligned(form, r, (a + b)[r]) {
      if |a| <= r {
        assert Aligned(form.(first := first), r - |a|, b[r - |a|]);
      }
    }
  }

  /** The finished lines one reads off the output. */
  function RowsOf(pieces: seq<Piece>): seq<Row> {
    PageAfter(EMPTY, pieces).lines
  }

  /** Read back, the pieces are finished lines with the tokens in them, as the form wants them. */
  ghost predicate WellSet(form: Form, pieces: seq<Piece>, tokens: seq<Token>) {
    && PageAfter(EMPTY, pieces) == EMPTY.(lines := RowsOf(pieces))
    && Typeset(RowsOf(pieces), tokens) && AllAligned(form, RowsOf(pieces))
  }

  /** What stands as the strict form wants stands as the loose one does. */
  predicate Looser(loose: Form, strict: Form) {
    && loose.(other := None) == strict.(other := None)
    && (loose.other.Some? ==> strict.other == loose.other)
  }

  lemma WellSetLoosely(loose: Form, strict: Form, pieces: seq<Piece>, tokens: seq<Token>)
    requires Looser(loose, strict) && WellSet(strict, pieces, tokens)
    ensures WellSet(loose, pieces, tokens)
  {
    forall r | 0 <= r < |RowsOf(pieces)| ensures Aligned(loose, r, RowsOf(pieces)[r]) {
      assert Aligned(strict, r, RowsOf(pieces)[r]);
    }
  }

  lemma NothingSet(form: Form)
    ensures WellSet(form, [], []) && RowsOf([]) == []
  {
  }

  lemma NothingHolds(form: Form, tokens: seq<Token>)
    ensures WellSet(form, [], tokens) ==> tokens == []
  {
  }

  /** What one reads off the output of two parts. */
  lemma RowsBoth(a: seq<Piece>, b: seq<Piece>)
    requires PageAfter(EMPTY, a) == EMPTY.(lines := RowsOf(a))
    requires PageAfter(EMPTY, b) == EMPTY.(lines := RowsOf(b))
    ensures PageAfter(EMPTY, a + b) == EMPTY.(lines := RowsOf(a + b)) && RowsOf(a + b) == RowsOf(a) + RowsOf(b)
  {
    PageAfterBoth(EMPTY, a, b);
    EarlierLines(RowsOf(a), b);
  }

  lemma WellSetBoth(form: Form, a: seq<Piece>, s: seq<Token>, first: nat, b: seq<Piece>, t: seq<Token>)
    requires WellSet(form, a, s) && WellSet(form.(first := first), b, t)
    requires s == [] ==> first == form.first
    requires form.other.None? || form.other.value == first
    ensures WellSet(form, a + b, s + t) && RowsOf(a + b) == RowsOf(a) + RowsOf(b)
  {
    RowsBoth(a, b);
    var _ := LastLine(RowsOf(a), s);
    TypesetBoth(RowsOf(a), s, RowsOf(b), t);
    AlignedBoth(form, RowsOf(a), first, RowsOf(b));
  }

  /** The last lines of a paragraph below its first ones, if there are any. */
  lemma WellSetBelow(form: Form, a: seq<Piece>, s: seq<Token>, last: Form, b: seq<Piece>, t: seq<Token>)
    requires WellSet(form, a, s) && WellSet(last, b, t) && (a != [] ==> last == form)
    requires form.other.None? || form.other.value == form.first
    ensures WellSet(last, a + b, s + t)
  {
    hide WellSet, RowsOf;
    if a == [] {
      NothingHolds(form, s);
      assert a + b == b && s + t == t;
    } else {
      assert form.(first := form.first) == form;
      WellSetBoth(form, a, s, form.first, b, t);
    }
  }

  // ------------------------------------------------------------------ the layout

  /** Line r has the words from one start up to the next. */
  predicate Cut(rows: seq<Row>, starts: seq<nat>) {
    && |starts| == |rows| + 1
    && forall r :: 0 <= r < |rows| ==> starts[r] + |rows[r].items| == starts[r + 1]
  }

  lemma CutFirst(rows: seq<Row>, starts: seq<nat>)
    requires |rows| == 1 && |starts| > 1 && starts[0] + |rows[0].items| == starts[1]
    ensures Cut(rows, starts[..2])
  {
  }

  lemma CutSnoc(rows: seq<Row>, starts: seq<nat>, more: seq<Row>, next: nat)
    requires Cut(rows, starts) && |more| == 1 && starts[|starts| - 1] + |more[0].items| == next
    ensures Cut(rows + more, starts + [next])
  {
  }

  /** The table is that of the paragraph, and its lines start at these words. */
  ghost predicate IsPlan(p: Paragraph, table: seq<Break>, starts: seq<nat>) {
    && Solved(p, table, 0)
    && (forall k :: 0 <= k < |p.words| ==> k < table[k].nextBreak <= |p.words|)
    && starts == Starts(p, table, 0)
  }

  /** The lines are those of the cheapest layout there is, the first one if several are. */
  ghost predicate LaidOut(p: Paragraph, rows: seq<Row>) {
    exists table, starts :: IsPlan(p, table, starts) && Cut(rows, starts)
  }

  /** The lines are the first ones of that layout, up to the break it is best to stop at. */
  ghost predicate LaidOutInFront(p: Paragraph, rows: seq<Row>) {
    exists table, starts :: IsPlan(p, table, starts) && FrontCut(table, starts, rows)
  }

  ghost predicate FrontCut(table: seq<Break>, starts: seq<nat>, rows: seq<Row>) {
    IsSplit(table, starts, |rows|) && Cut(rows, starts[..|rows| + 1])
  }

  lemma FrontIsCut(p: Paragraph, table: seq<Break>, starts: seq<nat>, f: nat, rows: seq<Row>)
    requires IsPlan(p, table, starts) && IsSplit(table, starts, f) && Cut(rows, starts[..f + 1])
    ensures LaidOutInFront(p, rows)
  {
    hide IsPlan;
    assert FrontCut(table, starts, rows);
  }

  lemma TextSeen(page: Page, text: seq<char>)
    ensures PageAfter(page, [Text(text)]) ==
      Page(page.lines, WithText(page, text), page.column + |text|, page.column + |text|)
    ensures After(page.column, [Text(text)]) == page.column + |text|
    ensures TextOf([Text(text)]) == text && PrefixesOf([Text(text)]) == []
  {
    var word := [Text(text)];
    assert word[..0] == [];
    assert PageAfter(page, []) == page && After(page.column, []) == page.column;
    assert TextOf([]) == [] && PrefixesOf([]) == [];
  }

  /** A word and the blanks behind it say the word. */
  lemma WordSays(text: seq<char>, word: seq<Piece>, blanks: seq<Piece>)
    requires Blanks(blanks) && word == [Text(text)]
    ensures TextOf(word + blanks) == text && PrefixesOf(word + blanks) == []
  {
    TextSeen(EMPTY, text);
    BlanksSayNothing(blanks);
    PiecesAdd(word, blanks);
  }

  /** Read back, they are the word, with the blanks still to be counted. */
  lemma WordSeen(page: Page, text: seq<char>, word: seq<Piece>, blanks: seq<Piece>)
    requires Blanks(blanks) && word == [Text(text)]
    ensures PageAfter(page, word + blanks) ==
      Page(page.lines, WithText(page, text), page.column + |text|, After(page.column + |text|, blanks))
  {
    hide *;
    PageAfterBoth(page, word, blanks);
    TextSeen(page, text);
    var seen := PageAfter(page, word);
    BlanksMove(seen, blanks);
    assert PageAfter(page, word + blanks) == seen.(column := After(seen.column, blanks));
  }

  lemma WordColumn(column: nat, text: seq<char>, word: seq<Piece>, blanks: seq<Piece>)
    requires word == [Text(text)]
    ensures After(column, word + blanks) == After(column + |text|, blanks)
  {
    TextSeen(EMPTY.(column := column), text);
    AfterBoth(column, word, blanks);
  }

  /** A margin, the words of a line and a line end. */
  lemma LineIsSet(form: Form, margin: seq<Piece>, words: seq<Piece>, items: seq<Item>, end: nat, tokens: seq<Token>)
    requires IsMargin(margin, form.at, form.prefix) && items != [] && Sets(items, tokens) && PrefixesOf(words) == []
    requires items[0].gap == After(0, margin) == form.first
    requires PageAfter(PageAfter(EMPTY, margin), words) == Page([], Row(form.at, form.prefix, items), end, end)
    ensures var pieces := margin + words + [LineEnd];
      && WellSet(form, pieces, tokens) && |RowsOf(pieces)| == 1 && |RowsOf(pieces)[0].items| == |tokens|
      && TextOf(pieces) == TextOf(words) && PrefixesOf(pieces) == form.prefix
  {
    hide PageAfter, TextOf, PrefixesOf, IsMargin, Typeset, Sets;
    MarginSays(margin, form.at, form.prefix);
    PageAfterBoth(EMPTY, margin, words);
    PageAfterOne(EMPTY, margin + words, LineEnd);
    PiecesAdd(margin, words);
    PieceAdds(margin + words, LineEnd);
    var row := Row(form.at, form.prefix, items);
    OneRowSet(row, tokens);
    assert [] + [row] == [row] && Aligned(form, 0, row);
    assert form.prefix + [] == form.prefix;
  }

  lemma OneRowSet(row: Row, tokens: seq<Token>)
    requires row.items != [] && Sets(row.items, tokens)
    ensures Typeset([row], tokens) && |row.items| == |tokens|
  {
    TypesetSnoc([], [], row, tokens);
    assert [] + [row] == [row] && [] + tokens == tokens;
  }

  // ------------------------------------------------------- input and output together

  /** What is printed of a text that is copied. */
  function Verbatim(text: seq<char>): seq<Piece> {
    if text == [] then []
    else
      var c := text[|text| - 1];
      Verbatim(text[..|text| - 1]) + [if IsBlank(c as int) then Blank(c) else Text([c])]
  }

  lemma VerbatimSnoc(text: seq<char>, c: char)
    ensures Verbatim(text + [c]) == Verbatim(text) + [if IsBlank(c as int) then Blank(c) else Text([c])]
  {
    assert (text + [c])[..|text|] == text;
  }

  /** A line that was copied, or a paragraph; each with the input it was and the output it became. */
  datatype Block =
    | Copied(head: Head, body: seq<char>, margin: seq<Piece>, ended: bool)
    | Para(lines: seq<TextLine>, pieces: seq<Piece>, other: nat)

  function RawBlock(block: Block): seq<char> {
    match block
    case Copied(head, body, _, _) => "\n" + RawHead(head) + body
    case Para(lines, _, _) => RawLines(lines)
  }

  function PiecesOf(block: Block): seq<Piece> {
    match block
    case Copied(_, body, margin, ended) => margin + Verbatim(body) + if ended then [LineEnd] else []
    case Para(_, pieces, _) => pieces
  }

  /** The text of the block, prefixes apart. */
  function BlockText(block: Block): seq<char> {
    match block
    case Copied(_, body, _, _) => Ink(body)
    case Para(lines, _, _) => LinesText(lines)
  }

  /** No word is longer than the buffer. */
  predicate Short(lines: seq<TextLine>) {
    forall i, k :: 0 <= i < |lines| && 0 <= k < |lines[i].words| ==> |lines[i].words[k].text| <= MAX_CHARS
  }

  /** The paragraph is laid out in one piece: neither its text nor the number of its words fills the buffer. */
  predicate Roomy(lines: seq<TextLine>) {
    Short(lines) && |LinesText(lines)| < MAX_CHARS && WordCount(lines) < MAX_WORDS - 2
  }

  /** All lines of a paragraph have the same indent. */
  predicate OneIndent(options: Options) {
    options.splitOnly || (!options.crownMargin && !options.taggedParagraph)
  }

  /** A line that begins like this is one of text, unless it is empty. */
  predicate IsTextHead(options: Options, head: Head) {
    && options.prefixLeadSpace <= PrefixColumn(options, head)
    && PrefixColumn(options, head) + options.prefixFullLength <= HeadColumn(head)
  }

  /** The prefix stands where it stands in the first line, and the text behind it. */
  predicate SamePrefix(options: Options, first: Head, head: Head) {
    && PrefixColumn(options, head) == PrefixColumn(options, first)
    && PrefixColumn(options, head) + options.prefixFullLength <= HeadColumn(head)
  }

  /** Whether a next line of text that begins like this belongs to the paragraph of the lines before it. */
  predicate Belongs(options: Options, lines: seq<TextLine>, head: Head)
    requires lines != []
  {
    var first := lines[0].head;
    && SamePrefix(options, first, head) && !options.splitOnly
    && if options.crownMargin then |lines| == 1 || HeadColumn(head) == HeadColumn(lines[1].head)
       else if options.taggedParagraph then
         if |lines| == 1 then HeadColumn(head) != HeadColumn(first) else HeadColumn(head) == HeadColumn(lines[1].head)
       else HeadColumn(head) == HeadColumn(first)
  }

  /** A paragraph with two indents that has been flushed no longer knows the second one. */
  predicate Sure(options: Options, lines: seq<TextLine>) {
    OneIndent(options) || |lines| == 1 || Roomy(lines)
  }

  /** Each line belongs to the paragraph of the ones before it. */
  ghost predicate Joined(options: Options, lines: seq<TextLine>) {
    && (lines != [] ==> IsTextHead(options, lines[0].head))
    && forall i :: 0 < i < |lines| ==> Joins(options, lines[..i], lines[i].head)
  }

  predicate Joins(options: Options, lines: seq<TextLine>, head: Head)
    requires lines != []
  {
    && SamePrefix(options, lines[0].head, head) && !options.splitOnly
    && (Sure(options, lines) ==> Belongs(options, lines, head))
  }

  /** A line of text that begins like this does not belong to the paragraph any more. */
  predicate Stops(options: Options, lines: seq<TextLine>, head: Head)
    requires lines != []
  {
    Sure(options, lines) ==> !Belongs(options, lines, head)
  }

  lemma JoinedSnoc(options: Options, lines: seq<TextLine>, line: TextLine)
    requires Joined(options, lines)
    requires if lines == [] then IsTextHead(options, line.head) else Joins(options, lines, line.head)
    ensures Joined(options, lines + [line])
  {
    var all := lines + [line];
    forall i | 0 < i < |all| ensures Joins(options, all[..i], all[i].head) {
      assert all[..i] == lines[..i];
    }
  }

  /**
   * The indent of the lines behind the first one: that of the first or the second line read. A
   * tagged paragraph of one line has that of the paragraph before it, unless it is its own.
   */
  function OtherIndent(options: Options, before: nat, lines: seq<TextLine>): nat
    requires lines != []
  {
    var first := HeadColumn(lines[0].head);
    if OneIndent(options) then first
    else if |lines| > 1 then HeadColumn(lines[1].head)
    else if options.crownMargin then first
    else if before != first then before
    else if first == 0 then 3 else 0
  }

  /**
   * The column of the lines behind the first one, which is behind their prefix in any case; unless
   * the indent changed while the paragraph was being read.
   */
  function OtherColumn(options: Options, lines: seq<TextLine>, other: nat): Option<nat>
    requires lines != []
  {
    if !OneIndent(options) && !Roomy(lines) then None
    else
      var margin := PrefixColumn(options, lines[0].head) + |options.prefix|;
      Some(if other < margin then margin else other)
  }

  /** The lines printed have the prefix where the first line read has it, and begin in the columns read. */
  function FormOf(options: Options, lines: seq<TextLine>, other: nat): Form
    requires lines != []
  {
    Form(PrefixColumn(options, lines[0].head), options.prefix, HeadColumn(lines[0].head),
         OtherColumn(options, lines, other))
  }

  /** The words of a paragraph, as they are to be printed. */
  function ParaTokens(options: Options, lines: seq<TextLine>): seq<Token>
    requires GoodLines(options.prefix, lines)
  {
    Ended(LinesTokens(options.prefix, options.uniformSpacing, lines))
  }

  /** What there is to lay out. */
  function ParaOf(options: Options, lines: seq<TextLine>, other: nat): Paragraph
    requires GoodLines(options.prefix, lines) && lines != []
  {
    Paragraph(WordsOf(ParaTokens(options, lines)), HeadColumn(lines[0].head), other, options.width, options.goal, 0)
  }

  /** Nothing but the blanks and the prefix of a copied line, and a line end if it has no text. */
  predicate IsCopyMargin(margin: seq<Piece>, head: Head, body: seq<char>) {
    && TextOf(margin) == [] && PrefixesOf(margin) == head.matched
    && (body != [] ==> After(0, margin) == HeadColumn(head))
  }

  /** The output is right for a line outside paragraphs: its prefix, and its text from the column on where it was. */
  ghost predicate FaithfulCopy(options: Options, head: Head, body: seq<char>, margin: seq<Piece>) {
    && IsHead(options.prefix, head) && EndsHead(options.prefix, head, if body == [] then 10 else body[0] as int)
    && '\n' !in body && IsCopyMargin(margin, head, body)
    && (body != [] ==> !IsTextHead(options, head))
  }

  /**
   * The output is right for a paragraph. It has all its text. If no word is longer than the
   * buffer, its lines are the words in order with the gaps their input asks for, behind the
   * prefix and in the columns of the input; and if the paragraph is laid out in one piece,
   * these lines are the cheapest layout of its words.
   */
  ghost predicate FaithfulPara(options: Options, lines: seq<TextLine>, pieces: seq<Piece>, other: nat) {
    && lines != [] && GoodLines(options.prefix, lines) && Joined(options, lines)
    && TextOf(pieces) == LinesText(lines)
    && (Short(lines) ==> WellSet(FormOf(options, lines, other), pieces, ParaTokens(options, lines)))
    && (Roomy(lines) ==> LaidOut(ParaOf(options, lines, other), RowsOf(pieces)))
  }

  ghost predicate Faithful(options: Options, block: Block) {
    match block
    case Copied(head, body, margin, _) => FaithfulCopy(options, head, body, margin)
    case Para(lines, pieces, other) => FaithfulPara(options, lines, pieces, other)
  }

  /** Two paragraphs in a row could not have been one. */
  ghost predicate Apart(options: Options, a: Block, b: Block) {
    a.Para? && b.Para? && a.lines != [] && b.lines != [] ==> Stops(options, a.lines, b.lines[0].head)
  }

  ghost predicate AllFaithful(options: Options, doc: seq<Block>) {
    && (forall i :: 0 <= i < |doc| ==> Faithful(options, doc[i]))
    && (forall i :: 0 < i < |doc| ==> Apart(options, doc[i - 1], doc[i]))
  }

  /** The other indent of the last paragraph, 0 at the start. */
  function LastOther(doc: seq<Block>): nat {
    if doc == [] then 0
    else
      var last := doc[|doc| - 1];
      if last.Para? then last.other else LastOther(doc[..|doc| - 1])
  }

  predicate OtherIs(options: Options, front: seq<Block>, block: Block) {
    block.Para? && block.lines != [] && (OneIndent(options) || Roomy(block.lines)) ==>
      block.other == OtherIndent(options, LastOther(front), block.lines)
  }

  /** Every paragraph has the other indent that its lines ask for, and the paragraphs before it. */
  predicate OthersFollow(options: Options, doc: seq<Block>) {
    forall i :: 0 <= i < |doc| ==> OtherIs(options, doc[..i], doc[i])
  }

  lemma OthersSnoc(options: Options, doc: seq<Block>, block: Block)
    requires OthersFollow(options, doc) && OtherIs(options, doc, block)
    ensures OthersFollow(options, doc + [block])
    ensures LastOther(doc + [block]) == if block.Para? then block.other else LastOther(doc)
  {
    var all := doc + [block];
    assert all[..|doc|] == doc;
    hide OtherIs;
    forall i | 0 <= i < |all| ensures OtherIs(options, all[..i], all[i]) {
      assert all[..i] == doc[..i];
    }
  }

  lemma FaithfulSnoc(options: Options, doc: seq<Block>, block: Block)
    requires AllFaithful(options, doc) && Faithful(options, block)
    requires doc != [] ==> Apart(options, doc[|doc| - 1], block)
    ensures AllFaithful(options, doc + [block])
  {
    hide Faithful, Apart;
  }

  lemma FaithfulFront(options: Options, doc: seq<Block>)
    requires AllFaithful(options, doc) && doc != []
    ensures AllFaithful(options, doc[..|doc| - 1]) && Faithful(options, doc[|doc| - 1])
  {
    hide Faithful, Apart;
  }

  function RawDoc(doc: seq<Block>): seq<char> {
    if doc == [] then [] else RawDoc(doc[..|doc| - 1]) + RawBlock(doc[|doc| - 1])
  }

  function DocPieces(doc: seq<Block>): seq<Piece> {
    if doc == [] then [] else DocPieces(doc[..|doc| - 1]) + PiecesOf(doc[|doc| - 1])
  }

  function DocText(doc: seq<Block>): seq<char> {
    if doc == [] then [] else DocText(doc[..|doc| - 1]) + BlockText(doc[|doc| - 1])
  }

  lemma DocSnoc(doc: seq<Block>, block: Block)
    ensures RawDoc(doc + [block]) == RawDoc(doc) + RawBlock(block)
    ensures DocPieces(doc + [block]) == DocPieces(doc) + PiecesOf(block)
    ensures DocText(doc + [block]) == DocText(doc) + BlockText(block)
  {
    assert (doc + [block])[..|doc|] == doc;
  }

  lemma {:induction false} VerbatimText(text: seq<char>)
    requires '\n' !in text
    ensures TextOf(Verbatim(text)) == Ink(text) && PrefixesOf(Verbatim(text)) == []
  {
    if text != [] {
      var front, c := text[..|text| - 1], text[|text| - 1];
      VerbatimText(front);
      PieceAdds(Verbatim(front), if IsBlank(c as int) then Blank(c) else Text([c]));
      InkSnoc(front, c);
      assert front + [c] == text;
    }
  }

  /** The text printed is that of the blocks. */
  lemma {:induction false} DocTextIsPrinted(options: Options, doc: seq<Block>)
    requires AllFaithful(options, doc)
    ensures TextOf(DocPieces(doc)) == DocText(doc)
  {
    if doc != [] {
      hide AllFaithful, Faithful;
      var front, last := doc[..|doc| - 1], doc[|doc| - 1];
      FaithfulFront(options, doc);
      DocTextIsPrinted(options, front);
      PiecesAdd(DocPieces(front), PiecesOf(last));
      BlockTextIsPrinted(options, last);
    }
  }

  lemma CopyIsPrinted(margin: seq<Piece>, body: seq<char>, ended: bool)
    requires TextOf(margin) == [] && '\n' !in body
    ensures TextOf(margin + Verbatim(body) + if ended then [LineEnd] else []) == Ink(body)
  {
    VerbatimText(body);
    PiecesAdd(margin, Verbatim(body));
    hide TextOf, Verbatim, Ink;
    assert [] + Ink(body) == Ink(body);
    if ended {
      PieceAdds(margin + Verbatim(body), LineEnd);
    } else {
      assert margin + Verbatim(body) + [] == margin + Verbatim(body);
    }
  }

  lemma BlockTextIsPrinted(options: Options, block: Block)
    requires Faithful(options, block)
    ensures TextOf(PiecesOf(block)) == BlockText(block)
  {
    hide WellSet, LaidOut, GoodLines, Joined, Short, Roomy, TextOf, Verbatim, Ink, LinesText, IsHead, EndsHead;
    match block
    case Copied(_, body, margin, ended) =>
      CopyIsPrinted(margin, body, ended);
    case Para(_, _, _) =>
  }

  // ------------------------------------------------------------ words that stay apart

  /** What comes behind word k of a line. */
  function EndAt(line: TextLine, k: nat): End {
    if k + 1 < |line.words| then Inside else line.end
  }

  /** The column of the input that word k of a line starts in. */
  function WordColumnIn(line: TextLine, k: nat): nat
    requires k < |line.words|
  {
    ColumnFrom(HeadColumn(line.head), RawWords(line.words[..k]))
  }

  lemma {:induction false} TokenInLine(uniform: bool, column: nat, words: seq<Spelled>, end: End, k: nat)
    requires AllSpelled(words) && k < |words|
    ensures Tokens(uniform, column, words, end)[k] ==
      TokenOf(uniform, ColumnFrom(column, RawWords(words[..k])), words[k], if k + 1 < |words| then Inside else end)
  {
    var n := |words| - 1;
    assert Tokens(uniform, column, words, end) == Tokens(uniform, column, words[..n], Inside)
      + [TokenOf(uniform, ColumnFrom(column, RawWords(words[..n])), words[n], end)];
    hide Tokens, TokenOf, ColumnFrom, RawWords, IsSpelled;
    if k < n {
      TokenInLine(uniform, column, words[..n], Inside, k);
      assert words[..n][..k] == words[..k];
    }
  }

  lemma LineToken(prefix: seq<char>, uniform: bool, line: TextLine, k: nat)
    requires GoodLine(prefix, line) && k < |line.words|
    ensures var tokens := LineTokens(prefix, uniform, line);
      && |tokens| == |line.words| && tokens[k].text == line.words[k].text
      && tokens[k] == TokenOf(uniform, WordColumnIn(line, k), line.words[k], EndAt(line, k))
  {
    TokenInLine(uniform, HeadColumn(line.head), line.words, line.end, k);
  }

  lemma LinesTokensSplit(prefix: seq<char>, uniform: bool, lines: seq<TextLine>, i: nat)
    requires GoodLines(prefix, lines) && i < |lines|
    ensures GoodLine(prefix, lines[i]) && lines[i].words != [] && AllSpelled(lines[i].words)
    ensures LinesTokens(prefix, uniform, lines)
         == LinesTokens(prefix, uniform, lines[..|lines| - 1]) + LineTokens(prefix, uniform, lines[|lines| - 1])
  {
    assert GoodLine(prefix, lines[i]) && GoodLine(prefix, lines[|lines| - 1]);
  }

  /** The text of the word that follows word k of line i in the paragraph. */
  function NextText(lines: seq<TextLine>, i: nat, k: nat): seq<char>
    requires i < |lines| && k < |lines[i].words|
    requires k + 1 == |lines[i].words| ==> i + 1 < |lines| && lines[i + 1].words != []
  {
    if k + 1 < |lines[i].words| then lines[i].words[k + 1].text else lines[i + 1].words[0].text
  }

  /** The number of the token of word k in line i, which the next word of the input follows. */
  lemma {:induction false} TokenNumber(prefix: seq<char>, uniform: bool, lines: seq<TextLine>, i: nat, k: nat)
      returns (t: nat)
    requires GoodLines(prefix, lines) && i < |lines| && k < |lines[i].words|
    ensures GoodLine(prefix, lines[i]) && (i + 1 < |lines| ==> lines[i + 1].words != [])
    ensures var tokens := LinesTokens(prefix, uniform, lines);
      && t < |tokens|
      && tokens[t] == TokenOf(uniform, WordColumnIn(lines[i], k), lines[i].words[k], EndAt(lines[i], k))
      && (k + 1 < |lines[i].words| || i + 1 < |lines| ==>
            t + 1 < |tokens| && tokens[t + 1].text == NextText(lines, i, k))
      && (k + 1 == |lines[i].words| && i + 1 == |lines| ==> t + 1 == |tokens|)
  {
    var n := |lines| - 1;
    LinesTokensSplit(prefix, uniform, lines, i);
    assert i < n ==> GoodLine(prefix, lines[i + 1]);
    hide LineTokens, LinesTokens, TokenOf, WordColumnIn, GoodLines;
    var front, last := LinesTokens(prefix, uniform, lines[..n]), lines[n];
    if i == n {
      t := |front| + k;
      LineToken(prefix, uniform, last, k);
      if k + 1 < |last.words| {
        LineToken(prefix, uniform, last, k + 1);
      }
    } else {
      t := TokenNumber(prefix, uniform, lines[..n], i, k);
      LineToken(prefix, uniform, last, 0);
    }
  }

  /**
   * Two words in a row that a blank or a line end separates in the input: in the output, the
   * second one is the first word of the next line, or it follows in the same line behind a
   * gap that is as wide as the input asks for, and not empty.
   */
  lemma WordsStayApart(options: Options, lines: seq<TextLine>, pieces: seq<Piece>, other: nat, i: nat, k: nat)
      returns (l: nat, m: nat)
    requires FaithfulPara(options, lines, pieces, other) && Short(lines)
    requires i < |lines| && k < |lines[i].words| && (k + 1 < |lines[i].words| || i + 1 < |lines|)
    requires k + 1 < |lines[i].words| ==> lines[i].words[k].blanks != []
    ensures k + 1 == |lines[i].words| ==> lines[i + 1].words != []
    ensures var word, rows, next := lines[i].words[k], RowsOf(pieces), NextText(lines, i, k);
      && l < |rows| && m < |rows[l].items| && rows[l].items[m].text == word.text != []
      && (if m + 1 < |rows[l].items| then
            var gap := Gap(options.uniformSpacing, WordColumnIn(lines[i], k), word, EndAt(lines[i], k));
            rows[l].items[m + 1] == Item(gap, next) && gap > 0
          else l + 1 < |rows| && rows[l + 1].items != [] && rows[l + 1].items[0].text == next)
  {
    hide Joined, LaidOut, AllAligned, Roomy;
    var t := TokenNumber(options.prefix, options.uniformSpacing, lines, i, k);
    GapIsPositive(options.uniformSpacing, WordColumnIn(lines[i], k), lines[i].words[k], EndAt(lines[i], k));
    hide LinesTokens, Tokens, Gap, Typeset, PageAfter, GoodLines, RawWords, ColumnFrom, Ended;
    l, m := TokenStands(RowsOf(pieces), ParaTokens(options, lines), t);
  }

  // ------------------------------------------------------------------------ the ink

  lemma {:induction false} BlankInk(s: seq<char>)
    requires AllBlank(s)
    ensures Ink(s) == []
  {
    if s != [] {
      BlankInk(s[1..]);
    }
  }

  lemma {:induction false} DarkInk(s: seq<char>)
    requires forall i :: 0 <= i < |s| ==> IsDark(s[i] as int)
    ensures Ink(s) == s
  {
    if s != [] {
      DarkInk(s[1..]);
      assert s == [s[0]] + s[1..];
    }
  }

  lemma {:induction false} WordsInk(words: seq<Spelled>)
    requires AllSpelled(words)
    ensures Ink(RawWords(words)) == WordsText(words)
  {
    if words != [] {
      var front, last := words[..|words| - 1], words[|words| - 1];
      assert IsSpelled(last);
      WordsInk(front);
      DarkInk(last.text);
      BlankInk(last.blanks);
      InkInTwo(RawWords(front), last.text);
      InkInTwo(RawWords(front) + last.text, last.blanks);
      assert WordsText(front) + last.text + [] == WordsText(front) + last.text;
    }
  }

  lemma HeadInk(prefix: seq<char>, head: Head)
    requires IsHead(prefix, head)
    ensures Ink("\n" + RawHead(head)) == Ink(head.matched)
  {
    BlankInk(head.indent);
    BlankInk(head.rest);
    InkInTwo("\n", RawHead(head));
    InkInTwo(head.indent + head.matched, head.rest);
    InkInTwo(head.indent, head.matched);
    InkSnoc([], '\n');
    assert [] + ['\n'] == "\n";
    assert Ink(RawHead(head)) == Ink(head.matched);
  }

  /** The ink of the prefixes and of the texts, as it comes in the input. */
  function LinesInk(lines: seq<TextLine>): seq<char> {
    if lines == [] then []
    else
      var last := lines[|lines| - 1];
      LinesInk(lines[..|lines| - 1]) + (Ink(last.head.matched) + WordsText(last.words))
  }

  function BlockInk(block: Block): seq<char> {
    match block
    case Copied(head, body, _, _) => Ink(head.matched) + Ink(body)
    case Para(lines, _, _) => LinesInk(lines)
  }

  function DocInk(doc: seq<Block>): seq<char> {
    if doc == [] then [] else DocInk(doc[..|doc| - 1]) + BlockInk(doc[|doc| - 1])
  }

  lemma LineHoldsInk(prefix: seq<char>, line: TextLine)
    requires GoodLine(prefix, line)
    ensures Ink(RawLine(line)) == Ink(line.head.matched) + WordsText(line.words)
    ensures prefix == [] ==> Ink(line.head.matched) + WordsText(line.words) == WordsText(line.words)
  {
    hide WordsText, RawWords, RawHead;
    NoInk(line.head.matched[..0]);
    hide Ink;
    HeadInk(prefix, line.head);
    WordsInk(line.words);
    InkInTwo("\n" + RawHead(line.head), RawWords(line.words));
  }

  lemma {:induction false} LinesHoldInk(prefix: seq<char>, lines: seq<TextLine>)
    requires GoodLines(prefix, lines)
    ensures Ink(RawLines(lines)) == LinesInk(lines)
    ensures prefix == [] ==> LinesInk(lines) == LinesText(lines)
  {
    hide RawLine, WordsText, GoodLine;
    if lines == [] {
      NoInk(RawLines(lines));
    } else {
      hide Ink;
      var front, last := lines[..|lines| - 1], lines[|lines| - 1];
      assert GoodLine(prefix, last);
      LinesHoldInk(prefix, front);
      LineHoldsInk(prefix, last);
      InkInTwo(RawLines(front), RawLine(last));
    }
  }

  lemma BlockHoldsInk(options: Options, block: Block)
    requires Faithful(options, block)
    ensures Ink(RawBlock(block)) == BlockInk(block)
    ensures options.prefix == [] ==> BlockInk(block) == BlockText(block)
  {
    hide WellSet, LaidOut, Joined, Short, Roomy, TextOf, Verbatim, FormOf, ParaOf, ParaTokens;
    match block
    case Copied(head, body, _, _) =>
      HeadInk(options.prefix, head);
      InkInTwo("\n" + RawHead(head), body);
    case Para(lines, _, _) =>
      LinesHoldInk(options.prefix, lines);
  }

  /** The blocks hold all ink of the input; without a prefix it is the text printed. */
  lemma {:induction false} DocHoldsInk(options: Options, doc: seq<Block>)
    requires AllFaithful(options, doc)
    ensures Ink(RawDoc(doc)) == DocInk(doc)
    ensures options.prefix == [] ==> DocInk(doc) == DocText(doc)
  {
    if doc != [] {
      hide AllFaithful, Faithful;
      var front, last := doc[..|doc| - 1], doc[|doc| - 1];
      FaithfulFront(options, doc);
      DocHoldsInk(options, front);
      BlockHoldsInk(options, last);
      InkInTwo(RawDoc(front), RawBlock(last));
    }
  }
}
