/** The paragraph buffer of fmt: words read from a stream, flushed when the buffer is full. */
module FmtEngine {
  import opened FmtBreaks
  import opened FmtPrinter
  import opened FmtReader
  import opened FmtSteps
  import opened FmtTable
  import opened FmtText
  import opened Sequences
  import opened Wrappers

  class Engine {
    const options: Options
    const reader: Reader
    const printer: Printer
    const parabuf: array<char>
    const words: array<Word>
    const breaks: array<Break>
    var wptr: nat
    var wordLimit: nat
    var prefixIndent: nat
    var firstIndent: nat
    var otherIndent: nat
    var lastLineLength: nat
    ghost var sheet: Sheet

    constructor (options: Options, reader: Reader, printer: Printer)
      ensures this.options == options && this.reader == reader && this.printer == printer
      ensures fresh(parabuf) && fresh(words) && fresh(breaks)
      ensures parabuf.Length == MAX_CHARS && words.Length == MAX_WORDS && breaks.Length == MAX_WORDS
      ensures wptr == 0 && wordLimit == 0
    {
      this.options, this.reader, this.printer := options, reader, printer;
      parabuf := new char[MAX_CHARS];
      words := new Word[MAX_WORDS](_ => Word(0, 0, 0, false, false, false, false));
      breaks := new Break[MAX_WORDS](_ => Break(0, 0, 0));
      wptr, wordLimit := 0, 0;
      prefixIndent, firstIndent, otherIndent, lastLineLength := 0, 0, 0, 0;
      sheet := Sheet([], [], [], false);
    }

    predicate Sized() {
      && options.Valid() && reader.options == options
      && parabuf.Length == MAX_CHARS && words.Length == MAX_WORDS && breaks.Length == MAX_WORDS
    }

    /** The buffer holds words, and the layout stays within the bounds of the costs. */
    ghost predicate Valid()
      reads this`wptr, this`wordLimit, this`firstIndent, this`otherIndent, this`prefixIndent, this`lastLineLength, words
    {
      && Sized()
      && wordLimit <= MAX_WORDS - 2
      && Laid(words[..], wordLimit, wptr) && wptr <= MAX_CHARS
      && firstIndent <= MAX_INDENT && otherIndent <= MAX_INDENT
      && prefixIndent + |options.prefix| <= firstIndent
      && lastLineLength <= 2 * MAX_INDENT + MAX_CHARS
    }

    /** The word being read starts behind the others. */
    ghost predicate Open()
      requires Valid()
      reads this, words
    {
      words[wordLimit].text == Start(words[..], wordLimit)
    }

    /** The text of the paragraph's words so far: what is printed, and behind it what is in the buffer. */
    ghost function Story(): seq<char>
      requires Sized() && wptr <= MAX_CHARS
      reads this`wptr, this`sheet, parabuf
    {
      TextOf(sheet.pieces) + parabuf[..wptr]
    }

    /** The words in the buffer. */
    ghost function Held(): (tokens: seq<Token>)
      requires Sized() && wordLimit <= MAX_WORDS
      reads this`wordLimit, words, parabuf
      ensures |tokens| == wordLimit
    {
      HeldTokens(parabuf[..], words[..wordLimit])
    }

    /** The words of the paragraph so far, printed or in the buffer. */
    ghost function AllTokens(): seq<Token>
      requires Sized() && wordLimit <= MAX_WORDS
      reads this`wordLimit, this`sheet, words, parabuf
    {
      sheet.tokens + Held()
    }

    /** The column the text of a line begins in: its indent, or behind a prefix that reaches past it. */
    ghost function RowColumn(indent: nat): nat
      reads this`prefixIndent
    {
      var margin := prefixIndent + |options.prefix|;
      if indent < margin then margin else indent
    }

    /** How the lines stand that are printed before the paragraph is complete. */
    ghost function SheetForm(): Form
      reads this`prefixIndent, this`firstIndent
    {
      Form(prefixIndent, options.prefix, firstIndent, if OneIndent(options) then Some(firstIndent) else None)
    }

    /**
     * The output ends in what the paragraph has become, which is right unless a word was torn;
     * and something was printed only because the text or the number of words filled the buffer.
     */
    ghost predicate Typing()
      reads this`sheet, this`wptr, this`wordLimit, this`prefixIndent, this`firstIndent, this`lastLineLength, printer`out
    {
      && Printed()
      && (if sheet.pieces == [] then !sheet.torn && lastLineLength == 0 else Crowded())
    }

    /** The text or the number of words has filled the buffer. */
    ghost predicate Crowded()
      reads this`sheet, this`wptr, this`wordLimit
    {
      |TextOf(sheet.pieces)| + wptr >= MAX_CHARS || |sheet.tokens| + wordLimit >= MAX_WORDS - 2
    }

    /** What is in the buffer of the word being read. */
    ghost function OpenText(): seq<char>
      requires Sized() && wordLimit < MAX_WORDS && words[wordLimit].text <= wptr <= MAX_CHARS
      reads this`wptr, this`wordLimit, words, parabuf
    {
      parabuf[words[wordLimit].text..wptr]
    }

    function Current(): Paragraph
      requires Sized() && wordLimit <= MAX_WORDS
      reads this`wordLimit, this`firstIndent, this`otherIndent, this`lastLineLength, words
    {
      Paragraph(words[..wordLimit], firstIndent, otherIndent, options.width, options.goal, lastLineLength)
    }

    /** p is the paragraph in the buffer, as it was before its first lines were printed. */
    ghost predicate Describes(p: Paragraph)
      requires Sized() && wordLimit <= MAX_WORDS
      reads this`wordLimit, this`firstIndent, this`otherIndent, words
    {
      p == Paragraph(words[..wordLimit], firstIndent, otherIndent, options.width, options.goal, p.lastLineLength)
    }

    // ----------------------------------------------------------------------- printing

    /** The text of words i to j - 1. */
    ghost function Words(i: nat, j: nat): seq<char>
      requires Valid() && i <= j <= wordLimit
      reads this, words, parabuf
    {
      TextBetween(parabuf[..], words[..], wordLimit, wptr, i, j)
    }

    /** The text of a word, behind that of the words from first on. */
    method WordText(first: nat, word: nat) returns (text: seq<char>)
      requires Valid() && first <= word < wordLimit
      ensures Words(first, first) == [] && Words(first, word + 1) == Words(first, word) + text
      ensures |text| == words[word].length && text == Held()[word].text
    {
      WordEnds(words[..], wordLimit, wptr, word);
      ghost var buf, ws := parabuf[..], words[..];
      TextBetweenSnoc(buf, ws, wordLimit, wptr, first, word);
      text := parabuf[words[word].text..words[word].text + words[word].length];
      assert text == buf[ws[word].text..ws[word].text + ws[word].length];
    }

    lemma LineLength(p: Paragraph, first: nat, word: nat)
      requires Valid() && first <= word < wordLimit && Describes(p)
      ensures Length(p, first, first + 1) == (if first == 0 then firstIndent else otherIndent) + words[first].length
      ensures word + 1 < wordLimit ==>
        Length(p, first, word + 2) == Length(p, first, word + 1) + words[word].space + words[word + 1].length
    {
      if word + 1 < wordLimit {
        LengthStep(p, first, word + 1);
      }
    }

    /** A word and the blanks behind it. */
    method PutSpaced(text: seq<char>, word: nat, ghost now: Page) returns (ghost pieces: seq<Piece>)
      requires Sized() && word < MAX_WORDS && printer.ok && now.column == printer.outColumn
      modifies printer
      ensures printer.ok || printer.room == 0
      ensures printer.ok ==> printer.out == old(printer.out) + pieces
      ensures printer.ok ==> Spaced(now, text, words[word].space, pieces, printer.outColumn)
    {
      hide TextOf, PrefixesOf, After, PageAfter, Blanks;
      pieces := [];
      printer.PutWord(text);
      if !printer.ok {
        return;
      }
      ghost var said := [Text(text)];
      var written;
      ghost var blanks;
      written, blanks := printer.PutSpace(words[word].space, reader.tabs);
      if written {
        pieces := said + blanks;
        Regroup(old(printer.out), said, blanks);
        WordSays(text, said, blanks);
        WordSeen(now, text, said, blanks);
        WordColumn(now.column, text, said, blanks);
      }
    }

    /** The words first to word - 1 of a line are printed, with the blanks behind them, and text comes next. */
    ghost predicate LineSoFar(p: Paragraph, margin: int, page: Page, out: seq<Piece>, first: nat, word: nat,
                              text: seq<char>, pieces: seq<Piece>, items: seq<Item>, end: nat)
      requires Valid() && first <= word < wordLimit
      reads this, printer, words, parabuf
    {
      && printer.out == out + pieces && TextOf(pieces) == Words(first, word)
      && Words(first, word + 1) == Words(first, word) + text && text == Held()[word].text
      && Describes(p) && printer.outColumn + |text| == margin + Length(p, first, word + 1)
      && SoFar(page, Held(), first, word, pieces, items, end, printer.outColumn)
    }

    /** The words of a line, with their blanks between them. */
    method PutWords(first: nat, next: nat, ghost p: Paragraph, ghost margin: int, ghost page: Page)
        returns (ghost pieces: seq<Piece>, ghost items: seq<Item>)
      requires Valid() && first < next <= wordLimit && printer.ok
      requires page.row.items == [] && page.column == printer.outColumn
      requires Describes(p) && margin == printer.outColumn - (if first == 0 then firstIndent else otherIndent)
      modifies printer
      ensures printer.ok || printer.room == 0
      ensures printer.ok ==> printer.out == old(printer.out) + pieces
      ensures printer.ok ==> TextOf(pieces) == Words(first, next) && PrefixesOf(pieces) == []
      ensures printer.ok ==> After(page.column, pieces) == printer.outColumn == margin + Length(p, first, next)
      ensures printer.ok ==> items != [] && Sets(items, Held()[first..next]) && items[0].gap == page.column - page.end
      ensures printer.ok ==>
        var end := printer.outColumn; PageAfter(page, pieces) == Page(page.lines, page.row.(items := items), end, end)
    {
      hide TextOf, PrefixesOf, After, PageAfter, Length, TextBetween, Laid, Describes, HeldTokens, Sets, LineSoFar;
      ghost var end;
      pieces, items, end := [], [], page.end;
      var word := first;
      var text := WordText(first, word);
      LineStarts(p, margin, page, first, text);
      while word != next - 1
        invariant first <= word <= next - 1 && printer.ok
        invariant LineSoFar(p, margin, page, old(printer.out), first, word, text, pieces, items, end)
      {
        text, pieces, items, end := PutWord(text, word, first, p, margin, page, old(printer.out), pieces, items, end);
        if !printer.ok {
          return;
        }
        word := word + 1;
      }
      pieces, items := PutLast(text, word, first, p, margin, page, old(printer.out), pieces, items, end);
    }

    lemma LineStarts(p: Paragraph, margin: int, page: Page, first: nat, text: seq<char>)
      requires Valid() && first < wordLimit
      requires page.row.items == [] && page.column == printer.outColumn
      requires Describes(p) && margin == printer.outColumn - (if first == 0 then firstIndent else otherIndent)
      requires Words(first, first) == [] && Words(first, first + 1) == Words(first, first) + text
      requires |text| == words[first].length && text == Held()[first].text
      ensures LineSoFar(p, margin, page, printer.out, first, first, text, [], [], page.end)
    {
      hide TextOf, SoFar, Length, TextBetween, Laid, HeldTokens;
      LineLength(p, first, first);
      NothingSoFar(page, Held(), first);
      assert printer.out == printer.out + [];
    }

    /** One more word of a line and the blanks behind it. */
    method PutWord(text: seq<char>, word: nat, first: nat, ghost p: Paragraph, ghost margin: int, ghost page: Page,
                   ghost out: seq<Piece>, ghost pieces: seq<Piece>, ghost items: seq<Item>, ghost end: nat)
        returns (next: seq<char>, ghost pieces': seq<Piece>, ghost items': seq<Item>, ghost end': nat)
      requires Valid() && first <= word < wordLimit - 1 && printer.ok
      requires LineSoFar(p, margin, page, out, first, word, text, pieces, items, end)
      modifies printer
      ensures printer.ok || printer.room == 0
      ensures printer.ok ==> LineSoFar(p, margin, page, out, first, word + 1, next, pieces', items', end')
    {
      ghost var column := printer.outColumn;
      hide TextOf, PageAfter, Spaced, SoFar, Length, TextBetween, Laid, Describes, HeldTokens;
      next, pieces', items', end' := [], [], [], 0;
      ghost var more := PutSpaced(text, word, PageAfter(page, pieces));
      if !printer.ok {
        return;
      }
      next := WordText(first, word + 1);
      pieces', items', end' := pieces + more, items + [Item(column - end, text)], column + |text|;
      LineGrows(p, margin, page, out, first, word, text, pieces, items, end, column, more, next);
    }

    lemma LineGrows(p: Paragraph, margin: int, page: Page, out: seq<Piece>, first: nat, word: nat, text: seq<char>,
                    pieces: seq<Piece>, items: seq<Item>, end: nat, column: nat, more: seq<Piece>, next: seq<char>)
      requires Valid() && first <= word < wordLimit - 1 && printer.out == out + pieces + more
      requires TextOf(pieces) == Words(first, word) && text == Held()[word].text
      requires Words(first, word + 1) == Words(first, word) + text
      requires Describes(p) && column + |text| == margin + Length(p, first, word + 1)
      requires SoFar(page, Held(), first, word, pieces, items, end, column)
      requires Spaced(PageAfter(page, pieces), text, words[word].space, more, printer.outColumn)
      requires Words(first, word + 2) == Words(first, word + 1) + next
      requires |next| == words[word + 1].length && next == Held()[word + 1].text
      ensures LineSoFar(p, margin, page, out, first, word + 1, next, pieces + more,
                        items + [Item(column - end, text)], column + |text|)
    {
      LineLength(p, first, word);
      hide TextOf, PageAfter, Spaced, SoFar, Length, TextBetween, Laid, Describes, HeldTokens;
      OneMoreItem(page, Held(), first, word, pieces, items, end, column, more, printer.outColumn);
      Regroup(out, pieces, more);
    }

    /** The last word of a line, with no blanks behind it. */
    method PutLast(text: seq<char>, word: nat, ghost first: nat, ghost p: Paragraph, ghost margin: int,
                   ghost page: Page, ghost out: seq<Piece>, ghost pieces: seq<Piece>, ghost items: seq<Item>,
                   ghost end: nat)
        returns (ghost pieces': seq<Piece>, ghost items': seq<Item>)
      requires Valid() && first <= word < wordLimit && printer.ok
      requires LineSoFar(p, margin, page, out, first, word, text, pieces, items, end)
      modifies printer
      ensures printer.ok || printer.room == 0
      ensures printer.ok ==> printer.out == out + pieces'
      ensures printer.ok ==> TextOf(pieces') == Words(first, word + 1) && PrefixesOf(pieces') == []
      ensures printer.ok ==> After(page.column, pieces') == printer.outColumn == margin + Length(p, first, word + 1)
      ensures printer.ok ==> items' != [] && Sets(items', Held()[first..word + 1])
      ensures printer.ok ==> items'[0].gap == page.column - page.end
      ensures printer.ok ==>
        var end := printer.outColumn; PageAfter(page, pieces') == Page(page.lines, page.row.(items := items'), end, end)
    {
      hide TextOf, PrefixesOf, After, PageAfter, Blanks, Length, TextBetween, Laid, Describes, HeldTokens, Sets;
      ghost var item := Item(printer.outColumn - end, text);
      TokenSet(items, Held(), first, word, item);
      LastWord(page, pieces, text);
      Regroup(out, pieces, [Text(text)]);
      printer.PutWord(text);
      pieces', items' := pieces + [Text(text)], items + [item];
    }

    lemma LineIsShort(p: Paragraph, first: nat, next: nat)
      requires Valid() && first < wordLimit && Describes(p) && Feasible(p, first, next)
      ensures first < next <= wordLimit == |p.words| && Length(p, first, next) <= MAX_INDENT + MAX_CHARS
      ensures p.firstIndent == firstIndent && p.otherIndent == otherIndent
    {
      LaidInOrder(words[..], wordLimit, wptr, first, first + 1);
      FeasibleLength(p, first, next);
    }

    /** How wide a line comes out: as planned, or moved right by a prefix that reaches past the indent. */
    function LineWidth(p: Paragraph, first: nat, next: nat): int
      requires first < next <= |p.words|
      reads this`prefixIndent
    {
      var indent := if first == 0 then p.firstIndent else p.otherIndent;
      var margin := prefixIndent + |options.prefix|;
      Length(p, first, next) + if indent < margin then margin - indent else 0
    }

    /** bx_fmt_engine_put_line, for the line from word to its break. */
    method PutLine(first: nat, indent: nat, ghost p: Paragraph, ghost other: Option<nat>)
        returns (ghost pieces: seq<Piece>)
      requires Valid() && first < wordLimit && printer.ok && Describes(p)
      requires Feasible(p, first, breaks[first].nextBreak)
      requires indent == if first == 0 then firstIndent else otherIndent
      modifies printer, this`lastLineLength
      ensures Valid() && (printer.ok || printer.room == 0)
      ensures printer.ok ==> printer.out == old(printer.out) + pieces
      ensures printer.ok ==> TextOf(pieces) == Words(first, breaks[first].nextBreak)
      ensures printer.ok ==> PrefixesOf(pieces) == options.prefix
      ensures printer.ok ==>
        WellSet(Form(prefixIndent, options.prefix, RowColumn(indent), other), pieces,
                Held()[first..breaks[first].nextBreak])
      ensures printer.ok ==>
        |RowsOf(pieces)| == 1 && first + |RowsOf(pieces)[0].items| == breaks[first].nextBreak
      ensures printer.ok ==> pieces != [] && pieces[|pieces| - 1] == LineEnd
      ensures printer.ok ==> After(0, pieces[..|pieces| - 1]) == LineWidth(p, first, breaks[first].nextBreak)
    {
      hide Length, TextOf, PrefixesOf, After, PageAfter, WellSet, RowsOf, Sets, Laid, TextBetween, Describes, Feasible,
           IsMargin;
      pieces := [];
      var next := breaks[first].nextBreak;
      LineIsShort(p, first, next);
      ghost var margin, said, items;
      var written;
      written, margin := printer.PutMargin(prefixIndent, options.prefix, indent, reader.tabs);
      if !written {
        return;
      }
      MarginSays(margin, prefixIndent, options.prefix);
      said, items := PutWords(first, next, p, printer.outColumn - indent, PageAfter(EMPTY, margin));
      if !printer.ok {
        return;
      }
      lastLineLength := printer.outColumn;
      written := printer.Write(LineEnd);
      if written {
        pieces := margin + said + [LineEnd];
        ghost var form := Form(prefixIndent, options.prefix, RowColumn(indent), other);
        LineIsSet(form, margin, said, items, printer.outColumn, Held()[first..next]);
        AfterBoth(0, margin, said);
        LinePieces(old(printer.out), margin, said);
      }
    }

    ghost predicate Planned(p: Paragraph, starts: seq<nat>)
      requires Sized() && wordLimit <= MAX_WORDS - 2
      reads this`wordLimit, this`firstIndent, this`otherIndent, words, breaks
    {
      && Describes(p) && Bounded(p)
      && Solved(p, breaks[..wordLimit + 1], 0)
      && AllFeasible(p, starts) && Follows(breaks[..wordLimit + 1], starts)
      && |starts| > 1 && starts[0] == 0 && starts[|starts| - 1] == wordLimit
    }

    lemma LineAt(p: Paragraph, starts: seq<nat>, k: nat)
      requires Sized() && wordLimit <= MAX_WORDS - 2 && Planned(p, starts) && k + 1 < |starts|
      ensures Describes(p) && starts[k] < starts[k + 1] <= wordLimit
      ensures breaks[starts[k]].nextBreak == starts[k + 1] && Feasible(p, starts[k], starts[k + 1])
      ensures k == 0 <==> starts[k] == 0
    {
      assert NextIs(breaks[..wordLimit + 1], starts[k], starts[k + 1]);
      assert Feasible(p, starts[k], starts[k + 1]);
      Ordered(p, starts, 0, k);
    }

    /** The form is one that the lines of the paragraph fit into. */
    ghost predicate Suits(form: Form)
      reads this`prefixIndent, this`firstIndent, this`otherIndent
    {
      && form.at == prefixIndent && form.prefix == options.prefix && form.first == RowColumn(firstIndent)
      && (form.other.None? || form.other.value == RowColumn(otherIndent))
    }

    /** The first k lines of the plan are printed. */
    ghost predicate LinesPut(form: Form, starts: seq<nat>, k: nat, out: seq<Piece>, pieces: seq<Piece>)
      requires Valid()
      reads this, printer, words, parabuf
    {
      && 0 < k < |starts| && 0 < starts[k] <= wordLimit && printer.out == out + pieces && pieces != []
      && TextOf(pieces) == Words(0, starts[k]) && WellSet(form, pieces, Held()[..starts[k]])
      && Cut(RowsOf(pieces), starts[..k + 1])
    }

    /** The first line of a paragraph. */
    method PutFirstLine(ghost p: Paragraph, ghost starts: seq<nat>, ghost form: Form)
        returns (word: nat, ghost pieces: seq<Piece>)
      requires Valid() && printer.ok && Planned(p, starts) && Suits(form)
      modifies printer, this`lastLineLength
      ensures Valid() && (printer.ok || printer.room == 0)
      ensures |starts| > 1 && word == starts[1]
      ensures printer.ok ==> LinesPut(form, starts, 1, old(printer.out), pieces)
    {
      LineAt(p, starts, 0);
      hide Planned, TextOf, PrefixesOf, WellSet, RowsOf, Cut, After, Describes, Feasible, Laid, HeldTokens, TextBetween;
      pieces := PutLine(0, firstIndent, p, form.other);
      word := breaks[0].nextBreak;
      if printer.ok {
        assert Held()[0..word] == Held()[..word];
        CutFirst(RowsOf(pieces), starts);
      }
    }

    /** One more line of a paragraph. */
    method PutNextLine(word: nat, ghost p: Paragraph, ghost starts: seq<nat>, ghost k: nat, ghost form: Form,
                       ghost out: seq<Piece>, ghost pieces: seq<Piece>) returns (next: nat, ghost pieces': seq<Piece>)
      requires Valid() && printer.ok && Planned(p, starts) && k < |starts| - 1 && LinesPut(form, starts, k, out, pieces)
      requires word == starts[k] && Suits(form)
      modifies printer, this`lastLineLength
      ensures Valid() && (printer.ok || printer.room == 0)
      ensures next == starts[k + 1]
      ensures printer.ok ==> LinesPut(form, starts, k + 1, out, pieces')
    {
      LineAt(p, starts, k);
      hide Planned, TextOf, PrefixesOf, WellSet, RowsOf, Cut, After, Describes, Feasible, Laid, HeldTokens, TextBetween;
      ghost var more := PutLine(word, otherIndent, p, form.other);
      next := breaks[word].nextBreak;
      pieces' := pieces + more;
      if printer.ok {
        NextLinePut(form, starts, k, out, pieces, more);
      }
    }

    lemma NextLinePut(form: Form, starts: seq<nat>, k: nat, out: seq<Piece>, pieces: seq<Piece>, more: seq<Piece>)
      requires Valid() && Suits(form) && 0 < k < |starts| - 1 && 0 < starts[k] < starts[k + 1] <= wordLimit
      requires pieces != [] && printer.out == out + pieces + more
      requires TextOf(pieces) == Words(0, starts[k]) && TextOf(more) == Words(starts[k], starts[k + 1])
      requires WellSet(form, pieces, Held()[..starts[k]]) && Cut(RowsOf(pieces), starts[..k + 1])
      requires
        WellSet(Form(prefixIndent, options.prefix, RowColumn(otherIndent), form.other), more,
                Held()[starts[k]..starts[k + 1]])
      requires |RowsOf(more)| == 1 && starts[k] + |RowsOf(more)[0].items| == starts[k + 1]
      ensures LinesPut(form, starts, k + 1, out, pieces + more)
    {
      hide TextOf, WellSet, RowsOf, Cut, Laid, HeldTokens, TextBetween;
      TextBetweenJoin(parabuf[..], words[..], wordLimit, wptr, 0, starts[k], starts[k + 1]);
      PiecesAdd(pieces, more);
      LineSet(form, pieces, RowColumn(otherIndent), more, Held(), starts[k], starts[k + 1]);
      CutSnoc(RowsOf(pieces), starts[..k + 1], RowsOf(more), starts[k + 1]);
      assert starts[..k + 2] == starts[..k + 1] + [starts[k + 1]];
      Regroup(out, pieces, more);
    }

    /** bx_fmt_engine_put_paragraph: the lines up to the word finish, which starts one of them. */
    method PutParagraph(finish: nat, ghost p: Paragraph, ghost starts: seq<nat>, ghost f: nat, ghost form: Form)
        returns (ghost pieces: seq<Piece>)
      requires Valid() && printer.ok && Planned(p, starts) && Suits(form)
      requires 0 < f < |starts| && finish == starts[f]
      modifies printer, this`lastLineLength
      ensures Valid() && (printer.ok || printer.room == 0)
      ensures printer.ok ==> LinesPut(form, starts, f, old(printer.out), pieces)
    {
      OrderedTo(p, starts, f);
      hide Planned, LinesPut;
      var word;
      word, pieces := PutFirstLine(p, starts, form);
      ghost var k := 1;
      while printer.ok && word != finish
        invariant Valid() && Planned(p, starts) && Suits(form) && 1 <= k <= f && word == starts[k]
        invariant printer.ok || printer.room == 0
        invariant printer.ok ==> LinesPut(form, starts, k, old(printer.out), pieces)
        decreases f - k
      {
        word, pieces := PutNextLine(word, p, starts, k, form, old(printer.out), pieces);
        k := k + 1;
      }
      assert printer.ok ==> k == f;
    }

    /** No other line starts at the word where line f does. */
    lemma OrderedTo(p: Paragraph, starts: seq<nat>, f: nat)
      requires Sized() && wordLimit <= MAX_WORDS - 2 && Planned(p, starts) && f < |starts|
      ensures forall k :: 0 <= k < f ==> starts[k] != starts[f]
    {
      forall k | 0 <= k < f ensures starts[k] != starts[f] {
        Ordered(p, starts, k, f);
      }
    }

    // ----------------------------------------------------------------------- flushing

    lemma CurrentIsBounded()
      requires Valid() && wordLimit > 0
      ensures Bounded(Current())
    {
      forall i | 0 <= i < wordLimit ensures 0 < words[i].length <= MAX_CHARS {
        LaidInOrder(words[..], wordLimit, wptr, i, i + 1);
      }
    }

    /** The loop of bx_fmt_engine_flush_paragraph that looks for the break to stop at. */
    method ChooseSplit(ghost p: Paragraph, ghost starts: seq<nat>) returns (splitPoint: nat, ghost f: nat)
      requires Valid() && Planned(p, starts)
      ensures IsSplit(breaks[..wordLimit + 1], starts, f)
      ensures 0 < f < |starts| && splitPoint == starts[f] && 0 < splitPoint <= wordLimit
    {
      SplitBegins(p, starts);
      hide Planned, Cheapest, Bounded, Describes, Feasible, Laid, IsSplit;
      splitPoint, f := wordLimit, |starts| - 1;
      var bestBreak := MAX_COST;
      var word := breaks[0].nextBreak;
      ghost var k := 1;      while word != wordLimit
        invariant 0 < k < |starts| && word == starts[k] && 0 < f < |starts| && splitPoint == starts[f]
        invariant Cheapest(starts, f, k, bestBreak)
        decreases |starts| - k
      {
        SplitStep(p, starts, f, k, bestBreak);
        var next := breaks[word].nextBreak;
        var delta := breaks[word].bestCost - breaks[next].bestCost;
        if delta < bestBreak {
          splitPoint, f := word, k;
          bestBreak := delta;
        }
        assert bestBreak <= MAX_COST - LINE_CREDIT && Cheapest(starts, f, k + 1, bestBreak + LINE_CREDIT);
        if bestBreak <= MAX_COST - LINE_CREDIT {
          bestBreak := bestBreak + LINE_CREDIT;
        }
        word := next;
        k := k + 1;
      }
      SplitFound(p, starts, f, k, bestBreak);
    }

    /** Of the breaks in front of line k, the one in front of line f is the first of the cheapest. */
    ghost predicate Cheapest(starts: seq<nat>, f: nat, k: nat, bestBreak: int)
      requires Sized() && wordLimit <= MAX_WORDS - 2
      reads this`wordLimit, breaks
    {
      && (forall j :: 0 <= j < |starts| ==> j <= starts[j] <= wordLimit) && 0 < f < |starts|
      && if k == 1 then f == |starts| - 1 && bestBreak == MAX_COST
         else
           var table := breaks[..wordLimit + 1];
           && f < k < |starts| && IsCheapest(table, starts, f, k)
           && bestBreak == BreakCost(table, starts, f) + LINE_CREDIT * k
    }

    lemma SplitBegins(p: Paragraph, starts: seq<nat>)
      requires Sized() && wordLimit <= MAX_WORDS - 2 && Planned(p, starts)
      ensures |starts| > 1 && Cheapest(starts, |starts| - 1, 1, MAX_COST)
      ensures breaks[0].nextBreak == starts[1] && starts[|starts| - 1] == wordLimit
    {
      LinesWithin(p, starts);
      LineAt(p, starts, 0);
    }

    lemma SplitFound(p: Paragraph, starts: seq<nat>, f: nat, k: nat, bestBreak: int)
      requires Sized() && wordLimit <= MAX_WORDS - 2 && Planned(p, starts)
      requires 0 < k < |starts| && starts[k] == wordLimit && Cheapest(starts, f, k, bestBreak)
      ensures IsSplit(breaks[..wordLimit + 1], starts, f) && 0 < starts[f] <= wordLimit
    {
      OrderedTo(p, starts, |starts| - 1);
      LinesWithin(p, starts);
    }

    lemma LinesWithin(p: Paragraph, starts: seq<nat>)
      requires Sized() && wordLimit <= MAX_WORDS - 2 && Planned(p, starts)
      ensures forall k :: 0 <= k < |starts| ==> k <= starts[k] <= wordLimit
    {
      var k := 0;
      while k + 1 < |starts|
        invariant k < |starts| && forall j :: 0 <= j <= k ==> j <= starts[j] <= wordLimit
      {
        LineAt(p, starts, k);
        k := k + 1;
      }
    }

    /** One turn of that loop. */
    lemma SplitStep(p: Paragraph, starts: seq<nat>, f: nat, k: nat, bestBreak: int)
      requires Sized() && wordLimit <= MAX_WORDS - 2 && Planned(p, starts) && 0 < k < |starts|
      requires Cheapest(starts, f, k, bestBreak) && starts[k] != wordLimit
      ensures k + 1 < |starts|
      ensures breaks[starts[k]].nextBreak == starts[k + 1] && 0 < starts[k] < starts[k + 1] <= wordLimit      ensures
        var delta := breaks[starts[k]].bestCost - breaks[starts[k + 1]].bestCost;
        if delta < bestBreak then delta <= MAX_COST - LINE_CREDIT && Cheapest(starts, k, k + 1, delta + LINE_CREDIT)
        else bestBreak <= MAX_COST - LINE_CREDIT && Cheapest(starts, f, k + 1, bestBreak + LINE_CREDIT)
    {
      LineAt(p, starts, k);
      var table := breaks[..wordLimit + 1];
      CreditFits(p, table, starts[k], starts[k + 1]);
      if k > 1 {
        CreditFits(p, table, starts[f], starts[f + 1]);
      }
      hide Planned, Bounded, Solved;
    }

    /** The first memmove of bx_fmt_engine_flush_paragraph. */
    method MoveText(shift: nat)
      requires Sized() && shift <= wptr <= MAX_CHARS
      modifies parabuf
      ensures parabuf[..wptr - shift] == old(parabuf[shift..wptr])
    {
      forall i | 0 <= i < wptr - shift {
        parabuf[i] := parabuf[i + shift];
      }
    }

    /** The loop over the words and the second memmove. */
    method MoveWords(splitPoint: nat, shift: nat)
      requires Sized() && splitPoint <= wordLimit < MAX_WORDS
      requires forall k :: splitPoint <= k <= wordLimit ==> shift <= words[k].text
      modifies words
      ensures Moved(old(words[..]), wordLimit, splitPoint, shift, words[..])
    {
      for k := splitPoint to wordLimit + 1
        invariant forall m :: splitPoint <= m < k ==> words[m] == old(words[m]).(text := old(words[m].text) - shift)
        invariant forall m :: k <= m <= wordLimit ==> words[m] == old(words[m])
      {
        words[k] := words[k].(text := words[k].text - shift);
      }
      forall k | 0 <= k <= wordLimit - splitPoint {
        words[k] := words[k + splitPoint];
      }
    }

    /** The words behind the split point lie in the buffer as they will once the text has moved. */
    method ShiftWords(splitPoint: nat, shift: nat)
      requires Valid() && Open() && 0 < splitPoint <= wordLimit && shift == words[splitPoint].text
      modifies words
      ensures 0 < shift <= wptr && Laid(words[..], wordLimit - splitPoint, wptr - shift)
      ensures words[wordLimit - splitPoint].text == Start(words[..], wordLimit - splitPoint)
      ensures words[wordLimit - splitPoint] == old(words[wordLimit]).(text := words[wordLimit - splitPoint].text)
      ensures words[wordLimit - splitPoint].text == old(words[wordLimit].text) - shift
      ensures Moved(old(words[..]), wordLimit, splitPoint, shift, words[..])
    {
      hide Laid, Placed, Start, Moved;
      ghost var ws := words[..];
      TextsBehind(ws, wordLimit, wptr, splitPoint);
      MoveWords(splitPoint, shift);
      StillLaid(ws, wordLimit, wptr, splitPoint, shift, words[..]);
    }

    /** The words before the split point are dropped, with their text. */
    method DropWords(splitPoint: nat)
      requires Valid() && Open() && 0 < splitPoint <= wordLimit
      modifies this`wptr, this`wordLimit, parabuf, words
      ensures Valid() && Open()
      ensures wordLimit == old(wordLimit) - splitPoint
      ensures wptr == old(wptr) - old(words[splitPoint].text) < old(wptr)
      ensures parabuf[..wptr] == old(parabuf[words[splitPoint].text..wptr])
      ensures words[wordLimit] == old(words[wordLimit]).(text := words[wordLimit].text)
      ensures wptr - words[wordLimit].text == old(wptr - words[wordLimit].text)
      ensures old(words[splitPoint].text <= words[wordLimit].text <= wptr)
      ensures Moved(old(words[..]), old(wordLimit), splitPoint, old(words[splitPoint].text), words[..])
    {
      assert wptr <= MAX_CHARS;
      hide Laid, Placed, Start, Moved;
      ghost var ws := words[..];
      TextsBehind(ws, wordLimit, wptr, splitPoint);
      var shift := words[splitPoint].text;
      ShiftWords(splitPoint, shift);
      MoveText(shift);
      wptr := wptr - shift;
      wordLimit := wordLimit - splitPoint;
    }

    /** The other words stay as they are, complete ones and the one being read. */
    method DropFront(splitPoint: nat)
      requires Valid() && Open() && 0 < splitPoint <= wordLimit
      modifies this`wptr, this`wordLimit, parabuf, words
      ensures Valid() && Open()
      ensures wptr < old(wptr) && wordLimit == old(wordLimit) - splitPoint
      ensures old(words[splitPoint].text <= wptr)
      ensures parabuf[..wptr] == old(parabuf[words[splitPoint].text..wptr])
      ensures words[wordLimit] == old(words[wordLimit]).(text := words[wordLimit].text)
      ensures Held() == old(Held())[splitPoint..] && OpenText() == old(OpenText())
    {
      hide HeldTokens, Moved, Placed;
      ghost var buf, ws := parabuf[..], words[..];
      DropWords(splitPoint);
      hide Laid, Start;
      var shift := ws[splitPoint].text;
      assert parabuf[..wptr] == buf[shift..old(wptr)];
      Slices(buf, shift, ws[old(wordLimit)].text, old(wptr), parabuf[..], words[wordLimit].text);
      HeldMoved(buf, ws, old(wordLimit), old(wptr), splitPoint, shift, parabuf[..], words[..]);
    }

    /** The lines of a solved paragraph. */
    lemma Plan(p: Paragraph) returns (starts: seq<nat>)
      requires Valid() && wordLimit > 0 && Describes(p) && Bounded(p)
      requires Solved(p, breaks[..wordLimit + 1], 0)
      ensures Planned(p, starts) && IsPlan(p, breaks[..wordLimit + 1], starts)
    {
      var table := breaks[..wordLimit + 1];
      EveryLineFits(p, table, 0);
      starts := Starts(p, table, 0);
      StartsFollow(p, table, 0);
    }

    /** The cheapest layout of the words in the buffer. */
    method PlanLines() returns (ghost starts: seq<nat>)
      requires Valid() && wordLimit > 0
      modifies breaks
      ensures Planned(Current(), starts) && IsPlan(Current(), breaks[..wordLimit + 1], starts)
    {
      CurrentIsBounded();
      hide Laid, Bounded, Solved, Planned, IsPlan;
      var p := Current();
      FmtParagraph(p, breaks);
      starts := Plan(p);
    }

    /** A word longer than the buffer is written in parts as it is. */
    method FlushText()
      requires Valid() && Open() && printer.ok && wordLimit == 0 && wptr == MAX_CHARS && Typing()
      modifies this`wptr, this`sheet, printer
      ensures Valid() && Open() && wptr == 0 && (printer.ok || printer.room == 0)
      ensures printer.ok ==> Typing() && sheet.pieces != []
      ensures printer.ok ==> Story() == old(Story()) && AllTokens() == old(AllTokens())
      ensures sheet.before == old(sheet.before)
      ensures printer.ok ==> old(sheet.pieces) <= sheet.pieces
    {
      ghost var piece := Text(parabuf[..wptr]);
      PieceAdds(sheet.pieces, piece);
      AddOne(sheet.before, sheet.pieces, piece);
      var written := printer.Write(Text(parabuf[..wptr]));
      sheet := sheet.(pieces := sheet.pieces + [piece], torn := true);
      wptr := 0;
    }

    /** There is no more room for a character, or for a word. */
    ghost predicate Full()
      reads this`wptr, this`wordLimit
    {
      wptr == MAX_CHARS || wordLimit == MAX_WORDS - 2
    }

    /** The lines up to the best place to stop are printed, and the words behind it move to the front. */
    method FlushLines() returns (ghost printed: seq<Piece>)
      requires Valid() && Open() && printer.ok && wordLimit > 0 && Typing() && Full()
      requires OneIndent(options) ==> otherIndent == firstIndent
      modifies this`wptr, this`wordLimit, this`lastLineLength, this`sheet, printer, parabuf, words, breaks
      ensures Valid() && (printer.ok || printer.room == 0)
      ensures printer.ok ==> Open() && Typing() && sheet.pieces != []
      ensures printer.ok ==> Story() == old(Story()) && AllTokens() == old(AllTokens())
      ensures sheet.before == old(sheet.before) && sheet.torn == old(sheet.torn)
      ensures printer.ok ==>
        && wptr < old(wptr) && wordLimit < old(wordLimit)
        && words[wordLimit] == old(words[wordLimit]).(text := words[wordLimit].text)
        && OpenText() == old(OpenText())
      ensures printer.ok ==>
        sheet.pieces == old(sheet.pieces) + printed && LaidOutInFront(old(Current()), RowsOf(printed))
    {
      hide Laid, TextOf, WellSet, Planned, IsPlan, IsSplit, Cut, Length, TextBetween, HeldTokens, RowsOf;
      ghost var starts, f;
      starts := PlanLines();
      ghost var p, table := Current(), breaks[..wordLimit + 1];
      var splitPoint;
      splitPoint, f := ChooseSplit(p, starts);
      printed := PutFront(splitPoint, p, starts, f);
      if !printer.ok {
        return;
      }
      FrontIsCut(p, table, starts, f, RowsOf(printed));
      hide LaidOutInFront;
      DropFront(splitPoint);
      assert |Story()| == |TextOf(sheet.pieces)| + wptr && |AllTokens()| == |sheet.tokens| + wordLimit;
    }

    /** The lines in front of the split point are printed; the words behind it are still in the buffer. */
    method PutFront(splitPoint: nat, ghost p: Paragraph, ghost starts: seq<nat>, ghost f: nat)
        returns (ghost pieces: seq<Piece>)
      requires Valid() && Open() && printer.ok && Typing() && Planned(p, starts)
      requires OneIndent(options) ==> otherIndent == firstIndent
      requires 0 < f < |starts| && splitPoint == starts[f] && 0 < splitPoint <= wordLimit
      modifies this`lastLineLength, this`sheet, printer
      ensures Valid() && (printer.ok || printer.room == 0)
      ensures printer.ok ==> Open() && Printed() && sheet.pieces != []
      ensures printer.ok ==> sheet.pieces == old(sheet.pieces) + pieces && Cut(RowsOf(pieces), starts[..f + 1])
      ensures printer.ok ==> words[splitPoint].text <= wptr
      ensures printer.ok ==> TextOf(sheet.pieces) + parabuf[words[splitPoint].text..wptr] == old(Story())
      ensures printer.ok ==> sheet.tokens + Held()[splitPoint..] == old(AllTokens())
      ensures sheet.before == old(sheet.before) && sheet.torn == old(sheet.torn)
    {
      hide Laid, TextOf, WellSet, RowsOf, Cut, Planned, TextBetween, HeldTokens;
      TextsBehind(words[..], wordLimit, wptr, splitPoint);
      TextFromTheStart(parabuf[..], words[..], wordLimit, wptr, splitPoint);
      pieces := PutParagraph(splitPoint, p, starts, f, SheetForm());
      if !printer.ok {
        return;
      }
      FrontPrinted(splitPoint, pieces);
      sheet := sheet.(pieces := sheet.pieces + pieces, tokens := sheet.tokens + Held()[..splitPoint]);
    }

    lemma FrontPrinted(splitPoint: nat, pieces: seq<Piece>)
      requires Valid() && 0 < splitPoint <= wordLimit && words[splitPoint].text <= wptr
      requires TextOf(pieces) == parabuf[..words[splitPoint].text]
      requires WellSet(SheetForm(), pieces, Held()[..splitPoint])
      requires sheet.torn || WellSet(SheetForm(), sheet.pieces, sheet.tokens)
      ensures sheet.torn || WellSet(SheetForm(), sheet.pieces + pieces, sheet.tokens + Held()[..splitPoint])
      ensures TextOf(sheet.pieces + pieces) + parabuf[words[splitPoint].text..wptr] == Story()
      ensures sheet.tokens + Held()[..splitPoint] + Held()[splitPoint..] == AllTokens()
      ensures sheet.before + sheet.pieces + pieces == sheet.before + (sheet.pieces + pieces)
    {
      hide Laid, TextOf, WellSet, HeldTokens;
      var shift := words[splitPoint].text;
      PiecesAdd(sheet.pieces, pieces);
      assert parabuf[..wptr] == parabuf[..shift] + parabuf[shift..wptr];
      Regroup(TextOf(sheet.pieces), parabuf[..shift], parabuf[shift..wptr]);
      Regroup(sheet.before, sheet.pieces, pieces);
      SplitAgain(sheet.tokens, Held(), splitPoint);
      if !sheet.torn {
        WellSetBelow(SheetForm(), sheet.pieces, sheet.tokens, SheetForm(), pieces, Held()[..splitPoint]);
      }
    }

    /** What Typing says of the output alone. */
    ghost predicate Printed()
      reads this`sheet, this`prefixIndent, this`firstIndent, printer`out
    {
      && printer.out == sheet.before + sheet.pieces
      && (sheet.torn || WellSet(SheetForm(), sheet.pieces, sheet.tokens))
    }

    /**
     * bx_fmt_engine_flush_paragraph: nothing of the story is lost, and there is room in the
     * buffer. With complete words in it, those words are kept as they are.
     */
    method FlushParagraph() returns (ghost printed: seq<Piece>)
      requires Valid() && Open() && printer.ok && Typing() && Full()
      requires OneIndent(options) ==> otherIndent == firstIndent
      modifies this`wptr, this`wordLimit, this`lastLineLength, this`sheet, printer, parabuf, words, breaks
      ensures Valid() && (printer.ok || printer.room == 0)
      ensures printer.ok ==> Open() && Typing() && sheet.pieces != []
      ensures printer.ok ==> Story() == old(Story()) && AllTokens() == old(AllTokens())
      ensures sheet.before == old(sheet.before)
      ensures old(wordLimit) == 0 ==> wordLimit == 0 && wptr == 0
      ensures old(wordLimit) > 0 && printer.ok ==>
        && wptr < old(wptr) && wordLimit < old(wordLimit)
        && words[wordLimit] == old(words[wordLimit]).(text := words[wordLimit].text)
        && OpenText() == old(OpenText()) && sheet.torn == old(sheet.torn)
      ensures printer.ok ==> sheet.pieces == old(sheet.pieces) + printed
      ensures old(wordLimit) > 0 && printer.ok ==> LaidOutInFront(old(Current()), RowsOf(printed))
    {
      hide LaidOutInFront, RowsOf, Laid, TextOf, WellSet, HeldTokens;
      if wordLimit == 0 {
        FlushText();
        printed := if printer.ok then sheet.pieces[|old(sheet.pieces)|..] else [];
      } else {
        printed := FlushLines();
      }
    }

    // ------------------------------------------------------------------------ reading

    /** bx_fmt_engine_set_other_indent. */
    method SetOtherIndent(sameParagraph: bool)
      requires Indents(options, Body) ==> reader.inColumn <= MAX_INDENT
      requires firstIndent <= MAX_INDENT && otherIndent <= MAX_INDENT
      modifies this`otherIndent
      ensures otherIndent <= MAX_INDENT
      ensures OneIndent(options) ==> otherIndent == firstIndent
      ensures !OneIndent(options) && options.crownMargin ==>
        otherIndent == if sameParagraph then reader.inColumn else firstIndent
      ensures !OneIndent(options) && sameParagraph && reader.inColumn != firstIndent ==> otherIndent == reader.inColumn
      ensures !OneIndent(options) && !options.crownMargin && !(sameParagraph && reader.inColumn != firstIndent) ==>
        otherIndent ==
          if old(otherIndent) != firstIndent then old(otherIndent) else if firstIndent == 0 then 3 else 0
    {
      if options.splitOnly {
        otherIndent := firstIndent;
      } else if options.crownMargin {
        otherIndent := if sameParagraph then reader.inColumn else firstIndent;
      } else if options.taggedParagraph {
        if sameParagraph && reader.inColumn != firstIndent {
          otherIndent := reader.inColumn;
        } else if otherIndent == firstIndent {
          otherIndent := if firstIndent == 0 then 3 else 0;
        }
      } else {
        otherIndent := firstIndent;
      }
    }

    /**
     * What the steps of reading keep: the indent of the other lines, unless something was
     * printed, and in a paragraph with one indent in any case.
     */
    ghost predicate Steady(pieces: seq<Piece>, other: nat)
      reads this`sheet, this`otherIndent, this`firstIndent
    {
      && (sheet.pieces == [] ==> pieces == [] && otherIndent == other)
      && (OneIndent(options) && other == firstIndent ==> otherIndent == firstIndent)
    }

    /** A full buffer is flushed. */
    method MakeRoom()
      requires Valid() && Open() && printer.ok && Typing() && Full()
      requires Indents(options, Body) ==> reader.inColumn <= MAX_INDENT
      modifies this`wptr, this`wordLimit, this`otherIndent, this`lastLineLength, this`sheet,
               printer, parabuf, words, breaks
      ensures Valid() && (printer.ok || printer.room == 0) && sheet.before == old(sheet.before)
      ensures printer.ok ==> Open() && Typing() && Steady(old(sheet.pieces), old(otherIndent))
      ensures printer.ok ==> Story() == old(Story()) && AllTokens() == old(AllTokens())
      ensures printer.ok ==> words[wordLimit].text <= wptr && |OpenText()| <= old(|OpenText()|)
      ensures printer.ok && old(wptr) > 0 ==> wptr < old(wptr)
      ensures printer.ok && old(wordLimit) > 0 ==>
        && wordLimit < old(wordLimit)
        && words[wordLimit] == old(words[wordLimit]).(text := words[wordLimit].text)
        && OpenText() == old(OpenText()) && sheet.torn == old(sheet.torn)
    {
      hide WellSet, TextOf, HeldTokens;
      SetOtherIndent(true);
      ghost var printed := FlushParagraph();
    }

    /** As long as the word fits into the buffer it is whole in it, and the words before it are as they were. */
    ghost predicate Unharmed(text: seq<char>, torn: bool)
      requires Valid()
      reads this, words, parabuf
    {
      |text| <= MAX_CHARS ==> words[wordLimit].text <= wptr && OpenText() == text && sheet.torn == torn
    }

    /** The characters of one word go into the buffer; a full buffer is flushed in the middle of the word. */
    method ReadWord(first: int) returns (ch: int, ghost text: seq<char>)
      requires Valid() && Open() && wptr == words[wordLimit].text && printer.ok && Typing()
      requires reader.Holds(first, 0) && IsDark(first)
      modifies this`wptr, this`wordLimit, this`otherIndent, this`lastLineLength, this`sheet,
               reader, printer, parabuf, words, breaks
      ensures Valid() && (printer.ok || printer.room == 0) && sheet.before == old(sheet.before)
      ensures printer.ok ==> Open() && wptr > words[wordLimit].text && Typing()
      ensures printer.ok ==> Steady(old(sheet.pieces), old(otherIndent))
      ensures printer.ok ==> reader.Holds(ch, wptr - words[wordLimit].text) && (ch == EOF || EndsWord(ch))
      ensures printer.ok ==> reader.passed == old(reader.passed) + text && reader.Whole() == old(reader.Whole())
      ensures printer.ok ==> reader.inColumn == old(reader.inColumn)
      ensures printer.ok ==> IsText(text) && Story() == old(Story()) + text
      ensures printer.ok ==> AllTokens() == old(AllTokens()) && Unharmed(text, old(sheet.torn))
      ensures printer.ok ==> |reader.input| <= old(|reader.input|)
      ensures printer.ok ==> ch == EOF || |reader.input| < old(|reader.input|)
    {
      hide TextOf, Placed, Start, WellSet, HeldTokens, Fits, Narrow;
      ch, text := first, [];
      while true
        invariant Valid() && Open() && printer.ok && Typing() && sheet.before == old(sheet.before)
        invariant reader.Holds(ch, wptr - words[wordLimit].text) && IsDark(ch)
        invariant reader.passed == old(reader.passed) + text && reader.Whole() == old(reader.Whole())
        invariant reader.inColumn == old(reader.inColumn)
        invariant text == [] || (IsText(text) && !EndsWord(ch))
        invariant Story() == old(Story()) + text && AllTokens() == old(AllTokens())
        invariant Unharmed(text, old(sheet.torn)) && Steady(old(sheet.pieces), old(otherIndent))
        invariant |reader.input| <= old(|reader.input|)
        decreases |reader.input|
      {
        PutNext(ch, text, old(sheet.torn));
        if !printer.ok {
          return EOF, text;
        }
        Regroup(old(Story()), text, [ch as char]);
        Regroup(old(reader.passed), text, [ch as char]);
        text := text + [ch as char];
        ch := reader.Getc();
        if ch == EOF || EndsWord(ch) {
          return;
        }
      }
    }

    /** One character, after a flush if there is no room for it. */
    method PutNext(ch: int, ghost text: seq<char>, ghost torn: bool)
      requires Valid() && Open() && printer.ok && Typing() && 0 <= ch < 256
      requires reader.Holds(ch, wptr - words[wordLimit].text) && Unharmed(text, torn)
      modifies this`wptr, this`wordLimit, this`otherIndent, this`lastLineLength, this`sheet,
               printer, parabuf, words, breaks
      ensures Valid() && (printer.ok || printer.room == 0) && sheet.before == old(sheet.before)
      ensures printer.ok ==> Open() && Typing() && wptr > words[wordLimit].text
      ensures printer.ok ==> Steady(old(sheet.pieces), old(otherIndent))
      ensures printer.ok ==> wptr - words[wordLimit].text <= old(wptr - words[wordLimit].text) + 1
      ensures printer.ok ==> Story() == old(Story()) + [ch as char] && AllTokens() == old(AllTokens())
      ensures printer.ok ==> Unharmed(text + [ch as char], torn)
    {
      assert wordLimit == 0 ==> words[wordLimit].text == 0;
      hide TextOf, Placed, Start, WellSet, HeldTokens;
      if wptr == MAX_CHARS {
        reader.ColumnFits(ch, wptr - words[wordLimit].text);
        MakeRoom();
        if !printer.ok {
          return;
        }
      }
      PutChar(ch);
    }

    method PutChar(ch: int)
      requires Valid() && Open() && wptr < MAX_CHARS && 0 <= ch < 256
      modifies this`wptr, parabuf
      ensures Valid() && Open() && wptr == old(wptr) + 1 && (old(Typing()) ==> Typing())
      ensures Story() == old(Story()) + [ch as char]
      ensures OpenText() == old(OpenText()) + [ch as char] && Held() == old(Held())
    {
      hide TextOf, HeldTokens;
      ghost var buf := parabuf[..];
      parabuf[wptr] := ch as char;
      HeldKept(buf, words[..], wordLimit, wptr, parabuf[..], words[..]);
      wptr := wptr + 1;
      assert parabuf[..wptr] == old(parabuf[..wptr]) + [ch as char];
      assert parabuf[words[wordLimit].text..wptr] == old(parabuf[words[wordLimit].text..wptr]) + [ch as char];
    }

    /** bx_fmt_engine_check_punctuation. */
    method CheckPunctuation()
      requires Valid() && Open() && words[wordLimit].text < wptr
      requires words[wordLimit].text + words[wordLimit].length == wptr
      modifies words
      ensures Valid() && Open() && Held() == old(Held())
      ensures var word := words[wordLimit];
        word == old(words[wordLimit]).(paren := word.paren, punct := word.punct, period := word.period)
      ensures OpenText() == old(OpenText()) && FlagsOf(OpenText(), words[wordLimit])
    {
      hide Laid, HeldTokens, EndsSentence;
      assert wptr <= MAX_CHARS by {
        LimitInTable(words[..], wordLimit, wptr);
      }
      ghost var text := OpenText();
      var start := words[wordLimit].text;
      var finish := start + words[wordLimit].length - 1;
      var paren, punct := IsOpenPunct(parabuf[start]), IsPunct(parabuf[finish]);
      ghost var n := |text|;
      SentenceEnds(text);
      assert text[..n] == text && text[0] == parabuf[start] && text[n - 1] == parabuf[finish];
      while start < finish && IsClosePunct(parabuf[finish])
        invariant start <= finish < MAX_CHARS && finish - start + 1 == n <= |text|
        invariant text[n - 1] == parabuf[finish] && EndsSentence(text[..n]) == EndsSentence(text)
      {
        finish, n := finish - 1, n - 1;
      }
      var period := IsPeriodPunct(parabuf[finish]);
      SetOpenWord(words[wordLimit].(paren := paren, punct := punct, period := period));
      assert OpenText() == text;
    }

    /** The fields of the word being read, all but its start. */
    method SetOpenWord(word: Word)
      requires Valid() && Open() && word.text == words[wordLimit].text
      modifies words
      ensures Valid() && Open() && Held() == old(Held()) && OpenText() == old(OpenText())
      ensures words[wordLimit] == word
    {
      hide HeldTokens;
      ghost var ws := words[..];
      words[wordLimit] := word;
      SameBefore(ws, words[..], wordLimit, wptr);
      HeldKept(parabuf[..], ws, wordLimit, wptr, parabuf[..], words[..]);
    }

    /** The flags of a word that its own text decides. */
    predicate FlagsOf(text: seq<char>, word: Word) {
      && text != [] && word.paren == IsOpenPunct(text[0]) && word.punct == IsPunct(text[|text| - 1])
      && word.period == EndsSentence(text)
    }

    /** The length of the word just read, and its punctuation. */
    method CloseWord()
      requires Valid() && Open() && wptr > words[wordLimit].text
      modifies reader`inColumn, words
      ensures Valid() && Open() && Held() == old(Held())
      ensures words[wordLimit].text == old(words[wordLimit].text)
      ensures words[wordLimit].length == |OpenText()| && OpenText() == old(OpenText())
      ensures FlagsOf(OpenText(), words[wordLimit])
      ensures reader.inColumn == old(reader.inColumn) + |OpenText()|
    {
      assert wptr <= MAX_CHARS;
      hide Laid, Start, HeldTokens, EndsSentence, FlagsOf;
      SetOpenWord(words[wordLimit].(length := wptr - words[wordLimit].text));
      reader.inColumn := reader.inColumn + words[wordLimit].length;
      CheckPunctuation();
    }

    /** The blanks behind the word just read, and those to be printed for them. */
    method MeasureBlanks(first: int, ghost column: nat, ghost text: seq<char>)
        returns (ch: int, space: nat, final: bool, ghost blanks: seq<char>)
      requires Sized() && wordLimit < MAX_WORDS && FlagsOf(text, words[wordLimit])
      requires reader.Holds(first, 0) && reader.inColumn == column + |text|
      modifies reader
      ensures reader.Holds(ch, 0) && !IsBlank(ch)
      ensures reader.passed == old(reader.passed) + blanks && AllBlank(blanks)
      ensures reader.Whole() == old(reader.Whole())
      ensures Measured(options.uniformSpacing, column, text, blanks, ch, reader.inColumn,
                       words[wordLimit].(space := space, final := final))
      ensures |reader.input| <= old(|reader.input|) && (first == EOF ==> ch == EOF)
    {
      hide Fits, Narrow, ColumnFrom, AllBlank, EndsSentence;
      var start := reader.inColumn;
      ch, blanks := reader.GetSpace(first);
      space := reader.inColumn - start;
      final := ch == EOF || (words[wordLimit].period && (ch == 10 || space > 1));
      if ch == 10 || ch == EOF || options.uniformSpacing {
        space := if final then 2 else 1;
      }
    }

    /** The length, the blanks and the flags of the word just read. */
    method MeasureWord(first: int, ghost text: seq<char>) returns (ch: int, ghost blanks: seq<char>)
      requires Valid() && Open() && wptr > words[wordLimit].text && text == OpenText()
      requires reader.Holds(first, wptr - words[wordLimit].text)
      modifies reader, words
      ensures Valid() && Open() && Held() == old(Held())
      ensures words[wordLimit].text <= wptr && OpenText() == text && words[wordLimit].length == |text|
      ensures reader.Holds(ch, 0) && !IsBlank(ch)
      ensures reader.passed == old(reader.passed) + blanks && AllBlank(blanks)
      ensures reader.Whole() == old(reader.Whole())
      ensures
        Measured(options.uniformSpacing, old(reader.inColumn), text, blanks, ch, reader.inColumn, words[wordLimit])
      ensures |reader.input| <= old(|reader.input|) && (first == EOF ==> ch == EOF)
    {
      assert wptr <= MAX_CHARS;
      hide Laid, Start, HeldTokens, Held, Fits, Narrow, AllBlank, EndsSentence, Measured, FlagsOf;
      CloseWord();
      var space, final;
      ch, space, final, blanks := MeasureBlanks(first, old(reader.inColumn), text);
      SetOpenWord(words[wordLimit].(space := space, final := final));
    }

    /** The word is complete; a full table is flushed before the word is counted. */
    method FinishWord(first: int) returns (ch: int, ghost blanks: seq<char>, ghost word: Word)
      requires Valid() && Open() && wptr > words[wordLimit].text && printer.ok && Typing()
      requires reader.Holds(first, wptr - words[wordLimit].text)
      modifies this`wptr, this`wordLimit, this`otherIndent, this`lastLineLength, this`sheet,
               reader, printer, parabuf, words, breaks
      ensures Valid() && (printer.ok || printer.room == 0) && sheet.before == old(sheet.before)
      ensures printer.ok ==> 0 < wordLimit && Closed() && Typing() && Story() == old(Story())
      ensures printer.ok ==> Steady(old(sheet.pieces), old(otherIndent))
      ensures printer.ok ==> reader.Holds(ch, 0) && !IsBlank(ch)
      ensures printer.ok ==> reader.passed == old(reader.passed) + blanks && AllBlank(blanks)
      ensures printer.ok ==> reader.Whole() == old(reader.Whole())
      ensures printer.ok ==>
        Measured(options.uniformSpacing, old(reader.inColumn), old(OpenText()), blanks, ch, reader.inColumn, word)
      ensures printer.ok ==> sheet.torn == old(sheet.torn)
      ensures printer.ok ==> AllTokens() == old(AllTokens()) + [Token(old(OpenText()), word.space, MarkAt(word))]
      ensures printer.ok ==> |reader.input| <= old(|reader.input|) && (first == EOF ==> ch == EOF)
    {
      hide Laid, Start, TextOf, WellSet, HeldTokens, Fits, Narrow, Measured, Held, Crowded;
      ghost var text := OpenText();
      ch, blanks := MeasureWord(first, text);
      word := words[wordLimit];
      if wordLimit == MAX_WORDS - 2 {
        reader.ColumnFits(ch, 0);
        MakeRoom();
        if !printer.ok {
          return EOF, blanks, word;
        }
      }
      assert OpenText() == text && words[wordLimit].length == |text|;
      CountWord();
    }

    /** One more word in the buffer. */
    method CountWord()
      requires Valid() && Open() && wptr > words[wordLimit].text && wordLimit < MAX_WORDS - 2 && Typing()
      requires words[wordLimit].length == |OpenText()|
      modifies this`wordLimit
      ensures Valid() && 0 < wordLimit && Closed() && Typing() && Story() == old(Story())
      ensures var word := old(words[wordLimit]);
        AllTokens() == old(AllTokens()) + [Token(old(OpenText()), word.space, MarkAt(word))]
    {
      hide Laid, Start, TextOf, WellSet, HeldTokens;
      OneMoreWord(words[..], wordLimit, wptr);
      HeldOneMore(parabuf[..], words[..], wordLimit);
      AddOne(sheet.tokens, Held(), TokenAt(parabuf[..], words[wordLimit]));
      wordLimit := wordLimit + 1;
    }

    /** All text in the buffer belongs to words that are complete. */
    ghost predicate Closed()
      requires Valid()
      reads this, words
    {
      Start(words[..], wordLimit) == wptr
    }

    /** Where the word at the end of the table will start. */
    method OpenWord()
      requires Valid() && Closed()
      modifies words
      ensures Valid() && Open() && words[wordLimit].text == wptr && Held() == old(Held())
    {
      hide HeldTokens;
      ghost var ws := words[..];
      words[wordLimit] := words[wordLimit].(text := wptr);
      SameBefore(ws, words[..], wordLimit, wptr);
      HeldKept(parabuf[..], ws, wordLimit, wptr, parabuf[..], words[..]);
    }

    /** One word and the blanks behind it. */
    method GetWord(first: int) returns (ch: int, ghost word: Spelled)
      requires Valid() && Closed() && printer.ok && Typing()
      requires reader.Holds(first, 0) && IsDark(first)
      modifies this`wptr, this`wordLimit, this`otherIndent, this`lastLineLength, this`sheet,
               reader, printer, parabuf, words, breaks
      ensures Valid() && (printer.ok || printer.room == 0) && sheet.before == old(sheet.before)
      ensures printer.ok ==> 0 < wordLimit && Closed() && Typing() && reader.Holds(ch, 0) && !IsBlank(ch)
      ensures printer.ok ==> Steady(old(sheet.pieces), old(otherIndent))
      ensures printer.ok ==> IsSpelled(word) && Story() == old(Story()) + word.text
      ensures printer.ok ==> reader.passed == old(reader.passed) + word.text + word.blanks
      ensures printer.ok ==> reader.Whole() == old(reader.Whole())
      ensures printer.ok && |word.text| <= MAX_CHARS ==>
        && sheet.torn == old(sheet.torn)
        && reader.inColumn == ColumnFrom(old(reader.inColumn), word.text + word.blanks)
        && AllTokens() == old(AllTokens()) +
             [TokenOf(options.uniformSpacing, old(reader.inColumn), word, EndOf(ch))]
      ensures printer.ok ==> |reader.input| <= old(|reader.input|)
      ensures printer.ok ==> ch == EOF || |reader.input| < old(|reader.input|)
    {
      hide TextOf, Laid, Start, Placed, WellSet, HeldTokens, Fits, Narrow, Gap, MarkOf, MarkAt, ColumnFrom, AllBlank;
      ghost var text, blanks, entry;
      word := Spelled([], []);
      OpenWord();
      ch, text := ReadWord(first);
      if printer.ok {
        ch, blanks, entry := FinishWord(ch);
        word := Spelled(text, blanks);
        TextColumn(old(reader.inColumn), text, blanks);
      }
    }

    /** The account of a line: its words are in the story, and if none was torn, they are the tokens. */
    ghost predicate LineRead(words': seq<Spelled>, end: End, column: nat, story: seq<char>, tokens: seq<Token>,
                             torn: bool)
      requires Valid() && AllSpelled(words')
      reads this, words, parabuf
    {
      && Story() == story + WordsText(words')
      && (ShortWords(words') ==>
            sheet.torn == torn && AllTokens() == tokens + Tokens(options.uniformSpacing, column, words', end))
    }

    /** The words up to the end of the line. */
    method ReadLine(first: int) returns (ch: int, ghost line: seq<Spelled>)
      requires Valid() && Closed() && printer.ok && Typing()
      requires reader.Holds(first, 0) && IsDark(first)
      modifies this`wptr, this`wordLimit, this`otherIndent, this`lastLineLength, this`sheet,
               reader, printer, parabuf, words, breaks
      ensures Valid() && (printer.ok || printer.room == 0) && sheet.before == old(sheet.before)
      ensures printer.ok ==> 0 < wordLimit && Closed() && Typing() && reader.Holds(ch, 0) && EndsLine(ch)
      ensures printer.ok ==> Steady(old(sheet.pieces), old(otherIndent))
      ensures printer.ok ==> reader.passed == old(reader.passed) + RawWords(line)
      ensures printer.ok ==> reader.Whole() == old(reader.Whole())
      ensures printer.ok ==> line != [] && AllSpelled(line)
      ensures printer.ok ==>
        LineRead(line, EndOf(ch), old(reader.inColumn), old(Story()), old(AllTokens()), old(sheet.torn))
      ensures printer.ok ==> |reader.input| <= old(|reader.input|)
    {
      hide TextOf, Laid, Start, Placed, WellSet, HeldTokens, Fits, Narrow, IsSpelled, RawWords, WordsText, Tokens,
           ColumnFrom;
      ch, line := first, [];
      ghost var column := reader.inColumn;
      NoWords(options.uniformSpacing, column, reader.passed, Story(), AllTokens());
      while true
        invariant Valid() && Closed() && printer.ok && Typing() && sheet.before == old(sheet.before)
        invariant Steady(old(sheet.pieces), old(otherIndent))
        invariant reader.Holds(ch, 0) && IsDark(ch)
        invariant reader.passed == old(reader.passed) + RawWords(line) && reader.Whole() == old(reader.Whole())
        invariant AllSpelled(line)
        invariant LineRead(line, Inside, column, old(Story()), old(AllTokens()), old(sheet.torn))
        invariant ShortWords(line) ==> reader.inColumn == ColumnFrom(column, RawWords(line))
        invariant |reader.input| <= old(|reader.input|)
        decreases |reader.input|
      {
        ghost var word;
        ch, word := GetWord(ch);
        if !printer.ok {
          return;
        }
        ReadOn(options.uniformSpacing, column, line, word, EndOf(ch), old(reader.passed), old(Story()),
               old(AllTokens()));
        OneMoreShortWord(line, word);
        line := line + [word];
        if EndsLine(ch) {
          return;
        }
      }
    }

    /** bx_fmt_engine_get_line: the words of one line, and the head of the next. */
    method GetLine(first: int, ghost head: Head) returns (ch: int, ghost line: TextLine, ghost head': Head)
      requires Valid() && Closed() && printer.ok && Typing()
      requires reader.Holds(first, 0) && IsDark(first) && reader.inColumn == HeadColumn(head)
      requires IsHead(options.prefix, head) && head.matched == options.prefix
      modifies this`wptr, this`wordLimit, this`otherIndent, this`lastLineLength, this`sheet,
               reader, printer, parabuf, words, breaks
      ensures Valid() && (printer.ok || printer.room == 0) && sheet.before == old(sheet.before)
      ensures printer.ok ==> 0 < wordLimit && Closed() && Typing() && reader.AtText(ch, head')
      ensures printer.ok ==> Steady(old(sheet.pieces), old(otherIndent))
      ensures printer.ok ==> GoodLine(options.prefix, line) && line.head == head && Stopped(line.end, head')
      ensures printer.ok ==>
        reader.passed == old(reader.passed) + RawWords(line.words) + (Lead(line.end) + RawHead(head'))
      ensures printer.ok ==> reader.Whole() == old(reader.Whole())
      ensures printer.ok ==>
        LineRead(line.words, line.end, HeadColumn(head), old(Story()), old(AllTokens()), old(sheet.torn))
      ensures printer.ok ==> |reader.input| <= old(|reader.input|)
      ensures printer.ok ==> ch == EOF || |reader.input| < old(|reader.input|)
    {
      hide TextOf, Laid, Start, Placed, WellSet, HeldTokens, Fits, Narrow, RawWords, WordsText, Tokens;
      ghost var said;
      line, head' := TextLine(head, [], Inside), head;
      ch, said := ReadLine(first);
      if printer.ok {
        line := TextLine(head, said, EndOf(ch));
        ch, head' := NextHead(ch);
        Regroup(old(reader.passed) + RawWords(said), Lead(line.end), RawHead(head'));
      }
    }

    /** At the end of the stream no line has begun. */
    ghost predicate Stopped(end: End, head: Head)
      reads reader
    {
      end == AtEof ==>
        reader.last == EOF && head == Head([], [], []) && reader.inColumn == 0 == reader.nextPrefixIndent
    }

    /** The head of the next line, if there is one. */
    method NextHead(end: int) returns (ch: int, ghost head: Head)
      requires reader.Valid() && reader.last == end && EndsLine(end)
      modifies reader
      ensures reader.AtText(ch, head) && Stopped(EndOf(end), head) && reader.Whole() == old(reader.Whole())
      ensures reader.passed == old(reader.passed) + Lead(EndOf(end)) + RawHead(head)
      ensures if old(reader.input) == [] then ch == EOF else |reader.input| < old(|reader.input|)
    {
      hide Fits, Narrow;
      ch, head := reader.GetPrefix();
      if end == EOF {
        NothingBehind(reader.passed, old(reader.passed), head);
      }
    }

    /** bx_fmt_engine_same_paragraph. */
    predicate SameParagraph(ch: int)
      reads this, reader
    {
      && reader.nextPrefixIndent == prefixIndent
      && reader.inColumn >= reader.nextPrefixIndent + options.prefixFullLength
      && ch != 10 && ch != EOF
    }

    /**
     * The account in the middle of a paragraph: every byte read, and every word of its lines;
     * complete says that the last word has been marked as the last of a sentence.
     */
    ghost predicate Collected(ledger: Ledger, lines: seq<TextLine>, end: End, head: Head, complete: bool)
      requires Valid() && -1 <= reader.last < 256
      reads this, reader, printer, parabuf, words
    {
      && reader.passed == ledger.raw + RawLines(lines) + (Lead(end) + RawHead(head))
      && reader.Whole() == ledger.whole && sheet.before == ledger.out && Typing() && Stopped(end, head)
      && GoodLines(options.prefix, lines) && Joined(options, lines) && Story() == LinesText(lines)
      && (Short(lines) ==> !sheet.torn && AllTokens() == TokensSoFar(lines, complete))
      && (lines != [] ==>
            prefixIndent == PrefixColumn(options, lines[0].head) && firstIndent == HeadColumn(lines[0].head))
    }

    ghost function TokensSoFar(lines: seq<TextLine>, complete: bool): (tokens: seq<Token>)
      requires GoodLines(options.prefix, lines)
      ensures |tokens| == WordCount(lines)
    {
      if complete then ParaTokens(options, lines) else LinesTokens(options.prefix, options.uniformSpacing, lines)
    }

    /** A paragraph that leaves room in the buffer has not been printed in part. */
    lemma RoomyIsWhole(ledger: Ledger, lines: seq<TextLine>, end: End, head: Head, complete: bool)
      requires Valid() && -1 <= reader.last < 256 && Collected(ledger, lines, end, head, complete)
      ensures Roomy(lines) ==> sheet.pieces == []
    {
      hide Fits, Narrow, WellSet, HeldTokens, RawHead, LinesText, Joined, GoodLines, Laid, TextOf;
      if Roomy(lines) {
        assert |Story()| == |TextOf(sheet.pieces)| + wptr && |AllTokens()| == |sheet.tokens| + wordLimit;
      }
    }

    /** Where the other lines of the paragraph begin, in the input as in the output. */
    ghost predicate Indented(lines: seq<TextLine>)
      reads this`otherIndent, this`firstIndent, this`sheet
    {
      && (OneIndent(options) ==> otherIndent == firstIndent)
      && (!OneIndent(options) && |lines| > 1 && sheet.pieces == [] ==> otherIndent == HeadColumn(lines[1].head))
    }

    /** One more line of a paragraph. */
    method NextLine(first: int, ghost ledger: Ledger, ghost lines: seq<TextLine>, ghost head: Head)
        returns (ch: int, ghost lines': seq<TextLine>, ghost end': End, ghost head': Head)
      requires Valid() && Closed() && printer.ok && reader.AtText(first, head) && IsDark(first)
      requires head.matched == options.prefix && Collected(ledger, lines, AtNewline, head, false)
      requires if lines == [] then FirstHeadIs(head) else Joins(options, lines, head)
      modifies this`wptr, this`wordLimit, this`otherIndent, this`lastLineLength, this`sheet,
               reader, printer, parabuf, words, breaks
      ensures Valid() && (printer.ok || printer.room == 0)
      ensures printer.ok ==> 0 < wordLimit && Closed() && reader.AtText(ch, head')
      ensures printer.ok ==> Collected(ledger, lines', end', head', false) && Longer(lines, head, lines')
      ensures printer.ok ==> Steady(old(sheet.pieces), old(otherIndent))
      ensures printer.ok ==> |reader.input| <= old(|reader.input|)
      ensures printer.ok ==> ch == EOF || |reader.input| < old(|reader.input|)
    {
      hide TextOf, Laid, Start, Placed, WellSet, HeldTokens, Fits, Narrow, RawWords, WordsText, Tokens, Joins,
           RawLines, RawHead, LinesText, GoodLines, Joined, Short, LinesTokens, HeadColumn, PrefixColumn, IsTextHead;
      ghost var line;
      ghost var passed, story, tokens, torn := reader.passed, Story(), AllTokens(), sheet.torn;
      ch, line, head' := GetLine(first, head);
      lines', end' := lines + [line], line.end;
      if printer.ok {
        LineCollected(ledger, lines, line, head', passed, story, tokens, torn);
      }
    }

    /** The account of a paragraph with one more line in it. */
    lemma LineCollected(ledger: Ledger, lines: seq<TextLine>, line: TextLine, head: Head, passed: seq<char>,
                        story: seq<char>, tokens: seq<Token>, torn: bool)
      requires Valid() && -1 <= reader.last < 256 && Typing() && sheet.before == ledger.out
      requires passed == ledger.raw + RawLines(lines) + (Lead(AtNewline) + RawHead(line.head))
      requires GoodLines(options.prefix, lines) && Joined(options, lines) && story == LinesText(lines)
      requires Short(lines) ==> !torn && tokens == TokensSoFar(lines, false)
      requires lines == [] ==> FirstHeadIs(line.head)
      requires lines != [] ==> Joins(options, lines, line.head)
      requires lines != [] ==> prefixIndent == PrefixColumn(options, lines[0].head)
      requires lines != [] ==> firstIndent == HeadColumn(lines[0].head)
      requires GoodLine(options.prefix, line) && AllSpelled(line.words)
      requires LineRead(line.words, line.end, HeadColumn(line.head), story, tokens, torn)
      requires reader.passed == passed + RawWords(line.words) + (Lead(line.end) + RawHead(head))
      requires reader.Whole() == ledger.whole && Stopped(line.end, head)
      ensures Collected(ledger, lines + [line], line.end, head, false)
    {
      hide Valid, Typing, Story, AllTokens, Stopped, RawWords, WordsText, Tokens, GoodLine, Joins,
           RawLines, RawHead, LinesText, GoodLines, Joined, Short, LinesTokens, HeadColumn, PrefixColumn, IsTextHead;
      LineAdded(ledger.raw, lines, line, passed, Lead(line.end) + RawHead(head), options.prefix,
                options.uniformSpacing);
      JoinedSnoc(options, lines, line);
    }

    /** The head of a paragraph's first line decides its indent. */
    ghost predicate FirstHeadIs(head: Head)
      reads this`prefixIndent, this`firstIndent
    {
      && IsTextHead(options, head)
      && prefixIndent == PrefixColumn(options, head) && firstIndent == HeadColumn(head)
    }

    /** One more line, with the given head. */
    ghost predicate Longer(lines: seq<TextLine>, head: Head, lines': seq<TextLine>) {
      |lines'| == |lines| + 1 && lines'[..|lines|] == lines && lines'[|lines|].head == head
    }

    /** Lines as long as they belong to the paragraph and start in the column of its other lines. */
    method MoreLines(first: int, ghost ledger: Ledger, ghost lines: seq<TextLine>, ghost end: End, ghost head: Head)
        returns (ch: int, ghost lines': seq<TextLine>, ghost end': End, ghost head': Head)
      requires Valid() && Closed() && 0 < wordLimit && printer.ok && reader.AtText(first, head)
      requires Collected(ledger, lines, end, head, false) && lines != [] && Indented(lines) && !options.splitOnly
      requires OneIndent(options) || |lines| > 1
      modifies this`wptr, this`wordLimit, this`otherIndent, this`lastLineLength, this`sheet,
               reader, printer, parabuf, words, breaks
      ensures Valid() && (printer.ok || printer.room == 0)
      ensures printer.ok ==> 0 < wordLimit && Closed() && reader.AtText(ch, head')
      ensures printer.ok ==> Collected(ledger, lines', end', head', false) && lines' != [] && Indented(lines')
      ensures printer.ok ==> lines'[0] == lines[0]
      ensures printer.ok ==> OneIndent(options) || |lines'| > 1
      ensures printer.ok ==> EndsLine(ch) || Stops(options, lines', head')
      ensures printer.ok ==> |reader.input| <= old(|reader.input|) && (first == EOF ==> ch == EOF)
    {
      hide Laid, Start, Fits, Narrow, Collected, Stops, Joins;
      ch, lines', end', head' := first, lines, end, head;
      while SameParagraph(ch) && reader.inColumn == otherIndent
        invariant Valid() && Closed() && 0 < wordLimit && printer.ok && reader.AtText(ch, head')
        invariant Collected(ledger, lines', end', head', false)
        invariant lines' != [] && lines'[0] == lines[0] && Indented(lines')
        invariant OneIndent(options) || |lines'| > 1
        invariant |reader.input| <= old(|reader.input|) && (first == EOF ==> ch == EOF)
        decreases |reader.input|, ch != EOF
      {
        ParagraphGoesOn(ch, ledger, lines', end', head');
        LineBelongs(ch, ledger, lines', end', head');
        ch, lines', end', head' := NextLine(ch, ledger, lines', head');
        if !printer.ok {
          return;
        }
      }
      LineBelongs(ch, ledger, lines', end', head');
    }

    /** What the test of the loop says of the next line. */
    lemma LineBelongs(ch: int, ledger: Ledger, lines: seq<TextLine>, end: End, head: Head)
      requires Valid() && reader.AtText(ch, head) && Collected(ledger, lines, end, head, false) && lines != []
      requires Indented(lines) && !options.splitOnly && (OneIndent(options) || |lines| > 1)
      ensures SameParagraph(ch) && reader.inColumn == otherIndent ==> Joins(options, lines, head)
      ensures EndsLine(ch) || (SameParagraph(ch) && reader.inColumn == otherIndent) || Stops(options, lines, head)
    {
      RoomyIsWhole(ledger, lines, end, head, false);
      hide Fits, Narrow, WellSet, HeldTokens, Roomy, RawHead, HeadColumn, PrefixColumn, LinesText;
    }

    /** A line of the same paragraph has begun, and has the whole prefix on it. */
    lemma ParagraphGoesOn(ch: int, ledger: Ledger, lines: seq<TextLine>, end: End, head: Head)
      requires Valid() && reader.AtText(ch, head) && SameParagraph(ch) && Collected(ledger, lines, end, head, false)
      ensures IsDark(ch) && head.matched == options.prefix && Collected(ledger, lines, AtNewline, head, false)
    {
      hide Fits, Narrow, WellSet, HeldTokens, Joined;
      assert |head.matched| <= |options.prefix|;
    }

    /** The end of bx_fmt_engine_get_paragraph: the last word ends a sentence. */
    method EndSentence()
      requires Valid() && Closed() && 0 < wordLimit
      modifies words
      ensures Valid() && Closed() && Held() == Ended(old(Held()))
    {
      hide HeldTokens;
      ghost var ws := words[..];
      words[wordLimit - 1] := words[wordLimit - 1].(period := true, final := true);
      SameBefore(ws, words[..], wordLimit, wptr);
      HeldEnded(parabuf[..], ws, wordLimit, wptr, words[..]);
    }

    /** The line that has begun is one of text, with the whole prefix on it. */
    predicate StartsText(ch: int)
      reads reader
    {
      && !EndsLine(ch) && options.prefixLeadSpace <= reader.nextPrefixIndent
      && reader.nextPrefixIndent + options.prefixFullLength <= reader.inColumn
    }

    // ------------------------------------------------------------------------ copying

    /** bx_fmt_engine_copy_rest: a line that is not text is printed as it stands, its prefix included. */
    method CopyRest(first: int, ghost head: Head) returns (ch: int, ghost body: seq<char>, ghost margin: seq<Piece>)
      requires Sized() && printer.ok && reader.AtText(first, head)
      modifies reader, printer
      ensures printer.ok || printer.room == 0
      ensures printer.ok ==> reader.Valid() && reader.last == ch && EndsLine(ch)
      ensures printer.ok ==> reader.inColumn == old(reader.inColumn)
      ensures printer.ok ==> reader.passed == old(reader.passed) + body && '\n' !in body
      ensures printer.ok ==> reader.Whole() == old(reader.Whole())
      ensures printer.ok ==> printer.out == old(printer.out) + margin + Verbatim(body)
      ensures printer.ok ==> IsCopyMargin(margin, head, body)
      ensures printer.ok ==> EndsHead(options.prefix, head, if body == [] then 10 else body[0] as int)
      ensures printer.ok && reader.inColumn == 0 && EndsLine(first) ==> margin == []
      ensures printer.ok ==> (EndsLine(first) ==> ch == first && body == [])
      ensures printer.ok ==> |reader.input| <= old(|reader.input|)
    {
      hide Fits, Narrow, TextOf, PrefixesOf, After, HeadColumn;
      ch, body := EOF, [];
      margin := CopyMargin(first, head);
      if !printer.ok {
        return;
      }
      ghost var before := printer.out;
      ch, body := CopyText(first);
    }

    /** The blanks and the prefix of a copied line. */
    method CopyMargin(first: int, ghost head: Head) returns (ghost margin: seq<Piece>)
      requires Sized() && printer.ok && reader.AtText(first, head)
      modifies printer
      ensures printer.ok || printer.room == 0
      ensures printer.ok ==> printer.out == old(printer.out) + margin
      ensures printer.ok ==> TextOf(margin) == [] && PrefixesOf(margin) == head.matched
      ensures printer.ok && !EndsLine(first) ==> After(0, margin) == HeadColumn(head)
      ensures printer.ok && reader.inColumn == 0 && EndsLine(first) ==> margin == []
    {
      assert head.matched <= options.prefix;
      hide Fits, Narrow, After, HeadColumn, Blanks, IsHead;
      margin := [];
      NothingSaid();
      printer.outColumn := 0;
      assert printer.out + [] == printer.out;
      if reader.inColumn <= reader.nextPrefixIndent && EndsLine(first) {
        return;
      }
      hide TextOf, PrefixesOf;
      ghost var front, prefix, back := [], [], [];
      var written;
      written, front := printer.PutSpace(reader.nextPrefixIndent, reader.tabs);
      if !written {
        return;
      }
      prefix := CopyPrefix(head.matched);
      if !printer.ok {
        return;
      }
      if !EndsLine(first) {
        written, back := printer.PutSpace(reader.inColumn - printer.outColumn, reader.tabs);
        if !written {
          return;
        }
      }
      margin := front + prefix + back;
      MarginCopied(old(printer.out), front, prefix, back, head.matched);
      if first == EOF && reader.inColumn >= reader.nextPrefixIndent + |options.prefix| {
        PieceAdds(margin, LineEnd);
        AddOne(old(printer.out), margin, LineEnd);
        margin := margin + [LineEnd];
        written := printer.Write(LineEnd);
      }
    }

    /** The prefix, one character at a time up to the column that was reached in the input. */
    method CopyPrefix(ghost matched: seq<char>) returns (ghost pieces: seq<Piece>)
      requires printer.ok && printer.outColumn == reader.nextPrefixIndent && matched <= options.prefix
      requires reader.nextPrefixIndent + |matched| <= reader.inColumn
      requires matched != options.prefix ==> reader.inColumn == reader.nextPrefixIndent + |matched|
      modifies printer
      ensures printer.ok || printer.room == 0
      ensures printer.ok ==> printer.out == old(printer.out) + pieces
      ensures printer.ok ==> TextOf(pieces) == [] && PrefixesOf(pieces) == matched
      ensures printer.ok ==> printer.outColumn == After(reader.nextPrefixIndent, pieces)
      ensures printer.ok ==> printer.outColumn == reader.nextPrefixIndent + |matched|
    {
      NothingSaid();
      AfterNone(printer.outColumn);
      hide TextOf, PrefixesOf, After;
      pieces := [];
      var i := 0;
      while printer.outColumn != reader.inColumn && i < |options.prefix|
        invariant printer.ok && i <= |matched| && printer.outColumn == reader.nextPrefixIndent + i
        invariant printer.out == old(printer.out) + pieces
        invariant TextOf(pieces) == [] && PrefixesOf(pieces) == options.prefix[..i]
        invariant printer.outColumn == After(reader.nextPrefixIndent, pieces)
      {
        ghost var piece := Prefix([options.prefix[i]]);
        PieceAdds(pieces, piece);
        AfterOne(reader.nextPrefixIndent, pieces, piece);
        AddOne(old(printer.out), pieces, piece);
        assert options.prefix[..i + 1] == options.prefix[..i] + [options.prefix[i]];
        var written := printer.Write(Prefix([options.prefix[i]]));
        if !written {
          return;
        }
        pieces := pieces + [piece];
        printer.outColumn := printer.outColumn + 1;
        i := i + 1;
      }
    }

    /** The rest of a copied line, up to its end. */
    method CopyText(first: int) returns (ch: int, ghost body: seq<char>)
      requires printer.ok && reader.Holds(first, 0)
      modifies reader, printer
      ensures printer.ok || printer.room == 0
      ensures printer.ok ==> reader.Valid() && reader.last == ch && EndsLine(ch)
      ensures printer.ok ==> reader.inColumn == old(reader.inColumn)
      ensures printer.ok ==> reader.passed == old(reader.passed) + body && '\n' !in body
      ensures printer.ok ==> reader.Whole() == old(reader.Whole())
      ensures printer.ok ==> printer.out == old(printer.out) + Verbatim(body)
      ensures printer.ok ==>
        if EndsLine(first) then ch == first && body == [] else body != [] && body[0] as int == first
      ensures printer.ok ==> |reader.input| <= old(|reader.input|)
    {
      hide Fits, Narrow, Verbatim;
      ch, body := first, [];
      NothingVerbatim();
      while !EndsLine(ch)
        invariant printer.ok && reader.Valid() && reader.last == ch && reader.inColumn == old(reader.inColumn)
        invariant reader.passed == old(reader.passed) + body && '\n' !in body
        invariant reader.Whole() == old(reader.Whole())
        invariant printer.out == old(printer.out) + Verbatim(body)
        invariant body == [] ==> ch == first
        invariant body != [] ==> !EndsLine(first) && body[0] as int == first
        invariant |reader.input| <= old(|reader.input|)
        decreases |reader.input|, ch != EOF
      {
        var piece := if IsBlank(ch) then Blank(ch as char) else Text([ch as char]);
        VerbatimSnoc(body, ch as char);
        AddOne(old(printer.out), Verbatim(body), piece);
        Regroup(old(reader.passed), body, [ch as char]);
        var written := printer.Write(piece);
        if !written {
          return;
        }
        body := body + [ch as char];
        ch := reader.Getc();
      }
    }

    /** The account between paragraphs: every byte read and every piece printed, block by block. */
    ghost predicate InStream(before: Ledger, doc: seq<Block>, end: End, head: Head)
      requires -1 <= reader.last < 256
      reads reader, printer
    {
      && reader.passed == RawDoc(doc) + (Lead(end) + RawHead(head)) && reader.Whole() == before.whole
      && printer.out == before.out + DocPieces(doc) && Stopped(end, head)
      && AllFaithful(options, doc) && (EndsLine(reader.last) || StartsAnew(options, doc, head))
    }

    /** The stream has been used up. */
    ghost predicate Done(before: Ledger, doc: seq<Block>)
      reads reader, printer
    {
      && reader.input == [] && RawDoc(doc) == before.whole
      && printer.out == before.out + DocPieces(doc) && AllFaithful(options, doc)
    }

    /** The loop at the head of bx_fmt_engine_get_paragraph: lines that are not text are copied. */
    method SkipLines(first: int, ghost before: Ledger, ghost doc: seq<Block>, ghost end: End, ghost head: Head)
        returns (ch: int, more: bool, ghost doc': seq<Block>, ghost head': Head)
      requires Sized() && printer.ok && reader.AtText(first, head) && InStream(before, doc, end, head)
      requires OthersFollow(options, doc)
      modifies reader, printer
      ensures printer.ok || printer.room == 0
      ensures more ==> printer.ok && reader.AtText(ch, head') && StartsText(ch)
      ensures more ==> InStream(before, doc', AtNewline, head')
      ensures OthersFollow(options, doc') && LastOther(doc') == LastOther(doc)
      ensures more ==> |reader.input| <= old(|reader.input|) && first != EOF
      ensures !more && printer.ok ==> Done(before, doc')
    {
      ghost var end' := end;
      ch, doc', head', more := first, doc, head, false;
      hide Fits, Narrow, InStream, Done, OthersFollow, LastOther;
      while !StartsText(ch)
        invariant printer.ok && reader.AtText(ch, head') && InStream(before, doc', end', head')
        invariant OthersFollow(options, doc') && LastOther(doc') == LastOther(doc)
        invariant |reader.input| <= old(|reader.input|) && (first == EOF ==> ch == EOF)
        decreases |reader.input|, ch != EOF
      {
        ch, more, doc', end', head' := SkipLine(ch, before, doc', end', head');
        if !more {
          return;
        }
      }
      TextHasBegun(ch, before, doc', end', head');
      more := true;
    }

    lemma TextHasBegun(ch: int, before: Ledger, doc: seq<Block>, end: End, head: Head)
      requires reader.AtText(ch, head) && StartsText(ch) && InStream(before, doc, end, head)
      ensures InStream(before, doc, AtNewline, head)
    {
      hide Fits, Narrow, AllFaithful, StartsAnew;
    }

    /** One line is copied, and the head of the next one read. */
    method SkipLine(first: int, ghost before: Ledger, ghost doc: seq<Block>, ghost end: End, ghost head: Head)
        returns (ch: int, more: bool, ghost doc': seq<Block>, ghost end': End, ghost head': Head)
      requires Sized() && printer.ok && reader.AtText(first, head) && InStream(before, doc, end, head)
      requires !StartsText(first) && OthersFollow(options, doc)
      modifies reader, printer
      ensures printer.ok || printer.room == 0
      ensures more ==> printer.ok && reader.AtText(ch, head') && InStream(before, doc', end', head')
      ensures OthersFollow(options, doc') && LastOther(doc') == LastOther(doc)
      ensures more ==> first != EOF && |reader.input| <= old(|reader.input|)
      ensures more && ch != EOF ==> |reader.input| < old(|reader.input|)
      ensures !more && printer.ok ==> Done(before, doc')
    {
      hide Fits, Narrow, TextOf, PrefixesOf, After, Verbatim, RawHead, HeadColumn, PrefixColumn, AllFaithful,
           StartsAnew, IsCopyMargin, EndsHead, OthersFollow, LastOther;
      ghost var body, margin;
      more, end', head', doc' := false, end, head, doc;
      ch, body, margin := CopyRest(first, head);
      if !printer.ok {
        return;
      }
      assert FaithfulCopy(options, head, body, margin);
      if ch == EOF {
        if end == AtEof {
          NothingVerbatim();
          NoHead(RawDoc(doc));
        } else {
          OthersSnoc(options, doc, Copied(head, body, margin, false));
          doc' := doc + [Copied(head, body, margin, false)];
          LineCopied(options, before.out, doc, head, body, margin, false);
        }
        return;
      }
      var written := printer.Write(LineEnd);
      if !written {
        return;
      }
      OthersSnoc(options, doc, Copied(head, body, margin, true));
      doc' := doc + [Copied(head, body, margin, true)];
      LineCopied(options, before.out, doc, head, body, margin, true);
      assert reader.passed == RawDoc(doc') && printer.out == before.out + DocPieces(doc');
      end' := AtNewline;
      ch, head' := NextHead(ch);
      CopyEndsParagraph(doc, Copied(head, body, margin, true), head');
      Regroup(RawDoc(doc'), Lead(end'), RawHead(head'));
      more := true;
    }

    lemma CopyEndsParagraph(doc: seq<Block>, copy: Block, head: Head)
      requires copy.Copied?
      ensures StartsAnew(options, doc + [copy], head)
    {
    }

    // -------------------------------------------------------------------- a paragraph

    /** A paragraph begins with an empty buffer. */
    method StartParagraph(ghost head: Head)
      requires Sized() && reader.inColumn <= MAX_INDENT && otherIndent <= MAX_INDENT
      requires reader.nextPrefixIndent + options.prefixFullLength <= reader.inColumn
      requires options.prefixLeadSpace <= reader.nextPrefixIndent
      requires reader.inColumn == HeadColumn(head) && reader.nextPrefixIndent == PrefixColumn(options, head)
      modifies this
      ensures Valid() && Closed() && Typing() && Story() == [] && AllTokens() == []
      ensures sheet.before == printer.out && !sheet.torn && FirstHeadIs(head) && otherIndent == old(otherIndent)
    {
      NothingSaid();
      prefixIndent := reader.nextPrefixIndent;
      firstIndent := reader.inColumn;
      wptr := 0;
      wordLimit := 0;
      lastLineLength := 0;
      sheet := Sheet(printer.out, [], [], false);
      NothingSet(SheetForm());
      assert printer.out + [] == printer.out;
    }

    /** The account holds at the start. */
    lemma NoLines(raw: seq<char>, next: seq<char>)
      ensures raw + RawLines([]) + next == raw + next && LinesText([]) == []
      ensures GoodLines(options.prefix, []) && Joined(options, []) && TokensSoFar([], false) == []
    {
      assert raw + [] == raw;
    }

    lemma Begun(ledger: Ledger, head: Head)
      requires Valid() && Typing() && Story() == [] && AllTokens() == [] && !sheet.torn
      requires reader.Valid() && reader.passed == ledger.raw + ("\n" + RawHead(head)) && reader.Whole() == ledger.whole
      requires sheet.before == ledger.out
      ensures Collected(ledger, [], AtNewline, head, false)
    {
      NoLines(ledger.raw, "\n" + RawHead(head));
      hide Laid, Fits, Narrow, WellSet, HeldTokens, LinesText, RawLines, LinesTokens, TextOf, RawHead, GoodLines,
           Joined, Short, Valid, Story, AllTokens, Typing, TokensSoFar;
    }

    /** The first line of a paragraph. */
    method FirstLine(first: int, ghost ledger: Ledger, ghost head: Head)
        returns (ch: int, ghost lines: seq<TextLine>, ghost end: End, ghost head': Head)
      requires Sized() && printer.ok && reader.AtText(first, head) && StartsText(first) && otherIndent <= MAX_INDENT
      requires reader.passed == ledger.raw + ("\n" + RawHead(head)) && reader.Whole() == ledger.whole
      requires printer.out == ledger.out
      modifies this, reader, printer, parabuf, words, breaks
      ensures Valid() && (printer.ok || printer.room == 0)
      ensures printer.ok ==> 0 < wordLimit && Closed() && reader.AtText(ch, head')
      ensures printer.ok ==> Collected(ledger, lines, end, head', false) && Longer([], head, lines)
      ensures printer.ok && sheet.pieces == [] ==> otherIndent == old(otherIndent)
      ensures printer.ok ==> |reader.input| <= old(|reader.input|)
      ensures printer.ok ==> ch == EOF || |reader.input| < old(|reader.input|)
    {
      StartParagraph(head);
      Begun(ledger, head);
      assert IsDark(first) && head.matched == options.prefix;
      hide *;
      ghost var pieces, other := sheet.pieces, otherIndent;
      ch, lines, end, head' := NextLine(first, ledger, [], head);
      if printer.ok {
        StillSet(pieces, other);
      }
    }

    lemma StillSet(pieces: seq<Piece>, other: nat)
      requires Steady(pieces, other)
      ensures sheet.pieces == [] ==> otherIndent == other
    {
    }

    /** The indent of the other lines, now that the first one has been read. */
    method ResetOtherIndent(ch: int, ghost ledger: Ledger, ghost lines: seq<TextLine>, ghost end: End, ghost head: Head)
      requires Valid() && Closed() && reader.AtText(ch, head) && Collected(ledger, lines, end, head, false)
      modifies this`otherIndent
      ensures Valid() && Closed() && Collected(ledger, lines, end, head, false)
      ensures OtherSet(ch, old(otherIndent))
    {
      hide Laid, Fits, Narrow, WellSet, HeldTokens, Joined, GoodLines, Short, LinesText, RawLines, RawHead, TokensSoFar,
           Crowded;
      SetOtherIndent(SameParagraph(ch));
    }

    /** What the indent becomes behind the first line. */
    ghost predicate OtherSet(ch: int, before: nat)
      reads this, reader
    {
      if OneIndent(options) then otherIndent == firstIndent
      else if SameParagraph(ch) && (options.crownMargin || reader.inColumn != firstIndent) then
        otherIndent == reader.inColumn
      else if options.crownMargin then otherIndent == firstIndent
      else
        sheet.pieces == [] ==>
          otherIndent == if before != firstIndent then before else if firstIndent == 0 then 3 else 0
    }

    /** The second line of a crown or tagged paragraph, and those that are indented as it is. */
    method IndentedLines(first: int, ghost ledger: Ledger, ghost lines: seq<TextLine>, ghost end: End, ghost head: Head)
        returns (ch: int, ghost lines': seq<TextLine>, ghost end': End, ghost head': Head)
      requires Valid() && Closed() && 0 < wordLimit && printer.ok
      requires reader.AtText(first, head) && SameParagraph(first) && otherIndent == reader.inColumn
      requires Collected(ledger, lines, end, head, false) && |lines| == 1 && !OneIndent(options)
      requires Joins(options, lines, head)
      modifies this`wptr, this`wordLimit, this`otherIndent, this`lastLineLength, this`sheet,
               reader, printer, parabuf, words, breaks
      ensures Valid() && (printer.ok || printer.room == 0)
      ensures printer.ok ==> 0 < wordLimit && Closed() && reader.AtText(ch, head')
      ensures printer.ok ==> Collected(ledger, lines', end', head', false) && |lines'| > 1 && Indented(lines')
      ensures printer.ok ==> lines'[0] == lines[0]
      ensures printer.ok ==> EndsLine(ch) || Stops(options, lines', head')
      ensures printer.ok ==> |reader.input| <= old(|reader.input|)
    {
      ParagraphGoesOn(first, ledger, lines, end, head);
      assert otherIndent == HeadColumn(head);
      hide Laid, Start, Collected, Fits, Narrow, Joins, Stops, HeadColumn, WellSet, HeldTokens;
      ch, lines', end', head' := NextLine(first, ledger, lines, head);
      if printer.ok {
        ch, lines', end', head' := MoreLines(ch, ledger, lines', end', head');
      }
    }

    /** The output's other lines begin where they are to, unless the indent changed while something was printed. */
    ghost predicate Settled(before: nat, lines: seq<TextLine>)
      requires lines != []
      reads this`otherIndent, this`sheet
    {
      sheet.pieces == [] || OneIndent(options) ==> otherIndent == OtherIndent(options, before, lines)
    }

    /** The lines behind the first one, in the four modes. */
    method OtherLines(first: int, ghost before: nat, ghost ledger: Ledger, ghost lines: seq<TextLine>,
                      ghost end: End, ghost head: Head)
        returns (ch: int, ghost lines': seq<TextLine>, ghost end': End, ghost head': Head)
      requires Valid() && Closed() && 0 < wordLimit && printer.ok && reader.AtText(first, head)
      requires Collected(ledger, lines, end, head, false) && |lines| == 1 && OtherSet(first, before)
      modifies this`wptr, this`wordLimit, this`otherIndent, this`lastLineLength, this`sheet,
               reader, printer, parabuf, words, breaks
      ensures Valid() && (printer.ok || printer.room == 0)
      ensures printer.ok ==> 0 < wordLimit && Closed() && reader.AtText(ch, head')
      ensures printer.ok ==> Collected(ledger, lines', end', head', false) && lines' != [] && Settled(before, lines')
      ensures printer.ok ==> lines'[0] == lines[0]
      ensures printer.ok ==> EndsLine(ch) || Stops(options, lines', head')
      ensures printer.ok ==> |reader.input| <= old(|reader.input|) && (first == EOF ==> ch == EOF)
    {
      SecondLine(first, ledger, lines, end, head);
      hide Laid, Start, Collected, Fits, Narrow, Closed, Joins, Stops, WellSet, HeldTokens, Roomy, HeadColumn;
      ch, lines', end', head' := first, lines, end, head;
      if options.splitOnly {
      } else if options.crownMargin {
        if SameParagraph(ch) {
          ch, lines', end', head' := IndentedLines(ch, ledger, lines, end, head);
        }
      } else if options.taggedParagraph {
        if SameParagraph(ch) && reader.inColumn != firstIndent {
          ch, lines', end', head' := IndentedLines(ch, ledger, lines, end, head);
        }
      } else {
        ch, lines', end', head' := MoreLines(ch, ledger, lines, end, head);
      }
      if printer.ok {
        SettledNow(before, ledger, lines', end', head');
      }
    }

    /** What the tests behind the first line say of the second one. */
    lemma SecondLine(ch: int, ledger: Ledger, lines: seq<TextLine>, end: End, head: Head)
      requires Valid() && reader.AtText(ch, head) && Collected(ledger, lines, end, head, false) && |lines| == 1
      ensures !OneIndent(options) && SameParagraph(ch) && (options.crownMargin || reader.inColumn != firstIndent) ==>
        Joins(options, lines, head)
      ensures !OneIndent(options) && !(SameParagraph(ch) && (options.crownMargin || reader.inColumn != firstIndent)) ==>
        EndsLine(ch) || Stops(options, lines, head)
      ensures options.splitOnly ==> Stops(options, lines, head)
      ensures firstIndent == HeadColumn(lines[0].head)
    {
      hide Fits, Narrow, WellSet, HeldTokens, Roomy, RawHead, HeadColumn, PrefixColumn, LinesText;
    }

    lemma SettledNow(before: nat, ledger: Ledger, lines: seq<TextLine>, end: End, head: Head)
      requires Valid() && -1 <= reader.last < 256 && Collected(ledger, lines, end, head, false) && lines != []
      requires OneIndent(options) ==> otherIndent == firstIndent
      requires !OneIndent(options) && |lines| > 1 ==> Indented(lines)
      requires !OneIndent(options) && |lines| == 1 && sheet.pieces == [] ==>
        otherIndent ==
          if options.crownMargin then firstIndent
          else if before != firstIndent then before else if firstIndent == 0 then 3 else 0
      ensures Settled(before, lines)
    {
      hide Fits, Narrow, WellSet, HeldTokens, Roomy, RawHead, HeadColumn, LinesText;
    }

    /** bx_fmt_engine_get_paragraph, from its first line of text on. */
    method CollectParagraph(first: int, ghost ledger: Ledger, ghost head: Head)
        returns (ch: int, ghost lines: seq<TextLine>, ghost end: End, ghost head': Head)
      requires Sized() && printer.ok && reader.AtText(first, head) && StartsText(first) && otherIndent <= MAX_INDENT
      requires reader.passed == ledger.raw + ("\n" + RawHead(head)) && reader.Whole() == ledger.whole
      requires printer.out == ledger.out
      modifies this, reader, printer, parabuf, words, breaks
      ensures Valid() && (printer.ok || printer.room == 0)
      ensures printer.ok ==> 0 < wordLimit && Closed() && reader.AtText(ch, head')
      ensures printer.ok ==> Collected(ledger, lines, end, head', true)
      ensures printer.ok ==> lines != [] && lines[0].head == head && Settled(old(otherIndent), lines)
      ensures printer.ok ==> EndsLine(ch) || Stops(options, lines, head')
      ensures printer.ok ==> |reader.input| <= old(|reader.input|)
      ensures printer.ok ==> ch == EOF || |reader.input| < old(|reader.input|)
    {
      hide Laid, Start, Collected, Fits, Narrow, WellSet, HeldTokens, TextOf, RawHead, Stops, Settled;
      ch, lines, end, head' := FirstLine(first, ledger, head);
      if printer.ok {
        ResetOtherIndent(ch, ledger, lines, end, head');
        ch, lines, end, head' := OtherLines(ch, old(otherIndent), ledger, lines, end, head');
        if printer.ok {
          FinishLast(ledger, lines, end, head');
        }
      }
    }

    method FinishLast(ghost ledger: Ledger, ghost lines: seq<TextLine>, ghost end: End, ghost head: Head)
      requires Valid() && Closed() && 0 < wordLimit && reader.Valid() && Collected(ledger, lines, end, head, false)
      modifies words
      ensures Valid() && Closed() && Collected(ledger, lines, end, head, true)
    {
      hide Laid, Start, Fits, Narrow, WellSet, HeldTokens, Joined, GoodLines, TextOf, LinesText, LinesTokens, RawLines,
           RawHead, Short, HeadColumn, PrefixColumn;
      ghost var held := Held();
      EndSentence();
      EndedBehind(sheet.tokens, held);
    }

    /** bx_fmt_engine_get_paragraph; false at the end of the stream. */
    method GetParagraph(first: int, ghost before: Ledger, ghost doc: seq<Block>, ghost end: End, ghost head: Head)
        returns (ch: int, more: bool, ghost doc': seq<Block>, ghost lines: seq<TextLine>, ghost end': End,
                 ghost head': Head)
      requires Sized() && printer.ok && reader.AtText(first, head) && otherIndent <= MAX_INDENT
      requires InStream(before, doc, end, head) && OthersFollow(options, doc) && otherIndent == LastOther(doc)
      modifies this, reader, printer, parabuf, words, breaks
      ensures printer.ok || printer.room == 0
      ensures more ==> printer.ok && Valid() && 0 < wordLimit && Closed() && reader.AtText(ch, head')
      ensures more ==> AllFaithful(options, doc') && lines != [] && StartsAnew(options, doc', lines[0].head)
      ensures more ==>
        Collected(Ledger(RawDoc(doc'), before.out + DocPieces(doc'), before.whole), lines, end', head', true)
      ensures more ==> Settled(LastOther(doc'), lines) && (EndsLine(ch) || Stops(options, lines, head'))
      ensures OthersFollow(options, doc')
      ensures more ==> |reader.input| <= old(|reader.input|) && first != EOF
      ensures more && ch != EOF ==> |reader.input| < old(|reader.input|)
      ensures !more && printer.ok ==> Done(before, doc')
    {
      hide Fits, Narrow, Laid, Start, Collected, Done, AllFaithful, StartsAnew, RawHead, Stops, Settled, OthersFollow,
           LastOther;
      lines, end' := [], AtNewline;
      ch, more, doc', head' := SkipLines(first, before, doc, end, head);
      if !more {
        return;
      }
      ghost var ledger := Ledger(RawDoc(doc'), before.out + DocPieces(doc'), before.whole);
      ch, lines, end', head' := CollectParagraph(ch, ledger, head');
      more := printer.ok;
    }

    // --------------------------------------------------------------- the whole stream

    /**
     * The paragraph in the buffer is laid out and printed: its lines are the cheapest layout of
     * the words in the buffer, and the text printed is what was in the buffer.
     */
    method FormatParagraph() returns (ghost printed: seq<Piece>)
      requires Valid() && Closed() && 0 < wordLimit && printer.ok && Typing()
      requires OneIndent(options) ==> otherIndent == firstIndent
      modifies this`lastLineLength, this`sheet, printer, breaks
      ensures Valid() && (printer.ok || printer.room == 0)
      ensures sheet.before == old(sheet.before) && sheet.torn == old(sheet.torn)
      ensures printer.ok ==> sheet.pieces == old(sheet.pieces) + printed && sheet.tokens == old(AllTokens())
      ensures printer.ok ==> TextOf(sheet.pieces) == old(Story())
      ensures printer.ok ==> LaidOut(old(Current()), RowsOf(printed))
      ensures printer.ok ==> printer.out == sheet.before + sheet.pieces
      ensures printer.ok ==> sheet.torn || WellSet(LastForm(old(sheet.pieces)), sheet.pieces, sheet.tokens)
    {
      hide TextOf, WellSet, RowsOf, IsPlan, Laid, Planned, HeldTokens, Cut;
      ghost var starts := PlanLines();
      ghost var p := Current();
      TextFromTheStart(parabuf[..], words[..], wordLimit, wptr, wordLimit);
      PlanEnds(p, starts);
      printed := PutParagraph(wordLimit, p, starts, |starts| - 1, LastForm(sheet.pieces));
      if !printer.ok {
        return;
      }
      assert starts[..|starts|] == starts && Held()[..wordLimit] == Held();
      SheetGrows(printed);
      sheet := sheet.(pieces := sheet.pieces + printed, tokens := sheet.tokens + Held());
    }

    /** The last lines of a paragraph go below those printed before. */
    lemma SheetGrows(printed: seq<Piece>)
      requires Valid() && 0 < wordLimit && (OneIndent(options) ==> otherIndent == firstIndent)
      requires sheet.torn || WellSet(SheetForm(), sheet.pieces, sheet.tokens)
      requires WellSet(LastForm(sheet.pieces), printed, Held())
      ensures sheet.torn || WellSet(LastForm(sheet.pieces), sheet.pieces + printed, sheet.tokens + Held())
      ensures TextOf(sheet.pieces + printed) == TextOf(sheet.pieces) + TextOf(printed)
      ensures sheet.before + sheet.pieces + printed == sheet.before + (sheet.pieces + printed)
    {
      var held := Held();
      hide Valid, TextOf, WellSet, Held;
      PiecesAdd(sheet.pieces, printed);
      Regroup(sheet.before, sheet.pieces, printed);
      if !sheet.torn {
        WellSetBelow(SheetForm(), sheet.pieces, sheet.tokens, LastForm(sheet.pieces), printed, held);
      }
    }

    /** How the lines of the complete paragraph stand, if so much of it was printed before. */
    ghost function LastForm(pieces: seq<Piece>): Form
      reads this`prefixIndent, this`firstIndent, this`otherIndent
    {
      if pieces == [] then SheetForm().(other := Some(RowColumn(otherIndent))) else SheetForm()
    }

    /** The collected paragraph is printed as its lines ask for. */
    method PrintLines(ghost ledger: Ledger, ghost lines: seq<TextLine>, ghost end: End, ghost head: Head)
      requires Valid() && 0 < wordLimit && Closed() && printer.ok && reader.Valid() && lines != []
      requires Collected(ledger, lines, end, head, true)
      requires Looser(FormOf(options, lines, otherIndent), LastForm(sheet.pieces))
      requires OneIndent(options) ==> otherIndent == firstIndent
      modifies this`lastLineLength, this`sheet, printer, breaks
      ensures Valid() && (printer.ok || printer.room == 0)
      ensures printer.ok ==>
        FaithfulPara(options, lines, sheet.pieces, otherIndent) && printer.out == ledger.out + sheet.pieces
    {
      BufferIsParagraph(ledger, lines, end, head);
      ghost var form, p, front := LastForm(sheet.pieces), Current(), sheet.pieces;
      hide Fits, Narrow, Laid, Start, TextOf, WellSet, RowsOf, HeldTokens, RawHead, GoodLines, Short, Roomy, LinesText,
           Joined, LaidOut, FaithfulPara, LastForm, ParaOf, ParaTokens, Looser, FormOf, OneIndent;
      ghost var printed := FormatParagraph();
      if printer.ok {
        assert front == [] ==> sheet.pieces == printed;
        ParaIsFaithful(options, lines, sheet.pieces, otherIndent, form, sheet.tokens, sheet.torn, p, printed);
      }
    }

    /** One turn of the loop of bx_fmt_engine_process_stream behind get_paragraph. */
    method PrintParagraph(ghost before: Ledger, ghost doc: seq<Block>, ghost lines: seq<TextLine>, ghost end: End,
                          ghost head: Head) returns (ghost doc': seq<Block>)
      requires Valid() && 0 < wordLimit && Closed() && printer.ok && reader.Valid() && lines != []
      requires AllFaithful(options, doc) && StartsAnew(options, doc, lines[0].head)
      requires Collected(Ledger(RawDoc(doc), before.out + DocPieces(doc), before.whole), lines, end, head, true)
      requires EndsLine(reader.last) || Stops(options, lines, head)
      requires Settled(LastOther(doc), lines) && OthersFollow(options, doc)
      modifies this`lastLineLength, this`sheet, printer, breaks
      ensures Valid() && (printer.ok || printer.room == 0)
      ensures printer.ok ==> InStream(before, doc', end, head)
      ensures OthersFollow(options, doc') && LastOther(doc') == otherIndent
    {
      ghost var ledger := Ledger(RawDoc(doc), before.out + DocPieces(doc), before.whole);
      FormIsInput(LastOther(doc), ledger, lines, end, head);
      hide Fits, Narrow, Laid, Start, TextOf, WellSet, HeldTokens, RawHead, GoodLines, Short, Roomy, LinesText,
           Joined, FaithfulPara, LastForm, StartsAnew, Stops, AllFaithful, OthersFollow, LastOther, OtherIndent,
           Looser, FormOf, OneIndent, TokensSoFar, Settled;
      PrintLines(ledger, lines, end, head);
      doc' := doc + [Para(lines, sheet.pieces, otherIndent)];
      OthersSnoc(options, doc, Para(lines, sheet.pieces, otherIndent));
      if printer.ok {
        ParagraphPrinted(before, doc, lines, sheet.pieces, otherIndent, end, head);
      }
    }

    /** The account with the paragraph in it. */
    lemma ParagraphPrinted(before: Ledger, doc: seq<Block>, lines: seq<TextLine>, pieces: seq<Piece>, other: nat,
                           end: End, head: Head)
      requires -1 <= reader.last < 256 && AllFaithful(options, doc) && FaithfulPara(options, lines, pieces, other)
      requires StartsAnew(options, doc, lines[0].head) && (EndsLine(reader.last) || Stops(options, lines, head))
      requires reader.passed == RawDoc(doc) + RawLines(lines) + (Lead(end) + RawHead(head))
      requires reader.Whole() == before.whole && Stopped(end, head)
      requires printer.out == before.out + DocPieces(doc) + pieces
      ensures InStream(before, doc + [Para(lines, pieces, other)], end, head)
    {
      hide AllFaithful, FaithfulPara, Stops, RawHead, RawLines;
      ParagraphAdded(options, before.out, doc, lines, pieces, other);
    }

    /** A paragraph that leaves room is as a whole in the buffer, ready to be laid out. */
    lemma BufferIsParagraph(ledger: Ledger, lines: seq<TextLine>, end: End, head: Head)
      requires Valid() && -1 <= reader.last < 256 && Collected(ledger, lines, end, head, true) && lines != []
      ensures Roomy(lines) ==> sheet.pieces == [] && !sheet.torn
      ensures Roomy(lines) ==> Current() == ParaOf(options, lines, otherIndent)
    {
      RoomyIsWhole(ledger, lines, end, head, true);
      if Roomy(lines) {
        NothingHolds(SheetForm(), sheet.tokens);
        WordsOfHeld(parabuf[..], words[..], wordLimit, wptr, wordLimit);
        assert words[..wordLimit] == words[..][..wordLimit];
        assert AllTokens() == Held();
      }
    }

    /** The form the lines are printed in is the one the input asks for. */
    lemma FormIsInput(before: nat, ledger: Ledger, lines: seq<TextLine>, end: End, head: Head)
      requires Valid() && -1 <= reader.last < 256 && Collected(ledger, lines, end, head, true) && lines != []
      requires Settled(before, lines)
      ensures Looser(FormOf(options, lines, otherIndent), LastForm(sheet.pieces))
      ensures OneIndent(options) || Roomy(lines) ==> otherIndent == OtherIndent(options, before, lines)
      ensures OneIndent(options) ==> otherIndent == firstIndent
    {
      RoomyIsWhole(ledger, lines, end, head, true);
      assert prefixIndent == PrefixColumn(options, lines[0].head) && firstIndent == HeadColumn(lines[0].head);
      hide Valid, Collected, Roomy, HeadColumn, PrefixColumn;
      FormsAgree(before, lines);
    }

    lemma FormsAgree(before: nat, lines: seq<TextLine>)
      requires prefixIndent + |options.prefix| <= firstIndent && lines != [] && Settled(before, lines)
      requires prefixIndent == PrefixColumn(options, lines[0].head) && firstIndent == HeadColumn(lines[0].head)
      requires Roomy(lines) ==> sheet.pieces == []
      ensures Looser(FormOf(options, lines, otherIndent), LastForm(sheet.pieces))
      ensures OneIndent(options) || Roomy(lines) ==> otherIndent == OtherIndent(options, before, lines)
      ensures OneIndent(options) ==> otherIndent == firstIndent
    {
      hide Roomy, HeadColumn, PrefixColumn;
    }

    /**
     * bx_fmt_engine_process_stream. The blocks are the whole stream, byte for byte, and the
     * whole output, piece for piece, and the output of each is right for its input.
     */
    method ProcessStream() returns (ghost doc: seq<Block>)
      requires Sized() && printer.ok && reader.Valid() && reader.last == 10 && reader.passed == []
      modifies this, reader, printer, parabuf, words, breaks
      ensures printer.ok || printer.room == 0
      ensures printer.ok ==> reader.input == [] && RawDoc(doc) == "\n" + old(reader.input)
      ensures printer.ok ==> printer.out == old(printer.out) + DocPieces(doc)
      ensures printer.ok ==> AllFaithful(options, doc) && OthersFollow(options, doc)
      ensures printer.ok ==> TextOf(printer.out) == TextOf(old(printer.out)) + DocText(doc)
      ensures printer.ok ==> old(Ink(reader.input)) == DocInk(doc)
      ensures printer.ok && options.prefix == [] ==>
        TextOf(printer.out) == TextOf(old(printer.out)) + old(Ink(reader.input))
    {
      hide Fits, Narrow, Laid, Start, Collected, Done, InStream, RawHead, StartsAnew, Stops, Settled, OtherIs;
      ghost var before := Ledger([], printer.out, "\n" + reader.input);
      ghost var end, head, lines := AtNewline, Head([], [], []), [];
      doc := [];
      otherIndent := 0;
      reader.tabs := false;
      var ch;
      ch, head := FirstHead(before);
      var more := true;
      while more
        invariant printer.ok || printer.room == 0
        invariant more ==> Sized() && printer.ok && reader.AtText(ch, head) && otherIndent <= MAX_INDENT
        invariant more ==> InStream(before, doc, end, head) && otherIndent == LastOther(doc)
        invariant OthersFollow(options, doc)
        invariant !more && printer.ok ==> Done(before, doc)
        decreases more, |reader.input|, ch != EOF
      {
        ch, more, doc, lines, end, head := GetParagraph(ch, before, doc, end, head);
        if more {
          doc := PrintParagraph(before, doc, lines, end, head);
          more := printer.ok;
        }
      }
      if printer.ok {
        DoneWith(before, doc, old(reader.input));
      }
    }

    method FirstHead(ghost before: Ledger) returns (ch: int, ghost head: Head)
      requires Sized() && reader.Valid() && reader.last == 10 && reader.passed == []
      requires before == Ledger([], printer.out, "\n" + reader.input)
      modifies reader
      ensures reader.AtText(ch, head) && InStream(before, [], AtNewline, head)
    {
      hide Fits, Narrow, RawHead;
      ch, head := reader.GetPrefix();
      assert printer.out + [] == printer.out;
    }

    lemma DoneWith(before: Ledger, doc: seq<Block>, input: seq<char>)
      requires Done(before, doc) && before.whole == "\n" + input
      ensures reader.input == [] && RawDoc(doc) == "\n" + input
      ensures printer.out == before.out + DocPieces(doc) && AllFaithful(options, doc)
      ensures TextOf(printer.out) == TextOf(before.out) + DocText(doc)
      ensures Ink(input) == DocInk(doc) && (options.prefix == [] ==> DocInk(doc) == DocText(doc))
    {
      hide TextOf, Ink, AllFaithful;
      PiecesAdd(before.out, DocPieces(doc));
      DocTextIsPrinted(options, doc);
      DocHoldsInk(options, doc);
      FirstLineEnd(input);
    }

    lemma PlanEnds(p: Paragraph, starts: seq<nat>)
      requires Sized() && wordLimit <= MAX_WORDS - 2 && Planned(p, starts)
      ensures |starts| > 1 && starts[|starts| - 1] == wordLimit
    {
    }
  }
}
