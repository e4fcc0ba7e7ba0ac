/** The steps of the engine, on values: what one more word, line or block adds. */
module FmtSteps {
  import opened FmtBreaks
  import opened FmtPrinter
  import opened FmtReader
  import opened FmtTable
  import opened FmtText
  import opened Sequences
  import opened Wrappers

  /** What the current paragraph has become so far, and whether a word of it was torn to pieces. */
  datatype Sheet = Sheet(before: seq<Piece>, pieces: seq<Piece>, tokens: seq<Token>, torn: bool)

  /** Where a paragraph starts: what was read and printed before it, and the whole stream. */
  datatype Ledger = Ledger(raw: seq<char>, out: seq<Piece>, whole: seq<char>)

  /** The line end in front of a line that has begun; behind the end of the stream there is none. */
  function Lead(end: End): seq<char> {
    if end == AtEof then [] else "\n"
  }

  predicate ShortWords(words: seq<Spelled>) {
    forall k :: 0 <= k < |words| ==> |words[k].text| <= MAX_CHARS
  }

  /** One more token of a line. */
  lemma TokenSet(items: seq<Item>, tokens: seq<Token>, first: nat, word: nat, item: Item)
    requires first <= word < |tokens| && Sets(items, tokens[first..word]) && item.text == tokens[word].text
    requires word > first ==> item.gap == tokens[word - 1].gap
    ensures Sets(items + [item], tokens[first..word + 1]) && items + [item] != []
  {
    SetsSnoc(items, tokens[first..word], item, tokens[word]);
    assert tokens[first..word + 1] == tokens[first..word] + [tokens[word]];
  }

  /** One more line of a paragraph is printed. */
  lemma LineSet(form: Form, pieces: seq<Piece>, other: nat, more: seq<Piece>, tokens: seq<Token>, word: nat, next: nat)
    requires 0 < word <= next <= |tokens| && WellSet(form, pieces, tokens[..word])
    requires WellSet(form.(first := other), more, tokens[word..next])
    requires form.other.None? || form.other.value == other
    ensures WellSet(form, pieces + more, tokens[..next]) && RowsOf(pieces + more) == RowsOf(pieces) + RowsOf(more)
  {
    hide WellSet, RowsOf;
    WellSetBoth(form, pieces, tokens[..word], other, more, tokens[word..next]);
    assert tokens[..word] + tokens[word..next] == tokens[..next];
  }

  lemma NoHead(before: seq<char>)
    ensures before + ([] + RawHead(Head([], [], []))) == before
  {
  }

  /** The column behind a word and its blanks, the gap they ask for, and the flags. */
  predicate Measured(uniform: bool, column: nat, text: seq<char>, blanks: seq<char>, ch: int, inColumn: nat, word: Word)
  {
    && text != [] && inColumn == ColumnFrom(column + |text|, blanks)
    && word.space == Gap(uniform, column, Spelled(text, blanks), EndOf(ch))
    && MarkAt(word) == MarkOf(column, Spelled(text, blanks), EndOf(ch))
  }

  /** The pieces are the tokens first to word - 1 of a line, with the blanks behind them. */
  predicate SoFar(page: Page, tokens: seq<Token>, first: nat, word: nat, pieces: seq<Piece>, items: seq<Item>,
                  end: nat, column: nat)
  {
    && first <= word < |tokens| && PrefixesOf(pieces) == [] && After(page.column, pieces) == column
    && Sets(items, tokens[first..word])
    && PageAfter(page, pieces) == Page(page.lines, page.row.(items := items), end, column)
    && if word == first then items == [] && column == page.column && end == page.end
       else column - end == tokens[word - 1].gap && items != [] && items[0].gap == page.column - page.end
  }

  /** The pieces are a word and the blanks behind it. */
  predicate Spaced(now: Page, text: seq<char>, gap: nat, pieces: seq<Piece>, column: nat) {
    && TextOf(pieces) == text && PrefixesOf(pieces) == []
    && After(now.column, pieces) == column == now.column + |text| + gap
    && PageAfter(now, pieces) == Page(now.lines, WithText(now, text), now.column + |text|, column)
  }

  lemma NothingSoFar(page: Page, tokens: seq<Token>, first: nat)
    requires page.row.items == [] && first < |tokens|
    ensures SoFar(page, tokens, first, first, [], [], page.end, page.column) && TextOf([]) == []
  {
    hide TextOf, PrefixesOf;
    NothingSaid();
    AfterNone(page.column);
  }

  lemma OneMoreItem(page: Page, tokens: seq<Token>, first: nat, word: nat, pieces: seq<Piece>, items: seq<Item>,
                    end: nat, column: nat, more: seq<Piece>, column': nat)
    requires SoFar(page, tokens, first, word, pieces, items, end, column) && word + 1 < |tokens|
    requires Spaced(PageAfter(page, pieces), tokens[word].text, tokens[word].gap, more, column')
    ensures var text := tokens[word].text;
      && TextOf(pieces + more) == TextOf(pieces) + text && column' == column + |text| + tokens[word].gap
      && SoFar(page, tokens, first, word + 1, pieces + more, items + [Item(column - end, text)],
               column + |text|, column')
  {
    hide TextOf, PrefixesOf, After, PageAfter, Sets;
    TokenSet(items, tokens, first, word, Item(column - end, tokens[word].text));
    PageAfterBoth(page, pieces, more);
    AfterBoth(page.column, pieces, more);
    PiecesAdd(pieces, more);
  }

  lemma NothingSaid()
    ensures TextOf([]) == [] && PrefixesOf([]) == [] && Blanks([])
  {
  }

  lemma NothingVerbatim()
    ensures Verbatim([]) == []
  {
  }

  /** The last word of a line. */
  lemma LastWord(page: Page, pieces: seq<Piece>, text: seq<char>)
    ensures TextOf(pieces + [Text(text)]) == TextOf(pieces) + text
    ensures PrefixesOf(pieces + [Text(text)]) == PrefixesOf(pieces)
    ensures After(page.column, pieces + [Text(text)]) == After(page.column, pieces) + |text|
    ensures PageAfter(page, pieces + [Text(text)]) == Seen(PageAfter(page, pieces), Text(text))
  {
    PieceAdds(pieces, Text(text));
    AfterOne(page.column, pieces, Text(text));
    PageAfterOne(page, pieces, Text(text));
  }

  lemma LinePieces(out: seq<Piece>, margin: seq<Piece>, said: seq<Piece>)
    ensures out + margin + said + [LineEnd] == out + (margin + said + [LineEnd])
    ensures (margin + said + [LineEnd])[..|margin + said|] == margin + said
  {
  }

  /** The end of a buffer after its front has gone. */
  lemma Slices(buf: seq<char>, shift: nat, from: nat, to: nat, buf': seq<char>, from': nat)
    requires shift <= from <= to <= |buf| && to - shift <= |buf'| && from' == from - shift
    requires buf'[..to - shift] == buf[shift..to]
    ensures buf'[from'..to - shift] == buf[from..to]
  {
    assert buf'[from'..to - shift] == buf'[..to - shift][from'..];
    assert buf[from..to] == buf[shift..to][from'..];
  }

  /** A text has no tabs and no line ends, so it counts one column for each character. */
  lemma {:induction false} TextColumns(column: nat, text: seq<char>)
    requires IsText(text)
    ensures ColumnFrom(column, text) == column + |text|
  {
    var n := |text| - 1;
    if n == 0 {
      assert text == [] + [text[0]];
      ColumnSnoc(column, [], text[0]);
    } else {
      TextColumns(column, text[..n]);
      ColumnSnoc(column, text[..n], text[n]);
      assert text == text[..n] + [text[n]];
    }
  }

  lemma {:induction false} ColumnBoth(column: nat, s: seq<char>, t: seq<char>)
    ensures ColumnFrom(column, s + t) == ColumnFrom(ColumnFrom(column, s), t)
  {
    if t == [] {
      assert s + t == s;
    } else {
      var n := |t| - 1;
      ColumnBoth(column, s, t[..n]);
      ColumnSnoc(column, s + t[..n], t[n]);
      assert s + t == s + t[..n] + [t[n]];
    }
  }

  lemma TextColumn(column: nat, text: seq<char>, blanks: seq<char>)
    requires IsText(text)
    ensures ColumnFrom(column, text + blanks) == ColumnFrom(column + |text|, blanks)
  {
    ColumnBoth(column, text, blanks);
    TextColumns(column, text);
  }

  lemma NoWords(uniform: bool, column: nat, passed: seq<char>, story: seq<char>, tokens: seq<Token>)
    ensures passed + RawWords([]) == passed && story + WordsText([]) == story
    ensures tokens + Tokens(uniform, column, [], Inside) == tokens && ColumnFrom(column, RawWords([])) == column
  {
  }

  /** One more word of a line. */
  lemma ReadOn(uniform: bool, column: nat, words: seq<Spelled>, word: Spelled, end: End,
               passed: seq<char>, story: seq<char>, tokens: seq<Token>)
    requires AllSpelled(words) && IsSpelled(word)
    ensures AllSpelled(words + [word])
    ensures passed + RawWords(words) + word.text + word.blanks == passed + RawWords(words + [word])
    ensures story + WordsText(words) + word.text == story + WordsText(words + [word])
    ensures tokens + Tokens(uniform, column, words, Inside)
        + [TokenOf(uniform, ColumnFrom(column, RawWords(words)), word, end)]
      == tokens + Tokens(uniform, column, words + [word], end)
    ensures ColumnFrom(ColumnFrom(column, RawWords(words)), word.text + word.blanks)
         == ColumnFrom(column, RawWords(words + [word]))
  {
    hide RawWords, WordsText, Tokens, TokenOf, ColumnFrom, IsSpelled;
    TokensSnoc(uniform, column, words, word, end);
    ColumnBoth(column, RawWords(words), word.text + word.blanks);
    Regroup(RawWords(words), word.text, word.blanks);
    Regroup(passed, RawWords(words), word.text);
    Regroup(passed, RawWords(words) + word.text, word.blanks);
    Regroup(story, WordsText(words), word.text);
    AddOne(tokens, Tokens(uniform, column, words, Inside),
           TokenOf(uniform, ColumnFrom(column, RawWords(words)), word, end));
  }

  lemma NothingBehind(passed: seq<char>, before: seq<char>, head: Head)
    requires passed == before + RawHead(head) && |passed| <= |before|
    ensures head == Head([], [], [])
  {
  }

  lemma OneMoreShortWord(words: seq<Spelled>, word: Spelled)
    ensures ShortWords(words + [word]) ==> ShortWords(words) && |word.text| <= MAX_CHARS
  {
    if ShortWords(words + [word]) {
      assert forall k :: 0 <= k < |words| ==> (words + [word])[k] == words[k];
      assert (words + [word])[|words|] == word;
    }
  }

  lemma OneMoreShort(lines: seq<TextLine>, line: TextLine)
    ensures Short(lines + [line]) ==> Short(lines) && ShortWords(line.words)
  {
    if Short(lines + [line]) {
      assert forall i :: 0 <= i < |lines| ==> (lines + [line])[i] == lines[i];
      assert (lines + [line])[|lines|] == line;
    }
  }

  /** One more line of a paragraph, in the input and in the story. */
  lemma LineAdded(raw: seq<char>, lines: seq<TextLine>, line: TextLine, passed: seq<char>, next: seq<char>,
                  prefix: seq<char>, uniform: bool)
    requires passed == raw + RawLines(lines) + ("\n" + RawHead(line.head))
    requires GoodLines(prefix, lines) && GoodLine(prefix, line)
    ensures passed + RawWords(line.words) + next == raw + RawLines(lines + [line]) + next
    ensures GoodLines(prefix, lines + [line])
    ensures LinesText(lines) + WordsText(line.words) == LinesText(lines + [line])
    ensures LinesTokens(prefix, uniform, lines) + Tokens(uniform, HeadColumn(line.head), line.words, line.end)
         == LinesTokens(prefix, uniform, lines + [line])
    ensures Short(lines + [line]) ==> Short(lines) && ShortWords(line.words)
  {
    hide RawLines, RawWords, RawHead, WordsText, LinesText, LinesTokens, Tokens, GoodLine, GoodLines;
    LinesSnoc(prefix, uniform, lines, line);
    Regroup(raw, RawLines(lines), "\n" + RawHead(line.head));
    Regroup(raw + RawLines(lines), "\n" + RawHead(line.head), RawWords(line.words));
    Regroup(raw, RawLines(lines), RawLine(line));
    OneMoreShort(lines, line);
  }

  /** The margin of a copied line. */
  lemma MarginCopied(out: seq<Piece>, front: seq<Piece>, prefix: seq<Piece>, back: seq<Piece>, matched: seq<char>)
    requires Blanks(front) && Blanks(back) && TextOf(prefix) == [] && PrefixesOf(prefix) == matched
    ensures var margin := front + prefix + back;
      && TextOf(margin) == [] && PrefixesOf(margin) == matched && out + front + prefix + back == out + margin
      && After(0, margin) == After(After(After(0, front), prefix), back)
  {
    hide TextOf, PrefixesOf, After, Blanks;
    BlanksSayNothing(front);
    BlanksSayNothing(back);
    PiecesAdd(front, prefix);
    PiecesAdd(front + prefix, back);
    AfterBoth(0, front, prefix);
    AfterBoth(0, front + prefix, back);
    Regroup(out, front, prefix);
    Regroup(out, front + prefix, back);
    assert [] + matched + [] == matched;
  }

  lemma LineCopied(options: Options, out: seq<Piece>, doc: seq<Block>, head: Head, body: seq<char>,
                   margin: seq<Piece>, ended: bool)
    requires AllFaithful(options, doc) && FaithfulCopy(options, head, body, margin)
    ensures var doc' := doc + [Copied(head, body, margin, ended)];
      && AllFaithful(options, doc')
      && RawDoc(doc') == RawDoc(doc) + ("\n" + RawHead(head)) + body
      && out + DocPieces(doc') ==
           out + DocPieces(doc) + margin + Verbatim(body) + if ended then [LineEnd] else []
  {
    var block, shown := Copied(head, body, margin, ended), if ended then [LineEnd] else [];
    hide RawDoc, DocPieces, DocText, AllFaithful, FaithfulCopy, RawHead, Verbatim;
    FaithfulSnoc(options, doc, block);
    DocSnoc(doc, block);
    Regroup(RawDoc(doc), "\n" + RawHead(head), body);
    Regroup(out, DocPieces(doc), margin + Verbatim(body) + shown);
    Regroup(out + DocPieces(doc), margin, Verbatim(body));
    Regroup(out + DocPieces(doc), margin + Verbatim(body), shown);
  }

  /** A line of text that begins like this could not have belonged to the last paragraph. */
  ghost predicate StartsAnew(options: Options, doc: seq<Block>, head: Head) {
    doc != [] && doc[|doc| - 1].Para? && doc[|doc| - 1].lines != [] ==>
      Stops(options, doc[|doc| - 1].lines, head)
  }

  lemma ParaIsFaithful(options: Options, lines: seq<TextLine>, pieces: seq<Piece>, other: nat, form: Form,
                       tokens: seq<Token>, torn: bool, p: Paragraph, printed: seq<Piece>)
    requires lines != [] && GoodLines(options.prefix, lines) && Joined(options, lines)
    requires TextOf(pieces) == LinesText(lines) && Looser(FormOf(options, lines, other), form)
    requires Short(lines) ==> !torn && tokens == ParaTokens(options, lines)
    requires torn || WellSet(form, pieces, tokens)
    requires Roomy(lines) ==> p == ParaOf(options, lines, other) && pieces == printed
    requires LaidOut(p, RowsOf(printed))
    ensures FaithfulPara(options, lines, pieces, other)
  {
    hide WellSet, LaidOut, TextOf, LinesText, GoodLines, Joined, FormOf, ParaOf, ParaTokens, RowsOf, Short, Roomy;
    if Short(lines) {
      WellSetLoosely(FormOf(options, lines, other), form, pieces, tokens);
    }
  }

  lemma ParagraphAdded(options: Options, out: seq<Piece>, doc: seq<Block>, lines: seq<TextLine>, pieces: seq<Piece>,
                       other: nat)
    requires AllFaithful(options, doc) && FaithfulPara(options, lines, pieces, other)
    requires StartsAnew(options, doc, lines[0].head)
    ensures var doc' := doc + [Para(lines, pieces, other)];
      && AllFaithful(options, doc') && RawDoc(doc') == RawDoc(doc) + RawLines(lines)
      && out + DocPieces(doc') == out + DocPieces(doc) + pieces
  {
    var block := Para(lines, pieces, other);
    hide RawDoc, DocPieces, DocText, AllFaithful, FaithfulPara, RawLines, Stops;
    FaithfulSnoc(options, doc, block);
    DocSnoc(doc, block);
    Regroup(out, DocPieces(doc), pieces);
  }

  lemma FirstLineEnd(input: seq<char>)
    ensures Ink("\n" + input) == Ink(input)
  {
    InkInTwo("\n", input);
    InkSnoc([], '\n');
    assert [] + ['\n'] == "\n";
  }
}
