/** The output side of fmt: pieces of output, told apart, and the lines one reads off them. */
module FmtPrinter {
  import opened Sequences

  /** What is printed, told apart by where it comes from. */
  datatype Piece = Blank(c: char) | Prefix(text: seq<char>) | Text(text: seq<char>) | LineEnd

  /** The text of words among the output: everything but prefixes, blanks and line ends. */
  function TextOf(out: seq<Piece>): seq<char> {
    if out == [] then []
    else TextOf(out[..|out| - 1]) + if out[|out| - 1].Text? then out[|out| - 1].text else []
  }

  /** The prefixes among the output. */
  function PrefixesOf(out: seq<Piece>): seq<char> {
    if out == [] then []
    else PrefixesOf(out[..|out| - 1]) + if out[|out| - 1].Prefix? then out[|out| - 1].text else []
  }

  lemma PieceAdds(out: seq<Piece>, piece: Piece)
    ensures TextOf(out + [piece]) == TextOf(out) + if piece.Text? then piece.text else []
    ensures PrefixesOf(out + [piece]) == PrefixesOf(out) + if piece.Prefix? then piece.text else []
  {
    assert (out + [piece])[..|out|] == out;
  }

  lemma {:induction false} PiecesAdd(out: seq<Piece>, pieces: seq<Piece>)
    ensures TextOf(out + pieces) == TextOf(out) + TextOf(pieces)
    ensures PrefixesOf(out + pieces) == PrefixesOf(out) + PrefixesOf(pieces)
  {
    if pieces == [] {
      assert out + pieces == out;
    } else {
      var front, last := pieces[..|pieces| - 1], pieces[|pieces| - 1];
      PiecesAdd(out, front);
      PieceAdds(out + front, last);
      assert out + pieces == out + front + [last];
    }
  }

  predicate Blanks(pieces: seq<Piece>) {
    forall k :: 0 <= k < |pieces| ==> pieces[k].Blank?
  }

  lemma {:induction false} BlanksSayNothing(pieces: seq<Piece>)
    requires Blanks(pieces)
    ensures TextOf(pieces) == [] && PrefixesOf(pieces) == []
  {
    if pieces != [] {
      BlanksSayNothing(pieces[..|pieces| - 1]);
    }
  }

  // ------------------------------------------------------------------- columns

  /** The column behind a piece that starts in the given one. */
  function Behind(column: nat, piece: Piece): nat {
    match piece
    case Blank(c) => if c == '\t' then (column / 8 + 1) * 8 else column + 1
    case Prefix(text) => column + |text|
    case Text(text) => column + |text|
    case LineEnd => 0
  }

  function After(column: nat, pieces: seq<Piece>): nat {
    if pieces == [] then column else Behind(After(column, pieces[..|pieces| - 1]), pieces[|pieces| - 1])
  }

  lemma AfterOne(column: nat, pieces: seq<Piece>, piece: Piece)
    ensures After(column, pieces + [piece]) == Behind(After(column, pieces), piece)
    ensures Blanks(pieces) && piece.Blank? ==> Blanks(pieces + [piece])
  {
    assert (pieces + [piece])[..|pieces|] == pieces;
  }

  lemma {:induction false} AfterBoth(column: nat, a: seq<Piece>, b: seq<Piece>)
    ensures After(column, a + b) == After(After(column, a), b)
  {
    if b == [] {
      assert a + b == a;
    } else {
      var front, last := b[..|b| - 1], b[|b| - 1];
      AfterBoth(column, a, front);
      AfterOne(column, a + front, last);
      assert a + b == a + front + [last];
    }
  }

  // ----------------------------------------------------- reading the output back

  /** A text, and how many columns lie between it and the one in front of it, or the start of its line. */
  datatype Item = Item(gap: int, text: seq<char>)

  /** A line: the column of its prefix, the prefix, and the texts. */
  datatype Row = Row(at: nat, prefix: seq<char>, items: seq<Item>)

  const NO_ROW := Row(0, [], [])

  /** Finished lines, the line under way, the column its texts end in, and the column reached. */
  datatype Page = Page(lines: seq<Row>, row: Row, end: nat, column: nat)

  const EMPTY := Page([], NO_ROW, 0, 0)

  /** The line under way with one more text. */
  function WithText(page: Page, text: seq<char>): Row {
    page.row.(items := page.row.items + [Item(page.column - page.end, text)])
  }

  function Seen(page: Page, piece: Piece): Page {
    var column := Behind(page.column, piece);
    match piece
    case Blank(_) => page.(column := column)
    case Prefix(text) => page.(row := page.row.(at := page.column, prefix := text), column := column)
    case Text(text) => page.(row := WithText(page, text), end := column, column := column)
    case LineEnd => Page(page.lines + [page.row], NO_ROW, 0, 0)
  }

  /** What one has read after the pieces. */
  function PageAfter(page: Page, pieces: seq<Piece>): Page {
    if pieces == [] then page else Seen(PageAfter(page, pieces[..|pieces| - 1]), pieces[|pieces| - 1])
  }

  lemma PageAfterOne(page: Page, pieces: seq<Piece>, piece: Piece)
    ensures PageAfter(page, pieces + [piece]) == Seen(PageAfter(page, pieces), piece)
  {
    assert (pieces + [piece])[..|pieces|] == pieces;
  }

  lemma {:induction false} PageAfterBoth(page: Page, a: seq<Piece>, b: seq<Piece>)
    ensures PageAfter(page, a + b) == PageAfter(PageAfter(page, a), b)
  {
    if b == [] {
      assert a + b == a;
    } else {
      var front, last := b[..|b| - 1], b[|b| - 1];
      PageAfterBoth(page, a, front);
      PageAfterOne(page, a + front, last);
      PageAfterOne(PageAfter(page, a), front, last);
      assert front + [last] == b;
      assert a + b == a + front + [last];
    }
  }

  lemma {:induction false} BlanksMove(page: Page, pieces: seq<Piece>)
    requires Blanks(pieces)
    ensures PageAfter(page, pieces) == page.(column := After(page.column, pieces))
  {
    if pieces != [] {
      BlanksMove(page, pieces[..|pieces| - 1]);
    }
  }

  /** Earlier lines do not change how the next ones are read. */
  lemma {:induction false} EarlierLines(lines: seq<Row>, pieces: seq<Piece>)
    ensures var page := PageAfter(EMPTY, pieces);
      PageAfter(EMPTY.(lines := lines), pieces) == page.(lines := lines + page.lines)
  {
    if pieces == [] {
      assert lines + [] == lines;
    } else {
      EarlierLines(lines, pieces[..|pieces| - 1]);
      var page := PageAfter(EMPTY, pieces[..|pieces| - 1]);
      AddOne(lines, page.lines, page.row);
    }
  }

  lemma AfterNone(column: nat)
    ensures After(column, []) == column
  {
  }

  ghost predicate Split(pieces: seq<Piece>, at: nat, prefix: seq<char>, front: seq<Piece>, back: seq<Piece>) {
    pieces == front + [Prefix(prefix)] + back && Blanks(front) && Blanks(back) && After(0, front) == at
  }

  /** Blanks, the prefix in the given column, and blanks. */
  ghost predicate IsMargin(pieces: seq<Piece>, at: nat, prefix: seq<char>) {
    exists front, back :: Split(pieces, at, prefix, front, back)
  }

  lemma MarginSays(pieces: seq<Piece>, at: nat, prefix: seq<char>)
    requires IsMargin(pieces, at, prefix)
    ensures TextOf(pieces) == [] && PrefixesOf(pieces) == prefix
    ensures PageAfter(EMPTY, pieces) == Page([], Row(at, prefix, []), 0, After(0, pieces))
  {
    var front, back :| Split(pieces, at, prefix, front, back);
    BlanksSayNothing(front);
    BlanksSayNothing(back);
    PieceAdds(front, Prefix(prefix));
    PiecesAdd(front + [Prefix(prefix)], back);
    BlanksMove(EMPTY, front);
    PageAfterOne(EMPTY, front, Prefix(prefix));
    PageAfterBoth(EMPTY, front + [Prefix(prefix)], back);
    var page := PageAfter(EMPTY, front + [Prefix(prefix)]);
    BlanksMove(page, back);
    AfterOne(0, front, Prefix(prefix));
    AfterBoth(0, front + [Prefix(prefix)], back);
  }

  /** The engine's printing side: the column, and a writer that takes some more pieces and then fails. */
  class Printer {
    var outColumn: nat
    var ok: bool
    var out: seq<Piece>
    var room: nat

    constructor (room: nat)
      ensures ok && out == [] && this.room == room
    {
      this.room, ok, out, outColumn := room, true, [], 0;
    }

    /** bx_fmt_engine_writer_write and bx_fmt_engine_writer_putc. */
    method Write(piece: Piece) returns (written: bool)
      modifies this`out, this`ok, this`room
      ensures written ==> out == old(out) + [piece] && ok == old(ok)
      ensures !written ==> out == old(out) && !ok && room == 0
    {
      if room == 0 {
        ok := false;
        return false;
      }
      out := out + [piece];
      room := room - 1;
      return true;
    }

    /** bx_fmt_engine_put_space: up to the column wanted, with tabs where they help. */
    method PutSpace(space: int, tabs: bool) returns (written: bool, ghost pieces: seq<Piece>)
      requires 0 <= outColumn + space
      modifies this
      ensures written ==> out == old(out) + pieces && Blanks(pieces) && ok == old(ok)
      ensures written ==> outColumn == After(old(outColumn), pieces)
      ensures written ==> outColumn == if space < 0 then old(outColumn) else old(outColumn) + space
      ensures !written ==> !ok && room == 0
    {
      hide After;
      pieces := [];
      AfterNone(outColumn);
      assert out + [] == out;
      var spaceTarget := outColumn + space;
      if tabs {
        var tabTarget := spaceTarget / 8 * 8;
        if outColumn + 1 < tabTarget {
          while outColumn < tabTarget
            invariant outColumn <= tabTarget && tabTarget % 8 == 0
            invariant out == old(out) + pieces && Blanks(pieces) && ok == old(ok)
            invariant outColumn == After(old(outColumn), pieces)
          {
            AfterOne(old(outColumn), pieces, Blank('\t'));
            AddOne(old(out), pieces, Blank('\t'));
            written := Write(Blank('\t'));
            if !written {
              return;
            }
            pieces := pieces + [Blank('\t')];
            outColumn := (outColumn / 8 + 1) * 8;
          }
        }
      }
      while outColumn < spaceTarget
        invariant outColumn <= if space < 0 then old(outColumn) else spaceTarget
        invariant space < 0 ==> outColumn == old(outColumn)
        invariant out == old(out) + pieces && Blanks(pieces) && ok == old(ok)
        invariant outColumn == After(old(outColumn), pieces)
      {
        AfterOne(old(outColumn), pieces, Blank(' '));
        AddOne(old(out), pieces, Blank(' '));
        written := Write(Blank(' '));
        if !written {
          return;
        }
        pieces := pieces + [Blank(' ')];
        outColumn := outColumn + 1;
      }
      written := true;
    }

    /** bx_fmt_engine_put_word. */
    method PutWord(text: seq<char>)
      requires ok
      modifies this
      ensures ok ==> out == old(out) + [Text(text)]
      ensures outColumn == old(outColumn) + |text|
      ensures !ok ==> room == 0
    {
      var written := Write(Text(text));
      outColumn := outColumn + |text|;
    }

    /** The blanks and the prefix in front of a line. */
    method PutMargin(prefixIndent: nat, prefix: seq<char>, indent: nat, tabs: bool)
        returns (written: bool, ghost pieces: seq<Piece>)
      modifies this
      ensures written ==> ok == old(ok) && out == old(out) + pieces && IsMargin(pieces, prefixIndent, prefix)
      ensures written ==> outColumn == After(0, pieces)
      ensures written ==> outColumn == if indent < prefixIndent + |prefix| then prefixIndent + |prefix| else indent
      ensures !written ==> !ok && room == 0
    {
      hide After;
      outColumn := 0;
      pieces := [];
      ghost var front, back;
      written, front := PutSpace(prefixIndent, tabs);
      if !written {
        return;
      }
      AfterOne(0, front, Prefix(prefix));
      AddOne(old(out), front, Prefix(prefix));
      written := Write(Prefix(prefix));
      if !written {
        return;
      }
      outColumn := outColumn + |prefix|;
      written, back := PutSpace(indent - outColumn, tabs);
      pieces := front + [Prefix(prefix)] + back;
      AfterBoth(0, front + [Prefix(prefix)], back);
      if written {
        assert Split(pieces, prefixIndent, prefix, front, back);
        assert old(out) + (front + [Prefix(prefix)]) + back == old(out) + pieces;
      }
    }
  }
}
