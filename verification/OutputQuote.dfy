/** The printers that quote text for a shell. */
module OutputQuote {
  import Memory
  import opened Bits
  import opened CStrings
  import opened CTypes
  import opened ShellWords
  import opened Streams
  import opened Wrappers

  /** The growing output of the reusable style: data[..pos] is written, one byte is kept for the NUL. */
  class Buffer {
    const data: array<Byte>
    var pos: nat

    constructor (cap: nat)
      requires 0 < cap
      ensures fresh(data) && data.Length == cap && pos == 0
    {
      data := new Byte[cap];
      pos := 0;
    }

    ghost predicate Valid()
      reads this
    {
      pos < data.Length
    }

    function Contents(): (s: Text)
      requires Valid()
      reads this, data
      ensures |s| == pos
    {
      data[..pos]
    }

    /** bx_output_quote_append_text. */
    method AppendText(text: Text) returns (ok: bool)
      requires Valid()
      modifies this, data
      ensures Valid()
      ensures ok == (old(pos) + |text| < data.Length)
      ensures Contents() == if ok then old(Contents()) + text else old(Contents())
    {
      if |text| >= data.Length - pos {
        return false;
      }
      Memory.Copy(data, pos, text);
      pos := pos + |text|;
      return true;
    }

    /** bx_output_quote_append_char. */
    method AppendChar(ch: Byte) returns (ok: bool)
      requires Valid()
      modifies this, data
      ensures Valid()
      ensures ok == (old(pos) + 1 < data.Length)
      ensures Contents() == if ok then old(Contents()) + [ch] else old(Contents())
    {
      if pos + 1 >= data.Length {
        return false;
      }
      data[pos] := ch;
      pos := pos + 1;
      return true;
    }

    /** bx_output_quote_append_reusable_shell_dollar_escape. */
    method AppendDollarEscape(ch: Byte) returns (ok: bool)
      requires Valid()
      modifies this, data
      ensures Valid()
      ensures old(pos) + 4 < data.Length ==> ok
      ensures Contents() == if ok then old(Contents()) + DollarEscape(ch) else old(Contents())
    {
      if ch == '\U{7}' {
        ok := AppendText("\\a");
      } else if ch == '\U{8}' {
        ok := AppendText("\\b");
      } else if ch == '\t' {
        ok := AppendText("\\t");
      } else if ch == '\n' {
        ok := AppendText("\\n");
      } else if ch == '\U{B}' {
        ok := AppendText("\\v");
      } else if ch == '\U{C}' {
        ok := AppendText("\\f");
      } else if ch == '\r' {
        ok := AppendText("\\r");
      } else {
        ok := AppendText(OctalEscape(ch));
      }
    }
  }

  predicate AllPrint(text: Text) {
    forall i :: 0 <= i < |text| ==> IsPrint(text[i])
  }

  lemma PrintsOn(s: Text, t: Text)
    requires AllPrint(s) && AllPrint(t)
    ensures AllPrint(s + t)
  {
  }

  function Digit(n: int): (d: Byte)
    requires 0 <= n < 8
    ensures IsOctal(d) && d as int - '0' as int == n
  {
    ('0' as int + n) as char
  }

  /** What printf makes of "\\%03o". */
  function OctalEscape(ch: Byte): Text {
    ['\\', Digit(ch as int / 64), Digit(ch as int / 8 % 8), Digit(ch as int % 8)]
  }

  function DollarEscape(ch: Byte): (escape: Text)
    ensures AllPrint(escape)
  {
    if ch == '\U{7}' then "\\a"
    else if ch == '\U{8}' then "\\b"
    else if ch == '\t' then "\\t"
    else if ch == '\n' then "\\n"
    else if ch == '\U{B}' then "\\v"
    else if ch == '\U{C}' then "\\f"
    else if ch == '\r' then "\\r"
    else OctalEscape(ch)
  }

  // ------------------------------------------ the reusable style, piece by piece

  datatype ShellMode = Outside | Apostrophe | DollarQuote

  /** What a shell has read of the output so far: the word w, standing where the printer stands. */
  ghost predicate Shell(s: Text, mode: ShellMode, emitted: bool, w: Text) {
    if !emitted then s == [] && w == [] && mode == Outside
    else
      && 0 < |s| && s[0] == '\''
      && Run(s).word == w
      && Run(s).mode == (match mode case Outside => Unquoted case Apostrophe => Single case DollarQuote => DollarSingle)
  }

  /** The same for the command parser, which knows no dollar quotes. */
  ghost predicate Parser(s: Text, mode: ShellMode, emitted: bool, w: Text) {
    if !emitted then s == [] && w == [] && mode == Outside
    else
      && mode != DollarQuote
      && ReadAll(NOTHING, s)
      == Command([], Word(w, if mode == Outside then NoQuote else Quote.InSingle, false))
  }

  lemma OpenAndClose(s: Text, emitted: bool, w: Text)
    requires Shell(s, Outside, emitted, w)
    ensures Shell(s + "''", Outside, true, w)
    ensures Parser(s, Outside, emitted, w) ==> Parser(s + "''", Outside, true, w)
    ensures AllPrint(s) ==> AllPrint(s + "''")
  {
    hide Run, ReadAll;
    RunEmpty();
    RunSnoc2(s, '\'', '\'');
    ReadSnoc2(NOTHING, s, '\'', '\'');
  }

  lemma OpenDollar(s: Text, w: Text)
    requires Shell(s, Outside, true, w)
    ensures Shell(s + "$'", DollarQuote, true, w)
    ensures AllPrint(s) ==> AllPrint(s + "$'")
  {
    hide Run, ReadAll;
    RunSnoc2(s, '$', '\'');
  }

  lemma OpenSingle(s: Text, emitted: bool, w: Text)
    requires Shell(s, Outside, emitted, w)
    ensures Shell(s + ['\''], Apostrophe, true, w)
    ensures Parser(s, Outside, emitted, w) ==> Parser(s + ['\''], Apostrophe, true, w)
    ensures AllPrint(s) ==> AllPrint(s + ['\''])
  {
    hide Run, ReadAll;
    RunEmpty();
    RunSnoc(s, '\'');
    ReadSnoc(NOTHING, s, '\'');
  }

  lemma CloseQuote(s: Text, mode: ShellMode, w: Text)
    requires Shell(s, mode, true, w) && mode != Outside
    ensures Shell(s + ['\''], Outside, true, w)
    ensures Parser(s, mode, true, w) ==> Parser(s + ['\''], Outside, true, w)
    ensures AllPrint(s) ==> AllPrint(s + ['\''])
  {
    hide Run, ReadAll;
    RunSnoc(s, '\'');
    ReadSnoc(NOTHING, s, '\'');
  }

  lemma EscapedQuote(s: Text, w: Text)
    requires Shell(s, Outside, true, w)
    ensures Shell(s + "\\'", Outside, true, w + ['\''])
    ensures Parser(s, Outside, true, w) ==> Parser(s + "\\'", Outside, true, w + ['\''])
    ensures AllPrint(s) ==> AllPrint(s + "\\'")
  {
    hide Run, ReadAll;
    RunSnoc2(s, '\\', '\'');
    ReadSnoc2(NOTHING, s, '\\', '\'');
  }

  lemma QuotedChar(s: Text, w: Text, ch: Byte)
    requires Shell(s, Apostrophe, true, w) && ch != '\''
    ensures Shell(s + [ch], Apostrophe, true, w + [ch])
    ensures Parser(s, Apostrophe, true, w) ==> Parser(s + [ch], Apostrophe, true, w + [ch])
    ensures AllPrint(s) && IsPrint(ch) ==> AllPrint(s + [ch])
  {
    hide Run, ReadAll;
    RunSnoc(s, ch);
    ReadSnoc(NOTHING, s, ch);
  }

  lemma OctalValue(ch: Byte)
    ensures 8 * (8 * (ch as int / 64) + ch as int / 8 % 8) + ch as int % 8 == ch as int
  {
  }

  lemma OctalReadsBack(s: Text, w: Text, ch: Byte)
    requires Run(s) == Machine(DollarSingle, w)
    ensures Run(s + OctalEscape(ch)) == Machine(DollarSingle, w + [ch])
  {
    hide Run, ReadAll;
    var e := OctalEscape(ch);
    RunSnoc2(s, e[0], e[1]);
    RunSnoc2(s + [e[0], e[1]], e[2], e[3]);
    assert s + [e[0], e[1]] + [e[2], e[3]] == s + e;
    OctalValue(ch);
  }

  lemma EscapedChar(s: Text, w: Text, ch: Byte)
    requires Shell(s, DollarQuote, true, w)
    ensures Shell(s + DollarEscape(ch), DollarQuote, true, w + [ch])
    ensures AllPrint(s) ==> AllPrint(s + DollarEscape(ch))
  {
    hide Run, ReadAll;
    var e := DollarEscape(ch);
    if AllPrint(s) {
      PrintsOn(s, e);
    }
    if |e| == 2 {
      RunSnoc2(s, e[0], e[1]);
      assert s + [e[0], e[1]] == s + e;
    } else {
      OctalReadsBack(s, w, ch);
    }
  }

  // ------------------------------------------------ text that needs little quoting

  predicate SafeChar(ch: Byte) {
    IsAlnum(ch) || ch == '%' || ch == '+' || ch == ',' || ch == '-'
    || ch == '.' || ch == '/' || ch == ':' || ch == '@' || ch == ']' || ch == '_'
  }

  predicate SafeAt(text: Text, i: nat)
    requires i < |text|
  {
    ((text[i] == '~' || text[i] == '#') && i > 0)
    || ((text[i] == '{' || text[i] == '}') && |text| > 1)
    || SafeChar(text[i])
  }

  lemma SafeStep(text: Text, i: nat)
    requires i < |text| && SafeAt(text, i)
    ensures Step(Machine(if i == 0 then Begin else Unquoted, text[..i]), text[i])
         == Machine(Unquoted, text[..i] + [text[i]])
    ensures Read(if i == 0 then NOTHING else Command([], Word(text[..i], NoQuote, false)), text[i])
         == Command([], Word(text[..i] + [text[i]], NoQuote, false))
  {
  }

  lemma {:induction false} PlainReadsBack(text: Text, n: nat)
    requires n <= |text|
    requires forall i :: 0 <= i < n ==> SafeAt(text, i)
    ensures Run(text[..n]) == Machine(if n == 0 then Begin else Unquoted, text[..n])
    ensures ReadAll(NOTHING, text[..n])
         == if n == 0 then NOTHING else Command([], Word(text[..n], NoQuote, false))
  {
    hide Run, ReadAll, Step, Read, SafeAt;
    if n == 0 {
      RunEmpty();
    } else {
      PlainReadsBack(text, n - 1);
      assert text[..n] == text[..n - 1] + [text[n - 1]];
      assert SafeAt(text, n - 1);
      SafeStep(text, n - 1);
      RunSnoc(text[..n - 1], text[n - 1]);
      ReadSnoc(NOTHING, text[..n - 1], text[n - 1]);
    }
  }

  predicate DoubleQuoteAt(text: Text, i: nat)
    requires i < |text|
  {
    IsPrint(text[i]) &&
    ((i == 0 && (text[i] == '#' || text[i] == '~')) || text[i] == ' ' || text[i] == '\'' || SafeChar(text[i]))
  }

  predicate TakesBackslash(ch: Byte) {
    ch == '"' || ch == '\\' || ch == '$' || ch == '`'
  }

  lemma InDoubleStep(w: Text, ch: Byte)
    requires !TakesBackslash(ch)
    ensures Step(Machine(Double, w), ch) == Machine(Double, w + [ch])
    ensures Read(Command([], Word(w, InDouble, false)), ch) == Command([], Word(w + [ch], InDouble, false))
  {
  }

  lemma BackslashStep(w: Text, ch: Byte)
    requires TakesBackslash(ch)
    ensures Step(Step(Machine(Double, w), '\\'), ch) == Machine(Double, w + [ch])
    ensures Read(Read(Command([], Word(w, InDouble, false)), '\\'), ch)
         == Command([], Word(w + [ch], InDouble, false))
  {
  }

  lemma OpenDouble()
    ensures Run("\"") == Machine(Double, [])
    ensures ReadAll(NOTHING, "\"") == Command([], Word([], InDouble, false))
  {
    RunSnoc([], '"');
    ReadSnoc(NOTHING, [], '"');
    assert [] + ['"'] == "\"";
  }

  lemma {:induction false} DoubleQuotedReadsBack(text: Text, n: nat)
    requires n <= |text|
    requires forall i :: 0 <= i < n ==> DoubleQuoteAt(text, i)
    ensures Run("\"" + text[..n]) == Machine(Double, text[..n])
    ensures ReadAll(NOTHING, "\"" + text[..n]) == Command([], Word(text[..n], InDouble, false))
  {
    hide Step, Read;
    if n == 0 {
      OpenDouble();
      assert "\"" + text[..0] == "\"";
    } else {
      DoubleQuotedReadsBack(text, n - 1);
      assert text[..n] == text[..n - 1] + [text[n - 1]];
      assert "\"" + text[..n] == "\"" + text[..n - 1] + [text[n - 1]];
      assert DoubleQuoteAt(text, n - 1);
      InDoubleStep(text[..n - 1], text[n - 1]);
      RunSnoc("\"" + text[..n - 1], text[n - 1]);
      ReadSnoc(NOTHING, "\"" + text[..n - 1], text[n - 1]);
    }
  }

  /** q is printable; a shell takes it for the word text, and so does the command parser if text prints. */
  ghost predicate ReadsBack(q: Text, text: Text) {
    Unquote(q) == Some(text) && AllPrint(q) && (AllPrint(text) ==> ReadsAs(q, text))
  }

  lemma SafePrints(text: Text)
    requires forall i :: 0 <= i < |text| ==> SafeAt(text, i)
    ensures AllPrint(text)
  {
    forall i | 0 <= i < |text| ensures IsPrint(text[i]) {
      assert SafeAt(text, i);
    }
  }

  lemma DoubleQuotedPrints(text: Text)
    requires forall i :: 0 <= i < |text| ==> DoubleQuoteAt(text, i)
    ensures AllPrint("\"" + text + "\"")
  {
    forall i | 0 <= i < |text| ensures IsPrint(text[i]) {
      assert DoubleQuoteAt(text, i);
    }
    PrintsOn("\"", text);
    PrintsOn("\"" + text, "\"");
  }

  lemma SafeIsItself(text: Text)
    requires text != [] && forall i :: 0 <= i < |text| ==> SafeAt(text, i)
    ensures ReadsBack(text, text)
  {
    SafePrints(text);
    hide AllPrint;
    PlainReadsBack(text, |text|);
    assert text[..|text|] == text;
    if |text| == 1 {
      assert SafeAt(text, 0);
    }
  }

  lemma DoubleQuotedIsText(text: Text)
    requires forall i :: 0 <= i < |text| ==> DoubleQuoteAt(text, i)
    ensures ReadsBack("\"" + text + "\"", text)
  {
    DoubleQuotedPrints(text);
    hide AllPrint;
    DoubleQuotedReadsBack(text, |text|);
    assert text[..|text|] == text;
    RunSnoc("\"" + text, '"');
    ReadSnoc(NOTHING, "\"" + text, '"');
    assert "\"" + text + "\"" == "\"" + text + ['"'];
    assert ("\"" + text + "\"")[0] == '"';
  }

  lemma EmptyReadsBack()
    ensures ReadsBack("''", [])
  {
    OpenAndClose([], false, []);
    assert [] + "''" == "''";
  }

  predicate IsSafe(text: Text) {
    forall i :: 0 <= i < |text| ==> SafeAt(text, i)
  }

  predicate FitsDoubleQuotes(text: Text) {
    (forall i :: 0 <= i < |text| ==> DoubleQuoteAt(text, i)) && '\'' in text
  }

  // ---------------------------------------------------------------- the mixed form

  /** The quotes a character is put in: a single quote stands in none, what does not print in dollar quotes. */
  function QuotesOf(ch: Byte): ShellMode {
    if !IsPrint(ch) then DollarQuote else if ch == '\'' then Outside else Apostrophe
  }

  function ModeAt(text: Text, i: nat): ShellMode
    requires i <= |text|
  {
    if i == 0 then Outside else QuotesOf(text[i - 1])
  }

  /** Where a run of characters in the same quotes ends, the quote that ends it. */
  function Ending(text: Text, i: nat): Text
    requires i <= |text|
  {
    if ModeAt(text, i) != Outside && (i == |text| || QuotesOf(text[i]) != ModeAt(text, i)) then "'" else []
  }

  /** Where a run begins, the quote that begins it; the output itself always begins with a single quote. */
  function Beginning(text: Text, i: nat): Text
    requires i < |text|
  {
    if i > 0 && QuotesOf(text[i]) == ModeAt(text, i) then []
    else
      match QuotesOf(text[i])
      case Apostrophe => "'"
      case DollarQuote => if i == 0 then "''$'" else "$'"
      case Outside => if i == 0 then "''" else []
  }

  /** The character itself; behind an escaped quote the output goes on with a quote. */
  function Mark(text: Text, i: nat): Text
    requires i < |text|
  {
    match QuotesOf(text[i])
    case Apostrophe => [text[i]]
    case DollarQuote => DollarEscape(text[i])
    case Outside => if i + 1 < |text| && QuotesOf(text[i + 1]) == Apostrophe then "\\'" else "\\'''"
  }

  function Shown(text: Text, i: nat): Text
    requires i <= |text|
  {
    if i == 0 then []
    else Shown(text, i - 1) + Ending(text, i - 1) + Beginning(text, i - 1) + Mark(text, i - 1)
  }

  function Mixed(text: Text): Text {
    Shown(text, |text|) + Ending(text, |text|)
  }

  /** The quotes in force once a run that ends here is closed. */
  function ModeBetween(text: Text, i: nat): ShellMode
    requires i < |text|
  {
    if Ending(text, i) == [] then ModeAt(text, i) else Outside
  }

  lemma EndingReadsBack(s: Text, text: Text, i: nat)
    requires i < |text| && AllPrint(s) && Shell(s, ModeAt(text, i), i > 0, text[..i])
    ensures var s' := s + Ending(text, i);
      && AllPrint(s') && Shell(s', ModeBetween(text, i), i > 0, text[..i])
      && (Parser(s, ModeAt(text, i), i > 0, text[..i]) ==> Parser(s', ModeBetween(text, i), i > 0, text[..i]))
  {
    hide Shell, Parser;
    if Ending(text, i) == [] {
      assert s + [] == s;
    } else {
      CloseQuote(s, ModeAt(text, i), text[..i]);
    }
  }

  lemma BeginningReadsBack(s: Text, text: Text, i: nat)
    requires i < |text| && AllPrint(s) && Shell(s, ModeBetween(text, i), i > 0, text[..i])
    ensures var s' := s + Beginning(text, i);
      && AllPrint(s') && Shell(s', QuotesOf(text[i]), true, text[..i])
      && (IsPrint(text[i]) && Parser(s, ModeBetween(text, i), i > 0, text[..i]) ==>
            Parser(s', QuotesOf(text[i]), true, text[..i]))
  {
    hide Shell, Parser, AllPrint;
    if Beginning(text, i) == [] {
      assert s + [] == s;
    } else if QuotesOf(text[i]) == Apostrophe {
      OpenSingle(s, i > 0, text[..i]);
    } else {
      if i == 0 {
        OpenAndClose(s, false, text[..i]);
      }
      if QuotesOf(text[i]) == DollarQuote {
        OpenDollar(if i == 0 then s + "''" else s, text[..i]);
        assert s + "''" + "$'" == s + "''$'";
      }
    }
  }

  lemma MarkReadsBack(s: Text, text: Text, i: nat)
    requires i < |text| && AllPrint(s) && Shell(s, QuotesOf(text[i]), true, text[..i])
    ensures var s' := s + Mark(text, i);
      && AllPrint(s') && Shell(s', QuotesOf(text[i]), true, text[..i + 1])
      && (Parser(s, QuotesOf(text[i]), true, text[..i]) ==> Parser(s', QuotesOf(text[i]), true, text[..i + 1]))
  {
    assert IsPrint(text[i]) || QuotesOf(text[i]) == DollarQuote;
    assert Parser(s, QuotesOf(text[i]), true, text[..i]) ==> QuotesOf(text[i]) != DollarQuote;
    hide Shell, Parser, AllPrint;
    assert text[..i + 1] == text[..i] + [text[i]];
    match QuotesOf(text[i])
    case Apostrophe =>
      QuotedChar(s, text[..i], text[i]);
    case DollarQuote =>
      EscapedChar(s, text[..i], text[i]);
    case Outside =>
      EscapedQuote(s, text[..i]);
      OpenAndClose(s + "\\'", true, text[..i + 1]);
      assert s + "\\'" + "''" == s + "\\'''";
  }

  lemma PieceReadsBack(s: Text, text: Text, i: nat)
    requires i < |text| && AllPrint(s) && Shell(s, ModeAt(text, i), i > 0, text[..i])
    requires AllPrint(text[..i]) ==> Parser(s, ModeAt(text, i), i > 0, text[..i])
    ensures var s' := s + Ending(text, i) + Beginning(text, i) + Mark(text, i);
      && AllPrint(s') && Shell(s', ModeAt(text, i + 1), true, text[..i + 1])
      && (AllPrint(text[..i + 1]) ==> Parser(s', ModeAt(text, i + 1), true, text[..i + 1]))
  {
    assert AllPrint(text[..i + 1]) ==> AllPrint(text[..i]) && IsPrint(text[i]) by {
      assert text[..i + 1] == text[..i] + [text[i]];
    }
    hide Shell, Parser, AllPrint, Beginning, Mark, Ending, QuotesOf;
    EndingReadsBack(s, text, i);
    BeginningReadsBack(s + Ending(text, i), text, i);
    MarkReadsBack(s + Ending(text, i) + Beginning(text, i), text, i);
  }

  lemma {:induction false} ShownReadsBack(text: Text, i: nat)
    requires i <= |text|
    ensures AllPrint(Shown(text, i)) && Shell(Shown(text, i), ModeAt(text, i), i > 0, text[..i])
    ensures AllPrint(text[..i]) ==> Parser(Shown(text, i), ModeAt(text, i), i > 0, text[..i])
  {
    if i > 0 {
      hide Shell, Parser, AllPrint, Beginning, Mark, Ending, QuotesOf;
      ShownReadsBack(text, i - 1);
      PieceReadsBack(Shown(text, i - 1), text, i - 1);
    }
  }

  lemma MixedReadsBack(text: Text)
    requires text != []
    ensures ReadsBack(Mixed(text), text)
  {
    ShownReadsBack(text, |text|);
    assert text[..|text|] == text;
    var s := Shown(text, |text|);
    if ModeAt(text, |text|) == Outside {
      assert s + [] == s;
    } else {
      CloseQuote(s, ModeAt(text, |text|), text);
    }
    hide Run, ReadAll, Shown, AllPrint;
  }

  // -------------------------------------------------------------- the reusable style

  /** What the reusable style prints. */
  function Reusable(text: Text): Text {
    if text == [] then "''"
    else if IsSafe(text) then text
    else if FitsDoubleQuotes(text) then "\"" + text + "\""
    else Mixed(text)
  }

  /** Whether the sizes it computes fit their type. */
  predicate SizesFit(text: Text) {
    || text == [] || IsSafe(text)
    || (if FitsDoubleQuotes(text) then |text| + 3 <= SIZE_MAX else 12 * |text| + 8 <= SIZE_MAX)
  }

  /**
   * Whatever the text, the output prints and a shell reads it as the text; the command parser
   * does so too if the text prints.
   */
  lemma ReusableReadsBack(text: Text)
    ensures ReadsBack(Reusable(text), text)
  {
    hide ReadsBack, Mixed;
    if text == [] {
      EmptyReadsBack();
    } else if IsSafe(text) {
      SafeIsItself(text);
    } else if FitsDoubleQuotes(text) {
      DoubleQuotedIsText(text);
    } else {
      MixedReadsBack(text);
    }
  }

  // ------------------------------------------------------- the reusable style, as coded

  method SafeString(text: Text) returns (safe: bool)
    ensures safe == (text != [] && IsSafe(text))
  {
    if text == [] {
      return false;
    }
    var index := 0;
    while index < |text|
      invariant 0 <= index <= |text|
      invariant forall i :: 0 <= i < index ==> SafeAt(text, i)
    {
      var ch := text[index];
      if (ch == '~' || ch == '#') && index > 0 {
        index := index + 1;
        continue;
      }
      if (ch == '{' || ch == '}') && |text| > 1 {
        index := index + 1;
        continue;
      }
      if !SafeChar(ch) {
        assert !SafeAt(text, index);
        return false;
      }
      index := index + 1;
    }
    return true;
  }

  method CanUseDoubleQuotes(text: Text) returns (can: bool)
    ensures can == FitsDoubleQuotes(text)
  {
    var hasSingleQuote := false;
    var index := 0;
    while index < |text|
      invariant 0 <= index <= |text|
      invariant hasSingleQuote == ('\'' in text[..index])
      invariant forall i :: 0 <= i < index ==> DoubleQuoteAt(text, i)
    {
      var ch := text[index];
      assert text[..index + 1] == text[..index] + [ch];
      if !IsPrint(ch) {
        assert !DoubleQuoteAt(text, index);
        return false;
      }
      if ch == '\'' {
        hasSingleQuote := true;
      }
      if (ch == '#' || ch == '~') && index == 0 {
        index := index + 1;
        continue;
      }
      if !(ch == ' ' || ch == '\'' || SafeChar(ch)) {
        assert !DoubleQuoteAt(text, index);
        return false;
      }
      index := index + 1;
    }
    assert text[..|text|] == text;
    return hasSingleQuote;
  }

  /** bx_output_quote_capacity_checked: the product and sum, unless they pass SIZE_MAX. */
  method Capacity(len: nat, multiplier: nat, extra: nat) returns (capacity: Option<nat>)
    requires extra <= SIZE_MAX
    ensures capacity == if len * multiplier + extra <= SIZE_MAX then Some(len * multiplier + extra) else None
  {
    if multiplier != 0 && len > (SIZE_MAX - extra) / multiplier {
      DivisionBound(SIZE_MAX - extra, multiplier, len);
      return None;
    }
    if multiplier != 0 {
      DivisionBound(SIZE_MAX - extra, multiplier, len);
    }
    return Some(len * multiplier + extra);
  }

  lemma DivisionBound(room: nat, multiplier: nat, len: nat)
    requires 0 < multiplier
    ensures len > room / multiplier <==> len * multiplier > room
  {
    var q, r := room / multiplier, room % multiplier;
    if len > q {
      Products(q + 1, len, multiplier);
    } else {
      Products(len, q, multiplier);
    }
    Expand(q, multiplier);
  }

  lemma Products(a: nat, b: nat, m: nat)
    requires a <= b
    ensures a * m <= b * m
  {
  }

  lemma Expand(q: nat, m: nat)
    ensures (q + 1) * m == q * m + m
  {
  }

  /** bx_output_quote_shell_reusable_dup_impl: None exactly for an overflow; no append runs out of room. */
  method ShellReusable(text: Text) returns (out: Option<Text>)
    ensures out == if SizesFit(text) then Some(Reusable(text)) else None
  {
    hide Mixed;
    if text == [] {
      return Some("''");
    }
    var safe := SafeString(text);
    if safe {
      return Some(text);
    }
    var double := CanUseDoubleQuotes(text);
    if double {
      out := PrintDoubleQuoted(text);
      return;
    }
    out := PrintPieces(text);
  }

  method PrintDoubleQuoted(text: Text) returns (out: Option<Text>)
    ensures out == if |text| + 3 <= SIZE_MAX then Some("\"" + text + "\"") else None
  {
    var cap := Capacity(|text|, 1, 3);
    if cap.None? {
      return None;
    }
    var buffer := new Buffer(cap.value);
    var ok := buffer.AppendChar('"');
    if ok {
      ok := buffer.AppendText(text);
    }
    if ok {
      ok := buffer.AppendChar('"');
    }
    if !ok {
      return None;
    }
    assert buffer.Contents() == "\"" + text + "\"";
    return Some(buffer.Contents());
  }

  /** Into dollar quotes, unless they are open already. */
  method EnterDollarQuotes(text: Text, i: nat, buffer: Buffer, mode: ShellMode, emitted: bool)
    requires i < |text| && buffer.Valid() && buffer.pos + 5 < buffer.data.Length
    requires !IsPrint(text[i]) && mode == ModeAt(text, i) && emitted == (i > 0)
    modifies buffer, buffer.data
    ensures buffer.Valid() && buffer.Contents() == old(buffer.Contents()) + (Ending(text, i) + Beginning(text, i))
  {
    var ok;
    if mode == Apostrophe {
      ok := buffer.AppendChar('\'');
    }
    if mode != DollarQuote {
      if !emitted {
        ok := buffer.AppendText("''");
      }
      ok := buffer.AppendText("$'");
    }
  }

  /** A character that does not print, as an escape inside dollar quotes. */
  method PrintEscaped(text: Text, i: nat, buffer: Buffer, mode: ShellMode, emitted: bool)
      returns (ok: bool, mode': ShellMode)
    requires i < |text| && buffer.Valid() && buffer.pos + 9 < buffer.data.Length
    requires !IsPrint(text[i]) && mode == ModeAt(text, i) && emitted == (i > 0)
    modifies buffer, buffer.data
    ensures ok && buffer.Valid() && mode' == DollarQuote
    ensures buffer.Contents() == old(buffer.Contents()) + Ending(text, i) + Beginning(text, i) + Mark(text, i)
  {
    PieceLength(text, i);
    hide DollarEscape, Ending, Beginning, ModeAt;
    EnterDollarQuotes(text, i, buffer, mode, emitted);
    ok := buffer.AppendDollarEscape(text[i]);
    mode' := DollarQuote;
  }

  /** A single quote is escaped outside all quotes. */
  method PrintQuote(text: Text, i: nat, buffer: Buffer, mode: ShellMode, emitted: bool) returns (ok: bool)
    requires i < |text| && buffer.Valid() && buffer.pos + 8 < buffer.data.Length
    requires text[i] == '\'' && mode != DollarQuote && (mode == Apostrophe ==> i > 0) && emitted == (i > 0)
    modifies buffer, buffer.data
    ensures ok && buffer.Valid()
    ensures
      buffer.Contents() ==
        old(buffer.Contents()) + (if mode == Apostrophe then "'" else []) + Beginning(text, i) + Mark(text, i)
  {
    if mode == Apostrophe {
      ok := buffer.AppendChar('\'');
    }
    if !emitted {
      ok := buffer.AppendText("''");
    }
    ok := buffer.AppendText("\\'");
    var nextIsPrintableNonQuote := i + 1 < |text| && text[i + 1] != '\'' && IsPrint(text[i + 1]);
    if !nextIsPrintableNonQuote {
      ok := buffer.AppendText("''");
    }
  }

  /** A printing character; all but the single quote stand in single quotes. */
  method PrintPrintable(text: Text, i: nat, buffer: Buffer, mode: ShellMode, emitted: bool)
      returns (ok: bool, mode': ShellMode)
    requires i < |text| && buffer.Valid() && buffer.pos + 9 < buffer.data.Length
    requires IsPrint(text[i]) && mode == ModeAt(text, i) && emitted == (i > 0)
    modifies buffer, buffer.data
    ensures ok && buffer.Valid() && mode' == QuotesOf(text[i])
    ensures buffer.Contents() == old(buffer.Contents()) + Ending(text, i) + Beginning(text, i) + Mark(text, i)
  {
    mode' := mode;
    if mode' == DollarQuote {
      ok := buffer.AppendChar('\'');
      mode' := Outside;
    }
    if text[i] == '\'' {
      ok := PrintQuote(text, i, buffer, mode', emitted);
      mode' := Outside;
      return;
    }
    if mode' != Apostrophe {
      ok := buffer.AppendChar('\'');
      mode' := Apostrophe;
    }
    ok := buffer.AppendChar(text[i]);
  }

  /** The mixed form, one character at a time with the quotes that come before and after it. */
  method PrintPieces(text: Text) returns (out: Option<Text>)
    requires text != []
    ensures out == if 12 * |text| + 8 <= SIZE_MAX then Some(Mixed(text)) else None
  {
    hide Ending, Beginning, Mark;
    var cap := Capacity(|text|, 12, 8);
    if cap.None? {
      return None;
    }
    var buffer := new Buffer(cap.value);
    var mode, emitted, ok := Outside, false, true;
    for i := 0 to |text|
      invariant buffer.Valid() && buffer.pos <= 9 * i && buffer.Contents() == Shown(text, i)
      invariant emitted == (i > 0) && mode == ModeAt(text, i)
    {
      PieceLength(text, i);
      if !IsPrint(text[i]) {
        ok, mode := PrintEscaped(text, i, buffer, mode, emitted);
      } else {
        ok, mode := PrintPrintable(text, i, buffer, mode, emitted);
      }
      emitted := true;
    }
    EndingAtEnd(text);
    if mode != Outside {
      ok := buffer.AppendChar('\'');
      if !ok {
        assert false;
      }
    }
    assert Shown(text, |text|) + [] == Shown(text, |text|);
    return Some(buffer.Contents());
  }

  lemma PieceLength(text: Text, i: nat)
    requires i < |text|
    ensures |Ending(text, i)| + |Beginning(text, i)| <= 5 && |Mark(text, i)| <= 4
  {
  }

  lemma EndingAtEnd(text: Text)
    ensures Ending(text, |text|) == if ModeAt(text, |text|) == Outside then [] else "'"
  {
  }

  // ----------------------------------------------------------- the other shell styles

  /** bx_output_quote_shell_char_is_safe. */
  predicate PlainChar(ch: Byte) {
    IsAlnum(ch) || ch == '-' || ch == '_' || ch == '.' || ch == '/' || ch == '~'
  }

  /** Inside double quotes four characters take a backslash. */
  function Backslashed(text: Text): Text {
    if text == [] then []
    else
      var ch := text[|text| - 1];
      Backslashed(text[..|text| - 1]) + if TakesBackslash(ch) then ['\\', ch] else [ch]
  }

  lemma {:induction false} BackslashedReadsBack(text: Text)
    ensures Run("\"" + Backslashed(text)) == Machine(Double, text)
    ensures ReadAll(NOTHING, "\"" + Backslashed(text)) == Command([], Word(text, InDouble, false))
  {
    hide Step, Read;
    if text == [] {
      OpenDouble();
      assert "\"" + Backslashed(text) == "\"";
    } else {
      var front, ch := text[..|text| - 1], text[|text| - 1];
      BackslashedReadsBack(front);
      hide Run, ReadAll;
      var s := "\"" + Backslashed(front);
      assert text == front + [ch];
      if TakesBackslash(ch) {
        BackslashStep(front, ch);
        RunSnoc2(s, '\\', ch);
        ReadSnoc2(NOTHING, s, '\\', ch);
        assert s + ['\\', ch] == "\"" + Backslashed(text);
      } else {
        InDoubleStep(front, ch);
        RunSnoc(s, ch);
        ReadSnoc(NOTHING, s, ch);
        assert s + [ch] == "\"" + Backslashed(text);
      }
    }
  }

  lemma {:induction false} InSingleReadsBack(text: Text)
    requires '\'' !in text
    ensures Run("'" + text) == Machine(Single, text)
    ensures ReadAll(NOTHING, "'" + text) == Command([], Word(text, Quote.InSingle, false))
  {
    if text == [] {
      RunSnoc([], '\'');
      ReadSnoc(NOTHING, [], '\'');
      assert [] + ['\''] == "'" + text;
    } else {
      var front, ch := text[..|text| - 1], text[|text| - 1];
      InSingleReadsBack(front);
      assert text == front + [ch];
      RunSnoc("'" + front, ch);
      ReadSnoc(NOTHING, "'" + front, ch);
      assert "'" + front + [ch] == "'" + text;
    }
  }

  /** Both readers take q for text, whatever its characters. */
  ghost predicate AlwaysReadsBack(q: Text, text: Text) {
    Unquote(q) == Some(text) && ReadsAs(q, text)
  }

  lemma DoubleQuotesReadBack(text: Text)
    ensures AlwaysReadsBack("\"" + Backslashed(text) + "\"", text)
  {
    BackslashedReadsBack(text);
    var s := "\"" + Backslashed(text);
    RunSnoc(s, '"');
    ReadSnoc(NOTHING, s, '"');
    assert (s + ['"'])[0] == '"';
  }

  lemma SingleQuotesReadBack(text: Text)
    requires '\'' !in text
    ensures AlwaysReadsBack("'" + text + "'", text)
  {
    InSingleReadsBack(text);
    var s := "'" + text;
    RunSnoc(s, '\'');
    ReadSnoc(NOTHING, s, '\'');
    assert (s + ['\''])[0] == '\'';
  }

  predicate NeedsNoQuotes(text: Text) {
    forall i :: 0 <= i < |text| ==> PlainChar(text[i])
  }

  /** The SHELL style, and with always the SHELL_ALWAYS style. */
  function ShellQuoted(text: Text, always: bool): Text {
    if !always && NeedsNoQuotes(text) then text
    else if '\'' !in text then "'" + text + "'"
    else "\"" + Backslashed(text) + "\""
  }

  /** SHELL_ALWAYS output is read back as the text by a shell and by the command parser. */
  lemma ShellAlwaysReadsBack(text: Text)
    ensures AlwaysReadsBack(ShellQuoted(text, true), text)
  {
    if '\'' !in text {
      SingleQuotesReadBack(text);
    } else {
      DoubleQuotesReadBack(text);
    }
  }

  lemma PlainStep(w: Text, ch: Byte, first: bool)
    requires PlainChar(ch)
    ensures first && ch == '~' ==> Step(Machine(Begin, w), ch).mode == Rejected
    ensures first && ch != '~' ==> Step(Machine(Begin, w), ch) == Machine(Unquoted, w + [ch])
    ensures !first ==> Step(Machine(Unquoted, w), ch) == Machine(Unquoted, w + [ch])
    ensures Step(Machine(Rejected, w), ch).mode == Rejected
  {
  }

  lemma {:induction false} PlainRun(text: Text)
    requires NeedsNoQuotes(text) && text != []
    ensures text[0] == '~' ==> Run(text).mode == Rejected
    ensures text[0] != '~' ==> Run(text) == Machine(Unquoted, text)
  {
    hide Step, PlainChar;
    var front, ch := text[..|text| - 1], text[|text| - 1];
    assert text == front + [ch];
    if front == [] {
      PlainStep([], ch, true);
    } else {
      PlainRun(front);
      PlainStep(Run(front).word, ch, false);
    }
  }

  /** The SHELL style leaves a plain text alone, so an empty one and a leading tilde are lost on the shell. */
  lemma ShellStyleReadsBackWhen(text: Text)
    ensures Unquote(ShellQuoted(text, false)) == Some(text)
       <==> !(NeedsNoQuotes(text) && (text == [] || text[0] == '~'))
  {
    hide Step, Backslashed;
    if !NeedsNoQuotes(text) {
      ShellAlwaysReadsBack(text);
    } else if text != [] {
      PlainRun(text);
      assert text != "{" && text != "}" by {
        assert PlainChar(text[0]);
      }
    }
  }

  /** bx_output_quote_append_shell_single_quoted_segment: memcpy between two quotes. */
  method AppendSingleQuoted(out: array<Byte>, outPos: nat, text: Text) returns (pos: nat)
    requires outPos + |text| + 2 < out.Length
    modifies out
    ensures pos == outPos + |text| + 2
    ensures out[..pos] == old(out[..outPos]) + ("'" + text + "'")
  {
    pos := outPos;
    out[pos] := '\'';
    pos := pos + 1;
    Memory.Copy(out, pos, text);
    pos := pos + |text|;
    out[pos] := '\'';
    pos := pos + 1;
  }

  lemma BackslashedAtMostDoubles(text: Text)
    ensures |Backslashed(text)| <= 2 * |text|
  {
  }

  lemma BackslashedSnoc(text: Text, i: nat)
    requires i < |text|
    ensures Backslashed(text[..i + 1])
         == Backslashed(text[..i]) + if TakesBackslash(text[i]) then ['\\', text[i]] else [text[i]]
  {
    assert text[..i + 1][..i] == text[..i];
  }

  /** bx_output_quote_append_shell_double_quoted_segment. */
  method AppendDoubleQuoted(out: array<Byte>, outPos: nat, text: Text) returns (pos: nat)
    requires outPos + 2 * |text| + 2 < out.Length
    modifies out
    ensures outPos + 2 <= pos <= outPos + 2 * |text| + 2
    ensures out[..pos] == old(out[..outPos]) + ("\"" + Backslashed(text) + "\"")
  {
    hide Backslashed;
    pos := outPos;
    out[pos] := '"';
    pos := pos + 1;
    ghost var head := old(out[..outPos]) + "\"";
    assert Backslashed([]) == [] by { BackslashedAtMostDoubles([]); }
    for i := 0 to |text|
      invariant outPos < pos <= outPos + 1 + 2 * i
      invariant out[..pos] == head + Backslashed(text[..i])
    {
      var ch := text[i];
      BackslashedSnoc(text, i);
      if ch == '"' || ch == '\\' || ch == '$' || ch == '`' {
        out[pos] := '\\';
        pos := pos + 1;
      }
      out[pos] := ch;
      pos := pos + 1;
    }
    assert text[..|text|] == text;
    out[pos] := '"';
    pos := pos + 1;
  }

  /** bx_output_quote_append_shell_quoted_segment. */
  method AppendQuotedSegment(out: array<Byte>, outPos: nat, text: Text, always: bool) returns (pos: nat)
    requires outPos + 2 * |text| + 2 < out.Length
    modifies out
    ensures pos <= outPos + 2 * |text| + 2
    ensures out[..pos] == old(out[..outPos]) + ShellQuoted(text, always)
  {
    var needsQuotes := always;
    if !needsQuotes {
      for i := 0 to |text|
        invariant !needsQuotes && forall j :: 0 <= j < i ==> PlainChar(text[j])
      {
        if !PlainChar(text[i]) {
          needsQuotes := true;
          break;
        }
      }
    }
    if !needsQuotes {
      Memory.Copy(out, outPos, text);
      pos := outPos + |text|;
    } else if '\'' !in text {
      pos := AppendSingleQuoted(out, outPos, text);
    } else {
      pos := AppendDoubleQuoted(out, outPos, text);
    }
  }

  /** bx_output_quote_shell_dup; None when the size computation overflows. */
  method ShellDup(text: Text, always: bool) returns (out: Option<Text>)
    ensures out == if 4 * |text| + 3 <= SIZE_MAX then Some(ShellQuoted(text, always)) else None
  {
    var cap := Capacity(|text|, 4, 3);
    if cap.None? {
      return None;
    }
    var buffer := new Byte[cap.value];
    var pos := AppendQuotedSegment(buffer, 0, text, always);
    assert buffer[..pos] == ShellQuoted(text, always);
    return Some(buffer[..pos]);
  }

  // --------------------------------------------------------- single quotes on a stream

  /** What write_single prints: a quote closes, prints itself escaped and opens again. */
  function SingleQuoted(text: Text): Text {
    if text == [] then "'"
    else SingleQuoted(text[..|text| - 1]) + if text[|text| - 1] == '\'' then "'\\''" else [text[|text| - 1]]
  }

  lemma {:induction false} SingleQuotedRuns(text: Text)
    ensures Shell(SingleQuoted(text), Apostrophe, true, text)
    ensures Parser(SingleQuoted(text), Apostrophe, true, text)
  {
    if text == [] {
      OpenSingle([], false, []);
      assert [] + ['\''] == "'";
    } else {
      var front, ch := text[..|text| - 1], text[|text| - 1];
      SingleQuotedRuns(front);
      SingleQuotedStep(SingleQuoted(front), front, ch);
      hide Shell, Parser;
      assert text == front + [ch];
    }
  }

  lemma SingleQuotedStep(s: Text, front: Text, ch: Byte)
    requires Shell(s, Apostrophe, true, front) && Parser(s, Apostrophe, true, front)
    ensures var more := s + if ch == '\'' then "'\\''" else [ch];
      Shell(more, Apostrophe, true, front + [ch]) && Parser(more, Apostrophe, true, front + [ch])
  {
    hide Shell, Parser;
    if ch == '\'' {
      CloseQuote(s, Apostrophe, front);
      EscapedQuote(s + ['\''], front);
      OpenSingle(s + ['\''] + "\\'", true, front + [ch]);
      assert s + ['\''] + "\\'" + ['\''] == s + "'\\''";
    } else {
      QuotedChar(s, front, ch);
    }
  }

  /** write_single's output is read back by a shell and by the command parser. */
  lemma SingleQuotedReadsBack(text: Text)
    ensures AlwaysReadsBack(SingleQuoted(text) + "'", text)
  {
    SingleQuotedRuns(text);
    CloseQuote(SingleQuoted(text), Apostrophe, text);
    assert SingleQuoted(text) + ['\''] == SingleQuoted(text) + "'";
    assert (SingleQuoted(text) + "'")[0] == '\'';
  }

  /** bx_output_quote_write_single. */
  method WriteSingle(stream: Stream, text: Text) returns (ok: bool)
    modifies stream
    ensures ok ==> stream.written == old(stream.written) + (SingleQuoted(text) + "'")
    ensures old(stream.written) <= stream.written
    ensures stream.Size() == old(stream.Size()) && (!ok ==> stream.room == 0)
  {
    ok := stream.Put(['\'']);
    if !ok {
      return;
    }
    for i := 0 to |text|
      invariant stream.written == old(stream.written) + SingleQuoted(text[..i])
      invariant stream.Size() == old(stream.Size())
    {
      assert text[..i + 1][..i] == text[..i];
      ok := stream.Put(if text[i] == '\'' then "'\\''" else [text[i]]);
      if !ok {
        return;
      }
    }
    assert text[..|text|] == text;
    ok := stream.Put(['\'']);
  }
}
