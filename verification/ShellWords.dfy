/** How quoted text is read back: by a POSIX shell, and by the library's own command parser. */
module ShellWords {
  import opened CStrings
  import opened Wrappers

  // ------------------------------- quote removal, sections 2.2.1 to 2.2.4 of POSIX.1-2024 XCU

  /**
   * Where the shell is in a word. Octal holds the digits of an escape that may still
   * go on; Rejected means that the text is not one literal word.
   */
  datatype Mode =
    | Begin | Unquoted | Escaped
    | Single
    | Double | DoubleEscaped
    | Dollar | DollarSingle | DollarEscaped | Octal(digits: nat, code: nat)
    | Rejected

  datatype Machine = Machine(mode: Mode, word: Text)

  /** Characters that must be quoted to stand for themselves, wherever they are. */
  predicate Special(c: Byte) {
    || c == '|' || c == '&' || c == ';' || c == '<' || c == '>' || c == '(' || c == ')' || c == '`'
    || c == '$' || c == '\\' || c == '"' || c == '\'' || c == ' ' || c == '\t' || c == '\n'
    || c == '*' || c == '?' || c == '[' || c == '^' || c == '!' || c == '='
  }

  predicate IsOctal(c: Byte) {
    '0' <= c <= '7'
  }

  function Push(mode: Mode, word: Text, c: int): Machine {
    if 0 < c < 256 then Machine(mode, word + [c as char]) else Machine(Rejected, word)
  }

  function StepUnquoted(m: Machine, c: Byte): Machine {
    if c == '\'' then Machine(Single, m.word)
    else if c == '"' then Machine(Double, m.word)
    else if c == '\\' then Machine(Escaped, m.word)
    else if c == '$' then Machine(Dollar, m.word)
    else if Special(c) then Machine(Rejected, m.word)
    else Machine(Unquoted, m.word + [c])
  }

  function StepDouble(m: Machine, c: Byte): Machine {
    if c == '"' then Machine(Unquoted, m.word)
    else if c == '\\' then Machine(DoubleEscaped, m.word)
    else if c == '$' || c == '`' then Machine(Rejected, m.word)
    else Machine(Double, m.word + [c])
  }

  function StepDollarSingle(m: Machine, c: Byte): Machine {
    if c == '\'' then Machine(Unquoted, m.word)
    else if c == '\\' then Machine(DollarEscaped, m.word)
    else Machine(DollarSingle, m.word + [c])
  }

  /** The byte a letter stands for after a backslash; 0 for the letters that have no fixed meaning here. */
  function Letter(c: Byte): int {
    if c == 'a' then 7 else if c == 'b' then 8 else if c == 't' then 9
    else if c == 'n' then 10 else if c == 'v' then 11 else if c == 'f' then 12
    else if c == 'r' then 13 else if c == 'e' then 27
    else if c == '\\' || c == '\'' || c == '"' then c as int
    else 0
  }

  function StepDollarEscaped(m: Machine, c: Byte): Machine {
    if IsOctal(c) then Machine(Octal(1, c as int - '0' as int), m.word)
    else Push(DollarSingle, m.word, Letter(c))
  }

  /** One to three octal digits, as many as there are. */
  function StepOctal(m: Machine, c: Byte): Machine
    requires m.mode.Octal?
  {
    var Octal(digits, code) := m.mode;
    if !IsOctal(c) then
      var done := Push(DollarSingle, m.word, code);
      if done.mode.Rejected? then done else StepDollarSingle(done, c)
    else
      var more := 8 * code + (c as int - '0' as int);
      if digits < 2 then Machine(Octal(digits + 1, more), m.word)
      else Push(DollarSingle, m.word, more)
  }

  function Step(m: Machine, c: Byte): Machine {
    match m.mode
    case Begin => if c == '#' || c == '~' then Machine(Rejected, m.word) else StepUnquoted(m, c)
    case Unquoted => StepUnquoted(m, c)
    case Escaped => Machine(Unquoted, if c == '\n' then m.word else m.word + [c])
    case Single => if c == '\'' then Machine(Unquoted, m.word) else Machine(Single, m.word + [c])
    case Double => StepDouble(m, c)
    case DoubleEscaped =>
      Machine(Double, if c == '\n' then m.word
                      else if c == '$' || c == '`' || c == '"' || c == '\\' then m.word + [c]
                      else m.word + ['\\', c])
    case Dollar => if c == '\'' then Machine(DollarSingle, m.word) else Machine(Rejected, m.word)
    case DollarSingle => StepDollarSingle(m, c)
    case DollarEscaped => StepDollarEscaped(m, c)
    case Octal(_, _) => StepOctal(m, c)
    case Rejected => m
  }

  function Run(s: Text): Machine {
    if s == [] then Machine(Begin, []) else Step(Run(s[..|s| - 1]), s[|s| - 1])
  }

  /** The literal word that s is, once its quotes are removed. A lone brace is a reserved word. */
  function Unquote(s: Text): Option<Text> {
    if Run(s).mode.Unquoted? && s != "{" && s != "}" then Some(Run(s).word) else None
  }

  lemma RunSnoc(s: Text, c: Byte)
    ensures Run(s + [c]) == Step(Run(s), c)
  {
    assert (s + [c])[..|s|] == s;
  }

  lemma RunSnoc2(s: Text, c: Byte, d: Byte)
    ensures Run(s + [c, d]) == Step(Step(Run(s), c), d)
  {
    hide Step;
    RunSnoc(s, c);
    RunSnoc(s + [c], d);
    assert s + [c] + [d] == s + [c, d];
  }

  // ------------------------------------------------- the library's command syntax

  datatype Quote = NoQuote | InSingle | InDouble

  /** The word being read, if any; escaped after a backslash. */
  datatype Partial = Idle | Word(text: Text, quote: Quote, escaped: bool)

  datatype Command = Command(words: seq<Text>, partial: Partial)

  function ReadWord(p: Partial, c: Byte): Partial
    requires p.Word?
  {
    if p.escaped then Word(p.text + [c], p.quote, false)
    else if c == '\'' && p.quote != InDouble then
      Word(p.text, if p.quote == InSingle then NoQuote else InSingle, false)
    else if c == '"' && p.quote != InSingle then
      Word(p.text, if p.quote == InDouble then NoQuote else InDouble, false)
    else if c == '\\' && p.quote != InSingle then Word(p.text, p.quote, true)
    else Word(p.text + [c], p.quote, false)
  }

  function Read(m: Command, c: Byte): Command {
    match m.partial
    case Idle =>
      if IsSpace(c) then m else Command(m.words, ReadWord(Word([], NoQuote, false), c))
    case Word(text, quote, escaped) =>
      if IsSpace(c) && quote == NoQuote && !escaped then Command(m.words + [text], Idle)
      else Command(m.words, ReadWord(m.partial, c))
  }

  function ReadAll(m: Command, s: Text): Command {
    if s == [] then m else Read(ReadAll(m, s[..|s| - 1]), s[|s| - 1])
  }

  const NOTHING := Command([], Idle)

  predicate Whole(p: Partial) {
    p.Word? ==> p.quote == NoQuote && !p.escaped
  }

  /** The words of a command line; None for an open quote or a backslash at the end. */
  function WordsOf(s: Text): Option<seq<Text>> {
    var m := ReadAll(NOTHING, s);
    if !Whole(m.partial) then None
    else Some(if m.partial.Idle? then m.words else m.words + [m.partial.text])
  }

  /** Read on its own, q is the one word text, and the next blank ends it. */
  ghost predicate ReadsAs(q: Text, text: Text) {
    ReadAll(NOTHING, q) == Command([], Word(text, NoQuote, false))
  }

  lemma ReadSnoc(m: Command, s: Text, c: Byte)
    ensures ReadAll(m, s + [c]) == Read(ReadAll(m, s), c)
  {
    assert (s + [c])[..|s|] == s;
  }

  lemma ReadSnoc2(m: Command, s: Text, c: Byte, d: Byte)
    ensures ReadAll(m, s + [c, d]) == Read(Read(ReadAll(m, s), c), d)
  {
    hide Read;
    ReadSnoc(m, s, c);
    ReadSnoc(m, s + [c], d);
    assert s + [c] + [d] == s + [c, d];
  }

  lemma {:induction false} ReadInTwo(m: Command, s: Text, t: Text)
    ensures ReadAll(m, s + t) == ReadAll(ReadAll(m, s), t)
  {
    if t == [] {
      assert s + t == s;
    } else {
      var rest := t[..|t| - 1];
      ReadInTwo(m, s, rest);
      assert (s + t)[..|s + t| - 1] == s + rest;
    }
  }

  lemma RunEmpty()
    ensures Run([]) == Machine(Begin, [])
    ensures forall m :: ReadAll(m, []) == m
  {
  }

  /** Words already read stay as they are. */
  lemma {:induction false} ReadKeepsWords(words: seq<Text>, s: Text)
    ensures ReadAll(Command(words, Idle), s).words == words + ReadAll(NOTHING, s).words
    ensures ReadAll(Command(words, Idle), s).partial == ReadAll(NOTHING, s).partial
  {
    if s != [] {
      ReadKeepsWords(words, s[..|s| - 1]);
    }
  }

  function Join(quoted: seq<Text>): Text {
    if |quoted| == 0 then []
    else if |quoted| == 1 then quoted[0]
    else Join(quoted[..|quoted| - 1]) + " " + quoted[|quoted| - 1]
  }

  lemma {:induction false} ReadJoined(quoted: seq<Text>, texts: seq<Text>)
    requires 0 < |quoted| == |texts|
    requires forall i :: 0 <= i < |quoted| ==> ReadsAs(quoted[i], texts[i])
    ensures ReadAll(NOTHING, Join(quoted))
         == Command(texts[..|texts| - 1], Word(texts[|texts| - 1], NoQuote, false))
  {
    var n := |quoted| - 1;
    if n > 0 {
      var front, last := Join(quoted[..n]), quoted[n];
      ReadJoined(quoted[..n], texts[..n]);
      ReadInTwo(NOTHING, front + " ", last);
      ReadSnoc(NOTHING, front, ' ');
      assert texts[..n][..n - 1] + [texts[n - 1]] == texts[..n];
      assert ReadAll(NOTHING, front + " ") == Command(texts[..n], Idle);
      ReadKeepsWords(texts[..n], last);
      assert ReadsAs(quoted[n], texts[n]);
    }
  }

  /** Quote every string of a list, join them with blanks: reading gives the list back. */
  lemma JoinedListReadsBack(quoted: seq<Text>, texts: seq<Text>)
    requires 0 < |quoted| == |texts|
    requires forall i :: 0 <= i < |quoted| ==> ReadsAs(quoted[i], texts[i])
    ensures WordsOf(Join(quoted)) == Some(texts)
  {
    hide ReadAll, ReadsAs, Join;
    ReadJoined(quoted, texts);
    assert texts[..|texts| - 1] + [texts[|texts| - 1]] == texts;
  }
}
