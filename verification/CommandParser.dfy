/** bx_argv_parse_command: splitting a command line into words. */
module CommandParser {
  import opened Bits
  import opened CStrings
  import opened CTypes
  import opened OutputQuote
  import opened ShellWords
  import opened Wrappers

  // The pointer array doubles from 8, keeps one slot for NULL and may not pass INT_MAX / 2 before it doubles.
  const MAX_WORDS := 0x3FFF_FFFF

  /** What the parser returns: at least one word, and no more than the array can hold. */
  function Parsed(command: Text): Option<seq<Text>> {
    match WordsOf(command)
    case None => None
    case Some(words) => if 0 < |words| <= MAX_WORDS then Some(words) else None
  }

  /** bx_argv_push_owned: argc words in an array of cap pointers, with room for a NULL. */
  ghost predicate Capacities(argc: nat, cap: nat, doublings: nat) {
    && doublings <= 27
    && (cap == 0 || cap == 8 * Pow2(doublings))
    && (if cap == 0 then argc == 0 && doublings == 0 else argc < cap)
  }

  lemma {:induction false} Pow2Grows(j: nat, k: nat)
    requires j <= k
    ensures Pow2(j) <= Pow2(k)
  {
    if j < k {
      Pow2Grows(j, k - 1);
    }
  }

  lemma LastDoubling(doublings: nat)
    requires doublings <= 27
    ensures 8 * Pow2(doublings) > INT_MAX / 2 <==> doublings == 27
    ensures 8 * Pow2(27) == MAX_WORDS + 1
    ensures 8 * Pow2(doublings) <= MAX_WORDS + 1
  {
    assert Pow2(8) == 0x100;
    assert Pow2(16) == 0x1_0000;
    assert Pow2(26) == 0x400_0000 && Pow2(27) == 0x800_0000;
    Pow2Grows(doublings, 27);
    if doublings < 27 {
      Pow2Grows(doublings, 26);
    }
  }

  method PushOwned(argv: seq<Text>, cap: nat, ghost doublings: nat, arg: Text)
      returns (ok: bool, argv': seq<Text>, cap': nat, ghost doublings': nat)
    requires Capacities(|argv|, cap, doublings)
    ensures ok == (|argv| < MAX_WORDS)
    ensures ok ==> argv' == argv + [arg] && Capacities(|argv'|, cap', doublings')
  {
    ok, argv', cap', doublings' := true, argv, cap, doublings;
    LastDoubling(doublings);
    if |argv| == INT_MAX {
      return false, argv, cap, doublings;
    }
    if |argv| + 1 >= cap {
      if cap > INT_MAX / 2 {
        return false, argv, cap, doublings;
      }
      if cap == 0 {
        cap' := 8;
      } else {
        cap' := cap * 2;
        doublings' := doublings + 1;
      }
    }
    argv' := argv + [arg];
  }

  lemma ReadOn(command: Text, cursor: nat)
    requires cursor < |command|
    ensures ReadAll(NOTHING, command[..cursor + 1]) == Read(ReadAll(NOTHING, command[..cursor]), command[cursor])
  {
    assert command[..cursor + 1] == command[..cursor] + [command[cursor]];
    ReadSnoc(NOTHING, command[..cursor], command[cursor]);
  }

  /** Reading on never takes a word away. */
  lemma {:induction false} WordsOnlyGrow(m: Command, s: Text)
    ensures m.words <= ReadAll(m, s).words
  {
    if s != [] {
      WordsOnlyGrow(m, s[..|s| - 1]);
    }
  }

  lemma ReadPrefix(command: Text, cursor: nat)
    requires cursor <= |command|
    ensures ReadAll(NOTHING, command[..cursor]).words <= ReadAll(NOTHING, command).words
  {
    assert command == command[..cursor] + command[cursor..];
    ReadInTwo(NOTHING, command[..cursor], command[cursor..]);
    WordsOnlyGrow(ReadAll(NOTHING, command[..cursor]), command[cursor..]);
  }

  /** Blanks after a word or before one: the first ends the word, the others change nothing. */
  method SkipSpaces(command: Text, start: nat) returns (cursor: nat)
    requires start <= |command|
    requires Whole(ReadAll(NOTHING, command[..start]).partial)
    ensures start <= cursor <= |command|
    ensures cursor < |command| ==> !IsSpace(command[cursor])
    ensures start < cursor ==> ReadAll(NOTHING, command[..cursor]) == ReadAll(NOTHING, command[..start + 1])
    ensures ReadAll(NOTHING, command[..start]).partial.Idle?
        ==> ReadAll(NOTHING, command[..cursor]) == ReadAll(NOTHING, command[..start])
  {
    hide ReadAll;
    cursor := start;
    while cursor < |command| && IsSpace(command[cursor])
      invariant start <= cursor <= |command|
      invariant start < cursor ==> ReadAll(NOTHING, command[..cursor]) == ReadAll(NOTHING, command[..start + 1])
      invariant start < cursor ==> ReadAll(NOTHING, command[..cursor]).partial.Idle?
      invariant ReadAll(NOTHING, command[..start]).partial.Idle?
            ==> ReadAll(NOTHING, command[..cursor]) == ReadAll(NOTHING, command[..start])
    {
      ReadOn(command, cursor);
      cursor := cursor + 1;
    }
  }

  /** The inner loop: one word, from its first character to the blank after it or the end. */
  method ReadOneWord(command: Text, start: nat, ghost words: seq<Text>)
      returns (ok: bool, cursor: nat, word: Text)
    requires start < |command| && !IsSpace(command[start])
    requires ReadAll(NOTHING, command[..start]) == Command(words, Idle)
    ensures start < cursor <= |command|
    ensures ok ==> ReadAll(NOTHING, command[..cursor]) == Command(words, Word(word, NoQuote, false))
    ensures ok && cursor < |command| ==> IsSpace(command[cursor])
    ensures !ok ==> WordsOf(command).None?
  {
    hide ReadAll;
    cursor, word := start, [];
    var quote, started := NoQuote, false;
    while cursor < |command|
      invariant start <= cursor <= |command|
      invariant started == (start < cursor)
      invariant !started ==> word == [] && quote == NoQuote
      invariant ReadAll(NOTHING, command[..cursor])
             == Command(words, if started then Word(word, quote, false) else Idle)
    {
      var ch := command[cursor];
      ReadOn(command, cursor);
      if quote == NoQuote && IsSpace(ch) {
        break;
      }
      if ch == '\'' && quote != InDouble {
        quote := if quote == Quote.InSingle then NoQuote else Quote.InSingle;
        started := true;
        cursor := cursor + 1;
        continue;
      }
      if ch == '"' && quote != Quote.InSingle {
        quote := if quote == InDouble then NoQuote else InDouble;
        started := true;
        cursor := cursor + 1;
        continue;
      }
      if ch == '\\' && quote != Quote.InSingle {
        cursor := cursor + 1;
        if cursor == |command| {
          assert command[..cursor] == command;
          return false, cursor, word;
        }
        ch := command[cursor];
        ReadOn(command, cursor);
      }
      word := word + [ch];
      started := true;
      cursor := cursor + 1;
    }
    if quote != NoQuote || !started {
      assert command[..cursor] == command;
      return false, cursor, word;
    }
    ok := true;
  }

  method ParseCommand(command: Text) returns (argv: Option<seq<Text>>)
    ensures argv == Parsed(command)
  {
    hide ReadAll;
    var words: seq<Text>, cap, cursor := [], 0, 0;
    ghost var doublings := 0;
    RunEmpty();
    assert command[..0] == [];
    while cursor < |command|
      invariant 0 <= cursor <= |command|
      invariant Capacities(|words|, cap, doublings)
      invariant WordsOf(command[..cursor]) == Some(words)
      invariant cursor < |command| ==> ReadAll(NOTHING, command[..cursor]) == Command(words, Idle)
    {
      cursor := SkipSpaces(command, cursor);
      if cursor == |command| {
        break;
      }
      ghost var before := words;
      var ok, word;
      ok, cursor, word := ReadOneWord(command, cursor, words);
      if !ok {
        return None;
      }
      ok, words, cap, doublings := PushOwned(words, cap, doublings, word);
      if !ok {
        TooManyWords(command, cursor, before, word);
        return None;
      }
      if cursor < |command| {
        ReadOn(command, cursor);
      }
      cursor := SkipSpaces(command, cursor);
    }
    assert command[..cursor] == command;
    LastDoubling(doublings);
    if words == [] {
      return None;
    }
    return Some(words);
  }

  lemma TooManyWords(command: Text, cursor: nat, words: seq<Text>, word: Text)
    requires cursor <= |command|
    requires ReadAll(NOTHING, command[..cursor]) == Command(words, Word(word, NoQuote, false))
    requires cursor < |command| ==> IsSpace(command[cursor])
    requires |words| >= MAX_WORDS
    ensures Parsed(command) == None
  {
    hide ReadAll;
    if cursor < |command| {
      ReadOn(command, cursor);
      ReadPrefix(command, cursor + 1);
    } else {
      assert command[..cursor] == command;
    }
  }

  // ------------------------------------------------------- quoting and parsing back

  /** The styles whose output the parser reads back for every text. */
  ghost predicate Quotes(q: Text, text: Text) {
    q == ShellQuoted(text, true) || q == SingleQuoted(text) + "'"
  }

  /** Quoting every string of a list in either style, and joining with blanks, parses back to the list. */
  lemma QuotedListParsesBack(quoted: seq<Text>, texts: seq<Text>)
    requires 0 < |quoted| == |texts|
    requires forall i :: 0 <= i < |quoted| ==> Quotes(quoted[i], texts[i])
    ensures Parsed(Join(quoted)) == if |texts| <= MAX_WORDS then Some(texts) else None
  {
    forall i | 0 <= i < |quoted| ensures ReadsAs(quoted[i], texts[i]) {
      assert Quotes(quoted[i], texts[i]);
      ShellAlwaysReadsBack(texts[i]);
      SingleQuotedReadsBack(texts[i]);
    }
    JoinedListReadsBack(quoted, texts);
  }

  predicate WordsPrint(words: seq<Text>) {
    forall i :: 0 <= i < |words| ==> AllPrint(words[i])
  }

  /** All the bytes the machine has kept print. */
  predicate Prints(m: Command) {
    WordsPrint(m.words) && (m.partial.Word? ==> AllPrint(m.partial.text))
  }

  lemma ReadCopies(m: Command, c: Byte)
    requires Prints(m) && IsPrint(c)
    ensures Prints(Read(m, c))
  {
    assert AllPrint([]);
  }

  /** Reading only copies bytes, so nothing that does not print comes out of a line that prints. */
  lemma {:induction false} ReadAllCopies(s: Text)
    requires AllPrint(s)
    ensures Prints(ReadAll(NOTHING, s))
  {
    if s != [] {
      var front := s[..|s| - 1];
      assert AllPrint(front) by {
        assert forall i :: 0 <= i < |front| ==> front[i] == s[i];
      }
      ReadAllCopies(front);
      ReadCopies(ReadAll(NOTHING, front), s[|s| - 1]);
    }
  }

  lemma ParsedPrints(command: Text)
    requires AllPrint(command)
    ensures Parsed(command).Some? ==> WordsPrint(Parsed(command).value)
  {
    ReadAllCopies(command);
  }

  lemma {:induction false} JoinPrints(quoted: seq<Text>)
    requires WordsPrint(quoted)
    ensures AllPrint(Join(quoted))
  {
    if |quoted| > 1 {
      var n := |quoted| - 1;
      JoinPrints(quoted[..n]);
      PrintsOn(Join(quoted[..n]), " ");
      PrintsOn(Join(quoted[..n]) + " ", quoted[n]);
    }
  }

  ghost predicate QuotedAs(quoted: seq<Text>, texts: seq<Text>) {
    |quoted| == |texts| && forall i :: 0 <= i < |quoted| ==> ReadsBack(quoted[i], texts[i])
  }

  /** The reusable style reads back exactly the lists of printing texts. */
  lemma ReusableListParsesBackIff(quoted: seq<Text>, texts: seq<Text>)
    requires QuotedAs(quoted, texts)
    ensures Parsed(Join(quoted)) == Some(texts) <==> 0 < |texts| <= MAX_WORDS && WordsPrint(texts)
  {
    hide ReadAll, ReadsAs, Unquote;
    if 0 < |texts| && WordsPrint(texts) {
      forall i | 0 <= i < |quoted| ensures ReadsAs(quoted[i], texts[i]) {
        assert ReadsBack(quoted[i], texts[i]) && AllPrint(texts[i]);
      }
      JoinedListReadsBack(quoted, texts);
    }
    forall i | 0 <= i < |quoted| ensures AllPrint(quoted[i]) {
      assert ReadsBack(quoted[i], texts[i]);
    }
    JoinPrints(quoted);
    ParsedPrints(Join(quoted));
  }

  /**
   * Quote a list with the reusable style, join it with blanks and parse the line. The list comes
   * back exactly when it is one the parser takes, all its bytes print, for the parser knows no
   * dollar quotes, and the sizes of the quoted strings fit their type.
   */
  method QuoteAndParse(texts: seq<Text>) returns (argv: Option<seq<Text>>)
    ensures
      argv == Some(texts) <==>
      0 < |texts| <= MAX_WORDS && WordsPrint(texts) && forall i :: 0 <= i < |texts| ==> SizesFit(texts[i])
  {
    hide ReadsBack, AllPrint, Reusable, SizesFit;
    var quoted: seq<Text> := [];
    for i := 0 to |texts|
      invariant QuotedAs(quoted, texts[..i])
      invariant forall k :: 0 <= k < i ==> SizesFit(texts[k])
    {
      var q := ShellReusable(texts[i]);
      if q.None? {
        return None;
      }
      ReusableReadsBack(texts[i]);
      assert texts[..i + 1] == texts[..i] + [texts[i]];
      quoted := quoted + [q.value];
    }
    assert texts[..|texts|] == texts;
    ReusableListParsesBackIff(quoted, texts);
    argv := ParseCommand(Join(quoted));
  }
}
