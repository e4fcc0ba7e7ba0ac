/** Where fmt breaks the lines of a paragraph: the costs and the table of best breaks. */
module FmtBreaks {
  /** A word: where its text starts in the buffer, its length and the blanks behind it. */
  datatype Word = Word(text: nat, length: nat, space: nat, paren: bool, period: bool, punct: bool, final: bool)

  /** For a line that starts at a word: its length, the cost from here on, and the word after the break. */
  datatype Break = Break(lineLength: int, bestCost: int, nextBreak: nat)

  /** The words collected, and how their lines may look. lastLineLength is 0 when nothing was printed yet. */
  datatype Paragraph = Paragraph(words: seq<Word>, firstIndent: nat, otherIndent: nat,
                                 width: nat, goal: nat, lastLineLength: nat)

  const MAX_CHARS := 5000
  const MAX_WORDS := 1000
  const MAX_WIDTH := 2500
  const MAX_COST := 0x7FFF_FFFF_FFFF_FFFF

  // Indents for which no cost can pass the range of a long.
  const MAX_INDENT := 2_000_000

  predicate Bounded(p: Paragraph) {
    && 0 < |p.words| < MAX_WORDS
    && (forall i :: 0 <= i < |p.words| ==> 0 < p.words[i].length <= MAX_CHARS)
    && p.firstIndent <= MAX_INDENT && p.otherIndent <= MAX_INDENT
    && p.width <= MAX_WIDTH && p.goal <= MAX_WIDTH
    && p.lastLineLength <= 2 * MAX_INDENT + MAX_CHARS
  }

  // ----------------------------------------------------------------------------- costs

  function Square(v: int): (r: int)
    ensures 0 <= r
  {
    v * v
  }

  function ShortCost(delta: int): (cost: int)
    ensures 0 <= cost
  {
    Square(delta * 10)
  }

  function RaggedCost(delta: int): (cost: int)
    ensures 0 <= cost
  {
    ShortCost(delta) / 2
  }

  const LINE_COST := 4900
  const SENTENCE_BONUS := 2500
  const NOBREAK_COST := 360000
  const PAREN_BONUS := 1600
  const PUNCT_BONUS := 1600
  const LINE_CREDIT := 9

  function WidowCost(length: nat): (cost: int)
    ensures 0 <= cost <= 20000
  {
    40000 / (length + 2)
  }

  function OrphanCost(length: nat): (cost: int)
    ensures 0 <= cost <= 11250
  {
    22500 / (length + 2)
  }

  /** What it costs to start a line at word i. */
  function BaseCost(words: seq<Word>, i: nat): (cost: int)
    requires i < |words|
    ensures 0 < cost <= 400_000
  {
    LINE_COST
    + (if i == 0 then 0
       else if words[i - 1].period then (if words[i - 1].final then -SENTENCE_BONUS else NOBREAK_COST)
       else if words[i - 1].punct then -PUNCT_BONUS
       else if i > 1 && words[i - 2].final then WidowCost(words[i - 1].length)
       else 0)
    + (if words[i].paren then -PAREN_BONUS else if words[i].final then OrphanCost(words[i].length) else 0)
  }

  /** The length of a line with words i to j - 1. */
  function Length(p: Paragraph, i: nat, j: nat): (len: nat)
    requires i < j <= |p.words|
  {
    if j == i + 1 then (if i == 0 then p.firstIndent else p.otherIndent) + p.words[i].length
    else Length(p, i, j - 1) + p.words[j - 2].space + p.words[j - 1].length
  }

  /** A line of one word, or one that fits. */
  predicate Feasible(p: Paragraph, i: nat, j: nat) {
    i < j <= |p.words| && (j == i + 1 || Length(p, i, j) <= p.width)
  }

  /** bx_fmt_engine_line_cost: the last line is free; a break is ragged against the line chosen after it. */
  function LineCost(p: Paragraph, table: seq<Break>, j: nat, len: int): (cost: int)
    requires j <= |p.words| && |table| == |p.words| + 1
    ensures 0 <= cost
  {
    if j == |p.words| then 0
    else
      ShortCost(p.goal - len) + (if table[j].nextBreak != |p.words| then RaggedCost(len - table[j].lineLength) else 0)
  }

  /** The cost of breaking before word j a line that starts at word i. */
  function Candidate(p: Paragraph, table: seq<Break>, i: nat, j: nat): int
    requires i < j <= |p.words| && |table| == |p.words| + 1
  {
    var len := Length(p, i, j);
    LineCost(p, table, j, len) + table[j].bestCost
    + if i == 0 && p.lastLineLength > 0 then RaggedCost(len - p.lastLineLength) else 0
  }

  /** Entry i is right: the first of the cheapest feasible breaks, with its cost and line length. */
  ghost predicate Right(p: Paragraph, table: seq<Break>, i: nat)
    requires i < |p.words| && |table| == |p.words| + 1
  {
    var next := table[i].nextBreak;
    && Feasible(p, i, next)
    && table[i].lineLength == Length(p, i, next)
    && table[i].bestCost == Candidate(p, table, i, next) + BaseCost(p.words, i)
    && forall j: nat :: Feasible(p, i, j) ==>
         && Candidate(p, table, i, next) <= Candidate(p, table, i, j)
         && (j < next ==> Candidate(p, table, i, next) < Candidate(p, table, i, j))
  }

  /** The recurrence, for the words from i on. */
  ghost predicate Solved(p: Paragraph, table: seq<Break>, i: nat) {
    && |table| == |p.words| + 1
    && table[|p.words|].bestCost == 0
    && forall k :: i <= k < |p.words| ==> Right(p, table, k)
  }

  // ------------------------------------------------------------------------ the bounds

  // More than one line can cost; 999 of them stay below MAX_COST.
  const LINE_BOUND := 4_000_000_000_000_000

  lemma SquareBound(delta: int)
    requires -(2 * MAX_INDENT + MAX_CHARS) <= delta <= 2 * MAX_INDENT + MAX_CHARS
    ensures ShortCost(delta) <= 1_604_002_500_000_000
  {
    var v := if delta < 0 then -delta else delta;
    SquareGrows(v, 2 * MAX_INDENT + MAX_CHARS);
    TenTimes(delta, v);
  }

  lemma SquareGrows(v: nat, m: nat)
    requires v <= m
    ensures v * v <= m * m
  {
    assert v * v <= v * m <= m * m;
  }

  lemma TenTimes(delta: int, v: int)
    requires v == delta || v == -delta
    ensures delta * 10 * (delta * 10) == 100 * (v * v)
  {
    assert v * v == delta * delta;
  }

  lemma FeasibleIsShort(p: Paragraph, i: nat, j: nat)
    requires Bounded(p) && Feasible(p, i, j)
    ensures Length(p, i, j) <= MAX_INDENT + MAX_CHARS
  {
  }

  /** Costs are positive and bounded: with 999 words at most none reaches MAX_COST. */
  ghost predicate CostWithin(p: Paragraph, table: seq<Break>, k: nat)
    requires k <= |p.words| && |table| == |p.words| + 1
  {
    0 <= table[k].bestCost <= (|p.words| - k) * LINE_BOUND
  }

  lemma CandidateBound(p: Paragraph, table: seq<Break>, i: nat, j: nat)
    requires Bounded(p) && Feasible(p, i, j) && |table| == |p.words| + 1
    requires CostWithin(p, table, j)
    requires j < |p.words| ==> 0 <= table[j].lineLength <= MAX_INDENT + MAX_CHARS
    ensures 0 <= Candidate(p, table, i, j)
    ensures Candidate(p, table, i, j) + 400_000 <= (|p.words| - i) * LINE_BOUND < MAX_COST
  {
    var len := Length(p, i, j);
    FeasibleIsShort(p, i, j);
    SquareBound(p.goal - len);
    if j < |p.words| {
      SquareBound(len - table[j].lineLength);
    }
    SquareBound(len - p.lastLineLength);
    assert LineCost(p, table, j, len) <= 2_406_003_750_000_000;
    assert Candidate(p, table, i, j) <= table[j].bestCost + 3_208_005_000_000_000;
    assert (|p.words| - j) * LINE_BOUND + LINE_BOUND <= (|p.words| - i) * LINE_BOUND;
  }

  lemma {:induction false} SolvedIsBounded(p: Paragraph, table: seq<Break>, i: nat, k: nat)
    requires Bounded(p) && Solved(p, table, i) && i <= k <= |p.words|
    ensures CostWithin(p, table, k)
    ensures k < |p.words| ==> 0 <= table[k].lineLength <= MAX_INDENT + MAX_CHARS
    decreases |p.words| - k
  {
    if k < |p.words| {
      assert Right(p, table, k);
      var next := table[k].nextBreak;
      SolvedIsBounded(p, table, i, next);
      CandidateBound(p, table, k, next);
      FeasibleIsShort(p, k, next);
    }
  }

  /** In a solved table every cost lies below 2^63, and so does every candidate's. */
  lemma NoCostOverflows(p: Paragraph, table: seq<Break>, i: nat, j: nat)
    requires Bounded(p) && Solved(p, table, 0) && Feasible(p, i, j)
    ensures 0 < table[i].bestCost < MAX_COST
    ensures 0 <= Candidate(p, table, i, j) < MAX_COST
  {
    SolvedIsBounded(p, table, 0, i);
    SolvedIsBounded(p, table, 0, j);
    CandidateBound(p, table, i, j);
    var next := table[i].nextBreak;
    assert Right(p, table, i);
    SolvedIsBounded(p, table, 0, next);
    CandidateBound(p, table, i, next);
  }

  /** Behind the first word there is room for the credit of all the lines there can be. */
  lemma CreditFits(p: Paragraph, table: seq<Break>, i: nat, j: nat)
    requires Bounded(p) && Solved(p, table, 0) && 0 < i <= |p.words| && j <= |p.words|
    ensures table[i].bestCost - table[j].bestCost + LINE_CREDIT * MAX_WORDS < MAX_COST
  {
    SolvedIsBounded(p, table, 0, i);
    SolvedIsBounded(p, table, 0, j);
    assert (|p.words| - i) * LINE_BOUND <= (MAX_WORDS - 2) * LINE_BOUND;
  }

  // -------------------------------------------------------------- where to stop early

  /** What the break in front of line k costs, less the credit of the lines before it. */
  function BreakCost(table: seq<Break>, starts: seq<nat>, k: nat): int
    requires k + 1 < |starts| && starts[k] < |table| && starts[k + 1] < |table|
  {
    table[starts[k]].bestCost - table[starts[k + 1]].bestCost - LINE_CREDIT * k
  }

  /** Line f is the one in front of which to stop: the first of the cheapest breaks, the end if there is no break. */
  predicate IsSplit(table: seq<Break>, starts: seq<nat>, f: nat) {
    && 0 < f < |starts| && (f == |starts| - 1 ==> f == 1)
    && (forall k :: 0 <= k < |starts| ==> starts[k] < |table|)
    && (f < |starts| - 1 ==> IsCheapest(table, starts, f, |starts| - 1))
  }

  /** No break in front of a line below n is cheaper, and none before f is as cheap. */
  predicate IsCheapest(table: seq<Break>, starts: seq<nat>, f: nat, n: nat)
    requires f < n < |starts| && forall k :: 0 <= k < |starts| ==> starts[k] < |table|
  {
    && (forall k :: 0 < k < n ==> BreakCost(table, starts, f) <= BreakCost(table, starts, k))
    && (forall k :: 0 < k < f ==> BreakCost(table, starts, f) < BreakCost(table, starts, k))
  }

  // ------------------------------------------------------------ the recurrence decides

  lemma SameTail(p: Paragraph, a: seq<Break>, b: seq<Break>, i: nat, j: nat)
    requires i < j <= |p.words| && |a| == |b| == |p.words| + 1
    requires j < |p.words| ==> a[j] == b[j]
    requires a[|p.words|].bestCost == b[|p.words|].bestCost
    ensures Candidate(p, a, i, j) == Candidate(p, b, i, j)
  {
  }

  /** There is only one solution. */
  lemma {:induction false} OneSolution(p: Paragraph, a: seq<Break>, b: seq<Break>, i: nat, k: nat)
    requires Solved(p, a, i) && Solved(p, b, i) && i <= k < |p.words|
    ensures a[k] == b[k]
    decreases |p.words| - k
  {
    assert Right(p, a, k) && Right(p, b, k);
    forall j | k < j <= |p.words| ensures Candidate(p, a, k, j) == Candidate(p, b, k, j) {
      if j < |p.words| {
        OneSolution(p, a, b, i, j);
      }
      SameTail(p, a, b, k, j);
    }
  }

  // ---------------------------------------------------------------- the lines that result

  /** The words at which lines start, from word i on, and the end. */
  function Starts(p: Paragraph, table: seq<Break>, i: nat): (starts: seq<nat>)
    requires i <= |p.words| && |table| == |p.words| + 1
    requires forall k :: i <= k < |p.words| ==> k < table[k].nextBreak <= |p.words|
    ensures |starts| > 0 && starts[0] == i && starts[|starts| - 1] == |p.words|
    decreases |p.words| - i
  {
    if i == |p.words| then [i] else [i] + Starts(p, table, table[i].nextBreak)
  }

  predicate AllFeasible(p: Paragraph, starts: seq<nat>) {
    forall l :: 0 < l < |starts| ==> Feasible(p, starts[l - 1], starts[l])
  }

  /** Every line starts where the one before it ends, and has one word or fits in the width. */
  lemma {:induction false} EveryLineFits(p: Paragraph, table: seq<Break>, i: nat)
    requires Solved(p, table, i) && i <= |p.words|
    ensures forall k :: i <= k < |p.words| ==> k < table[k].nextBreak <= |p.words|
    ensures AllFeasible(p, Starts(p, table, i))
    decreases |p.words| - i
  {
    forall k | i <= k < |p.words| ensures k < table[k].nextBreak <= |p.words| {
      assert Right(p, table, k);
    }
    if i < |p.words| {
      assert Right(p, table, i);
      EveryLineFits(p, table, table[i].nextBreak);
      var rest := Starts(p, table, table[i].nextBreak);
      PrependStart(p, i, rest);
    }
  }

  lemma PrependStart(p: Paragraph, i: nat, rest: seq<nat>)
    requires rest != [] && AllFeasible(p, rest) && Feasible(p, i, rest[0])
    ensures AllFeasible(p, [i] + rest)
  {
    hide Feasible;
    var starts := [i] + rest;
    forall l | 0 < l < |starts| ensures Feasible(p, starts[l - 1], starts[l]) {
      if l > 1 {
        assert Feasible(p, rest[l - 2], rest[l - 1]);
      }
    }
  }

  // -------------------------------------------------------------------------- as coded

  lemma {:induction false} LongerIsLonger(p: Paragraph, i: nat, j: nat, k: nat)
    requires i < j <= k <= |p.words|
    ensures Length(p, i, j) <= Length(p, i, k)
  {
    if j < k {
      LongerIsLonger(p, i, j, k - 1);
    }
  }

  /** The cheapest of the breaks up to word j, the first one if several are. */
  ghost predicate BestUpTo(p: Paragraph, table: seq<Break>, i: nat, j: nat, next: nat, len: int, cost: int)
    requires i < |p.words| && |table| == |p.words| + 1
  {
    && i < next <= j <= |p.words| && Feasible(p, i, next)
    && len == Length(p, i, next) && cost == Candidate(p, table, i, next)
    && forall k :: i < k <= j ==>
         && cost <= Candidate(p, table, i, k)
         && (k < next ==> cost < Candidate(p, table, i, k))
  }

  /** The inner loop of bx_fmt_engine_fmt_paragraph: the break for a line that starts at word start. */
  method BestBreak(p: Paragraph, table: seq<Break>, start: nat) returns (entry: Break)
    requires Bounded(p) && start < |p.words| && Solved(p, table, start + 1)
    ensures Right(p, table[start := entry], start)
  {
    assert Length(p, start, start + 1) == (if start == 0 then p.firstIndent else p.otherIndent) + p.words[start].length;
    hide BestUpTo, CostWithin, LineCost, BaseCost;
    var word, best := start, MAX_COST;
    var len := if start == 0 then p.firstIndent else p.otherIndent;
    len := len + p.words[start].length;
    var next, lineLength := 0, 0;
    while true
      invariant start <= word < |p.words|
      invariant len == Length(p, start, word + 1) && Feasible(p, start, word + 1)
      invariant word == start ==> best == MAX_COST
      invariant word > start ==> BestUpTo(p, table, start, word, next, lineLength, best)
      decreases |p.words| - word
    {
      word := word + 1;
      SolvedIsBounded(p, table, start + 1, word);
      CandidateBound(p, table, start, word);
      var wordCost := LineCost(p, table, word, len) + table[word].bestCost;
      if start == 0 && p.lastLineLength > 0 {
        wordCost := wordCost + RaggedCost(len - p.lastLineLength);
      }
      ConsiderBreak(p, table, start, word, next, lineLength, best);
      if wordCost < best {
        best := wordCost;
        next := word;
        lineLength := len;
      }
      if word == |p.words| {
        break;
      }
      len := len + p.words[word - 1].space + p.words[word].length;
      if len > p.width {
        break;
      }
    }
    entry := Break(lineLength, best + BaseCost(p.words, start), next);
    BestIsRight(p, table, start, word, entry);
  }

  lemma ConsiderBreak(p: Paragraph, table: seq<Break>, i: nat, word: nat, next: nat, len: int, best: int)
    requires i < word <= |p.words| && |table| == |p.words| + 1 && Feasible(p, i, word)
    requires word == i + 1 ==> Candidate(p, table, i, word) < best
    requires word > i + 1 ==> BestUpTo(p, table, i, word - 1, next, len, best)
    ensures var cost := Candidate(p, table, i, word);
      if cost < best then BestUpTo(p, table, i, word, word, Length(p, i, word), cost)
      else BestUpTo(p, table, i, word, next, len, best)
  {
    hide Candidate, Length, Feasible;
  }

  lemma BestIsRight(p: Paragraph, table: seq<Break>, i: nat, word: nat, entry: Break)
    requires i < word <= |p.words| && |table| == |p.words| + 1
    requires BestUpTo(p, table, i, word, entry.nextBreak, entry.lineLength, entry.bestCost - BaseCost(p.words, i))
    requires word < |p.words| ==> Length(p, i, word + 1) > p.width
    ensures Right(p, table[i := entry], i)
  {
    hide Candidate, BaseCost;
    EarlierEntryDoesNotMatter(p, table, i, entry);
    var table', next := table[i := entry], entry.nextBreak;
    forall j: nat | Feasible(p, i, j)
      ensures Candidate(p, table', i, next) <= Candidate(p, table', i, j)
      ensures j < next ==> Candidate(p, table', i, next) < Candidate(p, table', i, j)
    {
      if word < j {
        LongerIsLonger(p, i, word + 1, j);
      }
      assert Candidate(p, table', i, j) == Candidate(p, table, i, j);
    }
  }

  lemma EarlierEntryDoesNotMatter(p: Paragraph, table: seq<Break>, i: nat, entry: Break)
    requires i < |p.words| && |table| == |p.words| + 1
    ensures forall k, j :: i <= k < j <= |p.words| ==>
      Candidate(p, table[i := entry], k, j) == Candidate(p, table, k, j)
  {
  }

  /** bx_fmt_engine_fmt_paragraph. */
  method FmtParagraph(p: Paragraph, breaks: array<Break>)
    requires Bounded(p) && breaks.Length > |p.words|
    modifies breaks
    ensures Solved(p, breaks[..|p.words| + 1], 0)
  {
    var n := |p.words|;
    breaks[n] := Break(0, 0, 0);
    var start := n;
    while start > 0
      invariant 0 <= start <= n
      invariant Solved(p, breaks[..n + 1], start)
    {
      start := start - 1;
      ghost var table := breaks[..n + 1];
      var entry := BestBreak(p, breaks[..n + 1], start);
      breaks[start] := entry;
      assert breaks[..n + 1] == table[start := entry];
      OneMoreRight(p, table, start, entry);
    }
  }

  lemma OneMoreRight(p: Paragraph, table: seq<Break>, i: nat, entry: Break)
    requires i < |p.words| && Solved(p, table, i + 1) && Right(p, table[i := entry], i)
    ensures Solved(p, table[i := entry], i)
  {
    var table' := table[i := entry];
    hide Right;
    forall k | i < k < |p.words| ensures Right(p, table', k) {
      StaysRight(p, table, i, entry, k);
    }
  }

  lemma StaysRight(p: Paragraph, table: seq<Break>, i: nat, entry: Break, k: nat)
    requires i < k < |p.words| && |table| == |p.words| + 1 && Right(p, table, k)
    ensures Right(p, table[i := entry], k)
  {
    EarlierEntryDoesNotMatter(p, table, i, entry);
    hide Candidate;
  }
}
