/** The word table of fmt: where the words lie in the paragraph buffer, and the lines planned over them. */
module FmtTable {
  import opened FmtBreaks

  // strchr also finds the NUL at the end of its string.

  predicate IsOpenPunct(c: char) {
    c == '(' || c == '[' || c == '\'' || c == '`' || c == '"' || c == '\0'
  }

  predicate IsClosePunct(c: char) {
    c == ')' || c == ']' || c == '\'' || c == '"' || c == '\0'
  }

  predicate IsPeriodPunct(c: char) {
    c == '.' || c == '?' || c == '!' || c == '\0'
  }

  /** ispunct in the C locale. */
  predicate IsPunct(c: char) {
    '!' <= c <= '/' || ':' <= c <= '@' || '[' <= c <= '`' || '{' <= c <= '~'
  }

  /** Where word j starts if it follows the ones before it. */
  function Start(words: seq<Word>, j: nat): nat
    requires j <= |words|
  {
    if j == 0 then 0 else words[j - 1].text + words[j - 1].length
  }

  predicate Placed(words: seq<Word>, k: nat)
    requires k < |words|
  {
    words[k].length > 0 && words[k].text == Start(words, k)
  }

  /** The words before limit lie one behind the other from the start of the buffer; the one at limit is still open. */
  predicate Laid(words: seq<Word>, limit: nat, wptr: nat) {
    && limit < |words|
    && (forall k :: 0 <= k < limit ==> Placed(words, k))
    && Start(words, limit) <= wptr <= MAX_CHARS
  }

  lemma {:induction false} LaidInOrder(words: seq<Word>, limit: nat, wptr: nat, i: nat, j: nat)
    requires Laid(words, limit, wptr) && i <= j <= limit
    ensures Start(words, i) <= Start(words, j) <= wptr
    ensures i < j ==> Start(words, i) < Start(words, j)
    ensures i < j ==> words[i].text == Start(words, i) && 0 < words[i].length <= MAX_CHARS
    decreases 2 * limit - i - j
  {
    if i < j {
      assert Placed(words, i);
      LaidInOrder(words, limit, wptr, i + 1, j);
    } else if j < limit {
      assert Placed(words, j);
      LaidInOrder(words, limit, wptr, j + 1, j + 1);
    }
  }

  /** The text of words i to j - 1. */
  ghost function TextBetween(buf: seq<char>, words: seq<Word>, limit: nat, wptr: nat, i: nat, j: nat): seq<char>
    requires Laid(words, limit, wptr) && i <= j <= limit && |buf| == MAX_CHARS
  {
    LaidInOrder(words, limit, wptr, i, j);
    LaidInOrder(words, limit, wptr, j, j);
    buf[Start(words, i)..Start(words, j)]
  }

  lemma TextBetweenSnoc(buf: seq<char>, words: seq<Word>, limit: nat, wptr: nat, i: nat, j: nat)
    requires Laid(words, limit, wptr) && i <= j < limit && |buf| == MAX_CHARS
    ensures words[j].text + words[j].length <= MAX_CHARS
    ensures TextBetween(buf, words, limit, wptr, i, i) == []
    ensures TextBetween(buf, words, limit, wptr, i, j + 1)
         == TextBetween(buf, words, limit, wptr, i, j) + buf[words[j].text..words[j].text + words[j].length]
  {
    LaidInOrder(words, limit, wptr, i, j);
    LaidInOrder(words, limit, wptr, j, j + 1);
    LaidInOrder(words, limit, wptr, j + 1, j + 1);
  }

  lemma TextFromTheStart(buf: seq<char>, words: seq<Word>, limit: nat, wptr: nat, j: nat)
    requires Laid(words, limit, wptr) && j <= limit && |buf| == MAX_CHARS
    ensures Start(words, j) <= |buf|
    ensures TextBetween(buf, words, limit, wptr, 0, j) == buf[..Start(words, j)]
  {
    LaidInOrder(words, limit, wptr, 0, j);
    LaidInOrder(words, limit, wptr, j, j);
  }

  lemma TextBetweenJoin(buf: seq<char>, words: seq<Word>, limit: nat, wptr: nat, i: nat, j: nat, k: nat)
    requires Laid(words, limit, wptr) && i <= j <= k <= limit && |buf| == MAX_CHARS
    ensures TextBetween(buf, words, limit, wptr, i, k)
         == TextBetween(buf, words, limit, wptr, i, j) + TextBetween(buf, words, limit, wptr, j, k)
  {
    LaidInOrder(words, limit, wptr, i, j);
    LaidInOrder(words, limit, wptr, j, k);
    LaidInOrder(words, limit, wptr, k, k);
  }

  lemma SameBefore(ws: seq<Word>, ws': seq<Word>, limit: nat, wptr: nat)
    requires Laid(ws, limit, wptr) && |ws'| == |ws|
    requires forall k :: 0 <= k < limit ==> ws'[k].text == ws[k].text && ws'[k].length == ws[k].length
    ensures Laid(ws', limit, wptr) && Start(ws', limit) == Start(ws, limit)
  {
    forall k | 0 <= k < limit ensures Placed(ws', k) {
      assert Placed(ws, k);
    }
  }

  lemma OneMoreWord(ws: seq<Word>, limit: nat, wptr: nat)
    requires Laid(ws, limit, wptr) && limit + 1 < |ws| && ws[limit].text == Start(ws, limit)
    requires ws[limit].length > 0 && ws[limit].text + ws[limit].length == wptr
    ensures Laid(ws, limit + 1, wptr) && Start(ws, limit + 1) == wptr
  {
    assert Placed(ws, limit);
  }

  lemma TextsBehind(ws: seq<Word>, limit: nat, wptr: nat, split: nat)
    requires Laid(ws, limit, wptr) && 0 < split <= limit && ws[limit].text == Start(ws, limit)
    ensures 0 < ws[split].text == Start(ws, split) <= wptr
    ensures forall k :: split <= k <= limit ==> ws[split].text <= ws[k].text <= wptr
  {
    LaidInOrder(ws, limit, wptr, 0, split);
    LaidInOrder(ws, limit, wptr, split, limit);
    forall k | split <= k <= limit ensures ws[split].text <= ws[k].text <= wptr {
      LaidInOrder(ws, limit, wptr, split, k);
      LaidInOrder(ws, limit, wptr, k, limit);
    }
  }

  lemma StillLaid(ws: seq<Word>, limit: nat, wptr: nat, split: nat, shift: nat, moved: seq<Word>)
    requires Laid(ws, limit, wptr) && 0 < split <= limit && shift == ws[split].text == Start(ws, split) <= wptr
    requires ws[limit].text == Start(ws, limit)
    requires Moved(ws, limit, split, shift, moved)
    ensures Laid(moved, limit - split, wptr - shift)
    ensures moved[limit - split].text == Start(moved, limit - split)
    ensures moved[limit - split] == ws[limit].(text := ws[limit].text - shift)
  {
    forall k | 0 <= k < limit - split ensures Placed(moved, k) {
      assert Placed(ws, k + split);
    }
  }

  ghost predicate Moved(ws: seq<Word>, limit: nat, split: nat, shift: nat, moved: seq<Word>) {
    split <= limit < |ws| && limit - split < |moved| &&
    forall k :: 0 <= k <= limit - split ==>
      shift <= ws[k + split].text && moved[k] == ws[k + split].(text := ws[k + split].text - shift)
  }

  /** Each start is where the line before it breaks. */
  predicate Follows(table: seq<Break>, starts: seq<nat>) {
    forall l :: 0 < l < |starts| ==> NextIs(table, starts[l - 1], starts[l])
  }

  predicate NextIs(table: seq<Break>, i: nat, j: nat) {
    i < |table| && table[i].nextBreak == j
  }

  lemma {:induction false} Ordered(p: Paragraph, starts: seq<nat>, a: nat, b: nat)
    requires AllFeasible(p, starts) && a <= b < |starts|
    ensures starts[a] <= starts[b] && (a < b ==> starts[a] < starts[b])
    ensures a < b ==> starts[b] <= |p.words|
    decreases b - a
  {
    if a < b {
      Ordered(p, starts, a, b - 1);
      assert Feasible(p, starts[b - 1], starts[b]);
    }
  }

  lemma {:induction false} StartsFollow(p: Paragraph, table: seq<Break>, i: nat)
    requires i <= |p.words| && |table| == |p.words| + 1
    requires forall k :: i <= k < |p.words| ==> k < table[k].nextBreak <= |p.words|
    ensures Follows(table, Starts(p, table, i))
    decreases |p.words| - i
  {
    if i < |p.words| {
      StartsFollow(p, table, table[i].nextBreak);
      var rest := Starts(p, table, table[i].nextBreak);
      FollowsCons(table, i, rest);
    }
  }

  lemma FollowsCons(table: seq<Break>, i: nat, rest: seq<nat>)
    requires rest != [] && Follows(table, rest) && i < |table| && rest[0] == table[i].nextBreak
    ensures Follows(table, [i] + rest)
  {
    var starts := [i] + rest;
    forall l | 0 < l < |starts| ensures NextIs(table, starts[l - 1], starts[l]) {
      if l > 1 {
        assert NextIs(table, rest[l - 2], rest[l - 1]);
      }
    }
  }

  lemma LengthStep(p: Paragraph, i: nat, j: nat)
    requires i < j < |p.words|
    ensures Length(p, i, j + 1) == Length(p, i, j) + p.words[j - 1].space + p.words[j].length
  {
  }

  lemma FeasibleLength(p: Paragraph, i: nat, j: nat)
    requires Feasible(p, i, j) && p.width <= MAX_WIDTH
    requires p.firstIndent <= MAX_INDENT && p.otherIndent <= MAX_INDENT
    requires p.words[i].length <= MAX_CHARS
    ensures Length(p, i, j) <= MAX_INDENT + MAX_CHARS
  {
  }
}
