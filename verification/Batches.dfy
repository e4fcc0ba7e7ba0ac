/** Cutting a list of arguments into command lines: bx_argv_select_batch_count and its caller's loop. */
module Batches {
  import opened CTypes

  /**
   * The command, the items to append to it and the limits. A string is given by its
   * length; groups names the input line of each item, if there are lines. A limit
   * that is not positive is no limit.
   */
  datatype Job = Job(base: seq<nat>, items: seq<nat>, groups: seq<int>, lined: bool,
                     maxArgs: int, maxLines: int, charLimit: nat) {
    predicate Valid() {
      && |items| <= INT_MAX && |base| <= INT_MAX
      && (forall i :: 0 <= i < |base| ==> base[i] < SIZE_MAX)
      && (forall i :: 0 <= i < |items| ==> items[i] < SIZE_MAX)
      && (lined ==> |groups| == |items|)
    }

    predicate NewLine(i: nat)
      requires Valid() && 0 < i < |items|
    {
      !lined || groups[i] != groups[i - 1]
    }
  }

  // ------------------------------------------------------- what one command line takes

  /** The strings with their NULs. */
  function Sum(lengths: seq<nat>): (total: nat) {
    if lengths == [] then 0 else Sum(lengths[..|lengths| - 1]) + lengths[|lengths| - 1] + 1
  }

  function Bytes(job: Job, start: nat, count: nat): nat
    requires start + count <= |job.items|
  {
    Sum(job.base) + Sum(job.items[start..start + count]) + 8 * (|job.base| + count)
  }

  /** How many input lines the items come from. */
  function Lines(job: Job, start: nat, count: nat): (n: nat)
    requires job.Valid() && start + count <= |job.items|
  {
    if count == 0 then 0
    else Lines(job, start, count - 1) + if count == 1 || job.NewLine(start + count - 1) then 1 else 0
  }

  /** The sizes fit the C types, and SIZE_MAX itself is kept for the error. */
  predicate Representable(job: Job, start: nat, count: nat)
    requires start + count <= |job.items|
  {
    |job.base| + count <= INT_MAX && Bytes(job, start, count) < SIZE_MAX
  }

  predicate WithinCounts(job: Job, start: nat, count: nat)
    requires job.Valid() && start + count <= |job.items|
  {
    (job.maxArgs > 0 ==> count <= job.maxArgs) && (job.maxLines > 0 ==> Lines(job, start, count) <= job.maxLines)
  }

  predicate Admissible(job: Job, start: nat, count: nat)
    requires job.Valid() && start + count <= |job.items|
  {
    && WithinCounts(job, start, count)
    && Representable(job, start, count)
    && (job.charLimit > 0 ==> Bytes(job, start, count) <= job.charLimit)
  }

  // ------------------------------------------------- shorter batches stay admissible

  lemma {:induction false} SumOfSlice(lengths: seq<nat>)
    requires lengths != []
    ensures Sum(lengths) == lengths[0] + 1 + Sum(lengths[1..])
  {
    if |lengths| > 1 {
      var front := lengths[..|lengths| - 1];
      SumOfSlice(front);
      assert front[1..] == lengths[1..][..|lengths| - 2];
    }
  }

  lemma SumSnoc(job: Job, start: nat, count: nat)
    requires start + count < |job.items|
    ensures Sum(job.items[start..start + count + 1])
         == Sum(job.items[start..start + count]) + job.items[start + count] + 1
  {
    var more := job.items[start..start + count + 1];
    assert more[..|more| - 1] == job.items[start..start + count];
  }

  lemma {:induction false} FewerItems(job: Job, start: nat, count: nat, less: nat)
    requires job.Valid() && less <= count && start + count <= |job.items|
    ensures Bytes(job, start, less) <= Bytes(job, start, count)
    ensures Lines(job, start, less) <= Lines(job, start, count)
    decreases count - less
  {
    if less < count {
      SumSnoc(job, start, less);
      FewerItems(job, start, count, less + 1);
    }
  }

  lemma {:induction false} LaterLines(job: Job, start: nat, count: nat)
    requires job.Valid() && 0 < count && start + count <= |job.items|
    ensures Lines(job, start + 1, count - 1) <= Lines(job, start, count)
    ensures 1 < count && !job.NewLine(start + 1) ==> Lines(job, start + 1, count - 1) == Lines(job, start, count)
    ensures 1 < count && job.NewLine(start + 1) ==> Lines(job, start + 1, count - 1) + 1 == Lines(job, start, count)
  {
    if count > 1 {
      LaterLines(job, start, count - 1);
    }
  }

  lemma {:induction false} LaterStart(job: Job, start: nat, later: nat, end: nat)
    requires job.Valid() && start <= later <= end <= |job.items|
    ensures Bytes(job, later, end - later) <= Bytes(job, start, end - start)
    ensures Lines(job, later, end - later) <= Lines(job, start, end - start)
    decreases later - start
  {
    if start < later {
      SumOfSlice(job.items[start..end]);
      assert job.items[start..end][1..] == job.items[start + 1..end];
      LaterLines(job, start, end - start);
      LaterStart(job, start + 1, later, end);
    }
  }

  /** Any run of items inside an admissible batch is an admissible batch. */
  lemma PartIsAdmissible(job: Job, start: nat, count: nat, start': nat, count': nat)
    requires job.Valid() && start + count <= |job.items|
    requires Admissible(job, start, count)
    requires start <= start' && start' + count' <= start + count
    ensures Admissible(job, start', count')
  {
    LaterStart(job, start, start', start + count);
    FewerItems(job, start', start + count - start', count');
  }

  // --------------------------------------------------------------------- the code

  /** bx_argv_add_size on one more string. */
  method AddString(total: nat, length: nat) returns (ok: bool, total': nat)
    requires total <= SIZE_MAX && length < SIZE_MAX
    ensures ok == (total + length + 1 <= SIZE_MAX)
    ensures ok ==> total' == total + length + 1
  {
    var bytes := length + 1;
    if bytes > SIZE_MAX - total {
      return false, total;
    }
    return true, total + bytes;
  }

  /** The first loop of bx_argv_bytes_with_items: the command's own arguments. */
  method BaseBytes(job: Job) returns (ok: bool, total: nat)
    requires job.Valid()
    ensures ok == (Sum(job.base) <= SIZE_MAX)
    ensures ok ==> total == Sum(job.base)
  {
    total := 0;
    assert job.base[..0] == [];
    for i := 0 to |job.base|
      invariant total == Sum(job.base[..i]) <= SIZE_MAX
    {
      assert job.base[..i + 1][..i] == job.base[..i];
      ok, total := AddString(total, job.base[i]);
      if !ok {
        SumGrows(job.base, i + 1);
        return;
      }
    }
    assert job.base[..|job.base|] == job.base;
    ok := true;
  }

  /** bx_argv_bytes_with_items; SIZE_MAX is its error value. */
  method BytesWithItems(job: Job, start: nat, count: nat) returns (total: nat)
    requires job.Valid() && start + count <= |job.items|
    ensures total == if Representable(job, start, count) then Bytes(job, start, count) else SIZE_MAX
  {
    var ok;
    ok, total := BaseBytes(job);
    if !ok {
      return SIZE_MAX;
    }
    var argc := |job.base|;
    for i := 0 to count
      invariant argc == |job.base| + i <= INT_MAX
      invariant total == Sum(job.base) + Sum(job.items[start..start + i]) <= SIZE_MAX
    {
      SumSnoc(job, start, i);
      ok, total := AddString(total, job.items[start + i]);
      if !ok || argc == INT_MAX {
        FewerItems(job, start, count, i + 1);
        return SIZE_MAX;
      }
      argc := argc + 1;
    }
    if 8 * argc > SIZE_MAX - total {
      return SIZE_MAX;
    }
    total := total + 8 * argc;
  }

  lemma {:induction false} SumGrows(lengths: seq<nat>, n: nat)
    requires n <= |lengths|
    ensures Sum(lengths[..n]) <= Sum(lengths)
    decreases |lengths| - n
  {
    if n < |lengths| {
      assert lengths[..n + 1][..n] == lengths[..n];
      SumGrows(lengths, n + 1);
    } else {
      assert lengths[..n] == lengths;
    }
  }

  /** The batch cannot be made longer. */
  predicate Maximal(job: Job, start: nat, count: nat)
    requires job.Valid() && start + count <= |job.items|
  {
    Admissible(job, start, count) && (start + count < |job.items| ==> !Admissible(job, start, count + 1))
  }

  /** A batch of count items is fine, and with one more item the size no longer fits its type. */
  predicate OverflowsAt(job: Job, start: nat, count: nat)
    requires job.Valid()
  {
    && start + count < |job.items|
    && (count > 0 ==> Admissible(job, start, count))
    && WithinCounts(job, start, count + 1)
    && !Representable(job, start, count + 1)
  }

  /** bx_argv_select_batch_count: the longest admissible batch from start, or -1. */
  method SelectBatchCount(job: Job, start: int) returns (take: int)
    requires job.Valid()
    ensures take == -1 || (0 < take && 0 <= start && start + take <= |job.items| && Maximal(job, start, take))
    ensures take == -1 <==>
        || start < 0 || start >= |job.items|
        || !Admissible(job, start, 1)
        || exists count :: 0 < count < |job.items| && OverflowsAt(job, start, count)
  {
    if start < 0 || start > |job.items| {
      return -1;
    }
    var cappedArgs := if job.maxArgs > 0 then job.maxArgs else |job.items| - start;
    var cappedLines := if job.maxLines > 0 then job.maxLines else |job.items| - start;
    take := 0;
    var usedLines, lastGroup := 0, -1;
    while start + take < |job.items| && take < cappedArgs
      invariant 0 <= take && start + take <= |job.items| && (job.maxArgs > 0 ==> take <= cappedArgs)
      invariant take > 0 ==> Admissible(job, start, take)
      invariant usedLines == Lines(job, start, take) <= take
      invariant take > 0 ==> lastGroup == if job.lined then job.groups[start + take - 1] else start + take - 1
    {
      var group := if job.lined then job.groups[start + take] else start + take;
      var newGroup := take == 0 || group != lastGroup;
      assert Lines(job, start, take + 1) == usedLines + if newGroup then 1 else 0;
      if newGroup && usedLines >= cappedLines {
        break;
      }
      var bytes := BytesWithItems(job, start, take + 1);
      if bytes == SIZE_MAX {
        Overflow(job, start, take);
        return -1;
      }
      if job.charLimit > 0 && bytes > job.charLimit {
        break;
      }
      take := take + 1;
      if newGroup {
        usedLines := usedLines + 1;
      }
      lastGroup := group;
    }
    if take == 0 {
      return -1;
    }
    NoOverflow(job, start, take);
  }

  lemma Overflow(job: Job, start: nat, take: nat)
    requires job.Valid() && OverflowsAt(job, start, take)
    ensures !Admissible(job, start, 1)
         || exists count :: 0 < count < |job.items| && OverflowsAt(job, start, count)
  {
  }

  lemma NoOverflow(job: Job, start: nat, take: nat)
    requires job.Valid() && 0 < take && start + take <= |job.items| && Admissible(job, start, take)
    requires start + take < |job.items| ==> !Admissible(job, start, take + 1)
    requires start + take < |job.items| ==> !OverflowsAt(job, start, take)
    ensures Admissible(job, start, 1)
    ensures !exists count :: 0 < count < |job.items| && OverflowsAt(job, start, count)
  {
    PartIsAdmissible(job, start, take, start, 1);
    forall count | 0 < count && start + count < |job.items| ensures !OverflowsAt(job, start, count) {
      if count < take {
        PartIsAdmissible(job, start, take, start, count + 1);
      } else if count > take && Admissible(job, start, count) {
        PartIsAdmissible(job, start, count, start, take + 1);
      }
    }
  }

  // ------------------------------------------------------------------ whole lists

  /** Positions 0 = cuts[0] < cuts[1] < ... = |items|: the batches between neighbours are the items in order. */
  ghost predicate Cuts(job: Job, cuts: seq<nat>) {
    && |cuts| > 0 && cuts[0] == 0 && cuts[|cuts| - 1] == |job.items|
    && forall k :: 0 < k < |cuts| ==> cuts[k - 1] < cuts[k] <= |job.items|
  }

  ghost predicate Partition(job: Job, cuts: seq<nat>)
    requires job.Valid()
  {
    Cuts(job, cuts) && forall k :: 0 < k < |cuts| ==> Admissible(job, cuts[k - 1], cuts[k] - cuts[k - 1])
  }

  /** Every batch is the longest one possible where it starts. */
  ghost predicate Greedy(job: Job, cuts: seq<nat>)
    requires job.Valid()
  {
    Cuts(job, cuts) && forall k :: 0 < k < |cuts| ==> Maximal(job, cuts[k - 1], cuts[k] - cuts[k - 1])
  }

  /** The greedy cuts are never behind those of another partition. */
  lemma {:induction false} GreedyStaysAhead(job: Job, greedy: seq<nat>, other: seq<nat>, k: nat)
    requires job.Valid() && Greedy(job, greedy) && Partition(job, other)
    requires k < |greedy| && k < |other|
    ensures other[k] <= greedy[k]
  {
    if k > 0 {
      GreedyStaysAhead(job, greedy, other, k - 1);
      var from := greedy[k - 1];
      assert Maximal(job, from, greedy[k] - from);
      if greedy[k] < other[k] {
        PartIsAdmissible(job, other[k - 1], other[k] - other[k - 1], from, greedy[k] - from + 1);
      }
    }
  }

  /** No partition into admissible batches has fewer batches. */
  lemma GreedyUsesFewest(job: Job, greedy: seq<nat>, other: seq<nat>)
    requires job.Valid() && Greedy(job, greedy) && Partition(job, other)
    ensures |greedy| <= |other|
  {
    if |other| < |greedy| {
      var last := |other| - 1;
      assert greedy[last] < greedy[last + 1];
      GreedyStaysAhead(job, greedy, other, last);
    }
  }

  /** Some batch of a partition covers each position. */
  lemma {:induction false} BatchAround(job: Job, cuts: seq<nat>, position: nat, k: nat) returns (j: nat)
    requires Cuts(job, cuts) && position < |job.items| && k < |cuts| && position < cuts[k]
    ensures 0 < j < |cuts| && cuts[j - 1] <= position < cuts[j]
    decreases k
  {
    if position < cuts[k - 1] {
      j := BatchAround(job, cuts, position, k - 1);
    } else {
      j := k;
    }
  }

  lemma NeverTooBig(job: Job, start: nat, count: nat)
    requires job.Valid() && 0 < count && start < |job.items|
    requires Representable(job, 0, |job.items|)
    ensures !OverflowsAt(job, start, count)
  {
    if start + count < |job.items| {
      LaterStart(job, 0, start, |job.items|);
      FewerItems(job, start, |job.items| - start, count + 1);
    }
  }

  /** When the whole list has a representable size and can be cut at all, no selection fails. */
  lemma NeverStuck(job: Job, other: seq<nat>, start: nat)
    requires job.Valid() && Partition(job, other) && start < |job.items|
    requires Representable(job, 0, |job.items|)
    ensures Admissible(job, start, 1)
    ensures !exists count :: 0 < count < |job.items| && OverflowsAt(job, start, count)
  {
    var j := BatchAround(job, other, start, |other| - 1);
    PartIsAdmissible(job, other[j - 1], other[j] - other[j - 1], start, 1);
    hide OverflowsAt, Representable, Partition;
    forall count | 0 < count < |job.items| ensures !OverflowsAt(job, start, count) {
      NeverTooBig(job, start, count);
    }
  }

  /** Greedy batches up to position i. */
  ghost predicate Packed(job: Job, cuts: seq<nat>, i: nat)
    requires job.Valid()
  {
    && |cuts| > 0 && cuts[0] == 0 && cuts[|cuts| - 1] == i
    && forall k :: 0 < k < |cuts| ==>
         cuts[k - 1] < cuts[k] <= |job.items| && Maximal(job, cuts[k - 1], cuts[k] - cuts[k - 1])
  }

  ghost predicate Packable(job: Job)
    requires job.Valid()
  {
    Representable(job, 0, |job.items|) && exists other :: Partition(job, other)
  }

  lemma PackableIsNeverStuck(job: Job, start: nat)
    requires job.Valid() && start < |job.items| && Packable(job)
    ensures Admissible(job, start, 1)
    ensures !exists count :: 0 < count < |job.items| && OverflowsAt(job, start, count)
  {
    var other :| Partition(job, other);
    NeverStuck(job, other, start);
  }

  lemma PackedToTheEnd(job: Job, cuts: seq<nat>)
    requires job.Valid() && Packed(job, cuts, |job.items|)
    ensures Greedy(job, cuts) && Partition(job, cuts)
    ensures forall other :: Partition(job, other) ==> |cuts| <= |other|
  {
    forall other | Partition(job, other) ensures |cuts| <= |other| {
      GreedyUsesFewest(job, cuts, other);
    }
  }

  lemma OneMoreBatch(job: Job, cuts: seq<nat>, i: nat, take: nat)
    requires job.Valid() && Packed(job, cuts, i)
    requires 0 < take && i + take <= |job.items| && Maximal(job, i, take)
    ensures Packed(job, cuts + [i + take], i + take)
  {
    hide Maximal;
  }

  /** The caller's loop: one batch after the other. It stops early when a selection fails. */
  method PackAll(job: Job) returns (ok: bool, cuts: seq<nat>)
    requires job.Valid()
    ensures ok ==> Greedy(job, cuts) && Partition(job, cuts)
    ensures ok ==> forall other :: Partition(job, other) ==> |cuts| <= |other|
    ensures Packable(job) ==> ok
  {
    var i := 0;
    cuts := [0];
    assert Packed(job, cuts, 0);
    hide Maximal, Packed, Admissible, Partition, Packable;
    while i < |job.items|
      invariant 0 <= i <= |job.items| && Packed(job, cuts, i)
    {
      var take := SelectBatchCount(job, i);
      if take < 0 {
        if Packable(job) {
          PackableIsNeverStuck(job, i);
        }
        return false, cuts;
      }
      OneMoreBatch(job, cuts, i, take);
      i := i + take;
      cuts := cuts + [i];
    }
    ok := true;
    PackedToTheEnd(job, cuts);
  }
}
