/** Standard-stream redirection in a forked child, just before it executes a program. */
module ChildStdio {
  import opened CTypes
  import opened Descriptors
  import opened Wrappers

  const STDERR_FILENO := 2

  /** Which of descriptors 0 to 2 to replace, and by what. */
  datatype Options = Options(enabled: seq<bool>, original: seq<int>, reopenStdinTty: bool)

  predicate ValidOptions(o: Options) {
    |o.enabled| == 3 && |o.original| == 3
  }

  /** Stream i is redirected to a number above the standard ones. */
  predicate FromAbove(o: Options, i: int, fd: int)
    requires ValidOptions(o)
  {
    0 <= i < 3 && o.enabled[i] && o.original[i] == fd && STDERR_FILENO < fd
  }

  predicate IsSourceAbove(o: Options, fd: int)
    requires ValidOptions(o)
  {
    exists i :: 0 <= i < 3 && FromAbove(o, i, fd)
  }

  /**
   * The specification: all redirections happen at once, each reading the table as it
   * was, after a tty has replaced standard input if asked for; sources above 2 end closed.
   */
  function Simultaneous(table: Table, o: Options, tty: nat, fd: int): Option<Descriptor>
    requires ValidOptions(o)
  {
    if 0 <= fd < 3 && o.enabled[fd] then
      if o.original[fd] in table then Some(Descriptor(table[o.original[fd]].file, false)) else None
    else if fd == 0 && o.reopenStdinTty then Some(Descriptor(tty, false))
    else if IsSourceAbove(o, fd) then None
    else Get(table, fd)
  }

  /** Every enabled stream has an open source. */
  predicate SourcesOpen(o: Options, table: Table)
    requires ValidOptions(o)
  {
    forall i :: 0 <= i < 3 && o.enabled[i] ==> o.original[i] in table
  }

  /**
   * What the snapshots of streams 0 to n - 1 look like: sources above 2 stand for
   * themselves, the others have a private duplicate above 2.
   */
  ghost predicate Snapshots(o: Options, before: Table, table: Table, source: seq<int>, n: int)
    requires ValidOptions(o)
  {
    && |source| == 3
    && (forall i :: 0 <= i < 3 && (n <= i || !o.enabled[i]) ==> source[i] < 0)
    && (forall i :: 0 <= i < n <= 3 && o.enabled[i] ==>
         && STDERR_FILENO < source[i]
         && (STDERR_FILENO < o.original[i] ==> source[i] == o.original[i])
         && (o.original[i] <= STDERR_FILENO ==> source[i] !in before)
         && (o.original[i] in before ==>
              Get(table, source[i]).Some? && table[source[i]].file == before[o.original[i]].file))
  }

  /** Numbers the snapshots do not use are as they were. */
  ghost predicate Elsewhere(before: Table, table: Table, source: seq<int>) {
    forall fd :: fd !in source ==> Get(table, fd) == Get(before, fd)
  }

  /** A number free after some snapshots was free before them. */
  lemma Spare(o: Options, before: Table, table: Table, source: seq<int>, n: int, spare: int)
    requires ValidOptions(o) && 0 <= n <= 3
    requires Snapshots(o, before, table, source, n) && Elsewhere(before, table, source)
    requires spare !in table && 0 <= spare
    ensures spare !in before
  {
    if spare in source {
      var j :| 0 <= j < 3 && source[j] == spare;
    } else {
      assert Get(table, spare) == Get(before, spare);
    }
  }

  /** Stream i's own snapshot joins the earlier ones. */
  lemma OneMore(o: Options, before: Table, table: Table, table': Table, source: seq<int>, i: int, value: int)
    requires ValidOptions(o) && 0 <= i < 3 && o.enabled[i] && ValidTable(before) && ValidTable(table)
    requires Snapshots(o, before, table, source, i) && Elsewhere(before, table, source)
    requires if o.original[i] <= STDERR_FILENO then
               && STDERR_FILENO < value && value !in table && o.original[i] in table
               && table' == table[value := Descriptor(table[o.original[i]].file, true)]
             else value == o.original[i] && table' == table
    ensures Snapshots(o, before, table', source[i := value], i + 1)
    ensures Elsewhere(before, table', source[i := value])
  {
    var source' := source[i := value];
    assert forall j :: 0 <= j < 3 && j != i ==> source'[j] == source[j];
    assert source'[i] == value;
    forall fd | fd !in source' ensures Get(table', fd) == Get(before, fd) {
      if fd in source {
        assert fd == source[i];
      }
      assert Get(table, fd) == Get(before, fd);
    }
    if o.original[i] <= STDERR_FILENO {
      Spare(o, before, table, source, i, value);
      assert Get(table, o.original[i]) == Get(before, o.original[i]);
    } else if value in source {
      var j :| 0 <= j < 3 && source[j] == value;
    } else {
      assert Get(table, value) == Get(before, value);
    }
  }

  method DupStdioFd(kernel: Kernel, sourceFd: int, targetFd: int) returns (error: Option<Errno>)
    requires kernel.Valid()
    modifies kernel`table, kernel`faults
    ensures kernel.Valid() && kernel.faults >= old(kernel.faults)
    ensures error.None? ==>
      && sourceFd in old(kernel.table)
      && kernel.table == old(kernel.table)[targetFd := Descriptor(old(kernel.table)[sourceFd].file, false)]
    ensures error.Some? ==> kernel.table == old(kernel.table)
    ensures error.Some? && kernel.faults == old(kernel.faults) ==>
      sourceFd !in kernel.table || !(0 <= targetFd <= INT_MAX)
  {
    if sourceFd < 0 {
      return Some(EBADF);
    }
    if sourceFd == targetFd {
      var flags := kernel.GetCloexec(targetFd);
      if flags.Err? {
        return Some(flags.error);
      }
      var cleared := kernel.SetCloexec(targetFd, false);
      return if cleared.Ok? then None else Some(cleared.error);
    }
    var dup := kernel.Dup2(sourceFd, targetFd);
    return if dup.Ok? then None else Some(dup.error);
  }

  /** No call has failed for reasons of its own and no signal has arrived since the counts were taken. */
  ghost predicate Quiet(faults: nat, interrupts: nat, kernel: Kernel)
    reads kernel`faults, kernel`interrupts
  {
    kernel.faults == faults && kernel.interrupts == interrupts
  }

  /** Give every enabled stream a source number above 2 before anything is replaced. */
  method Snapshot(kernel: Kernel, o: Options) returns (source: seq<int>, error: Option<Errno>, ghost n: int)
    requires kernel.Valid() && ValidOptions(o)
    modifies kernel`table, kernel`interrupts, kernel`faults
    ensures kernel.Valid() && kernel.faults >= old(kernel.faults) && kernel.interrupts <= old(kernel.interrupts)
    ensures
      error.Some? && Quiet(old(kernel.faults), old(kernel.interrupts), kernel) ==>
        !SourcesOpen(o, old(kernel.table))
    ensures 0 <= n <= 3 && (error.None? ==> n == 3)
    ensures Snapshots(o, old(kernel.table), kernel.table, source, n)
    ensures Elsewhere(old(kernel.table), kernel.table, source)
  {
    source := [-1, -1, -1];
    error := None;
    n := 0;
    for i := 0 to 3
      invariant kernel.Valid() && n == i
      invariant kernel.faults >= old(kernel.faults) && kernel.interrupts <= old(kernel.interrupts)
      invariant Snapshots(o, old(kernel.table), kernel.table, source, i)
      invariant Elsewhere(old(kernel.table), kernel.table, source)
    {
      if o.enabled[i] {
        ghost var now, earlier := kernel.table, source;
        if o.original[i] <= STDERR_FILENO {
          assert Get(now, o.original[i]) == Get(old(kernel.table), o.original[i]);
          var dup := kernel.DupCloexecMin(o.original[i], 3);
          if dup.Err? {
            error := Some(dup.error);
            return;
          }
          source := source[i := dup.value];
        } else {
          source := source[i := o.original[i]];
        }
        OneMore(o, old(kernel.table), now, kernel.table, earlier, i, source[i]);
      }
      n := i + 1;
    }
  }

  /** Replace standard input by the terminal. */
  method ReopenTty(kernel: Kernel, tty: nat) returns (error: Option<Errno>)
    requires kernel.Valid()
    modifies kernel`table, kernel`closes, kernel`faults
    ensures kernel.Valid() && kernel.faults >= old(kernel.faults)
    ensures error.Some? ==> kernel.faults > old(kernel.faults)
    ensures error.None? ==> kernel.table == old(kernel.table)[0 := Descriptor(tty, false)]
    ensures forall fd :: fd != 0 ==> Get(kernel.table, fd) == Get(old(kernel.table), fd)
    ensures kernel.closes == old(kernel.closes)
         || exists fd :: fd !in old(kernel.table) && kernel.closes == old(kernel.closes) + [fd]
  {
    var terminal := kernel.OpenCloexec(tty);
    if terminal.Err? {
      return Some(terminal.error);
    }
    error := DupStdioFd(kernel, terminal.value, 0);
    if terminal.value != 0 {
      var _ := kernel.Close(terminal.value);
    }
    assert error.None? ==> kernel.table == old(kernel.table)[0 := Descriptor(tty, false)];
  }

  /** Put the snapshots in place. */
  method Assign(kernel: Kernel, o: Options, source: seq<int>) returns (error: Option<Errno>)
    requires kernel.Valid() && ValidOptions(o) && |source| == 3
    requires forall i :: 0 <= i < 3 && o.enabled[i] ==> STDERR_FILENO < source[i]
    modifies kernel`table, kernel`faults
    ensures kernel.Valid() && kernel.faults >= old(kernel.faults)
    ensures error.Some? && kernel.faults == old(kernel.faults) ==>
      exists i :: 0 <= i < 3 && o.enabled[i] && source[i] !in old(kernel.table)
    ensures forall fd :: !(0 <= fd < 3 && o.enabled[fd]) ==> Get(kernel.table, fd) == Get(old(kernel.table), fd)
    ensures error.None? ==> forall i :: 0 <= i < 3 && o.enabled[i] ==>
      source[i] in old(kernel.table) &&
      Get(kernel.table, i) == Some(Descriptor(old(kernel.table)[source[i]].file, false))
  {
    error := None;
    for i := 0 to 3
      invariant kernel.Valid() && kernel.faults >= old(kernel.faults) && error.None?
      invariant forall fd :: !(0 <= fd < i && o.enabled[fd]) ==> Get(kernel.table, fd) == Get(old(kernel.table), fd)
      invariant forall j :: 0 <= j < i && o.enabled[j] ==>
        source[j] in old(kernel.table) &&
        Get(kernel.table, j) == Some(Descriptor(old(kernel.table)[source[j]].file, false))
    {
      if o.enabled[i] {
        ghost var before := kernel.table;
        assert Get(before, source[i]) == Get(old(kernel.table), source[i]);
        error := DupStdioFd(kernel, source[i], i);
        if error.Some? {
          assert source[i] in kernel.table <==> source[i] in old(kernel.table);
          return;
        }
        forall fd | fd != i ensures Get(kernel.table, fd) == Get(before, fd) {
        }
      }
    }
  }

  /** Close each source once, however many streams share it. */
  method CloseSources(kernel: Kernel, source: seq<int>) returns (ghost closed: seq<int>)
    requires kernel.Valid() && |source| == 3
    modifies kernel`table, kernel`closes, kernel`faults
    ensures kernel.Valid() && kernel.closes == old(kernel.closes) + closed && kernel.faults >= old(kernel.faults)
    ensures forall fd :: Get(kernel.table, fd) ==
              if fd in source && STDERR_FILENO < fd then None else Get(old(kernel.table), fd)
    ensures forall fd :: fd in closed <==> fd in source && STDERR_FILENO < fd
    ensures forall i, j :: 0 <= i < j < |closed| ==> closed[i] != closed[j]
  {
    closed := [];
    for i := 0 to 3
      invariant kernel.Valid() && kernel.closes == old(kernel.closes) + closed && kernel.faults >= old(kernel.faults)
      invariant forall fd :: Get(kernel.table, fd) ==
                  if fd in source[..i] && STDERR_FILENO < fd then None else Get(old(kernel.table), fd)
      invariant forall fd :: fd in closed <==> fd in source[..i] && STDERR_FILENO < fd
      invariant forall k, j :: 0 <= k < j < |closed| ==> closed[k] != closed[j]
    {
      assert source[..i + 1] == source[..i] + [source[i]];
      assert source[i] in source[..i] <==> (1 <= i && source[i] == source[0]) || (2 <= i && source[i] == source[1]);
      if STDERR_FILENO < source[i] && (i < 1 || source[i] != source[0]) && (i < 2 || source[i] != source[1]) {
        var _ := kernel.Close(source[i]);
        closed := closed + [source[i]];
      }
    }
    assert source[..3] == source;
  }

  /** How often fd was closed. */
  function Times(closes: seq<int>, fd: int): nat {
    multiset(closes)[fd]
  }

  lemma {:induction false} DistinctCount(closed: seq<int>, fd: int)
    requires forall i, j :: 0 <= i < j < |closed| ==> closed[i] != closed[j]
    ensures Times(closed, fd) == if fd in closed then 1 else 0
  {
    if closed != [] {
      var n := |closed| - 1;
      DistinctCount(closed[..n], fd);
      assert closed == closed[..n] + [closed[n]];
      assert closed[n] !in closed[..n];
    }
  }

  /** The close calls of a run: the terminal's number, if there was one, and the sources. */
  lemma ClosedOnce(o: Options, before: Table, taken: Table, source: seq<int>, n: int,
                   terminal: seq<int>, closed: seq<int>, fd: int)
    requires ValidOptions(o) && SourcesOpen(o, before) && ValidTable(before) && 0 <= n <= 3
    requires Snapshots(o, before, taken, source, n) && Elsewhere(before, taken, source)
    requires terminal == [] || (|terminal| == 1 && terminal[0] !in taken)
    requires forall x :: x in closed <==> x in source && STDERR_FILENO < x
    requires forall i, j :: 0 <= i < j < |closed| ==> closed[i] != closed[j]
    ensures Times(terminal + closed, fd) <= 1
    ensures fd in closed ==> Times(terminal + closed, fd) == 1
    ensures fd in before && fd in terminal + closed ==> IsSourceAbove(o, fd)
  {
    DistinctCount(closed, fd);
    assert fd !in source ==> Get(taken, fd) == Get(before, fd);
    assert forall i :: 0 <= i < 3 ==> source[i] < 0 || STDERR_FILENO < source[i];
    if fd in closed {
      var i :| 0 <= i < 3 && source[i] == fd;
      assert i < n && o.enabled[i];
      assert fd in taken;
      assert o.original[i] == fd ==> FromAbove(o, i, fd);
    }
  }

  lemma AllClosedOnce(o: Options, before: Table, taken: Table, source: seq<int>, n: int,
                      terminal: seq<int>, closed: seq<int>)
    requires ValidOptions(o) && SourcesOpen(o, before) && ValidTable(before) && 0 <= n <= 3
    requires Snapshots(o, before, taken, source, n) && Elsewhere(before, taken, source)
    requires terminal == [] || (|terminal| == 1 && terminal[0] !in taken)
    requires forall x :: x in closed <==> x in source && STDERR_FILENO < x
    requires forall i, j :: 0 <= i < j < |closed| ==> closed[i] != closed[j]
    ensures forall fd ::
      var times := Times(terminal + closed, fd);
      && times <= 1
      && (fd in closed ==> times == 1)
      && (times == 1 && fd in before ==> IsSourceAbove(o, fd))
  {
    forall fd ensures var times := Times(terminal + closed, fd);
      && times <= 1
      && (fd in closed ==> times == 1)
      && (times == 1 && fd in before ==> IsSourceAbove(o, fd))
    {
      ClosedOnce(o, before, taken, source, n, terminal, closed, fd);
    }
  }

  /** The table after the last step of a successful run, number by number. */
  lemma Redirected(o: Options, tty: nat, before: Table, taken: Table, ready: Table, placed: Table,
                   source: seq<int>, fd: int)
    requires ValidOptions(o) && Snapshots(o, before, taken, source, 3) && Elsewhere(before, taken, source)
    requires ValidTable(before) && ValidTable(taken)
    requires ready == if o.reopenStdinTty then taken[0 := Descriptor(tty, false)] else taken
    requires forall n :: !(0 <= n < 3 && o.enabled[n]) ==> Get(placed, n) == Get(ready, n)
    requires forall i :: 0 <= i < 3 && o.enabled[i] ==>
      source[i] in ready && Get(placed, i) == Some(Descriptor(ready[source[i]].file, false))
    requires 0 <= fd < 3 && o.enabled[fd] ==> o.original[fd] in before
    ensures (if fd in source && STDERR_FILENO < fd then None else Get(placed, fd)) == Simultaneous(before, o, tty, fd)
  {
    if fd <= STDERR_FILENO {
      assert 0 <= fd ==> fd !in source;
      assert fd < 0 ==> fd !in taken && fd !in before;
    } else if fd in source {
      var i :| 0 <= i < 3 && source[i] == fd;
      if !IsSourceAbove(o, fd) {
        assert o.original[i] <= STDERR_FILENO by {
          assert !FromAbove(o, i, fd);
        }
        assert fd !in before;
      }
    }
  }

  /**
   * On success the redirection is a simultaneous assignment, through any swap, cycle or
   * sharing, for every stream whose source was open on entry; on any outcome no number
   * above 2 gains a descriptor. If the sources were open, close is never called twice with
   * a number, of the numbers open on entry only with sources, and on success with each of those;
   * and it fails only if some call does or a signal arrives.
   */
  method RedirectStdio(kernel: Kernel, o: Options, tty: nat) returns (error: Option<Errno>)
    requires kernel.Valid() && ValidOptions(o)
    modifies kernel
    ensures kernel.Valid()
    ensures error.None? ==> forall fd ::
      (0 <= fd < 3 && o.enabled[fd] ==> o.original[fd] in old(kernel.table)) ==>
      Get(kernel.table, fd) == Simultaneous(old(kernel.table), o, tty, fd)
    ensures forall fd :: STDERR_FILENO < fd ==>
      Get(kernel.table, fd) == None || Get(kernel.table, fd) == Get(old(kernel.table), fd)
    ensures old(kernel.closes) <= kernel.closes
    ensures SourcesOpen(o, old(kernel.table)) ==> forall fd ::
      var times := Times(kernel.closes[|old(kernel.closes)|..], fd);
      && times <= 1
      && (times == 1 && fd in old(kernel.table) ==> IsSourceAbove(o, fd))
      && (error.None? && IsSourceAbove(o, fd) ==> times == 1)
    ensures
      SourcesOpen(o, old(kernel.table)) && Quiet(old(kernel.faults), old(kernel.interrupts), kernel) ==>
        error.None?
  {
    hide Simultaneous, Times;
    ghost var before, history := kernel.table, kernel.closes;
    var source;
    ghost var n;
    source, error, n := Snapshot(kernel, o);
    ghost var taken := kernel.table;
    if error.None? && o.reopenStdinTty {
      error := ReopenTty(kernel, tty);
    }
    ghost var ready, terminal := kernel.table, kernel.closes[|history|..];
    assert forall fd :: fd != 0 ==> Get(ready, fd) == Get(taken, fd);
    if error.None? {
      error := Assign(kernel, o, source);
    }
    ghost var placed := kernel.table;
    ghost var closed := CloseSources(kernel, source);
    assert kernel.closes[|history|..] == terminal + closed;

    forall fd | STDERR_FILENO < fd
      ensures Get(kernel.table, fd) == None || Get(kernel.table, fd) == Get(before, fd)
    {
      assert Get(taken, fd) == Get(ready, fd) == Get(placed, fd);
    }
    if error.None? {
      forall fd | IsSourceAbove(o, fd) ensures fd in source && fd in closed {
        var i :| 0 <= i < 3 && FromAbove(o, i, fd);
        assert source[i] == fd;
      }
      forall fd | 0 <= fd < 3 && o.enabled[fd] ==> o.original[fd] in before
        ensures Get(kernel.table, fd) == Simultaneous(before, o, tty, fd)
      {
        Redirected(o, tty, before, taken, ready, placed, source, fd);
      }
    }
    if SourcesOpen(o, before) {
      AllClosedOnce(o, before, taken, source, n, terminal, closed);
    }
  }
}
