/**
 * Nested descriptor transactions: the objects the shell keeps on its call stack,
 * and the save stack that owns every backup descriptor.
 */
module FdTransactions {
  import opened CTypes
  import opened Descriptors
  import opened FdTransactionSpec
  import opened FdTransactionSteps
  import opened Wrappers

  // -------------------------------------------------------------- references

  /** Binary search; -1 stands for the null pointer. */
  method FindRef(refs: seq<Ref>, fd: int) returns (index: int)
    requires SortedRefs(refs)
    ensures -1 <= index < |refs|
    ensures 0 <= index ==> refs[index].fd == fd
    ensures index < 0 <==> !HasRef(refs, fd)
  {
    var first, count := 0, |refs|;
    while count != 0
      invariant 0 <= first <= first + count <= |refs|
      invariant forall r :: 0 <= r < first ==> refs[r].fd < fd
      invariant forall r :: first + count <= r < |refs| ==> fd <= refs[r].fd
    {
      var step := count / 2;
      var middle := first + step;
      if refs[middle].fd < fd {
        first := middle + 1;
        count := count - (step + 1);
      } else {
        count := step;
      }
    }
    if first == |refs| || refs[first].fd != fd {
      return -1;
    }
    return first;
  }

  /** The reference to fd says that it has been saved. */
  predicate IsSaved(refs: seq<Ref>, fd: int) {
    exists r :: 0 <= r < |refs| && refs[r].fd == fd && refs[r].saved
  }

  lemma SavedAt(refs: seq<Ref>, r: nat)
    requires SortedRefs(refs) && r < |refs|
    ensures IsSaved(refs, refs[r].fd) <==> refs[r].saved
  {
  }

  lemma SavedIsNamed(refs: seq<Ref>, fd: int)
    ensures IsSaved(refs, fd) ==> HasRef(refs, fd)
    ensures HasRef(refs, fd) <==> fd in RefSet(refs)
  {
  }

  predicate Ascending(s: seq<int>) {
    forall i, j :: 0 <= i <= j < |s| ==> s[i] <= s[j]
  }

  lemma InsertAscending(left: seq<int>, number: int, right: seq<int>)
    requires Ascending(left) && Ascending(right)
    requires forall i :: 0 <= i < |left| ==> left[i] <= number
    requires forall i :: 0 <= i < |right| ==> number <= right[i]
    ensures Ascending(left + [number] + right)
  {
  }

  lemma SplitAscending(sorted: seq<int>, p: nat, number: int)
    requires Ascending(sorted) && p <= |sorted|
    requires p > 0 ==> sorted[p - 1] <= number
    ensures Ascending(sorted[..p]) && Ascending(sorted[p..])
    ensures forall i :: 0 <= i < |sorted[..p]| ==> sorted[..p][i] <= number
    ensures multiset(sorted) == multiset(sorted[..p]) + multiset(sorted[p..])
  {
    assert sorted == sorted[..p] + sorted[p..];
  }

  method InsertNumber(sorted: seq<int>, number: int) returns (result: seq<int>)
    requires Ascending(sorted)
    ensures Ascending(result)
    ensures multiset(result) == multiset(sorted) + multiset{number}
  {
    var p := |sorted|;
    while p > 0 && sorted[p - 1] > number
      invariant 0 <= p <= |sorted|
      invariant forall i :: p <= i < |sorted| ==> number < sorted[i]
    {
      p := p - 1;
    }
    result := sorted[..p] + [number] + sorted[p..];
    SplitAscending(sorted, p, number);
    InsertAscending(sorted[..p], number, sorted[p..]);
  }

  /** What qsort leaves: the same numbers in ascending order. */
  method SortNumbers(numbers: seq<int>) returns (sorted: seq<int>)
    ensures multiset(sorted) == multiset(numbers)
    ensures Ascending(sorted)
  {
    sorted := [];
    for n := 0 to |numbers|
      invariant multiset(sorted) == multiset(numbers[..n])
      invariant Ascending(sorted)
    {
      assert numbers[..n + 1] == numbers[..n] + [numbers[n]];
      sorted := InsertNumber(sorted, numbers[n]);
    }
    assert numbers[..|numbers|] == numbers;
  }

  /** One reference for each number among the first i. */
  ghost predicate Merged(refs: seq<Ref>, sorted: seq<int>, i: nat) {
    && i <= |sorted| && SortedRefs(refs)
    && (forall r :: 0 <= r < |refs| ==> !refs[r].saved)
    && (forall fd :: HasRef(refs, fd) <==> fd in sorted[..i])
    && (if i == 0 then refs == [] else refs != [] && refs[|refs| - 1].fd == sorted[i - 1])
  }

  lemma MergeStep(refs: seq<Ref>, sorted: seq<int>, i: nat)
    requires Merged(refs, sorted, i) && i < |sorted| && Ascending(sorted) && 0 <= sorted[i]
    ensures Merged(if refs == [] || sorted[i] != refs[|refs| - 1].fd then refs + [Ref(sorted[i], false)] else refs,
                   sorted, i + 1)
  {
    var grown := if refs == [] || sorted[i] != refs[|refs| - 1].fd then refs + [Ref(sorted[i], false)] else refs;
    assert sorted[..i + 1] == sorted[..i] + [sorted[i]];
    assert grown[|grown| - 1].fd == sorted[i];
    forall fd ensures HasRef(grown, fd) <==> fd in sorted[..i + 1] {
      if HasRef(refs, fd) {
        var r :| 0 <= r < |refs| && refs[r].fd == fd;
        assert grown[r].fd == fd;
      }
    }
  }

  /** Equal neighbours share one reference. */
  method MergeEqual(sorted: seq<int>) returns (refs: seq<Ref>)
    requires Ascending(sorted) && forall i :: 0 <= i < |sorted| ==> 0 <= sorted[i]
    ensures SortedRefs(refs)
    ensures forall r :: 0 <= r < |refs| ==> !refs[r].saved
    ensures forall fd :: HasRef(refs, fd) <==> fd in sorted
  {
    refs := [];
    for i := 0 to |sorted|
      invariant Merged(refs, sorted, i)
    {
      MergeStep(refs, sorted, i);
      hide Merged, SortedRefs, HasRef;
      if refs == [] || sorted[i] != refs[|refs| - 1].fd {
        refs := refs + [Ref(sorted[i], false)];
      }
    }
    assert sorted[..|sorted|] == sorted;
  }

  /** Copies, sorts and merges the declared numbers; a negative number is refused. */
  method CopyReferences(kernel: Kernel, numbers: seq<int>) returns (r: Result<seq<Ref>>)
    modifies kernel`faults
    ensures r.Ok? ==>
      && SortedRefs(r.value)
      && (forall i :: 0 <= i < |r.value| ==> !r.value[i].saved)
      && RefSet(r.value) == (set n | n in numbers)
      && (forall n :: n in numbers ==> 0 <= n)
    ensures r.Err? ==>
      || (r.error == ENOMEM && kernel.faults > old(kernel.faults))
      || (r.error == EINVAL && exists n :: n in numbers && n < 0)
    ensures kernel.faults >= old(kernel.faults)
  {
    if numbers != [] {
      var granted := kernel.Allocate();
      if !granted {
        return Err(ENOMEM);
      }
    }
    for i := 0 to |numbers|
      invariant forall j :: 0 <= j < i ==> 0 <= numbers[j]
    {
      if numbers[i] < 0 {
        assert numbers[i] in numbers;
        return Err(EINVAL);
      }
    }
    var sorted := SortNumbers(numbers);
    forall n ensures n in sorted <==> n in numbers {
      assert n in multiset(sorted) <==> n in multiset(numbers);
    }
    forall i | 0 <= i < |sorted| ensures 0 <= sorted[i] {
      assert sorted[i] in numbers;
    }
    var refs := MergeEqual(sorted);
    forall n | n in numbers ensures n in RefSet(refs) {
      assert HasRef(refs, n);
    }
    forall n | n in RefSet(refs) ensures n in numbers {
      assert HasRef(refs, n);
    }
    return Ok(refs);
  }

  /** The copy of refs that also names fd, still sorted. */
  method InsertRef(refs: seq<Ref>, fd: int) returns (result: seq<Ref>)
    requires SortedRefs(refs) && !HasRef(refs, fd) && 0 <= fd
    ensures InsertedRef(refs, fd, result)
    ensures |result| == |refs| + 1
  {
    var source := 0;
    while source < |refs| && refs[source].fd < fd
      invariant source <= |refs|
      invariant forall r :: 0 <= r < source ==> refs[r].fd < fd
    {
      source := source + 1;
    }
    result := refs[..source] + [Ref(fd, false)] + refs[source..];
    assert refs == refs[..source] + refs[source..];
    InsertSorted(refs, fd, source);
  }

  lemma InsertSorted(refs: seq<Ref>, fd: int, source: nat)
    requires SortedRefs(refs) && !HasRef(refs, fd) && 0 <= fd && source <= |refs|
    requires forall r :: 0 <= r < source ==> refs[r].fd < fd
    requires source < |refs| ==> fd <= refs[source].fd
    ensures SortedRefs(refs[..source] + [Ref(fd, false)] + refs[source..])
  {
    forall r | source <= r < |refs| ensures fd < refs[r].fd {
      assert refs[r].fd != fd;
    }
  }

  // ------------------------------------------------------------- transactions

  class FdTransaction {
    var stack: FdTransactionStack?
    var parent: FdTransaction?
    var references: seq<Ref>
    var entryStart: nat
    var nextBackupFd: int

    /** A zeroed transaction: not active. */
    constructor ()
      ensures stack == null
    {
      stack := null;
      parent := null;
      references := [];
      entryStart := 0;
      nextBackupFd := 0;
    }

    /** What an active transaction is going to be. */
    constructor Candidate(stack: FdTransactionStack?, parent: FdTransaction?, references: seq<Ref>, entryStart: nat,
                          nextBackupFd: int)
      ensures this.stack == stack && this.parent == parent && this.references == references
      ensures this.entryStart == entryStart && this.nextBackupFd == nextBackupFd
    {
      this.stack, this.parent, this.references := stack, parent, references;
      this.entryStart, this.nextBackupFd := entryStart, nextBackupFd;
    }

    ghost function AsFrame(): Frame
      reads this
    {
      Frame(references, entryStart, nextBackupFd)
    }

    method Assign(candidate: FdTransaction)
      requires candidate != this
      modifies this
      ensures stack == candidate.stack && parent == candidate.parent && AsFrame() == candidate.AsFrame()
    {
      stack, parent, references := candidate.stack, candidate.parent, candidate.references;
      entryStart, nextBackupFd := candidate.entryStart, candidate.nextBackupFd;
    }

    method Clear()
      modifies this
      ensures stack == null
    {
      stack := null;
      parent := null;
      references := [];
      entryStart := 0;
      nextBackupFd := 0;
    }
  }

  /** Outermost first, each transaction points at the one before it. */
  ghost predicate ParentLinked(chain: seq<FdTransaction>)
    reads chain
  {
    && (chain != [] ==> chain[0].parent == null)
    && (forall i :: 0 < i < |chain| ==> chain[i].parent == chain[i - 1])
  }

  lemma OneMoreFailed(failed: set<nat>, i: nat)
    ensures |failed + {i}| <= |failed| + 1
  {
    if i in failed {
      assert failed + {i} == failed;
    }
  }

  /** What the lists name after fd has been inserted into the one at d. */
  lemma NamedBefore(lists: seq<seq<Ref>>, d: nat, fd: int, refs: seq<Ref>, n: int)
    requires d < |lists| && InsertedRef(lists[d], fd, refs) && Names(lists[d := refs], n)
    ensures n == fd || Names(lists, n)
  {
    var i :| 0 <= i < |lists| && HasRef(lists[d := refs][i], n);
    if i == d {
      InsertedNames(lists[d], fd, refs, n);
    }
  }

  /** The frames of a chain of transactions. */
  ghost function Frames(chain: seq<FdTransaction>): (frames: seq<Frame>)
    reads chain
    ensures |frames| == |chain|
    ensures forall i :: 0 <= i < |chain| ==> frames[i] == chain[i].AsFrame()
  {
    seq(|chain|, i requires 0 <= i < |chain| reads chain => chain[i].AsFrame())
  }

  /** The references of a chain of transactions. */
  ghost function RefLists(chain: seq<FdTransaction>): (lists: seq<seq<Ref>>)
    reads chain
    ensures |lists| == |chain|
    ensures forall i :: 0 <= i < |chain| ==> lists[i] == chain[i].references
  {
    seq(|chain|, i requires 0 <= i < |chain| reads chain => chain[i].references)
  }

  /** Whether some list names fd. */
  predicate Names(lists: seq<seq<Ref>>, fd: int) {
    exists i :: 0 <= i < |lists| && HasRef(lists[i], fd)
  }

  /** t is s after a private duplicate of source was made, or nothing happened but to the minimum. */
  ghost predicate BackedUp(s: FdTransactionSpec.State, t: FdTransactionSpec.State, source: int, next: int,
                           r: Result<int>) {
    && s.frames != []
    && t.frames == s.frames[|s.frames| - 1 := s.frames[|s.frames| - 1].(nextBackup := next)]
    && (r.Err? ==> t.table == s.table)
    && (r.Ok? ==>
         && source in s.table && 0 <= r.value <= INT_MAX && r.value !in s.table
         && t.table == s.table[r.value := Descriptor(s.table[source].file, true)]
         && forall f :: 0 <= f < |s.frames| ==> !HasRef(s.frames[f].refs, r.value))
  }

  lemma NotNamed(frames: seq<Frame>, lists: seq<seq<Ref>>, fd: int)
    requires !Names(lists, fd) && |frames| == |lists|
    requires forall f :: 0 <= f < |frames| ==> frames[f].refs == lists[f]
    ensures forall f :: 0 <= f < |frames| ==> !HasRef(frames[f].refs, fd)
  {
  }

  /** F_DUPFD_CLOEXEC, tried again whenever a signal interrupts it. */
  method DupUninterrupted(kernel: Kernel, source: int, minimum: int) returns (r: Result<int>)
    requires kernel.Valid()
    modifies kernel
    ensures kernel.Valid() && r != Err(EINTR)
    ensures r.Ok? ==>
      && source in old(kernel.table)
      && 0 <= minimum <= r.value <= INT_MAX
      && r.value !in old(kernel.table)
      && kernel.table == old(kernel.table)[r.value := Descriptor(old(kernel.table)[source].file, true)]
    ensures r.Err? ==> kernel.table == old(kernel.table)
    ensures kernel.faults >= old(kernel.faults)
    ensures r.Err? && kernel.faults == old(kernel.faults) ==> source !in kernel.table
  {
    r := kernel.DupCloexecMin(source, minimum);
    while r == Err(EINTR)
      invariant kernel.Valid()
      invariant r.Ok? ==>
        && source in old(kernel.table)
        && 0 <= minimum <= r.value <= INT_MAX
        && r.value !in old(kernel.table)
        && kernel.table == old(kernel.table)[r.value := Descriptor(old(kernel.table)[source].file, true)]
      invariant r.Err? ==> kernel.table == old(kernel.table)
      invariant kernel.faults >= old(kernel.faults)
      invariant r.Err? && kernel.faults == old(kernel.faults) ==> r == Err(EINTR) || source !in kernel.table
      decreases kernel.interrupts, r == Err(EINTR)
    {
      r := kernel.DupCloexecMin(source, minimum);
    }
  }

  /**
   * A close-on-exec duplicate that no transaction of the chain names. A duplicate
   * that collides is closed again after the minimum has moved past it, so the
   * loop ends although nothing else bounds it. Unless a call fails it can only run
   * out of numbers, and only when the last number of all is named.
   */
  method DupPrivate(kernel: Kernel, source: int, transaction: FdTransaction, ghost chain: seq<FdTransaction>)
    returns (r: Result<int>)
    requires kernel.Valid()
    requires chain != [] && chain[|chain| - 1] == transaction && ParentLinked(chain)
    requires forall i :: 0 <= i < |chain| ==> SortedRefs(chain[i].references)
    requires FIRST_BACKUP_FD <= transaction.nextBackupFd <= INT_MAX
    modifies kernel, transaction`nextBackupFd
    ensures kernel.Valid()
    ensures old(transaction.nextBackupFd) <= transaction.nextBackupFd <= INT_MAX
    ensures r.Ok? ==>
      && source in old(kernel.table)
      && FIRST_BACKUP_FD <= r.value <= INT_MAX
      && r.value !in old(kernel.table)
      && kernel.table == old(kernel.table)[r.value := Descriptor(old(kernel.table)[source].file, true)]
      && !Names(old(RefLists(chain)), r.value)
    ensures r.Err? ==> kernel.table == old(kernel.table)
    ensures kernel.faults >= old(kernel.faults)
    ensures r.Err? && kernel.faults == old(kernel.faults) ==>
      source !in kernel.table || Names(old(RefLists(chain)), INT_MAX)
  {
    hide HasRef, SortedRefs, Names;
    while true
      invariant kernel.Valid() && kernel.table == old(kernel.table) && kernel.faults >= old(kernel.faults)
      invariant RefLists(chain) == old(RefLists(chain))
      invariant old(transaction.nextBackupFd) <= transaction.nextBackupFd <= INT_MAX
      decreases INT_MAX - transaction.nextBackupFd
    {
      assert forall i :: 0 <= i < |chain| ==> RefLists(chain)[i] == old(RefLists(chain))[i];
      r := DupUninterrupted(kernel, source, transaction.nextBackupFd);
      if r.Err? {
        return;
      }
      var duplicate := r.value;
      var collision := Collides(transaction, duplicate, chain);
      if duplicate == INT_MAX {
        transaction.nextBackupFd := INT_MAX;
        if !collision {
          return;
        }
        var _ := kernel.Close(duplicate);
        return Err(EMFILE);
      }
      transaction.nextBackupFd := duplicate + 1;
      if !collision {
        return;
      }
      var _ := kernel.Close(duplicate);
    }
  }

  /** Whether fd is named by the transaction or by one it is nested in. */
  method Collides(transaction: FdTransaction, fd: int, ghost chain: seq<FdTransaction>) returns (collision: bool)
    requires chain != [] && chain[|chain| - 1] == transaction && ParentLinked(chain)
    requires forall i :: 0 <= i < |chain| ==> SortedRefs(chain[i].references)
    ensures collision <==> Names(RefLists(chain), fd)
  {
    collision := false;
    var frame: FdTransaction? := transaction;
    ghost var left := |chain|;
    while frame != null
      invariant 0 <= left <= |chain|
      invariant frame == if left == 0 then null else chain[left - 1]
      invariant collision <==> exists i :: left <= i < |chain| && HasRef(chain[i].references, fd)
      decreases left
    {
      var found := FindRef(frame.references, fd);
      collision := collision || 0 <= found;
      frame := frame.parent;
      left := left - 1;
    }
  }

  class FdTransactionStack {
    const kernel: Kernel
    var entries: seq<Entry>
    var entryCapacity: nat
    var active: FdTransaction?
    // The active transactions, outermost first.
    ghost var chain: seq<FdTransaction>

    constructor (kernel: Kernel)
      requires kernel.Valid()
      ensures this.kernel == kernel && Valid() && chain == []
      ensures IdealOf(State()) == Ideal(kernel.table, [])
    {
      this.kernel := kernel;
      entries := [];
      entryCapacity := 0;
      active := null;
      chain := [];
      new;
      NoBackupLeaks(State());
    }

    ghost predicate Linked()
      reads this, chain
    {
      && active == (if chain == [] then null else chain[|chain| - 1])
      && ParentLinked(chain)
      && (forall i :: 0 <= i < |chain| ==> chain[i].stack == this && chain[i].nextBackupFd <= INT_MAX)
      && (forall i, j :: 0 <= i < j < |chain| ==> chain[i] != chain[j])
      && |entries| <= entryCapacity
      && forall i :: 0 <= i < |entries| && 0 <= entries[i].saved ==> entries[i].target <= INT_MAX
    }

    ghost function State(): FdTransactionSpec.State
      reads this, kernel, chain
    {
      FdTransactionSpec.State(kernel.table, entries, Frames(chain))
    }

    ghost predicate Valid()
      reads this, kernel, chain
    {
      Linked() && kernel.Valid() && Inv(State())
    }

    /** An active transaction names the last number there is. */
    ghost predicate LastIsNamed()
      reads this`chain, chain
    {
      Names(RefLists(chain), INT_MAX)
    }

    /** bx_fd_transaction_stack_invariants. */
    method CheckInvariants() returns (sound: bool)
      requires Linked() && kernel.Valid()
      ensures sound <==> Inv(State())
    {
      var frames: seq<Frame> := [];
      var transaction := active;
      ghost var left := |chain|;
      while transaction != null
        invariant 0 <= left <= |chain|
        invariant transaction == if left == 0 then null else chain[left - 1]
        invariant frames == State().frames[left..]
        decreases left
      {
        left := left - 1;
        assert State().frames[left..] == [State().frames[left]] + State().frames[left + 1..];
        frames := [Frame(transaction.references, transaction.entryStart, transaction.nextBackupFd)] + frames;
        transaction := transaction.parent;
      }
      assert FdTransactionSpec.State(kernel.table, entries, frames) == State();
      InvIsTheStackCheck(State());
      return StackCheck(FdTransactionSpec.State(kernel.table, entries, frames));
    }

    /** Open a transaction that may touch the given numbers. */
    method Begin(transaction: FdTransaction, descriptorReferences: seq<int>) returns (r: Result<()>)
      requires Linked() && kernel.Valid()
      modifies this, kernel, transaction
      ensures Linked() && kernel.Valid()
      ensures old(transaction.stack) != null || !old(Inv(State())) || (exists n :: n in descriptorReferences && n < 0)
        ==> r.Err?
      ensures r.Err? ==> chain == old(chain)
      ensures r.Ok? ==> chain == old(chain) + [transaction]
      ensures old(Inv(State())) ==>
        && Inv(State())
        && IdealStep(old(IdealOf(State())), FdTransactionSpec.Op.Begin(set n | n in descriptorReferences),
                     r.Ok?, IdealOf(State()))
      ensures !old(Inv(State())) ==> State() == old(State())
      ensures kernel.faults >= old(kernel.faults)
      ensures r.Err? && kernel.faults == old(kernel.faults) ==>
        || old(transaction.stack) != null || !old(Inv(State())) || (exists n :: n in descriptorReferences && n < 0)
        || INT_MAX in descriptorReferences || old(LastIsNamed())
    {
      hide Inv, IdealOf, HasRef, SortedRefs, RefSet;
      var sound := CheckInvariants();
      if transaction.stack != null || !sound {
        return Err(EINVAL);
      }
      var copied := CopyReferences(kernel, descriptorReferences);
      if copied.Err? {
        return Err(copied.error);
      }
      assert State() == old(State());
      SavedIsNamed(copied.value, INT_MAX);
      r := Push(transaction, copied.value);
    }

    /** Hide the backups from the references, then make the transaction the innermost one. */
    method Push(transaction: FdTransaction, references: seq<Ref>) returns (r: Result<()>)
      requires Valid() && transaction.stack == null
      requires SortedRefs(references) && forall i :: 0 <= i < |references| ==> !references[i].saved
      modifies this, kernel, transaction
      ensures Valid() && chain == if r.Ok? then old(chain) + [transaction] else old(chain)
      ensures IdealStep(old(IdealOf(State())), FdTransactionSpec.Op.Begin(RefSet(references)), r.Ok?, IdealOf(State()))
      ensures kernel.faults >= old(kernel.faults)
      ensures r.Err? && kernel.faults == old(kernel.faults) ==> HasRef(references, INT_MAX) || old(LastIsNamed())
    {
      hide Inv, IdealOf, HasRef, SortedRefs, RefSet;
      var candidate := new FdTransaction.Candidate(this, active, references, |entries|, FIRST_BACKUP_FD);
      assert Frames(chain) == old(Frames(chain));
      assert State() == old(State());

      r := HideBackups(candidate);
      if r.Ok? {
        OpenStep(State(), references, candidate.nextBackupFd);
        Install(transaction, candidate);
      }
    }

    /** The candidate becomes the innermost transaction. */
    method Install(transaction: FdTransaction, candidate: FdTransaction)
      requires Linked() && transaction.stack == null && candidate !in chain && candidate != transaction
      requires candidate.stack == this && candidate.parent == active
      requires candidate.entryStart == |entries| && candidate.nextBackupFd <= INT_MAX
      modifies this`active, this`chain, transaction
      ensures Linked() && chain == old(chain) + [transaction]
      ensures State() == Opened(old(State()), candidate.references, candidate.nextBackupFd)
    {
      assert transaction !in chain;
      transaction.Assign(candidate);
      assert Frames(chain) == old(Frames(chain));
      active := transaction;
      chain := chain + [transaction];
      assert Linked() by {
        hide Frames;
      }
      assert Frames(chain) == old(Frames(chain)) + [transaction.AsFrame()];
    }

    /**
     * Move every backup the candidate names out of its sight. Earlier moves stay
     * when a later one fails: nobody can tell.
     */
    method HideBackups(candidate: FdTransaction) returns (r: Result<()>)
      requires Valid() && candidate !in chain
      requires candidate.parent == active && SortedRefs(candidate.references)
      requires FIRST_BACKUP_FD <= candidate.nextBackupFd <= INT_MAX
      modifies this`entries, kernel, candidate`nextBackupFd
      ensures Valid() && State().frames == old(State().frames) && IdealOf(State()) == old(IdealOf(State()))
      ensures |entries| == old(|entries|)
      ensures FIRST_BACKUP_FD <= candidate.nextBackupFd <= INT_MAX
      ensures r.Ok? ==>
        forall j :: 0 <= j < |entries| && 0 <= entries[j].saved ==> !HasRef(candidate.references, entries[j].saved)
      ensures kernel.faults >= old(kernel.faults)
      ensures r.Err? && kernel.faults == old(kernel.faults) ==> Names(old(RefLists(chain + [candidate])), INT_MAX)
    {
      hide Inv, IdealOf, HasRef, SortedRefs, Names;
      ghost var named := chain + [candidate];
      for i := 0 to |entries|
        invariant |entries| == old(|entries|)
        invariant Valid() && State().frames == old(State().frames) && IdealOf(State()) == old(IdealOf(State()))
        invariant FIRST_BACKUP_FD <= candidate.nextBackupFd <= INT_MAX
        invariant forall j :: 0 <= j < i && 0 <= entries[j].saved ==> !HasRef(candidate.references, entries[j].saved)
        invariant kernel.faults >= old(kernel.faults) && RefLists(named) == old(RefLists(chain + [candidate]))
      {
        var found := FindRef(candidate.references, entries[i].saved);
        if 0 <= entries[i].saved && 0 <= found {
          Extended(candidate);
          r := HideBackup(i, candidate, named);
          if r.Err? {
            return;
          }
        }
      }
      return Ok(());
    }

    /** A candidate on top of the active chain. */
    lemma Extended(candidate: FdTransaction)
      requires Valid() && candidate.parent == active && SortedRefs(candidate.references)
      ensures var named := chain + [candidate];
        && ParentLinked(named)
        && (forall f :: 0 <= f < |named| ==> SortedRefs(named[f].references))
        && (forall f, fd :: 0 <= f < |chain| && HasRef(chain[f].references, fd) ==> Names(RefLists(named), fd))
    {
      hide Inv, SortedRefs, HasRef;
      var named := chain + [candidate];
      FrameBounds(State());
      assert forall f :: 0 <= f < |chain| ==> State().frames[f].refs == chain[f].references;
      forall f, fd | 0 <= f < |chain| && HasRef(chain[f].references, fd) ensures Names(RefLists(named), fd) {
        assert HasRef(RefLists(named)[f], fd);
      }
    }

    /** Move entry i's backup to a number that the named transactions, and so all active ones, do not name. */
    method HideBackup(i: nat, candidate: FdTransaction, ghost named: seq<FdTransaction>) returns (r: Result<()>)
      requires Valid() && candidate !in chain && i < |entries| && 0 <= entries[i].saved
      requires named != [] && named[|named| - 1] == candidate && ParentLinked(named)
      requires forall f :: 0 <= f < |named| ==> SortedRefs(named[f].references)
      requires forall f, fd :: 0 <= f < |chain| && HasRef(chain[f].references, fd) ==> Names(RefLists(named), fd)
      requires FIRST_BACKUP_FD <= candidate.nextBackupFd <= INT_MAX
      modifies this`entries, kernel, candidate`nextBackupFd
      ensures Valid() && State().frames == old(State().frames) && IdealOf(State()) == old(IdealOf(State()))
      ensures FIRST_BACKUP_FD <= candidate.nextBackupFd <= INT_MAX
      ensures r.Err? ==> entries == old(entries)
      ensures r.Ok? ==>
        && |entries| == old(|entries|)
        && entries == old(entries)[i := old(entries)[i].(saved := entries[i].saved)]
        && !HasRef(candidate.references, entries[i].saved)
      ensures kernel.faults >= old(kernel.faults) && RefLists(named) == old(RefLists(named))
      ensures r.Err? && kernel.faults == old(kernel.faults) ==> Names(old(RefLists(named)), INT_MAX)
    {
      hide Inv, IdealOf, HasRef, SortedRefs;
      ghost var s := State();
      ghost var lists := RefLists(named);
      BackupIsOpen(s, i);
      assert lists[|named| - 1] == candidate.references;
      assert forall f :: 0 <= f < |chain| ==> s.frames[f].refs == chain[f].references;
      var duplicate := DupPrivate(kernel, entries[i].saved, candidate, named);
      assert State().frames == s.frames;
      if duplicate.Err? {
        assert State() == s;
        return Err(duplicate.error);
      }
      MoveBackup(i, duplicate.value, s);
      return Ok(());
    }

    /** Entry i's backup has just been duplicated: drop the original number. */
    method MoveBackup(i: nat, duplicate: int, ghost s: FdTransactionSpec.State)
      requires Linked() && kernel.Valid() && Inv(s)
      requires entries == s.entries && i < |s.entries| && 0 <= s.entries[i].saved
      requires 0 <= duplicate <= INT_MAX && duplicate !in s.table
      requires forall f :: 0 <= f < |s.frames| ==> !HasRef(s.frames[f].refs, duplicate)
      requires s.entries[i].saved in s.table
      requires State() == s.(table := s.table[duplicate := Descriptor(s.table[s.entries[i].saved].file, true)])
      modifies this`entries, kernel`table, kernel`closes, kernel`faults
      ensures kernel.faults >= old(kernel.faults)
      ensures Valid() && State().frames == s.frames && IdealOf(State()) == IdealOf(s)
      ensures entries == s.entries[i := s.entries[i].(saved := duplicate)]
    {
      hide Inv, IdealOf;
      BackupIsOpen(s, i);
      var _ := kernel.Close(entries[i].saved);
      entries := entries[i := entries[i].(saved := duplicate)];
      assert State() == Relocated(s, i, duplicate);
      RelocateStep(s, i, duplicate);
    }

    /** The receiver is the transaction's stack; only the innermost transaction may be used. */
    predicate IsInnermost(transaction: FdTransaction)
      reads this, transaction
    {
      transaction.stack == this && active == transaction
    }

    /** Name one more number; a backup that sits on it moves away first. */
    method AddReference(transaction: FdTransaction, fd: int) returns (r: Result<()>)
      requires Valid()
      modifies this, kernel, transaction
      ensures Valid() && chain == old(chain)
      ensures !old(IsInnermost(transaction)) || fd < 0 ==> r == Err(EINVAL)
      ensures IdealStep(old(IdealOf(State())), FdTransactionSpec.Op.AddReference(fd), r.Ok?, IdealOf(State()))
      ensures old(IsInnermost(transaction)) && 0 <= fd && old(HasRef(transaction.references, fd)) ==> r.Ok?
      ensures kernel.faults >= old(kernel.faults)
      ensures old(IsInnermost(transaction)) && 0 <= fd && kernel.faults == old(kernel.faults) ==>
        r.Ok? || fd == INT_MAX || old(LastIsNamed())
    {
      hide Inv, IdealOf, HasRef, SortedRefs;
      if !IsInnermost(transaction) || fd < 0 {
        return Err(EINVAL);
      }
      ghost var d := |chain| - 1;
      FrameBounds(State());
      assert State().frames[d] == transaction.AsFrame();
      var found := FindRef(transaction.references, fd);
      if 0 <= found {
        AlreadyNamed(State(), fd);
        return Ok(());
      }
      r := NameNew(transaction, fd);
    }

    method NameNew(transaction: FdTransaction, fd: int) returns (r: Result<()>)
      requires Valid() && chain != [] && chain[|chain| - 1] == transaction && 0 <= fd
      requires SortedRefs(transaction.references) && !HasRef(transaction.references, fd)
      requires FIRST_BACKUP_FD <= transaction.nextBackupFd <= INT_MAX
      modifies this, kernel, transaction
      ensures Valid() && chain == old(chain)
      ensures IdealStep(old(IdealOf(State())), FdTransactionSpec.Op.AddReference(fd), r.Ok?, IdealOf(State()))
      ensures kernel.faults >= old(kernel.faults)
      ensures r.Err? && kernel.faults == old(kernel.faults) ==> fd == INT_MAX || old(LastIsNamed())
    {
      hide Inv, IdealOf, HasRef, SortedRefs, InsertedRef, Names;
      var granted := kernel.Allocate();
      assert Frames(chain) == old(Frames(chain));
      assert State() == old(State());
      if !granted {
        return Err(ENOMEM);
      }
      r := NameGranted(transaction, fd);
    }

    /** The new list of references, and a backup that sits on the number out of its way. */
    method NameGranted(transaction: FdTransaction, fd: int) returns (r: Result<()>)
      requires Valid() && chain != [] && chain[|chain| - 1] == transaction && 0 <= fd
      requires SortedRefs(transaction.references) && !HasRef(transaction.references, fd)
      requires FIRST_BACKUP_FD <= transaction.nextBackupFd <= INT_MAX
      modifies this, kernel, transaction
      ensures Valid() && chain == old(chain)
      ensures IdealStep(old(IdealOf(State())), FdTransactionSpec.Op.AddReference(fd), r.Ok?, IdealOf(State()))
      ensures kernel.faults >= old(kernel.faults)
      ensures r.Err? && kernel.faults == old(kernel.faults) ==> fd == INT_MAX || old(LastIsNamed())
    {
      hide Inv, IdealOf, HasRef, SortedRefs, InsertedRef, LastIsNamed, ParentLinked;
      var references := InsertRef(transaction.references, fd);
      InsertedIsSorted(transaction.references, fd, references);
      var candidate := new FdTransaction.Candidate(transaction.stack, transaction.parent, references,
                                                   transaction.entryStart, transaction.nextBackupFd);
      assert Frames(chain) == old(Frames(chain));
      assert State() == old(State()) && State().frames[|chain| - 1] == transaction.AsFrame();
      r := FreeNumber(fd, transaction, candidate);
      if r.Ok? {
        NameStep(State(), fd, references, candidate.nextBackupFd);
        Adopt(transaction, candidate);
      }
    }

    /** The entry whose backup sits on fd, or the number of entries. */
    method FindBackup(fd: int) returns (i: nat)
      ensures i <= |entries| && (i < |entries| ==> entries[i].saved == fd)
      ensures i == |entries| ==> forall j :: 0 <= j < |entries| ==> entries[j].saved != fd
    {
      i := 0;
      while i < |entries| && entries[i].saved != fd
        invariant i <= |entries|
        invariant forall j :: 0 <= j < i ==> entries[j].saved != fd
      {
        i := i + 1;
      }
    }

    /** No backup sits on fd afterwards; candidate is transaction with fd named too. */
    method FreeNumber(fd: int, transaction: FdTransaction, candidate: FdTransaction) returns (r: Result<()>)
      requires Valid() && candidate !in chain && chain != [] && chain[|chain| - 1] == transaction
      requires candidate.parent == transaction.parent && SortedRefs(candidate.references)
      requires InsertedRef(transaction.references, fd, candidate.references) && 0 <= fd
      requires FIRST_BACKUP_FD <= candidate.nextBackupFd <= INT_MAX
      modifies this`entries, kernel, candidate`nextBackupFd
      ensures Valid() && State().frames == old(State().frames) && IdealOf(State()) == old(IdealOf(State()))
      ensures FIRST_BACKUP_FD <= candidate.nextBackupFd <= INT_MAX
      ensures r.Ok? ==> forall j :: 0 <= j < |entries| && 0 <= entries[j].saved ==> entries[j].saved != fd
      ensures kernel.faults >= old(kernel.faults)
      ensures r.Err? && kernel.faults == old(kernel.faults) ==> fd == INT_MAX || old(LastIsNamed())
    {
      hide Inv, IdealOf, SortedRefs, HasRef, InsertedRef, Names;
      var i := FindBackup(fd);
      if i == |entries| {
        return Ok(());
      }
      OneBackupEach(State());
      ghost var named := CandidateNames(fd, transaction, candidate);
      ghost var refs := candidate.references;
      if Names(RefLists(chain)[|chain| - 1 := refs], INT_MAX) {
        NamedBefore(RefLists(chain), |chain| - 1, fd, refs, INT_MAX);
      }
      r := HideBackup(i, candidate, named);
    }

    /** The candidate in its transaction's place: it names all the chain did. */
    lemma CandidateNames(fd: int, transaction: FdTransaction, candidate: FdTransaction)
        returns (named: seq<FdTransaction>)
      requires Valid() && candidate !in chain && chain != [] && chain[|chain| - 1] == transaction
      requires candidate.parent == transaction.parent && SortedRefs(candidate.references)
      requires InsertedRef(transaction.references, fd, candidate.references)
      ensures named != [] && named[|named| - 1] == candidate && ParentLinked(named)
      ensures forall f :: 0 <= f < |named| ==> SortedRefs(named[f].references)
      ensures forall f, n :: 0 <= f < |chain| && HasRef(chain[f].references, n) ==> Names(RefLists(named), n)
      ensures RefLists(named) == RefLists(chain)[|chain| - 1 := candidate.references]
      ensures HasRef(candidate.references, fd)
    {
      hide Inv, IdealOf, SortedRefs, InsertedRef;
      var d := |chain| - 1;
      named := chain[..d] + [candidate];
      FrameBounds(State());
      assert forall f :: 0 <= f < |chain| ==> State().frames[f].refs == chain[f].references;
      forall f, n | 0 <= f < |chain| && HasRef(chain[f].references, n) ensures Names(RefLists(named), n) {
        InsertedNames(transaction.references, fd, candidate.references, n);
        assert RefLists(named)[f] == if f < d then chain[f].references else candidate.references;
      }
      InsertedNames(transaction.references, fd, candidate.references, fd);
    }

    /** The innermost transaction takes over the candidate's references and minimum. */
    method Adopt(transaction: FdTransaction, candidate: FdTransaction)
      requires Linked() && chain != [] && chain[|chain| - 1] == transaction && candidate !in chain
      requires candidate.nextBackupFd <= INT_MAX
      modifies transaction`references, transaction`nextBackupFd
      ensures Linked()
      ensures State() == Named(old(State()), candidate.references, candidate.nextBackupFd)
    {
      transaction.references := candidate.references;
      transaction.nextBackupFd := candidate.nextBackupFd;
      ghost var d := |chain| - 1;
      assert Frames(chain) == old(Frames(chain))[d := transaction.AsFrame()];
    }

    /** Room for one more entry. */
    method EntriesReserve() returns (r: Result<()>)
      requires |entries| <= entryCapacity
      modifies this`entryCapacity, kernel`faults
      ensures |entries| <= entryCapacity
      ensures r.Ok? ==> |entries| < entryCapacity
      ensures kernel.faults == old(kernel.faults) + if r.Ok? then 0 else 1
    {
      if |entries| != entryCapacity {
        return Ok(());
      }
      var granted := kernel.Allocate();
      if !granted {
        return Err(ENOMEM);
      }
      entryCapacity := if entryCapacity == 0 then 4 else entryCapacity * 2;
      return Ok(());
    }

    /** Record what the target is now, unless this transaction has already done so. */
    method Save(transaction: FdTransaction, targetFd: int) returns (r: Result<()>)
      requires Valid()
      modifies this, kernel, transaction
      ensures Valid() && chain == old(chain)
      ensures !old(IsInnermost(transaction)) || !old(HasRef(transaction.references, targetFd)) ==> r == Err(EINVAL)
      ensures IdealStep(old(IdealOf(State())), FdTransactionSpec.Op.Save(targetFd), r.Ok?, IdealOf(State()))
      ensures old(IsInnermost(transaction)) && old(IsSaved(transaction.references, targetFd)) ==> r.Ok?
      ensures kernel.faults >= old(kernel.faults)
      ensures old(IsInnermost(transaction)) && old(HasRef(transaction.references, targetFd)) ==>
        (r.Err? && kernel.faults == old(kernel.faults) ==> old(LastIsNamed()))
    {
      hide Inv, IdealOf, SortedRefs, HasRef, IsSaved;
      if !IsInnermost(transaction) {
        return Err(EINVAL);
      }
      ghost var d := |chain| - 1;
      FrameBounds(State());
      assert State().frames[d] == transaction.AsFrame();
      SavedIsNamed(transaction.references, targetFd);
      var reference := FindRef(transaction.references, targetFd);
      if reference < 0 {
        return Err(EINVAL);
      }
      SavedAt(transaction.references, reference);
      if transaction.references[reference].saved {
        AlreadySaved(State(), reference);
        return Ok(());
      }
      r := SaveFirst(transaction, reference);
    }

    method SaveFirst(transaction: FdTransaction, reference: nat) returns (r: Result<()>)
      requires Valid() && IsInnermost(transaction) && chain != []
      requires reference < |transaction.references| && !transaction.references[reference].saved
      modifies this, kernel, transaction
      ensures Valid() && chain == old(chain)
      ensures IdealStep(old(IdealOf(State())), FdTransactionSpec.Op.Save(old(transaction.references)[reference].fd),
                        r.Ok?, IdealOf(State()))
      ensures kernel.faults >= old(kernel.faults)
      ensures r.Err? && kernel.faults == old(kernel.faults) ==> old(LastIsNamed())
    {
      hide Inv, IdealOf, SortedRefs, HasRef, LastIsNamed, ParentLinked;
      var targetFd := transaction.references[reference].fd;
      var room := EntriesReserve();
      assert State() == old(State());
      if room.Err? {
        return Err(room.error);
      }
      var flags := kernel.GetCloexec(targetFd);
      assert State() == old(State());
      if flags.Ok? {
        r := SaveOpen(transaction, reference, flags.value);
        return;
      }
      if flags.error != EBADF {
        return Err(flags.error);
      }
      SaveClosed(transaction, reference);
      return Ok(());
    }

    /** The target is closed: record that. */
    method SaveClosed(transaction: FdTransaction, reference: nat)
      requires Valid() && |entries| < entryCapacity && IsInnermost(transaction) && chain != []
      requires reference < |transaction.references| && !transaction.references[reference].saved
      requires transaction.references[reference].fd !in kernel.table
      modifies this, transaction
      ensures Valid() && chain == old(chain)
      ensures IdealStep(old(IdealOf(State())), FdTransactionSpec.Op.Save(old(transaction.references)[reference].fd),
                        true, IdealOf(State()))
    {
      hide Inv, IdealOf, SortedRefs, HasRef, ParentLinked;
      var entry := Entry(transaction.references[reference].fd, -1, false);
      FrameBounds(State());
      assert State().frames[|chain| - 1] == transaction.AsFrame();
      RecordStep(State(), reference, entry, kernel.table, transaction.nextBackupFd);
      Record(transaction, reference, entry, State());
    }

    /** DupPrivate as the innermost transaction uses it, in terms of the state. */
    method BackUp(source: int, transaction: FdTransaction) returns (r: Result<int>)
      requires Valid() && chain != [] && chain[|chain| - 1] == transaction
      modifies kernel, transaction`nextBackupFd
      ensures Linked() && kernel.Valid()
      ensures FIRST_BACKUP_FD <= transaction.nextBackupFd <= INT_MAX
      ensures BackedUp(old(State()), State(), source, transaction.nextBackupFd, r)
      ensures kernel.faults >= old(kernel.faults)
      ensures r.Err? && kernel.faults == old(kernel.faults) ==> source !in old(kernel.table) || old(LastIsNamed())
    {
      hide Inv, IdealOf, SortedRefs, HasRef, Names;
      ghost var s := State();
      ghost var d := |chain| - 1;
      ghost var lists := RefLists(chain);
      FrameBounds(s);
      assert s.frames[d] == transaction.AsFrame();
      r := DupPrivate(kernel, source, transaction, chain);
      assert Frames(chain) == s.frames[d := s.frames[d].(nextBackup := transaction.nextBackupFd)];
      if r.Ok? {
        NotNamed(s.frames, lists, r.value);
      }
    }

    /** The target is open: back it up. */
    method SaveOpen(transaction: FdTransaction, reference: nat, cloexec: bool) returns (r: Result<()>)
      requires Valid() && |entries| < entryCapacity && IsInnermost(transaction) && chain != []
      requires reference < |transaction.references| && !transaction.references[reference].saved
      requires var fd := transaction.references[reference].fd; fd in kernel.table && cloexec == kernel.table[fd].cloexec
      modifies this, kernel, transaction
      ensures Valid() && chain == old(chain)
      ensures IdealStep(old(IdealOf(State())), FdTransactionSpec.Op.Save(old(transaction.references)[reference].fd),
                        r.Ok?, IdealOf(State()))
      ensures kernel.faults >= old(kernel.faults)
      ensures r.Err? && kernel.faults == old(kernel.faults) ==> old(LastIsNamed())
    {
      hide Inv, IdealOf, SortedRefs, HasRef, BacksUp, ParentLinked;
      ghost var s := State();
      ghost var d := |chain| - 1;
      assert s.frames[d] == transaction.AsFrame();
      var target := transaction.references[reference].fd;
      var duplicate := BackUp(target, transaction);
      if duplicate.Err? {
        AdvanceStep(s, transaction.nextBackupFd);
        assert State() == Named(s, s.frames[d].refs, transaction.nextBackupFd);
        return Err(duplicate.error);
      }
      var entry := Entry(target, duplicate.value, cloexec);
      FreshBackup(s, entry, kernel.table);
      RecordStep(s, reference, entry, kernel.table, transaction.nextBackupFd);
      Record(transaction, reference, entry, s);
      return Ok(());
    }

    /** Append the entry and mark its reference saved; s is the state before the backup was made. */
    method Record(transaction: FdTransaction, reference: nat, entry: Entry, ghost s: FdTransactionSpec.State)
      requires Linked() && |entries| < entryCapacity && IsInnermost(transaction) && chain != []
      requires reference < |transaction.references|
      requires |s.frames| == |chain| && s.entries == entries && (0 <= entry.saved ==> entry.target <= INT_MAX)
      requires State().frames == s.frames[|chain| - 1 := s.frames[|chain| - 1].(nextBackup := transaction.nextBackupFd)]
      modifies this`entries, transaction`references
      ensures Linked()
      ensures State() == Recorded(s, reference, entry, kernel.table, transaction.nextBackupFd)
    {
      ghost var d := |chain| - 1;
      assert State().frames[d] == transaction.AsFrame();
      entries := entries + [entry];
      transaction.references := transaction.references[reference := transaction.references[reference].(saved := true)];
      assert Frames(chain) == old(Frames(chain))[d := transaction.AsFrame()];
    }

    /** Leave the innermost transaction: its entries go, its parent is active again. */
    method Finish(transaction: FdTransaction)
      requires Linked() && IsInnermost(transaction) && chain != [] && transaction.entryStart <= |entries|
      modifies this`entries, this`active, this`chain, transaction
      ensures Linked() && chain == old(chain)[..|old(chain)| - 1]
      ensures !IsInnermost(transaction)
      ensures State() == Closed(old(State()), kernel.table)
    {
      ghost var d := |chain| - 1;
      assert State().frames[d] == transaction.AsFrame();
      entries := entries[..transaction.entryStart];
      active := transaction.parent;
      chain := chain[..d];
      transaction.Clear();
      assert Frames(chain) == old(Frames(chain))[..d];
    }

    /**
     * Put every saved target back, newest first, and end the transaction whatever fails. Each
     * entry that fails takes a failing call, and the others are back at the values saved.
     */
    method Rollback(transaction: FdTransaction) returns (r: Result<()>, ghost failed: set<nat>)
      requires Valid()
      modifies this, kernel, transaction
      ensures Valid()
      ensures !old(IsInnermost(transaction)) ==> r == Err(EINVAL) && chain == old(chain)
      ensures old(IsInnermost(transaction)) ==> chain == old(chain)[..|old(chain)| - 1]
      ensures entries <= old(entries)
      ensures IdealStep(old(IdealOf(State())), FdTransactionSpec.Op.Rollback, r.Ok?, IdealOf(State()))
      ensures old(IsInnermost(transaction)) ==>
        (r.Ok? <==> failed == {}) && |failed| <= kernel.faults - old(kernel.faults)
      ensures old(IsInnermost(transaction)) && kernel.faults == old(kernel.faults) ==> r.Ok?
      ensures old(IsInnermost(transaction)) ==> BackButFor(old(State()), failed, kernel.table)
    {
      hide Inv, IdealOf, SortedRefs, HasRef, IdealStep, RolledBack, ApartFrom, BackButFor;
      failed := {};
      if !IsInnermost(transaction) {
        RefusedRollback(IdealOf(State()));
        return Err(EINVAL), failed;
      }
      ghost var s := State();
      var firstError;
      firstError, failed := RestoreInnermost(transaction);
      assert State() == s.(table := kernel.table);
      RollbackStep(s, kernel.table, failed);
      AllButFailed(s, failed, kernel.table);
      Finish(transaction);
      r := if firstError.Some? then Err(firstError.value) else Ok(());
    }

    /** The innermost transaction's entries are put back, and nothing else is changed. */
    method RestoreInnermost(transaction: FdTransaction) returns (firstError: Option<Errno>, ghost failed: set<nat>)
      requires Valid() && IsInnermost(transaction) && chain != []
      modifies kernel`table, kernel`closes, kernel`faults
      ensures kernel.Valid() && |State().frames| == |chain|
      ensures transaction.entryStart == State().frames[|chain| - 1].start
      ensures RolledBack(old(State()), transaction.entryStart, kernel.table, failed)
      ensures transaction.entryStart <= |entries|
      ensures (firstError.None? <==> failed == {}) && |failed| <= kernel.faults - old(kernel.faults)
    {
      hide Inv, RolledBack, ApartFrom;
      ghost var s := State();
      assert s.frames[|chain| - 1] == transaction.AsFrame();
      InnermostApart(s);
      RollbackStart(s);
      firstError, failed := RestoreAll(s, transaction.entryStart);
    }

    /** The loop of the rollback: the entries from start on, last one first. */
    method RestoreAll(ghost s: FdTransactionSpec.State, start: nat)
        returns (firstError: Option<Errno>, ghost failed: set<nat>)
      requires kernel.Valid() && entries == s.entries && Inv(s)
      requires start <= |entries| && ApartFrom(s.entries, start) && Linked()
      requires RolledBack(s, |entries|, kernel.table, {})
      modifies kernel`table, kernel`closes, kernel`faults
      ensures kernel.Valid() && RolledBack(s, start, kernel.table, failed)
      ensures (firstError.None? <==> failed == {}) && |failed| <= kernel.faults - old(kernel.faults)
    {
      hide Inv, RolledBack, ApartFrom;
      firstError, failed := None, {};
      var i := |entries|;
      while i > start
        invariant start <= i <= |entries|
        invariant kernel.Valid()
        invariant RolledBack(s, i, kernel.table, failed) && (firstError.None? <==> failed == {})
        invariant |failed| <= kernel.faults - old(kernel.faults)
      {
        i := i - 1;
        firstError, failed := Restore(s, start, i, firstError, failed);
      }
    }

    /** One iteration of the rollback: entry i's target, then its backup. */
    method Restore(ghost s: FdTransactionSpec.State, ghost start: nat, i: nat, firstError: Option<Errno>,
                   ghost earlier: set<nat>) returns (error: Option<Errno>, ghost failed: set<nat>)
      requires kernel.Valid() && entries == s.entries && Inv(s)
      requires ApartFrom(s.entries, start) && start <= i < |s.entries|
      requires 0 <= entries[i].saved ==> entries[i].target <= INT_MAX
      requires RolledBack(s, i + 1, kernel.table, earlier) && (firstError.None? <==> earlier == {})
      modifies kernel`table, kernel`closes, kernel`faults
      ensures kernel.Valid()
      ensures RolledBack(s, i, kernel.table, failed) && (error.None? <==> failed == {})
      ensures |failed| - |earlier| <= kernel.faults - old(kernel.faults)
    {
      hide Inv, RolledBack, ApartFrom;
      var entry := entries[i];
      error, failed := firstError, earlier;
      OneMoreFailed(earlier, i);
      ghost var before := kernel.table;
      BackupStillThere(s, start, i, before, earlier);
      if entry.saved < 0 {
        var closed := kernel.Close(entry.target);
        if closed.Err? && closed.error != EBADF {
          failed := failed + {i};
          if error.None? {
            error := Some(closed.error);
          }
        }
        assert kernel.table == PutBack(before, entry, None);
        RollBackEntry(s, start, i, before, earlier, None, failed);
        return;
      }
      var dup := kernel.Dup2(entry.saved, entry.target);
      if dup.Err? {
        failed := failed + {i};
        if error.None? {
          error := Some(dup.error);
        }
      } else {
        var set_ := kernel.SetCloexec(entry.target, entry.cloexec);
        if set_.Err? {
          failed := failed + {i};
          if error.None? {
            error := Some(set_.error);
          }
        }
      }
      ghost var value := Get(kernel.table, entry.target);
      var _ := kernel.Close(entry.saved);
      assert kernel.table == PutBack(before, entry, value);
      RollBackEntry(s, start, i, before, earlier, value, failed);
    }

    /** Keep the changes and drop the backups. */
    method Commit(transaction: FdTransaction) returns (r: Result<()>)
      requires Valid()
      modifies this, kernel, transaction
      ensures Valid()
      ensures r == if old(IsInnermost(transaction)) then Ok(()) else Err(EINVAL)
      ensures chain == if r.Ok? then old(chain)[..|old(chain)| - 1] else old(chain)
      ensures IdealStep(old(IdealOf(State())), FdTransactionSpec.Op.Commit, r.Ok?, IdealOf(State()))
    {
      hide Inv, IdealOf, SortedRefs, HasRef, IdealStep, UnsavedFrom;
      if !IsInnermost(transaction) {
        RefusedCommit(IdealOf(State()));
        return Err(EINVAL);
      }
      ghost var s := State();
      ghost var d := |chain| - 1;
      assert s.frames[d] == transaction.AsFrame();
      FrameEnds(s);
      CloseBackups(transaction.entryStart);
      CommitStep(s, kernel.table);
      Finish(transaction);
      return Ok(());
    }

    /** Close every backup from the given entry on. */
    method CloseBackups(from: nat)
      requires kernel.Valid() && from <= |entries|
      modifies kernel`table, kernel`closes, kernel`faults
      ensures kernel.Valid()
      ensures forall i :: from <= i < |entries| && 0 <= entries[i].saved ==> entries[i].saved !in kernel.table
      ensures forall fd :: UnsavedFrom(entries, from, fd) ==> Get(kernel.table, fd) == Get(old(kernel.table), fd)
    {
      for i := from to |entries|
        invariant kernel.Valid()
        invariant forall j :: from <= j < i && 0 <= entries[j].saved ==> entries[j].saved !in kernel.table
        invariant forall fd :: UnsavedFrom(entries, from, fd) ==> Get(kernel.table, fd) == Get(old(kernel.table), fd)
      {
        if 0 <= entries[i].saved {
          var _ := kernel.Close(entries[i].saved);
        }
      }
    }

    /** Zero every active transaction. */
    method Forget()
      requires Linked()
      modifies this`active, this`chain, chain
      ensures Linked() && chain == [] && active == null
      ensures forall t :: t in old(chain) ==> t.stack == null
    {
      while active != null
        invariant Linked() && chain <= old(chain)
        invariant forall i :: |chain| <= i < |old(chain)| ==> old(chain)[i].stack == null
        decreases |chain|
      {
        var transaction := active;
        active := transaction.parent;
        chain := chain[..|chain| - 1];
        transaction.Clear();
      }
    }

    method CloseAllBackups()
      requires Valid()
      modifies kernel`table, kernel`closes, kernel`faults
      ensures kernel.Valid() && kernel.table == DiscardTable(old(State()))
      ensures var s := FdTransactionSpec.State(kernel.table, [], []);
        Inv(s) && IdealStep(old(IdealOf(State())), FdTransactionSpec.Op.Discard, true, IdealOf(s))
    {
      hide Inv, IdealOf, IdealStep, UnsavedFrom, DiscardTable, ParentLinked;
      ghost var s := State();
      CloseBackups(0);
      DiscardStep(s, kernel.table);
    }

    /** Drop every backup and forget every transaction, restoring nothing. */
    method Discard()
      requires Valid()
      modifies this, kernel, chain
      ensures Valid() && chain == [] && active == null && entries == []
      ensures forall t :: t in old(chain) ==> t.stack == null
      ensures IdealStep(old(IdealOf(State())), FdTransactionSpec.Op.Discard, true, IdealOf(State()))
    {
      hide Inv, IdealOf, IdealStep, DiscardTable, ParentLinked;
      ghost var s := State();
      CloseAllBackups();
      entries := [];
      Forget();
      entryCapacity := 0;
      assert State() == FdTransactionSpec.State(DiscardTable(s), [], []);
    }
  }
}
