/** Each change the library makes to its own state, as a step of the ideal machine. */
module FdTransactionSteps {
  import opened CTypes
  import opened Descriptors
  import opened FdTransactionSpec
  import opened Wrappers

  /** Frame f's saves only read the backups of its own entries. */
  lemma SameSaves(s: State, s': State, f: nat)
    requires Partitioned(s.frames, |s.entries|) && Partitioned(s'.frames, |s'.entries|)
    requires f < |s.frames| && f < |s'.frames|
    requires s.frames[f].start == s'.frames[f].start
    requires End(s.frames, |s.entries|, f) == End(s'.frames, |s'.entries|, f)
    requires forall i :: s.frames[f].start <= i < End(s.frames, |s.entries|, f) ==>
      && s'.entries[i].target == s.entries[i].target
      && Before(s'.table, s'.entries[i]) == Before(s.table, s.entries[i])
    ensures AbsFrame(s', f).saves == AbsFrame(s, f).saves
  {
    var a, b := s.frames[f].start, End(s.frames, |s.entries|, f);
    assert |s.entries[a..b]| == |s'.entries[a..b]|;
    forall i | 0 <= i < b - a
      ensures Saves(s.table, s.entries[a..b])[i] == Saves(s'.table, s'.entries[a..b])[i]
    {
      assert s.entries[a..b][i] == s.entries[a + i] && s'.entries[a..b][i] == s'.entries[a + i];
    }
    assert Saves(s.table, s.entries[a..b]) == Saves(s'.table, s'.entries[a..b]);
  }

  function Relocated(s: State, i: nat, spare: int): State
    requires i < |s.entries| && s.entries[i].saved in s.table
  {
    var moved := s.entries[i].saved;
    s.(table := s.table[spare := Descriptor(s.table[moved].file, true)] - {moved},
       entries := s.entries[i := s.entries[i].(saved := spare)])
  }

  /** A frame's invariant only reads the targets of its own entries. */
  lemma SameTargets(frame: Frame, entries: seq<Entry>, entries': seq<Entry>, end: nat)
    requires frame.start <= end <= |entries| && end <= |entries'|
    requires forall i :: frame.start <= i < end ==> entries'[i].target == entries[i].target
    requires FrameInvariant(frame, entries, end)
    ensures FrameInvariant(frame, entries', end)
  {
    forall r | 0 <= r < |frame.refs|
      ensures frame.refs[r].saved <==> exists i :: frame.start <= i < end && entries'[i].target == frame.refs[r].fd
    {
      if i :| frame.start <= i < end && entries'[i].target == frame.refs[r].fd {
        assert entries[i].target == frame.refs[r].fd;
      }
      if frame.refs[r].saved {
        var i :| frame.start <= i < end && entries[i].target == frame.refs[r].fd;
        assert entries'[i].target == frame.refs[r].fd;
      }
    }
  }

  lemma RelocateKeepsInv(s: State, i: nat, spare: int)
    requires Inv(s) && i < |s.entries| && 0 <= s.entries[i].saved
    requires 0 <= spare <= INT_MAX && spare !in s.table
    requires forall f :: 0 <= f < |s.frames| ==> !HasRef(s.frames[f].refs, spare)
    ensures Inv(Relocated(s, i, spare))
  {
    var s' := Relocated(s, i, spare);
    forall f | 0 <= f < |s.frames|
      ensures FrameInvariant(s'.frames[f], s'.entries, End(s'.frames, |s'.entries|, f))
    {
      SameTargets(s.frames[f], s.entries, s'.entries, End(s.frames, |s.entries|, f));
    }
    assert BackupInvariant(s'.table, s'.entries, s'.frames) by {
      assert forall j :: 0 <= j < |s.entries| ==> s'.entries[j] == if j == i then s'.entries[i] else s.entries[j];
    }
  }

  lemma RelocatedPrivate(entries: seq<Entry>, i: nat, spare: int)
    requires i < |entries| && 0 <= entries[i].saved && 0 <= spare
    requires forall j :: 0 <= j < |entries| && j != i ==> entries[j].saved != entries[i].saved
    ensures Private(entries[i := entries[i].(saved := spare)]) == Private(entries) - {entries[i].saved} + {spare}
  {
    var entries' := entries[i := entries[i].(saved := spare)];
    var moved := entries[i].saved;
    assert entries'[i].saved == spare;
    forall fd | fd in Private(entries) && fd != moved ensures fd in Private(entries') {
      var j :| 0 <= j < |entries| && entries[j].saved == fd;
      assert entries'[j].saved == fd;
    }
    forall fd | fd in Private(entries') && fd != spare ensures fd in Private(entries) - {moved} {
      var j :| 0 <= j < |entries'| && entries'[j].saved == fd;
      assert entries[j].saved == fd;
    }
  }

  /** Moving a backup to a free number is invisible. */
  lemma RelocateIsInvisible(s: State, i: nat, spare: int)
    requires Partitioned(s.frames, |s.entries|) && BackupInvariant(s.table, s.entries, [])
    requires i < |s.entries| && 0 <= s.entries[i].saved
    requires 0 <= spare && spare !in s.table
    ensures Abs(Relocated(s, i, spare)) == Abs(s)
  {
    var s' := Relocated(s, i, spare);
    forall f | 0 <= f < |s.frames| ensures AbsFrame(s', f) == AbsFrame(s, f) {
      SameSaves(s, s', f);
    }
    RelocatedPrivate(s.entries, i, spare);
    assert Visible(s') == Visible(s);
  }

  // ------------------------------------------------------------ opening a frame

  function Opened(s: State, refs: seq<Ref>, nextBackup: int): State {
    s.(frames := s.frames + [Frame(refs, |s.entries|, nextBackup)])
  }

  /** A new frame may name any number that is no backup. */
  lemma OpenKeepsInv(s: State, refs: seq<Ref>, nextBackup: int)
    requires Inv(s) && SortedRefs(refs) && FIRST_BACKUP_FD <= nextBackup <= INT_MAX
    requires forall r :: 0 <= r < |refs| ==> !refs[r].saved
    requires forall i :: 0 <= i < |s.entries| && 0 <= s.entries[i].saved ==> !HasRef(refs, s.entries[i].saved)
    ensures Inv(Opened(s, refs, nextBackup))
  {
    OpenKeepsFrames(s, refs, nextBackup);
    hide Framed, HasRef;
  }

  lemma OpenKeepsFrames(s: State, refs: seq<Ref>, nextBackup: int)
    requires Framed(s.entries, s.frames) && SortedRefs(refs) && FIRST_BACKUP_FD <= nextBackup <= INT_MAX
    requires forall r :: 0 <= r < |refs| ==> !refs[r].saved
    ensures Framed(s.entries, Opened(s, refs, nextBackup).frames)
  {
    var s' := Opened(s, refs, nextBackup);
    assert forall f :: 0 <= f < |s.frames| ==> s'.frames[f] == s.frames[f];
    forall f | 0 <= f < |s'.frames|
      ensures s'.frames[f].start <= End(s'.frames, |s'.entries|, f) <= |s'.entries|
      ensures FrameInvariant(s'.frames[f], s'.entries, End(s'.frames, |s'.entries|, f))
    {
      if f < |s.frames| {
        assert End(s'.frames, |s'.entries|, f) == End(s.frames, |s.entries|, f);
      }
    }
  }

  lemma OpenIsBegin(s: State, refs: seq<Ref>, nextBackup: int)
    requires Partitioned(s.frames, |s.entries|)
    ensures var s' := Opened(s, refs, nextBackup);
      && Partitioned(s'.frames, |s'.entries|)
      && IdealStep(Abs(s), Begin(RefSet(refs)), true, Abs(s'))
  {
    var s' := Opened(s, refs, nextBackup);
    assert forall f :: 0 <= f < |s.frames| ==> s'.frames[f] == s.frames[f];
    forall f | 0 <= f < |s'.frames|
      ensures s'.frames[f].start <= End(s'.frames, |s'.entries|, f) <= |s'.entries|
      ensures f < |s.frames| ==> AbsFrame(s', f) == AbsFrame(s, f)
    {
      if f < |s.frames| {
        assert End(s'.frames, |s'.entries|, f) == End(s.frames, |s.entries|, f);
        SameSaves(s, s', f);
      }
    }
    var d := |s.frames|;
    assert AbsFrame(s', d) == IdealFrame(RefSet(refs), []);
    assert Abs(s').frames == Abs(s).frames + [IdealFrame(RefSet(refs), [])];
  }

  // ---------------------------------------------------------- naming a number

  /** refs' is refs with one more, unsaved, reference. */
  ghost predicate InsertedRef(refs: seq<Ref>, fd: int, refs': seq<Ref>) {
    && SortedRefs(refs')
    && (forall x :: x in refs' <==> x in refs || x == Ref(fd, false))
  }

  function Named(s: State, refs: seq<Ref>, nextBackup: int): State
    requires s.frames != []
  {
    var d := |s.frames| - 1;
    s.(frames := s.frames[d := s.frames[d].(refs := refs, nextBackup := nextBackup)])
  }

  lemma NameKeepsFrames(s: State, fd: int, refs: seq<Ref>, nextBackup: int)
    requires Framed(s.entries, s.frames) && s.frames != [] && FIRST_BACKUP_FD <= nextBackup <= INT_MAX
    requires var top := s.frames[|s.frames| - 1]; !HasRef(top.refs, fd) && InsertedRef(top.refs, fd, refs)
    ensures Framed(s.entries, Named(s, refs, nextBackup).frames)
  {
    var s' := Named(s, refs, nextBackup);
    var d := |s.frames| - 1;
    forall f | 0 <= f < |s'.frames|
      ensures s'.frames[f].start <= End(s'.frames, |s'.entries|, f) <= |s'.entries|
    {
      assert End(s'.frames, |s'.entries|, f) == End(s.frames, |s.entries|, f);
    }
    GrownFrame(s.frames[d], s.entries, fd, refs, nextBackup);
    forall f | 0 <= f < |s'.frames|
      ensures FrameInvariant(s'.frames[f], s'.entries, End(s'.frames, |s'.entries|, f))
    {
      assert FrameInvariant(s.frames[f], s.entries, End(s.frames, |s.entries|, f));
      assert End(s'.frames, |s'.entries|, f) == End(s.frames, |s.entries|, f);
    }
  }

  lemma NameKeepsInv(s: State, fd: int, refs: seq<Ref>, nextBackup: int)
    requires Inv(s) && s.frames != [] && FIRST_BACKUP_FD <= nextBackup <= INT_MAX
    requires var top := s.frames[|s.frames| - 1]; !HasRef(top.refs, fd) && InsertedRef(top.refs, fd, refs)
    requires forall i :: 0 <= i < |s.entries| && 0 <= s.entries[i].saved ==> s.entries[i].saved != fd
    ensures Inv(Named(s, refs, nextBackup))
  {
    NameKeepsFrames(s, fd, refs, nextBackup);
    NameKeepsBackups(s, fd, refs, nextBackup);
  }

  lemma NameKeepsBackups(s: State, fd: int, refs: seq<Ref>, nextBackup: int)
    requires BackupInvariant(s.table, s.entries, s.frames) && s.frames != []
    requires InsertedRef(s.frames[|s.frames| - 1].refs, fd, refs)
    requires forall i :: 0 <= i < |s.entries| && 0 <= s.entries[i].saved ==> s.entries[i].saved != fd
    ensures BackupInvariant(s.table, s.entries, Named(s, refs, nextBackup).frames)
  {
    var s' := Named(s, refs, nextBackup);
    var top := s.frames[|s.frames| - 1];
    forall i, f | 0 <= i < |s'.entries| && 0 <= f < |s'.frames| && 0 <= s'.entries[i].saved
      ensures !HasRef(s'.frames[f].refs, s'.entries[i].saved)
    {
      assert !HasRef(s.frames[f].refs, s.entries[i].saved);
      HasRefIn(refs, s.entries[i].saved);
      HasRefIn(top.refs, s.entries[i].saved);
    }
  }

  lemma HasRefIn(refs: seq<Ref>, fd: int)
    ensures HasRef(refs, fd) <==> exists x :: x in refs && x.fd == fd
  {
    if x :| x in refs && x.fd == fd {
      var r :| 0 <= r < |refs| && refs[r] == x;
      assert refs[r].fd == fd;
    }
    if HasRef(refs, fd) {
      var r :| 0 <= r < |refs| && refs[r].fd == fd;
      assert refs[r] in refs;
    }
  }

  lemma GrownFrame(top: Frame, entries: seq<Entry>, fd: int, refs: seq<Ref>, nextBackup: int)
    requires top.start <= |entries| && FrameInvariant(top, entries, |entries|)
    requires FIRST_BACKUP_FD <= nextBackup <= INT_MAX
    requires !HasRef(top.refs, fd) && InsertedRef(top.refs, fd, refs)
    ensures FrameInvariant(top.(refs := refs, nextBackup := nextBackup), entries, |entries|)
  {
    var end := |entries|;
    forall i | top.start <= i < end ensures HasRef(refs, entries[i].target) {
      HasRefIn(top.refs, entries[i].target);
      HasRefIn(refs, entries[i].target);
    }
    forall r | 0 <= r < |refs|
      ensures refs[r].saved <==> exists i :: top.start <= i < end && entries[i].target == refs[r].fd
    {
      assert refs[r] in refs;
      if refs[r] in top.refs {
        var q :| 0 <= q < |top.refs| && top.refs[q] == refs[r];
      } else {
        assert refs[r] == Ref(fd, false);
      }
    }
  }

  lemma NameIsAddReference(s: State, fd: int, refs: seq<Ref>, nextBackup: int)
    requires Partitioned(s.frames, |s.entries|) && s.frames != []
    requires InsertedRef(s.frames[|s.frames| - 1].refs, fd, refs)
    ensures var s' := Named(s, refs, nextBackup);
      && Partitioned(s'.frames, |s'.entries|)
      && IdealStep(Abs(s), AddReference(fd), true, Abs(s'))
  {
    var s' := Named(s, refs, nextBackup);
    var d := |s.frames| - 1;
    forall f | 0 <= f < |s'.frames|
      ensures s'.frames[f].start <= End(s'.frames, |s'.entries|, f) <= |s'.entries|
      ensures AbsFrame(s', f).saves == AbsFrame(s, f).saves
    {
      assert End(s'.frames, |s'.entries|, f) == End(s.frames, |s.entries|, f);
      SameSaves(s, s', f);
    }
    InsertedRefSet(s.frames[d].refs, fd, refs);
    assert AbsFrame(s', d) == AbsFrame(s, d).(refs := AbsFrame(s, d).refs + {fd});
    assert Abs(s').frames == Abs(s).frames[d := AbsFrame(s, d).(refs := AbsFrame(s, d).refs + {fd})];
  }

  lemma InsertedRefSet(refs: seq<Ref>, fd: int, refs': seq<Ref>)
    requires InsertedRef(refs, fd, refs')
    ensures RefSet(refs') == RefSet(refs) + {fd}
  {
    forall x | x in RefSet(refs) + {fd} ensures x in RefSet(refs') {
      if x == fd {
        assert Ref(fd, false) in refs';
      } else {
        var r :| 0 <= r < |refs| && refs[r].fd == x;
        assert refs[r] in refs;
        assert refs[r] in refs';
      }
    }
    forall x | x in RefSet(refs') ensures x in RefSet(refs) + {fd} {
      var r :| 0 <= r < |refs'| && refs'[r].fd == x;
      assert refs'[r] in refs';
    }
  }

  // ----------------------------------------------------------- saving a target

  /** The top frame's reference r is marked saved and its entry appended; table is the table with the backup. */
  function Recorded(s: State, r: nat, entry: Entry, table: Table, nextBackup: int): State
    requires s.frames != [] && r < |s.frames[|s.frames| - 1].refs|
  {
    var d := |s.frames| - 1;
    var refs := s.frames[d].refs;
    State(table, s.entries + [entry],
          s.frames[d := s.frames[d].(refs := refs[r := refs[r].(saved := true)], nextBackup := nextBackup)])
  }

  /** entry backs up what its target is in table, and table' adds at most that backup. */
  ghost predicate BacksUp(s: State, entry: Entry, table: Table) {
    if entry.saved < 0 then entry.target !in s.table && table == s.table
       else
         && entry.saved <= INT_MAX
         && entry.saved !in s.table && entry.target in s.table
         && entry.cloexec == s.table[entry.target].cloexec
         && table == s.table[entry.saved := Descriptor(s.table[entry.target].file, true)]
         && forall f :: 0 <= f < |s.frames| ==> !HasRef(s.frames[f].refs, entry.saved)
  }

  ghost predicate Recordable(s: State, r: nat, entry: Entry)
  {
    s.frames != [] &&
    var top := s.frames[|s.frames| - 1];
    r < |top.refs| && top.refs[r].fd == entry.target && !top.refs[r].saved
  }

  lemma FreshBackup(s: State, entry: Entry, table: Table)
    requires 0 <= entry.saved <= INT_MAX && entry.saved !in s.table && entry.target in s.table
    requires entry.cloexec == s.table[entry.target].cloexec
    requires table == s.table[entry.saved := Descriptor(s.table[entry.target].file, true)]
    requires forall f :: 0 <= f < |s.frames| ==> !HasRef(s.frames[f].refs, entry.saved)
    ensures BacksUp(s, entry, table)
  {
  }

  lemma RecordKeepsFrames(s: State, r: nat, entry: Entry, table: Table, nextBackup: int)
    requires Framed(s.entries, s.frames) && FIRST_BACKUP_FD <= nextBackup <= INT_MAX
    requires Recordable(s, r, entry)
    ensures var s' := Recorded(s, r, entry, table, nextBackup); Framed(s'.entries, s'.frames)
  {
    var s' := Recorded(s, r, entry, table, nextBackup);
    var d := |s.frames| - 1;
    RecordedFrame(s.frames[d], s.entries, r, entry, nextBackup);
    forall f | 0 <= f < |s'.frames|
      ensures s'.frames[f].start <= End(s'.frames, |s'.entries|, f) <= |s'.entries|
      ensures FrameInvariant(s'.frames[f], s'.entries, End(s'.frames, |s'.entries|, f))
    {
      if f < d {
        assert End(s'.frames, |s'.entries|, f) == End(s.frames, |s.entries|, f);
        SameTargets(s.frames[f], s.entries, s'.entries, End(s.frames, |s.entries|, f));
      }
    }
  }

  lemma RecordKeepsBackups(s: State, r: nat, entry: Entry, table: Table, nextBackup: int)
    requires BackupInvariant(s.table, s.entries, s.frames)
    requires Recordable(s, r, entry) && 0 <= entry.target && BacksUp(s, entry, table)
    ensures var s' := Recorded(s, r, entry, table, nextBackup); BackupInvariant(s'.table, s'.entries, s'.frames)
  {
    var s' := Recorded(s, r, entry, table, nextBackup);
    forall f, fd | 0 <= f < |s.frames| && HasRef(s'.frames[f].refs, fd) ensures HasRef(s.frames[f].refs, fd) {
      var q :| 0 <= q < |s'.frames[f].refs| && s'.frames[f].refs[q].fd == fd;
      assert s.frames[f].refs[q].fd == fd;
    }
    assert forall i :: 0 <= i < |s'.entries| ==> s'.entries[i] == if i < |s.entries| then s.entries[i] else entry;
  }

  lemma RecordKeepsInv(s: State, r: nat, entry: Entry, table: Table, nextBackup: int)
    requires Inv(s) && FIRST_BACKUP_FD <= nextBackup <= INT_MAX
    requires Recordable(s, r, entry) && BacksUp(s, entry, table)
    ensures Inv(Recorded(s, r, entry, table, nextBackup))
  {
    RecordKeepsFrames(s, r, entry, table, nextBackup);
    assert 0 <= entry.target by {
      assert SortedRefs(s.frames[|s.frames| - 1].refs);
    }
    RecordKeepsBackups(s, r, entry, table, nextBackup);
  }

  lemma RecordedFrame(top: Frame, entries: seq<Entry>, r: nat, entry: Entry, nextBackup: int)
    requires top.start <= |entries| && FrameInvariant(top, entries, |entries|)
    requires FIRST_BACKUP_FD <= nextBackup <= INT_MAX
    requires r < |top.refs| && top.refs[r].fd == entry.target && !top.refs[r].saved
    ensures FrameInvariant(top.(refs := top.refs[r := top.refs[r].(saved := true)], nextBackup := nextBackup),
                           entries + [entry], |entries| + 1)
  {
    var refs := top.refs[r := top.refs[r].(saved := true)];
    var entries' := entries + [entry];
    forall i | top.start <= i < |entries'| ensures HasRef(refs, entries'[i].target) {
      if i == |entries| {
        assert refs[r].fd == entry.target;
      } else {
        var q :| 0 <= q < |top.refs| && top.refs[q].fd == entries[i].target;
        assert refs[q].fd == entries[i].target;
      }
    }
    forall q | 0 <= q < |refs|
      ensures refs[q].saved <==> exists i :: top.start <= i < |entries'| && entries'[i].target == refs[q].fd
    {
      assert entries'[|entries|].target == refs[r].fd;
      if refs[q].saved && q != r {
        var i :| top.start <= i < |entries| && entries[i].target == top.refs[q].fd;
        assert entries'[i].target == refs[q].fd;
      }
    }
  }

  lemma RecordedOuter(s: State, r: nat, entry: Entry, table: Table, nextBackup: int, f: nat)
    requires Partitioned(s.frames, |s.entries|) && BackupInvariant(s.table, s.entries, [])
    requires Recordable(s, r, entry) && BacksUp(s, entry, table) && f < |s.frames| - 1
    requires Partitioned(Recorded(s, r, entry, table, nextBackup).frames, |s.entries| + 1)
    ensures AbsFrame(Recorded(s, r, entry, table, nextBackup), f) == AbsFrame(s, f)
  {
    var s' := Recorded(s, r, entry, table, nextBackup);
    assert End(s'.frames, |s'.entries|, f) == End(s.frames, |s.entries|, f);
    SameSaves(s, s', f);
  }

  lemma RecordedVisible(s: State, r: nat, entry: Entry, table: Table, nextBackup: int)
    requires Recordable(s, r, entry) && BacksUp(s, entry, table)
    ensures Visible(Recorded(s, r, entry, table, nextBackup)) == Visible(s)
  {
    var s' := Recorded(s, r, entry, table, nextBackup);
    assert Private(s'.entries) == Private(s.entries) + (if entry.saved < 0 then {} else {entry.saved}) by {
      assert s'.entries[|s.entries|] == entry;
      forall fd | fd in Private(s.entries) ensures fd in Private(s'.entries) {
        var j :| 0 <= j < |s.entries| && s.entries[j].saved == fd;
        assert s'.entries[j].saved == fd;
      }
    }
  }

  /** Before a first save no entry of the frame has its target. */
  lemma FirstSave(top: Frame, entries: seq<Entry>, r: nat)
    requires top.start <= |entries| && FrameInvariant(top, entries, |entries|)
    requires r < |top.refs| && !top.refs[r].saved
    ensures forall i :: top.start <= i < |entries| ==> entries[i].target != top.refs[r].fd
  {
  }

  lemma RecordedTop(s: State, r: nat, entry: Entry, table: Table, nextBackup: int)
    requires Partitioned(s.frames, |s.entries|) && BackupInvariant(s.table, s.entries, s.frames)
    requires Recordable(s, r, entry) && BacksUp(s, entry, table)
    requires Partitioned(Recorded(s, r, entry, table, nextBackup).frames, |s.entries| + 1)
    ensures
      var s' := Recorded(s, r, entry, table, nextBackup);
      var d := |s.frames| - 1;
      && AbsFrame(s', d).refs == AbsFrame(s, d).refs
      && AbsFrame(s', d).saves == AbsFrame(s, d).saves + [Saved(entry.target, Get(Visible(s), entry.target))]
  {
    var s' := Recorded(s, r, entry, table, nextBackup);
    var d := |s.frames| - 1;
    var start := s.frames[d].start;
    var mine := s.entries[start..|s.entries|];
    assert s'.entries[start..|s'.entries|] == mine + [entry];
    assert entry.target !in Private(s.entries) by {
      assert HasRef(s.frames[d].refs, entry.target);
    }
    assert Before(table, entry) == Get(Visible(s), entry.target);
    assert RefSet(s'.frames[d].refs) == RefSet(s.frames[d].refs) by {
      assert forall q :: 0 <= q < |s.frames[d].refs| ==> s'.frames[d].refs[q].fd == s.frames[d].refs[q].fd;
    }
    forall i | 0 <= i < |mine| ensures Before(table, mine[i]) == Before(s.table, mine[i]) {
      assert mine[i] == s.entries[start + i];
    }
    assert Saves(table, mine + [entry]) == Saves(s.table, mine) + [Saved(entry.target, Before(table, entry))];
  }

  lemma RecordedFrames(s: State, r: nat, entry: Entry, table: Table, nextBackup: int)
    requires Partitioned(s.frames, |s.entries|) && BackupInvariant(s.table, s.entries, s.frames)
    requires Recordable(s, r, entry) && BacksUp(s, entry, table)
    requires Partitioned(Recorded(s, r, entry, table, nextBackup).frames, |s.entries| + 1)
    ensures var d := |s.frames| - 1;
      Abs(Recorded(s, r, entry, table, nextBackup)).frames ==
      Abs(s).frames[d := AbsFrame(s, d).(
        saves := AbsFrame(s, d).saves + [Saved(entry.target, Get(Visible(s), entry.target))])]
  {
    var s' := Recorded(s, r, entry, table, nextBackup);
    forall f | 0 <= f < |s.frames| - 1 ensures AbsFrame(s', f) == AbsFrame(s, f) {
      RecordedOuter(s, r, entry, table, nextBackup, f);
    }
    RecordedTop(s, r, entry, table, nextBackup);
  }

  /** Before a first save the ideal frame names its target but has not saved it. */
  lemma NotYetSaved(s: State, r: nat, entry: Entry)
    requires Framed(s.entries, s.frames) && Recordable(s, r, entry)
    ensures var top := AbsFrame(s, |s.frames| - 1);
      entry.target in top.refs && !HasSave(top.saves, entry.target)
  {
    var d := |s.frames| - 1;
    FirstSave(s.frames[d], s.entries, r);
    assert s.frames[d].refs[r].fd == entry.target;
  }

  lemma RecordIsSave(s: State, r: nat, entry: Entry, table: Table, nextBackup: int)
    requires Inv(s) && FIRST_BACKUP_FD <= nextBackup <= INT_MAX
    requires Recordable(s, r, entry) && BacksUp(s, entry, table)
    ensures var s' := Recorded(s, r, entry, table, nextBackup);
      && Partitioned(s'.frames, |s'.entries|)
      && IdealStep(Abs(s), Save(entry.target), true, Abs(s'))
  {
    RecordKeepsFrames(s, r, entry, table, nextBackup);
    RecordedFrames(s, r, entry, table, nextBackup);
    RecordedVisible(s, r, entry, table, nextBackup);
    NotYetSaved(s, r, entry);
  }

  // ------------------------------------------------------------ ending a frame

  /** The state after the innermost frame's entries are released. */
  function Closed(s: State, table: Table): State
    requires s.frames != [] && s.frames[|s.frames| - 1].start <= |s.entries|
  {
    var d := |s.frames| - 1;
    State(table, s.entries[..s.frames[d].start], s.frames[..d])
  }

  /** table keeps the backups of the outer frames and has none of the innermost. */
  ghost predicate Releases(s: State, table: Table)
    requires s.frames != []
  {
    var start := s.frames[|s.frames| - 1].start;
    && ValidTable(table)
    && (forall i :: 0 <= i < start <= |s.entries| && 0 <= s.entries[i].saved ==>
         Get(table, s.entries[i].saved) == Get(s.table, s.entries[i].saved))
    && (forall i :: start <= i < |s.entries| && 0 <= s.entries[i].saved ==> s.entries[i].saved !in table)
  }

  lemma ClosePartition(s: State, table: Table)
    requires Partitioned(s.frames, |s.entries|) && s.frames != []
    ensures var s' := Closed(s, table);
      && Partitioned(s'.frames, |s'.entries|)
      && forall f :: 0 <= f < |s'.frames| ==> End(s'.frames, |s'.entries|, f) == End(s.frames, |s.entries|, f)
  {
    var s' := Closed(s, table);
    forall f | 0 <= f < |s.frames| - 1
      ensures s'.frames[f].start <= End(s'.frames, |s'.entries|, f) <= |s'.entries|
      ensures End(s'.frames, |s'.entries|, f) == End(s.frames, |s.entries|, f)
    {
      CloseEnd(s, table, f);
    }
  }

  lemma CloseEnd(s: State, table: Table, f: nat)
    requires Partitioned(s.frames, |s.entries|) && f + 1 < |s.frames|
    ensures var s' := Closed(s, table);
      && s'.frames[f].start <= End(s'.frames, |s'.entries|, f) <= |s'.entries|
      && End(s'.frames, |s'.entries|, f) == End(s.frames, |s.entries|, f)
  {
    assert s.frames[f].start <= End(s.frames, |s.entries|, f);
    StartsOrdered(s.frames, |s.entries|, f + 1, |s.frames| - 1);
  }

  lemma CloseKeepsFrames(s: State, table: Table)
    requires Framed(s.entries, s.frames) && s.frames != []
    ensures Framed(Closed(s, table).entries, Closed(s, table).frames)
  {
    var s' := Closed(s, table);
    ClosePartition(s, table);
    forall f | 0 <= f < |s'.frames|
      ensures FrameInvariant(s'.frames[f], s'.entries, End(s'.frames, |s'.entries|, f))
    {
      SameTargets(s.frames[f], s.entries, s'.entries, End(s.frames, |s.entries|, f));
    }
  }

  lemma CloseKeepsInv(s: State, table: Table)
    requires Inv(s) && s.frames != [] && Releases(s, table)
    ensures Inv(Closed(s, table))
  {
    CloseKeepsFrames(s, table);
    CloseKeepsBackups(s, table);
  }

  lemma CloseKeepsBackups(s: State, table: Table)
    requires BackupInvariant(s.table, s.entries, s.frames) && s.frames != [] && Releases(s, table)
    requires s.frames[|s.frames| - 1].start <= |s.entries|
    ensures var s' := Closed(s, table); BackupInvariant(table, s'.entries, s'.frames)
  {
    var s' := Closed(s, table);
    forall i | 0 <= i < |s'.entries| && 0 <= s'.entries[i].saved
      ensures s'.entries[i].saved in table && table[s'.entries[i].saved].cloexec
    {
      assert Get(table, s.entries[i].saved) == Get(s.table, s.entries[i].saved);
    }
  }

  lemma {:induction false} StartsOrdered(frames: seq<Frame>, count: nat, f: nat, g: nat)
    requires Partitioned(frames, count) && f <= g < |frames|
    ensures frames[f].start <= frames[g].start
    decreases g - f
  {
    if f < g {
      assert frames[f].start <= End(frames, count, f);
      StartsOrdered(frames, count, f + 1, g);
    }
  }

  /** Ending a frame drops it and keeps the outer saves. */
  lemma CloseDropsFrame(s: State, table: Table)
    requires Partitioned(s.frames, |s.entries|) && s.frames != [] && Releases(s, table)
    ensures var s' := Closed(s, table);
      && Partitioned(s'.frames, |s'.entries|)
      && Abs(s').frames == Abs(s).frames[..|s.frames| - 1]
  {
    ClosePartition(s, table);
    var s' := Closed(s, table);
    var d := |s.frames| - 1;
    forall f | 0 <= f < d ensures AbsFrame(s', f) == AbsFrame(s, f) {
      forall i | s.frames[f].start <= i < End(s.frames, |s.entries|, f)
        ensures Before(table, s'.entries[i]) == Before(s.table, s.entries[i])
      {
        assert s'.entries[i] == s.entries[i];
        if 0 <= s.entries[i].saved {
          assert Get(table, s.entries[i].saved) == Get(s.table, s.entries[i].saved);
        }
      }
      SameSaves(s, s', f);
    }
  }

  /** A number no entry backs up into is as visible after the frame as the table says. */
  lemma CloseVisible(s: State, table: Table, fd: int)
    requires Inv(s) && s.frames != [] && Releases(s, table)
    ensures Get(Visible(Closed(s, table)), fd) == if fd in Private(s.entries) then None else Get(table, fd)
  {
    var s' := Closed(s, table);
    if fd in Private(s.entries) {
      var i :| 0 <= i < |s.entries| && 0 <= s.entries[i].saved && s.entries[i].saved == fd;
      if i < |s'.entries| {
        assert s'.entries[i].saved == fd;
      }
    }
  }

  /** A target of an active frame is never private. */
  lemma TargetIsVisible(s: State, i: nat)
    requires Inv(s) && i < |s.entries|
    ensures s.entries[i].target !in Private(s.entries)
  {
    var f := FrameOf(s.frames, |s.entries|, i);
    assert FrameInvariant(s.frames[f], s.entries, End(s.frames, |s.entries|, f));
    assert HasRef(s.frames[f].refs, s.entries[i].target);
  }

  /** Every entry belongs to a frame. */
  lemma FrameOf(frames: seq<Frame>, count: nat, i: nat) returns (f: nat)
    requires Partitioned(frames, count) && i < count
    ensures f < |frames| && frames[f].start <= i < End(frames, count, f)
  {
    f := 0;
    while End(frames, count, f) <= i
      invariant f < |frames| && frames[f].start <= i
      decreases |frames| - f
    {
      assert frames[f].start <= End(frames, count, f) <= count;
      f := f + 1;
    }
  }

  /** What the invariant says of each frame on its own. */
  lemma FrameBounds(s: State)
    requires Inv(s)
    ensures forall f :: 0 <= f < |s.frames| ==>
      SortedRefs(s.frames[f].refs) && FIRST_BACKUP_FD <= s.frames[f].nextBackup <= INT_MAX
  {
    forall f | 0 <= f < |s.frames|
      ensures SortedRefs(s.frames[f].refs) && FIRST_BACKUP_FD <= s.frames[f].nextBackup <= INT_MAX
    {
      assert FrameInvariant(s.frames[f], s.entries, End(s.frames, |s.entries|, f));
    }
  }

  // ------------------------------------------ each step, from the invariant alone

  /** The ideal state a sound state stands for. */
  function IdealOf(s: State): Ideal
    requires Inv(s)
  {
    Abs(s)
  }

  lemma RelocateStep(s: State, i: nat, spare: int)
    requires Inv(s) && i < |s.entries| && 0 <= s.entries[i].saved && s.entries[i].saved in s.table
    requires 0 <= spare <= INT_MAX && spare !in s.table
    requires forall f :: 0 <= f < |s.frames| ==> !HasRef(s.frames[f].refs, spare)
    ensures Inv(Relocated(s, i, spare)) && IdealOf(Relocated(s, i, spare)) == IdealOf(s)
  {
    RelocateKeepsInv(s, i, spare);
    RelocateIsInvisible(s, i, spare);
  }

  lemma OpenStep(s: State, refs: seq<Ref>, nextBackup: int)
    requires Inv(s) && SortedRefs(refs) && FIRST_BACKUP_FD <= nextBackup <= INT_MAX
    requires forall r :: 0 <= r < |refs| ==> !refs[r].saved
    requires forall i :: 0 <= i < |s.entries| && 0 <= s.entries[i].saved ==> !HasRef(refs, s.entries[i].saved)
    ensures var s' := Opened(s, refs, nextBackup);
      Inv(s') && IdealStep(IdealOf(s), Begin(RefSet(refs)), true, IdealOf(s'))
  {
    OpenKeepsInv(s, refs, nextBackup);
    OpenIsBegin(s, refs, nextBackup);
  }

  lemma NameStep(s: State, fd: int, refs: seq<Ref>, nextBackup: int)
    requires Inv(s) && s.frames != [] && FIRST_BACKUP_FD <= nextBackup <= INT_MAX
    requires var top := s.frames[|s.frames| - 1]; !HasRef(top.refs, fd) && InsertedRef(top.refs, fd, refs)
    requires forall i :: 0 <= i < |s.entries| && 0 <= s.entries[i].saved ==> s.entries[i].saved != fd
    ensures var s' := Named(s, refs, nextBackup);
      Inv(s') && IdealStep(IdealOf(s), AddReference(fd), true, IdealOf(s'))
  {
    NameKeepsInv(s, fd, refs, nextBackup);
    NameIsAddReference(s, fd, refs, nextBackup);
  }

  lemma RecordStep(s: State, r: nat, entry: Entry, table: Table, nextBackup: int)
    requires Inv(s) && FIRST_BACKUP_FD <= nextBackup <= INT_MAX
    requires Recordable(s, r, entry) && BacksUp(s, entry, table)
    ensures var s' := Recorded(s, r, entry, table, nextBackup);
      Inv(s') && IdealStep(IdealOf(s), Save(entry.target), true, IdealOf(s'))
  {
    RecordKeepsInv(s, r, entry, table, nextBackup);
    RecordIsSave(s, r, entry, table, nextBackup);
  }

  lemma AdvancedFrame(frame: Frame, entries: seq<Entry>, end: nat, nextBackup: int)
    requires frame.start <= end <= |entries| && FrameInvariant(frame, entries, end)
    requires FIRST_BACKUP_FD <= nextBackup <= INT_MAX
    ensures FrameInvariant(frame.(nextBackup := nextBackup), entries, end)
  {
    hide SortedRefs, HasRef;
  }

  lemma AdvancedFrames(s: State, nextBackup: int)
    requires Framed(s.entries, s.frames) && s.frames != [] && FIRST_BACKUP_FD <= nextBackup <= INT_MAX
    ensures Framed(s.entries, Named(s, s.frames[|s.frames| - 1].refs, nextBackup).frames)
  {
    hide FrameInvariant;
    var s' := Named(s, s.frames[|s.frames| - 1].refs, nextBackup);
    forall f | 0 <= f < |s'.frames|
      ensures s'.frames[f].start <= End(s'.frames, |s'.entries|, f) <= |s'.entries|
      ensures FrameInvariant(s'.frames[f], s'.entries, End(s'.frames, |s'.entries|, f))
    {
      assert End(s'.frames, |s'.entries|, f) == End(s.frames, |s.entries|, f);
      AdvancedFrame(s.frames[f], s.entries, End(s.frames, |s.entries|, f), nextBackup);
    }
  }

  lemma AdvancedView(s: State, nextBackup: int)
    requires Partitioned(s.frames, |s.entries|) && s.frames != []
    requires Partitioned(Named(s, s.frames[|s.frames| - 1].refs, nextBackup).frames, |s.entries|)
    ensures Abs(Named(s, s.frames[|s.frames| - 1].refs, nextBackup)) == Abs(s)
  {
    var s' := Named(s, s.frames[|s.frames| - 1].refs, nextBackup);
    forall f | 0 <= f < |s'.frames| ensures AbsFrame(s', f) == AbsFrame(s, f) {
      assert End(s'.frames, |s'.entries|, f) == End(s.frames, |s.entries|, f);
      SameSaves(s, s', f);
    }
  }

  /** Advancing the minimum for the next backup is invisible. */
  lemma AdvanceStep(s: State, nextBackup: int)
    requires Inv(s) && s.frames != [] && FIRST_BACKUP_FD <= nextBackup <= INT_MAX
    ensures var s' := Named(s, s.frames[|s.frames| - 1].refs, nextBackup);
      Inv(s') && IdealOf(s') == IdealOf(s)
  {
    var s' := Named(s, s.frames[|s.frames| - 1].refs, nextBackup);
    hide FrameInvariant, BackupInvariant, AbsFrame;
    AdvancedFrames(s, nextBackup);
    AdvancedView(s, nextBackup);
    AdvancedBackups(s.table, s.entries, s.frames, s'.frames);
  }

  lemma AdvancedBackups(table: Table, entries: seq<Entry>, frames: seq<Frame>, frames': seq<Frame>)
    requires BackupInvariant(table, entries, frames) && |frames'| == |frames|
    requires forall f :: 0 <= f < |frames| ==> frames'[f].refs == frames[f].refs
    ensures BackupInvariant(table, entries, frames')
  {
  }

  /** Naming a number twice changes nothing. */
  lemma AlreadyNamed(s: State, fd: int)
    requires Inv(s) && s.frames != [] && HasRef(s.frames[|s.frames| - 1].refs, fd)
    ensures IdealStep(IdealOf(s), AddReference(fd), true, IdealOf(s))
  {
    var d := |s.frames| - 1;
    assert fd in RefSet(s.frames[d].refs);
    assert IdealOf(s).frames[d].refs + {fd} == IdealOf(s).frames[d].refs;
  }

  /** A reference marked saved has its entry. */
  lemma SavedHasEntry(frame: Frame, entries: seq<Entry>, r: nat) returns (i: nat)
    requires frame.start <= |entries| && FrameInvariant(frame, entries, |entries|)
    requires r < |frame.refs| && frame.refs[r].saved
    ensures frame.start <= i < |entries| && entries[i].target == frame.refs[r].fd
  {
    i :| frame.start <= i < |entries| && entries[i].target == frame.refs[r].fd;
  }

  /** Saving a target twice changes nothing. */
  lemma AlreadySaved(s: State, r: nat)
    requires Inv(s) && s.frames != []
    requires r < |s.frames[|s.frames| - 1].refs| && s.frames[|s.frames| - 1].refs[r].saved
    ensures IdealStep(IdealOf(s), Save(s.frames[|s.frames| - 1].refs[r].fd), true, IdealOf(s))
  {
    hide FrameInvariant, BackupInvariant;
    var d := |s.frames| - 1;
    var frame := s.frames[d];
    var i := SavedHasEntry(frame, s.entries, r);
    SaveOfEntry(s, i);
    assert AbsFrame(s, d).saves[i - frame.start].target == frame.refs[r].fd;
  }

  /** A backup of a sound state is open. */
  lemma BackupIsOpen(s: State, i: nat)
    requires Inv(s) && i < |s.entries| && 0 <= s.entries[i].saved
    ensures s.entries[i].saved in s.table
  {
  }

  // ------------------------------------------------------ rollback and commit

  /** No entry from the given one on uses fd. */
  predicate Untouched(entries: seq<Entry>, from: nat, fd: int) {
    forall j :: from <= j < |entries| ==> fd != entries[j].target && (0 <= entries[j].saved ==> fd != entries[j].saved)
  }

  /** What an attempt to restore e may leave at its target, which was now before the attempt. */
  predicate Attempted(table: Table, e: Entry, now: Option<Descriptor>, after: Option<Descriptor>) {
    || after == Before(table, e)
    || after == now
    || (Before(table, e).Some? && after == Some(Before(table, e).value.(cloexec := false)))
  }

  /** table is s.table after the entries from the given one on were rolled back, all but the failed without error. */
  ghost predicate RolledBack(s: State, from: nat, table: Table, failed: set<nat>) {
    && ValidTable(table)
    && (forall j :: from <= j < |s.entries| && 0 <= s.entries[j].saved ==> s.entries[j].saved !in table)
    && (forall j :: from <= j < |s.entries| ==>
         && (j !in failed ==> Get(table, s.entries[j].target) == Before(s.table, s.entries[j]))
         && Attempted(s.table, s.entries[j], Get(s.table, s.entries[j].target), Get(table, s.entries[j].target)))
    && (forall fd :: Untouched(s.entries, from, fd) ==> Get(table, fd) == Get(s.table, fd))
  }

  /** The table after one restore attempt left value at the target and the backup was closed. */
  function PutBack(table: Table, e: Entry, value: Option<Descriptor>): Table {
    (match value case None => table - {e.target} case Some(d) => table[e.target := d])
    - (if 0 <= e.saved then {e.saved} else {})
  }

  /** The entries of one frame share no number. */
  ghost predicate ApartFrom(entries: seq<Entry>, from: nat) {
    && (forall i, j :: from <= i < |entries| && from <= j < |entries| ==> entries[i].saved != entries[j].target)
    && (forall i, j :: from <= j < i < |entries| ==> entries[j].target != entries[i].target)
    && (forall i, j :: from <= j < i < |entries| && 0 <= entries[i].saved ==> entries[j].saved != entries[i].saved)
  }

  lemma InnermostApart(s: State)
    requires Inv(s) && s.frames != []
    ensures ApartFrom(s.entries, s.frames[|s.frames| - 1].start)
  {
    var d := |s.frames| - 1;
    assert FrameInvariant(s.frames[d], s.entries, |s.entries|);
    forall i, j | s.frames[d].start <= i < |s.entries| && s.frames[d].start <= j < |s.entries|
      ensures s.entries[i].saved != s.entries[j].target
    {
      assert HasRef(s.frames[d].refs, s.entries[j].target);
    }
  }

  lemma UntouchedBackup(entries: seq<Entry>, start: nat, i: nat)
    requires ApartFrom(entries, start) && start <= i < |entries| && 0 <= entries[i].saved
    ensures Untouched(entries, i + 1, entries[i].saved)
  {
  }

  lemma UntouchedTarget(entries: seq<Entry>, start: nat, i: nat)
    requires ApartFrom(entries, start) && start <= i < |entries|
    ensures Untouched(entries, i + 1, entries[i].target)
  {
  }

  lemma PutBackAt(table: Table, e: Entry, value: Option<Descriptor>, fd: int)
    requires e.saved != e.target
    ensures Get(PutBack(table, e, value), fd) ==
      if 0 <= e.saved && fd == e.saved then None else if fd == e.target then value else Get(table, fd)
  {
  }

  lemma RollBackEntry(s: State, start: nat, i: nat, table: Table, failed: set<nat>, value: Option<Descriptor>,
                      failed': set<nat>)
    requires ApartFrom(s.entries, start) && start <= i < |s.entries|
    requires 0 <= s.entries[i].target <= INT_MAX || value == None
    requires RolledBack(s, i + 1, table, failed)
    requires Attempted(s.table, s.entries[i], Get(table, s.entries[i].target), value)
    requires failed <= failed' && (i !in failed' ==> value == Before(s.table, s.entries[i]))
    ensures RolledBack(s, i, PutBack(table, s.entries[i], value), failed')
  {
    var e := s.entries[i];
    var after := PutBack(table, e, value);
    UntouchedTarget(s.entries, start, i);
    PutBackAt(table, e, value, e.target);
    forall j | i < j < |s.entries|
      ensures Get(after, s.entries[j].target) == Get(table, s.entries[j].target)
      ensures 0 <= s.entries[j].saved ==> s.entries[j].saved !in after
    {
      PutBackAt(table, e, value, s.entries[j].target);
      PutBackAt(table, e, value, s.entries[j].saved);
    }
    forall fd | Untouched(s.entries, i, fd) ensures Get(after, fd) == Get(s.table, fd) {
      PutBackAt(table, e, value, fd);
      assert Untouched(s.entries, i + 1, fd);
    }
    assert ValidTable(after);
  }

  lemma CloseStep(s: State, table: Table)
    requires Inv(s) && s.frames != [] && Releases(s, table)
    ensures Inv(Closed(s, table))
    ensures IdealOf(Closed(s, table)).frames == IdealOf(s).frames[..|s.frames| - 1]
    ensures IdealOf(Closed(s, table)).visible == Visible(Closed(s, table))
    ensures IdealOf(s).visible == Visible(s)
    ensures Partitioned(s.frames, |s.entries|) && |IdealOf(s).frames| == |s.frames|
    ensures IdealOf(s).frames[|s.frames| - 1] == AbsFrame(s, |s.frames| - 1)
    ensures |AbsFrame(s, |s.frames| - 1).saves| == |s.entries| - s.frames[|s.frames| - 1].start
  {
    CloseKeepsInv(s, table);
    CloseDropsFrame(s, table);
  }

  /** A rolled-back frame may be dropped, and the ideal machine sees a rollback. */
  lemma RollbackStep(s: State, table: Table, failed: set<nat>)
    requires Inv(s) && s.frames != []
    requires RolledBack(s, s.frames[|s.frames| - 1].start, table, failed)
    ensures Inv(Closed(s, table))
    ensures IdealStep(IdealOf(s), Rollback, failed == {}, IdealOf(Closed(s, table)))
  {
    hide Inv, RolledBack, Releases, AbsFrame, Visible;
    RolledBackReleases(s, table, failed);
    CloseStep(s, table);
    var x, y := IdealOf(s), IdealOf(Closed(s, table));
    var d := |s.frames| - 1;
    var saves := x.frames[d].saves;
    forall j | 0 <= j < |saves|
      ensures failed == {} ==> Get(y.visible, saves[j].target) == saves[j].before
      ensures
        || Get(y.visible, saves[j].target) == saves[j].before
        || Get(y.visible, saves[j].target) == Get(x.visible, saves[j].target)
        || (saves[j].before.Some? &&
            Get(y.visible, saves[j].target) == Some(saves[j].before.value.(cloexec := false)))
    {
      RolledBackTarget(s, table, failed, s.frames[d].start + j);
    }
    forall fd | !HasSave(saves, fd) ensures Get(y.visible, fd) == Get(x.visible, fd) {
      RolledBackElsewhere(s, table, failed, fd);
    }
  }

  /** Every target the innermost transaction saved is back at the value saved, but for the failed ones. */
  predicate BackButFor(s: State, failed: set<nat>, table: Table) {
    s.frames != [] && forall i :: s.frames[|s.frames| - 1].start <= i < |s.entries| && i !in failed ==>
      Get(table, s.entries[i].target) == Before(s.table, s.entries[i])
  }

  lemma AllButFailed(s: State, failed: set<nat>, table: Table)
    requires s.frames != [] && RolledBack(s, s.frames[|s.frames| - 1].start, table, failed)
    ensures BackButFor(s, failed, table)
  {
  }

  /** A committed frame is dropped and nothing the user sees changes. */
  lemma CommitStep(s: State, table: Table)
    requires Inv(s) && s.frames != [] && ValidTable(table)
    requires forall i :: s.frames[|s.frames| - 1].start <= i < |s.entries| && 0 <= s.entries[i].saved ==>
      s.entries[i].saved !in table
    requires forall fd :: UnsavedFrom(s.entries, s.frames[|s.frames| - 1].start, fd) ==>
      Get(table, fd) == Get(s.table, fd)
    ensures Inv(Closed(s, table))
    ensures IdealStep(IdealOf(s), Commit, true, IdealOf(Closed(s, table)))
  {
    var start := s.frames[|s.frames| - 1].start;
    forall i | 0 <= i < start && 0 <= s.entries[i].saved
      ensures Get(table, s.entries[i].saved) == Get(s.table, s.entries[i].saved)
    {
      assert UnsavedFrom(s.entries, start, s.entries[i].saved);
    }
    CloseKeepsInv(s, table);
    CloseDropsFrame(s, table);
    forall fd ensures Get(Visible(Closed(s, table)), fd) == Get(Visible(s), fd) {
      CloseVisible(s, table, fd);
      if fd !in Private(s.entries) {
        assert UnsavedFrom(s.entries, start, fd);
      }
    }
    SameTable(Visible(Closed(s, table)), Visible(s));
  }

  /** No entry from the given one on is backed up at fd. */
  predicate UnsavedFrom(entries: seq<Entry>, from: nat, fd: int) {
    forall j :: from <= j < |entries| && 0 <= entries[j].saved ==> fd != entries[j].saved
  }

  /** Entry i of the innermost frame, as the ideal machine lists it. */
  lemma SaveOfEntry(s: State, i: nat)
    requires Partitioned(s.frames, |s.entries|) && s.frames != []
    requires s.frames[|s.frames| - 1].start <= i < |s.entries|
    ensures var d := |s.frames| - 1;
      var saves := AbsFrame(s, d).saves;
      && |saves| == |s.entries| - s.frames[d].start
      && saves[i - s.frames[d].start] == Saved(s.entries[i].target, Before(s.table, s.entries[i]))
  {
    var start := s.frames[|s.frames| - 1].start;
    assert s.entries[start..|s.entries|][i - start] == s.entries[i];
  }

  lemma RolledBackReleases(s: State, table: Table, failed: set<nat>)
    requires Inv(s) && s.frames != []
    requires RolledBack(s, s.frames[|s.frames| - 1].start, table, failed)
    ensures Releases(s, table)
  {
    var d := |s.frames| - 1;
    var start := s.frames[d].start;
    forall i | 0 <= i < start && 0 <= s.entries[i].saved
      ensures Get(table, s.entries[i].saved) == Get(s.table, s.entries[i].saved)
    {
      assert FrameInvariant(s.frames[d], s.entries, |s.entries|);
      assert Untouched(s.entries, start, s.entries[i].saved);
    }
  }

  lemma RolledBackTarget(s: State, table: Table, failed: set<nat>, i: nat)
    requires Inv(s) && s.frames != []
    requires RolledBack(s, s.frames[|s.frames| - 1].start, table, failed)
    requires Releases(s, table)
    requires s.frames[|s.frames| - 1].start <= i < |s.entries|
    ensures
      var d := |s.frames| - 1;
      var e := s.entries[i];
      && AbsFrame(s, d).saves[i - s.frames[d].start] == Saved(e.target, Before(s.table, e))
      && (i !in failed ==> Get(Visible(Closed(s, table)), e.target) == Before(s.table, e))
      && Attempted(s.table, e, Get(Visible(s), e.target), Get(Visible(Closed(s, table)), e.target))
  {
    SaveOfEntry(s, i);
    TargetIsVisible(s, i);
    CloseVisible(s, table, s.entries[i].target);
  }

  lemma RolledBackElsewhere(s: State, table: Table, failed: set<nat>, fd: int)
    requires Inv(s) && s.frames != []
    requires RolledBack(s, s.frames[|s.frames| - 1].start, table, failed)
    requires Releases(s, table)
    requires !HasSave(AbsFrame(s, |s.frames| - 1).saves, fd)
    ensures Get(Visible(Closed(s, table)), fd) == Get(Visible(s), fd)
  {
    hide AbsFrame, HasSave, FrameInvariant, BackupInvariant;
    CloseVisible(s, table, fd);
    if fd !in Private(s.entries) {
      UnsavedIsUntouched(s, fd);
    }
  }

  lemma UnsavedIsUntouched(s: State, fd: int)
    requires Partitioned(s.frames, |s.entries|) && s.frames != [] && fd !in Private(s.entries)
    requires !HasSave(AbsFrame(s, |s.frames| - 1).saves, fd)
    ensures Untouched(s.entries, s.frames[|s.frames| - 1].start, fd)
  {
    var d := |s.frames| - 1;
    var start := s.frames[d].start;
    hide Saves;
    forall j | start <= j < |s.entries| ensures fd != s.entries[j].target {
      SaveOfEntry(s, j);
      assert AbsFrame(s, d).saves[j - start].target == s.entries[j].target;
    }
  }

  /** A refused rollback is no step at all. */
  lemma RefusedRollback(x: Ideal)
    ensures IdealStep(x, Rollback, false, x)
  {
  }

  lemma RefusedCommit(x: Ideal)
    ensures IdealStep(x, Commit, false, x)
  {
  }

  /** Before the first restore everything is as it was. */
  lemma RollbackStart(s: State)
    requires Inv(s) && s.frames != []
    ensures s.frames[|s.frames| - 1].start <= |s.entries|
    ensures RolledBack(s, |s.entries|, s.table, {})
  {
  }

  /** While an entry waits for its restore, its backup is as it was made. */
  lemma BackupStillThere(s: State, start: nat, i: nat, table: Table, failed: set<nat>)
    requires Inv(s) && ApartFrom(s.entries, start) && start <= i < |s.entries|
    requires RolledBack(s, i + 1, table, failed)
    ensures ValidTable(table) && 0 <= s.entries[i].target && s.entries[i].saved != s.entries[i].target
    ensures 0 <= s.entries[i].saved ==>
      && s.entries[i].saved in s.table
      && Get(table, s.entries[i].saved) == Get(s.table, s.entries[i].saved)
  {
    if 0 <= s.entries[i].saved {
      UntouchedBackup(s.entries, start, i);
    }
  }

  lemma FrameEnds(s: State)
    requires Inv(s) && s.frames != []
    ensures s.frames[|s.frames| - 1].start <= |s.entries|
  {
  }

  /** Each backup belongs to one entry. */
  lemma OneBackupEach(s: State)
    requires Inv(s)
    ensures forall i, j :: 0 <= j < i < |s.entries| && 0 <= s.entries[i].saved ==>
      s.entries[j].saved != s.entries[i].saved
  {
  }

  /** The grown list names what the old one did, and fd. */
  lemma InsertedNames(refs: seq<Ref>, fd: int, refs': seq<Ref>, n: int)
    requires InsertedRef(refs, fd, refs')
    ensures HasRef(refs', n) <==> HasRef(refs, n) || n == fd
  {
    HasRefIn(refs, n);
    HasRefIn(refs', n);
    assert Ref(fd, false) in refs';
  }

  lemma InsertedIsSorted(refs: seq<Ref>, fd: int, refs': seq<Ref>)
    requires InsertedRef(refs, fd, refs')
    ensures SortedRefs(refs')
  {
  }

  /** The table without any backup. */
  function DiscardTable(s: State): Table {
    Visible(s)
  }

  lemma DiscardStep(s: State, table: Table)
    requires Inv(s)
    requires forall i :: 0 <= i < |s.entries| && 0 <= s.entries[i].saved ==> s.entries[i].saved !in table
    requires forall fd :: UnsavedFrom(s.entries, 0, fd) ==> Get(table, fd) == Get(s.table, fd)
    ensures table == DiscardTable(s)
    ensures Inv(State(table, [], [])) && IdealStep(IdealOf(s), Discard, true, IdealOf(State(table, [], [])))
  {
    forall fd ensures Get(table, fd) == Get(Visible(s), fd) {
      if fd !in Private(s.entries) {
        assert UnsavedFrom(s.entries, 0, fd);
      }
    }
    SameTable(table, Visible(s));
    NoBackupLeaks(State(table, [], []));
  }

  // --------------------------------------------- the user, and the library's checker

  /** Whatever the user does to numbers that are no backups, the invariant stands and every save with it. */
  lemma UserKeepsInv(s: State, table: Table)
    requires Inv(s) && ValidTable(table)
    requires forall fd :: fd in Private(s.entries) ==> Get(table, fd) == Get(s.table, fd)
    ensures Inv(s.(table := table))
    ensures IdealStep(Abs(s), User, true, Abs(s.(table := table)))
  {
    var s' := s.(table := table);
    forall i | 0 <= i < |s.entries| && 0 <= s.entries[i].saved
      ensures Get(table, s.entries[i].saved) == Get(s.table, s.entries[i].saved)
    {
      assert s.entries[i].saved in Private(s.entries);
    }
    assert BackupInvariant(table, s.entries, s.frames) by {
      forall i | 0 <= i < |s.entries| && 0 <= s.entries[i].saved
        ensures s.entries[i].saved in table && table[s.entries[i].saved].cloexec
      {
        assert Get(table, s.entries[i].saved) == Get(s.table, s.entries[i].saved);
      }
    }
    forall f | 0 <= f < |s.frames| ensures AbsFrame(s', f) == AbsFrame(s, f) {
      SameSaves(s, s', f);
    }
  }

  /** Once every transaction has ended no backup is left: the table is what the user sees. */
  lemma NoBackupLeaks(s: State)
    requires Inv(s) && s.frames == []
    ensures Abs(s) == Ideal(s.table, [])
  {
    assert Private(s.entries) == {};
  }

  lemma TargetIsReferenced(s: State, i: nat)
    requires Framed(s.entries, s.frames) && i < |s.entries|
    ensures exists f :: 0 <= f < |s.frames| && HasRef(s.frames[f].refs, s.entries[i].target)
  {
    var f := FrameOf(s.frames, |s.entries|, i);
    assert FrameInvariant(s.frames[f], s.entries, End(s.frames, |s.entries|, f));
  }

  lemma InvImpliesBackupCheck(s: State, i: nat)
    requires Inv(s) && i < |s.entries|
    ensures BackupCheck(s, i)
  {
    var e := s.entries[i];
    TargetIsReferenced(s, i);
    forall j | 0 <= j < i
      ensures s.entries[j].target != e.saved
      ensures !(0 <= s.entries[j].saved && s.entries[j].saved == e.target)
    {
      TargetIsReferenced(s, j);
    }
  }

  lemma InvImpliesFrameCheck(s: State, f: nat)
    requires Inv(s) && f < |s.frames|
    ensures FrameCheck(s, f)
  {
    var frame, end := s.frames[f], End(s.frames, |s.entries|, f);
    assert FrameInvariant(frame, s.entries, end);
    forall i | frame.start <= i < end ensures BackupCheck(s, i) {
      InvImpliesBackupCheck(s, i);
    }
    hide BackupCheck, BackupInvariant;
    forall i | frame.start <= i < end ensures HasSavedRef(frame.refs, s.entries[i].target) {
      var r :| 0 <= r < |frame.refs| && frame.refs[r].fd == s.entries[i].target;
      assert frame.refs[r].saved;
    }
  }

  /** The invariant proved here is the one bx_fd_transaction_stack_invariants tests. */
  lemma InvIsTheStackCheck(s: State)
    requires ValidTable(s.table)
    requires forall f :: 0 <= f < |s.frames| ==> s.frames[f].nextBackup <= INT_MAX
    ensures Inv(s) <==> StackCheck(s)
  {
    if Inv(s) {
      forall f | 0 <= f < |s.frames| ensures FrameCheck(s, f) {
        InvImpliesFrameCheck(s, f);
      }
    }
    if StackCheck(s) {
      forall f | 0 <= f < |s.frames| ensures FrameInvariant(s.frames[f], s.entries, End(s.frames, |s.entries|, f)) {
        assert FrameCheck(s, f);
      }
      StackCheckImpliesBackups(s);
    }
  }

  lemma StackCheckImpliesBackups(s: State)
    requires StackCheck(s)
    ensures BackupInvariant(s.table, s.entries, s.frames)
  {
    forall i | 0 <= i < |s.entries|
      ensures 0 <= s.entries[i].target
      ensures 0 <= s.entries[i].saved ==> s.entries[i].saved in s.table && s.table[s.entries[i].saved].cloexec
      ensures 0 <= s.entries[i].saved ==> forall j :: 0 <= j < i ==> s.entries[j].saved != s.entries[i].saved
      ensures 0 <= s.entries[i].saved ==>
        forall f :: 0 <= f < |s.frames| ==> !HasRef(s.frames[f].refs, s.entries[i].saved)
    {
      var f := FrameOf(s.frames, |s.entries|, i);
      assert FrameCheck(s, f);
      assert BackupCheck(s, i);
    }
  }
}
