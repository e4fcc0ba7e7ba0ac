/**
 * What nested descriptor transactions mean, free of pointers.
 *
 * State is what the library keeps. Ideal is what its caller may rely on: a table
 * without any backup descriptor in it, and for every active transaction the
 * numbers it named and the state each saved target had at its first save.
 */
module FdTransactionSpec {
  import opened CTypes
  import opened Descriptors
  import opened Wrappers

  const FIRST_BACKUP_FD := 10

  datatype Ref = Ref(fd: int, saved: bool)
  datatype Entry = Entry(target: int, saved: int, cloexec: bool)
  datatype Frame = Frame(refs: seq<Ref>, start: nat, nextBackup: int)
  datatype State = State(table: Table, entries: seq<Entry>, frames: seq<Frame>)

  datatype Saved = Saved(target: int, before: Option<Descriptor>)
  datatype IdealFrame = IdealFrame(refs: set<int>, saves: seq<Saved>)
  datatype Ideal = Ideal(visible: Table, frames: seq<IdealFrame>)

  // ---------------------------------------------------------------- invariant

  predicate HasRef(refs: seq<Ref>, fd: int) {
    exists r :: 0 <= r < |refs| && refs[r].fd == fd
  }

  predicate SortedRefs(refs: seq<Ref>) {
    && (forall r :: 0 <= r < |refs| ==> 0 <= refs[r].fd)
    && (forall q, r :: 0 <= q < r < |refs| ==> refs[q].fd < refs[r].fd)
  }

  /** One past the last entry of frame f. */
  function End(frames: seq<Frame>, count: nat, f: nat): nat
    requires f < |frames|
  {
    if f + 1 < |frames| then frames[f + 1].start else count
  }

  /** The frames cut the entries into consecutive ranges. */
  predicate Partitioned(frames: seq<Frame>, count: nat) {
    && (frames == [] ==> count == 0)
    && (frames != [] ==> frames[0].start == 0)
    && (forall f :: 0 <= f < |frames| ==> frames[f].start <= End(frames, count, f) <= count)
  }

  /** Within one frame targets are distinct references, and saved exactly when an entry says so. */
  predicate FrameInvariant(frame: Frame, entries: seq<Entry>, end: nat)
    requires frame.start <= end <= |entries|
  {
    && SortedRefs(frame.refs)
    && FIRST_BACKUP_FD <= frame.nextBackup <= INT_MAX
    && (forall i :: frame.start <= i < end ==> HasRef(frame.refs, entries[i].target))
    && (forall i, j :: frame.start <= j < i < end ==> entries[j].target != entries[i].target)
    && (forall r :: 0 <= r < |frame.refs| ==>
         (frame.refs[r].saved <==> exists i :: frame.start <= i < end && entries[i].target == frame.refs[r].fd))
  }

  /** Backups are open, close-on-exec, pairwise distinct, and named by no active frame. */
  predicate BackupInvariant(table: Table, entries: seq<Entry>, frames: seq<Frame>) {
    && (forall i :: 0 <= i < |entries| ==> 0 <= entries[i].target)
    && (forall i :: 0 <= i < |entries| && 0 <= entries[i].saved ==>
         entries[i].saved in table && table[entries[i].saved].cloexec)
    && (forall i, j :: 0 <= j < i < |entries| && 0 <= entries[i].saved ==> entries[j].saved != entries[i].saved)
    && (forall i, f :: 0 <= i < |entries| && 0 <= f < |frames| && 0 <= entries[i].saved ==>
         !HasRef(frames[f].refs, entries[i].saved))
  }

  predicate Framed(entries: seq<Entry>, frames: seq<Frame>) {
    && Partitioned(frames, |entries|)
    && (forall f :: 0 <= f < |frames| ==> FrameInvariant(frames[f], entries, End(frames, |entries|, f)))
  }

  predicate Inv(s: State) {
    && ValidTable(s.table)
    && Framed(s.entries, s.frames)
    && BackupInvariant(s.table, s.entries, s.frames)
  }

  /** Entry i as the library's own checker judges it. */
  predicate BackupCheck(s: State, i: nat)
    requires i < |s.entries|
  {
    var e := s.entries[i];
    && 0 <= e.target && e.saved != e.target
    && (0 <= e.saved ==> e.saved in s.table && s.table[e.saved].cloexec)
    && (forall j :: 0 <= j < i ==>
         && !(0 <= e.saved && s.entries[j].saved == e.saved)
         && s.entries[j].target != e.saved
         && !(0 <= s.entries[j].saved && s.entries[j].saved == e.target))
    && (forall f :: 0 <= f < |s.frames| && 0 <= e.saved ==> !HasRef(s.frames[f].refs, e.saved))
  }

  predicate HasSavedRef(refs: seq<Ref>, fd: int) {
    exists r :: 0 <= r < |refs| && refs[r].fd == fd && refs[r].saved
  }

  /** Frame f as the library's own checker judges it. */
  predicate FrameCheck(s: State, f: nat)
    requires f < |s.frames| && s.frames[f].start <= End(s.frames, |s.entries|, f) <= |s.entries|
  {
    var frame, end := s.frames[f], End(s.frames, |s.entries|, f);
    && SortedRefs(frame.refs) && FIRST_BACKUP_FD <= frame.nextBackup
    && (forall i :: frame.start <= i < end ==>
         && HasSavedRef(frame.refs, s.entries[i].target)
         && BackupCheck(s, i)
         && forall j :: frame.start <= j < i ==> s.entries[j].target != s.entries[i].target)
    && (forall r :: 0 <= r < |frame.refs| ==>
         (frame.refs[r].saved <==> exists i :: frame.start <= i < end && s.entries[i].target == frame.refs[r].fd))
  }

  predicate StackCheck(s: State) {
    && Partitioned(s.frames, |s.entries|)
    && forall f :: 0 <= f < |s.frames| ==> FrameCheck(s, f)
  }

  // -------------------------------------------------------------- abstraction

  /** The numbers only the library may use. */
  function Private(entries: seq<Entry>): set<int> {
    set i | 0 <= i < |entries| && 0 <= entries[i].saved :: entries[i].saved
  }

  function Visible(s: State): Table {
    s.table - Private(s.entries)
  }

  /** The state of the entry's target when it was saved. */
  function Before(table: Table, e: Entry): Option<Descriptor> {
    if e.saved < 0 then None
    else if e.saved in table then Some(Descriptor(table[e.saved].file, e.cloexec))
    else None
  }

  function Saves(table: Table, entries: seq<Entry>): (saves: seq<Saved>)
    ensures |saves| == |entries|
    ensures forall i :: 0 <= i < |entries| ==> saves[i] == Saved(entries[i].target, Before(table, entries[i]))
  {
    seq(|entries|, i requires 0 <= i < |entries| => Saved(entries[i].target, Before(table, entries[i])))
  }

  function RefSet(refs: seq<Ref>): set<int> {
    set r | 0 <= r < |refs| :: refs[r].fd
  }

  function AbsFrame(s: State, f: nat): IdealFrame
    requires f < |s.frames| && Partitioned(s.frames, |s.entries|)
  {
    IdealFrame(
      RefSet(s.frames[f].refs),
      Saves(s.table, s.entries[s.frames[f].start..End(s.frames, |s.entries|, f)])
    )
  }

  function Abs(s: State): (x: Ideal)
    requires Partitioned(s.frames, |s.entries|)
    ensures |x.frames| == |s.frames|
    ensures forall f :: 0 <= f < |s.frames| ==> x.frames[f] == AbsFrame(s, f)
  {
    Ideal(Visible(s), seq(|s.frames|, f requires 0 <= f < |s.frames| => AbsFrame(s, f)))
  }

  // -------------------------------------------------------- the ideal machine

  datatype Op =
    | Begin(refs: set<int>)
    | AddReference(fd: int)
    | Save(target: int)
    | Rollback
    | Commit
    | Discard
    | User

  predicate HasSave(saves: seq<Saved>, target: int) {
    exists j :: 0 <= j < |saves| && saves[j].target == target
  }

  /** now is what a failing rollback may leave of a number: untouched, restored, or restored but for its flag. */
  predicate PartlyBack(saved: Option<Descriptor>, untouched: Option<Descriptor>, now: Option<Descriptor>) {
    now == saved || now == untouched || (saved.Some? && now == Some(saved.value.(cloexec := false)))
  }

  /** after is before with every saved target put back, and nothing else touched. */
  ghost predicate Restored(before: Table, saves: seq<Saved>, after: Table) {
    && (forall j :: 0 <= j < |saves| ==> Get(after, saves[j].target) == saves[j].before)
    && (forall fd :: !HasSave(saves, fd) ==> Get(after, fd) == Get(before, fd))
  }

  /** after is what a rollback with failing system calls may leave. */
  ghost predicate PartlyRestored(before: Table, saves: seq<Saved>, after: Table) {
    && (forall j :: 0 <= j < |saves| ==>
         PartlyBack(saves[j].before, Get(before, saves[j].target), Get(after, saves[j].target)))
    && (forall fd :: !HasSave(saves, fd) ==> Get(after, fd) == Get(before, fd))
  }

  /** One call of the interface, or one arbitrary action of the user between calls. */
  ghost predicate IdealStep(x: Ideal, op: Op, ok: bool, y: Ideal) {
    var d := |x.frames| - 1;
    match op
    case Begin(refs) =>
      y == if ok then x.(frames := x.frames + [IdealFrame(refs, [])]) else x
    case AddReference(fd) =>
      if ok then
        d >= 0 && y == x.(frames := x.frames[d := x.frames[d].(refs := x.frames[d].refs + {fd})])
      else y == x
    case Save(target) =>
      if !ok then y == x
      else
        && d >= 0
        && target in x.frames[d].refs
        && y == if HasSave(x.frames[d].saves, target) then x
                else x.(frames := x.frames[d := x.frames[d].(
                       saves := x.frames[d].saves + [Saved(target, Get(x.visible, target))])])
    case Rollback =>
      // A refused rollback changes nothing; an attempted one always ends the frame.
      || (!ok && y == x)
      || (d >= 0 && y.frames == x.frames[..d] &&
          if ok then Restored(x.visible, x.frames[d].saves, y.visible)
          else PartlyRestored(x.visible, x.frames[d].saves, y.visible))
    case Commit =>
      if ok then d >= 0 && y == Ideal(x.visible, x.frames[..d]) else y == x
    case Discard =>
      y == Ideal(x.visible, [])
    case User =>
      y.frames == x.frames
  }

  // ------------------------------------------------- consequences over a run

  datatype Event = Event(op: Op, ok: bool)

  /** A run: states[i] goes to states[i + 1] by events[i]. */
  ghost predicate Run(states: seq<Ideal>, events: seq<Event>) {
    && |states| == |events| + 1
    && forall i :: 0 <= i < |events| ==> IdealStep(states[i], events[i].op, events[i].ok, states[i + 1])
  }

  /** Saves, once made, stay in their frame unchanged for as long as the frame is active. */
  lemma {:induction false} SavesPersist(states: seq<Ideal>, events: seq<Event>, k: nat, m: nat, d: nat)
    requires Run(states, events) && k <= m < |states|
    requires forall i :: k <= i <= m ==> d < |states[i].frames|
    ensures states[k].frames[d].saves <= states[m].frames[d].saves
    decreases m - k
  {
    if k < m {
      SavesPersist(states, events, k, m - 1, d);
      assert IdealStep(states[m - 1], events[m - 1].op, events[m - 1].ok, states[m - 1 + 1]);
    }
  }

  /**
   * The law the transactions exist for, over whole runs. Call k saves target for the
   * first time in the innermost frame; the frame stays active until call m, a rollback
   * that ends it. Whatever happened in between, the target is again what it was at
   * call k when the rollback reports success, and part of the way there when it does
   * not; every outer save is still in place.
   */
  lemma {:induction false} RollbackRestoresFirstSave(
    states: seq<Ideal>, events: seq<Event>, k: nat, m: nat, target: int)
    requires Run(states, events) && k < m < |events|
    requires events[k] == Event(Save(target), true)
    requires states[k].frames != [] && !HasSave(states[k].frames[|states[k].frames| - 1].saves, target)
    requires forall i :: k <= i <= m ==> |states[k].frames| <= |states[i].frames|
    requires events[m].op == Rollback && |states[m + 1].frames| < |states[m].frames| == |states[k].frames|
    ensures HasSave(states[m].frames[|states[k].frames| - 1].saves, target)
    ensures events[m].ok ==> Get(states[m + 1].visible, target) == Get(states[k].visible, target)
    ensures PartlyBack(Get(states[k].visible, target), Get(states[m].visible, target),
                       Get(states[m + 1].visible, target))
    ensures states[m + 1].frames == states[m].frames[..|states[k].frames| - 1]
    ensures forall d :: 0 <= d < |states[k].frames| - 1 ==>
      states[k].frames[d].saves <= states[m + 1].frames[d].saves
  {
    var d := |states[k].frames| - 1;
    var j := |states[k].frames[d].saves|;
    assert IdealStep(states[k], events[k].op, events[k].ok, states[k + 1]);
    assert states[k + 1].frames[d].saves[j] == Saved(target, Get(states[k].visible, target));
    SavesPersist(states, events, k + 1, m, d);
    assert states[m].frames[d].saves[j] == Saved(target, Get(states[k].visible, target));
    assert IdealStep(states[m], events[m].op, events[m].ok, states[m + 1]);
    forall d' | 0 <= d' < d ensures states[k].frames[d'].saves <= states[m + 1].frames[d'].saves {
      SavesPersist(states, events, k, m, d');
      assert states[m + 1].frames[d'] == states[m].frames[d'];
    }
  }

  /** Step i changes no number that frame d has not saved before. */
  ghost predicate OnlySavedChange(states: seq<Ideal>, i: nat, d: nat)
    requires i + 1 < |states| && d < |states[i].frames|
  {
    forall fd :: Get(states[i + 1].visible, fd) != Get(states[i].visible, fd) ==> HasSave(states[i].frames[d].saves, fd)
  }

  /** Up to state m the frame opened by call k either saved a number's entry value or has left it alone. */
  lemma {:induction false} BlockIsCovered(states: seq<Ideal>, events: seq<Event>, k: nat, m: nat)
    requires Run(states, events) && k < m < |states|
    requires events[k].op.Begin? && events[k].ok
    requires forall i :: k < i <= m ==> |states[k].frames| < |states[i].frames|
    requires forall i :: k < i < m ==> OnlySavedChange(states, i, |states[k].frames|)
    ensures var saves := states[m].frames[|states[k].frames|].saves;
      && (forall j :: 0 <= j < |saves| ==> saves[j].before == Get(states[k].visible, saves[j].target))
      && (forall fd :: !HasSave(saves, fd) ==> Get(states[m].visible, fd) == Get(states[k].visible, fd))
  {
    var d := |states[k].frames|;
    var i := m - 1;
    assert IdealStep(states[i], events[i].op, events[i].ok, states[i + 1]);
    if i > k {
      BlockIsCovered(states, events, k, i);
      var earlier, later := states[i].frames[d].saves, states[m].frames[d].saves;
      assert OnlySavedChange(states, i, d);
      assert earlier <= later;
      forall fd | HasSave(earlier, fd) ensures HasSave(later, fd) {
        var j :| 0 <= j < |earlier| && earlier[j].target == fd;
        assert later[j].target == fd;
      }
    }
  }

  /**
   * Atomicity: if between begin and a successful rollback of the same frame only
   * numbers already saved are changed, the rollback undoes the whole block.
   */
  lemma RollbackUndoesBlock(states: seq<Ideal>, events: seq<Event>, k: nat, m: nat)
    requires Run(states, events) && k < m < |events|
    requires events[k].op.Begin? && events[k].ok
    requires forall i :: k < i <= m ==> |states[k].frames| < |states[i].frames|
    requires forall i :: k < i < m ==> OnlySavedChange(states, i, |states[k].frames|)
    requires events[m] == Event(Rollback, true) && |states[m].frames| == |states[k].frames| + 1
    ensures states[m + 1].visible == states[k].visible
  {
    BlockIsCovered(states, events, k, m);
    var saves := states[m].frames[|states[k].frames|].saves;
    assert IdealStep(states[m], events[m].op, events[m].ok, states[m + 1]);
    forall fd ensures Get(states[m + 1].visible, fd) == Get(states[k].visible, fd) {
      if HasSave(saves, fd) {
        var j :| 0 <= j < |saves| && saves[j].target == fd;
      }
    }
    SameTable(states[m + 1].visible, states[k].visible);
  }
}
