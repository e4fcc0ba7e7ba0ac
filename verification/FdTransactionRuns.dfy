/**
 * Whole runs of the library among arbitrary actions of its user, over what is really in the
 * descriptor table: each run is one of the ideal machine, and what the ideal machine
 * promises about a rollback holds of the table itself.
 */
module FdTransactionRuns {
  import opened Descriptors
  import opened FdTransactionSpec
  import opened FdTransactionSteps
  import opened Wrappers

  /** The user may do anything to the numbers that are no backups. */
  ghost predicate UserChange(s: State, s': State) {
    && s' == s.(table := s'.table) && ValidTable(s'.table)
    && forall fd :: fd in Private(s.entries) ==> Get(s'.table, fd) == Get(s.table, fd)
  }

  /** A call of the library, as its method promises it, or an action of the user. */
  ghost predicate ConcreteStep(s: State, op: Op, ok: bool, s': State)
    requires Inv(s)
  {
    if op == User then UserChange(s, s')
    else
      && Inv(s') && IdealStep(IdealOf(s), op, ok, IdealOf(s'))
      && (op == Rollback ==> s'.entries <= s.entries)
  }

  ghost predicate Sound(states: seq<State>) {
    forall i :: 0 <= i < |states| ==> Inv(states[i])
  }

  ghost predicate ConcreteRun(states: seq<State>, events: seq<Event>) {
    && |states| == |events| + 1 && Sound(states)
    && forall i :: 0 <= i < |events| ==> ConcreteStep(states[i], events[i].op, events[i].ok, states[i + 1])
  }

  /** Each step keeps the invariant, so runs can be extended by one step at a time. */
  lemma ConcreteStepKeepsInv(s: State, op: Op, ok: bool, s': State)
    requires Inv(s) && ConcreteStep(s, op, ok, s')
    ensures Inv(s') && IdealStep(IdealOf(s), op, ok, IdealOf(s'))
  {
    if op == User {
      UserKeepsInv(s, s'.table);
    }
  }

  lemma ExtendRun(states: seq<State>, events: seq<Event>, op: Op, ok: bool, s': State)
    requires ConcreteRun(states, events) && ConcreteStep(states[|events|], op, ok, s')
    ensures ConcreteRun(states + [s'], events + [Event(op, ok)])
  {
    hide Inv, ConcreteStep, IdealStep, IdealOf;
    ConcreteStepKeepsInv(states[|events|], op, ok, s');
    var ss, es := states + [s'], events + [Event(op, ok)];
    assert forall i :: 0 <= i < |states| ==> ss[i] == states[i];
    assert Sound(ss);
    forall i | 0 <= i < |es| ensures ConcreteStep(ss[i], es[i].op, es[i].ok, ss[i + 1]) {
      if i < |events| {
        assert ConcreteStep(states[i], events[i].op, events[i].ok, states[i + 1]);
        assert es[i] == events[i];
      }
    }
  }

  function Ideals(states: seq<State>): (xs: seq<Ideal>)
    requires Sound(states)
    ensures |xs| == |states| && forall i :: 0 <= i < |states| ==> xs[i] == IdealOf(states[i])
  {
    seq(|states|, i requires 0 <= i < |states| => IdealOf(states[i]))
  }

  /** What the library's user sees of a run is a run of the ideal machine. */
  lemma ConcreteRunIsIdeal(states: seq<State>, events: seq<Event>)
    requires ConcreteRun(states, events)
    ensures Run(Ideals(states), events)
  {
    hide Inv, ConcreteStep, IdealStep, IdealOf;
    var xs := Ideals(states);
    forall i | 0 <= i < |events| ensures IdealStep(xs[i], events[i].op, events[i].ok, xs[i + 1]) {
      assert ConcreteStep(states[i], events[i].op, events[i].ok, states[i + 1]);
      ConcreteStepKeepsInv(states[i], events[i].op, events[i].ok, states[i + 1]);
    }
  }

  // -------------------------------------------------------------- visible numbers

  lemma VisibleGet(s: State, fd: int)
    requires Inv(s) && fd !in Private(s.entries)
    ensures Get(IdealOf(s).visible, fd) == Get(s.table, fd)
  {
  }

  lemma FramesMatch(s: State)
    requires Inv(s)
    ensures |IdealOf(s).frames| == |s.frames| && IdealOf(s).visible == Visible(s)
    ensures Partitioned(s.frames, |s.entries|)
    ensures forall f :: 0 <= f < |s.frames| ==> IdealOf(s).frames[f] == AbsFrame(s, f)
  {
  }

  /** A number an active frame has named is no backup. */
  lemma NamedIsVisible(s: State, f: nat, fd: int)
    requires Inv(s) && f < |s.frames| && fd in RefSet(s.frames[f].refs)
    ensures fd !in Private(s.entries)
  {
    var r :| 0 <= r < |s.frames[f].refs| && s.frames[f].refs[r].fd == fd;
    assert HasRef(s.frames[f].refs, fd);
  }

  /** A number an active frame has saved is no backup. */
  lemma SavedIsVisible(s: State, f: nat, fd: int)
    requires Inv(s) && f < |s.frames| && Partitioned(s.frames, |s.entries|)
    requires HasSave(AbsFrame(s, f).saves, fd)
    ensures fd !in Private(s.entries)
  {
    var j :| 0 <= j < |AbsFrame(s, f).saves| && AbsFrame(s, f).saves[j].target == fd;
    TargetIsVisible(s, s.frames[f].start + j);
  }

  lemma FewerPrivate(entries: seq<Entry>, entries': seq<Entry>)
    requires entries' <= entries
    ensures Private(entries') <= Private(entries)
  {
    forall fd | fd in Private(entries') ensures fd in Private(entries) {
      var i :| 0 <= i < |entries'| && 0 <= entries'[i].saved && entries'[i].saved == fd;
      assert entries[i].saved == fd;
    }
  }

  /** A save that succeeds is of a number the transaction has named. */
  lemma SavedNumberIsNamed(s: State, s': State, target: int, x: Ideal, x': Ideal)
    requires Inv(s) && x == IdealOf(s) && IdealStep(x, Save(target), true, x')
    ensures target !in Private(s.entries)
  {
    FramesMatch(s);
    NamedIsVisible(s, |s.frames| - 1, target);
  }

  // ------------------------------------------------------------------ the theorems

  /** Step i changes no number that transaction d has not saved before; backups do not count. */
  ghost predicate SavesAllChanges(states: seq<State>, i: nat, d: nat)
    requires Sound(states) && i + 1 < |states| && d < |states[i].frames|
  {
    FramesMatch(states[i]);
    forall fd :: Get(Visible(states[i + 1]), fd) != Get(Visible(states[i]), fd) ==>
      HasSave(AbsFrame(states[i], d).saves, fd)
  }

  /** The innermost transaction has not saved target yet. */
  predicate NotYetSavedHere(s: State, target: int) {
    s.frames != [] &&
    forall i :: s.frames[|s.frames| - 1].start <= i < |s.entries| ==> s.entries[i].target != target
  }

  lemma NotYetSavedInIdeal(s: State, target: int)
    requires Inv(s) && NotYetSavedHere(s, target)
    ensures |IdealOf(s).frames| == |s.frames| && !HasSave(IdealOf(s).frames[|s.frames| - 1].saves, target)
  {
    FramesMatch(s);
    var d := |s.frames| - 1;
    var saves := AbsFrame(s, d).saves;
    forall j | 0 <= j < |saves| ensures saves[j].target != target {
      assert saves[j].target == s.entries[s.frames[d].start + j].target;
    }
  }

  /**
   * Call k saves target for the first time in the innermost transaction, which stays active
   * until call m, a rollback that ends it. Then the target's number in the table is again what
   * it was at call k when the rollback reports success; when some system call failed in it,
   * the number may instead be as before the rollback, or lack its close-on-exec flag.
   */
  lemma RollbackRestoresTarget(states: seq<State>, events: seq<Event>, k: nat, m: nat, target: int)
    requires ConcreteRun(states, events) && k < m < |events|
    requires events[k] == Event(Save(target), true) && NotYetSavedHere(states[k], target)
    requires forall i :: k <= i <= m ==> |states[k].frames| <= |states[i].frames|
    requires events[m].op == Rollback && |states[m + 1].frames| < |states[m].frames| == |states[k].frames|
    ensures events[m].ok ==> Get(states[m + 1].table, target) == Get(states[k].table, target)
    ensures PartlyBack(Get(states[k].table, target), Get(states[m].table, target), Get(states[m + 1].table, target))
  {
    hide Inv, IdealOf, IdealStep, NotYetSavedHere;
    ConcreteRunIsIdeal(states, events);
    var xs := Ideals(states);
    forall i | 0 <= i < |states| ensures |xs[i].frames| == |states[i].frames| {
      FramesMatch(states[i]);
    }
    NotYetSavedInIdeal(states[k], target);
    RollbackRestoresFirstSave(xs, events, k, m, target);
    SavedNumberIsNamed(states[k], states[k + 1], target, xs[k], xs[k + 1]);
    FramesMatch(states[m]);
    SavedIsVisible(states[m], |states[k].frames| - 1, target);
    assert ConcreteStep(states[m], events[m].op, events[m].ok, states[m + 1]);
    FewerPrivate(states[m].entries, states[m + 1].entries);
    VisibleGet(states[k], target);
    VisibleGet(states[m], target);
    VisibleGet(states[m + 1], target);
  }

  /**
   * If between begin and a successful rollback of the same transaction only numbers it has
   * saved change, the user sees the table as it was before begin; and if it was the outermost
   * transaction, the table is the same table, with no backup left behind.
   */
  lemma RollbackUndoesBlockInTable(states: seq<State>, events: seq<Event>, k: nat, m: nat)
    requires ConcreteRun(states, events) && k < m < |events|
    requires events[k].op.Begin? && events[k].ok
    requires forall i :: k < i <= m ==> |states[k].frames| < |states[i].frames|
    requires forall i :: k < i < m ==> SavesAllChanges(states, i, |states[k].frames|)
    requires events[m] == Event(Rollback, true) && |states[m].frames| == |states[k].frames| + 1
    ensures Visible(states[m + 1]) == Visible(states[k])
    ensures states[k].frames == [] ==> states[m + 1].table == states[k].table
  {
    hide Inv, IdealOf, IdealStep, OnlySavedChange;
    ConcreteRunIsIdeal(states, events);
    var xs := Ideals(states);
    forall i | 0 <= i < |states| ensures |xs[i].frames| == |states[i].frames| && xs[i].visible == Visible(states[i]) {
      FramesMatch(states[i]);
    }
    forall i | k < i < m ensures OnlySavedChange(xs, i, |states[k].frames|) {
      assert SavesAllChanges(states, i, |states[k].frames|);
      ChangesAreSaved(states, i, |states[k].frames|);
    }
    RollbackUndoesBlock(xs, events, k, m);
    if states[k].frames == [] {
      assert IdealStep(xs[m], events[m].op, events[m].ok, xs[m + 1]);
      OneFrameLess(xs[m], xs[m + 1]);
      NoBackupLeaks(states[k]);
      NoBackupLeaks(states[m + 1]);
    }
  }

  lemma ChangesAreSaved(states: seq<State>, i: nat, d: nat)
    requires Sound(states) && i + 1 < |states| && d < |states[i].frames| && SavesAllChanges(states, i, d)
    ensures d < |Ideals(states)[i].frames| && OnlySavedChange(Ideals(states), i, d)
  {
    FramesMatch(states[i]);
    FramesMatch(states[i + 1]);
  }

  lemma OneFrameLess(x: Ideal, y: Ideal)
    requires IdealStep(x, Rollback, true, y)
    ensures |y.frames| == |x.frames| - 1
  {
  }
}
