/** A program using one descriptor-transaction stack: any calls in any order, and anything in between. */
module FdTransactionSession {
  import opened Descriptors
  import opened FdTransactionRuns
  import opened FdTransactions
  import opened FdTransactionSpec
  import opened FdTransactionSteps
  import opened Wrappers

  /** The program changes the table, but no backup. */
  method UserActs(stack: FdTransactionStack)
    requires stack.Valid()
    modifies stack.kernel`table
    ensures stack.Valid()
    ensures stack.State().frames == old(stack.State()).frames
    ensures ConcreteStep(old(stack.State()), User, true, stack.State())
  {
    hide Inv, ParentLinked;
    ghost var s := stack.State();
    var table: Table := *;
    if ValidTable(table) && forall fd :: fd in Private(stack.entries) ==>
         Get(table, fd) == Get(stack.kernel.table, fd) {
      stack.kernel.table := table;
    }
    assert stack.State() == s.(table := stack.kernel.table);
    UserKeepsInv(s, stack.kernel.table);
  }

  /** A transaction is begun. */
  method BeginOne(stack: FdTransactionStack) returns (transaction: FdTransaction, ghost op: Op, ghost ok: bool)
    requires stack.Valid()
    modifies stack, stack.kernel
    ensures stack.Valid() && fresh(transaction)
    ensures stack.chain == old(stack.chain) || stack.chain == old(stack.chain) + [transaction]
    ensures ConcreteStep(old(stack.State()), op, ok, stack.State())
  {
    hide Inv, IdealOf, IdealStep;
    transaction := new FdTransaction();
    assert stack.State() == old(stack.State());
    var references: seq<int> := *;
    var r := stack.Begin(transaction, references);
    op, ok := Op.Begin(set n | n in references), r.Ok?;
  }

  /** A call on some transaction, the right one or not. */
  method CallOn(stack: FdTransactionStack, transaction: FdTransaction, call: nat) returns (ghost op: Op, ghost ok: bool)
    requires stack.Valid()
    modifies stack, stack.kernel, transaction
    ensures stack.Valid() && stack.chain <= old(stack.chain)
    ensures ConcreteStep(old(stack.State()), op, ok, stack.State())
  {
    hide Inv, IdealOf, IdealStep;
    var fd: int := *;
    var r;
    if call == 0 {
      r := stack.AddReference(transaction, fd);
      op := Op.AddReference(fd);
    } else if call == 1 {
      r := stack.Save(transaction, fd);
      op := Op.Save(fd);
    } else if call == 2 {
      r := stack.Commit(transaction);
      op := Op.Commit;
    } else {
      ghost var failed;
      r, failed := stack.Rollback(transaction);
      op := Op.Rollback;
    }
    ok := r.Ok?;
  }

  method DiscardAll(stack: FdTransactionStack)
    requires stack.Valid()
    modifies stack, stack.kernel, stack.chain
    ensures stack.Valid() && stack.chain == []
    ensures ConcreteStep(old(stack.State()), Op.Discard, true, stack.State())
  {
    hide Inv, IdealOf, IdealStep;
    stack.Discard();
  }

  /** Every history of the code's own methods among arbitrary user actions is a concrete run. */
  method Session(stack: FdTransactionStack, steps: nat) returns (ghost states: seq<State>, ghost events: seq<Event>)
    requires stack.Valid() && stack.chain == []
    modifies stack, stack.kernel
    ensures stack.Valid() && |events| == steps
    ensures ConcreteRun(states, events) && states[0] == old(stack.State()) && states[steps] == stack.State()
  {
    hide Inv, ConcreteStep;
    states, events := [stack.State()], [];
    var made: seq<FdTransaction> := [];
    for step := 0 to steps
      invariant stack.Valid() && |events| == step
      invariant ConcreteRun(states, events) && states[0] == old(stack.State()) && states[step] == stack.State()
      invariant (forall i :: 0 <= i < |made| ==> fresh(made[i]))
      invariant (forall i :: 0 <= i < |stack.chain| ==> fresh(stack.chain[i]))
    {
      ghost var op, ok;
      var choice: nat := *;
      if choice == 0 {
        var transaction;
        transaction, op, ok := BeginOne(stack);
        made := made + [transaction];
      } else if choice == 1 {
        op, ok := Op.Discard, true;
        DiscardAll(stack);
      } else if 2 <= choice < 6 && made != [] {
        var i: nat :| i < |made|;
        op, ok := CallOn(stack, made[i], choice - 2);
      } else {
        op, ok := User, true;
        UserActs(stack);
      }
      ExtendRun(states, events, op, ok, stack.State());
      states, events := states + [stack.State()], events + [Event(op, ok)];
    }
  }
}
