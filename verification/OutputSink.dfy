/**
 * The output sink: producers submit numbered records or skip numbers, one consumer thread
 * takes them in order, and close lets it drain what is left.
 *
 * Every region the code runs under the sink's lock is one step; a producer that waits for
 * room takes no step until there is room.
 */
module OutputSink {
  import opened Wrappers

  /** id tells records apart; size is 0 when no byte limit is set. */
  datatype Record = Record(seq_: nat, id: nat, size: nat)

  datatype Config = Config(ordered: bool, firstSeq: nat, maxPending: nat, maxPendingBytes: nat)

  datatype State = State(
    config: Config,
    nodes: seq<Record>,
    skipped: seq<nat>,
    pendingBytes: nat,
    nextSeq: nat,
    closed: bool,
    taken: Option<Record>,    // with the consumer, between take_ready_node and emit_record
    accepted: seq<Record>,    // every record a submit took over, in that order
    skips: set<nat>,          // every number a skip took note of
    emitted: seq<Record>      // every record emitted and disposed, in that order
  )

  // --------------------------------------------------------------- operations

  /** bx_backpressure_limit_can_add: only an amount on top of another can be too much. */
  predicate CanAdd(current: nat, amount: nat, limit: nat): (can: bool)
    ensures can <==> limit == 0 || current == 0 || amount == 0 || current + amount <= limit
  {
    if limit == 0 || amount == 0 then true
    else if amount > limit then current == 0
    else current <= limit - amount
  }

  /** A producer has to wait when the queue is full, or when the record would pass the byte limit on top of others. */
  predicate HasRoom(s: State, r: Record): (room: bool)
    ensures !room <==>
      || s.config.maxPending <= |s.nodes|
      || (0 < s.config.maxPendingBytes < s.pendingBytes + r.size && s.pendingBytes > 0 && r.size > 0)
  {
    |s.nodes| < s.config.maxPending &&
    (s.config.maxPendingBytes == 0 || CanAdd(s.pendingBytes, r.size, s.config.maxPendingBytes))
  }

  /** Linking in behind every record with no greater number. */
  function InsertedInOrder(nodes: seq<Record>, r: Record): seq<Record> {
    if nodes != [] && nodes[0].seq_ <= r.seq_ then [nodes[0]] + InsertedInOrder(nodes[1..], r)
    else [r] + nodes
  }

  function Inserted(ordered: bool, nodes: seq<Record>, r: Record): seq<Record> {
    if ordered then InsertedInOrder(nodes, r) else [r] + nodes
  }

  /** The skip list with n in its place. */
  function InsertedSkip(skipped: seq<nat>, n: nat): seq<nat> {
    if skipped != [] && skipped[0] < n then [skipped[0]] + InsertedSkip(skipped[1..], n)
    else if skipped != [] && skipped[0] == n then skipped
    else [n] + skipped
  }

  /** How many numbers from next on are at the front of the skip list. */
  function Consumed(skipped: seq<nat>, next: nat): (k: nat)
    ensures k <= |skipped|
  {
    if skipped != [] && skipped[0] == next then 1 + Consumed(skipped[1..], next + 1) else 0
  }

  function ConsumeSkipped(s: State): State {
    var k := Consumed(s.skipped, s.nextSeq);
    s.(skipped := s.skipped[k..], nextSeq := s.nextSeq + k)
  }

  predicate CanTake(s: State) {
    s.nodes != [] && (s.config.ordered && s.nodes[0].seq_ != s.nextSeq ==> s.closed)
  }

  /** The state between unlinking the head and moving nextSeq on. */
  function Unlinked(s: State): State
    requires s.nodes != []
  {
    var node := s.nodes[0];
    s.(nodes := s.nodes[1..], taken := Some(node),
       pendingBytes := if node.size <= s.pendingBytes then s.pendingBytes - node.size else 0)
  }

  function Take(s: State): State
    requires CanTake(s)
  {
    if s.config.ordered && s.nodes[0].seq_ == s.nextSeq then
      ConsumeSkipped(Unlinked(s).(nextSeq := s.nextSeq + 1))
    else Unlinked(s)
  }

  function Submitted(s: State, r: Record): State {
    s.(nodes := Inserted(s.config.ordered, s.nodes, r), pendingBytes := s.pendingBytes + r.size,
       accepted := s.accepted + [r])
  }

  /** n is a number skip_seq has to remember. */
  predicate NewSkip(s: State, n: nat) {
    s.config.ordered && s.nextSeq <= n && n !in s.skipped
  }

  function Skipped(s: State, n: nat): State {
    ConsumeSkipped(s.(skipped := InsertedSkip(s.skipped, n), skips := s.skips + {n}))
  }

  datatype Action = Submit(r: Record) | Skip(n: nat, granted: bool) | TakeReady | Emit | Close

  ghost predicate Step(s: State, a: Action, t: State) {
    match a
    case Submit(r) =>
      // A submit on a closed sink is refused and leaves the record with its producer.
      if s.closed then t == s else HasRoom(s, r) && t == Submitted(s, r)
    case Skip(n, granted) =>
      t == if NewSkip(s, n) && granted then Skipped(s, n) else s
    case TakeReady =>
      s.taken == None && CanTake(s) && t == Take(s)
    case Emit =>
      s.taken.Some? && t == s.(taken := None, emitted := s.emitted + [s.taken.value])
    case Close =>
      t == s.(closed := true)
  }

  predicate Initial(s: State) {
    s == State(s.config, [], [], 0, s.config.firstSeq, false, None, [], {}, [])
  }

  /** The consumer thread may end. */
  predicate Finished(s: State) {
    s.closed && s.nodes == [] && s.taken == None
  }

  // ------------------------------------------------------------- conservation

  function TakenSeq(s: State): seq<Record> {
    match s.taken case None => [] case Some(r) => [r]
  }

  /** Everything handed to the callback so far, or just about to be. */
  function Out(s: State): seq<Record> {
    s.emitted + TakenSeq(s)
  }

  function TotalSize(nodes: seq<Record>): nat {
    if nodes == [] then 0 else nodes[0].size + TotalSize(nodes[1..])
  }

  /** Holds of every sink, ordered or not, whatever its callers do. */
  predicate Conserved(s: State) {
    && multiset(s.accepted) == multiset(s.emitted) + multiset(TakenSeq(s)) + multiset(s.nodes)
    && |s.nodes| <= s.config.maxPending
    && s.pendingBytes == TotalSize(s.nodes)
    && WithinBytes(s.nodes, s.config.maxPendingBytes)
  }

  lemma {:induction false} InsertedInOrderContents(nodes: seq<Record>, r: Record)
    ensures multiset(InsertedInOrder(nodes, r)) == multiset(nodes) + multiset{r}
    ensures TotalSize(InsertedInOrder(nodes, r)) == TotalSize(nodes) + r.size
    ensures |InsertedInOrder(nodes, r)| == |nodes| + 1
  {
    if nodes != [] && nodes[0].seq_ <= r.seq_ {
      InsertedInOrderContents(nodes[1..], r);
      assert nodes == [nodes[0]] + nodes[1..];
    }
  }

  lemma {:induction false} SizeBound(nodes: seq<Record>, i: nat)
    requires i < |nodes|
    ensures nodes[i].size <= TotalSize(nodes)
    ensures i > 0 ==> nodes[0].size + nodes[i].size <= TotalSize(nodes)
  {
    if i > 0 {
      SizeBound(nodes[1..], i - 1);
    }
  }

  /** At most one record alone may be bigger than the byte limit. */
  predicate WithinBytes(nodes: seq<Record>, limit: nat) {
    limit > 0 && TotalSize(nodes) > limit ==> exists i :: 0 <= i < |nodes| && nodes[i].size == TotalSize(nodes)
  }

  lemma SubmitWithinBytes(nodes: seq<Record>, r: Record, nodes': seq<Record>, limit: nat)
    requires WithinBytes(nodes, limit) && (limit == 0 || CanAdd(TotalSize(nodes), r.size, limit))
    requires multiset(nodes') == multiset(nodes) + multiset{r} && TotalSize(nodes') == TotalSize(nodes) + r.size
    ensures WithinBytes(nodes', limit)
  {
    if limit > 0 && TotalSize(nodes') > limit {
      var whole := if TotalSize(nodes) == 0 then r else
        var j :| 0 <= j < |nodes| && nodes[j].size == TotalSize(nodes); nodes[j];
      assert whole in multiset(nodes');
      var i :| 0 <= i < |nodes'| && nodes'[i] == whole;
    }
  }

  lemma SubmitConserves(s: State, r: Record)
    requires Conserved(s) && HasRoom(s, r)
    ensures Conserved(Submitted(s, r))
  {
    hide WithinBytes;
    var t := Submitted(s, r);
    InsertedInOrderContents(s.nodes, r);
    assert multiset(t.nodes) == multiset(s.nodes) + multiset{r} && TotalSize(t.nodes) == TotalSize(s.nodes) + r.size;
    SubmitWithinBytes(s.nodes, r, t.nodes, s.config.maxPendingBytes);
  }

  lemma TakeConserves(s: State)
    requires Conserved(s) && CanTake(s) && s.taken == None
    ensures Conserved(Take(s))
  {
    var t := Take(s);
    assert s.nodes == [s.nodes[0]] + s.nodes[1..];
    assert t.nodes == s.nodes[1..] && t.taken == Some(s.nodes[0]);
    if t.config.maxPendingBytes > 0 && t.pendingBytes > t.config.maxPendingBytes {
      var i :| 0 <= i < |s.nodes| && s.nodes[i].size == s.pendingBytes;
      SizeBound(s.nodes, i);
      assert i > 0 ==> t.nodes[i - 1].size == t.pendingBytes;
    }
  }

  lemma StepConserves(s: State, a: Action, t: State)
    requires Conserved(s) && Step(s, a, t)
    ensures Conserved(t)
  {
    match a
    case Submit(r) =>
      if !s.closed {
        SubmitConserves(s, r);
      }
    case TakeReady => TakeConserves(s);
    case Emit =>
      assert multiset(t.emitted) == multiset(s.emitted) + multiset(TakenSeq(s));
    case _ =>
  }

  // -------------------------------------------------------------------- order

  predicate Ascending(rs: seq<Record>) {
    forall i, j :: 0 <= i < j < |rs| ==> rs[i].seq_ < rs[j].seq_
  }

  predicate AscendingNumbers(ns: seq<nat>) {
    forall i, j :: 0 <= i < j < |ns| ==> ns[i] < ns[j]
  }

  /** n was submitted, or skipped. */
  predicate Used(s: State, n: nat) {
    n in s.skips || exists i :: 0 <= i < |s.accepted| && s.accepted[i].seq_ == n
  }

  /** The callers' side of the bargain: no number twice, and none below the first. */
  predicate Disciplined(s: State, a: Action) {
    match a
    case Submit(r) => s.config.firstSeq <= r.seq_ && !Used(s, r.seq_)
    case Skip(n, _) => !Used(s, n)
    case _ => true
  }

  /** Number n has left the sink or never has to. */
  predicate Settled(s: State, n: nat) {
    n in s.skips || exists i :: 0 <= i < |Out(s)| && Out(s)[i].seq_ == n
  }

  /** The order of everything in the sink; the front of the skip list may have caught up with nextSeq. */
  predicate AlmostInOrder(s: State) {
    && s.config.firstSeq <= s.nextSeq
    && Ascending(s.nodes) && Ascending(Out(s)) && AscendingNumbers(s.skipped)
    && (forall i :: 0 <= i < |s.skipped| ==> s.nextSeq <= s.skipped[i] && s.skipped[i] in s.skips)
    && (forall i :: 0 <= i < |s.nodes| ==> s.nextSeq <= s.nodes[i].seq_ && s.nodes[i].seq_ !in s.skips)
    && (forall i, j :: 0 <= i < |Out(s)| && 0 <= j < |s.nodes| ==> Out(s)[i].seq_ < s.nodes[j].seq_)
    && (!s.closed ==> forall i :: 0 <= i < |Out(s)| ==> Out(s)[i].seq_ < s.nextSeq)
    && (forall n :: s.config.firstSeq <= n < s.nextSeq ==> Settled(s, n))
  }

  predicate InOrder(s: State) {
    AlmostInOrder(s) && forall i :: 0 <= i < |s.skipped| ==> s.nextSeq < s.skipped[i]
  }

  /** A record was accepted exactly when it is out or still linked in. */
  lemma AcceptedIsSomewhere(s: State, r: Record)
    requires Conserved(s)
    ensures r in s.accepted <==> r in Out(s) || r in s.nodes
  {
    assert r in multiset(s.accepted) <==>
      r in multiset(s.emitted) || r in multiset(TakenSeq(s)) || r in multiset(s.nodes);
  }

  /** A number that is settled or linked in has been used. */
  lemma UsedNumbers(s: State, n: nat)
    requires Conserved(s)
    ensures Settled(s, n) ==> Used(s, n)
    ensures forall j :: 0 <= j < |s.nodes| && s.nodes[j].seq_ == n ==> Used(s, n)
  {
    forall i | 0 <= i < |Out(s)| && Out(s)[i].seq_ == n ensures Used(s, n) {
      AcceptedIsSomewhere(s, Out(s)[i]);
    }
    forall j | 0 <= j < |s.nodes| && s.nodes[j].seq_ == n ensures Used(s, n) {
      AcceptedIsSomewhere(s, s.nodes[j]);
    }
  }

  lemma {:induction false} InsertedAscending(nodes: seq<Record>, r: Record)
    requires Ascending(nodes) && forall i :: 0 <= i < |nodes| ==> nodes[i].seq_ != r.seq_
    ensures Ascending(InsertedInOrder(nodes, r))
    ensures forall x :: x in InsertedInOrder(nodes, r) <==> x in nodes || x == r
  {
    if nodes != [] && nodes[0].seq_ <= r.seq_ {
      var rest := InsertedInOrder(nodes[1..], r);
      InsertedAscending(nodes[1..], r);
      forall j | 0 <= j < |rest| ensures nodes[0].seq_ < rest[j].seq_ {
        assert rest[j] in rest;
      }
    }
  }

  lemma SubmitKeepsOrder(s: State, r: Record)
    requires Conserved(s) && InOrder(s) && s.config.ordered && !s.closed
    requires s.config.firstSeq <= r.seq_ && !Used(s, r.seq_)
    ensures InOrder(Submitted(s, r))
  {
    var t := Submitted(s, r);
    UsedNumbers(s, r.seq_);
    assert s.nextSeq <= r.seq_;
    InsertedAscending(s.nodes, r);
    forall i | 0 <= i < |t.nodes|
      ensures t.nextSeq <= t.nodes[i].seq_ && t.nodes[i].seq_ !in t.skips
    {
      assert t.nodes[i] in t.nodes;
    }
    forall n | t.config.firstSeq <= n < t.nextSeq ensures Settled(t, n) {
      assert Settled(s, n);
      assert Out(t) == Out(s);
    }
  }

  /** The consumed numbers are consecutive, and the rest lie beyond. */
  lemma {:induction false} ConsumedRun(skipped: seq<nat>, next: nat)
    requires AscendingNumbers(skipped) && forall i :: 0 <= i < |skipped| ==> next <= skipped[i]
    ensures var k := Consumed(skipped, next);
      && (forall i :: 0 <= i < k ==> skipped[i] == next + i)
      && (forall i :: k <= i < |skipped| ==> next + k < skipped[i])
  {
    if skipped != [] && skipped[0] == next {
      ConsumedRun(skipped[1..], next + 1);
      var k := Consumed(skipped, next);
      forall i | 0 < i < |skipped|
        ensures i < k ==> skipped[i] == next + i
        ensures k <= i ==> next + k < skipped[i]
      {
        assert skipped[1..][i - 1] == skipped[i];
      }
    }
  }

  lemma ConsumedWereSkipped(s: State)
    requires AlmostInOrder(s)
    ensures forall n :: s.nextSeq <= n < ConsumeSkipped(s).nextSeq ==> n in s.skips
  {
    ConsumedRun(s.skipped, s.nextSeq);
    forall n | s.nextSeq <= n < ConsumeSkipped(s).nextSeq ensures n in s.skips {
      assert s.skipped[n - s.nextSeq] == n;
    }
  }

  /** Every number nextSeq moved over was skipped, so all below it are settled. */
  lemma ConsumeSettles(s: State)
    requires AlmostInOrder(s)
    ensures var t := ConsumeSkipped(s); forall n :: t.config.firstSeq <= n < t.nextSeq ==> Settled(t, n)
  {
    var t := ConsumeSkipped(s);
    ConsumedWereSkipped(s);
    assert Out(t) == Out(s);
    forall n | t.config.firstSeq <= n < t.nextSeq ensures Settled(t, n) {
      if n < s.nextSeq {
        assert Settled(s, n);
      }
    }
  }

  lemma ConsumeRestoresOrder(s: State)
    requires AlmostInOrder(s)
    ensures InOrder(ConsumeSkipped(s))
  {
    ConsumedRun(s.skipped, s.nextSeq);
    ConsumedWereSkipped(s);
    ConsumeSettles(s);
    assert Out(ConsumeSkipped(s)) == Out(s);
    hide Settled;
  }

  lemma {:induction false} InsertedSkipAscending(skipped: seq<nat>, n: nat)
    requires AscendingNumbers(skipped)
    ensures AscendingNumbers(InsertedSkip(skipped, n))
    ensures forall x :: x in InsertedSkip(skipped, n) <==> x in skipped || x == n
  {
    if skipped != [] && skipped[0] < n {
      var rest := InsertedSkip(skipped[1..], n);
      InsertedSkipAscending(skipped[1..], n);
      forall j | 0 <= j < |rest| ensures skipped[0] < rest[j] {
        assert rest[j] in rest;
      }
    }
  }

  /** The skip list split where n belongs. */
  lemma {:induction false} SkipPosition(skipped: seq<nat>, n: nat, pos: nat)
    requires pos <= |skipped| && forall i :: 0 <= i < pos ==> skipped[i] < n
    requires pos < |skipped| ==> n <= skipped[pos]
    ensures InsertedSkip(skipped, n) ==
      if pos < |skipped| && skipped[pos] == n then skipped else skipped[..pos] + [n] + skipped[pos..]
  {
    if pos > 0 {
      SkipPosition(skipped[1..], n, pos - 1);
      assert skipped == [skipped[0]] + skipped[1..];
      assert skipped[..pos] == [skipped[0]] + skipped[1..][..pos - 1];
      assert skipped[pos..] == skipped[1..][pos - 1..];
    }
  }

  lemma SkipKeepsOrder(s: State, n: nat)
    requires Conserved(s) && InOrder(s) && NewSkip(s, n) && !Used(s, n)
    ensures InOrder(Skipped(s, n))
  {
    var t := s.(skipped := InsertedSkip(s.skipped, n), skips := s.skips + {n});
    InsertedSkipAscending(s.skipped, n);
    UsedNumbers(s, n);
    assert Out(t) == Out(s);
    forall i | 0 <= i < |t.skipped| ensures t.nextSeq <= t.skipped[i] && t.skipped[i] in t.skips {
      assert t.skipped[i] in t.skipped;
    }
    forall m | t.config.firstSeq <= m < t.nextSeq ensures Settled(t, m) {
      assert Settled(s, m);
    }
    ConsumeRestoresOrder(t);
  }

  lemma SettledStays(s: State, t: State, n: nat)
    requires Settled(s, n) && s.skips <= t.skips && Out(s) <= Out(t)
    ensures Settled(t, n)
  {
    if i :| 0 <= i < |Out(s)| && Out(s)[i].seq_ == n {
      assert Out(t)[i].seq_ == n;
    }
  }

  /** In the order of the list the head comes next, whether or not it closes a gap. */
  lemma UnlinkedOrder(s: State)
    requires InOrder(s) && s.config.ordered && s.taken == None && CanTake(s)
    ensures var t := Unlinked(s);
      if s.nodes[0].seq_ == s.nextSeq then AlmostInOrder(t.(nextSeq := s.nextSeq + 1)) else InOrder(t)
  {
    var t, node := Unlinked(s), s.nodes[0];
    assert Out(t) == Out(s) + [node];
    forall n | s.config.firstSeq <= n < s.nextSeq ensures Settled(t, n) {
      SettledStays(s, t, n);
    }
    assert Out(t)[|Out(s)|].seq_ == node.seq_;
    assert Settled(t, node.seq_);
    if node.seq_ == s.nextSeq {
      var u := t.(nextSeq := s.nextSeq + 1);
      assert Out(u) == Out(t);
      forall n | u.config.firstSeq <= n < u.nextSeq ensures Settled(u, n) {
        SettledStays(t, u, n);
      }
    }
  }

  lemma TakeKeepsOrder(s: State)
    requires InOrder(s) && s.config.ordered && s.taken == None && CanTake(s)
    ensures InOrder(Take(s))
  {
    hide InOrder, AlmostInOrder;
    UnlinkedOrder(s);
    if s.nodes[0].seq_ == s.nextSeq {
      ConsumeRestoresOrder(Unlinked(s).(nextSeq := s.nextSeq + 1));
    }
  }

  lemma EmitKeepsOut(s: State)
    requires s.taken.Some?
    ensures Out(s.(taken := None, emitted := s.emitted + [s.taken.value])) == Out(s)
  {
  }

  lemma StepKeepsOrder(s: State, a: Action, t: State)
    requires Conserved(s) && InOrder(s) && s.config.ordered && Step(s, a, t) && Disciplined(s, a)
    ensures InOrder(t)
  {
    match a
    case Submit(r) =>
      if !s.closed {
        SubmitKeepsOrder(s, r);
      }
    case Skip(n, granted) =>
      if NewSkip(s, n) && granted {
        SkipKeepsOrder(s, n);
      }
    case TakeReady => TakeKeepsOrder(s);
    case Emit =>
      EmitKeepsOut(s);
      forall n | Settled(s, n) ensures Settled(t, n) {
        SettledStays(s, t, n);
      }
    case Close =>
      forall n | Settled(s, n) ensures Settled(t, n) {
        SettledStays(s, t, n);
      }
  }

  // --------------------------------------------------------------------- runs

  ghost predicate Run(states: seq<State>, actions: seq<Action>) {
    && |states| == |actions| + 1 && Initial(states[0])
    && forall i :: 0 <= i < |actions| ==> Step(states[i], actions[i], states[i + 1])
  }

  ghost predicate DisciplinedRun(states: seq<State>, actions: seq<Action>) {
    && Run(states, actions) && states[0].config.ordered
    && forall i :: 0 <= i < |actions| ==> Disciplined(states[i], actions[i])
  }

  /** No interleaving loses, repeats or invents a record, and the limits hold throughout. */
  lemma {:induction false} RunConserves(states: seq<State>, actions: seq<Action>, k: nat)
    requires Run(states, actions) && k < |states|
    ensures Conserved(states[k]) && states[k].config == states[0].config
  {
    if k > 0 {
      hide Conserved, Step;
      RunConserves(states, actions, k - 1);
      assert Step(states[k - 1], actions[k - 1], states[k - 1 + 1]);
      StepConserves(states[k - 1], actions[k - 1], states[k]);
      StepKeepsConfig(states[k - 1], actions[k - 1], states[k]);
    }
  }

  lemma StepKeepsConfig(s: State, a: Action, t: State)
    requires Step(s, a, t)
    ensures t.config == s.config
  {
  }

  /** When the consumer ends, exactly the accepted records have been emitted, each once. */
  lemma FinishedEmitsAll(states: seq<State>, actions: seq<Action>, k: nat)
    requires Run(states, actions) && k < |states| && Finished(states[k])
    ensures multiset(states[k].emitted) == multiset(states[k].accepted)
  {
    RunConserves(states, actions, k);
  }

  /**
   * In ordered mode every interleaving emits in strictly increasing order, even while
   * close drains across gaps, and every number below nextSeq has left or was skipped.
   */
  lemma {:induction false} RunKeepsOrder(states: seq<State>, actions: seq<Action>, k: nat)
    requires DisciplinedRun(states, actions) && k < |states|
    ensures InOrder(states[k])
    ensures Ascending(states[k].emitted)
    ensures forall n :: states[0].config.firstSeq <= n < states[k].nextSeq ==> Settled(states[k], n)
  {
    hide Conserved, Step, InOrder, Settled;
    if k == 0 {
      EmptyInOrder(states[0]);
    } else {
      RunConserves(states, actions, k - 1);
      RunConserves(states, actions, k);
      RunKeepsOrder(states, actions, k - 1);
      assert Step(states[k - 1], actions[k - 1], states[k - 1 + 1]);
      StepKeepsOrder(states[k - 1], actions[k - 1], states[k]);
    }
    OrderOfEmitted(states[k]);
  }

  lemma EmptyInOrder(s: State)
    requires Initial(s)
    ensures InOrder(s)
  {
  }

  lemma OrderOfEmitted(s: State)
    requires InOrder(s)
    ensures Ascending(s.emitted)
    ensures forall n :: s.config.firstSeq <= n < s.nextSeq ==> Settled(s, n)
  {
    assert forall i :: 0 <= i < |s.emitted| ==> s.emitted[i] == Out(s)[i];
  }

  /** The calls that name a number. */
  predicate Numbered(a: Action, n: nat) {
    match a
    case Submit(r) => r.seq_ == n
    case Skip(m, _) => m == n
    case _ => false
  }

  /** No number is named by two calls. */
  ghost predicate UsesOnce(actions: seq<Action>) {
    forall i, j, n :: 0 <= i < j < |actions| && Numbered(actions[i], n) ==> !Numbered(actions[j], n)
  }

  lemma StepUses(s: State, a: Action, t: State, n: nat)
    requires Step(s, a, t) && Used(t, n)
    ensures Used(s, n) || Numbered(a, n)
  {
  }

  lemma {:induction false} UsedByACall(states: seq<State>, actions: seq<Action>, k: nat, n: nat) returns (j: nat)
    requires Run(states, actions) && k < |states| && Used(states[k], n)
    ensures j < k && Numbered(actions[j], n)
  {
    assert k > 0;
    assert Step(states[k - 1], actions[k - 1], states[k - 1 + 1]);
    StepUses(states[k - 1], actions[k - 1], states[k], n);
    if Numbered(actions[k - 1], n) {
      j := k - 1;
    } else {
      j := UsedByACall(states, actions, k - 1, n);
    }
  }

  /** From number 0 on, using each number once is all the discipline there is. */
  lemma OnceIsDisciplined(states: seq<State>, actions: seq<Action>)
    requires Run(states, actions) && UsesOnce(actions)
    requires states[0].config.ordered && states[0].config.firstSeq == 0
    ensures DisciplinedRun(states, actions)
  {
    hide Step, Used;
    forall i | 0 <= i < |actions| ensures Disciplined(states[i], actions[i]) {
      RunConserves(states, actions, i);
      forall n | Numbered(actions[i], n) ensures !Used(states[i], n) {
        if Used(states[i], n) {
          var j := UsedByACall(states, actions, i, n);
          assert false;
        }
      }
      assert forall n :: Numbered(actions[i], n) ==> !Used(states[i], n);
      OnceHere(states[i], actions[i]);
    }
  }

  lemma OnceHere(s: State, a: Action)
    requires s.config.firstSeq == 0 && forall n :: Numbered(a, n) ==> !Used(s, n)
    ensures Disciplined(s, a)
  {
    hide Used;
    match a
    case Submit(r) => assert Numbered(a, r.seq_);
    case Skip(n, _) => assert Numbered(a, n);
    case _ =>
  }

  /** A number below the first waits for close and comes last, though no number is used twice. */
  lemma LateNumberBreaksOrder(config: Config) returns (states: seq<State>, actions: seq<Action>)
    requires config.ordered && config.firstSeq > 0 && config.maxPending > 0
    ensures Run(states, actions) && states[0].config == config && UsesOnce(actions)
    ensures states[|actions|].emitted == [Record(config.firstSeq, 0, 0), Record(config.firstSeq - 1, 1, 0)]
    ensures !Ascending(states[|actions|].emitted)
  {
    var first := config.firstSeq;
    var a, b := Record(first, 0, 0), Record(first - 1, 1, 0);
    var s0 := State(config, [], [], 0, first, false, None, [], {}, []);
    var s1 := s0.(nodes := [a], accepted := [a]);
    var s2 := s1.(nodes := [], taken := Some(a), nextSeq := first + 1);
    var s3 := s2.(taken := None, emitted := [a]);
    var s4 := s3.(nodes := [b], accepted := [a, b]);
    var s5 := s4.(closed := true);
    var s6 := s5.(nodes := [], taken := Some(b));
    var s7 := s6.(taken := None, emitted := [a, b]);
    assert Take(s1) == s2 by {
      assert Unlinked(s1).(nextSeq := first + 1) == s2 && ConsumeSkipped(s2) == s2;
    }
    assert Take(s5) == s6 by {
      assert Unlinked(s5) == s6;
    }
    hide Take, Unlinked, ConsumeSkipped;
    assert Step(s0, Submit(a), s1) && Step(s1, TakeReady, s2) && Step(s2, Emit, s3) && Step(s3, Submit(b), s4);
    assert Step(s4, Close, s5) && Step(s5, TakeReady, s6) && Step(s6, Emit, s7);
    hide Step;
    states := [s0, s1, s2, s3, s4, s5, s6, s7];
    actions := [Submit(a), TakeReady, Emit, Submit(b), Close, TakeReady, Emit];
    assert states[7].emitted[0].seq_ > states[7].emitted[1].seq_;
  }

  /** No run that uses each number at most once ever emits out of order. */
  ghost predicate AlwaysAscending(config: Config) {
    forall states: seq<State>, actions: seq<Action>, k: nat ::
      Run(states, actions) && states[0].config == config && UsesOnce(actions) && k < |states| ==>
        Ascending(states[k].emitted)
  }

  /** Using each number once is enough for the order exactly when the sink starts at number 0. */
  lemma OnceIsEnoughIff(config: Config)
    requires config.ordered && config.maxPending > 0
    ensures AlwaysAscending(config) <==> config.firstSeq == 0
  {
    if config.firstSeq == 0 {
      forall states: seq<State>, actions: seq<Action>, k: nat
        | Run(states, actions) && states[0].config == config && UsesOnce(actions) && k < |states|
        ensures Ascending(states[k].emitted)
      {
        OnceIsDisciplined(states, actions);
        RunKeepsOrder(states, actions, k);
      }
    } else {
      var states, actions := LateNumberBreaksOrder(config);
    }
  }

  // --------------------------------------------------------------------- code

  datatype SubmitResult = Taken | Refused | MustWait

  lemma InsertedLength(ordered: bool, nodes: seq<Record>, r: Record)
    ensures |Inserted(ordered, nodes, r)| == |nodes| + 1
  {
    InsertedInOrderContents(nodes, r);
  }

  /** The sink's fields; the ghost ones keep the history the steps speak of. */
  class Sink {
    const config: Config
    var nodes: seq<Record>
    var skippedSeqs: seq<nat>
    var skippedCap: nat
    var pending: nat
    var pendingBytes: nat
    var nextSeq: nat
    var closed: bool
    ghost var taken: Option<Record>
    ghost var accepted: seq<Record>
    ghost var skips: set<nat>
    ghost var emitted: seq<Record>
    // How often the skip list could not grow.
    ghost var refusals: nat

    constructor (config: Config)
      requires config.maxPending > 0
      ensures Valid() && Initial(View()) && View().config == config
    {
      this.config := config;
      nodes, skippedSeqs, skippedCap, refusals := [], [], 0, 0;
      pending, pendingBytes := 0, 0;
      nextSeq, closed := config.firstSeq, false;
      taken, accepted, skips, emitted := None, [], {}, [];
    }

    ghost function View(): State
      reads this
    {
      State(config, nodes, skippedSeqs, pendingBytes, nextSeq, closed, taken, accepted, skips, emitted)
    }

    ghost predicate Valid()
      reads this
    {
      pending == |nodes| && AscendingNumbers(skippedSeqs) && |skippedSeqs| <= skippedCap
    }

    method InsertNode(node: Record)
      modifies this`nodes
      ensures nodes == Inserted(config.ordered, old(nodes), node)
    {
      if nodes == [] || !config.ordered || node.seq_ < nodes[0].seq_ {
        nodes := [node] + nodes;
        return;
      }
      var it := 0;
      while it + 1 < |nodes| && nodes[it + 1].seq_ <= node.seq_
        invariant it < |nodes|
        invariant InsertedInOrder(nodes, node) == nodes[..it + 1] + InsertedInOrder(nodes[it + 1..], node)
      {
        ghost var rest := nodes[it + 1..];
        assert rest[1..] == nodes[it + 2..];
        assert nodes[..it + 2] == nodes[..it + 1] + [rest[0]];
        it := it + 1;
      }
      nodes := nodes[..it + 1] + [node] + nodes[it + 1..];
    }

    /** Step nextSeq over the front of the skip list, shifting the list down each time. */
    method ConsumeSkippedLocked()
      modifies this`skippedSeqs, this`nextSeq
      ensures View() == ConsumeSkipped(old(View())) && |skippedSeqs| <= |old(skippedSeqs)|
      ensures AscendingNumbers(old(skippedSeqs)) ==> AscendingNumbers(skippedSeqs)
    {
      ghost var k := 0;
      while |skippedSeqs| > 0 && skippedSeqs[0] == nextSeq
        invariant k <= |old(skippedSeqs)|
        invariant skippedSeqs == old(skippedSeqs)[k..] && nextSeq == old(nextSeq) + k
        invariant Consumed(old(skippedSeqs), old(nextSeq)) == k + Consumed(skippedSeqs, nextSeq)
        decreases |skippedSeqs|
      {
        nextSeq := nextSeq + 1;
        skippedSeqs := skippedSeqs[1..];
        k := k + 1;
      }
    }

    /** take_ready_node; None when the consumer has to wait. */
    method TakeReadyNode() returns (node: Option<Record>)
      requires Valid() && taken == None
      modifies this`nodes, this`skippedSeqs, this`pending, this`pendingBytes, this`nextSeq, this`taken
      ensures Valid()
      ensures node.Some? <==> old(CanTake(View()))
      ensures if node.Some? then Step(old(View()), TakeReady, View()) && taken == node else View() == old(View())
    {
      if nodes == [] {
        return None;
      }
      var head := nodes[0];
      if config.ordered && head.seq_ != nextSeq && !closed {
        return None;
      }
      Unlink();
      if config.ordered && head.seq_ == nextSeq {
        nextSeq := nextSeq + 1;
        ConsumeSkippedLocked();
      }
      return Some(head);
    }

    /** Take the head off the list and its bytes off the count, which stops at zero. */
    method Unlink()
      requires pending == |nodes| > 0
      modifies this`nodes, this`pending, this`pendingBytes, this`taken
      ensures View() == Unlinked(old(View())) && pending == |nodes|
    {
      taken := Some(nodes[0]);
      pendingBytes := if nodes[0].size <= pendingBytes then pendingBytes - nodes[0].size else 0;
      nodes := nodes[1..];
      pending := pending - 1;
    }

    /** The callback and the disposal, outside the lock. */
    method EmitRecord(node: Record)
      requires Valid() && taken == Some(node)
      modifies this`taken, this`emitted
      ensures Valid() && Step(old(View()), Emit, View())
    {
      emitted := emitted + [node];
      taken := None;
    }

    /** One pass of submit through the lock; MustWait is the wait on can_submit. */
    method Submit(record: Record) returns (result: SubmitResult)
      requires Valid()
      modifies this
      ensures Valid()
      ensures result == if old(closed) then Refused else if old(HasRoom(View(), record)) then Taken else MustWait
      ensures if result == MustWait then View() == old(View()) else Step(old(View()), Action.Submit(record), View())
    {
      if closed {
        return Refused;
      }
      if pending >= config.maxPending ||
         !(config.maxPendingBytes == 0 || CanAdd(pendingBytes, record.size, config.maxPendingBytes)) {
        return MustWait;
      }
      InsertNode(record);
      InsertedLength(config.ordered, old(nodes), record);
      pending := pending + 1;
      pendingBytes := pendingBytes + record.size;
      accepted := accepted + [record];
      return Taken;
    }

    /** False only when the skip list could not grow. */
    method SkipSeq(n: nat) returns (ok: bool)
      requires Valid()
      modifies this`skippedSeqs, this`skippedCap, this`nextSeq, this`skips, this`refusals
      ensures Valid() && Step(old(View()), Skip(n, ok), View())
      ensures refusals == old(refusals) + if ok then 0 else 1
      ensures !ok ==> |skippedSeqs| == skippedCap
    {
      if !config.ordered || n < nextSeq {
        return true;
      }
      var pos := FindSkip(n);
      if pos < |skippedSeqs| && skippedSeqs[pos] == n {
        return true;
      }
      if |skippedSeqs| == skippedCap {
        var granted := GrowSkips();
        if !granted {
          return false;
        }
      }
      AddSkip(n, pos);
      return true;
    }

    /** The realloc of the skip list. */
    method GrowSkips() returns (granted: bool)
      modifies this`skippedCap, this`refusals
      ensures if granted then skippedCap > old(skippedCap) && refusals == old(refusals)
              else skippedCap == old(skippedCap) && refusals == old(refusals) + 1
    {
      granted := *;
      if granted {
        skippedCap := if skippedCap == 0 then 32 else skippedCap * 2;
      } else {
        refusals := refusals + 1;
      }
    }

    method AddSkip(n: nat, pos: nat)
      requires Valid() && |skippedSeqs| < skippedCap && pos <= |skippedSeqs| && n !in skippedSeqs
      requires InsertedSkip(skippedSeqs, n) == skippedSeqs[..pos] + [n] + skippedSeqs[pos..]
      modifies this`skippedSeqs, this`nextSeq, this`skips
      ensures Valid() && View() == Skipped(old(View()), n)
    {
      hide AscendingNumbers, InsertedSkip, Consumed;
      InsertedSkipAscending(skippedSeqs, n);
      skippedSeqs := skippedSeqs[..pos] + [n] + skippedSeqs[pos..];
      skips := skips + {n};
      ConsumeSkippedLocked();
    }

    /** Where n belongs in the skip list. */
    method FindSkip(n: nat) returns (pos: nat)
      requires AscendingNumbers(skippedSeqs)
      ensures pos <= |skippedSeqs|
      ensures n in skippedSeqs <==> pos < |skippedSeqs| && skippedSeqs[pos] == n
      ensures n !in skippedSeqs ==> InsertedSkip(skippedSeqs, n) == skippedSeqs[..pos] + [n] + skippedSeqs[pos..]
    {
      pos := 0;
      while pos < |skippedSeqs| && skippedSeqs[pos] < n
        invariant pos <= |skippedSeqs|
        invariant forall i :: 0 <= i < pos ==> skippedSeqs[i] < n
      {
        pos := pos + 1;
      }
      SkipPosition(skippedSeqs, n, pos);
    }

    method CloseSink()
      requires Valid()
      modifies this`closed
      ensures Valid() && Step(old(View()), Close, View())
    {
      closed := true;
    }
  }
}
