/**
 * The ordered-publication window: a coordinator reserves numbered slots and publishes
 * finished packets in order, while workers hand packets back in any order.
 *
 * Every region the code runs under its lock is one step of the machine; between steps of the
 * coordinator any number of worker steps may come.
 */
module OrderedPublication {
  import opened Sets

  datatype Goal = Reserve | Drain

  /** Where the single coordinator is. */
  datatype Pc =
    | Idle
    | Flushing(goal: Goal)
    | Publishing(goal: Goal, seq_: nat)
    | Checking(goal: Goal)
    | Waiting(goal: Goal)

  datatype State = State(
    pending: seq<nat>, inflight: nat, maxInflight: nat, nextSubmit: nat, nextPublish: nat,
    workers: set<nat>,      // numbers whose packets are with a worker
    released: set<nat>,     // numbers given up by release_slot
    pc: Pc,
    published: seq<nat>     // numbers passed to the publish callback, in order
  )

  // -------------------------------------------------------------------- steps

  predicate HeadReady(s: State) {
    s.pending != [] && s.pending[0] == s.nextPublish
  }

  /** The condition the coordinator sleeps on. */
  predicate Blocked(s: State) {
    !HeadReady(s) && s.inflight > 0
  }

  /** The pending list after a packet is linked in before the first one not smaller. */
  function Inserted(pending: seq<nat>, n: nat): (r: seq<nat>)
    ensures |r| == |pending| + 1
    ensures forall x :: x in r <==> x in pending || x == n
  {
    if pending != [] && pending[0] < n then
      [pending[0]] + Inserted(pending[1..], n)
    else [n] + pending
  }

  datatype Action =
    | Start(goal: Goal)
    | Pop
    | NothingReady
    | Published(ok: bool)
    | TryReserve
    | TryDrain
    | Wake
    | HandBack(n: nat)
    | Release(n: nat)

  ghost predicate Step(s: State, a: Action, t: State) {
    match a
    case Start(goal) =>
      s.pc == Idle && t == s.(pc := Flushing(goal))
    case Pop =>
      && s.pc.Flushing? && HeadReady(s)
      && t == s.(pc := Publishing(s.pc.goal, s.pending[0]), pending := s.pending[1..],
                 nextPublish := s.nextPublish + 1)
    case NothingReady =>
      s.pc.Flushing? && !HeadReady(s) && t == s.(pc := Checking(s.pc.goal))
    case Published(ok) =>
      && s.pc.Publishing?
      && t == s.(pc := if ok then Flushing(s.pc.goal) else Idle,
                 published := s.published + [s.pc.seq_],
                 inflight := if s.inflight > 0 then s.inflight - 1 else 0)
    case TryReserve =>
      && s.pc == Checking(Reserve)
      && t == if s.inflight < s.maxInflight then
                s.(pc := Idle, workers := s.workers + {s.nextSubmit},
                   nextSubmit := s.nextSubmit + 1, inflight := s.inflight + 1)
              else s.(pc := Waiting(Reserve))
    case TryDrain =>
      && s.pc == Checking(Drain)
      && t == s.(pc := if s.inflight == 0 then Idle else Waiting(Drain))
    case Wake =>
      s.pc.Waiting? && !Blocked(s) && t == s.(pc := Flushing(s.pc.goal))
    case HandBack(n) =>
      n in s.workers && t == s.(workers := s.workers - {n}, pending := Inserted(s.pending, n))
    case Release(n) =>
      // release_slot by the holder of n: the count goes down, the number stays assigned
      && n in s.workers
      && t == s.(workers := s.workers - {n}, released := s.released + {n},
                 inflight := if s.inflight > 0 then s.inflight - 1 else 0)
  }

  predicate Initial(s: State) {
    s.maxInflight > 0 && s == State([], 0, s.maxInflight, 0, 0, {}, {}, Idle, [])
  }

  // ---------------------------------------------------------------- invariant

  predicate StrictlyAscending(xs: seq<nat>) {
    forall i, j :: 0 <= i < j < |xs| ==> xs[i] < xs[j]
  }

  /** Packets popped but not yet counted as done. */
  function BeingPublished(s: State): nat {
    if s.pc.Publishing? then 1 else 0
  }

  /** The packets a worker still holds or has handed back and nobody has popped. */
  function Outstanding(s: State): set<nat> {
    s.workers + set n | n in s.pending
  }

  predicate Sorted(s: State) {
    StrictlyAscending(s.pending) && forall n :: n in s.pending ==> n !in s.workers
  }

  /** The window holds the released and the outstanding numbers and no others. */
  ghost predicate Covered(s: State) {
    && s.nextPublish <= s.nextSubmit && s.released !! Outstanding(s)
    && forall n :: n in s.released + Outstanding(s) <==> s.nextPublish <= n < s.nextSubmit
  }

  /** The callback has seen every number before the window, in order. */
  predicate InStep(s: State) {
    && (s.pc.Publishing? ==> s.nextPublish > 0 && s.pc.seq_ == s.nextPublish - 1)
    && |s.published| == s.nextPublish - BeingPublished(s)
    && (forall i :: 0 <= i < |s.published| ==> s.published[i] == i)
  }

  ghost predicate Inv(s: State) {
    && s.maxInflight > 0
    && s.inflight == |Outstanding(s)| + BeingPublished(s)
    && s.inflight <= s.maxInflight
    && Sorted(s) && Covered(s) && InStep(s)
  }

  lemma WindowMembers(s: State)
    requires Inv(s)
    ensures forall n :: n in s.released ==> s.nextPublish <= n < s.nextSubmit
    ensures forall n :: n in Outstanding(s) ==> s.nextPublish <= n < s.nextSubmit
  {
    forall n | n in s.released ensures s.nextPublish <= n < s.nextSubmit {
      assert n in s.released + Outstanding(s);
    }
    forall n | n in Outstanding(s) ensures s.nextPublish <= n < s.nextSubmit {
      assert n in s.released + Outstanding(s);
    }
  }

  lemma {:induction false} InsertedAscending(pending: seq<nat>, n: nat)
    requires StrictlyAscending(pending) && n !in pending
    ensures StrictlyAscending(Inserted(pending, n))
  {
    if pending != [] && pending[0] < n {
      var rest := Inserted(pending[1..], n);
      InsertedAscending(pending[1..], n);
      forall j | 0 <= j < |rest| ensures pending[0] < rest[j] {
        assert rest[j] in rest;
      }
    }
  }

  lemma PassSmaller(pending: seq<nat>, link: nat, n: nat)
    requires link < |pending| && pending[link] < n
    requires Inserted(pending, n) == pending[..link] + Inserted(pending[link..], n)
    ensures Inserted(pending, n) == pending[..link + 1] + Inserted(pending[link + 1..], n)
  {
    var rest := pending[link..];
    assert rest[1..] == pending[link + 1..];
    assert pending[..link + 1] == pending[..link] + [rest[0]];
  }

  lemma StopBefore(pending: seq<nat>, link: nat, n: nat)
    requires link <= |pending| && (link < |pending| ==> n <= pending[link])
    ensures Inserted(pending[link..], n) == [n] + pending[link..]
    ensures pending[..link] + ([n] + pending[link..]) == pending[..link] + [n] + pending[link..]
  {
  }

  lemma StepKeepsInv(s: State, a: Action, t: State)
    requires Inv(s) && Step(s, a, t)
    ensures Inv(t)
  {
    match a
    case HandBack(n) =>
      HandBackKeepsInv(s, n, t);
    case Release(n) =>
      assert Outstanding(t) == Outstanding(s) - {n};
    case Pop =>
      PopKeepsInv(s, t);
    case TryReserve =>
      ReserveKeepsInv(s, t);
    case _ =>
      assert Outstanding(t) == Outstanding(s);
  }

  lemma HandBackKeepsInv(s: State, n: nat, t: State)
    requires Inv(s) && Step(s, HandBack(n), t)
    ensures Inv(t)
  {
    InsertedAscending(s.pending, n);
    assert Outstanding(t) == Outstanding(s);
  }

  lemma PopTakesOne(s: State, t: State)
    requires Inv(s) && Step(s, Pop, t)
    ensures s.nextPublish in Outstanding(s) && Outstanding(t) == Outstanding(s) - {s.nextPublish}
  {
    assert s.pending[0] in s.pending;
    assert forall x :: x in s.pending <==> x == s.pending[0] || x in t.pending;
  }

  lemma PopShape(s: State, t: State)
    requires Step(s, Pop, t)
    ensures t.released == s.released && t.nextPublish == s.nextPublish + 1 && t.nextSubmit == s.nextSubmit
  {
  }

  lemma WithoutFirst(released: set<nat>, outstanding: set<nat>, lo: nat, hi: nat)
    requires released !! outstanding && lo in outstanding
    requires forall n :: n in released + outstanding <==> lo <= n < hi
    ensures lo < hi && released !! outstanding - {lo}
    ensures forall n :: n in released + (outstanding - {lo}) <==> lo + 1 <= n < hi
  {
    assert lo in released + outstanding;
    forall n ensures n in released + (outstanding - {lo}) <==> lo + 1 <= n < hi {
      assert n in released + (outstanding - {lo}) <==> n in released + outstanding && n != lo;
    }
  }

  lemma PopKeepsCover(s: State, t: State)
    requires Inv(s) && Step(s, Pop, t)
    ensures Covered(t)
  {
    PopTakesOne(s, t);
    PopShape(s, t);
    hide Outstanding, Step, Sorted, InStep;
    WithoutFirst(s.released, Outstanding(s), s.nextPublish, s.nextSubmit);
  }

  lemma PopKeepsOrder(s: State, t: State)
    requires Inv(s) && Step(s, Pop, t)
    ensures Sorted(t)
  {
    hide Outstanding;
    assert forall n :: n in t.pending ==> n in s.pending;
  }

  lemma PopKeepsInv(s: State, t: State)
    requires Inv(s) && Step(s, Pop, t)
    ensures Inv(t)
  {
    PopTakesOne(s, t);
    PopKeepsCover(s, t);
    PopKeepsOrder(s, t);
    assert |Outstanding(t)| == |Outstanding(s)| - 1;
    hide Outstanding, Sorted, Covered;
  }

  lemma SlotKeepsCover(s: State, t: State)
    requires Inv(s) && Step(s, TryReserve, t) && s.inflight < s.maxInflight
    ensures Outstanding(t) == Outstanding(s) + {s.nextSubmit} && Covered(t)
  {
    WindowMembers(s);
    assert Outstanding(t) == Outstanding(s) + {s.nextSubmit};
    hide Outstanding;
    forall n ensures n in t.released + Outstanding(t) <==> t.nextPublish <= n < t.nextSubmit {
      assert n in t.released + Outstanding(t) <==> n in s.released + Outstanding(s) || n == s.nextSubmit;
    }
  }

  lemma ReserveKeepsInv(s: State, t: State)
    requires Inv(s) && Step(s, TryReserve, t)
    ensures Inv(t)
  {
    if s.inflight < s.maxInflight {
      SlotKeepsCover(s, t);
      WindowMembers(s);
      assert |Outstanding(t)| == |Outstanding(s)| + 1;
      hide Covered;
    } else {
      assert Outstanding(t) == Outstanding(s);
    }
  }

  // --------------------------------------------------------------------- runs

  ghost predicate Run(states: seq<State>, actions: seq<Action>) {
    && |states| == |actions| + 1 && Initial(states[0])
    && forall i :: 0 <= i < |actions| ==> Step(states[i], actions[i], states[i + 1])
  }

  /** Every state of every interleaving satisfies the invariant. */
  lemma {:induction false} RunKeepsInv(states: seq<State>, actions: seq<Action>, k: nat)
    requires Run(states, actions) && k < |states|
    ensures Inv(states[k])
  {
    if k > 0 {
      RunKeepsInv(states, actions, k - 1);
      assert Step(states[k - 1], actions[k - 1], states[k - 1 + 1]);
      StepKeepsInv(states[k - 1], actions[k - 1], states[k]);
    }
  }

  /**
   * In every reachable state the callback has seen exactly 0, 1, 2, ..., a released number is
   * never published, and the packets queued, active or not yet published are within the limit.
   */
  lemma PublishedInOrder(states: seq<State>, actions: seq<Action>, k: nat)
    requires Run(states, actions) && k < |states|
    ensures var s := states[k];
      && s.published == seq(|s.published|, i => i)
      && (forall n :: n in s.released ==> n !in s.published)
      && |Outstanding(s)| + BeingPublished(s) == s.inflight <= s.maxInflight
  {
    RunKeepsInv(states, actions, k);
    WindowMembers(states[k]);
  }

  /** If the next number in order is not first in the list, it is not in it. */
  lemma NextIsNotThere(s: State)
    requires Inv(s) && !HeadReady(s)
    ensures s.nextPublish !in s.pending
  {
    WindowMembers(s);
    assert s.pending != [] ==> s.pending[0] in Outstanding(s);
  }

  lemma HandBackKeepsHead(s: State, n: nat, t: State)
    requires Inv(s) && Step(s, HandBack(n), t) && HeadReady(s)
    ensures HeadReady(t)
  {
    assert n in s.released + Outstanding(s);
  }

  lemma WindowIsARange(s: State)
    requires Inv(s)
    ensures s.nextPublish <= s.nextSubmit && s.maxInflight > 0
  {
  }

  // -------------------------------------------------------------- lost packets

  /** Some number before n was given up, so the window can never come to n. */
  predicate Stranded(released: set<nat>, n: nat) {
    exists m :: m in released && m < n
  }

  /** The outstanding packets that no run can publish any more. */
  function Unpublishable(s: State): set<nat> {
    set n | n in Outstanding(s) && Stranded(s.released, n)
  }

  /** The released numbers are the last ones reserved. */
  ghost predicate ReleasedAreLast(s: State) {
    forall n, m :: n in s.released && n <= m < s.nextSubmit ==> m in s.released
  }

  /** Nothing is lost exactly when the released numbers are a final segment of the window. */
  lemma NothingLostIff(s: State)
    requires Inv(s)
    ensures Unpublishable(s) == {} <==> ReleasedAreLast(s)
  {
    WindowMembers(s);
    if ReleasedAreLast(s) {
      forall n | n in Outstanding(s) ensures !Stranded(s.released, n) {
      }
    } else {
      var n, m :| n in s.released && n <= m < s.nextSubmit && m !in s.released;
      assert m in s.released + Outstanding(s) && Stranded(s.released, m);
      assert m in Unpublishable(s);
    }
  }

  /** A release strands the packets reserved after it, and only those. */
  lemma ReleaseStrandsLater(s: State, n: nat, t: State)
    requires Inv(s) && Step(s, Release(n), t)
    ensures Unpublishable(t) == (Unpublishable(s) + set m | m in Outstanding(s) && n < m) - {n}
  {
    assert Outstanding(t) == Outstanding(s) - {n};
    forall m ensures Stranded(t.released, m) <==> Stranded(s.released, m) || n < m {
      if n < m {
        assert n in t.released;
      }
    }
  }

  lemma PopLosesNothing(s: State, t: State)
    requires Inv(s) && Step(s, Pop, t)
    ensures Unpublishable(t) == Unpublishable(s)
  {
    PopTakesOne(s, t);
    assert forall m :: m in s.released ==> m in s.released + Outstanding(s);
    assert !Stranded(s.released, s.nextPublish);
  }

  /** What is lost stays lost, and nothing else is lost without another release or reservation. */
  lemma LostStaysLost(s: State, a: Action, t: State)
    requires Inv(s) && Step(s, a, t) && !a.Release? && (a.TryReserve? ==> t.pc.Waiting?)
    ensures Unpublishable(t) == Unpublishable(s) && t.released == s.released
    ensures a != Pop ==> Outstanding(t) == Outstanding(s)
  {
    if a == Pop {
      PopLosesNothing(s, t);
    } else {
      hide Inv;
      assert Outstanding(t) == Outstanding(s);
    }
  }

  /** The coordinator sleeps only for a packet a worker owes it, or when everything outstanding is lost. */
  lemma BlockedMeansWorkerOwes(s: State)
    requires Inv(s) && !s.pc.Publishing? && Blocked(s)
    ensures s.nextPublish in s.workers || (s.nextPublish in s.released && Unpublishable(s) == Outstanding(s) != {})
    ensures |Unpublishable(s)| < s.inflight ==> s.nextPublish in s.workers
  {
    assert forall i :: 0 <= i < |s.pending| ==> s.pending[i] in s.pending && s.pending[i] in Outstanding(s);
    assert Outstanding(s) != {};
    var n :| n in Outstanding(s);
    assert n in s.released + Outstanding(s);
    assert s.nextPublish in s.released + Outstanding(s);
    if s.nextPublish in s.released {
      forall m | m in Outstanding(s) ensures Stranded(s.released, m) {
        assert m in s.released + Outstanding(s);
      }
    }
  }

  /** Asleep with nobody left to wake it. */
  predicate Stuck(s: State) {
    s.pc.Waiting? && Blocked(s) && s.workers == {}
  }

  /** Whether some step other than starting a new operation or giving a number up is possible. */
  ghost predicate CanStep(s: State) {
    exists a: Action, t: State :: !a.Start? && !a.Release? && Step(s, a, t)
  }

  lemma WaiterSteps(s: State)
    requires Inv(s) && s.pc.Waiting?
    ensures CanStep(s) <==> !Stuck(s)
  {
    if !Blocked(s) {
      assert Step(s, Wake, s.(pc := Flushing(s.pc.goal)));
    } else if s.workers != {} {
      var n :| n in s.workers;
      assert Step(s, HandBack(n), s.(workers := s.workers - {n}, pending := Inserted(s.pending, n)));
    }
  }

  lemma AwakeSteps(s: State)
    requires Inv(s) && s.pc != Idle && !s.pc.Waiting?
    ensures CanStep(s)
  {
    match s.pc
    case Flushing(goal) =>
      if HeadReady(s) {
        assert Step(s, Pop, s.(pc := Publishing(goal, s.pending[0]), pending := s.pending[1..],
                               nextPublish := s.nextPublish + 1));
      } else {
        assert Step(s, NothingReady, s.(pc := Checking(goal)));
      }
    case Publishing(goal, n) =>
      assert Step(s, Published(false), s.(pc := Idle, published := s.published + [n], inflight := s.inflight - 1));
    case Checking(goal) =>
      if goal == Drain {
        assert Step(s, TryDrain, s.(pc := if s.inflight == 0 then Idle else Waiting(Drain)));
      } else if s.inflight < s.maxInflight {
        assert Step(s, TryReserve, s.(pc := Idle, workers := s.workers + {s.nextSubmit},
                                      nextSubmit := s.nextSubmit + 1, inflight := s.inflight + 1));
      } else {
        assert Step(s, TryReserve, s.(pc := Waiting(Reserve)));
      }
  }

  /**
   * A running operation can always take a step, except asleep behind a released number with
   * every outstanding packet lost. Without releases there is no such state.
   */
  lemma NoDeadlock(s: State)
    requires Inv(s) && s.pc != Idle
    ensures CanStep(s) <==> !Stuck(s)
    ensures Stuck(s) ==> s.nextPublish in s.released && Unpublishable(s) == Outstanding(s) != {}
  {
    if s.pc.Waiting? {
      WaiterSteps(s);
      if Stuck(s) {
        BlockedMeansWorkerOwes(s);
      }
    } else {
      AwakeSteps(s);
    }
  }

  /** How far the coordinator is from its next visible progress. */
  function Rank(s: State): nat {
    match s.pc
    case Idle => 0
    case Publishing(_, _) => 6
    case Checking(_) => if HeadReady(s) then 5 else 1
    case Waiting(_) => if HeadReady(s) then 4 else if s.inflight == 0 then 3 else 0
    case Flushing(_) => if HeadReady(s) then 3 else 2
  }

  /** (a, b, c) is lexicographically below (x, y, z). */
  predicate Below(a: nat, b: int, c: nat, x: nat, y: int, z: nat) {
    a < x || (a == x && (b < y || (b == y && c < z)))
  }

  lemma CoordinatorGetsCloser(s: State, a: Action, t: State)
    requires Step(s, a, t) && s.pc != Idle && t.pc != Idle && s.maxInflight > 0
    requires !a.HandBack? && !a.Release?
    ensures |t.workers| <= |s.workers| && t.nextSubmit - t.nextPublish <= s.nextSubmit - s.nextPublish
    ensures a == Pop || Rank(t) < Rank(s)
    ensures a == Pop ==> t.nextSubmit - t.nextPublish < s.nextSubmit - s.nextPublish
  {
  }

  lemma WorkerGetsCloser(s: State, a: Action, t: State)
    requires Step(s, a, t) && (a.HandBack? || a.Release?)
    ensures |t.workers| < |s.workers|
  {
    assert s.workers == t.workers + {a.n};
  }

  /**
   * Until the running operation returns, every step brings its end closer: reserve and
   * drain finish, or get stuck, in every run in which workers hand their packets back.
   */
  lemma OperationsEnd(s: State, a: Action, t: State)
    requires Inv(s) && Step(s, a, t) && s.pc != Idle && t.pc != Idle
    ensures 0 <= t.nextSubmit - t.nextPublish
    ensures Below(|t.workers|, t.nextSubmit - t.nextPublish, Rank(t),
                  |s.workers|, s.nextSubmit - s.nextPublish, Rank(s))
  {
    StepKeepsInv(s, a, t);
    WindowIsARange(s);
    WindowIsARange(t);
    hide Inv, Step, Rank;
    if a.HandBack? || a.Release? {
      WorkerGetsCloser(s, a, t);
    } else {
      CoordinatorGetsCloser(s, a, t);
    }
  }

  lemma HeadIsMember(xs: seq<nat>)
    ensures xs != [] ==> xs[0] in xs
  {
  }

  /**
   * A drain that returns true leaves nothing behind: every number reserved and not released
   * was published, and the released ones are the last.
   */
  lemma DrainIsComplete(s: State, t: State)
    requires Inv(s) && Step(s, TryDrain, t) && t.pc == Idle
    ensures DrainedState(t)
  {
    StepKeepsInv(s, TryDrain, t);
    HeadIsMember(t.pending);
    assert Outstanding(t) == {} && t.released + {} == t.released;
    assert forall n :: n in t.pending ==> n in Outstanding(t);
  }

  /** Everything before the first released number published, nothing outstanding. */
  ghost predicate DrainedState(s: State) {
    && s.pending == [] && s.workers == {}
    && s.published == seq(s.nextPublish, i => i)
    && forall n :: n in s.released <==> s.nextPublish <= n < s.nextSubmit
  }

  lemma LongerExtends(s: State, t: State)
    requires Inv(s) && Inv(t) && |s.published| <= |t.published|
    ensures s.published <= t.published
  {
  }

  // ------------------------------------------------- when an operation returns

  /**
   * One call of the goal's operation, from the step after its start to its successful return,
   * with workers handing packets back and none giving a number up.
   */
  ghost predicate Succeeds(s: State, goal: Goal, states: seq<State>, actions: seq<Action>) {
    && |states| == |actions| + 1 && actions != [] && states[0] == s.(pc := Flushing(goal))
    && (forall i :: 0 <= i < |actions| ==>
          Step(states[i], actions[i], states[i + 1]) && !actions[i].Start? && !actions[i].Release?)
    && (forall i :: 0 <= i < |actions| ==> states[i].pc != Idle)
    && states[|actions|].pc == Idle && !actions[|actions| - 1].Published?
  }

  ghost predicate CanSucceed(s: State, goal: Goal) {
    exists states, actions :: Succeeds(s, goal, states, actions)
  }

  /** What every state of such a call has kept. */
  ghost predicate During(s: State, goal: Goal, t: State) {
    && Inv(t) && t.pc != Idle && t.pc.goal == goal
    && t.nextSubmit == s.nextSubmit && t.maxInflight == s.maxInflight && t.released == s.released
    && Unpublishable(t) == Unpublishable(s)
  }

  lemma StepKeepsDuring(s: State, goal: Goal, t: State, a: Action, u: State)
    requires During(s, goal, t) && Step(t, a, u) && !a.Start? && !a.Release? && u.pc != Idle
    ensures During(s, goal, u)
  {
    hide Inv, Unpublishable;
    StepKeepsInv(t, a, u);
    LostStaysLost(t, a, u);
  }

  lemma {:induction false} CallKeeps(s: State, goal: Goal, states: seq<State>, actions: seq<Action>, k: nat)
    requires Inv(s) && s.pc == Idle && Succeeds(s, goal, states, actions) && k < |actions|
    ensures During(s, goal, states[k])
  {
    hide Inv, Unpublishable;
    if k == 0 {
      StepKeepsInv(s, Start(goal), states[0]);
      LostStaysLost(s, Start(goal), states[0]);
    } else {
      CallKeeps(s, goal, states, actions, k - 1);
      var a := actions[k - 1];
      assert Step(states[k - 1], a, states[k - 1 + 1]) && !a.Start? && !a.Release?;
      StepKeepsDuring(s, goal, states[k - 1], a, states[k]);
    }
  }

  /** The last step of a successful call. */
  lemma CallEnds(s: State, goal: Goal, states: seq<State>, actions: seq<Action>) returns (last: State)
    requires Inv(s) && s.pc == Idle && Succeeds(s, goal, states, actions)
    ensures During(s, goal, last)
    ensures Step(last, if goal == Drain then TryDrain else TryReserve, states[|actions|])
  {
    var k := |actions| - 1;
    CallKeeps(s, goal, states, actions, k);
    last := states[k];
    assert Step(states[k], actions[k], states[k + 1]);
  }

  /** What a drain that returned true leaves, whatever was released before it. */
  lemma DrainLeaves(s: State, states: seq<State>, actions: seq<Action>)
    requires Inv(s) && s.pc == Idle && Succeeds(s, Drain, states, actions)
    ensures var t := states[|actions|];
      DrainedState(t) && t.nextSubmit == s.nextSubmit && t.released == s.released
  {
    var last := CallEnds(s, Drain, states, actions);
    DrainIsComplete(last, states[|actions|]);
  }

  /** A path of worker and coordinator steps that ends with the check of the goal. */
  ghost predicate Path(s: State, t: State, states: seq<State>, actions: seq<Action>) {
    && |states| == |actions| + 1 && states[0] == s && states[|actions|] == t
    && (forall i :: 0 <= i < |actions| ==>
          Step(states[i], actions[i], states[i + 1]) && !actions[i].Start? && !actions[i].Release?)
    && (forall i :: 0 <= i < |states| ==> states[i].pc != Idle)
  }

  lemma Prepend(s: State, a: Action, u: State, t: State, states: seq<State>, actions: seq<Action>)
    requires Step(s, a, u) && s.pc != Idle && !a.Start? && !a.Release? && Path(u, t, states, actions)
    ensures Path(s, t, [s] + states, [a] + actions)
  {
    var ss, as_ := [s] + states, [a] + actions;
    forall i | 0 <= i < |as_| ensures Step(ss[i], as_[i], ss[i + 1]) && !as_[i].Start? && !as_[i].Release? {
      if i > 0 {
        assert Step(states[i - 1], actions[i - 1], states[i - 1 + 1]);
        assert ss[i] == states[i - 1] && ss[i + 1] == states[i - 1 + 1] && as_[i] == actions[i - 1];
      }
    }
  }

  lemma Append(s: State, t: State, states: seq<State>, actions: seq<Action>, a: Action, u: State, goal: Goal, s0: State)
    requires s0.(pc := Flushing(goal)) == s && Path(s, t, states, actions)
    requires Step(t, a, u) && u.pc == Idle && !a.Start? && !a.Release? && !a.Published?
    ensures Succeeds(s0, goal, states + [u], actions + [a])
  {
    var ss, as_ := states + [u], actions + [a];
    forall i | 0 <= i < |as_| ensures Step(ss[i], as_[i], ss[i + 1]) && !as_[i].Start? && !as_[i].Release? {
      if i < |actions| {
        assert Step(states[i], actions[i], states[i + 1]);
      }
    }
  }

  lemma PublishHead(s: State, goal: Goal) returns (u: State, v: State)
    requires Inv(s) && s.pc == Flushing(goal) && HeadReady(s)
    ensures Step(s, Pop, u) && Step(u, Published(true), v) && u.pc != Idle
    ensures Inv(v) && v.pc == Flushing(goal) && v.workers == s.workers && |v.pending| < |s.pending|
    ensures Unpublishable(v) == Unpublishable(s) && v.maxInflight == s.maxInflight
  {
    u := s.(pc := Publishing(goal, s.pending[0]), pending := s.pending[1..], nextPublish := s.nextPublish + 1);
    StepKeepsInv(s, Pop, u);
    LostStaysLost(s, Pop, u);
    assert u.inflight > 0;
    hide Inv;
    v := u.(pc := Flushing(goal), published := u.published + [u.pc.seq_], inflight := u.inflight - 1);
    StepKeepsInv(u, Published(true), v);
    LostStaysLost(u, Published(true), v);
  }

  lemma OnlyLostLeft(s: State)
    requires Inv(s) && s.pc.Flushing? && s.workers == {} && !HeadReady(s)
    ensures Outstanding(s) == Unpublishable(s)
  {
    if s.inflight > 0 {
      BlockedMeansWorkerOwes(s);
    }
  }

  /** Once the workers have handed everything back and every callback succeeds, only lost packets are left. */
  lemma {:induction false} Settle(s: State, goal: Goal)
    returns (t: State, states: seq<State>, actions: seq<Action>)
    requires Inv(s) && s.pc == Flushing(goal)
    ensures Path(s, t, states, actions) && Inv(t) && t.pc == Checking(goal)
    ensures Outstanding(t) == Unpublishable(t) == Unpublishable(s) && t.maxInflight == s.maxInflight
    decreases |s.workers|, |s.pending|
  {
    hide Inv, Unpublishable, Outstanding;
    if s.workers != {} {
      var n :| n in s.workers;
      var u := s.(workers := s.workers - {n}, pending := Inserted(s.pending, n));
      StepKeepsInv(s, HandBack(n), u);
      LostStaysLost(s, HandBack(n), u);
      t, states, actions := Settle(u, goal);
      Prepend(s, HandBack(n), u, t, states, actions);
      states, actions := [s] + states, [HandBack(n)] + actions;
    } else if HeadReady(s) {
      var u, v := PublishHead(s, goal);
      t, states, actions := Settle(v, goal);
      Prepend(u, Published(true), v, t, states, actions);
      Prepend(s, Pop, u, t, [u] + states, [Published(true)] + actions);
      states, actions := [s] + ([u] + states), [Pop] + ([Published(true)] + actions);
    } else {
      t := s.(pc := Checking(goal));
      StepKeepsInv(s, NothingReady, t);
      LostStaysLost(s, NothingReady, t);
      states, actions := [s, t], [NothingReady];
      OnlyLostLeft(s);
    }
  }

  /**
   * Exactly when drain can return true, in every reachable state: once the workers hand
   * everything back it can if and only if the released numbers are the last ones reserved.
   */
  lemma DrainSucceedsIff(s: State)
    requires Inv(s) && s.pc == Idle
    ensures CanSucceed(s, Drain) <==> ReleasedAreLast(s)
  {
    NothingLostIff(s);
    if CanSucceed(s, Drain) {
      var states, actions :| Succeeds(s, Drain, states, actions);
      var last := CallEnds(s, Drain, states, actions);
      assert Outstanding(last) == {};
    }
    if ReleasedAreLast(s) {
      var f := s.(pc := Flushing(Drain));
      StepKeepsInv(s, Start(Drain), f);
      LostStaysLost(s, Start(Drain), f);
      var t, states, actions := Settle(f, Drain);
      Append(f, t, states, actions, TryDrain, t.(pc := Idle), Drain, s);
    }
  }

  lemma SucceedsIntoRoom(s: State, states: seq<State>, actions: seq<Action>)
    requires Inv(s) && s.pc == Idle && Succeeds(s, Reserve, states, actions)
    ensures |Unpublishable(s)| < s.maxInflight
  {
    var last := CallEnds(s, Reserve, states, actions);
    hide Succeeds;
    SubsetSize(Unpublishable(last), Outstanding(last));
  }

  lemma StartIsAStep(s: State, goal: Goal)
    requires s.pc == Idle
    ensures Step(s, Start(goal), s.(pc := Flushing(goal)))
  {
  }

  lemma TakeSlot(t: State) returns (u: State)
    requires Inv(t) && t.pc == Checking(Reserve) && |Outstanding(t)| < t.maxInflight
    ensures Step(t, TryReserve, u) && u.pc == Idle
  {
    u := t.(pc := Idle, workers := t.workers + {t.nextSubmit},
            nextSubmit := t.nextSubmit + 1, inflight := t.inflight + 1);
  }

  lemma RoomSuffices(s: State)
    requires Inv(s) && s.pc == Idle && |Unpublishable(s)| < s.maxInflight
    ensures CanSucceed(s, Reserve)
  {
    hide Inv, Step, Unpublishable, Outstanding, Path, Succeeds;
    var f := s.(pc := Flushing(Reserve));
    assert Step(s, Start(Reserve), f) by {
      StartIsAStep(s, Reserve);
    }
    StepKeepsInv(s, Start(Reserve), f);
    LostStaysLost(s, Start(Reserve), f);
    var t, states, actions := Settle(f, Reserve);
    var u := TakeSlot(t);
    Append(f, t, states, actions, TryReserve, u, Reserve, s);
  }

  /** Exactly when reserve_slot can succeed: lost packets keep their slots, and some slot must be free of them. */
  lemma ReserveSucceedsIff(s: State)
    requires Inv(s) && s.pc == Idle
    ensures CanSucceed(s, Reserve) <==> |Unpublishable(s)| < s.maxInflight
  {
    if CanSucceed(s, Reserve) {
      var states, actions :| Succeeds(s, Reserve, states, actions);
      SucceedsIntoRoom(s, states, actions);
    }
    if |Unpublishable(s)| < s.maxInflight {
      RoomSuffices(s);
    }
  }

  lemma StrandedRun(maxInflight: nat) returns (states: seq<State>, actions: seq<Action>)
    requires maxInflight > 1
    ensures Run(states, actions) && states[0].maxInflight == maxInflight
    ensures Stuck(states[|actions|]) && states[|actions|].pc == Waiting(Drain)
  {
    var s0 := State([], 0, maxInflight, 0, 0, {}, {}, Idle, []);
    var s1 := s0.(pc := Flushing(Reserve));
    var s2 := s1.(pc := Checking(Reserve));
    var s3 := State([], 1, maxInflight, 1, 0, {0}, {}, Idle, []);
    var s4 := s3.(pc := Flushing(Reserve));
    var s5 := s4.(pc := Checking(Reserve));
    var s6 := State([], 2, maxInflight, 2, 0, {0, 1}, {}, Idle, []);
    var s7 := s6.(workers := {1}, released := {0}, inflight := 1);
    var s8 := s7.(workers := {}, pending := [1]);
    var s9 := s8.(pc := Flushing(Drain));
    var s10 := s9.(pc := Checking(Drain));
    var s11 := s10.(pc := Waiting(Drain));
    assert Step(s0, Start(Reserve), s1) && Step(s1, NothingReady, s2) && Step(s2, TryReserve, s3);
    assert Step(s3, Start(Reserve), s4) && Step(s4, NothingReady, s5) && Step(s5, TryReserve, s6);
    assert Step(s6, Release(0), s7) && Step(s7, HandBack(1), s8);
    assert Step(s8, Start(Drain), s9) && Step(s9, NothingReady, s10) && Step(s10, TryDrain, s11);
    hide Step;
    states := [s0, s1, s2, s3, s4, s5, s6, s7, s8, s9, s10, s11];
    actions := [Start(Reserve), NothingReady, TryReserve, Start(Reserve), NothingReady, TryReserve,
                Release(0), HandBack(1), Start(Drain), NothingReady, TryDrain];
  }

  /** The condition fails in reachable states: number 0 released after 1 was reserved strands a drain for good. */
  lemma ReleaseStrandsDrain(maxInflight: nat) returns (states: seq<State>, actions: seq<Action>)
    requires maxInflight > 1
    ensures Run(states, actions) && states[0].maxInflight == maxInflight
    ensures states[|actions|].pc == Waiting(Drain) && !CanStep(states[|actions|])
  {
    states, actions := StrandedRun(maxInflight);
    RunKeepsInv(states, actions, |actions|);
    NoDeadlock(states[|actions|]);
  }

  // --------------------------------------------------------------------- code

  /**
   * The shared state. Each method below that the code runs under the lock is one step;
   * ReserveSlot and Drain are the coordinator's own loops, with worker steps in between.
   */
  class PublicationState {
    var pending: seq<nat>
    var inflight: nat
    var maxInflight: nat
    var nextSubmitSeq: nat
    var nextPublishSeq: nat
    // The numbers whose packets are with a worker: outside the library, but part of every run.
    var workers: set<nat>
    ghost var released: set<nat>
    ghost var pc: Pc
    ghost var published: seq<nat>
    // The numbers whose callback failed.
    ghost var refused: seq<nat>

    constructor (maxInflight: nat)
      requires maxInflight > 0
      ensures Initial(View()) && View().maxInflight == maxInflight
    {
      pending := [];
      inflight := 0;
      this.maxInflight := maxInflight;
      nextSubmitSeq, nextPublishSeq := 0, 0;
      workers, released, pc, published, refused := {}, {}, Idle, [], [];
    }

    ghost function View(): State
      reads this
    {
      State(pending, inflight, maxInflight, nextSubmitSeq, nextPublishSeq, workers, released, pc, published)
    }

    /** The packets no run can publish any more. */
    ghost function Lost(): set<nat>
      reads this
    {
      Unpublishable(View())
    }

    ghost function InHand(): set<nat>
      reads this
    {
      Outstanding(View())
    }

    /** What was handed back is still there unless it has been published. */
    ghost predicate Keeps(before: seq<nat>)
      reads this`pending, this`nextPublishSeq
    {
      forall m :: m in before ==> m in pending || m < nextPublishSeq
    }

    /** insert_pending: walk to the first packet not smaller and link in before it. */
    method InsertPending(n: nat)
      modifies this`pending
      ensures pending == Inserted(old(pending), n)
    {
      hide Inserted;
      var link := 0;
      assert pending[..0] + Inserted(pending[0..], n) == Inserted(pending, n) by {
        assert pending[0..] == pending;
      }
      while link < |pending| && pending[link] < n
        invariant pending == old(pending) && link <= |pending|
        invariant Inserted(pending, n) == pending[..link] + Inserted(pending[link..], n)
      {
        PassSmaller(pending, link, n);
        link := link + 1;
      }
      StopBefore(pending, link, n);
      assert Inserted(pending, n) == pending[..link] + [n] + pending[link..];
      pending := pending[..link] + [n] + pending[link..];
    }

    /** A worker hands its packet back. */
    method PublishPacket(n: nat)
      requires Inv(View()) && n in workers
      modifies this`pending, this`workers
      ensures Step(old(View()), HandBack(n), View()) && Inv(View())
      ensures Lost() == old(Lost()) && InHand() == old(InHand()) && Keeps(old(pending))
      ensures old(HeadReady(View())) ==> HeadReady(View())
    {
      ghost var s := View();
      InsertPending(n);
      workers := workers - {n};
      StepKeepsInv(s, HandBack(n), View());
      LostStaysLost(s, HandBack(n), View());
      if HeadReady(s) {
        HandBackKeepsHead(s, n, View());
      }
    }

    /** The holder of number n gives its slot up; the code is not told which number that is. */
    method ReleaseSlot(n: nat)
      requires Inv(View()) && n in workers
      modifies this`inflight, this`workers, this`released
      ensures Step(old(View()), Release(n), View()) && Inv(View())
      ensures Lost() == old(Lost() + set m | m in InHand() && n < m) - {n}
    {
      ghost var s := View();
      if inflight > 0 {
        inflight := inflight - 1;
      }
      workers := workers - {n};
      released := released + {n};
      StepKeepsInv(s, Release(n), View());
      ReleaseStrandsLater(s, n, View());
    }

    /** Any number of workers hand packets back while the lock is free. */
    method Interfere()
      requires Inv(View())
      modifies this`pending, this`workers
      ensures Inv(View()) && workers <= old(workers)
      ensures Lost() == old(Lost()) && InHand() == old(InHand()) && Keeps(old(pending))
      ensures old(HeadReady(View())) ==> HeadReady(View())
      ensures workers == old(workers) ==> pending == old(pending)
    {
      hide Inv, Outstanding, Unpublishable;
      while true
        invariant Inv(View()) && workers <= old(workers)
        invariant Lost() == old(Lost()) && InHand() == old(InHand()) && Keeps(old(pending))
        invariant old(HeadReady(View())) ==> HeadReady(View())
        invariant workers == old(workers) ==> pending == old(pending)
        decreases workers
      {
        var more: bool := *;
        if !more || workers == {} {
          return;
        }
        var n :| n in workers;
        PublishPacket(n);
        assert n !in workers;
      }
    }

    /** Sleeping ends only after some worker has handed a packet back; there must be one to do it. */
    method AwaitWorker()
      requires Inv(View()) && workers != {}
      modifies this`pending, this`workers
      ensures Inv(View()) && workers < old(workers)
      ensures Lost() == old(Lost()) && InHand() == old(InHand()) && Keeps(old(pending))
    {
      var n :| n in workers;
      PublishPacket(n);
      assert n !in workers;
      Interfere();
    }

    /**
     * Publish everything that is next in order. The callback runs without the lock. It stops
     * early only when the callback refuses a packet, which is then the last one published.
     */
    method FlushReady() returns (ok: bool)
      requires Inv(View()) && pc.Flushing?
      modifies this`pending, this`workers, this`inflight, this`nextPublishSeq, this`pc, this`published, this`refused
      ensures Inv(View()) && workers <= old(workers) && old(|published|) <= |published|
      ensures ok ==> pc == Checking(old(pc).goal) && !HeadReady(View())
      ensures !ok ==> pc == Idle
      ensures Lost() == old(Lost()) && Refused(ok, old(refused), old(published))
      ensures old(nextPublishSeq) <= nextPublishSeq && Keeps(old(pending))
      ensures ok ==> nextPublishSeq !in old(pending)
    {
      hide Inv, Unpublishable, Outstanding;
      while true
        invariant Inv(View()) && pc == old(pc) && workers <= old(workers) && old(|published|) <= |published|
        invariant Lost() == old(Lost()) && refused == old(refused)
        invariant old(nextPublishSeq) <= nextPublishSeq && Keeps(old(pending))
        decreases nextSubmitSeq - nextPublishSeq
      {
        Interfere();
        if pending == [] || pending[0] != nextPublishSeq {
          ghost var s := View();
          NextIsNotThere(s);
          pc := Checking(pc.goal);
          StepKeepsInv(s, NothingReady, View());
          LostStaysLost(s, NothingReady, View());
          return true;
        }
        WindowIsARange(View());
        var packet := Pop();
        Interfere();
        ok := Publish(packet);
        if !ok {
          return;
        }
      }
    }

    /** Only a refused callback makes an operation fail, and its packet was the last one published. */
    ghost predicate Refused(ok: bool, before: seq<nat>, publishedBefore: seq<nat>)
      reads this`refused, this`published
    {
      if ok then refused == before
      else |publishedBefore| < |published| && refused == before + [published[|published| - 1]]
    }

    method Pop() returns (packet: nat)
      requires Inv(View()) && pc.Flushing? && HeadReady(View())
      modifies this`pending, this`nextPublishSeq, this`pc
      ensures Step(old(View()), Action.Pop, View()) && Inv(View())
      ensures pc == Publishing(old(pc).goal, packet) && Lost() == old(Lost())
      ensures nextPublishSeq == old(nextPublishSeq) + 1 && Keeps(old(pending))
    {
      ghost var s := View();
      packet := pending[0];
      pending := pending[1..];
      nextPublishSeq := nextPublishSeq + 1;
      pc := Publishing(pc.goal, packet);
      StepKeepsInv(s, Action.Pop, View());
      LostStaysLost(s, Action.Pop, View());
    }

    /** The callback, then the window shrinks whether or not it succeeded. */
    method Publish(packet: nat) returns (ok: bool)
      requires Inv(View()) && pc.Publishing? && pc.seq_ == packet
      modifies this`inflight, this`pc, this`published, this`refused
      ensures Step(old(View()), Published(ok), View()) && Inv(View()) && Lost() == old(Lost())
      ensures refused == if ok then old(refused) else old(refused) + [packet]
    {
      ghost var s := View();
      ok := *;
      if !ok {
        refused := refused + [packet];
      }
      published := published + [packet];
      if inflight > 0 {
        inflight := inflight - 1;
      }
      pc := if ok then Flushing(pc.goal) else Idle;
      StepKeepsInv(s, Published(ok), View());
      LostStaysLost(s, Published(ok), View());
    }

    /** Whether some outstanding packet, if there is any, can still be published. */
    ghost predicate Hopeful()
      reads this
    {
      inflight > 0 ==> |Lost()| < inflight
    }

    /** Sleep until the next packet in order is there or nothing is in flight. */
    method WaitForReady()
      requires Inv(View()) && pc.Waiting? && Hopeful()
      modifies this`pending, this`workers, this`pc
      ensures Inv(View()) && pc == Flushing(old(pc).goal) && workers <= old(workers) && Lost() == old(Lost())
      ensures old(Blocked(View())) ==> workers < old(workers)
      ensures Keeps(old(pending))
    {
      hide Inv, Unpublishable, Outstanding;
      while (pending == [] || pending[0] != nextPublishSeq) && inflight > 0
        invariant Inv(View()) && pc == old(pc) && workers <= old(workers)
        invariant Lost() == old(Lost()) && Hopeful() && Keeps(old(pending))
        invariant old(Blocked(View())) && Blocked(View()) ==> workers <= old(workers)
        invariant old(Blocked(View())) && !Blocked(View()) ==> workers < old(workers)
        decreases workers
      {
        BlockedMeansWorkerOwes(View());
        AwaitWorker();
      }
      ghost var s := View();
      pc := Flushing(pc.goal);
      StepKeepsInv(s, Wake, View());
      LostStaysLost(s, Wake, View());
    }

    /**
     * The lock is released and taken again before the wait. Nothing was ready when the workers
     * were quiet, so some worker has handed a packet back since by the time the sleep ends.
     */
    method Sleep(ghost quiet: set<nat>)
      requires Inv(View()) && pc.Waiting? && Hopeful() && inflight > 0
      requires workers <= quiet && (workers == quiet ==> !HeadReady(View()))
      modifies this`pending, this`workers, this`pc
      ensures Inv(View()) && pc == Flushing(old(pc).goal) && workers < quiet && Lost() == old(Lost())
      ensures Keeps(old(pending))
    {
      hide Inv, Unpublishable, Outstanding;
      Interfere();
      WaitForReady();
    }

    /** Flush, then take the lock again: nothing was ready when the workers were quiet. */
    method FlushAndRelock() returns (ok: bool, ghost quiet: set<nat>)
      requires Inv(View()) && pc.Flushing?
      modifies this`pending, this`workers, this`inflight, this`nextPublishSeq, this`pc, this`published, this`refused
      ensures Inv(View()) && workers <= quiet <= old(workers) && old(|published|) <= |published|
      ensures ok ==> pc == Checking(old(pc).goal) && (workers == quiet ==> !HeadReady(View()))
      ensures !ok ==> pc == Idle
      ensures Lost() == old(Lost()) && Refused(ok, old(refused), old(published))
      ensures old(nextPublishSeq) <= nextPublishSeq && Keeps(old(pending))
      ensures ok ==> nextPublishSeq !in old(pending)
    {
      hide Inv, Unpublishable, Outstanding;
      ok := FlushReady();
      quiet := workers;
      if ok {
        Interfere();
      }
    }

    /** Under the lock: take a slot if the window has room, else get ready to sleep. */
    method TryTakeSlot() returns (taken: bool, n: nat)
      requires Inv(View()) && pc == Checking(Reserve)
      modifies this`nextSubmitSeq, this`inflight, this`workers, this`pc
      ensures Step(old(View()), TryReserve, View()) && Inv(View())
      ensures taken ==> n == old(nextSubmitSeq) && pc == Idle
      ensures !taken ==> pc == Waiting(Reserve) && inflight == maxInflight > 0 && workers == old(workers)
      ensures !taken ==> Lost() == old(Lost())
    {
      ghost var s := View();
      n := nextSubmitSeq;
      taken := inflight < maxInflight;
      if taken {
        nextSubmitSeq := nextSubmitSeq + 1;
        inflight := inflight + 1;
        workers := workers + {n};
        pc := Idle;
      } else {
        pc := Waiting(Reserve);
        LostStaysLost(s, TryReserve, View());
      }
      StepKeepsInv(s, TryReserve, View());
    }

    /**
     * Hand out the next number once the window has room, after publishing what was next in
     * order; false exactly when the callback refused a packet. It returns because lost
     * packets do not fill the window, which is exactly when it can.
     */
    method ReserveSlot() returns (ok: bool, n: nat)
      requires Inv(View()) && pc == Idle && |Lost()| < maxInflight
      modifies this
      ensures Inv(View()) && pc == Idle && old(published) <= published
      ensures maxInflight == old(maxInflight) && released == old(released)
      ensures nextSubmitSeq == old(nextSubmitSeq) + if ok then 1 else 0
      ensures ok ==> n == old(nextSubmitSeq) && n in workers && nextPublishSeq !in old(pending)
      ensures Refused(ok, old(refused), old(published))
    {
      hide Inv, Unpublishable, Outstanding;
      StartGoal(Reserve);
      n := 0;
      while true
        invariant Inv(View()) && pc == Flushing(Reserve) && old(|published|) <= |published|
        invariant nextSubmitSeq == old(nextSubmitSeq) && maxInflight == old(maxInflight)
        invariant released == old(released) && Lost() == old(Lost()) && refused == old(refused)
        invariant Keeps(old(pending))
        decreases workers
      {
        ghost var quiet;
        ok, quiet := FlushAndRelock();
        if !ok {
          LongerExtends(old(View()), View());
          return;
        }
        ok, n := TryTakeSlot();
        if ok {
          LongerExtends(old(View()), View());
          return;
        }
        Sleep(quiet);
      }
    }

    /**
     * Publish everything still outstanding; false exactly when the callback refused a packet.
     * It returns because the released numbers are the last, which is exactly when it can
     * return true.
     */
    method Drain() returns (ok: bool)
      requires Inv(View()) && pc == Idle && ReleasedAreLast(View())
      modifies this
      ensures Inv(View()) && pc == Idle && old(published) <= published
      ensures nextSubmitSeq == old(nextSubmitSeq) && maxInflight == old(maxInflight) && released == old(released)
      ensures ok ==> DrainedState(View())
      ensures Refused(ok, old(refused), old(published))
    {
      hide Inv, Unpublishable, Outstanding, DrainedState, ReleasedAreLast, Step;
      assert |Lost()| == 0 by {
        NothingLostIff(View());
      }
      StartGoal(Goal.Drain);
      while true
        invariant Inv(View()) && pc == Flushing(Goal.Drain) && old(|published|) <= |published|
        invariant nextSubmitSeq == old(nextSubmitSeq) && maxInflight == old(maxInflight)
        invariant released == old(released) && Lost() == old(Lost()) && refused == old(refused)
        decreases workers
      {
        ghost var quiet;
        ok, quiet := FlushAndRelock();
        if !ok {
          LongerExtends(old(View()), View());
          return;
        }
        ok := TryFinish();
        if ok {
          LongerExtends(old(View()), View());
          return;
        }
        Sleep(quiet);
      }
    }

    ghost method StartGoal(goal: Goal)
      requires Inv(View()) && pc == Idle
      modifies this`pc
      ensures Inv(View()) && pc == Flushing(goal) && Lost() == old(Lost())
    {
      ghost var s := View();
      pc := Flushing(goal);
      StepKeepsInv(s, Start(goal), View());
      LostStaysLost(s, Start(goal), View());
    }

    /** Under the lock: is anything still in flight? */
    method TryFinish() returns (done: bool)
      requires Inv(View()) && pc == Checking(Goal.Drain)
      modifies this`pc
      ensures Step(old(View()), TryDrain, View()) && Inv(View()) && Lost() == old(Lost())
      ensures done ==> pc == Idle && DrainedState(View())
      ensures !done ==> pc == Waiting(Goal.Drain) && inflight > 0
    {
      ghost var s := View();
      done := inflight == 0;
      pc := if done then Idle else Waiting(Goal.Drain);
      StepKeepsInv(s, TryDrain, View());
      LostStaysLost(s, TryDrain, View());
      if done {
        DrainIsComplete(s, View());
      }
    }
  }
}
