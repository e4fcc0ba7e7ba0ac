/** The table of running children: the slot each one gets and what reaping one does to the others. */
module Children {
  import opened Sets
  import opened Wrappers

  datatype Child = Child(pid: int, slot: int, execErrno: Option<int>)

  /** Every child has its own process and its own slot below maxProcs. */
  predicate Apart(children: seq<Child>, maxProcs: nat) {
    && (forall i :: 0 <= i < |children| ==> 0 <= children[i].slot < maxProcs)
    && (forall i, j :: 0 <= i < j < |children| ==> children[i].slot != children[j].slot)
    && (forall i, j :: 0 <= i < j < |children| ==> children[i].pid != children[j].pid)
  }

  predicate SlotUsed(children: seq<Child>, slot: int) {
    exists i :: 0 <= i < |children| && children[i].slot == slot
  }

  predicate IsRunning(children: seq<Child>, pid: int) {
    exists i :: 0 <= i < |children| && children[i].pid == pid
  }

  ghost function Slots(children: seq<Child>): (slots: set<int>)
    ensures forall slot :: slot in slots <==> SlotUsed(children, slot)
  {
    set i | 0 <= i < |children| :: children[i].slot
  }

  lemma {:induction false} SlotCount(children: seq<Child>)
    ensures |Slots(children)| <= |children|
  {
    if children == [] {
      assert Slots(children) == {};
    } else {
      var front, last := children[..|children| - 1], children[|children| - 1];
      SlotCount(front);
      assert forall slot :: SlotUsed(children, slot) <==> SlotUsed(front, slot) || slot == last.slot by {
        forall slot | SlotUsed(children, slot) ensures SlotUsed(front, slot) || slot == last.slot {
          var i :| 0 <= i < |children| && children[i].slot == slot;
          assert i < |front| ==> front[i].slot == slot;
        }
        forall slot | SlotUsed(front, slot) ensures SlotUsed(children, slot) {
          var i :| 0 <= i < |front| && front[i].slot == slot;
          assert children[i].slot == slot;
        }
        assert children[|children| - 1].slot == last.slot;
      }
      assert Slots(children) == Slots(front) + {last.slot};
    }
  }

  lemma {:induction false} Numbers(n: nat) returns (numbers: set<int>)
    ensures |numbers| == n && forall k :: k in numbers <==> 0 <= k < n
  {
    if n == 0 {
      numbers := {};
    } else {
      numbers := Numbers(n - 1);
      numbers := numbers + {n - 1};
    }
  }

  /** With fewer children than slots some slot is free: the fallback of the search is never taken. */
  lemma SomeSlotIsFree(children: seq<Child>, maxProcs: nat)
    requires |children| < maxProcs
    ensures exists slot :: 0 <= slot < maxProcs && !SlotUsed(children, slot)
  {
    var numbers := Numbers(maxProcs);
    SlotCount(children);
    if forall slot :: 0 <= slot < maxProcs ==> SlotUsed(children, slot) {
      forall k | k in numbers ensures k in Slots(children) {
        assert SlotUsed(children, k);
      }
      SubsetSize(numbers, Slots(children));
    }
  }

  /** The same children but for one, in whatever order. */
  predicate OneLess(before: seq<Child>, child: Child, after: seq<Child>) {
    child in before && multiset(after) == multiset(before) - multiset{child}
  }

  /** Replacing an element by the last one and dropping the last place removes exactly that element. */
  function SwapRemoved(children: seq<Child>, i: nat): seq<Child>
    requires i < |children|
  {
    children[i := children[|children| - 1]][..|children| - 1]
  }

  lemma UpdateMultiset(children: seq<Child>, i: nat, child: Child)
    requires i < |children|
    ensures multiset(children[i := child]) == multiset(children) - multiset{children[i]} + multiset{child}
  {
    assert children == children[..i] + [children[i]] + children[i + 1..];
    assert children[i := child] == children[..i] + [child] + children[i + 1..];
  }

  lemma SwapRemovesOne(children: seq<Child>, i: nat)
    requires i < |children|
    ensures OneLess(children, children[i], SwapRemoved(children, i))
  {
    var last := children[|children| - 1];
    var swapped := children[i := last];
    assert swapped == SwapRemoved(children, i) + [last];
    assert multiset(swapped) == multiset(SwapRemoved(children, i)) + multiset{last};
    assert multiset(swapped) == multiset(children) - multiset{children[i]} + multiset{last} by {
      UpdateMultiset(children, i, last);
    }
    assert multiset(SwapRemoved(children, i)) == multiset(swapped) - multiset{last};
  }

  lemma SwapKeepsApart(children: seq<Child>, i: nat, maxProcs: nat)
    requires Apart(children, maxProcs) && i < |children|
    ensures Apart(SwapRemoved(children, i), maxProcs)
    ensures !SlotUsed(SwapRemoved(children, i), children[i].slot)
  {
  }

  lemma NotAll(children: seq<Child>, maxProcs: nat, slot: nat)
    requires slot < maxProcs && Apart(children, maxProcs)
    requires forall i :: 0 <= i < |children| ==> children[i].slot != slot
    ensures !SlotUsed(children, slot)
    ensures |children| < maxProcs
  {
    var numbers := Numbers(maxProcs);
    DistinctSlots(children);
    assert Slots(children) <= numbers - {slot};
    SubsetSize(Slots(children), numbers - {slot});
  }

  lemma {:induction false} DistinctSlots(children: seq<Child>)
    requires forall i, j :: 0 <= i < j < |children| ==> children[i].slot != children[j].slot
    ensures |Slots(children)| == |children|
  {
    if children == [] {
      assert Slots(children) == {};
    } else {
      var front, last := children[..|children| - 1], children[|children| - 1];
      DistinctSlots(front);
      assert !SlotUsed(front, last.slot);
      forall slot ensures slot in Slots(children) <==> slot in Slots(front) + {last.slot} {
        if SlotUsed(children, slot) {
          var i :| 0 <= i < |children| && children[i].slot == slot;
          assert i < |front| ==> front[i].slot == slot;
        }
        if SlotUsed(front, slot) {
          var i :| 0 <= i < |front| && front[i].slot == slot;
          assert children[i].slot == slot;
        }
        assert children[|children| - 1].slot == last.slot;
      }
      assert Slots(children) == Slots(front) + {last.slot};
    }
  }

  lemma AllUsed(children: seq<Child>, maxProcs: nat)
    requires forall slot :: 0 <= slot < maxProcs ==> SlotUsed(children, slot)
    ensures |children| >= maxProcs
  {
    if |children| < maxProcs {
      SomeSlotIsFree(children, maxProcs);
    }
  }

  class ChildTable {
    const children: array<Child>
    var running: nat

    constructor (maxProcs: nat)
      ensures Valid() && running == 0 && children.Length == maxProcs && fresh(children)
    {
      children := new Child[maxProcs](_ => Child(0, 0, None));
      running := 0;
    }

    ghost predicate Valid()
      reads this, children
    {
      running <= children.Length && Apart(children[..running], children.Length)
    }

    ghost function Live(): seq<Child>
      requires running <= children.Length
      reads this, children
    {
      children[..running]
    }

    /** bx_child_pick_slot: the first slot no running child has. */
    method PickSlot() returns (slot: nat)
      requires Valid()
      ensures running < children.Length ==> slot < children.Length && !SlotUsed(Live(), slot)
      ensures running < children.Length ==> forall s :: 0 <= s < slot ==> SlotUsed(Live(), s)
      ensures running == children.Length ==> slot == 0
    {
      slot := 0;
      while slot < children.Length
        invariant slot <= children.Length
        invariant forall s :: 0 <= s < slot ==> SlotUsed(Live(), s)
      {
        var used := false;
        for i := 0 to running
          invariant !used && forall j :: 0 <= j < i ==> children[j].slot != slot
        {
          if children[i].slot == slot {
            used := true;
            assert Live()[i].slot == slot;
            break;
          }
        }
        if !used {
          NotAll(Live(), children.Length, slot);
          return;
        }
        slot := slot + 1;
      }
      AllUsed(Live(), children.Length);
      slot := 0;
    }

    /** The tail of bx_child_spawn_argv: the new child goes behind the others. */
    method Spawned(pid: int, slot: nat)
      requires Valid() && running < children.Length && slot < children.Length
      requires !SlotUsed(Live(), slot) && forall i :: 0 <= i < running ==> children[i].pid != pid
      modifies this, children
      ensures Valid() && Live() == old(Live()) + [Child(pid, slot, None)]
    {
      forall i | 0 <= i < running ensures children[i].slot != slot {
        assert Live()[i].slot == children[i].slot;
      }
      children[running] := Child(pid, slot, None);
      running := running + 1;
    }

    /** bx_child_find. */
    method Find(pid: int) returns (index: int)
      requires Valid()
      ensures -1 <= index < running
      ensures index >= 0 ==> children[index].pid == pid
      ensures index >= 0 <==> IsRunning(Live(), pid)
    {
      for i := 0 to running
        invariant forall j :: 0 <= j < i ==> children[j].pid != pid
      {
        if children[i].pid == pid {
          assert Live()[i].pid == pid;
          return i;
        }
      }
      return -1;
    }

    /** The swap-removal of bx_child_reap: one child less, and what exec reported for it. */
    method Reaped(pid: int) returns (child: Option<Child>)
      requires Valid()
      modifies this, children
      ensures Valid()
      ensures child.Some? <==> IsRunning(old(Live()), pid)
      ensures child.None? ==> Live() == old(Live())
      ensures child.Some? ==> child.value.pid == pid && OneLess(old(Live()), child.value, Live())
      ensures child.Some? ==> !SlotUsed(Live(), child.value.slot)
    {
      hide Apart, SlotUsed, OneLess, IsRunning;
      var i := Find(pid);
      if i < 0 {
        return None;
      }
      ghost var before := Live();
      SwapRemovesOne(before, i);
      SwapKeepsApart(before, i, children.Length);
      child := Some(children[i]);
      MoveLast(i);
    }

    method MoveLast(i: nat)
      requires i < running <= children.Length
      modifies this, children
      ensures running == old(running) - 1 && Live() == SwapRemoved(old(Live()), i)
    {
      children[i] := children[running - 1];
      running := running - 1;
    }
  }
}
