/** The inode ledger: an open-addressing table with linear probing that stands for a map. */
module InodeLedger {
  import opened Bits
  import opened CTypes
  import opened Sets

  const S_IFMT := 0xF000
  const INITIAL_CAP := 16
  const SLOT_SIZE := 40

  /** A file's identity; kind is the S_IFMT part of its mode. */
  datatype Key = Key(dev: nat, ino: nat, kind: nat)

  /** Producer sequence numbers. */
  datatype Stamp = Stamp(sequence: nat, origin: nat)

  /** A slot is free when its kind is 0. */
  datatype Slot = Slot(key: Key, stamp: Stamp)

  const FREE := Slot(Key(0, 0, 0), Stamp(0, 0))

  function Kind(mode: nat): nat {
    BitAnd(mode, S_IFMT)
  }

  predicate Used(slot: Slot) {
    slot.key.kind != 0
  }

  // ---------------------------------------------------------------- positions

  function Hash(dev: nat, ino: nat): nat {
    var v0 := BitXor(ino, dev * 0x9e3779b97f4a7c15 % WORD);
    var v1 := BitXor(v0, v0 / 0x4000_0000) * 0xbf58476d1ce4e5b9 % WORD;
    var v2 := BitXor(v1, v1 / 0x800_0000) * 0x94d049bb133111eb % WORD;
    BitXor(v2, v2 / 0x8000_0000)
  }

  /** Where the search for a key starts. */
  function Home(key: Key, cap: nat): (home: nat)
    requires 0 < cap
    ensures home < cap
  {
    Hash(key.dev, key.ino) % cap
  }

  /** The position t steps after home, wrapping around once. */
  function At(home: nat, t: nat, cap: nat): (position: nat)
    requires home < cap && t < cap
    ensures position < cap
  {
    if home + t < cap then home + t else home + t - cap
  }

  /** How many steps after home a position comes. */
  function Distance(home: nat, position: nat, cap: nat): (t: nat)
    requires home < cap && position < cap
    ensures t < cap && At(home, t, cap) == position
  {
    if home <= position then position - home else position - home + cap
  }

  lemma StepsAndBack(home: nat, t: nat, cap: nat)
    requires home < cap && t < cap
    ensures Distance(home, At(home, t, cap), cap) == t
    ensures At(home, 0, cap) == home
  {
  }

  lemma HomeIsMasked(key: Key, cap: nat, bits: nat)
    requires cap == Pow2(bits)
    ensures BitAnd(Hash(key.dev, key.ino), cap - 1) == Home(key, cap)
  {
    MaskIsRemainder(Hash(key.dev, key.ino), bits);
  }

  /** The mask in the probe loop steps to the next position. */
  lemma NextPosition(home: nat, t: nat, cap: nat, bits: nat)
    requires cap == Pow2(bits) && home < cap && t + 1 < cap
    ensures BitAnd(At(home, t, cap) + 1, cap - 1) == At(home, t + 1, cap)
  {
    var next := At(home, t, cap) + 1;
    MaskIsRemainder(next, bits);
    if next < cap {
      Division(next, cap, 0, next);
    } else {
      Division(next, cap, 1, 0);
    }
  }

  // ---------------------------------------------------------------- invariant

  /** No key is stored twice. */
  predicate Distinct(slots: seq<Slot>) {
    forall i, j :: 0 <= i < j < |slots| && Used(slots[i]) && Used(slots[j]) ==> slots[i].key != slots[j].key
  }

  /** A search for a stored key meets no free slot on its way. */
  predicate Reachable(slots: seq<Slot>, i: nat)
    requires i < |slots|
  {
    forall t :: 0 <= t < Distance(Home(slots[i].key, |slots|), i, |slots|) ==>
      Used(slots[At(Home(slots[i].key, |slots|), t, |slots|)])
  }

  ghost predicate Probed(slots: seq<Slot>) {
    Distinct(slots) && forall i :: 0 <= i < |slots| && Used(slots[i]) ==> Reachable(slots, i)
  }

  predicate Stored(slots: seq<Slot>, key: Key) {
    exists i :: 0 <= i < |slots| && Used(slots[i]) && slots[i].key == key
  }

  /** The table holds exactly what the map says. */
  ghost predicate Holds(slots: seq<Slot>, contents: map<Key, Stamp>) {
    && (forall i :: 0 <= i < |slots| && Used(slots[i]) ==>
         slots[i].key in contents && contents[slots[i].key] == slots[i].stamp)
    && (forall key :: key in contents ==> key.kind != 0 && Stored(slots, key))
  }

  ghost predicate Table(slots: seq<Slot>, contents: map<Key, Stamp>) {
    Probed(slots) && Holds(slots, contents)
  }

  // --------------------------------------------------------------- free slots

  ghost function KeysBefore(slots: seq<Slot>, n: nat): set<Key>
    requires n <= |slots|
  {
    set i | 0 <= i < n :: slots[i].key
  }

  lemma {:induction false} FullTableCounts(slots: seq<Slot>, n: nat)
    requires n <= |slots| && Distinct(slots)
    requires forall i :: 0 <= i < n ==> Used(slots[i])
    ensures |KeysBefore(slots, n)| == n
  {
    if n > 0 {
      FullTableCounts(slots, n - 1);
      assert slots[n - 1].key !in KeysBefore(slots, n - 1);
      assert KeysBefore(slots, n) == KeysBefore(slots, n - 1) + {slots[n - 1].key};
    }
  }

  /** A table with fewer keys than slots has a free slot. */
  lemma FreeSlotExists(slots: seq<Slot>, contents: map<Key, Stamp>) returns (free: nat)
    requires Table(slots, contents) && |contents| < |slots|
    ensures free < |slots| && !Used(slots[free])
  {
    if free' :| 0 <= free' < |slots| && !Used(slots[free']) {
      free := free';
    } else {
      FullTableCounts(slots, |slots|);
      assert KeysBefore(slots, |slots|) <= contents.Keys;
      SubsetSize(KeysBefore(slots, |slots|), contents.Keys);
      assert false;
    }
  }

  // ------------------------------------------------------------------- search

  /** What a search for key ends at. */
  predicate Found(slots: seq<Slot>, key: Key, index: nat) {
    && index < |slots|
    && (Used(slots[index]) ==> slots[index].key == key)
    && (forall t :: 0 <= t < Distance(Home(key, |slots|), index, |slots|) ==>
         Used(slots[At(Home(key, |slots|), t, |slots|)]) && slots[At(Home(key, |slots|), t, |slots|)].key != key)
  }

  /** A search ends at the slot that holds its key, if there is one. */
  lemma SearchFinds(slots: seq<Slot>, key: Key, index: nat, j: nat)
    requires Probed(slots) && Found(slots, key, index)
    requires j < |slots| && Used(slots[j]) && slots[j].key == key
    ensures index == j
  {
    var home, cap := Home(key, |slots|), |slots|;
    var here, there := Distance(home, index, cap), Distance(home, j, cap);
    assert Reachable(slots, j);
  }

  /** A search that ends at a free slot has missed nothing. */
  lemma SearchIsComplete(slots: seq<Slot>, contents: map<Key, Stamp>, key: Key, index: nat)
    requires Table(slots, contents) && Found(slots, key, index)
    ensures Used(slots[index]) <==> key in contents
    ensures Used(slots[index]) ==> contents[key] == slots[index].stamp
  {
    if key in contents {
      var j :| 0 <= j < |slots| && Used(slots[j]) && slots[j].key == key;
      SearchFinds(slots, key, index, j);
    }
  }

  /** Writing a stamp where its search ended updates the map. */
  lemma WriteKeepsTable(slots: seq<Slot>, contents: map<Key, Stamp>, key: Key, index: nat, stamp: Stamp)
    requires Table(slots, contents) && Found(slots, key, index) && key.kind != 0
    ensures Table(slots[index := Slot(key, stamp)], contents[key := stamp])
  {
    SearchIsComplete(slots, contents, key, index);
    var slots' := slots[index := Slot(key, stamp)];
    WriteKeepsProbed(slots, contents, key, index, stamp);
    forall k | k in contents[key := stamp] ensures k.kind != 0 && Stored(slots', k) {
      if k == key {
        assert slots'[index].key == key;
      } else {
        var j :| 0 <= j < |slots| && Used(slots[j]) && slots[j].key == k;
        assert slots'[j].key == k;
      }
    }
  }

  lemma WriteKeepsProbed(slots: seq<Slot>, contents: map<Key, Stamp>, key: Key, index: nat, stamp: Stamp)
    requires Table(slots, contents) && Found(slots, key, index) && key.kind != 0
    requires Used(slots[index]) <==> key in contents
    ensures Probed(slots[index := Slot(key, stamp)])
  {
    var slots' := slots[index := Slot(key, stamp)];
    forall i | 0 <= i < |slots'| && Used(slots'[i]) ensures Reachable(slots', i) {
      if i != index {
        assert Reachable(slots, i);
      }
    }
    forall i, j | 0 <= i < j < |slots'| && Used(slots'[i]) && Used(slots'[j]) ensures slots'[i].key != slots'[j].key {
      if i == index && !Used(slots[index]) {
        assert slots[j].key in contents;
      } else if j == index && !Used(slots[index]) {
        assert slots[i].key in contents;
      }
    }
  }

  // ------------------------------------------------------------------- growth

  lemma FreeTable(slots: seq<Slot>)
    requires forall i :: 0 <= i < |slots| ==> slots[i] == FREE
    ensures Table(slots, map[])
  {
  }

  /** moved is what the first n slots hold. */
  ghost predicate Moved(slots: seq<Slot>, contents: map<Key, Stamp>, n: nat, moved: map<Key, Stamp>) {
    && n <= |slots|
    && Table(slots, contents)
    && (forall i :: 0 <= i < n && Used(slots[i]) ==> slots[i].key in moved)
    && (forall key :: key in moved ==> key in contents && moved[key] == contents[key])
  }

  lemma MovedStart(slots: seq<Slot>, contents: map<Key, Stamp>)
    requires Table(slots, contents)
    ensures Moved(slots, contents, 0, map[])
  {
  }

  lemma MovedSize(slots: seq<Slot>, contents: map<Key, Stamp>, n: nat, moved: map<Key, Stamp>)
    requires Moved(slots, contents, n, moved)
    ensures |moved| <= |contents|
  {
    SubsetSize(moved.Keys, contents.Keys);
  }

  lemma MoveOne(slots: seq<Slot>, contents: map<Key, Stamp>, n: nat, moved: map<Key, Stamp>,
                next: seq<Slot>, index: nat)
    requires Moved(slots, contents, n, moved) && n < |slots| && Used(slots[n])
    requires Table(next, moved) && Found(next, slots[n].key, index)
    ensures Moved(slots, contents, n + 1, moved[slots[n].key := slots[n].stamp])
    ensures Table(next[index := slots[n]], moved[slots[n].key := slots[n].stamp])
  {
    WriteKeepsTable(next, moved, slots[n].key, index, slots[n].stamp);
  }

  lemma MoveNone(slots: seq<Slot>, contents: map<Key, Stamp>, n: nat, moved: map<Key, Stamp>)
    requires Moved(slots, contents, n, moved) && n < |slots| && !Used(slots[n])
    ensures Moved(slots, contents, n + 1, moved)
  {
  }

  /** Growth loses and invents nothing. */
  lemma MovedAll(slots: seq<Slot>, contents: map<Key, Stamp>, moved: map<Key, Stamp>)
    requires Moved(slots, contents, |slots|, moved)
    ensures moved == contents
  {
    forall key | key in contents ensures key in moved {
      var i :| 0 <= i < |slots| && Used(slots[i]) && slots[i].key == key;
    }
    assert moved.Keys == contents.Keys;
  }

  // ------------------------------------------------------------------- ledger

  datatype Outcome = Accepted | Invalid | TooBig

  /** The number of keys that can never be too many for the table. */
  const ROOM := SIZE_MAX / 4 / SLOT_SIZE

  /**
   * When a record is accepted, from the map and the capacity alone. Without a kind, or with an
   * origin ahead of its sequence, it is invalid. Of the others, a known key is always
   * accepted, and a new one is refused only when the limit is reached; the table itself is
   * too small only for more keys than any caller's limit allows.
   */
  function Decision(contents: map<Key, Stamp>, cap: nat, key: Key, stamp: Stamp, limit: nat): (outcome: Outcome)
    ensures outcome == Invalid <==> key.kind == 0 || stamp.sequence < stamp.origin
    ensures key in contents ==> outcome != TooBig
    ensures key !in contents && limit <= |contents| ==> outcome != Accepted
    ensures outcome == TooBig && |contents| < limit ==> ROOM <= |contents|
    ensures stamp.origin == stamp.sequence && key.kind != 0 && limit <= ROOM ==>
      (outcome == Accepted <==> key in contents || |contents| < limit)
  {
    if key.kind == 0 || stamp.origin > stamp.sequence then Invalid
    else if key in contents then Accepted
    else if |contents| >= limit then TooBig
    else if (cap == 0 || |contents| >= cap / 2) && cap > SIZE_MAX / 2 / SLOT_SIZE then TooBig
    else Accepted
  }

  /** One call of Record, as the map sees it. */
  datatype Event = Event(key: Key, stamp: Stamp, outcome: Outcome)

  function Step(contents: map<Key, Stamp>, e: Event): map<Key, Stamp> {
    if e.outcome == Accepted then contents[e.key := e.stamp] else contents
  }

  function Run(events: seq<Event>): map<Key, Stamp> {
    if events == [] then map[] else Step(Run(events[..|events| - 1]), events[|events| - 1])
  }

  /** The last accepted event for key comes at i. */
  predicate LastAccepted(events: seq<Event>, key: Key, i: nat) {
    && i < |events| && events[i].key == key && events[i].outcome == Accepted
    && forall j :: i < j < |events| && events[j].key == key ==> events[j].outcome != Accepted
  }

  /** After any run a key maps to its last accepted stamp, and to nothing if none was accepted. */
  lemma {:induction false} RunKeepsLastAccepted(events: seq<Event>, key: Key)
    ensures forall i: nat :: LastAccepted(events, key, i) ==> key in Run(events) && Run(events)[key] == events[i].stamp
    ensures key in Run(events) ==> exists i: nat :: LastAccepted(events, key, i)
  {
    if events != [] {
      var n := |events| - 1;
      var earlier := events[..n];
      RunKeepsLastAccepted(earlier, key);
      if events[n].key == key && events[n].outcome == Accepted {
        assert LastAccepted(events, key, n);
      } else {
        forall i: nat | LastAccepted(events, key, i) ensures LastAccepted(earlier, key, i) {
        }
        if i: nat :| LastAccepted(earlier, key, i) {
          assert LastAccepted(events, key, i);
        }
      }
    }
  }

  /** The outcomes are those of calls with one limit, whatever the capacities were. */
  ghost predicate Decided(events: seq<Event>, caps: seq<nat>, limit: nat) {
    && |caps| == |events|
    && forall i :: 0 <= i < |events| ==>
         events[i].outcome == Decision(Run(events[..i]), caps[i], events[i].key, events[i].stamp, limit)
  }

  /** The ledger never holds more keys than the limit, nor a stamp from the future. */
  lemma {:induction false} RunStaysWithinLimit(events: seq<Event>, caps: seq<nat>, limit: nat)
    requires Decided(events, caps, limit)
    ensures |Run(events)| <= limit
    ensures forall key :: key in Run(events) ==>
      key.kind != 0 && Run(events)[key].origin <= Run(events)[key].sequence
  {
    if events != [] {
      var n := |events| - 1;
      assert forall i :: 0 <= i < n ==> events[..n][..i] == events[..i];
      RunStaysWithinLimit(events[..n], caps[..n], limit);
      var e := events[n];
      assert e.outcome == Decision(Run(events[..n]), caps[n], e.key, e.stamp, limit);
    }
  }

  class InodeLedger {
    var slots: array<Slot>
    var len: nat
    var cap: nat
    ghost var contents: map<Key, Stamp>
    ghost var bits: nat

    /** Zero-initialised: no slots at all. */
    constructor ()
      ensures Valid() && fresh(slots) && contents == map[]
    {
      slots := new Slot[0](i => FREE);
      len := 0;
      cap := 0;
      contents := map[];
      bits := 0;
    }

    ghost predicate Valid()
      reads this, slots
    {
      && slots.Length == cap
      && (cap == 0 ==> contents == map[])
      && (cap != 0 ==> cap == Pow2(bits) && INITIAL_CAP <= cap && len <= cap / 2)
      && len == |contents|
      && Table(slots[..], contents)
      && forall key :: key in contents ==> contents[key].origin <= contents[key].sequence
    }

    /** The linear probe: the first slot from the key's home on that is free or holds the key. */
    static method FindSlot(slots: array<Slot>, key: Key, ghost bits: nat, ghost contents: map<Key, Stamp>)
      returns (index: nat)
      requires slots.Length == Pow2(bits) && Table(slots[..], contents) && |contents| < slots.Length
      ensures Found(slots[..], key, index)
    {
      var cap := slots.Length;
      ghost var free := FreeSlotExists(slots[..], contents);
      hide Table, Hash, BitAnd, Home, Pow2, At;
      ghost var home := Home(key, cap);
      ghost var t := 0;
      HomeIsMasked(key, cap, bits);
      index := BitAnd(Hash(key.dev, key.ino), cap - 1);
      StepsAndBack(home, 0, cap);
      while Used(slots[index]) && slots[index].key != key
        invariant t <= Distance(home, free, cap) && index == At(home, t, cap)
        invariant forall u :: 0 <= u < t ==> Used(slots[At(home, u, cap)]) && slots[At(home, u, cap)].key != key
        decreases cap - t
      {
        NextPosition(home, t, cap, bits);
        index := BitAnd(index + 1, cap - 1);
        t := t + 1;
      }
      StepsAndBack(home, t, cap);
    }

    /** The stamp of an identity, if it was recorded. */
    method Lookup(dev: nat, ino: nat, mode: nat) returns (found: bool, stamp: Stamp)
      requires Valid()
      ensures found <==> Key(dev, ino, Kind(mode)) in contents
      ensures found ==> stamp == contents[Key(dev, ino, Kind(mode))]
    {
      if cap == 0 {
        return false, FREE.stamp;
      }
      var key := Key(dev, ino, Kind(mode));
      var index := FindSlot(slots, key, bits, contents);
      SearchIsComplete(slots[..], contents, key, index);
      return Used(slots[index]), slots[index].stamp;
    }

    /** Twice the slots, or the first ones. */
    method Grow()
      requires Valid() && cap <= SIZE_MAX / 2 / SLOT_SIZE
      modifies this`slots, this`cap, this`bits
      ensures Valid() && fresh(slots) && len < cap / 2
      ensures cap == if old(cap) == 0 then INITIAL_CAP else 2 * old(cap)
    {
      hide Table;
      var newCap := if cap == 0 then INITIAL_CAP else cap * 2;
      ghost var newBits := if cap == 0 then 4 else bits + 1;
      var next := new Slot[newCap](i => FREE);
      FreeTable(next[..]);
      assert newCap == Pow2(newBits) by {
        assert Pow2(4) == 2 * Pow2(3) == 4 * Pow2(2) == 8 * Pow2(1) == 16;
      }
      ghost var moved: map<Key, Stamp> := map[];
      MovedStart(slots[..], contents);
      for i := 0 to cap
        invariant slots.Length == cap && Moved(slots[..], contents, i, moved)
        invariant Table(next[..], moved)
        modifies next
      {
        if Used(slots[i]) {
          MovedSize(slots[..], contents, i, moved);
          var index := FindSlot(next, slots[i].key, newBits, moved);
          MoveOne(slots[..], contents, i, moved, next[..], index);
          ghost var before := next[..];
          next[index] := slots[i];
          assert next[..] == before[index := slots[i]];
          moved := moved[slots[i].key := slots[i].stamp];
        } else {
          MoveNone(slots[..], contents, i, moved);
        }
      }
      MovedAll(slots[..], contents, moved);
      slots := next;
      cap := newCap;
      bits := newBits;
    }

    /**
     * Record an identity. Only a new one counts against the limit; every refusal
     * leaves the ledger as it was.
     */
    method Record(dev: nat, ino: nat, mode: nat, sequence: nat, origin: nat, limit: nat) returns (outcome: Outcome)
      requires Valid()
      modifies this, slots
      ensures Valid()
      ensures outcome == Decision(old(contents), old(cap), Key(dev, ino, Kind(mode)), Stamp(sequence, origin), limit)
      ensures contents == Step(old(contents), Event(Key(dev, ino, Kind(mode)), Stamp(sequence, origin), outcome))
    {
      hide Table;
      var key, stamp := Key(dev, ino, Kind(mode)), Stamp(sequence, origin);
      if key.kind == 0 || origin > sequence {
        return Invalid;
      }
      var found, _ := Lookup(dev, ino, mode);
      if found {
        Write(key, stamp);
        return Accepted;
      }
      if len >= limit {
        return TooBig;
      }
      if cap == 0 || len >= cap / 2 {
        if cap > SIZE_MAX / 2 / SLOT_SIZE {
          return TooBig;
        }
        Grow();
      }
      Write(key, stamp);
      len := len + 1;
      return Accepted;
    }

    /** Store the stamp in the slot of its key; the caller adjusts len for a new key. */
    method Write(key: Key, stamp: Stamp)
      requires Valid() && key.kind != 0 && stamp.origin <= stamp.sequence && cap != 0
      modifies this`contents, slots
      ensures contents == old(contents)[key := stamp]
      ensures Table(slots[..], contents)
      ensures forall k :: k in contents ==> contents[k].origin <= contents[k].sequence
    {
      hide Table;
      var index := FindSlot(slots, key, bits, contents);
      WriteKeepsTable(slots[..], contents, key, index, stamp);
      ghost var before := slots[..];
      slots[index] := Slot(key, stamp);
      assert slots[..] == before[index := Slot(key, stamp)];
      contents := contents[key := stamp];
    }
  }
}
