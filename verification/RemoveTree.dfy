/** Recursive removal with an explicit stack instead of recursion. */
module RemoveTree {
  import opened Wrappers

  datatype Error = ENOENT | Fault

  type Name = string
  /** Names from the parent descriptor down; never empty. */
  type Path = seq<Name>

  /** What stat tells: the identity (device and inode) and whether it is a directory. */
  datatype Node = Node(identity: nat, directory: bool)

  type Nodes = map<Path, Node>

  /** Every entry but those of the parent descriptor itself lies in a directory. */
  predicate IsForest(nodes: Nodes) {
    forall p :: p in nodes ==> |p| > 0 && (|p| > 1 ==> p[..|p| - 1] in nodes && nodes[p[..|p| - 1]].directory)
  }

  /** bx_same_file. */
  predicate SameFile(a: Node, b: Node) {
    a.identity == b.identity
  }

  /** A directory that is an ancestor of its own, under root. */
  ghost predicate OwnAncestor(nodes: Nodes, root: Path, q: Path) {
    q in nodes && nodes[q].directory && exists p :: p in nodes && root <= p && p < q && SameFile(nodes[p], nodes[q])
  }

  ghost predicate HasLoop(nodes: Nodes, root: Path) {
    exists q :: q in nodes && OwnAncestor(nodes, root, q)
  }

  predicate Childless(nodes: Nodes, path: Path) {
    forall p :: p in nodes ==> !(path < p)
  }

  /** The names in a directory. */
  function ChildNames(nodes: Nodes, path: Path): set<Name> {
    set p | p in nodes && |p| == |path| + 1 && path < p :: p[|path|]
  }

  /** The tree without the subtree at root. */
  function Without(nodes: Nodes, root: Path): Nodes {
    map p | p in nodes && !(root <= p) :: nodes[p]
  }

  /**
   * The directory tree under a descriptor, changed by nobody else. Any call may fail for
   * reasons of its own; faults counts those failures.
   */
  class FileSystem {
    var nodes: Nodes
    var faults: nat

    constructor (nodes: Nodes)
      ensures this.nodes == nodes && faults == 0
    {
      this.nodes := nodes;
      faults := 0;
    }

    /** bx_dir_path_open_parent, and every other call that only may fail. */
    method MayFail() returns (ok: bool)
      modifies this`faults
      ensures ok ==> faults == old(faults)
      ensures !ok ==> faults == old(faults) + 1
    {
      ok := *;
      if !ok {
        faults := faults + 1;
      }
    }

    /** fstatat without following links. */
    method Stat(path: Path) returns (node: Option<Node>, error: Option<Error>)
      modifies this`faults
      ensures error == None ==> path in nodes && node == Some(nodes[path]) && faults == old(faults)
      ensures error == Some(ENOENT) ==> path !in nodes && faults == old(faults)
      ensures error == Some(Fault) ==> faults == old(faults) + 1
    {
      var ok := MayFail();
      if !ok {
        return None, Some(Fault);
      }
      if path !in nodes {
        return None, Some(ENOENT);
      }
      return Some(nodes[path]), None;
    }

    /** unlinkat: a directory needs AT_REMOVEDIR, and must be empty whenever this is called with it. */
    method Unlink(path: Path, removeDirectory: bool) returns (ok: bool)
      requires path in nodes && nodes[path].directory == removeDirectory
      requires removeDirectory ==> Childless(nodes, path)
      modifies this
      ensures if ok then nodes == old(nodes) - {path} && faults == old(faults)
              else nodes == old(nodes) && faults == old(faults) + 1
    {
      ok := MayFail();
      if ok {
        nodes := nodes - {path};
      }
    }

    /** The order readdir returns the names in. */
    method List(path: Path) returns (names: seq<Name>)
      ensures forall n :: n in names <==> n in ChildNames(nodes, path)
      ensures forall i, j :: 0 <= i < j < |names| ==> names[i] != names[j]
    {
      names := [];
      var left := ChildNames(nodes, path);
      while left != {}
        invariant forall n :: n in ChildNames(nodes, path) <==> n in names || n in left
        invariant forall n :: n in names ==> n !in left
        invariant forall i, j :: 0 <= i < j < |names| ==> names[i] != names[j]
        decreases left
      {
        var n :| n in left;
        left := left - {n};
        names := names + [n];
      }
    }
  }

  // --------------------------------------------------------------- the stack

  /** One pending removal; the top of the stack is at index 0. */
  datatype Entry = Entry(path: Path, status: Node, scanned: bool)

  /** Every entry is in the tree under root, once, with the status it was pushed with. */
  predicate Entries(nodes: Nodes, root: Path, stack: seq<Entry>) {
    && (forall i :: 0 <= i < |stack| ==>
         && root <= stack[i].path && stack[i].path in nodes && nodes[stack[i].path] == stack[i].status
         && (stack[i].scanned ==> stack[i].status.directory))
    && (forall i, j :: 0 <= i < j < |stack| ==> stack[i].path != stack[j].path)
  }

  /** Whatever lies above a scanned entry lies inside it. */
  predicate Nested(stack: seq<Entry>) {
    forall i, j :: 0 <= i < j < |stack| && stack[j].scanned ==> stack[j].path < stack[i].path
  }

  /** path is on the stack below index i and has been scanned. */
  predicate ScannedBelow(stack: seq<Entry>, i: int, path: Path) {
    exists j :: 0 <= i < j < |stack| && stack[j].path == path && stack[j].scanned
  }

  /** Every directory between root and an entry is scanned and below it. */
  ghost predicate Rooted(root: Path, stack: seq<Entry>) {
    forall i, q :: 0 <= i < |stack| && root <= q && q < stack[i].path ==> ScannedBelow(stack, i, q)
  }

  /** Something on the stack accounts for p. */
  predicate Covers(stack: seq<Entry>, p: Path) {
    exists i :: 0 <= i < |stack| && stack[i].path <= p && (stack[i].path == p || !stack[i].scanned)
  }

  /** Everything still under root is accounted for. */
  predicate Covered(nodes: Nodes, root: Path, stack: seq<Entry>) {
    forall p :: p in nodes && root <= p ==> Covers(stack, p)
  }

  ghost predicate StackInv(nodes: Nodes, root: Path, stack: seq<Entry>) {
    && root != [] && IsForest(nodes)
    && Entries(nodes, root, stack) && Nested(stack) && Rooted(root, stack)
  }

  /** The scanned entries below the top are exactly its ancestors under root. */
  lemma ScannedAreAncestors(nodes: Nodes, root: Path, stack: seq<Entry>, q: Path)
    requires StackInv(nodes, root, stack) && stack != []
    ensures ScannedBelow(stack, 0, q) <==> root <= q && q < stack[0].path
  {
  }

  /** No other entry is inside a scanned top, and no unscanned one is above it. */
  lemma NothingAroundTop(nodes: Nodes, root: Path, stack: seq<Entry>, i: nat)
    requires StackInv(nodes, root, stack) && 0 < i < |stack|
    ensures !(stack[0].path < stack[i].path)
    ensures stack[i].path < stack[0].path ==> stack[i].scanned
  {
    assert stack[0].path < stack[i].path ==> ScannedBelow(stack, i, stack[0].path);
    assert stack[i].path < stack[0].path ==> ScannedBelow(stack, 0, stack[i].path);
  }

  lemma Comparable(a: Path, b: Path, p: Path)
    ensures a <= p && b <= p ==> a == b || a < b || b < a
  {
    if a <= p && b <= p {
      assert a == p[..|a|] && b == p[..|b|];
    }
  }

  /** When a scanned directory is on top again, nothing is left in it. */
  lemma ScannedTopIsChildless(nodes: Nodes, root: Path, stack: seq<Entry>)
    requires StackInv(nodes, root, stack) && Covered(nodes, root, stack)
    requires stack != [] && stack[0].scanned
    ensures Childless(nodes, stack[0].path)
  {
    forall p | p in nodes ensures !(stack[0].path < p) {
      if root <= p {
        assert Covers(stack, p);
        var i :| 0 <= i < |stack| && stack[i].path <= p && (stack[i].path == p || !stack[i].scanned);
        Comparable(stack[0].path, stack[i].path, p);
        if i > 0 {
          NothingAroundTop(nodes, root, stack, i);
        }
      }
    }
  }

  /** A file has nothing under it. */
  lemma FileIsChildless(nodes: Nodes, path: Path)
    requires IsForest(nodes) && path in nodes && !nodes[path].directory
    ensures Childless(nodes, path)
  {
    forall p | p in nodes ensures !(path < p) {
      if path < p {
        AncestorIsDirectory(nodes, path, p);
      }
    }
  }

  lemma {:induction false} AncestorIsDirectory(nodes: Nodes, path: Path, p: Path)
    requires IsForest(nodes) && p in nodes && path < p && path != []
    ensures path in nodes && nodes[path].directory
    decreases |p|
  {
    var parent := p[..|p| - 1];
    assert path == p[..|path|];
    if path != parent {
      assert path == parent[..|path|];
      AncestorIsDirectory(nodes, path, parent);
    }
  }

  // ------------------------------------------------------------ removing the top

  lemma PopKeepsForest(nodes: Nodes, top: Path)
    requires IsForest(nodes) && Childless(nodes, top)
    ensures IsForest(nodes - {top})
  {
    forall p | p in nodes - {top} && |p| > 1 ensures p[..|p| - 1] in nodes - {top} {
      assert !(top < p);
    }
  }

  lemma PopKeepsRooted(root: Path, stack: seq<Entry>)
    requires Rooted(root, stack) && stack != []
    ensures Rooted(root, stack[1..])
  {
    var rest := stack[1..];
    forall i, q | 0 <= i < |rest| && root <= q && q < rest[i].path ensures ScannedBelow(rest, i, q) {
      assert ScannedBelow(stack, i + 1, q);
      var j :| i + 1 < j < |stack| && stack[j].path == q && stack[j].scanned;
      assert rest[j - 1] == stack[j];
    }
  }

  lemma PopKeepsEntries(nodes: Nodes, root: Path, stack: seq<Entry>)
    requires Entries(nodes, root, stack) && Nested(stack) && stack != []
    ensures Entries(nodes - {stack[0].path}, root, stack[1..]) && Nested(stack[1..])
  {
  }

  lemma PopKeepsInv(nodes: Nodes, root: Path, stack: seq<Entry>)
    requires StackInv(nodes, root, stack) && stack != [] && Childless(nodes, stack[0].path)
    ensures StackInv(nodes - {stack[0].path}, root, stack[1..])
  {
    hide Entries, Nested, Rooted, IsForest;
    PopKeepsForest(nodes, stack[0].path);
    PopKeepsRooted(root, stack);
    PopKeepsEntries(nodes, root, stack);
  }

  /** A prefix that is not the whole is a proper prefix. */
  lemma ProperPrefix(a: Path, p: Path)
    requires a <= p && a != p
    ensures a < p
  {
    assert a == p[..|a|];
  }

  lemma PopKeepsCovered(nodes: Nodes, root: Path, stack: seq<Entry>)
    requires Covered(nodes, root, stack) && stack != [] && Childless(nodes, stack[0].path)
    ensures Covered(nodes - {stack[0].path}, root, stack[1..])
  {
    var top, rest := stack[0].path, stack[1..];
    forall p | p in nodes - {top} && root <= p ensures Covers(rest, p) {
      assert Covers(stack, p);
      var i :| 0 <= i < |stack| && stack[i].path <= p && (stack[i].path == p || !stack[i].scanned);
      if top <= p {
        ProperPrefix(top, p);
      }
      assert i > 0 && rest[i - 1] == stack[i];
    }
  }

  // ------------------------------------------------------------ scanning the top

  function MarkTop(stack: seq<Entry>): seq<Entry>
    requires stack != []
  {
    stack[0 := stack[0].(scanned := true)]
  }

  lemma MarkKeepsInv(nodes: Nodes, root: Path, stack: seq<Entry>)
    requires StackInv(nodes, root, stack) && stack != [] && stack[0].status.directory
    ensures StackInv(nodes, root, MarkTop(stack))
  {
    var marked := MarkTop(stack);
    forall i, q | 0 <= i < |marked| && root <= q && q < marked[i].path ensures ScannedBelow(marked, i, q) {
      assert ScannedBelow(stack, i, q);
      var j :| i < j < |stack| && stack[j].path == q && stack[j].scanned;
      assert marked[j] == stack[j];
    }
  }

  /** The first n of names have been pushed as children of dir, which lies at index n. */
  ghost predicate Pushed(stack: seq<Entry>, before: seq<Entry>, names: seq<Name>, n: nat) {
    && n <= |names| && before != [] && |stack| == n + |before|
    && stack[n..] == before
    && before[0].scanned
    && (forall k :: 0 <= k < n ==> IsChildEntry(stack[n - 1 - k], before[0].path, names[k]))
  }

  /** An entry not yet scanned, for the child name of dir. */
  predicate IsChildEntry(entry: Entry, dir: Path, name: Name) {
    entry.path == dir + [name] && !entry.scanned
  }

  /** The path of an entry pushed so far. */
  lemma PushedAt(stack: seq<Entry>, before: seq<Entry>, names: seq<Name>, n: nat, i: nat)
    requires Pushed(stack, before, names, n) && i < |stack|
    ensures i < n ==> stack[i].path == before[0].path + [names[n - 1 - i]] && !stack[i].scanned
    ensures i >= n ==> stack[i] == before[i - n]
  {
    if i < n {
      assert IsChildEntry(stack[n - 1 - (n - 1 - i)], before[0].path, names[n - 1 - i]);
    } else {
      assert stack[n..][i - n] == stack[i];
    }
  }

  lemma PushKeepsPushed(stack: seq<Entry>, before: seq<Entry>, names: seq<Name>, n: nat, entry: Entry)
    requires Pushed(stack, before, names, n) && n < |names|
    requires entry.path == before[0].path + [names[n]] && !entry.scanned
    ensures Pushed([entry] + stack, before, names, n + 1)
  {
    var grown := [entry] + stack;
    forall k | 0 <= k < n + 1 ensures IsChildEntry(grown[n + 1 - 1 - k], before[0].path, names[k]) {
      if k < n {
        assert IsChildEntry(stack[n - 1 - k], before[0].path, names[k]);
        assert grown[n - k] == stack[n - 1 - k];
      }
    }
    assert grown[n + 1..] == stack[n..];
  }

  lemma PushKeepsRooted(root: Path, stack: seq<Entry>, before: seq<Entry>, names: seq<Name>, n: nat, entry: Entry)
    requires Rooted(root, stack) && Pushed(stack, before, names, n) && n < |names|
    requires entry.path == before[0].path + [names[n]] && !entry.scanned
    ensures Rooted(root, [entry] + stack)
  {
    var dir := before[0].path;
    var grown := [entry] + stack;
    PushedAt(stack, before, names, n, n);
    forall i, q | 0 <= i < |grown| && root <= q && q < grown[i].path ensures ScannedBelow(grown, i, q) {
      if i == 0 && q == dir {
        assert grown[n + 1].path == dir && grown[n + 1].scanned;
      } else {
        if i == 0 {
          assert q == entry.path[..|q|] && dir == entry.path[..|dir|];
          assert q < dir;
        }
        var below := if i == 0 then n else i - 1;
        assert ScannedBelow(stack, below, q);
        var j :| below < j < |stack| && stack[j].path == q && stack[j].scanned;
        assert grown[j + 1] == stack[j];
      }
    }
  }

  lemma PushKeepsEntries(nodes: Nodes, root: Path, stack: seq<Entry>, before: seq<Entry>, names: seq<Name>, n: nat)
    requires Entries(nodes, root, stack) && Nested(stack) && Pushed(stack, before, names, n) && n < |names|
    requires forall i, j :: 0 <= i < j < |names| ==> names[i] != names[j]
    requires before[0].path + [names[n]] in nodes
    requires forall i :: 0 <= i < |before| ==> !(before[0].path < before[i].path)
    ensures
      var path := before[0].path + [names[n]];
      var grown := [Entry(path, nodes[path], false)] + stack;
      Entries(nodes, root, grown) && Nested(grown)
  {
    var dir := before[0].path;
    var path := dir + [names[n]];
    var grown := [Entry(path, nodes[path], false)] + stack;
    PushedAt(stack, before, names, n, n);
    forall i | 0 <= i < |stack| ensures stack[i].path != path {
      PushedAt(stack, before, names, n, i);
      if i < n {
        assert (dir + [names[n - 1 - i]])[|dir|] != path[|dir|];
      } else {
        assert dir < path;
      }
    }
    forall j | 0 <= j < |stack| && stack[j].scanned ensures stack[j].path < path {
      PushedAt(stack, before, names, n, j);
      assert j > n ==> stack[j].path < stack[n].path;
    }
    assert root <= path;
  }

  lemma PushKeepsInv(nodes: Nodes, root: Path, stack: seq<Entry>, before: seq<Entry>, names: seq<Name>, n: nat)
    requires StackInv(nodes, root, stack) && Pushed(stack, before, names, n) && n < |names|
    requires forall i, j :: 0 <= i < j < |names| ==> names[i] != names[j]
    requires before[0].path + [names[n]] in nodes
    requires forall i :: 0 <= i < |before| ==> !(before[0].path < before[i].path)
    ensures
      var path := before[0].path + [names[n]];
      var grown := [Entry(path, nodes[path], false)] + stack;
      StackInv(nodes, root, grown) && Pushed(grown, before, names, n + 1)
  {
    hide Entries, Nested, Rooted, IsForest;
    var path := before[0].path + [names[n]];
    var entry := Entry(path, nodes[path], false);
    PushKeepsEntries(nodes, root, stack, before, names, n);
    PushKeepsRooted(root, stack, before, names, n, entry);
    PushKeepsPushed(stack, before, names, n, entry);
  }

  /** Once every name has been pushed, the scanned directory's contents are accounted for again. */
  lemma PushedAllCovers(nodes: Nodes, root: Path, unmarked: seq<Entry>, stack: seq<Entry>, names: seq<Name>)
    requires IsForest(nodes) && Covered(nodes, root, unmarked) && unmarked != []
    requires unmarked[0].path != []
    requires Pushed(stack, MarkTop(unmarked), names, |names|)
    requires forall n :: n in ChildNames(nodes, unmarked[0].path) ==> n in names
    ensures Covered(nodes, root, stack)
  {
    var dir, n := unmarked[0].path, |names|;
    forall p | p in nodes && root <= p ensures Covers(stack, p) {
      assert Covers(unmarked, p);
      var i :| 0 <= i < |unmarked| && unmarked[i].path <= p && (unmarked[i].path == p || !unmarked[i].scanned);
      assert stack[n + i] == MarkTop(unmarked)[i];
      if i == 0 && unmarked[0].path != p {
        var child := p[..|dir| + 1];
        ChildExists(nodes, dir, p);
        var k :| 0 <= k < |names| && names[k] == child[|dir|];
        assert stack[n - 1 - k].path == dir + [names[k]] == child;
        assert child <= p;
      }
    }
  }

  /** Something under a directory means a child that leads to it. */
  lemma {:induction false} ChildExists(nodes: Nodes, dir: Path, p: Path)
    requires IsForest(nodes) && p in nodes && dir < p && dir != []
    ensures p[..|dir| + 1] in nodes && p[|dir|] in ChildNames(nodes, dir)
    ensures p[..|dir| + 1] == dir + [p[|dir|]]
    decreases |p|
  {
    assert dir == p[..|dir|];
    if |p| == |dir| + 1 {
      assert p[..|dir| + 1] == p;
    } else {
      var parent := p[..|p| - 1];
      assert dir == parent[..|dir|];
      ChildExists(nodes, dir, parent);
      assert parent[..|dir| + 1] == p[..|dir| + 1];
    }
  }

  // ---------------------------------------------------------------------- code

  function ScannedPaths(stack: seq<Entry>): set<Path> {
    set i | 0 <= i < |stack| && stack[i].scanned :: stack[i].path
  }

  /** What is gone lay under root, and nothing else changed. */
  ghost predicate OnlyUnder(before: Nodes, root: Path, after: Nodes) {
    && (forall p :: p in after ==> p in before && after[p] == before[p])
    && (forall p :: p in before && !(root <= p) ==> p in after)
  }

  /** Refuse a directory that is its own ancestor. */
  method HasCycle(stack: seq<Entry>) returns (cycle: bool)
    requires stack != []
    ensures cycle <==> exists i :: 0 < i < |stack| && stack[i].scanned && SameFile(stack[i].status, stack[0].status)
  {
    cycle := false;
    var ancestor := 1;
    while ancestor < |stack|
      invariant 1 <= ancestor <= |stack|
      invariant forall i :: 0 < i < ancestor ==> !(stack[i].scanned && SameFile(stack[i].status, stack[0].status))
    {
      if stack[ancestor].scanned && SameFile(stack[ancestor].status, stack[0].status) {
        return true;
      }
      ancestor := ancestor + 1;
    }
  }

  /** What the check finds is a directory that is an ancestor of its own. */
  lemma CheckFindsLoops(nodes: Nodes, root: Path, stack: seq<Entry>)
    requires StackInv(nodes, root, stack) && stack != [] && stack[0].status.directory
    ensures (exists i :: 0 < i < |stack| && stack[i].scanned && SameFile(stack[i].status, stack[0].status))
       <==> OwnAncestor(nodes, root, stack[0].path)
  {
    var q := stack[0].path;
    if i :| 0 < i < |stack| && stack[i].scanned && SameFile(stack[i].status, stack[0].status) {
      assert stack[i].path < q;
    }
    if OwnAncestor(nodes, root, q) {
      var p :| p in nodes && root <= p && p < q && SameFile(nodes[p], nodes[q]);
      ScannedAreAncestors(nodes, root, stack, p);
      var i :| 0 < i < |stack| && stack[i].path == p && stack[i].scanned;
      assert SameFile(stack[i].status, stack[0].status);
    }
  }

  /** Mark the directory on top scanned and push what it contains. */
  method ScanTop(fs: FileSystem, root: Path, stack: seq<Entry>) returns (grown: seq<Entry>, ok: bool)
    requires StackInv(fs.nodes, root, stack) && Covered(fs.nodes, root, stack)
    requires stack != [] && stack[0].status.directory && !stack[0].scanned
    modifies fs`faults
    ensures ok ==> StackInv(fs.nodes, root, grown) && Covered(fs.nodes, root, grown)
    ensures ok ==> ScannedPaths(grown) == ScannedPaths(stack) + {stack[0].path}
    ensures fs.faults >= old(fs.faults) && (ok ==> fs.faults == old(fs.faults))
    ensures fs.faults == old(fs.faults) ==> (ok <==> !OwnAncestor(fs.nodes, root, stack[0].path))
    ensures ok ==> !OwnAncestor(fs.nodes, root, stack[0].path)
  {
    CheckFindsLoops(fs.nodes, root, stack);
    hide IsForest, Rooted, Nested, Covered, OwnAncestor;
    grown := stack;
    var entry := stack[0];
    var cycle := HasCycle(stack);
    if cycle {
      return grown, false;
    }
    ok := fs.MayFail();
    if !ok {
      return;
    }
    TopHasNothingInside(fs.nodes, root, stack);
    MarkKeepsInv(fs.nodes, root, stack);
    grown := MarkTop(stack);
    ghost var marked := grown;
    var names := fs.List(entry.path);
    var n := 0;
    MarkedPushed(marked, names);
    while n < |names|
      invariant n <= |names| && fs.faults == old(fs.faults)
      invariant StackInv(fs.nodes, root, grown) && Pushed(grown, marked, names, n)
    {
      var path := entry.path + [names[n]];
      ChildIsThere(fs.nodes, entry.path, names[n]);
      var status, error := fs.Stat(path);
      if error.Some? {
        // A name that is gone by now would be skipped; in an unchanging tree only faults remain.
        assert error.value.Fault?;
        return grown, false;
      }
      PushKeepsInv(fs.nodes, root, grown, marked, names, n);
      grown := [Entry(path, status.value, false)] + grown;
      n := n + 1;
    }
    ok := fs.MayFail();
    if ok {
      PushedAllCovers(fs.nodes, root, stack, grown, names);
      PushedScanned(grown, stack, names);
    }
  }

  lemma MarkedPushed(marked: seq<Entry>, names: seq<Name>)
    requires marked != [] && marked[0].scanned
    ensures Pushed(marked, marked, names, 0)
  {
  }

  lemma ChildIsThere(nodes: Nodes, dir: Path, name: Name)
    requires name in ChildNames(nodes, dir)
    ensures dir + [name] in nodes
  {
    var p :| p in nodes && |p| == |dir| + 1 && dir < p && p[|dir|] == name;
    assert p == dir + [name];
  }

  lemma TopHasNothingInside(nodes: Nodes, root: Path, stack: seq<Entry>)
    requires StackInv(nodes, root, stack) && stack != []
    ensures forall i :: 0 <= i < |stack| ==> !(stack[0].path < stack[i].path)
  {
    forall i | 0 <= i < |stack| ensures !(stack[0].path < stack[i].path) {
      if i > 0 {
        NothingAroundTop(nodes, root, stack, i);
      }
    }
  }

  lemma PushedScanned(grown: seq<Entry>, stack: seq<Entry>, names: seq<Name>)
    requires stack != [] && Pushed(grown, MarkTop(stack), names, |names|)
    ensures ScannedPaths(grown) == ScannedPaths(stack) + {stack[0].path}
  {
    var n := |names|;
    forall i | 0 <= i < |grown| && grown[i].scanned ensures grown[i].path in ScannedPaths(stack) + {stack[0].path} {
      PushedAt(grown, MarkTop(stack), names, n, i);
      assert grown[i] == MarkTop(stack)[i - n];
      if i > n {
        assert stack[i - n] == grown[i];
      }
    }
    forall i | 0 <= i < |stack| && (stack[i].scanned || i == 0) ensures stack[i].path in ScannedPaths(grown) {
      PushedAt(grown, MarkTop(stack), names, n, n + i);
      assert grown[n + i].path == stack[i].path && grown[n + i].scanned;
    }
  }

  /** The entry on top goes: a file, or a directory that was scanned and is empty by now. */
  method RemoveTop(fs: FileSystem, root: Path, stack: seq<Entry>) returns (ok: bool)
    requires StackInv(fs.nodes, root, stack) && Covered(fs.nodes, root, stack) && stack != []
    requires stack[0].scanned || !stack[0].status.directory
    modifies fs
    ensures ok ==> StackInv(fs.nodes, root, stack[1..]) && Covered(fs.nodes, root, stack[1..])
    ensures if ok then fs.nodes == old(fs.nodes) - {stack[0].path} && fs.faults == old(fs.faults)
            else fs.nodes == old(fs.nodes) && fs.faults > old(fs.faults)
  {
    hide Rooted, Nested, Covered;
    if stack[0].scanned {
      ScannedTopIsChildless(fs.nodes, root, stack);
    } else {
      FileIsChildless(fs.nodes, stack[0].path);
    }
    ghost var before := fs.nodes;
    ok := fs.Unlink(stack[0].path, stack[0].scanned);
    if ok {
      PopKeepsInv(before, root, stack);
      PopKeepsCovered(before, root, stack);
    }
  }

  /** The name is there, and another file than the one expected. */
  predicate IsNot(expected: Option<Node>, nodes: Nodes, path: Path) {
    expected.Some? && path in nodes && !SameFile(expected.value, nodes[path])
  }

  /** Every directory under root that was scanned or removed has been found to be no ancestor of its own. */
  ghost predicate Checked(before: Nodes, root: Path, unscanned: set<Path>) {
    forall q :: q in before && OwnAncestor(before, root, q) ==> q in unscanned
  }

  /**
   * bx_remove_recursive_at on a tree nobody else changes. Success means exactly the named
   * subtree is gone. A name that is not the expected file is refused and stays as it is, and
   * so is a tree with a directory that is an ancestor of its own; nothing else is, unless a
   * call fails.
   */
  method RemoveRecursiveAt(fs: FileSystem, name: Name, expected: Option<Node>) returns (ok: bool)
    requires IsForest(fs.nodes)
    modifies fs
    ensures ok ==> fs.nodes == Without(old(fs.nodes), [name])
    ensures OnlyUnder(old(fs.nodes), [name], fs.nodes)
    ensures IsNot(expected, old(fs.nodes), [name]) ==> !ok && fs.nodes == old(fs.nodes)
    ensures HasLoop(old(fs.nodes), [name]) ==> !ok
    ensures fs.faults == old(fs.faults) ==>
      (ok <==> !IsNot(expected, old(fs.nodes), [name]) && !HasLoop(old(fs.nodes), [name]))
  {
    hide IsForest, Rooted, Nested, Covered, ScannedPaths, OwnAncestor, HasLoop;
    var root := [name];
    ghost var before := fs.nodes;
    var status, error := fs.Stat(root);
    if error.Some? {
      if error.value.ENOENT? {
        NothingUnderMissing(before, root);
        NoLoopOutside(before, root, before.Keys);
      }
      return error.value.ENOENT?;
    }
    if expected.Some? && !SameFile(expected.value, status.value) {
      return false;
    }
    var stack := [Entry(root, status.value, false)];
    FirstEntry(before, root);
    NothingChecked(before, root, stack);
    ok := true;
    while stack != [] && ok
      invariant ok ==> StackInv(fs.nodes, root, stack) && Covered(fs.nodes, root, stack)
      invariant OnlyUnder(before, root, fs.nodes) && fs.faults >= old(fs.faults)
      invariant ok ==> Checked(before, root, fs.nodes.Keys - ScannedPaths(stack)) && fs.faults == old(fs.faults)
      invariant !ok ==> fs.faults > old(fs.faults) || HasLoop(before, root)
      decreases ok, |fs.nodes|, |fs.nodes.Keys - ScannedPaths(stack)|
    {
      var entry := stack[0];
      var parent := fs.MayFail();
      if !parent {
        ok := false;
        break;
      }
      var current, statError := fs.Stat(entry.path);
      if statError.Some? {
        assert statError.value.Fault?;
        ok := false;
      } else if !SameFile(entry.status, current.value) {
        assert false;
      } else if entry.scanned || !entry.status.directory {
        ghost var now := fs.nodes;
        ghost var all := stack;
        ok := RemoveTop(fs, root, stack);
        if ok {
          StillOnlyUnder(before, root, now, entry.path);
          StillChecked(before, root, now, all);
        }
        stack := stack[1..];
      } else {
        ghost var unscanned := fs.nodes.Keys - ScannedPaths(stack);
        TopIsUnscanned(fs.nodes, root, stack);
        stack, ok := ScanTop(fs, root, stack);
        ScannedChecked(before, root, fs.nodes, unscanned, entry.path, ok);
        if ok {
          assert fs.nodes.Keys - ScannedPaths(stack) == unscanned - {entry.path};
        }
      }
    }
    if ok {
      AllGone(before, root, fs.nodes);
      NoLoopOutside(before, root, fs.nodes.Keys - ScannedPaths(stack));
    }
  }

  lemma TopIsUnscanned(nodes: Nodes, root: Path, stack: seq<Entry>)
    requires Entries(nodes, root, stack) && stack != [] && !stack[0].scanned
    ensures stack[0].path in nodes.Keys - ScannedPaths(stack)
  {
  }

  lemma StillOnlyUnder(before: Nodes, root: Path, now: Nodes, path: Path)
    requires OnlyUnder(before, root, now) && path in now && root <= path
    ensures OnlyUnder(before, root, now - {path}) && |now - {path}| < |now|
  {
    assert now.Keys == (now - {path}).Keys + {path};
  }

  /** The ancestors of what is still there are still there. */
  lemma SameLoops(before: Nodes, root: Path, now: Nodes, q: Path)
    requires OnlyUnder(before, root, now) && IsForest(now) && q in now && root != []
    ensures OwnAncestor(now, root, q) <==> OwnAncestor(before, root, q)
  {
    forall p | root <= p && p < q ensures p in now {
      AncestorIsDirectory(now, p, q);
    }
  }

  lemma NothingChecked(before: Nodes, root: Path, stack: seq<Entry>)
    requires |stack| == 1 && !stack[0].scanned
    ensures Checked(before, root, before.Keys - ScannedPaths(stack))
  {
    assert ScannedPaths(stack) == {};
  }

  /** What is removed has been checked, or is no directory. */
  lemma StillChecked(before: Nodes, root: Path, now: Nodes, stack: seq<Entry>)
    requires OnlyUnder(before, root, now) && Entries(now, root, stack) && stack != []
    requires stack[0].scanned || !stack[0].status.directory
    requires Checked(before, root, now.Keys - ScannedPaths(stack))
    ensures Checked(before, root, (now - {stack[0].path}).Keys - ScannedPaths(stack[1..]))
  {
    var rest := stack[1..];
    forall q | q in before && OwnAncestor(before, root, q)
      ensures q in (now - {stack[0].path}).Keys - ScannedPaths(rest)
    {
      assert q in now.Keys - ScannedPaths(stack);
      assert forall i :: 0 <= i < |rest| ==> rest[i] == stack[i + 1];
    }
  }

  lemma ScannedChecked(before: Nodes, root: Path, now: Nodes, unscanned: set<Path>, q: Path, ok: bool)
    requires OnlyUnder(before, root, now) && IsForest(now) && q in now && root != []
    requires Checked(before, root, unscanned) && (ok ==> !OwnAncestor(now, root, q))
    ensures ok ==> Checked(before, root, unscanned - {q})
    ensures OwnAncestor(now, root, q) ==> HasLoop(before, root)
  {
    SameLoops(before, root, now, q);
  }

  lemma NoLoopOutside(before: Nodes, root: Path, unscanned: set<Path>)
    requires Checked(before, root, unscanned) && unscanned <= Without(before, root).Keys
    ensures !HasLoop(before, root)
  {
    forall q | q in before ensures !OwnAncestor(before, root, q) {
      assert q in unscanned ==> !(root <= q);
    }
  }

  lemma FirstEntry(nodes: Nodes, root: Path)
    requires IsForest(nodes) && root in nodes && |root| == 1
    ensures StackInv(nodes, root, [Entry(root, nodes[root], false)])
    ensures Covered(nodes, root, [Entry(root, nodes[root], false)])
  {
    var stack := [Entry(root, nodes[root], false)];
    forall p | p in nodes && root <= p ensures Covers(stack, p) {
      assert stack[0].path <= p;
    }
  }

  lemma NothingUnderMissing(nodes: Nodes, root: Path)
    requires IsForest(nodes) && root !in nodes && root != []
    ensures nodes == Without(nodes, root)
  {
    forall p | p in nodes ensures !(root <= p) {
      if root <= p {
        ProperPrefix(root, p);
        AncestorIsDirectory(nodes, root, p);
      }
    }
  }

  lemma AllGone(before: Nodes, root: Path, now: Nodes)
    requires OnlyUnder(before, root, now) && Covered(now, root, [])
    ensures now == Without(before, root)
  {
    assert forall p :: p in now && root <= p ==> Covers([], p);
  }
}
