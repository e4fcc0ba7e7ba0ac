/** Lexical path operations: components, normal forms and relative paths. */
module PathOps {
  import Memory
  import opened CStrings
  import opened Wrappers

  const UP: Text := ".."

  // -------------------------------------------------------------- paths as components

  /** How far the first component goes. */
  function PartEnd(path: Text): (n: nat)
    ensures n <= |path| && '/' !in path[..n] && (n < |path| ==> path[n] == '/')
  {
    if path == [] || path[0] == '/' then 0 else
      assert path[1..][..PartEnd(path[1..])] == path[1..1 + PartEnd(path[1..])];
      1 + PartEnd(path[1..])
  }

  /** The components between the slashes; empty ones do not count. */
  function Split(path: Text): seq<Text> {
    if path == [] then []
    else if path[0] == '/' then Split(path[1..])
    else [path[..PartEnd(path)]] + Split(path[PartEnd(path)..])
  }

  /** One component read from the stack of those before it. */
  function Walk(stack: seq<Text>, part: Text, preserve: bool): seq<Text> {
    if part == "." then stack
    else if part == UP then
      if preserve && (stack == [] || stack[|stack| - 1] == UP) then stack + [part]
      else if stack == [] then []
      else stack[..|stack| - 1]
    else stack + [part]
  }

  function WalkAll(stack: seq<Text>, parts: seq<Text>, preserve: bool): seq<Text>
    decreases |parts|
  {
    if parts == [] then stack
    else WalkAll(Walk(stack, parts[0], preserve), parts[1..], preserve)
  }

  function Joined(parts: seq<Text>): Text {
    if |parts| == 0 then []
    else if |parts| == 1 then parts[0]
    else Joined(parts[..|parts| - 1]) + "/" + parts[|parts| - 1]
  }

  function Absolute(parts: seq<Text>): (path: Text)
    ensures path != [] && path[0] == '/'
  {
    "/" + Joined(parts)
  }

  function Relative(parts: seq<Text>): Text {
    if parts == [] then "." else Joined(parts)
  }

  /** What the lexical normalisation of an absolute path is, as components and as a path. */
  function Resolved(path: Text): seq<Text> {
    WalkAll([], Split(path), false)
  }

  function NormalAbsolute(path: Text): Text {
    Absolute(Resolved(path))
  }

  function NormalRelative(path: Text): Text {
    Relative(WalkAll([], Split(path), true))
  }

  predicate EndsInSlash(path: Text) {
    path != [] && path[|path| - 1] == '/'
  }

  /** bx_path_join. */
  function PathJoin(left: Text, right: Text): Text {
    if left == [] || EndsInSlash(left) then left + right else left + "/" + right
  }

  // ------------------------------------------------------------ splitting and joining

  predicate Part(part: Text) {
    part != [] && '/' !in part
  }

  predicate Parts(parts: seq<Text>) {
    forall i :: 0 <= i < |parts| ==> Part(parts[i])
  }

  lemma {:induction false} SplitGivesParts(path: Text)
    ensures Parts(Split(path))
  {
    if path != [] {
      SplitGivesParts(path[if path[0] == '/' then 1 else PartEnd(path)..]);
    }
  }

  lemma InSlice<T>(s: seq<T>, n: nat, k: nat)
    ensures k < n <= |s| ==> s[k] in s[..n]
  {
    assert k < n <= |s| ==> s[..n][k] == s[k];
  }

  lemma PartEndStops(path: Text, n: nat)
    requires n <= |path| && '/' !in path[..n] && (n < |path| ==> path[n] == '/')
    ensures PartEnd(path) == n
  {
    var m := PartEnd(path);
    InSlice(path, n, m);
    InSlice(path, m, n);
  }

  lemma {:induction false} SplitAtSlash(left: Text, right: Text)
    ensures Split(left + "/" + right) == Split(left) + Split(right)
  {
    var path := left + "/" + right;
    if left == [] {
      assert path == "/" + right && path[1..] == right;
    } else if left[0] == '/' {
      SplitAtSlash(left[1..], right);
      assert path[1..] == left[1..] + "/" + right;
    } else {
      var n := PartEnd(left);
      assert path[..n] == left[..n];
      PartEndStops(path, n);
      SplitAtSlash(left[n..], right);
      assert path[n..] == left[n..] + "/" + right;
    }
  }

  lemma SplitOfJoin(left: Text, right: Text)
    ensures Split(PathJoin(left, right)) == Split(left) + Split(right)
  {
    if left == [] {
      assert left + right == right;
    } else if EndsInSlash(left) {
      var front := left[..|left| - 1];
      assert left == front + "/" == front + "/" + [];
      assert left + right == front + "/" + right;
      SplitAtSlash(front, right);
      SplitAtSlash(front, []);
    } else {
      SplitAtSlash(left, right);
    }
  }

  lemma SplitOfPart(part: Text)
    requires Part(part)
    ensures Split(part) == [part]
  {
    assert part[..|part|] == part;
    PartEndStops(part, |part|);
    assert part[|part|..] == [];
  }

  lemma {:induction false} SplitOfJoined(parts: seq<Text>)
    requires Parts(parts)
    ensures Split(Joined(parts)) == parts
  {
    if |parts| == 1 {
      SplitOfPart(parts[0]);
    } else if |parts| > 1 {
      var front, last := parts[..|parts| - 1], parts[|parts| - 1];
      SplitOfJoined(front);
      SplitOfPart(last);
      SplitAtSlash(Joined(front), last);
    }
  }

  lemma SplitOfAbsolute(parts: seq<Text>)
    requires Parts(parts)
    ensures Split(Absolute(parts)) == parts
  {
    SplitOfJoined(parts);
    assert Absolute(parts)[1..] == Joined(parts);
  }

  // ------------------------------------------------------------------- normal forms

  lemma {:induction false} WalkInTwo(stack: seq<Text>, a: seq<Text>, b: seq<Text>, preserve: bool)
    ensures WalkAll(stack, a + b, preserve) == WalkAll(WalkAll(stack, a, preserve), b, preserve)
    decreases |a|
  {
    hide Walk;
    if a == [] {
      assert a + b == b;
    } else {
      WalkInTwo(Walk(stack, a[0], preserve), a[1..], b, preserve);
      assert (a + b)[1..] == a[1..] + b;
    }
  }

  lemma WalkOne(stack: seq<Text>, a: seq<Text>, part: Text, preserve: bool)
    ensures WalkAll(stack, a + [part], preserve) == Walk(WalkAll(stack, a, preserve), part, preserve)
  {
    hide Walk;
    WalkInTwo(stack, a, [part], preserve);
  }

  /** Names, after ups at the most at the front: what walking leaves. */
  predicate Normal(parts: seq<Text>, ups: nat) {
    && Parts(parts)
    && ups <= |parts|
    && (forall i :: 0 <= i < ups ==> parts[i] == UP)
    && (forall i :: ups <= i < |parts| ==> parts[i] != UP && parts[i] != ".")
  }

  lemma {:induction false} WalkingIsNormal(stack: seq<Text>, parts: seq<Text>, preserve: bool, ups: nat)
      returns (ups': nat)
    requires Normal(stack, ups) && Parts(parts) && (!preserve ==> ups == 0)
    ensures Normal(WalkAll(stack, parts, preserve), ups') && (!preserve ==> ups' == 0)
    decreases |parts|
  {
    if parts == [] {
      ups' := ups;
    } else {
      var next := if preserve && parts[0] == UP && ups == |stack| then ups + 1 else ups;
      ups' := WalkingIsNormal(Walk(stack, parts[0], preserve), parts[1..], preserve, next);
    }
  }

  /** A normal form walks to itself. */
  lemma {:induction false} NormalIsFixed(parts: seq<Text>, ups: nat, preserve: bool, n: nat)
    requires Normal(parts, ups) && (!preserve ==> ups == 0) && n <= |parts|
    ensures WalkAll([], parts[..n], preserve) == parts[..n]
  {
    if n > 0 {
      NormalIsFixed(parts, ups, preserve, n - 1);
      assert parts[..n] == parts[..n - 1] + [parts[n - 1]];
      WalkOne([], parts[..n - 1], parts[n - 1], preserve);
    }
  }

  lemma ResolvedIsNormal(path: Text)
    ensures Normal(Resolved(path), 0)
  {
    SplitGivesParts(path);
    var ups := WalkingIsNormal([], Split(path), false, 0);
  }

  /** Normalising an absolute path twice is normalising it once. */
  lemma AbsoluteIdempotent(path: Text)
    ensures Resolved(NormalAbsolute(path)) == Resolved(path)
    ensures NormalAbsolute(NormalAbsolute(path)) == NormalAbsolute(path)
  {
    ResolvedIsNormal(path);
    var parts := Resolved(path);
    SplitOfAbsolute(parts);
    NormalIsFixed(parts, 0, false, |parts|);
    assert parts[..|parts|] == parts;
  }

  lemma SplitOfRelative(parts: seq<Text>, ups: nat)
    requires Normal(parts, ups)
    ensures Split(Relative(parts)) == if parts == [] then ["."] else parts
    ensures Relative(parts) != [] && Relative(parts)[0] != '/'
  {
    SplitOfPart(".");
    SplitOfJoined(parts);
    if parts != [] {
      StartsWithPart(parts);
    }
  }

  lemma {:induction false} StartsWithPart(parts: seq<Text>)
    requires Parts(parts) && parts != []
    ensures parts[0] <= Joined(parts) && Joined(parts) != [] && Joined(parts)[0] != '/'
  {
    assert Part(parts[0]);
    if |parts| > 1 {
      StartsWithPart(parts[..|parts| - 1]);
    }
  }

  /** Normalising a relative path twice is normalising it once. */
  lemma RelativeIdempotent(path: Text)
    ensures NormalRelative(NormalRelative(path)) == NormalRelative(path)
    ensures NormalRelative(path) != [] && NormalRelative(path)[0] != '/'
  {
    SplitGivesParts(path);
    var ups := WalkingIsNormal([], Split(path), true, 0);
    var parts := WalkAll([], Split(path), true);
    SplitOfRelative(parts, ups);
    NormalIsFixed(parts, ups, true, |parts|);
    assert parts[..|parts|] == parts;
  }

  // ---------------------------------------------------------------- meaning preserved

  /** Walking the part of a path that is already reduced leads where the part itself leads. */
  lemma {:induction false} ReducedLeadsTheSameWay(base: seq<Text>, reduced: seq<Text>, parts: seq<Text>)
    requires forall i :: 0 <= i < |reduced| ==> reduced[i] != "."
    ensures WalkAll(base, WalkAll(reduced, parts, true), false) == WalkAll(WalkAll(base, reduced, false), parts, false)
    decreases |parts|
  {
    if parts != [] {
      var part, n := parts[0], |reduced|;
      if n > 0 {
        WalkOne(base, reduced[..n - 1], reduced[n - 1], false);
        assert reduced == reduced[..n - 1] + [reduced[n - 1]];
      }
      WalkOne(base, reduced, part, false);
      ReducedLeadsTheSameWay(base, Walk(reduced, part, true), parts[1..]);
    }
  }

  /** From any base, the normalised relative path and the original name the same place. */
  lemma NormalRelativeKeepsMeaning(base: Text, path: Text)
    ensures NormalAbsolute(PathJoin(base, NormalRelative(path))) == NormalAbsolute(PathJoin(base, path))
  {
    SplitGivesParts(path);
    var ups := WalkingIsNormal([], Split(path), true, 0);
    var parts := WalkAll([], Split(path), true);
    SplitOfRelative(parts, ups);
    SplitOfJoin(base, path);
    SplitOfJoin(base, NormalRelative(path));
    WalkInTwo([], Split(base), Split(path), false);
    WalkInTwo([], Split(base), Split(Relative(parts)), false);
    ReducedLeadsTheSameWay(Resolved(base), [], Split(path));
    assert WalkAll(Resolved(base), ["."], false) == Resolved(base);
  }

  // ------------------------------------------------------------------- relative paths

  /** How many leading components two lists share. */
  function Common(a: seq<Text>, b: seq<Text>): (n: nat)
    ensures n <= |a| && n <= |b| && a[..n] == b[..n]
    ensures n < |a| && n < |b| ==> a[n] != b[n]
  {
    if a == [] || b == [] || a[0] != b[0] then 0 else
      var n := Common(a[1..], b[1..]);
      assert a[..n + 1] == [a[0]] + a[1..][..n] && b[..n + 1] == [b[0]] + b[1..][..n];
      n + 1
  }

  lemma CommonIsMost(a: seq<Text>, b: seq<Text>, n: nat)
    requires n <= |a| && n <= |b| && a[..n] == b[..n]
    ensures n <= Common(a, b)
  {
    var c := Common(a, b);
    if c < n {
      assert a[..n][c] == b[..n][c];
    }
  }

  function Ups(n: nat): (ups: seq<Text>)
    ensures |ups| == n && forall i :: 0 <= i < n ==> ups[i] == UP
  {
    seq(n, _ => UP)
  }

  /** Up to the common ancestor and down again. */
  function Way(from: seq<Text>, to: seq<Text>): seq<Text> {
    Ups(|from| - Common(from, to)) + to[Common(from, to)..]
  }

  function Between(from: Text, to: Text): Text {
    Relative(Way(Resolved(from), Resolved(to)))
  }

  lemma {:induction false} WalkUps(stack: seq<Text>, n: nat)
    requires n <= |stack|
    ensures WalkAll(stack, Ups(n), false) == stack[..|stack| - n]
  {
    if n > 0 {
      var up := stack[..|stack| - 1];
      WalkUps(up, n - 1);
      assert Ups(n)[0] == UP && Ups(n)[1..] == Ups(n - 1);
      assert Walk(stack, UP, false) == up;
      assert up[..|up| - (n - 1)] == stack[..|stack| - n];
    }
  }

  lemma {:induction false} WalkNames(stack: seq<Text>, names: seq<Text>)
    requires forall i :: 0 <= i < |names| ==> names[i] != UP && names[i] != "."
    ensures WalkAll(stack, names, false) == stack + names
    decreases |names|
  {
    if names != [] {
      WalkNames(stack + [names[0]], names[1..]);
      assert stack + [names[0]] + names[1..] == stack + names;
    }
  }

  lemma WayLeadsThere(from: seq<Text>, to: seq<Text>)
    requires Normal(to, 0)
    ensures WalkAll(from, Way(from, to), false) == to
  {
    var c := Common(from, to);
    WalkInTwo(from, Ups(|from| - c), to[c..], false);
    WalkUps(from, |from| - c);
    hide WalkAll, Common;
    assert from[..|from| - (|from| - c)] == from[..c] == to[..c];
    WalkNames(from[..c], to[c..]);
  }

  lemma WayIsNormal(from: seq<Text>, to: seq<Text>)
    requires Normal(to, 0)
    ensures Normal(Way(from, to), |from| - Common(from, to))
  {
  }

  /** Joining the relative path onto its start leads to its end. */
  lemma BetweenLeadsThere(from: Text, to: Text)
    ensures NormalAbsolute(PathJoin(from, Between(from, to))) == NormalAbsolute(to)
    ensures Between(from, to) != [] && Between(from, to)[0] != '/'
  {
    var a, b := Resolved(from), Resolved(to);
    ResolvedIsNormal(to);
    WayIsNormal(a, b);
    SplitOfRelative(Way(a, b), |a| - Common(a, b));
    SplitOfJoin(from, Between(from, to));
    WalkInTwo([], Split(from), Split(Between(from, to)), false);
    WayLeadsThere(a, b);
    assert WalkAll(a, ["."], false) == a;
  }

  function Distance(a: seq<Text>, b: seq<Text>): int {
    |a| + |b| - 2 * Common(a, b)
  }

  /** One component changes the distance by one at most. */
  lemma WalkIsOneStep(a: seq<Text>, part: Text, b: seq<Text>)
    ensures Distance(a, b) <= 1 + Distance(Walk(a, part, false), b)
  {
    var next := Walk(a, part, false);
    var c := Common(next, b);
    if |next| > |a| {
      var d := if c <= |a| then c else |a|;
      assert a[..d] == next[..c][..d] == b[..c][..d] == b[..d];
      CommonIsMost(a, b, d);
    } else {
      assert next == a[..|next|];
      assert a[..c] == next[..c];
      CommonIsMost(a, b, c);
    }
  }

  lemma {:induction false} WalkingTakesTheDistance(a: seq<Text>, parts: seq<Text>, b: seq<Text>)
    requires WalkAll(a, parts, false) == b
    ensures Distance(a, b) <= |parts|
    decreases |parts|
  {
    if parts == [] {
      CommonIsMost(a, b, |a|);
    } else {
      WalkingTakesTheDistance(Walk(a, parts[0], false), parts[1..], b);
      WalkIsOneStep(a, parts[0], b);
    }
  }

  /** No relative path that leads from one place to the other has fewer components. */
  lemma BetweenIsShortest(from: Text, to: Text, other: Text)
    requires other != [] && other[0] != '/'
    requires NormalAbsolute(PathJoin(from, other)) == NormalAbsolute(to)
    ensures |Split(Between(from, to))| <= |Split(other)|
  {
    var a, b := Resolved(from), Resolved(to);
    SplitOfJoin(from, other);
    WalkInTwo([], Split(from), Split(other), false);
    ResolvedIsNormal(to);
    ResolvedIsNormal(PathJoin(from, other));
    SplitOfAbsolute(b);
    SplitOfAbsolute(Resolved(PathJoin(from, other)));
    WalkingTakesTheDistance(a, Split(other), b);
    WayIsNormal(a, b);
    SplitOfRelative(Way(a, b), |a| - Common(a, b));
  }

  // ------------------------------------------------------------------------- as coded

  lemma SkipSlash(path: Text, cursor: nat)
    requires cursor < |path| && path[cursor] == '/'
    ensures Split(path[cursor..]) == Split(path[cursor + 1..])
  {
    assert path[cursor..][1..] == path[cursor + 1..];
  }

  lemma NothingLeft(path: Text, parts: seq<Text>, preserve: bool)
    ensures WalkAll(parts, Split(path[|path|..]), preserve) == parts
  {
    assert path[|path|..] == [];
  }

  lemma FirstPart(path: Text, start: nat, end: nat, parts: seq<Text>, preserve: bool)
    requires start < end <= |path| && '/' !in path[start..end] && (end < |path| ==> path[end] == '/')
    ensures WalkAll(parts, Split(path[start..]), preserve)
         == WalkAll(Walk(parts, path[start..end], preserve), Split(path[end..]), preserve)
  {
    var rest := path[start..];
    assert rest[..end - start] == path[start..end] && rest[end - start..] == path[end..];
    assert path[start] == path[start..end][0];
    PartEndStops(rest, end - start);
  }

  lemma JoinedSnoc(parts: seq<Text>, i: nat)
    requires i < |parts|
    ensures Joined(parts[..i + 1]) == Joined(parts[..i]) + (if i == 0 then [] else "/") + parts[i]
  {
    assert parts[..i + 1][..i] == parts[..i];
  }

  lemma {:induction false} JoinedGrows(parts: seq<Text>, i: nat)
    requires i <= |parts|
    ensures |Joined(parts[..i])| <= |Joined(parts)|
    decreases |parts| - i
  {
    if i < |parts| {
      JoinedSnoc(parts, i);
      JoinedGrows(parts, i + 1);
    } else {
      assert parts[..i] == parts;
    }
  }

  /** What Fill has written before component i. */
  ghost function Filled(parts: seq<Text>, i: nat): Text
    requires i <= |parts|
  {
    Joined(parts[..i]) + if 0 < i < |parts| then "/" else []
  }

  lemma FillStep(parts: seq<Text>, i: nat)
    requires i < |parts|
    ensures Filled(parts, i + 1) == Filled(parts, i) + parts[i] + if i + 1 < |parts| then "/" else []
    ensures |Filled(parts, i + 1)| <= |Joined(parts)|
    ensures Filled(parts, 0) == []
  {
    JoinedSnoc(parts, i);
    JoinedGrows(parts, i + 1);
    assert Joined(parts[..0]) == [];
    if i + 1 < |parts| {
      JoinedSnoc(parts, i + 1);
      JoinedGrows(parts, i + 2);
    }
  }

  /** The components with slashes between them. */
  method Fill(out: array<char>, outPos: nat, parts: seq<Text>) returns (pos: nat)
    requires outPos + |Joined(parts)| <= out.Length
    modifies out
    ensures pos == outPos + |Joined(parts)|
    ensures out[..pos] == old(out[..outPos]) + Joined(parts)
  {
    pos := outPos;
    assert Filled(parts, 0) == [] && Filled(parts, |parts|) == Joined(parts) by {
      assert parts[..|parts|] == parts && parts[..0] == [];
    }
    hide Joined, Filled;
    for i := 0 to |parts|
      invariant pos == outPos + |Filled(parts, i)| <= out.Length
      invariant out[..pos] == old(out[..outPos]) + Filled(parts, i)
    {
      FillStep(parts, i);
      Memory.Copy(out, pos, parts[i]);
      pos := pos + |parts[i]|;
      if i + 1 < |parts| {
        out[pos] := '/';
        pos := pos + 1;
      }
    }
  }

  /** The growing array of components. */
  class Components {
    var parts: seq<Text>

    constructor ()
      ensures parts == []
    {
      parts := [];
    }

    /** bx_path_components_push_range_dup. */
    method Push(part: Text)
      modifies this
      ensures parts == old(parts) + [part]
    {
      parts := parts + [part];
    }

    /** bx_path_components_pop. */
    method Pop()
      modifies this
      ensures parts == if old(parts) == [] then [] else old(parts)[..|old(parts)| - 1]
    {
      if |parts| == 0 {
        return;
      }
      parts := parts[..|parts| - 1];
    }

    /** bx_path_components_append_normalized_mode. */
    method AppendNormalized(path: Text, preserveLeadingDotdot: bool)
      modifies this
      ensures parts == WalkAll(old(parts), Split(path), preserveLeadingDotdot)
    {
      hide WalkAll, Split;
      var cursor := 0;
      assert path[0..] == path;
      while cursor < |path|
        invariant cursor <= |path|
        invariant WalkAll(parts, Split(path[cursor..]), preserveLeadingDotdot)
               == WalkAll(old(parts), Split(path), preserveLeadingDotdot)
      {
        while cursor < |path| && path[cursor] == '/'
          invariant cursor <= |path|
          invariant WalkAll(parts, Split(path[cursor..]), preserveLeadingDotdot)
                 == WalkAll(old(parts), Split(path), preserveLeadingDotdot)
        {
          SkipSlash(path, cursor);
          cursor := cursor + 1;
        }
        if cursor == |path| {
          break;
        }
        var start := cursor;
        while cursor < |path| && path[cursor] != '/'
          invariant start <= cursor <= |path|
          invariant '/' !in path[start..cursor]
        {
          assert path[start..cursor + 1] == path[start..cursor] + [path[cursor]];
          cursor := cursor + 1;
        }
        var part := path[start..cursor];
        FirstPart(path, start, cursor, parts, preserveLeadingDotdot);
        if |part| == 1 && part[0] == '.' {
          continue;
        }
        if |part| == 2 && part[0] == '.' && part[1] == '.' {
          if preserveLeadingDotdot && (|parts| == 0 || parts[|parts| - 1] == UP) {
            Push(part);
          } else {
            Pop();
          }
          continue;
        }
        Push(part);
      }
      NothingLeft(path, parts, preserveLeadingDotdot);
    }

    /** bx_path_components_to_absolute_path: sized first, then filled. */
    method ToAbsolutePath(count: nat) returns (path: Text)
      requires count <= |parts|
      ensures path == Absolute(parts[..count])
    {
      if count == 0 {
        return "/";
      }
      var len := 2;
      for i := 0 to count
        invariant len == 2 + |Joined(parts[..i])| + if 0 < i < count then 1 else 0
      {
        JoinedSnoc(parts, i);
        len := len + |parts[i]|;
        if i + 1 < count {
          len := len + 1;
        }
      }
      var out := new char[len];
      var pos := 0;
      out[pos] := '/';
      pos := pos + 1;
      pos := Fill(out, pos, parts[..count]);
      out[pos] := '\0';
      path := out[..pos];
    }

    /** bx_path_components_to_relative_path. */
    method ToRelativePath(count: nat) returns (path: Text)
      requires count <= |parts|
      ensures path == Relative(parts[..count])
    {
      if count == 0 {
        return ".";
      }
      var len := 1;
      for i := 0 to count
        invariant len == 1 + |Joined(parts[..i])| + if 0 < i < count then 1 else 0
      {
        JoinedSnoc(parts, i);
        len := len + |parts[i]|;
        if i + 1 < count {
          len := len + 1;
        }
      }
      var out := new char[len];
      var pos := Fill(out, 0, parts[..count]);
      out[pos] := '\0';
      path := out[..pos];
    }
  }

  /** bx_path_normalize_absolute_lexical_dup; cwd is what getcwd gives, if it succeeds. */
  method NormalizeAbsolute(path: Text, cwd: Option<Text>) returns (normalized: Option<Text>)
    ensures path != [] && path[0] == '/' ==> normalized == Some(NormalAbsolute(path))
    ensures !(path != [] && path[0] == '/') ==>
      normalized == if cwd.None? then None else Some(NormalAbsolute(PathJoin(cwd.value, path)))
  {
    var components := new Components();
    if path == [] || path[0] != '/' {
      if cwd.None? {
        return None;
      }
      components.AppendNormalized(cwd.value, false);
      SplitOfJoin(cwd.value, path);
      WalkInTwo([], Split(cwd.value), Split(path), false);
    }
    components.AppendNormalized(path, false);
    var out := components.ToAbsolutePath(|components.parts|);
    assert components.parts[..|components.parts|] == components.parts;
    return Some(out);
  }

  /** bx_path_normalize_relative_lexical_dup. */
  method NormalizeRelative(path: Text) returns (normalized: Option<Text>)
    ensures normalized == if path != [] && path[0] == '/' then None else Some(NormalRelative(path))
  {
    if path != [] && path[0] == '/' {
      return None;
    }
    var components := new Components();
    components.AppendNormalized(path, true);
    var out := components.ToRelativePath(|components.parts|);
    assert components.parts[..|components.parts|] == components.parts;
    return Some(out);
  }

  /** bx_path_join. */
  method Join(left: Text, right: Text) returns (path: Text)
    ensures path == PathJoin(left, right)
  {
    var needSlash := |left| > 0 && left[|left| - 1] != '/';
    var res := new char[|left| + (if needSlash then 1 else 0) + |right| + 1];
    Memory.Copy(res, 0, left);
    var pos := |left|;
    if needSlash {
      res[pos] := '/';
      pos := pos + 1;
    }
    Memory.Copy(res, pos, right);
    pos := pos + |right|;
    path := res[..pos];
  }

  /** bx_path_relative_path_between. */
  method RelativePathBetween(from: Text, to: Text) returns (relative: Option<Text>)
    ensures relative ==
      if from == [] || to == [] || from[0] != '/' || to[0] != '/' then None else Some(Between(from, to))
  {
    if from == [] || to == [] || from[0] != '/' || to[0] != '/' {
      return None;
    }
    var fromComponents := new Components();
    var toComponents := new Components();
    fromComponents.AppendNormalized(from, false);
    toComponents.AppendNormalized(to, false);
    ResolvedIsNormal(to);
    var out := PrintWay(fromComponents.parts, toComponents.parts);
    return Some(out);
  }

  lemma SameInSlice<T>(a: seq<T>, b: seq<T>, c: nat, n: nat)
    requires c <= |a| && c <= |b| && a[..c] == b[..c]
    ensures n < c ==> a[n] == b[n]
  {
    assert n < c ==> a[..c][n] == b[..c][n];
  }

  lemma CommonIsWhereTheyPart(a: seq<Text>, b: seq<Text>, n: nat)
    requires n <= |a| && n <= |b| && a[..n] == b[..n]
    requires n < |a| && n < |b| ==> a[n] != b[n]
    ensures Common(a, b) == n
  {
    CommonIsMost(a, b, n);
    var c := Common(a, b);
    SameInSlice(a, b, c, n);
  }

  function Total(parts: seq<Text>): nat {
    if parts == [] then 0 else Total(parts[..|parts| - 1]) + |parts[|parts| - 1]|
  }

  lemma TotalSnoc(parts: seq<Text>, i: nat)
    requires i < |parts|
    ensures Total(parts[..i + 1]) == Total(parts[..i]) + |parts[i]|
  {
    assert parts[..i + 1][..i] == parts[..i];
  }

  lemma {:induction false} JoinedLength(parts: seq<Text>)
    ensures |Joined(parts)| == Total(parts) + if parts == [] then 0 else |parts| - 1
  {
    if |parts| == 1 {
      assert Total(parts[..0]) == 0;
    } else if |parts| > 1 {
      JoinedLength(parts[..|parts| - 1]);
    }
  }

  lemma {:induction false} TotalOfUps(n: nat)
    ensures Total(Ups(n)) == 2 * n
  {
    if n > 0 {
      TotalOfUps(n - 1);
      assert Ups(n)[..n - 1] == Ups(n - 1);
    }
  }

  /** One more segment, behind a slash unless it is the first. */
  method AppendSegment(out: array<char>, outPos: nat, part: Text, ghost parts: seq<Text>, ghost k: nat)
      returns (pos: nat)
    requires k < |parts| && part == parts[k] && Parts(parts)
    requires |Joined(parts)| < out.Length
    requires outPos == |Joined(parts[..k])| < out.Length && out[..outPos] == Joined(parts[..k])
    modifies out
    ensures pos == |Joined(parts[..k + 1])| < out.Length && out[..pos] == Joined(parts[..k + 1])
  {
    pos := outPos;
    JoinedSnoc(parts, k);
    JoinedGrows(parts, k + 1);
    if k > 0 {
      StartsWithPart(parts[..k]);
    }
    if pos > 0 {
      out[pos] := '/';
      pos := pos + 1;
    }
    Memory.Copy(out, pos, part);
    pos := pos + |part|;
  }

  method PrintWay(from: seq<Text>, to: seq<Text>) returns (relative: Text)
    requires Normal(to, 0)
    ensures relative == Relative(Way(from, to))
  {
    hide Joined, Total;
    var common := 0;
    while common < |from| && common < |to| && from[common] == to[common]
      invariant common <= |from| && common <= |to| && from[..common] == to[..common]
    {
      assert from[..common + 1] == from[..common] + [from[common]];
      assert to[..common + 1] == to[..common] + [to[common]];
      common := common + 1;
    }
    CommonIsWhereTheyPart(from, to, common);
    var upCount, downCount := |from| - common, |to| - common;
    var segmentCount := upCount + downCount;
    if segmentCount == 0 {
      return ".";
    }
    ghost var way := Way(from, to);
    WayIsNormal(from, to);
    assert way == Ups(upCount) + to[common..];
    var len := WayLength(upCount, common, to, way);
    var out := new char[len];
    var pos := 0;
    JoinedNothing(way[..0]);
    for i := 0 to upCount
      invariant pos == |Joined(way[..i])| < out.Length && out[..pos] == Joined(way[..i])
    {
      pos := AppendSegment(out, pos, "..", way, i);
    }
    for i := common to |to|
      invariant pos == |Joined(way[..upCount + i - common])| < out.Length
      invariant out[..pos] == Joined(way[..upCount + i - common])
    {
      pos := AppendSegment(out, pos, to[i], way, upCount + i - common);
    }
    assert way[..|way|] == way;
    out[pos] := '\0';
    relative := out[..pos];
  }

  /** The size of the result with its slashes and its NUL. */
  method WayLength(upCount: nat, common: nat, to: seq<Text>, ghost way: seq<Text>) returns (len: nat)
    requires common <= |to| && way == Ups(upCount) + to[common..] && way != []
    ensures len == 1 + |Joined(way)|
  {
    hide Joined, Total;
    assert way[..upCount] == Ups(upCount);
    TotalOfUps(upCount);
    var segmentCount := upCount + |to| - common;
    len := 1;
    if segmentCount > 1 {
      len := len + segmentCount - 1;
    }
    len := len + upCount * 2;
    for i := common to |to|
      invariant len == segmentCount + Total(way[..upCount + i - common])
    {
      TotalSnoc(way, upCount + i - common);
      len := len + |to[i]|;
    }
    assert way[..|way|] == way;
    JoinedLength(way);
  }

  lemma JoinedNothing(parts: seq<Text>)
    requires parts == []
    ensures Joined(parts) == []
  {
  }
}
