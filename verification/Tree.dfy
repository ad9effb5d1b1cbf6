/** The directory tree, kept as parent links (SqlDirectoryRepository, services/resolver.py). */
module Tree {
  import opened Common
  import opened Entities

  predicate IsLive(dirs: Directories, d: Id) { d in dirs && dirs[d].live }

  predicate IsRootOf(dirs: Directories, d: Id, owner: Id) { IsLive(dirs, d) && dirs[d].parent.None? && dirs[d].owner == owner }

  predicate IsChildOf(dirs: Directories, d: Id, parent: Id, name: string) {
    IsLive(dirs, d) && dirs[d].parent == Some(parent) && dirs[d].name == name
  }

  // ----- Queries -------------------------------------------------------------

  function First(ids: set<Id>): Option<Id> { if ids == {} then None else Some(Ascending(ids)[0]) }

  lemma FirstIsIn(ids: set<Id>)
    ensures First(ids).Some? ==> First(ids).value in ids
    ensures First(ids).None? <==> ids == {}
  {
    AscendingLists(ids);
    if ids != {} { assert Ascending(ids)[0] in Ascending(ids); }
  }

  function RootsOf(dirs: Directories, owner: Id): set<Id> { set d | d in dirs && IsRootOf(dirs, d, owner) }

  function ChildrenNamed(dirs: Directories, parent: Id, name: string): set<Id> {
    set d | d in dirs && IsChildOf(dirs, d, parent, name)
  }

  function GetRoot(dirs: Directories, owner: Id): Option<Id> { First(RootsOf(dirs, owner)) }

  function GetChild(dirs: Directories, parent: Id, name: string): Option<Id> { First(ChildrenNamed(dirs, parent, name)) }

  function Walk(dirs: Directories, from: Id, names: seq<string>): Option<Id>
    decreases |names|
  {
    if names == [] then Some(from) else
    match GetChild(dirs, from, names[0])
    case None => None
    case Some(d) => Walk(dirs, d, names[1..])
  }

  /** The directory at a path of a user's tree; the outer None is a user without a tree. */
  function Find(dirs: Directories, owner: Id, names: seq<string>): Option<Option<Id>> {
    match GetRoot(dirs, owner)
    case None => None
    case Some(root) => Some(Walk(dirs, root, names))
  }

  method FindDirectory(dirs: Directories, owner: Id, names: seq<string>) returns (r: Result<Option<Id>>)
    ensures match Find(dirs, owner, names) case None => r == Err(NotFound) case Some(d) => r == Ok(d)
  {
    var root := GetRoot(dirs, owner);
    if root.None? {
      return Err(NotFound);
    }
    var current := root.value;
    for i := 0 to |names|
      invariant Walk(dirs, current, names[i..]) == Walk(dirs, root.value, names)
    {
      var next := GetChild(dirs, current, names[i]);
      assert names[i..][1..] == names[i + 1..];
      if next.None? {
        return Ok(None);
      }
      current := next.value;
    }
    return Ok(Some(current));
  }

  // ----- Paths as parent links --------------------------------------------------

  /** Climbing from d by the given names, read backwards, ends at a root. */
  ghost predicate IsPath(dirs: Directories, d: Id, names: seq<string>)
    decreases |names|
  {
    IsLive(dirs, d) &&
    if names == [] then dirs[d].parent.None?
    else dirs[d].parent.Some? && dirs[d].name == names[|names| - 1] && IsPath(dirs, dirs[d].parent.value, names[..|names| - 1])
  }

  ghost predicate HasPath(dirs: Directories, d: Id) { exists names :: IsPath(dirs, d, names) }

  /** The live directories form a forest: one root per user, live parents of the same owner, unique
      names under a parent, and no cycles. */
  ghost predicate IsForest(dirs: Directories) {
    && (forall d, e :: IsLive(dirs, d) && IsLive(dirs, e) && d != e && dirs[d].parent == dirs[e].parent ==>
          if dirs[d].parent.None? then dirs[d].owner != dirs[e].owner else dirs[d].name != dirs[e].name)
    && (forall d :: IsLive(dirs, d) && dirs[d].parent.Some? ==>
          IsLive(dirs, dirs[d].parent.value) && dirs[dirs[d].parent.value].owner == dirs[d].owner)
    && (forall d :: IsLive(dirs, d) ==> HasPath(dirs, d))
  }

  lemma {:induction false} PathIsUnique(dirs: Directories, d: Id, a: seq<string>, b: seq<string>)
    requires IsPath(dirs, d, a) && IsPath(dirs, d, b)
    ensures a == b
    decreases |a|
  {
    if a != [] {
      PathIsUnique(dirs, dirs[d].parent.value, a[..|a| - 1], b[..|b| - 1]);
      assert a == a[..|a| - 1] + [a[|a| - 1]] && b == b[..|b| - 1] + [b[|b| - 1]];
    }
  }

  lemma {:induction false} PathIdentifies(dirs: Directories, d: Id, e: Id, names: seq<string>)
    requires IsForest(dirs) && IsPath(dirs, d, names) && IsPath(dirs, e, names) && dirs[d].owner == dirs[e].owner
    ensures d == e
    decreases |names|
  {
    if names != [] {
      PathIdentifies(dirs, dirs[d].parent.value, dirs[e].parent.value, names[..|names| - 1]);
    }
  }

  lemma ChildIs(dirs: Directories, parent: Id, name: string)
    ensures match GetChild(dirs, parent, name)
            case None => forall d :: !IsChildOf(dirs, d, parent, name)
            case Some(d) => IsChildOf(dirs, d, parent, name)
  {
    FirstIsIn(ChildrenNamed(dirs, parent, name));
    forall d ensures IsChildOf(dirs, d, parent, name) <==> d in ChildrenNamed(dirs, parent, name) {}
  }

  lemma RootIs(dirs: Directories, owner: Id)
    ensures match GetRoot(dirs, owner)
            case None => forall d :: !IsRootOf(dirs, d, owner)
            case Some(d) => IsRootOf(dirs, d, owner)
  {
    FirstIsIn(RootsOf(dirs, owner));
    forall d ensures IsRootOf(dirs, d, owner) <==> d in RootsOf(dirs, owner) {}
  }

  /** A child extends the path of its parent by its name. */
  lemma PathOfChild(dirs: Directories, d: Id, parent: Id, name: string, names: seq<string>)
    requires IsPath(dirs, parent, names)
    ensures IsChildOf(dirs, d, parent, name) ==> IsPath(dirs, d, names + [name])
  {
    assert (names + [name])[..|names|] == names;
  }

  lemma {:induction false} WalkFollowsLinks(dirs: Directories, owner: Id, from: Id, done: seq<string>, names: seq<string>)
    requires IsForest(dirs) && IsPath(dirs, from, done) && dirs[from].owner == owner
    ensures Walk(dirs, from, names).Some? ==>
              var d := Walk(dirs, from, names).value; IsPath(dirs, d, done + names) && dirs[d].owner == owner
    decreases |names|
  {
    if names == [] {
      assert done + names == done;
    } else {
      ChildIs(dirs, from, names[0]);
      if GetChild(dirs, from, names[0]).Some? {
        var d := GetChild(dirs, from, names[0]).value;
        PathOfChild(dirs, d, from, names[0], done);
        WalkFollowsLinks(dirs, owner, d, done + [names[0]], names[1..]);
        assert done + [names[0]] + names[1..] == done + names;
      }
    }
  }

  lemma {:induction false} WalkSplits(dirs: Directories, from: Id, a: seq<string>, b: seq<string>)
    ensures Walk(dirs, from, a + b) == (match Walk(dirs, from, a) case None => None case Some(d) => Walk(dirs, d, b))
    decreases |a|
  {
    if a == [] {
      assert a + b == b;
    } else {
      assert (a + b)[1..] == a[1..] + b;
      match GetChild(dirs, from, a[0])
      case None =>
      case Some(d) => WalkSplits(dirs, d, a[1..], b);
    }
  }

  lemma {:induction false} LinksAreWalked(dirs: Directories, d: Id, names: seq<string>)
    requires IsForest(dirs) && IsPath(dirs, d, names)
    ensures Find(dirs, dirs[d].owner, names) == Some(Some(d))
    decreases |names|
  {
    var owner := dirs[d].owner;
    RootIs(dirs, owner);
    if names == [] {
      assert IsRootOf(dirs, d, owner);
    } else {
      var parent := dirs[d].parent.value;
      var front, last := names[..|names| - 1], names[|names| - 1];
      LinksAreWalked(dirs, parent, front);
      var root := GetRoot(dirs, owner).value;
      WalkSplits(dirs, root, front, [last]);
      assert front + [last] == names;
      ChildIs(dirs, parent, last);
      assert IsChildOf(dirs, d, parent, last);
      assert Walk(dirs, parent, [last]) == Some(d);
    }
  }

  /** Resolving a path and following parent links are inverse: resolution finds exactly the live
      directory of that user whose links spell the path. */
  lemma FindIsInverse(dirs: Directories, owner: Id, names: seq<string>, d: Id)
    requires IsForest(dirs)
    ensures Find(dirs, owner, names) == Some(Some(d)) <==> IsPath(dirs, d, names) && dirs[d].owner == owner
  {
    RootIs(dirs, owner);
    if Find(dirs, owner, names) == Some(Some(d)) {
      WalkFollowsLinks(dirs, owner, GetRoot(dirs, owner).value, [], names);
      assert [] + names == names;
    }
    if IsPath(dirs, d, names) && dirs[d].owner == owner { LinksAreWalked(dirs, d, names); }
  }

  function Reversed<T>(s: seq<T>): (r: seq<T>)
    ensures |r| == |s|
  {
    if s == [] then [] else Reversed(s[1..]) + [s[0]]
  }

  lemma {:induction false} ReversedAppend<T>(s: seq<T>, x: T)
    ensures Reversed(s + [x]) == [x] + Reversed(s)
  {
    if s == [] {
      assert Reversed([x]) == Reversed([]) + [x];
    } else {
      ReversedAppend(s[1..], x);
      assert (s + [x])[1..] == s[1..] + [x];
      assert [x] + Reversed(s[1..]) + [s[0]] == [x] + (Reversed(s[1..]) + [s[0]]);
    }
  }

  /** Climbs to the root collecting names. On a forest the climb always ends, with the one path of
      the directory. */
  method AbsolutePath(dirs: Directories, d: Id) returns (names: seq<string>)
    requires IsForest(dirs) && IsLive(dirs, d)
    ensures IsPath(dirs, d, names)
    ensures Find(dirs, dirs[d].owner, names) == Some(Some(d))
  {
    ghost var path :| IsPath(dirs, d, path);
    ghost var left := path;
    var segments: seq<string> := [];
    var current := d;
    while dirs[current].parent.Some?
      invariant IsPath(dirs, current, left)
      invariant left + Reversed(segments) == path
      decreases |left|
    {
      ReversedAppend(segments, dirs[current].name);
      assert left == left[..|left| - 1] + [dirs[current].name];
      left := left[..|left| - 1];
      segments := segments + [dirs[current].name];
      current := dirs[current].parent.value;
    }
    assert left == [] && path == Reversed(segments);
    LinksAreWalked(dirs, d, path);
    return Reversed(segments);
  }

  // ----- A new directory ---------------------------------------------------------

  ghost predicate Added(dirs: Directories, after: Directories, d: Id, parent: Id, name: string) {
    && d !in dirs && IsLive(dirs, parent)
    && after == dirs[d := Directory(Some(parent), name, dirs[parent].owner, true)]
  }

  lemma {:induction false} AddKeepsPath(dirs: Directories, after: Directories, d: Id, parent: Id, name: string, e: Id, names: seq<string>)
    requires Added(dirs, after, d, parent, name) && IsPath(dirs, e, names)
    ensures IsPath(after, e, names)
    decreases |names|
  {
    if names != [] { AddKeepsPath(dirs, after, d, parent, name, dirs[e].parent.value, names[..|names| - 1]); }
  }

  lemma AddKeepsForest(dirs: Directories, after: Directories, d: Id, parent: Id, name: string)
    requires IsForest(dirs) && Added(dirs, after, d, parent, name) && forall e :: !IsChildOf(dirs, e, parent, name)
    ensures IsForest(after)
  {
    forall e | IsLive(after, e) ensures HasPath(after, e) {
      var base := if e == d then parent else e;
      assert HasPath(dirs, base);
      var names :| IsPath(dirs, base, names);
      AddKeepsPath(dirs, after, d, parent, name, base, names);
      if e == d { PathOfChild(after, d, parent, name, names); }
    }
    forall a, b | IsLive(after, a) && IsLive(after, b) && a != b && after[a].parent == after[b].parent
      ensures if after[a].parent.None? then after[a].owner != after[b].owner else after[a].name != after[b].name
    {
      if a == d { assert !IsChildOf(dirs, b, parent, name); }
      if b == d { assert !IsChildOf(dirs, a, parent, name); }
    }
  }

  // ----- Moving a directory ------------------------------------------------------

  ghost predicate IsPrefix(a: seq<string>, b: seq<string>) { |a| <= |b| && b[..|a|] == a }

  ghost predicate Moved(dirs: Directories, after: Directories, d: Id, parent: Id, name: string) {
    && IsLive(dirs, d) && dirs[d].parent.Some? && IsLive(dirs, parent) && dirs[parent].owner == dirs[d].owner
    && after == dirs[d := dirs[d].(parent := Some(parent), name := name)]
  }

  /** The path of a directory after the one at `src` moved to `target`. */
  ghost function Substituted(names: seq<string>, src: seq<string>, target: seq<string>): seq<string> {
    if IsPrefix(src, names) then target + names[|src|..] else names
  }

  /** Directories outside the moved subtree keep their paths. */
  lemma {:induction false} MoveKeepsOutside(dirs: Directories, after: Directories, d: Id, parent: Id, name: string,
                                            src: seq<string>, e: Id, names: seq<string>)
    requires Moved(dirs, after, d, parent, name) && IsPath(dirs, d, src)
    requires IsPath(dirs, e, names) && (dirs[e].owner != dirs[d].owner || !IsPrefix(src, names)) && IsForest(dirs)
    ensures IsPath(after, e, names)
    decreases |names|
  {
    if e == d { PathIsUnique(dirs, d, src, names); }
    if names != [] {
      var up := names[..|names| - 1];
      assert IsPrefix(src, up) ==> IsPrefix(src, names);
      MoveKeepsOutside(dirs, after, d, parent, name, src, dirs[e].parent.value, up);
    }
  }

  lemma MovedRoot(dirs: Directories, after: Directories, d: Id, parent: Id, name: string, src: seq<string>, to: seq<string>)
    requires IsForest(dirs) && Moved(dirs, after, d, parent, name) && IsPath(dirs, d, src)
    requires IsPath(dirs, parent, to) && !IsPrefix(src, to)
    ensures IsPath(after, d, to + [name])
  {
    MoveKeepsOutside(dirs, after, d, parent, name, src, parent, to);
    PathOfChild(after, d, parent, name, to);
  }

  lemma SubstituteOneMore(dirs: Directories, after: Directories, d: Id, parent: Id, name: string,
                          k: nat, target: seq<string>, e: Id, names: seq<string>)
    requires Moved(dirs, after, d, parent, name) && IsPath(dirs, e, names) && e != d && k < |names|
    requires IsPath(after, dirs[e].parent.value, target + names[..|names| - 1][k..])
    ensures IsPath(after, e, target + names[k..])
  {
    var up, last := names[..|names| - 1], names[|names| - 1];
    assert after[e] == dirs[e] && IsChildOf(after, e, dirs[e].parent.value, last);
    PathOfChild(after, e, dirs[e].parent.value, last, target + up[k..]);
    assert target + up[k..] + [last] == target + names[k..];
  }

  /** Directories inside it change their prefix. */
  lemma {:induction false} MoveSubstitutesInside(dirs: Directories, after: Directories, d: Id, parent: Id, name: string,
                                                 src: seq<string>, target: seq<string>, e: Id, names: seq<string>)
    requires IsForest(dirs) && Moved(dirs, after, d, parent, name) && IsPath(dirs, d, src) && IsPath(after, d, target)
    requires IsPath(dirs, e, names) && dirs[e].owner == dirs[d].owner && IsPrefix(src, names)
    ensures IsPath(after, e, target + names[|src|..])
    decreases |names|
  {
    if |names| == |src| {
      assert names == names[..|names|] == src;
      PathIdentifies(dirs, d, e, names);
      assert target + names[|src|..] == target;
    } else {
      assert names[..|names| - 1][..|src|] == names[..|src|];
      if e == d { PathIsUnique(dirs, d, src, names); }
      MoveSubstitutesInside(dirs, after, d, parent, name, src, target, dirs[e].parent.value, names[..|names| - 1]);
      SubstituteOneMore(dirs, after, d, parent, name, |src|, target, e, names);
    }
  }

  /** Moving a directory changes absolute paths exactly by prefix substitution on the moved subtree. */
  lemma MoveSubstitutesPaths(dirs: Directories, after: Directories, d: Id, parent: Id, name: string,
                             src: seq<string>, to: seq<string>, e: Id, names: seq<string>)
    requires IsForest(dirs) && Moved(dirs, after, d, parent, name) && IsPath(dirs, d, src)
    requires IsPath(dirs, parent, to) && !IsPrefix(src, to) && IsPath(dirs, e, names)
    ensures IsPath(after, e, if dirs[e].owner == dirs[d].owner then Substituted(names, src, to + [name]) else names)
  {
    if dirs[e].owner == dirs[d].owner && IsPrefix(src, names) {
      MovedRoot(dirs, after, d, parent, name, src, to);
      MoveSubstitutesInside(dirs, after, d, parent, name, src, to + [name], e, names);
    } else {
      MoveKeepsOutside(dirs, after, d, parent, name, src, e, names);
    }
  }

  /** The prefix test alone rules out cycles: the live directories stay a forest. */
  lemma MoveKeepsForest(dirs: Directories, after: Directories, d: Id, parent: Id, name: string, src: seq<string>, to: seq<string>)
    requires IsForest(dirs) && Moved(dirs, after, d, parent, name) && IsPath(dirs, d, src)
    requires IsPath(dirs, parent, to) && !IsPrefix(src, to) && forall e :: !IsChildOf(dirs, e, parent, name)
    ensures IsForest(after)
  {
    forall e | IsLive(after, e) ensures HasPath(after, e) {
      assert IsLive(dirs, e);
      var names :| IsPath(dirs, e, names);
      MoveSubstitutesPaths(dirs, after, d, parent, name, src, to, e, names);
    }
    forall a, b | IsLive(after, a) && IsLive(after, b) && a != b && after[a].parent == after[b].parent
      ensures if after[a].parent.None? then after[a].owner != after[b].owner else after[a].name != after[b].name
    {
      if a == d { assert !IsChildOf(dirs, b, parent, name); }
      if b == d { assert !IsChildOf(dirs, a, parent, name); }
    }
  }

  /** Going once around a cycle yields a shorter path of the same directory, so there is none. */
  lemma CycleHasNoPath(dirs: Directories, d: Id, e: Id, rest: seq<string>, names: seq<string>)
    requires IsLive(dirs, d) && dirs[d].parent == Some(e) && Reaches(dirs, d, e, rest)
    ensures !IsPath(dirs, d, names)
  {
    if IsPath(dirs, d, names) {
      var up := names[..|names| - 1];
      ReachesPath(dirs, d, e, rest, up);
      PathIsUnique(dirs, d, names, up[..|up| - |rest|]);
    }
  }

  /** Without the test it would not be one: moving a directory below itself leaves it, and all that
      hangs from it, without any path to a root. */
  lemma MoveBelowItselfLosesTheSubtree(dirs: Directories, after: Directories, d: Id, parent: Id, name: string, rest: seq<string>)
    requires Moved(dirs, after, d, parent, name) && Reaches(dirs, d, parent, rest)
    ensures !HasPath(after, d)
  {
    if HasPath(after, d) {
      var names :| IsPath(after, d, names);
      MoveKeepsReach(dirs, after, d, parent, name, parent, rest);
      var up :| Reaches(after, d, parent, up);
      CycleHasNoPath(after, d, parent, up, names);
    }
  }

  // ----- Subtrees --------------------------------------------------------------

  /** Climbing from e by the given names, read backwards, ends at a. */
  ghost predicate Reaches(dirs: Directories, a: Id, e: Id, rest: seq<string>)
    decreases |rest|
  {
    if rest == [] then e == a
    else IsLive(dirs, e) && dirs[e].parent.Some? && dirs[e].name == rest[|rest| - 1]
         && Reaches(dirs, a, dirs[e].parent.value, rest[..|rest| - 1])
  }

  lemma {:induction false} ReachesPath(dirs: Directories, a: Id, e: Id, rest: seq<string>, names: seq<string>)
    requires Reaches(dirs, a, e, rest) && IsPath(dirs, e, names)
    ensures |rest| <= |names| && IsPath(dirs, a, names[..|names| - |rest|]) && names == names[..|names| - |rest|] + rest
    decreases |rest|
  {
    if rest == [] {
      assert names[..|names|] == names;
    } else {
      var up := names[..|names| - 1];
      ReachesPath(dirs, a, dirs[e].parent.value, rest[..|rest| - 1], up);
      assert names[..|names| - |rest|] == up[..|up| - (|rest| - 1)];
      assert names == up + [names[|names| - 1]] && rest == rest[..|rest| - 1] + [rest[|rest| - 1]];
    }
  }

  /** Below a means hanging from it, however deep, and not being it. */
  ghost predicate Below(dirs: Directories, a: Id, e: Id) { exists rest :: rest != [] && Reaches(dirs, a, e, rest) }

  /** The climb from e to the moved directory, which may come by it sooner after the move. */
  lemma {:induction false} MoveKeepsReach(dirs: Directories, after: Directories, d: Id, parent: Id, name: string, e: Id, rest: seq<string>)
    requires Moved(dirs, after, d, parent, name) && Reaches(dirs, d, e, rest)
    ensures exists up :: Reaches(after, d, e, up)
    decreases |rest|
  {
    if e == d {
      assert Reaches(after, d, e, []);
    } else {
      MoveKeepsReach(dirs, after, d, parent, name, dirs[e].parent.value, rest[..|rest| - 1]);
      var up :| Reaches(after, d, dirs[e].parent.value, up);
      assert (up + [dirs[e].name])[..|up|] == up;
      assert Reaches(after, d, e, up + [dirs[e].name]);
    }
  }

  lemma {:induction false} ReachesIsUnique(dirs: Directories, a: Id, e: Id, r1: seq<string>, r2: seq<string>)
    requires IsForest(dirs) && IsLive(dirs, e) && Reaches(dirs, a, e, r1) && Reaches(dirs, a, e, r2)
    ensures r1 == r2
  {
    assert HasPath(dirs, e);
    var names :| IsPath(dirs, e, names);
    ReachesPath(dirs, a, e, r1, names);
    ReachesPath(dirs, a, e, r2, names);
    PathIsUnique(dirs, a, names[..|names| - |r1|], names[..|names| - |r2|]);
  }

  lemma OneStepDown(dirs: Directories, a: Id, e: Id, rest: seq<string>)
    requires IsLive(dirs, e) && dirs[e].parent.Some? && Reaches(dirs, a, dirs[e].parent.value, rest)
    ensures Reaches(dirs, a, e, rest + [dirs[e].name])
  {
    assert (rest + [dirs[e].name])[..|rest|] == rest;
  }

  /** The live directories exactly n levels below a. */
  ghost predicate AtLevel(dirs: Directories, a: Id, e: Id, n: nat) { exists rest :: |rest| == n && Reaches(dirs, a, e, rest) }

  ghost function Level(dirs: Directories, a: Id, n: nat): set<Id> { set e | e in dirs && IsLive(dirs, e) && AtLevel(dirs, a, e, n) }

  ghost function UpToLevel(dirs: Directories, a: Id, n: nat): set<Id> {
    set e | e in dirs && IsLive(dirs, e) && exists k :: 1 <= k <= n && AtLevel(dirs, a, e, k)
  }

  /** What hangs from a, however deep. */
  ghost function Descendants(dirs: Directories, a: Id): set<Id> { set e | e in dirs && IsLive(dirs, e) && Below(dirs, a, e) }

  function ChildrenOf(dirs: Directories, parents: set<Id>): set<Id> {
    set e | e in dirs && dirs[e].live && dirs[e].parent.Some? && dirs[e].parent.value in parents
  }

  lemma NextLevel(dirs: Directories, a: Id, n: nat)
    requires IsForest(dirs) && IsLive(dirs, a)
    ensures ChildrenOf(dirs, Level(dirs, a, n)) == Level(dirs, a, n + 1)
  {
    forall e | e in ChildrenOf(dirs, Level(dirs, a, n)) ensures e in Level(dirs, a, n + 1) {
      var rest :| |rest| == n && Reaches(dirs, a, dirs[e].parent.value, rest);
      OneStepDown(dirs, a, e, rest);
    }
    forall e | e in Level(dirs, a, n + 1) ensures e in ChildrenOf(dirs, Level(dirs, a, n)) {
      var rest :| |rest| == n + 1 && Reaches(dirs, a, e, rest);
      assert AtLevel(dirs, a, dirs[e].parent.value, n) by { assert |rest[..n]| == n && Reaches(dirs, a, dirs[e].parent.value, rest[..n]); }
    }
  }

  lemma FirstLevel(dirs: Directories, a: Id)
    requires IsForest(dirs) && IsLive(dirs, a)
    ensures Level(dirs, a, 0) == {a} && UpToLevel(dirs, a, 0) == {}
  {
    assert Reaches(dirs, a, a, []);
    assert AtLevel(dirs, a, a, 0);
    forall e | e in Level(dirs, a, 0) ensures e == a {
      var rest :| |rest| == 0 && Reaches(dirs, a, e, rest);
    }
  }

  lemma LevelsAdd(dirs: Directories, a: Id, n: nat)
    requires IsForest(dirs)
    ensures UpToLevel(dirs, a, n + 1) == UpToLevel(dirs, a, n) + Level(dirs, a, n + 1)
    ensures UpToLevel(dirs, a, n) !! Level(dirs, a, n + 1)
  {
    forall e | e in UpToLevel(dirs, a, n) ensures e !in Level(dirs, a, n + 1) {
      var k :| 1 <= k <= n && AtLevel(dirs, a, e, k);
      var r1 :| |r1| == k && Reaches(dirs, a, e, r1);
      forall r2 | |r2| == n + 1 ensures !Reaches(dirs, a, e, r2) {
        if Reaches(dirs, a, e, r2) { ReachesIsUnique(dirs, a, e, r1, r2); }
      }
    }
    var m := n + 1;
    forall e | e in Level(dirs, a, m) ensures e in UpToLevel(dirs, a, m) { assert AtLevel(dirs, a, e, m); }
  }

  /** An empty level ends the walk: nothing hangs deeper. */
  lemma {:induction false} NothingDeeper(dirs: Directories, a: Id, n: nat, k: nat)
    requires IsForest(dirs) && IsLive(dirs, a) && Level(dirs, a, n) == {} && n <= k
    ensures Level(dirs, a, k) == {}
    decreases k
  {
    if n < k {
      NothingDeeper(dirs, a, n, k - 1);
      NextLevel(dirs, a, k - 1);
    }
  }

  lemma WalkedAll(dirs: Directories, a: Id, n: nat)
    requires IsForest(dirs) && IsLive(dirs, a) && Level(dirs, a, n + 1) == {}
    ensures UpToLevel(dirs, a, n) == Descendants(dirs, a)
  {
    forall e | e in Descendants(dirs, a) ensures e in UpToLevel(dirs, a, n) {
      var rest :| rest != [] && Reaches(dirs, a, e, rest);
      assert AtLevel(dirs, a, e, |rest|);
      assert e in Level(dirs, a, |rest|);
      if |rest| > n { NothingDeeper(dirs, a, n + 1, |rest|); }
    }
    forall e | e in UpToLevel(dirs, a, n) ensures e in Descendants(dirs, a) {
      var k :| 1 <= k <= n && AtLevel(dirs, a, e, k);
      var rest :| |rest| == k && Reaches(dirs, a, e, rest);
    }
  }

  lemma LessIsLeft(all: set<Id>, found: set<Id>, rows: set<Id>)
    requires found <= all && rows <= all && rows != {} && found !! rows
    ensures |all - (found + rows)| < |all - found|
  {
    var r :| r in rows;
    SubsetIsSmaller(all - (found + rows), all - found - {r});
  }

  lemma WalkStep(dirs: Directories, a: Id, n: nat)
    requires IsForest(dirs) && IsLive(dirs, a)
    ensures ChildrenOf(dirs, Level(dirs, a, n)) == Level(dirs, a, n + 1)
    ensures UpToLevel(dirs, a, n + 1) == UpToLevel(dirs, a, n) + Level(dirs, a, n + 1)
    ensures Level(dirs, a, n + 1) == {} ==> UpToLevel(dirs, a, n) == Descendants(dirs, a)
    ensures Level(dirs, a, n + 1) != {} ==> |dirs.Keys - UpToLevel(dirs, a, n + 1)| < |dirs.Keys - UpToLevel(dirs, a, n)|
  {
    NextLevel(dirs, a, n);
    LevelsAdd(dirs, a, n);
    if Level(dirs, a, n + 1) == {} {
      WalkedAll(dirs, a, n);
    } else {
      LessIsLeft(dirs.Keys, UpToLevel(dirs, a, n), Level(dirs, a, n + 1));
    }
  }

  /** Level by level, one query per level: it ends, and returns exactly the live proper descendants. */
  method ListDescendants(dirs: Directories, a: Id) returns (found: set<Id>)
    requires IsForest(dirs) && IsLive(dirs, a)
    ensures found == Descendants(dirs, a)
  {
    found := {};
    var level := {a};
    ghost var n := 0;
    FirstLevel(dirs, a);
    while true
      invariant level == Level(dirs, a, n) && found == UpToLevel(dirs, a, n)
      decreases |dirs.Keys - UpToLevel(dirs, a, n)|
    {
      WalkStep(dirs, a, n);
      var rows := ChildrenOf(dirs, level);
      if rows == {} {
        return;
      }
      found := found + rows;
      level := rows;
      n := n + 1;
    }
  }

  function WithoutTree(dirs: Directories, gone: set<Id>): Directories {
    map d | d in dirs :: if d in gone then dirs[d].(live := false) else dirs[d]
  }

  /** Whoever hangs from a directory that stays, stays. */
  lemma {:induction false} KeepsPathAbove(dirs: Directories, gone: set<Id>, e: Id, names: seq<string>)
    requires IsPath(dirs, e, names) && e !in gone
    requires forall d :: IsLive(dirs, d) && dirs[d].parent.Some? && dirs[d].parent.value in gone ==> d in gone
    ensures IsPath(WithoutTree(dirs, gone), e, names)
    decreases |names|
  {
    if names != [] { KeepsPathAbove(dirs, gone, dirs[e].parent.value, names[..|names| - 1]); }
  }

  lemma RemovedSubtreeIsClosed(dirs: Directories, a: Id)
    ensures forall d :: IsLive(dirs, d) && dirs[d].parent.Some? && dirs[d].parent.value in Descendants(dirs, a) + {a} ==> d in Descendants(dirs, a)
  {
    forall d | IsLive(dirs, d) && dirs[d].parent.Some? && dirs[d].parent.value in Descendants(dirs, a) + {a}
      ensures d in Descendants(dirs, a)
    {
      var p := dirs[d].parent.value;
      if p == a {
        assert Reaches(dirs, a, a, []);
        OneStepDown(dirs, a, d, []);
      } else {
        var rest :| rest != [] && Reaches(dirs, a, p, rest);
        OneStepDown(dirs, a, d, rest);
      }
    }
  }

  /** Deleting a directory with all that hangs from it leaves a forest where everything else has the
      path it had. */
  lemma RemoveKeepsForest(dirs: Directories, a: Id)
    requires IsForest(dirs) && IsLive(dirs, a)
    ensures var after := WithoutTree(dirs, Descendants(dirs, a) + {a});
            && IsForest(after)
            && (forall d :: IsLive(after, d) <==> IsLive(dirs, d) && d != a && !Below(dirs, a, d))
            && (forall d, names :: IsLive(after, d) && IsPath(dirs, d, names) ==> IsPath(after, d, names))
  {
    var gone := Descendants(dirs, a) + {a};
    var after := WithoutTree(dirs, gone);
    RemovedSubtreeIsClosed(dirs, a);
    forall d, names | IsLive(after, d) && IsPath(dirs, d, names) ensures IsPath(after, d, names) {
      KeepsPathAbove(dirs, gone, d, names);
    }
    forall d | IsLive(after, d) ensures HasPath(after, d) {
      assert HasPath(dirs, d);
      var names :| IsPath(dirs, d, names);
      KeepsPathAbove(dirs, gone, d, names);
    }
  }
}
