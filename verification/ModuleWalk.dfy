/** `named_modules` and `named_parameters` over any module graph. */
module ModuleWalk {
  import opened Options
  import opened ModuleGraph
  import opened ModuleOrder

  type Named = (string, Id)

  /** No module is listed twice, and those listed are exactly the ones in the memo. */
  predicate Listed(found: seq<Named>, memo: set<Id>) {
    (forall k :: 0 <= k < |found| ==> found[k].1 in memo) &&
    (forall j, k :: 0 <= j < k < |found| ==> found[j].1 != found[k].1) &&
    forall x :: x in memo ==> exists k :: 0 <= k < |found| && found[k].1 == x
  }

  /** Every listed name is a path of attribute names from the root, and the path leads to its module. */
  ghost predicate Resolves(g: Graph, root: Id, prefix: string, found: seq<Named>, paths: seq<Path>) {
    |paths| == |found| &&
    forall k :: 0 <= k < |found| ==>
      Reach(g, root, paths[k], {}) == Some(found[k].1) && found[k].0 == NameOf(prefix, paths[k])
  }

  /** The parent of every listed path is listed before it. */
  predicate ParentsFirst(paths: seq<Path>) {
    forall k :: 0 <= k < |paths| && paths[k] != [] ==> paths[k][..|paths[k]| - 1] in paths[..k]
  }

  lemma ListMore(found: seq<Named>, memo: set<Id>, name: string, m: Id)
    requires Listed(found, memo) && m !in memo
    ensures Listed(found + [(name, m)], memo + {m})
  {
    var more := found + [(name, m)];
    forall x | x in memo + {m} ensures exists k :: 0 <= k < |more| && more[k].1 == x {
      if x in memo {
        var k :| 0 <= k < |found| && found[k].1 == x;
        assert more[k].1 == x;
      } else {
        assert more[|found|].1 == x;
      }
    }
  }

  lemma ResolveMore(g: Graph, root: Id, prefix: string, found: seq<Named>, paths: seq<Path>, m: Id, at: Path)
    requires Resolves(g, root, prefix, found, paths) && Reach(g, root, at, {}) == Some(m)
    ensures Resolves(g, root, prefix, found + [(NameOf(prefix, at), m)], paths + [at])
  {
  }

  lemma ParentsMore(paths: seq<Path>, at: Path)
    requires ParentsFirst(paths) && (at != [] ==> at[..|at| - 1] in paths)
    ensures ParentsFirst(paths + [at])
  {
    var more := paths + [at];
    forall k | 0 <= k < |more| && more[k] != [] ensures more[k][..|more[k]| - 1] in more[..k] {
      assert more[..k] == paths[..k];
      if k == |paths| {
        assert paths[..k] == paths;
      }
    }
  }

  /** x is reached from one of the first i children of m. */
  ghost predicate ThroughEarlier(g: Graph, m: Id, i: nat, x: Id, avoid: set<Id>)
    requires m in g && i <= |g[m].children|
  {
    exists j :: 0 <= j < i && g[m].children[j].1.Some? && Reachable(g, g[m].children[j].1.value, x, avoid)
  }

  /** Child i of m is met first by way of m: it is new, and no earlier child leads to it. */
  ghost predicate FirstMetAt(g: Graph, m: Id, i: nat, avoid: set<Id>)
    requires m in g && i < |g[m].children|
  {
    match g[m].children[i].1
    case None => false
    case Some(c) => c !in avoid && !ThroughEarlier(g, m, i, c, avoid)
  }

  /** The memo after m and its first i children: what the children reach without what was there before. */
  ghost predicate Swept(g: Graph, m: Id, i: nat, before: set<Id>, memo: set<Id>)
    requires m in g && i <= |g[m].children|
  {
    before <= memo && ClosedOutside(g, memo, before) && ChildrenIn(g[m].children, i, memo) &&
    forall x :: x in memo ==> x in before || ThroughEarlier(g, m, i, x, before)
  }

  lemma SweptExactly(g: Graph, m: Id, i: nat, before: set<Id>, memo: set<Id>, x: Id)
    requires m in g && i <= |g[m].children| && Swept(g, m, i, before, memo)
    ensures x in memo <==> x in before || ThroughEarlier(g, m, i, x, before)
  {
    if ThroughEarlier(g, m, i, x, before) {
      var j :| 0 <= j < i && g[m].children[j].1.Some? && Reachable(g, g[m].children[j].1.value, x, before);
      var child := g[m].children[j].1.value;
      var path :| Reach(g, child, path, before) == Some(x);
      ReachStays(g, child, path, before, memo);
    }
  }

  /** The next child adds what it reaches. */
  lemma SweptNext(g: Graph, m: Id, i: nat, before: set<Id>, memo: set<Id>, next: set<Id>)
    requires m in g && i < |g[m].children| && Swept(g, m, i, before, memo) && memo <= next
    requires match g[m].children[i].1
             case None => next == memo
             case Some(c) => c in next && ClosedOutside(g, next, memo) &&
                             forall x :: x in next ==> x in memo || Reachable(g, c, x, memo)
    ensures Swept(g, m, i + 1, before, next)
  {
    hide Reachable;
    forall x | x in next && x !in before && x in g
      ensures ChildrenIn(g[x].children, |g[x].children|, next)
    {
      if x in memo {
        assert ChildrenIn(g[x].children, |g[x].children|, memo);
      }
    }
    forall x | x in next && x !in before ensures ThroughEarlier(g, m, i + 1, x, before) {
      if x in memo {
        assert ThroughEarlier(g, m, i, x, before);
      } else {
        ReachableAvoidsLess(g, g[m].children[i].1.value, x, memo, before);
      }
    }
  }

  /** After all children, the memo holds what m reaches, and is closed outside what was there before m. */
  lemma SweptAll(g: Graph, m: Id, was: set<Id>, memo: set<Id>)
    requires WellFormed(g) && m in g && m !in was && Swept(g, m, |g[m].children|, was + {m}, memo)
    ensures ClosedOutside(g, memo, was) && m in memo
    ensures forall x :: x in memo <==> x in was || Reachable(g, m, x, was)
  {
    var n, before := |g[m].children|, was + {m};
    forall x | x in memo && x !in was && x in g ensures ChildrenIn(g[x].children, |g[x].children|, memo) {
      assert x == m || x !in before;
    }
    forall x ensures x in memo <==> x in was || Reachable(g, m, x, was) {
      if x in memo && x !in was {
        if x == m {
          ReachableSelf(g, m, was);
        } else {
          assert ThroughEarlier(g, m, n, x, before);
          var j :| 0 <= j < n && g[m].children[j].1.Some? && Reachable(g, g[m].children[j].1.value, x, before);
          ReachableThroughChild(g, m, j, x, before, was);
        }
      } else if Reachable(g, m, x, was) {
        var path :| Reach(g, m, path, was) == Some(x);
        ReachStays(g, m, path, was, memo);
      }
    }
  }

  /** Every one of these paths is `at` itself or goes on through one of the first i children. */
  predicate Under(children: seq<(string, Option<Id>)>, i: nat, at: Path, paths: seq<Path>)
    requires i <= |children|
  {
    forall k :: 0 <= k < |paths| ==>
      paths[k] == at || exists j :: 0 <= j < i && at + [children[j].0] <= paths[k]
  }

  predicate AllExtend(at: Path, paths: seq<Path>) {
    forall k :: 0 <= k < |paths| ==> at <= paths[k]
  }

  /** Among the first i children of m, those listed right under m are the ones first met there. */
  ghost predicate FirstPaths(g: Graph, m: Id, i: nat, at: Path, before: set<Id>, paths: seq<Path>)
    requires m in g && i <= |g[m].children|
  {
    forall j :: 0 <= j < i ==> (at + [g[m].children[j].0] in paths <==> FirstMetAt(g, m, j, before))
  }

  lemma ChildAdds(g: Graph, m: Id, i: nat, at: Path, before: set<Id>, paths: seq<Path>, more: seq<Path>)
    requires m in g && i < |g[m].children| && DistinctKeys(g[m].children)
    requires Under(g[m].children, i, at, paths) && FirstPaths(g, m, i, at, before, paths)
    requires AllExtend(at + [g[m].children[i].0], more)
    requires at + [g[m].children[i].0] in more <==> FirstMetAt(g, m, i, before)
    ensures Under(g[m].children, i + 1, at, paths + more) && FirstPaths(g, m, i + 1, at, before, paths + more)
  {
    hide FirstMetAt;
    var children := g[m].children;
    var all := paths + more;
    forall k | 0 <= k < |all|
      ensures all[k] == at || exists j :: 0 <= j < i + 1 && at + [children[j].0] <= all[k]
    {
      if k < |paths| {
        assert all[k] == paths[k];
        if paths[k] != at {
          var j :| 0 <= j < i && at + [children[j].0] <= paths[k];
          assert at + [children[j].0] <= all[k];
        }
      } else {
        assert all[k] == more[k - |paths|];
        assert at + [children[i].0] <= all[k];
      }
    }
    forall j | 0 <= j < i + 1
      ensures at + [children[j].0] in all <==> FirstMetAt(g, m, j, before)
    {
      if j < i {
        NotAmong(at, children[j].0, children[i].0, more);
      } else {
        NotYet(children, i, at, paths);
      }
    }
  }

  lemma NotAmong(at: Path, a: string, b: string, paths: seq<Path>)
    requires a != b && AllExtend(at + [b], paths)
    ensures at + [a] !in paths
  {
    forall k | 0 <= k < |paths| ensures paths[k] != at + [a] {
      assert (at + [b])[|at|] == b && paths[k][|at|] == b;
    }
  }

  lemma NotYet(children: seq<(string, Option<Id>)>, i: nat, at: Path, paths: seq<Path>)
    requires i < |children| && DistinctKeys(children) && Under(children, i, at, paths)
    ensures at + [children[i].0] !in paths
  {
    forall k | 0 <= k < |paths| ensures paths[k] != at + [children[i].0] {
      if paths[k] != at {
        var j :| 0 <= j < i && at + [children[j].0] <= paths[k];
        assert (at + [children[j].0])[|at|] == children[j].0 && paths[k][|at|] == children[j].0;
      }
    }
  }

  lemma UnderExtends(children: seq<(string, Option<Id>)>, i: nat, at: Path, paths: seq<Path>)
    requires i <= |children| && Under(children, i, at, paths)
    ensures AllExtend(at, paths)
  {
    forall k | 0 <= k < |paths| ensures at <= paths[k] {
      if paths[k] != at {
        var j :| 0 <= j < i && at + [children[j].0] <= paths[k];
      }
    }
  }

  lemma Revisit(g: Graph, m: Id, at: Path, memo: set<Id>)
    requires m in memo
    ensures ClosedOutside(g, memo, memo) && AllExtend(at, [])
    ensures forall x :: !Reachable(g, m, x, memo)
  {
  }

  lemma KeysDiffer(g: Graph, m: Id)
    requires WellFormed(g) && m in g
    ensures DistinctKeys(g[m].children) && DistinctKeys(g[m].params)
  {
  }

  lemma NothingBelow(at: Path)
    ensures AllExtend(at, [])
  {
  }

  lemma StartSweep(g: Graph, m: Id, at: Path, before: set<Id>)
    requires m in g
    ensures Swept(g, m, 0, before, before)
    ensures Under(g[m].children, 0, at, [at]) && FirstPaths(g, m, 0, at, before, [at])
  {
  }

  lemma ChildReached(g: Graph, root: Id, at: Path, m: Id, i: nat)
    requires WellFormed(g) && m in g && Reach(g, root, at, {}) == Some(m)
    requires i < |g[m].children| && g[m].children[i].1.Some?
    ensures Reach(g, root, at + [g[m].children[i].0], {}) == g[m].children[i].1 && g[m].children[i].1.value in g
  {
    ReachStep(g, root, at, {}, m, i);
  }

  lemma ChildName(prefix: string, at: Path, name: string)
    ensures Sub(NameOf(prefix, at), name) == NameOf(prefix, at + [name])
  {
    assert (at + [name])[..|at|] == at;
  }

  lemma NextFirstMet(g: Graph, m: Id, i: nat, before: set<Id>, memo: set<Id>)
    requires m in g && i < |g[m].children| && Swept(g, m, i, before, memo)
    ensures FirstMetAt(g, m, i, before) <==> g[m].children[i].1.Some? && g[m].children[i].1.value !in memo
  {
    if g[m].children[i].1.Some? {
      SweptExactly(g, m, i, before, memo, g[m].children[i].1.value);
    }
  }

  /** What is not in the memo, no earlier child leads to. */
  lemma SweptOutside(g: Graph, m: Id, i: nat, before: set<Id>, memo: set<Id>)
    requires m in g && i <= |g[m].children| && Swept(g, m, i, before, memo)
    ensures forall x :: x !in memo ==> NotEarlier(g, m, i, x, before)
    ensures before <= memo && ClosedOutside(g, memo, before)
  {
    hide Reachable;
    forall x | x !in memo ensures NotEarlier(g, m, i, x, before) {
      SweptExactly(g, m, i, before, memo, x);
    }
  }

  lemma NothingInOrder(g: Graph, m: Id, name: string, memo: set<Id>)
    ensures InOrder(g, m, name, memo, [], [])
  {
  }

  lemma HeadsStay(ways: seq<Way>, i: nat)
    requires HeadsBelow(ways, i)
    ensures HeadsBelow(ways, i + 1)
  {
  }

  class Walker {
    const g: Graph
    const root: Id
    const prefix: string
    var memo: set<Id>
    var found: seq<Named>
    ghost var paths: seq<Path>

    ghost predicate Valid()
      reads this
    {
      WellFormed(g) && memo <= g.Keys && Listed(found, memo) &&
      Resolves(g, root, prefix, found, paths) && ParentsFirst(paths)
    }

    constructor (g: Graph, root: Id, prefix: string)
      requires WellFormed(g)
      ensures this.g == g && this.root == root && this.prefix == prefix
      ensures Valid() && memo == {} && found == [] && paths == []
    {
      this.g, this.root, this.prefix := g, root, prefix;
      memo, found, paths := {}, [], [];
    }

    /** Yields m under its name. */
    method Yield(m: Id, name: string, ghost at: Path)
      requires Valid() && m in g && m !in memo && Reach(g, root, at, {}) == Some(m) && name == NameOf(prefix, at)
      requires at != [] ==> at[..|at| - 1] in paths
      modifies this
      ensures Valid() && memo == old(memo) + {m} && found == old(found) + [(name, m)] && paths == old(paths) + [at]
    {
      hide WellFormed, Listed, Resolves, ParentsFirst;
      ListMore(found, memo, name, m);
      ResolveMore(g, root, prefix, found, paths, m, at);
      ParentsMore(paths, at);
      memo := memo + {m};
      found := found + [(name, m)];
      paths := paths + [at];
    }

    /**
     `named_modules(memo, prefix)`, on any graph: it returns, after adding to the memo exactly what m
     reaches without passing through what was there before.
     */
    method Visit(m: Id, name: string, ghost at: Path) returns (ghost ways: seq<Way>)
      requires Valid() && m in g && Reach(g, root, at, {}) == Some(m) && name == NameOf(prefix, at)
      requires at != [] ==> at[..|at| - 1] in paths
      modifies this
      ensures Valid() && old(found) <= found && old(paths) <= paths
      ensures m in memo && old(memo) <= memo && ClosedOutside(g, memo, old(memo))
      ensures forall x :: x in memo <==> x in old(memo) || Reachable(g, m, x, old(memo))
      ensures AllExtend(at, paths[|old(paths)|..])
      ensures at in paths[|old(paths)|..] <==> m !in old(memo)
      ensures m !in old(memo) ==>
                FirstPaths(g, m, |g[m].children|, at, old(memo) + {m}, paths[|old(paths)|..])
      ensures InOrder(g, m, name, old(memo), found[|old(found)|..], ways)
      decreases g.Keys - memo
    {
      hide WellFormed, Listed, Resolves, ParentsFirst, ClosedOutside, Reachable, Reach, NameOf,
        FirstPaths, AllExtend, Under, Swept, ChildrenIn, FirstMetAt, InOrder, HeadsBelow, NotEarlier;
      if m in memo {
        Revisit(g, m, at, memo);
        assert paths[|paths|..] == [] && found[|found|..] == [];
        ways := [];
        NothingInOrder(g, m, name, memo);
        return;
      }
      Yield(m, name, at);
      ghost var was, before, start, first := old(memo), old(memo) + {m}, |old(paths)|, |old(found)|;
      var children := g[m].children;
      assert paths[start..] == [at] && found[first..] == [(name, m)];
      ways := [[]];
      OrderStart(g, m, name, was);
      StartSweep(g, m, at, before);
      KeysDiffer(g, m);
      var i := 0;
      while i < |children|
        invariant i <= |children| && Valid() && old(found) <= found && old(paths) + [at] <= paths
        invariant before <= memo && Swept(g, m, i, before, memo)
        invariant Under(children, i, at, paths[start..]) && FirstPaths(g, m, i, at, before, paths[start..])
        invariant InOrder(g, m, name, was, found[first..], ways) && HeadsBelow(ways, i)
        decreases |children| - i
      {
        ghost var memo0, paths0, found0 := memo, paths, found;
        ghost var below := at + [children[i].0];
        ghost var more: seq<Path> := [];
        if children[i].1.Some? {
          var child := children[i].1.value;
          ChildReached(g, root, at, m, i);
          ChildName(prefix, at, children[i].0);
          assert below[..|below| - 1] == at && at in paths by {
            assert paths[start] == at;
          }
          ghost var childWays := Visit(child, Sub(name, children[i].0), below);
          more := paths[|paths0|..];
          assert found[first..] == found0[first..] + found[|found0|..];
          SweptOutside(g, m, i, before, memo0);
          OrderChild(g, m, name, i, was, memo0, found0[first..], ways, found[|found0|..], childWays);
          ways := ways + Prefixed(i, childWays);
        } else {
          NothingBelow(below);
          HeadsStay(ways, i);
        }
        assert paths[start..] == paths0[start..] + more;
        NextFirstMet(g, m, i, before, memo0);
        SweptNext(g, m, i, before, memo0, memo);
        ChildAdds(g, m, i, at, before, paths0[start..], more);
        i := i + 1;
      }
      SweptAll(g, m, was, memo);
      UnderExtends(children, i, at, paths[start..]);
      assert paths[start..][0] == at;
    }
  }

  /** What the walk lists: every reachable module exactly once, each under a path of attributes that leads to it. */
  ghost predicate ModulesListed(g: Graph, root: Id, prefix: string, found: seq<Named>, paths: seq<Path>)
    requires root in g
  {
    (forall j, k :: 0 <= j < k < |found| ==> found[j].1 != found[k].1) &&
    (forall x :: (exists k :: 0 <= k < |found| && found[k].1 == x) <==> Reachable(g, root, x, {})) &&
    Resolves(g, root, prefix, found, paths) && ParentsFirst(paths) &&
    [] in paths && FirstPaths(g, root, |g[root].children|, [], {root}, paths)
  }

  /** `named_modules()` on any graph, shared or cyclic. */
  method NamedModules(g: Graph, root: Id, prefix: string) returns (found: seq<Named>, ghost paths: seq<Path>)
    requires WellFormed(g) && root in g
    ensures forall j, k :: 0 <= j < k < |found| ==> found[j].1 != found[k].1
    ensures forall x :: (exists k :: 0 <= k < |found| && found[k].1 == x) <==> Reachable(g, root, x, {})
    ensures ModulesListed(g, root, prefix, found, paths)
    ensures DepthFirst(g, root, prefix, found)
  {
    hide WellFormed, ClosedOutside, Reachable, Reach, FirstPaths, AllExtend, InOrder;
    var w := new Walker(g, root, prefix);
    assert Reach(g, root, [], {}) == Some(root) && NameOf(prefix, []) == prefix by {
      AtRoot(g, root, prefix);
    }
    ghost var ways := w.Visit(root, prefix, []);
    found, paths := w.found, w.paths;
    assert paths[0..] == paths && found[0..] == found && {} + {root} == {root};
    assert InOrder(g, root, prefix, {}, found, ways);
  }

  lemma AtRoot(g: Graph, root: Id, prefix: string)
    requires root in g
    ensures Reach(g, root, [], {}) == Some(root) && NameOf(prefix, []) == prefix
  {
  }

  // ----- Distinct names -----

  predicate DotFreeNames(g: Graph) {
    forall x, i :: x in g && 0 <= i < |g[x].children| ==> DotFree(g[x].children[i].0)
  }

  lemma {:induction false} PathsDotFree(g: Graph, root: Id, path: Path)
    requires DotFreeNames(g) && Reach(g, root, path, {}).Some?
    ensures AllDotFree(path)
    decreases |path|
  {
    if path != [] {
      var k := |path| - 1;
      PathsDotFree(g, root, path[..k]);
      var x := Reach(g, root, path[..k], {}).value;
      LookupFinds(g[x].children, path[k]);
      var i :| 0 <= i < |g[x].children| && g[x].children[i] == (path[k], Lookup(g[x].children, path[k]));
      assert DotFree(g[x].children[i].0);
      assert path == path[..k] + [path[k]];
    }
  }

  predicate NamesDistinct(found: seq<Named>) {
    forall j, k :: 0 <= j < k < |found| ==> found[j].0 != found[k].0
  }

  /** The root has an attribute with the empty name that leads to a module not met before it. */
  ghost predicate Nameless(g: Graph, root: Id)
    requires root in g
  {
    exists i :: 0 <= i < |g[root].children| && g[root].children[i].0 == "" && FirstMetAt(g, root, i, {root})
  }

  /** The first attribute of a listed path is listed itself. */
  lemma {:induction false} FirstListed(paths: seq<Path>, k: nat)
    requires ParentsFirst(paths) && k < |paths| && paths[k] != []
    ensures [paths[k][0]] in paths
    decreases k
  {
    var p := paths[k];
    if |p| == 1 {
      assert p == [p[0]];
    } else {
      var parent := p[..|p| - 1];
      assert parent in paths[..k];
      var j :| 0 <= j < k && paths[j] == parent;
      FirstListed(paths, j);
    }
  }

  lemma NamelessListed(g: Graph, root: Id, paths: seq<Path>)
    requires root in g && FirstPaths(g, root, |g[root].children|, [], {root}, paths)
    requires forall k :: 0 <= k < |paths| ==> Reach(g, root, paths[k], {}).Some?
    ensures Nameless(g, root) <==> [""] in paths
  {
    hide FirstMetAt, FirstPaths, Reach;
    if Nameless(g, root) {
      var i :| 0 <= i < |g[root].children| && g[root].children[i].0 == "" && FirstMetAt(g, root, i, {root});
      ListedAtRoot(g, root, paths, i);
    }
    if [""] in paths {
      var k :| 0 <= k < |paths| && paths[k] == [""];
      assert Reach(g, root, [""], {}).Some?;
      var i := ChildOfRoot(g, root, "");
      ListedAtRoot(g, root, paths, i);
    }
  }

  lemma ListedAtRoot(g: Graph, root: Id, paths: seq<Path>, i: nat)
    requires root in g && FirstPaths(g, root, |g[root].children|, [], {root}, paths) && i < |g[root].children|
    ensures [g[root].children[i].0] in paths <==> FirstMetAt(g, root, i, {root})
  {
    hide FirstMetAt;
    assert [] + [g[root].children[i].0] == [g[root].children[i].0];
  }

  lemma ChildOfRoot(g: Graph, root: Id, name: string) returns (i: nat)
    requires Reach(g, root, [name], {}).Some? && root in g
    ensures i < |g[root].children| && g[root].children[i].0 == name
  {
    assert [name][..0] == [];
    assert Reach(g, root, [], {}) == Some(root);
    LookupFinds(g[root].children, name);
    var j :| 0 <= j < |g[root].children| && g[root].children[j] == (name, Lookup(g[root].children, name));
    i := j;
  }

  /**
   With dot-free attribute names no two module names are equal, except exactly when there is no prefix
   and the root has a module under the empty name.
   */
  lemma NamesDistinctIff(g: Graph, root: Id, prefix: string, found: seq<Named>, paths: seq<Path>)
    requires root in g && DotFreeNames(g) && ModulesListed(g, root, prefix, found, paths)
    ensures NamesDistinct(found) <==> prefix != "" || !Nameless(g, root)
  {
    hide FirstPaths, Nameless, NameOf, ParentsFirst;
    NamelessListed(g, root, paths);
    if prefix == "" && Nameless(g, root) {
      var j :| 0 <= j < |paths| && paths[j] == [];
      var k :| 0 <= k < |paths| && paths[k] == [""];
      NamelessName();
      assert found[j].0 == found[k].0;
    } else {
      forall j, k | 0 <= j < k < |found| ensures found[j].0 != found[k].0 {
        if found[j].0 == found[k].0 {
          PathsDotFree(g, root, paths[j]);
          PathsDotFree(g, root, paths[k]);
          ListedAnchored(g, root, prefix, paths, j);
          ListedAnchored(g, root, prefix, paths, k);
          NamesDiffer(prefix, paths[j], paths[k]);
        }
      }
    }
  }

  lemma NamelessName()
    ensures NameOf("", []) == NameOf("", [""])
  {
    assert [""][..0] == [];
  }

  lemma ListedAnchored(g: Graph, root: Id, prefix: string, paths: seq<Path>, k: nat)
    requires ParentsFirst(paths) && k < |paths| && (prefix != "" || [""] !in paths)
    ensures Anchored(prefix, paths[k])
  {
    if prefix == "" && paths[k] != [] {
      FirstListed(paths, k);
    }
  }

  /** A root with one module under the empty name: both are called "". */
  lemma EmptyNameCollides()
    ensures var g: Graph := map[0 := Node([("", Some(1))], []), 1 := Node([], [])];
            WellFormed(g) && DotFreeNames(g) && Nameless(g, 0) &&
            NameOf("", []) == NameOf("", [""]) && Reach(g, 0, [""], {}) == Some(1)
  {
    var g: Graph := map[0 := Node([("", Some(1))], []), 1 := Node([], [])];
    NamelessName();
    assert [""][..0] == [];
    assert Reach(g, 0, [], {}) == Some(0);
    assert FirstMetAt(g, 0, 0, {0});
  }
}
