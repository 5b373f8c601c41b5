/** The module graph, possibly shared or cyclic: paths of attribute names, what they reach, and their dotted form. */
module ModuleGraph {
  import opened Options

  type Id = nat

  /** `_modules` and `_parameters` in dictionary order; `None` is an attribute set to nothing. */
  datatype Node = Node(children: seq<(string, Option<Id>)>, params: seq<(string, Option<Id>)>)

  type Graph = map<Id, Node>

  predicate DistinctKeys(items: seq<(string, Option<Id>)>) {
    forall i, j :: 0 <= i < j < |items| ==> items[i].0 != items[j].0
  }

  /** An object graph: dictionary keys are distinct and every child is an object of the graph. */
  predicate WellFormed(g: Graph) {
    forall x :: x in g ==>
      DistinctKeys(g[x].children) && DistinctKeys(g[x].params) &&
      forall i :: 0 <= i < |g[x].children| && g[x].children[i].1.Some? ==> g[x].children[i].1.value in g
  }

  type Path = seq<string>

  /** Dictionary lookup. */
  function Lookup(items: seq<(string, Option<Id>)>, name: string): Option<Id> {
    if items == [] then None
    else if items[0].0 == name then items[0].1
    else Lookup(items[1..], name)
  }

  /** The module a path of attribute names leads to, if it meets nothing in `avoid`. */
  function Reach(g: Graph, m: Id, path: Path, avoid: set<Id>): Option<Id> {
    if m in avoid || m !in g then None
    else if path == [] then Some(m)
    else match Reach(g, m, path[..|path| - 1], avoid)
      case None => None
      case Some(x) =>
        if x !in g then None
        else match Lookup(g[x].children, path[|path| - 1])
          case None => None
          case Some(y) => if y in avoid || y !in g then None else Some(y)
  }

  ghost predicate Reachable(g: Graph, m: Id, x: Id, avoid: set<Id>) {
    exists path :: Reach(g, m, path, avoid) == Some(x)
  }

  lemma {:induction false} LookupAt(items: seq<(string, Option<Id>)>, i: nat)
    requires DistinctKeys(items) && i < |items|
    ensures Lookup(items, items[i].0) == items[i].1
    decreases |items|
  {
    if i > 0 {
      assert items[0].0 != items[i].0;
      assert items[1..][i - 1] == items[i];
      LookupAt(items[1..], i - 1);
    }
  }

  lemma {:induction false} LookupFinds(items: seq<(string, Option<Id>)>, name: string)
    requires Lookup(items, name).Some?
    ensures exists i :: 0 <= i < |items| && items[i] == (name, Lookup(items, name))
    decreases |items|
  {
    if items[0].0 == name {
      assert items[0] == (name, Lookup(items, name));
    } else {
      LookupFinds(items[1..], name);
      var i :| 0 <= i < |items[1..]| && items[1..][i] == (name, Lookup(items, name));
      assert items[i + 1] == (name, Lookup(items, name));
    }
  }

  /** One more attribute at the end of a path. */
  lemma ReachStep(g: Graph, m: Id, path: Path, avoid: set<Id>, x: Id, i: nat)
    requires WellFormed(g) && Reach(g, m, path, avoid) == Some(x) && x in g
    requires i < |g[x].children| && g[x].children[i].1.Some? && g[x].children[i].1.value !in avoid
    ensures Reach(g, m, path + [g[x].children[i].0], avoid) == Some(g[x].children[i].1.value)
  {
    var longer := path + [g[x].children[i].0];
    assert longer[..|longer| - 1] == path;
    LookupAt(g[x].children, i);
  }

  /** One more attribute at the front of a path. */
  lemma {:induction false} ReachFront(g: Graph, m: Id, i: nat, path: Path, avoid: set<Id>)
    requires WellFormed(g) && m in g && m !in avoid && i < |g[m].children| && g[m].children[i].1.Some?
    requires Reach(g, g[m].children[i].1.value, path, avoid).Some?
    ensures Reach(g, m, [g[m].children[i].0] + path, avoid) == Reach(g, g[m].children[i].1.value, path, avoid)
    decreases |path|
  {
    var name, child := g[m].children[i].0, g[m].children[i].1.value;
    var whole := [name] + path;
    if path == [] {
      assert Reach(g, m, [], avoid) == Some(m);
      ReachStep(g, m, [], avoid, m, i);
      assert whole == [] + [name];
    } else {
      var k := |path| - 1;
      ReachFront(g, m, i, path[..k], avoid);
      assert whole[..|whole| - 1] == [name] + path[..k];
    }
  }

  lemma {:induction false} ReachAvoidsLess(g: Graph, m: Id, path: Path, avoid: set<Id>, less: set<Id>)
    requires less <= avoid && Reach(g, m, path, avoid).Some?
    ensures Reach(g, m, path, less) == Reach(g, m, path, avoid)
    decreases |path|
  {
    if path != [] {
      ReachAvoidsLess(g, m, path[..|path| - 1], avoid, less);
    }
  }

  lemma ReachableSelf(g: Graph, m: Id, avoid: set<Id>)
    requires m in g && m !in avoid
    ensures Reachable(g, m, m, avoid)
  {
    assert Reach(g, m, [], avoid) == Some(m);
  }

  lemma ReachableThroughChild(g: Graph, m: Id, i: nat, x: Id, avoid: set<Id>, less: set<Id>)
    requires WellFormed(g) && m in g && m !in less && less <= avoid
    requires i < |g[m].children| && g[m].children[i].1.Some?
    requires Reachable(g, g[m].children[i].1.value, x, avoid)
    ensures Reachable(g, m, x, less)
  {
    var child := g[m].children[i].1.value;
    var path :| Reach(g, child, path, avoid) == Some(x);
    ReachAvoidsLess(g, child, path, avoid, less);
    ReachFront(g, m, i, path, less);
  }

  lemma ReachableAvoidsLess(g: Graph, m: Id, x: Id, avoid: set<Id>, less: set<Id>)
    requires less <= avoid && Reachable(g, m, x, avoid)
    ensures Reachable(g, m, x, less)
  {
    var path :| Reach(g, m, path, avoid) == Some(x);
    ReachAvoidsLess(g, m, path, avoid, less);
  }

  /** Every child of every module of `seen`, outside `except`, is in `seen` too. */
  predicate ClosedOutside(g: Graph, seen: set<Id>, except: set<Id>) {
    forall x :: x in seen && x !in except && x in g ==> ChildrenIn(g[x].children, |g[x].children|, seen)
  }

  predicate ChildrenIn(children: seq<(string, Option<Id>)>, n: nat, seen: set<Id>)
    requires n <= |children|
  {
    forall i :: 0 <= i < n && children[i].1.Some? ==> children[i].1.value in seen
  }

  /** A path that starts inside a closed set and avoids the exceptions stays inside. */
  lemma {:induction false} ReachStays(g: Graph, m: Id, path: Path, avoid: set<Id>, seen: set<Id>)
    requires m in seen && ClosedOutside(g, seen, avoid) && Reach(g, m, path, avoid).Some?
    ensures Reach(g, m, path, avoid).value in seen
    decreases |path|
  {
    if path != [] {
      var k := |path| - 1;
      ReachStays(g, m, path[..k], avoid, seen);
      var x := Reach(g, m, path[..k], avoid).value;
      ReachAvoids(g, m, path[..k], avoid);
      assert ChildrenIn(g[x].children, |g[x].children|, seen);
      LookupFinds(g[x].children, path[k]);
    }
  }

  lemma ReachAvoids(g: Graph, m: Id, path: Path, avoid: set<Id>)
    requires Reach(g, m, path, avoid).Some?
    ensures Reach(g, m, path, avoid).value !in avoid && Reach(g, m, path, avoid).value in g
  {
  }

  // ----- Dotted names -----

  /** `prefix + ("." if prefix else "") + name`. */
  function Sub(prefix: string, name: string): string {
    if prefix == "" then name else prefix + "." + name
  }

  function NameOf(prefix: string, path: Path): string {
    if path == [] then prefix else Sub(NameOf(prefix, path[..|path| - 1]), path[|path| - 1])
  }

  predicate DotFree(s: string) {
    '.' !in s
  }

  predicate AllDotFree(path: Path) {
    forall i :: 0 <= i < |path| ==> DotFree(path[i])
  }

  /** The name of a path swallows its leading empty attribute names when there is no prefix. */
  predicate Anchored(prefix: string, path: Path) {
    prefix != "" || path == [] || path[0] != ""
  }

  lemma {:induction false} NameNonempty(prefix: string, path: Path)
    requires Anchored(prefix, path) && (prefix != "" || path != [])
    ensures NameOf(prefix, path) != ""
    decreases |path|
  {
    if path != [] {
      var k := |path| - 1;
      if prefix != "" || k > 0 {
        NameNonempty(prefix, path[..k]);
      }
    }
  }

  /** The last dot separates the last attribute name. */
  lemma LastDot(a: string, b: string, s: string, t: string)
    requires DotFree(s) && DotFree(t) && a + "." + s == b + "." + t
    ensures a == b && s == t
  {
    var whole := a + "." + s;
    assert whole[|a|] == '.' && whole[|b|] == '.';
    assert forall i :: |a| < i < |whole| ==> whole[i] == s[i - |a| - 1];
    assert forall i :: |b| < i < |whole| ==> whole[i] == t[i - |b| - 1];
    assert whole[..|a|] == a && whole[..|b|] == b;
    assert whole[|a| + 1..] == s && whole[|b| + 1..] == t;
  }

  lemma NameIsJoined(prefix: string, path: Path)
    requires path != [] && Anchored(prefix, path) && (prefix != "" || |path| > 1)
    ensures NameOf(prefix, path) == NameOf(prefix, path[..|path| - 1]) + "." + path[|path| - 1]
  {
    NameNonempty(prefix, path[..|path| - 1]);
  }

  /** A name with a prefix is longer than the prefix and starts with it. */
  lemma {:induction false} NameExtends(prefix: string, path: Path)
    requires prefix != "" && path != []
    ensures |NameOf(prefix, path)| > |prefix|
    decreases |path|
  {
    NameIsJoined(prefix, path);
    if |path| > 1 {
      NameExtends(prefix, path[..|path| - 1]);
    } else {
      assert path[..0] == [];
    }
  }

  /** Different anchored paths of dot-free names have different dotted names. */
  lemma {:induction false} NamesDiffer(prefix: string, p: Path, q: Path)
    requires Anchored(prefix, p) && Anchored(prefix, q) && AllDotFree(p) && AllDotFree(q)
    requires NameOf(prefix, p) == NameOf(prefix, q)
    ensures p == q
    decreases |p|
  {
    if p == [] || q == [] {
      EmptyPathName(prefix, p, q);
    } else if prefix == "" && (|p| == 1 || |q| == 1) {
      SingleName(p, q);
    } else {
      var i, j := |p| - 1, |q| - 1;
      NameIsJoined(prefix, p);
      NameIsJoined(prefix, q);
      LastDot(NameOf(prefix, p[..i]), NameOf(prefix, q[..j]), p[i], q[j]);
      NamesDiffer(prefix, p[..i], q[..j]);
      assert p == p[..i] + [p[i]] && q == q[..j] + [q[j]];
    }
  }

  lemma EmptyPathName(prefix: string, p: Path, q: Path)
    requires Anchored(prefix, p) && Anchored(prefix, q) && (p == [] || q == [])
    requires NameOf(prefix, p) == NameOf(prefix, q)
    ensures p == q
  {
    if p != [] {
      LongerName(prefix, p);
    }
    if q != [] {
      LongerName(prefix, q);
    }
  }

  lemma LongerName(prefix: string, p: Path)
    requires Anchored(prefix, p) && p != []
    ensures NameOf(prefix, p) != prefix
  {
    if prefix == "" {
      NameNonempty(prefix, p);
    } else {
      NameExtends(prefix, p);
    }
  }

  lemma SingleName(p: Path, q: Path)
    requires Anchored("", p) && Anchored("", q) && AllDotFree(p) && AllDotFree(q) && p != [] && q != []
    requires NameOf("", p) == NameOf("", q) && (|p| == 1 || |q| == 1)
    ensures p == q
  {
    DottedOrSingle(p);
    DottedOrSingle(q);
  }

  lemma DottedOrSingle(p: Path)
    requires Anchored("", p) && p != []
    ensures if |p| == 1 then NameOf("", p) == p[0] && p == [p[0]] else '.' in NameOf("", p)
  {
    if |p| == 1 {
      assert p[..0] == [];
    } else {
      NameIsJoined("", p);
      var n := NameOf("", p[..|p| - 1]);
      assert NameOf("", p)[|n|] == '.';
    }
  }
}
