/**
 Depth-first order by attribute position: the ways from a module to another, the first of them in
 lexicographic order, and the listings that go by it.
 */
module ModuleOrder {
  import opened Options
  import opened ModuleGraph

  /** The position of an attribute, step by step. */
  type Way = seq<nat>

  /** The way leads from m to x, and meets nothing in `avoid` and no module twice. */
  predicate Leads(g: Graph, m: Id, w: Way, x: Id, avoid: set<Id>)
    decreases |w|
  {
    m in g && m !in avoid &&
    if w == [] then m == x
    else w[0] < |g[m].children| && g[m].children[w[0]].1.Some? &&
         Leads(g, g[m].children[w[0]].1.value, w[1..], x, avoid + {m})
  }

  /** The lexicographic order; a way comes before its continuations. */
  predicate Precedes(v: Way, w: Way) {
    w != [] && (v == [] || v[0] < w[0] || (v[0] == w[0] && Precedes(v[1..], w[1..])))
  }

  /** Of all the ways from m to x, w is the first. */
  ghost predicate FirstWay(g: Graph, m: Id, w: Way, x: Id, avoid: set<Id>) {
    Leads(g, m, w, x, avoid) && forall v :: Leads(g, m, v, x, avoid) && v != w ==> Precedes(w, v)
  }

  /** The names of the attributes along a way. */
  function NamesAlong(g: Graph, m: Id, w: Way): Path
    decreases |w|
  {
    if w == [] || m !in g || w[0] >= |g[m].children| || g[m].children[w[0]].1.None? then []
    else [g[m].children[w[0]].0] + NamesAlong(g, g[m].children[w[0]].1.value, w[1..])
  }

  predicate Increasing(ways: seq<Way>) {
    forall j, k :: 0 <= j < k < |ways| ==> Precedes(ways[j], ways[k])
  }

  /** Every entry is named after the first way to its module, and the entries come in the order of these ways. */
  ghost predicate InOrder(g: Graph, m: Id, name: string, avoid: set<Id>, found: seq<(string, Id)>, ways: seq<Way>) {
    |ways| == |found| && Increasing(ways) &&
    forall k :: 0 <= k < |found| ==>
      FirstWay(g, m, ways[k], found[k].1, avoid) && found[k].0 == NameOf(name, NamesAlong(g, m, ways[k]))
  }

  ghost predicate DepthFirst(g: Graph, root: Id, prefix: string, found: seq<(string, Id)>) {
    exists ways :: InOrder(g, root, prefix, {}, found, ways)
  }

  // ----- Ways -----

  lemma {:induction false} LeadsReaches(g: Graph, m: Id, w: Way, x: Id, avoid: set<Id>)
    requires WellFormed(g) && Leads(g, m, w, x, avoid)
    ensures Reachable(g, m, x, avoid)
    decreases |w|
  {
    hide Reachable, WellFormed;
    if w == [] {
      ReachableSelf(g, m, avoid);
    } else {
      LeadsReaches(g, g[m].children[w[0]].1.value, w[1..], x, avoid + {m});
      ReachableThroughChild(g, m, w[0], x, avoid + {m}, avoid);
    }
  }

  lemma {:induction false} LeadsEnds(g: Graph, m: Id, w: Way, x: Id, avoid: set<Id>)
    requires Leads(g, m, w, x, avoid)
    ensures x in g && x !in avoid
    decreases |w|
  {
    if w != [] {
      LeadsEnds(g, g[m].children[w[0]].1.value, w[1..], x, avoid + {m});
    }
  }

  lemma {:induction false} LeadsAvoidsLess(g: Graph, m: Id, w: Way, x: Id, avoid: set<Id>, less: set<Id>)
    requires less <= avoid && Leads(g, m, w, x, avoid)
    ensures Leads(g, m, w, x, less)
    decreases |w|
  {
    if w != [] {
      LeadsAvoidsLess(g, g[m].children[w[0]].1.value, w[1..], x, avoid + {m}, less + {m});
    }
  }

  lemma {:induction false} LeadsStays(g: Graph, m: Id, w: Way, x: Id, avoid: set<Id>, seen: set<Id>, except: set<Id>)
    requires m in seen && ClosedOutside(g, seen, except) && except <= avoid && Leads(g, m, w, x, avoid)
    ensures x in seen
    decreases |w|
  {
    if w != [] {
      assert ChildrenIn(g[m].children, |g[m].children|, seen);
      LeadsStays(g, g[m].children[w[0]].1.value, w[1..], x, avoid + {m}, seen, except);
    }
  }

  /** A way to a module outside a closed set never enters the set. */
  lemma {:induction false} LeadsAround(g: Graph, m: Id, w: Way, x: Id, except: set<Id>, seen: set<Id>, met: set<Id>)
    requires ClosedOutside(g, seen, except) && x !in seen && Leads(g, m, w, x, except + met)
    ensures Leads(g, m, w, x, seen + met)
    decreases |w|
  {
    hide ClosedOutside;
    if m in seen {
      LeadsStays(g, m, w, x, except + met, seen, except);
    } else if w != [] {
      assert except + met + {m} == except + (met + {m}) && seen + met + {m} == seen + (met + {m});
      LeadsAround(g, g[m].children[w[0]].1.value, w[1..], x, except, seen, met + {m});
    }
  }

  /** The first way to a module that only child i leads to goes on with the child's first way. */
  lemma FirstThroughChild(g: Graph, m: Id, i: nat, w: Way, x: Id, was: set<Id>, memo: set<Id>)
    requires WellFormed(g) && m in g && m !in was && was + {m} <= memo && ClosedOutside(g, memo, was + {m})
    requires i < |g[m].children| && g[m].children[i].1.Some?
    requires FirstWay(g, g[m].children[i].1.value, w, x, memo)
    requires forall j :: 0 <= j < i && g[m].children[j].1.Some? ==>
               !Reachable(g, g[m].children[j].1.value, x, was + {m})
    ensures FirstWay(g, m, [i] + w, x, was)
  {
    hide WellFormed, ClosedOutside, Reachable;
    var child, whole := g[m].children[i].1.value, [i] + w;
    assert whole[1..] == w;
    LeadsEnds(g, child, w, x, memo);
    LeadsAvoidsLess(g, child, w, x, memo, was + {m});
    forall v | Leads(g, m, v, x, was) && v != whole ensures Precedes(whole, v) {
      assert v == [v[0]] + v[1..];
      if v[0] < i {
        LeadsReaches(g, g[m].children[v[0]].1.value, v[1..], x, was + {m});
      } else if v[0] == i {
        assert was + {m} + {} == was + {m} && memo + {} == memo;
        LeadsAround(g, child, v[1..], x, was + {m}, memo, {});
      }
    }
  }

  lemma NowhereButHere(g: Graph, m: Id, was: set<Id>)
    requires m in g && m !in was
    ensures FirstWay(g, m, [], m, was)
  {
  }

  // ----- Listings -----

  function Prefixed(i: nat, ways: seq<Way>): seq<Way> {
    seq(|ways|, k requires 0 <= k < |ways| => [i] + ways[k])
  }

  predicate HeadsBelow(ways: seq<Way>, i: nat) {
    forall k :: 0 <= k < |ways| ==> ways[k] == [] || ways[k][0] < i
  }

  lemma IncreasingMore(ways: seq<Way>, i: nat, more: seq<Way>)
    requires Increasing(ways) && HeadsBelow(ways, i) && Increasing(more)
    ensures Increasing(ways + Prefixed(i, more)) && HeadsBelow(ways + Prefixed(i, more), i + 1)
  {
    var all := ways + Prefixed(i, more);
    forall j, k | 0 <= j < k < |all| ensures Precedes(all[j], all[k]) {
      if j >= |ways| {
        var v, w := more[j - |ways|], more[k - |ways|];
        assert ([i] + v)[1..] == v && ([i] + w)[1..] == w;
        assert Precedes(v, w);
      }
    }
  }

  /** A name with one more attribute at the front. */
  lemma {:induction false} NameFront(name: string, key: string, path: Path)
    ensures NameOf(Sub(name, key), path) == NameOf(name, [key] + path)
    decreases |path|
  {
    var whole := [key] + path;
    if path == [] {
      assert whole[..0] == [];
    } else {
      NameFront(name, key, path[..|path| - 1]);
      assert whole[..|whole| - 1] == [key] + path[..|path| - 1];
    }
  }

  lemma OrderStart(g: Graph, m: Id, name: string, was: set<Id>)
    requires m in g && m !in was
    ensures InOrder(g, m, name, was, [(name, m)], [[]]) && HeadsBelow([[]], 0)
  {
    NowhereButHere(g, m, was);
  }

  /** No earlier child of m leads to x. */
  ghost predicate NotEarlier(g: Graph, m: Id, i: nat, x: Id, before: set<Id>)
    requires m in g && i <= |g[m].children|
  {
    forall j :: 0 <= j < i && g[m].children[j].1.Some? ==> !Reachable(g, g[m].children[j].1.value, x, before)
  }

  /** What the next child lists, in its order, continues the listing of m in its order. */
  lemma OrderChild(g: Graph, m: Id, name: string, i: nat, was: set<Id>, memo: set<Id>,
                   found: seq<(string, Id)>, ways: seq<Way>, more: seq<(string, Id)>, moreWays: seq<Way>)
    requires WellFormed(g) && m in g && m !in was && was + {m} <= memo && ClosedOutside(g, memo, was + {m})
    requires i < |g[m].children| && g[m].children[i].1.Some?
    requires InOrder(g, m, name, was, found, ways) && HeadsBelow(ways, i)
    requires InOrder(g, g[m].children[i].1.value, Sub(name, g[m].children[i].0), memo, more, moreWays)
    requires forall x :: x !in memo ==> NotEarlier(g, m, i, x, was + {m})
    ensures InOrder(g, m, name, was, found + more, ways + Prefixed(i, moreWays))
    ensures HeadsBelow(ways + Prefixed(i, moreWays), i + 1)
  {
    hide WellFormed, ClosedOutside, Leads, FirstWay, Increasing, HeadsBelow, NotEarlier, NameOf, NamesAlong, Sub;
    IncreasingMore(ways, i, moreWays);
    var all, allWays := found + more, ways + Prefixed(i, moreWays);
    forall k | 0 <= k < |all|
      ensures FirstWay(g, m, allWays[k], all[k].1, was) && all[k].0 == NameOf(name, NamesAlong(g, m, allWays[k]))
    {
      if k >= |found| {
        EntryThroughChild(g, m, name, i, was, memo, more[k - |found|], moreWays[k - |found|]);
      }
    }
  }

  lemma EntryThroughChild(g: Graph, m: Id, name: string, i: nat, was: set<Id>, memo: set<Id>, entry: (string, Id), w: Way)
    requires WellFormed(g) && m in g && m !in was && was + {m} <= memo && ClosedOutside(g, memo, was + {m})
    requires i < |g[m].children| && g[m].children[i].1.Some?
    requires FirstWay(g, g[m].children[i].1.value, w, entry.1, memo)
    requires entry.0 == NameOf(Sub(name, g[m].children[i].0), NamesAlong(g, g[m].children[i].1.value, w))
    requires forall x :: x !in memo ==> NotEarlier(g, m, i, x, was + {m})
    ensures FirstWay(g, m, [i] + w, entry.1, was) && entry.0 == NameOf(name, NamesAlong(g, m, [i] + w))
  {
    hide WellFormed, ClosedOutside, Reachable, NameOf, Sub, Leads;
    var (key, child) := (g[m].children[i].0, g[m].children[i].1.value);
    LeadsEnds(g, child, w, entry.1, memo);
    assert NotEarlier(g, m, i, entry.1, was + {m});
    FirstThroughChild(g, m, i, w, entry.1, was, memo);
    assert ([i] + w)[1..] == w;
    NameFront(name, key, NamesAlong(g, child, w));
  }

  // ----- The listing is determined -----

  lemma {:induction false} PrecedesTransitive(u: Way, v: Way, w: Way)
    requires Precedes(u, v) && Precedes(v, w)
    ensures Precedes(u, w)
    decreases |u|
  {
    if u != [] && u[0] == v[0] && v[0] == w[0] {
      PrecedesTransitive(u[1..], v[1..], w[1..]);
    }
  }

  lemma {:induction false} PrecedesIrreflexive(v: Way)
    ensures !Precedes(v, v)
    decreases |v|
  {
    if v != [] {
      PrecedesIrreflexive(v[1..]);
    }
  }

  lemma FirstWayUnique(g: Graph, m: Id, v: Way, w: Way, x: Id, avoid: set<Id>)
    requires FirstWay(g, m, v, x, avoid) && FirstWay(g, m, w, x, avoid)
    ensures v == w
  {
    if v != w {
      PrecedesTransitive(v, w, v);
      PrecedesIrreflexive(v);
    }
  }

  /** Two increasing lists with the same ways have the same way at every place they share. */
  lemma {:induction false} IncreasingAgree(a: seq<Way>, b: seq<Way>, k: nat)
    requires Increasing(a) && Increasing(b) && k < |a| && k < |b|
    requires forall j :: 0 <= j < |a| ==> a[j] in b
    requires forall j :: 0 <= j < |b| ==> b[j] in a
    ensures a[k] == b[k]
  {
    forall j | 0 <= j < k ensures a[j] == b[j] {
      IncreasingAgree(a, b, j);
    }
    var j :| 0 <= j < |b| && b[j] == a[k];
    var i :| 0 <= i < |a| && a[i] == b[k];
    PrecedesIrreflexive(a[k]);
    PrecedesIrreflexive(b[k]);
    if j > k && i > k {
      PrecedesTransitive(a[k], a[i], b[j]);
    }
  }

  lemma IncreasingEqual(a: seq<Way>, b: seq<Way>)
    requires Increasing(a) && Increasing(b)
    requires forall j :: 0 <= j < |a| ==> a[j] in b
    requires forall j :: 0 <= j < |b| ==> b[j] in a
    ensures a == b
  {
    forall k | 0 <= k < |a| && k < |b| ensures a[k] == b[k] {
      IncreasingAgree(a, b, k);
    }
    NoLonger(a, b);
    NoLonger(b, a);
  }

  lemma NoLonger(a: seq<Way>, b: seq<Way>)
    requires Increasing(b) && forall j :: 0 <= j < |b| ==> b[j] in a
    requires forall k :: 0 <= k < |a| && k < |b| ==> a[k] == b[k]
    ensures |b| <= |a|
  {
    if |a| < |b| {
      var i :| 0 <= i < |a| && a[i] == b[|a|];
      PrecedesIrreflexive(b[|a|]);
    }
  }

  predicate Lists(found: seq<(string, Id)>, x: Id) {
    exists k :: 0 <= k < |found| && found[k].1 == x
  }

  lemma SharesWays(g: Graph, root: Id, prefix: string, a: seq<(string, Id)>, b: seq<(string, Id)>,
                   ways: seq<Way>, others: seq<Way>)
    requires InOrder(g, root, prefix, {}, a, ways) && InOrder(g, root, prefix, {}, b, others)
    requires forall k :: 0 <= k < |a| ==> Lists(b, a[k].1)
    ensures forall k :: 0 <= k < |ways| ==> ways[k] in others
  {
    hide FirstWay;
    forall k | 0 <= k < |ways| ensures ways[k] in others {
      assert Lists(b, a[k].1);
      var j :| 0 <= j < |b| && b[j].1 == a[k].1;
      FirstWayUnique(g, root, ways[k], others[j], a[k].1, {});
    }
  }

  lemma {:induction false} LeadsOneModule(g: Graph, m: Id, w: Way, x: Id, y: Id, avoid: set<Id>)
    requires Leads(g, m, w, x, avoid) && Leads(g, m, w, y, avoid)
    ensures x == y
    decreases |w|
  {
    if w != [] {
      LeadsOneModule(g, g[m].children[w[0]].1.value, w[1..], x, y, avoid + {m});
    }
  }

  /** Two depth-first listings of the same modules are the same list, names and order included. */
  lemma DepthFirstDetermined(g: Graph, root: Id, prefix: string, a: seq<(string, Id)>, b: seq<(string, Id)>)
    requires DepthFirst(g, root, prefix, a) && DepthFirst(g, root, prefix, b)
    requires forall x :: Lists(a, x) <==> Lists(b, x)
    ensures a == b
  {
    hide Leads, Lists, NameOf;
    var ways :| InOrder(g, root, prefix, {}, a, ways);
    var others :| InOrder(g, root, prefix, {}, b, others);
    assert forall k :: 0 <= k < |a| ==> Lists(b, a[k].1) by {
      AllListed(a);
    }
    assert forall k :: 0 <= k < |b| ==> Lists(a, b[k].1) by {
      AllListed(b);
    }
    SharesWays(g, root, prefix, a, b, ways, others);
    SharesWays(g, root, prefix, b, a, others, ways);
    IncreasingEqual(ways, others);
    forall k | 0 <= k < |a| ensures a[k] == b[k] {
      LeadsOneModule(g, root, ways[k], a[k].1, b[k].1, {});
    }
  }

  lemma AllListed(found: seq<(string, Id)>)
    ensures forall k :: 0 <= k < |found| ==> Lists(found, found[k].1)
  {
  }
}
