/** `_named_members` and `named_parameters`: the parameters of the modules the walk lists. */
module ModuleParameters {
  import opened Options
  import opened ModuleGraph
  import opened ModuleOrder
  import opened ModuleWalk

  type Params = seq<(string, Option<Id>)>

  // ----- What is listed -----

  function ParamsOf(g: Graph, x: Id): Params {
    if x in g then g[x].params else []
  }

  /** One of the first n attributes is the parameter v. */
  predicate HasParam(params: Params, n: nat, v: Id)
    requires n <= |params|
  {
    exists j :: 0 <= j < n && params[j].1 == Some(v)
  }

  /** A parameter of module m that no earlier module has. */
  predicate NewAt(g: Graph, modules: seq<Named>, m: nat, v: Id)
    requires m <= |modules|
  {
    forall j :: 0 <= j < m ==> !HasParam(ParamsOf(g, modules[j].1), |ParamsOf(g, modules[j].1)|, v)
  }

  /** Attribute i of the m-th module is the first place where its parameter occurs. */
  predicate FirstAt(g: Graph, modules: seq<Named>, m: nat, i: nat) {
    m < |modules| && i < |ParamsOf(g, modules[m].1)| &&
    match ParamsOf(g, modules[m].1)[i].1
    case None => false
    case Some(v) => NewAt(g, modules, m, v) && !HasParam(ParamsOf(g, modules[m].1), i, v)
  }

  /** The name and the parameter at a place. */
  function EntryAt(g: Graph, modules: seq<Named>, m: nat, i: nat): Named
    requires FirstAt(g, modules, m, i)
  {
    var (key, v) := ParamsOf(g, modules[m].1)[i];
    (Sub(modules[m].0, key), v.value)
  }

  ghost predicate StandsForFirst(g: Graph, modules: seq<Named>, entry: Named) {
    exists m: nat, i: nat :: FirstAt(g, modules, m, i) && entry == EntryAt(g, modules, m, i)
  }

  /** Every entry stands for a first place, every first place has its entry, and no parameter is listed twice. */
  ghost predicate ListsFirsts(g: Graph, modules: seq<Named>, found: seq<Named>) {
    (forall k :: 0 <= k < |found| ==> StandsForFirst(g, modules, found[k])) &&
    (forall m: nat, i: nat :: FirstAt(g, modules, m, i) ==> EntryAt(g, modules, m, i) in found) &&
    forall j, k :: 0 <= j < k < |found| ==> found[j].1 != found[k].1
  }

  predicate Sooner(a: (nat, nat), b: (nat, nat)) {
    a.0 < b.0 || (a.0 == b.0 && a.1 < b.1)
  }

  /** The entries stand for these places, which come module by module, and attribute by attribute. */
  predicate AtPlaces(g: Graph, modules: seq<Named>, found: seq<Named>, places: seq<(nat, nat)>) {
    |places| == |found| &&
    (forall k :: 0 <= k < |places| ==>
       FirstAt(g, modules, places[k].0, places[k].1) && found[k] == EntryAt(g, modules, places[k].0, places[k].1)) &&
    forall j, k :: 0 <= j < k < |places| ==> Sooner(places[j], places[k])
  }

  predicate AllSooner(places: seq<(nat, nat)>, m: nat, i: nat) {
    forall k :: 0 <= k < |places| ==> Sooner(places[k], (m, i))
  }

  ghost predicate InPlaceOrder(g: Graph, modules: seq<Named>, found: seq<Named>) {
    exists places :: AtPlaces(g, modules, found, places)
  }

  /** What was listed before attribute i of module m, in the order of its places. */
  ghost predicate OrderedUpTo(g: Graph, modules: seq<Named>, found: seq<Named>, m: nat, i: nat) {
    exists places :: AtPlaces(g, modules, found, places) && AllSooner(places, m, i)
  }

  lemma OrderedLater(g: Graph, modules: seq<Named>, found: seq<Named>, m: nat, i: nat, m': nat, i': nat)
    requires OrderedUpTo(g, modules, found, m, i) && Sooner((m, i), (m', i'))
    ensures OrderedUpTo(g, modules, found, m', i')
  {
    hide AtPlaces;
    var places :| AtPlaces(g, modules, found, places) && AllSooner(places, m, i);
    assert AllSooner(places, m', i');
  }

  lemma OrderedMore(g: Graph, modules: seq<Named>, found: seq<Named>, m: nat, i: nat)
    requires OrderedUpTo(g, modules, found, m, i) && FirstAt(g, modules, m, i)
    ensures OrderedUpTo(g, modules, found + [EntryAt(g, modules, m, i)], m, i + 1)
  {
    hide FirstAt, EntryAt;
    var places :| AtPlaces(g, modules, found, places) && AllSooner(places, m, i);
    var more := places + [(m, i)];
    assert AtPlaces(g, modules, found + [EntryAt(g, modules, m, i)], more) && AllSooner(more, m, i + 1);
  }

  lemma OrderedNothing(g: Graph, modules: seq<Named>)
    ensures OrderedUpTo(g, modules, [], 0, 0)
  {
    assert AtPlaces(g, modules, [], []) && AllSooner([], 0, 0);
  }

  /** An entry is the attribute its full path ends in, of a listed module, under its dotted name. */
  ghost predicate IsParameter(g: Graph, root: Id, prefix: string, paths: seq<Path>, entry: Named, full: Path) {
    full != [] && full[..|full| - 1] in paths && entry.0 == NameOf(prefix, full) &&
    match Reach(g, root, full[..|full| - 1], {})
    case None => false
    case Some(x) => x in g && Lookup(g[x].params, full[|full| - 1]) == Some(entry.1)
  }

  ghost predicate AreParameters(g: Graph, root: Id, prefix: string, paths: seq<Path>, found: seq<Named>, fulls: seq<Path>) {
    |fulls| == |found| && forall k :: 0 <= k < |found| ==> IsParameter(g, root, prefix, paths, found[k], fulls[k])
  }

  // ----- The two loops -----

  /** The memo and the list before attribute i of module m is looked at. */
  ghost predicate Progress(g: Graph, modules: seq<Named>, m: nat, i: nat, memo: set<Id>, found: seq<Named>)
    requires m <= |modules| && (m < |modules| ==> i <= |ParamsOf(g, modules[m].1)|) && (m == |modules| ==> i == 0)
  {
    (forall v: Id :: v in memo <==>
       !NewAt(g, modules, m, v) || (m < |modules| && HasParam(ParamsOf(g, modules[m].1), i, v))) &&
    Listed(found, memo) &&
    (forall k :: 0 <= k < |found| ==> StandsForFirst(g, modules, found[k])) &&
    forall m': nat, i': nat :: FirstAt(g, modules, m', i') && (m' < m || (m' == m && i' < i)) ==>
      EntryAt(g, modules, m', i') in found
  }

  lemma ProgressStart(g: Graph, modules: seq<Named>)
    ensures Progress(g, modules, 0, 0, {}, [])
  {
  }

  lemma HasOneMore(params: Params, i: nat, v: Id)
    requires i < |params|
    ensures HasParam(params, i + 1, v) <==> HasParam(params, i, v) || params[i].1 == Some(v)
  {
  }

  /** The attribute is skipped: it is nothing, or its parameter was listed before. */
  lemma ProgressSkip(g: Graph, modules: seq<Named>, m: nat, i: nat, memo: set<Id>, found: seq<Named>)
    requires m < |modules| && i < |ParamsOf(g, modules[m].1)| && Progress(g, modules, m, i, memo, found)
    requires match ParamsOf(g, modules[m].1)[i].1 case None => true case Some(v) => v in memo
    ensures Progress(g, modules, m, i + 1, memo, found)
  {
    hide NewAt, HasParam, Listed, EntryAt, StandsForFirst;
    var params := ParamsOf(g, modules[m].1);
    forall v: Id ensures HasParam(params, i + 1, v) <==> HasParam(params, i, v) || params[i].1 == Some(v) {
      HasOneMore(params, i, v);
    }
    assert !FirstAt(g, modules, m, i);
  }

  /** The attribute is listed: this is the first place of its parameter. */
  lemma ProgressList(g: Graph, modules: seq<Named>, m: nat, i: nat, memo: set<Id>, found: seq<Named>, v: Id)
    requires m < |modules| && i < |ParamsOf(g, modules[m].1)| && Progress(g, modules, m, i, memo, found)
    requires ParamsOf(g, modules[m].1)[i].1 == Some(v) && v !in memo
    ensures FirstAt(g, modules, m, i)
    ensures Progress(g, modules, m, i + 1, memo + {v}, found + [EntryAt(g, modules, m, i)])
  {
    hide NewAt, HasParam, Listed, EntryAt;
    var params := ParamsOf(g, modules[m].1);
    assert FirstAt(g, modules, m, i);
    var entry := EntryAt(g, modules, m, i);
    assert entry.1 == v by {
      EntryIs(g, modules, m, i);
    }
    forall u: Id ensures HasParam(params, i + 1, u) <==> HasParam(params, i, u) || params[i].1 == Some(u) {
      HasOneMore(params, i, u);
    }
    ListMore(found, memo, entry.0, v);
    var more := found + [entry];
    assert StandsForFirst(g, modules, entry);
    forall k | 0 <= k < |more| ensures StandsForFirst(g, modules, more[k]) {
      if k < |found| {
        assert more[k] == found[k];
      }
    }
  }

  lemma EntryIs(g: Graph, modules: seq<Named>, m: nat, i: nat)
    requires FirstAt(g, modules, m, i)
    ensures EntryAt(g, modules, m, i) ==
            (Sub(modules[m].0, ParamsOf(g, modules[m].1)[i].0), ParamsOf(g, modules[m].1)[i].1.value)
  {
  }

  lemma ProgressNext(g: Graph, modules: seq<Named>, m: nat, memo: set<Id>, found: seq<Named>)
    requires m < |modules| && Progress(g, modules, m, |ParamsOf(g, modules[m].1)|, memo, found)
    ensures Progress(g, modules, m + 1, 0, memo, found)
  {
    hide HasParam, Listed, EntryAt, StandsForFirst, FirstAt;
    var params := ParamsOf(g, modules[m].1);
    forall v: Id ensures NewAt(g, modules, m + 1, v) <==> NewAt(g, modules, m, v) && !HasParam(params, |params|, v) {
    }
    forall m': nat, i': nat | FirstAt(g, modules, m', i') && m' <= m ensures EntryAt(g, modules, m', i') in found {
      FirstInRange(g, modules, m', i');
    }
    if m + 1 < |modules| {
      var next := ParamsOf(g, modules[m + 1].1);
      forall v: Id ensures !HasParam(next, 0, v) {
        NothingYet(next, v);
      }
    }
  }

  lemma FirstInRange(g: Graph, modules: seq<Named>, m: nat, i: nat)
    requires FirstAt(g, modules, m, i)
    ensures m < |modules| && i < |ParamsOf(g, modules[m].1)|
  {
  }

  lemma NothingYet(params: Params, v: Id)
    ensures !HasParam(params, 0, v)
  {
  }

  lemma ProgressEnd(g: Graph, modules: seq<Named>, memo: set<Id>, found: seq<Named>)
    requires Progress(g, modules, |modules|, 0, memo, found)
    ensures ListsFirsts(g, modules, found)
  {
    hide NewAt, HasParam, EntryAt, StandsForFirst, FirstAt;
    forall m: nat, i: nat | FirstAt(g, modules, m, i) ensures EntryAt(g, modules, m, i) in found {
      FirstInRange(g, modules, m, i);
    }
  }

  /** The loop over one module's parameters. */
  method AddParameters(g: Graph, root: Id, prefix: string, modules: seq<Named>, ghost paths: seq<Path>, m: nat,
                       memo0: set<Id>, found0: seq<Named>, ghost fulls0: seq<Path>)
    returns (memo: set<Id>, found: seq<Named>, ghost fulls: seq<Path>)
    requires WellFormed(g) && Resolves(g, root, prefix, modules, paths) && m < |modules|
    requires Progress(g, modules, m, 0, memo0, found0) && AreParameters(g, root, prefix, paths, found0, fulls0)
    requires OrderedUpTo(g, modules, found0, m, 0)
    ensures Progress(g, modules, m + 1, 0, memo, found) && AreParameters(g, root, prefix, paths, found, fulls)
    ensures OrderedUpTo(g, modules, found, m + 1, 0)
  {
    hide OrderedUpTo, WellFormed, Progress, IsParameter, Reach, NameOf, FirstAt, EntryAt;
    var (name, x) := modules[m];
    ghost var at := paths[m];
    ReachedInGraph(g, root, at);
    KeysDiffer(g, x);
    memo, found, fulls := memo0, found0, fulls0;
    var params := g[x].params;
    var i := 0;
    while i < |params|
      invariant i <= |params| && Progress(g, modules, m, i, memo, found) && OrderedUpTo(g, modules, found, m, i)
      invariant AreParameters(g, root, prefix, paths, found, fulls)
    {
      var (k, v) := params[i];
      if v.None? || v.value in memo {
        ProgressSkip(g, modules, m, i, memo, found);
        OrderedLater(g, modules, found, m, i, m, i + 1);
      } else {
        ParameterAt(g, root, prefix, paths, x, at, i);
        ProgressList(g, modules, m, i, memo, found, v.value);
        EntryIs(g, modules, m, i);
        OrderedMore(g, modules, found, m, i);
        memo := memo + {v.value};
        found := found + [(Sub(name, k), v.value)];
        fulls := fulls + [at + [k]];
      }
      i := i + 1;
    }
    ProgressNext(g, modules, m, memo, found);
    OrderedLater(g, modules, found, m, i, m + 1, 0);
  }

  lemma ParameterAt(g: Graph, root: Id, prefix: string, paths: seq<Path>, x: Id, at: Path, i: nat)
    requires x in g && at in paths && Reach(g, root, at, {}) == Some(x) && DistinctKeys(g[x].params)
    requires i < |g[x].params| && g[x].params[i].1.Some?
    ensures var (k, v) := g[x].params[i];
            IsParameter(g, root, prefix, paths, (Sub(NameOf(prefix, at), k), v.value), at + [k])
  {
    var k := g[x].params[i].0;
    assert (at + [k])[..|at| + 1 - 1] == at;
    ChildName(prefix, at, k);
    LookupAt(g[x].params, i);
  }

  /** The loop over the modules: every parameter of every listed module once, where it first occurs. */
  method Members(g: Graph, root: Id, prefix: string, modules: seq<Named>, ghost paths: seq<Path>)
    returns (found: seq<Named>, ghost fulls: seq<Path>)
    requires WellFormed(g) && Resolves(g, root, prefix, modules, paths)
    ensures ListsFirsts(g, modules, found) && AreParameters(g, root, prefix, paths, found, fulls)
    ensures InPlaceOrder(g, modules, found)
  {
    hide WellFormed, Progress, AreParameters, ListsFirsts, AtPlaces;
    var memo: set<Id> := {};
    found, fulls := [], [];
    ProgressStart(g, modules);
    NoParameters(g, root, prefix, paths);
    OrderedNothing(g, modules);
    var m := 0;
    while m < |modules|
      invariant m <= |modules| && Progress(g, modules, m, 0, memo, found) && OrderedUpTo(g, modules, found, m, 0)
      invariant AreParameters(g, root, prefix, paths, found, fulls)
    {
      memo, found, fulls := AddParameters(g, root, prefix, modules, paths, m, memo, found, fulls);
      m := m + 1;
    }
    ProgressEnd(g, modules, memo, found);
  }

  lemma NoParameters(g: Graph, root: Id, prefix: string, paths: seq<Path>)
    ensures AreParameters(g, root, prefix, paths, [], [])
  {
  }

  lemma ReachedInGraph(g: Graph, root: Id, path: Path)
    requires Reach(g, root, path, {}).Some?
    ensures Reach(g, root, path, {}).value in g
  {
    ReachAvoids(g, root, path, {});
  }

  /** The modules whose parameters are asked for. */
  ghost predicate Covered(g: Graph, root: Id, recurse: bool, x: Id) {
    if recurse then Reachable(g, root, x, {}) else x == root
  }

  /** The modules whose parameters are listed, as `named_modules` lists them. */
  ghost predicate ModulesFor(g: Graph, root: Id, prefix: string, recurse: bool, modules: seq<Named>, paths: seq<Path>)
    requires root in g
  {
    if recurse then ModulesListed(g, root, prefix, modules, paths)
    else modules == [(prefix, root)] && paths == [[]]
  }

  /**
   `named_parameters(prefix, recurse)`: every parameter of the modules exactly once, where it first
   occurs, each name a path of attributes that leads to it.
   */
  method NamedParameters(g: Graph, root: Id, prefix: string, recurse: bool)
    returns (found: seq<Named>, ghost fulls: seq<Path>, ghost modules: seq<Named>, ghost paths: seq<Path>)
    requires WellFormed(g) && root in g
    ensures ModulesFor(g, root, prefix, recurse, modules, paths)
    ensures DepthFirst(g, root, prefix, modules) || !recurse
    ensures InPlaceOrder(g, modules, found)
    ensures ListsFirsts(g, modules, found) && AreParameters(g, root, prefix, paths, found, fulls)
    ensures forall x, i :: Covered(g, root, recurse, x) && x in g && 0 <= i < |g[x].params| ==>
              match g[x].params[i].1
              case None => true
              case Some(v) => exists k :: 0 <= k < |found| && found[k].1 == v
  {
    hide WellFormed, Reach, NameOf, FirstPaths, Reachable, ListsFirsts, AreParameters, InPlaceOrder, DepthFirst;
    var listed;
    if recurse {
      listed, paths := NamedModules(g, root, prefix);
    } else {
      AtRoot(g, root, prefix);
      listed, paths := [(prefix, root)], [[]];
    }
    found, fulls := Members(g, root, prefix, listed, paths);
    modules := listed;
    forall x, i | Covered(g, root, recurse, x) && x in g && 0 <= i < |g[x].params|
      ensures match g[x].params[i].1
              case None => true
              case Some(v) => exists k :: 0 <= k < |found| && found[k].1 == v
    {
      assert !recurse ==> listed[0].1 == x;
      var m :| 0 <= m < |listed| && listed[m].1 == x;
      NothingLeftOut(g, listed, found, m, i);
    }
  }

  /** No parameter of a listed module is left out. */
  lemma NothingLeftOut(g: Graph, modules: seq<Named>, found: seq<Named>, m: nat, i: nat)
    requires ListsFirsts(g, modules, found) && m < |modules| && i < |ParamsOf(g, modules[m].1)|
    ensures match ParamsOf(g, modules[m].1)[i].1
            case None => true
            case Some(v) => exists k :: 0 <= k < |found| && found[k].1 == v
    decreases m, i
  {
    hide ListsFirsts;
    var params := ParamsOf(g, modules[m].1);
    if params[i].1.Some? {
      var v := params[i].1.value;
      if FirstAt(g, modules, m, i) {
        EntryIs(g, modules, m, i);
        FirstHasEntry(g, modules, found, m, i);
      } else if HasParam(params, i, v) {
        var j :| 0 <= j < i && params[j].1 == Some(v);
        NothingLeftOut(g, modules, found, m, j);
      } else {
        var m' :| 0 <= m' < m && HasParam(ParamsOf(g, modules[m'].1), |ParamsOf(g, modules[m'].1)|, v);
        var j :| 0 <= j < |ParamsOf(g, modules[m'].1)| && ParamsOf(g, modules[m'].1)[j].1 == Some(v);
        NothingLeftOut(g, modules, found, m', j);
      }
    }
  }

  lemma FirstHasEntry(g: Graph, modules: seq<Named>, found: seq<Named>, m: nat, i: nat)
    requires ListsFirsts(g, modules, found) && FirstAt(g, modules, m, i)
    ensures exists k :: 0 <= k < |found| && found[k] == EntryAt(g, modules, m, i)
  {
    assert EntryAt(g, modules, m, i) in found;
  }

  /** The list of parameters is determined: two lists of all first places, in order, are the same list. */
  lemma ParametersDetermined(g: Graph, modules: seq<Named>, a: seq<Named>, b: seq<Named>)
    requires ListsFirsts(g, modules, a) && ListsFirsts(g, modules, b)
    requires InPlaceOrder(g, modules, a) && InPlaceOrder(g, modules, b)
    ensures a == b
  {
    hide FirstAt, EntryAt, ListsFirsts;
    var places :| AtPlaces(g, modules, a, places);
    var others :| AtPlaces(g, modules, b, others);
    SharesPlaces(g, modules, a, b, places, others);
    SharesPlaces(g, modules, b, a, others, places);
    forall k | 0 <= k < |places| && k < |others| ensures places[k] == others[k] {
      PlacesAgree(places, others, k);
    }
    NoMorePlaces(places, others);
    NoMorePlaces(others, places);
  }

  predicate Ascending(places: seq<(nat, nat)>) {
    forall j, k :: 0 <= j < k < |places| ==> Sooner(places[j], places[k])
  }

  lemma SharesPlaces(g: Graph, modules: seq<Named>, a: seq<Named>, b: seq<Named>,
                     places: seq<(nat, nat)>, others: seq<(nat, nat)>)
    requires ListsFirsts(g, modules, b) && AtPlaces(g, modules, a, places) && AtPlaces(g, modules, b, others)
    ensures forall k :: 0 <= k < |places| ==> places[k] in others
  {
    hide EntryAt, FirstAt, ListsFirsts;
    forall k | 0 <= k < |places| ensures places[k] in others {
      var (m, i) := places[k];
      FirstHasEntry(g, modules, b, m, i);
      var j :| 0 <= j < |b| && b[j] == EntryAt(g, modules, m, i);
      SameParameterSamePlace(g, modules, m, i, others[j].0, others[j].1);
    }
  }

  lemma SameParameterSamePlace(g: Graph, modules: seq<Named>, m: nat, i: nat, m': nat, i': nat)
    requires FirstAt(g, modules, m, i) && FirstAt(g, modules, m', i')
    requires EntryAt(g, modules, m, i).1 == EntryAt(g, modules, m', i').1
    ensures m == m' && i == i'
  {
    hide NewAt;
    if m < m' {
      NewIsNew(g, modules, m, i, m', i');
    } else if m' < m {
      NewIsNew(g, modules, m', i', m, i);
    }
  }

  lemma {:induction false} PlacesAgree(a: seq<(nat, nat)>, b: seq<(nat, nat)>, k: nat)
    requires Ascending(a) && Ascending(b) && k < |a| && k < |b|
    requires forall j :: 0 <= j < |a| ==> a[j] in b
    requires forall j :: 0 <= j < |b| ==> b[j] in a
    ensures a[k] == b[k]
  {
    forall j | 0 <= j < k ensures a[j] == b[j] {
      PlacesAgree(a, b, j);
    }
    var j :| 0 <= j < |b| && b[j] == a[k];
    var i :| 0 <= i < |a| && a[i] == b[k];
  }

  lemma NoMorePlaces(a: seq<(nat, nat)>, b: seq<(nat, nat)>)
    requires Ascending(b) && forall j :: 0 <= j < |b| ==> b[j] in a
    requires forall k :: 0 <= k < |a| && k < |b| ==> a[k] == b[k]
    ensures |b| <= |a|
  {
    hide Sooner;
    if |a| < |b| {
      var i :| 0 <= i < |a| && a[i] == b[|a|];
      NotSooner(b[|a|]);
    }
  }

  lemma NotSooner(place: (nat, nat))
    ensures !Sooner(place, place)
  {
  }

  // ----- Distinct names -----

  predicate DotFreeParameters(g: Graph) {
    forall x, i :: x in g && 0 <= i < |g[x].params| ==> DotFree(g[x].params[i].0)
  }

  /** A dotted name determines the module's name and the last attribute, if that is free of dots. */
  lemma SubInjective(a: string, b: string, s: string, t: string)
    requires DotFree(s) && DotFree(t) && Sub(a, s) == Sub(b, t)
    ensures a == b && s == t
  {
    assert (b + "." + t)[|b|] == '.' && (a + "." + s)[|a|] == '.';
    if a != "" && b != "" {
      LastDot(a, b, s, t);
    }
  }

  /** Two places in modules of the same dotted name list different parameters under the same key. */
  predicate Collide(g: Graph, modules: seq<Named>, m: nat, i: nat, m': nat, i': nat) {
    m < m' && FirstAt(g, modules, m, i) && FirstAt(g, modules, m', i') && modules[m].0 == modules[m'].0 &&
    ParamsOf(g, modules[m].1)[i].0 == ParamsOf(g, modules[m'].1)[i'].0
  }

  ghost predicate Collision(g: Graph, modules: seq<Named>) {
    exists m: nat, i: nat, m': nat, i': nat :: Collide(g, modules, m, i, m', i')
  }

  /**
   With dot-free keys, no two parameters have the same name exactly when no two listed modules with the
   same dotted name each are the first to list a parameter under the same key.
   */
  lemma ParameterNamesDistinctIff(g: Graph, modules: seq<Named>, found: seq<Named>)
    requires WellFormed(g) && DotFreeParameters(g) && ListsFirsts(g, modules, found)
    ensures NamesDistinct(found) <==> !Collision(g, modules)
  {
    hide WellFormed, ListsFirsts, Collide;
    if Collision(g, modules) {
      var m: nat, i: nat, m': nat, i': nat :| Collide(g, modules, m, i, m', i');
      CollisionShows(g, modules, found, m, i, m', i');
    }
    forall j, k | 0 <= j < k < |found| && found[j].0 == found[k].0 ensures Collision(g, modules) {
      SameNameCollides(g, modules, found, j, k);
    }
  }

  lemma CollisionShows(g: Graph, modules: seq<Named>, found: seq<Named>, m: nat, i: nat, m': nat, i': nat)
    requires ListsFirsts(g, modules, found) && Collide(g, modules, m, i, m', i')
    ensures !NamesDistinct(found)
  {
    hide ListsFirsts, NewAt;
    FirstHasEntry(g, modules, found, m, i);
    FirstHasEntry(g, modules, found, m', i');
    var j :| 0 <= j < |found| && found[j] == EntryAt(g, modules, m, i);
    var k :| 0 <= k < |found| && found[k] == EntryAt(g, modules, m', i');
    NewIsNew(g, modules, m, i, m', i');
    assert j != k && found[j].0 == found[k].0;
  }

  lemma NewIsNew(g: Graph, modules: seq<Named>, m: nat, i: nat, m': nat, i': nat)
    requires m < m' && FirstAt(g, modules, m, i) && FirstAt(g, modules, m', i')
    ensures ParamsOf(g, modules[m].1)[i].1 != ParamsOf(g, modules[m'].1)[i'].1
  {
    var params, v := ParamsOf(g, modules[m].1), ParamsOf(g, modules[m'].1)[i'].1.value;
    assert !HasParam(params, |params|, v);
  }

  lemma SameNameCollides(g: Graph, modules: seq<Named>, found: seq<Named>, j: nat, k: nat)
    requires WellFormed(g) && DotFreeParameters(g) && ListsFirsts(g, modules, found)
    requires j < k < |found| && found[j].0 == found[k].0
    ensures Collision(g, modules)
  {
    hide WellFormed, FirstAt, EntryAt;
    assert StandsForFirst(g, modules, found[j]) && StandsForFirst(g, modules, found[k]);
    var m: nat, i: nat :| FirstAt(g, modules, m, i) && found[j] == EntryAt(g, modules, m, i);
    var m': nat, i': nat :| FirstAt(g, modules, m', i') && found[k] == EntryAt(g, modules, m', i');
    SamePlaceOrCollide(g, modules, m, i, m', i');
    if m < m' {
      assert Collide(g, modules, m, i, m', i');
    } else {
      assert Collide(g, modules, m', i', m, i);
    }
  }

  lemma SamePlaceOrCollide(g: Graph, modules: seq<Named>, m: nat, i: nat, m': nat, i': nat)
    requires WellFormed(g) && DotFreeParameters(g) && FirstAt(g, modules, m, i) && FirstAt(g, modules, m', i')
    requires EntryAt(g, modules, m, i).0 == EntryAt(g, modules, m', i').0
    requires EntryAt(g, modules, m, i).1 != EntryAt(g, modules, m', i').1
    ensures m != m' && (m < m' ==> Collide(g, modules, m, i, m', i')) && (m' < m ==> Collide(g, modules, m', i', m, i))
  {
    hide WellFormed, NewAt, HasParam;
    var x, x' := modules[m].1, modules[m'].1;
    assert DotFree(g[x].params[i].0) && DotFree(g[x'].params[i'].0);
    SubInjective(modules[m].0, modules[m'].0, g[x].params[i].0, g[x'].params[i'].0);
    if m == m' {
      KeysDiffer(g, x);
    }
  }

  /**
   In particular names are distinct when there is a prefix, or only the module itself is asked for, or
   the root has no module under the empty name.
   */
  lemma ParameterNamesDistinct(g: Graph, root: Id, prefix: string, recurse: bool,
                               modules: seq<Named>, paths: seq<Path>, found: seq<Named>)
    requires root in g && WellFormed(g) && DotFreeNames(g) && DotFreeParameters(g)
    requires ModulesFor(g, root, prefix, recurse, modules, paths) && ListsFirsts(g, modules, found)
    requires prefix != "" || !recurse || !Nameless(g, root)
    ensures NamesDistinct(found)
  {
    hide WellFormed, DotFreeNames, DotFreeParameters, ModulesListed, ListsFirsts, Nameless, FirstAt;
    ParameterNamesDistinctIff(g, modules, found);
    if recurse {
      NamesDistinctIff(g, root, prefix, modules, paths);
    }
    if Collision(g, modules) {
      var m: nat, i: nat, m': nat, i': nat :| Collide(g, modules, m, i, m', i');
      FirstInRange(g, modules, m', i');
    }
  }

  // ----- A module under the empty name -----

  /** A root with a module under the empty name; the root has parameter 0, the module parameter 1. */
  function EmptyNamed(key: string, key': string): Graph {
    map[0 := Node([("", Some(1))], [(key, Some(0))]), 1 := Node([], [(key', Some(1))])]
  }

  lemma {:induction false} EmptyNamedPaths(key: string, key': string, path: Path)
    requires Reach(EmptyNamed(key, key'), 0, path, {}).Some?
    ensures path == [] || path == [""]
    ensures Reach(EmptyNamed(key, key'), 0, path, {}) == Some(if path == [] then 0 else 1)
    decreases |path|
  {
    if path != [] {
      var k := |path| - 1;
      EmptyNamedPaths(key, key', path[..k]);
      assert path == path[..k] + [path[k]];
      var items: seq<(string, Option<Id>)> := [("", Some(1))];
      if Lookup(items, path[k]).Some? {
        LookupFinds(items, path[k]);
      }
    }
  }

  lemma EmptyNamedIs(key: string, key': string)
    ensures var g := EmptyNamed(key, key');
            WellFormed(g) && DotFreeNames(g) && Reachable(g, 0, 0, {}) && Reachable(g, 0, 1, {})
    ensures DotFree(key) && DotFree(key') ==> DotFreeParameters(EmptyNamed(key, key'))
  {
    var g := EmptyNamed(key, key');
    assert Reach(g, 0, [], {}) == Some(0);
    assert [""][..0] == [];
    assert Reach(g, 0, [""], {}) == Some(1);
  }

  predicate TwoModules(modules: seq<Named>, a: nat, b: nat) {
    a < |modules| && b < |modules| && modules[a] == ("", 0) && modules[b] == ("", 1) &&
    (forall m :: 0 <= m < |modules| ==> modules[m] == ("", 0) || modules[m] == ("", 1)) &&
    forall j, k :: 0 <= j < k < |modules| ==> modules[j].1 != modules[k].1
  }

  /** What the walk lists of it: both modules, both under the empty name. */
  lemma EmptyNamedModules(key: string, key': string, modules: seq<Named>, paths: seq<Path>) returns (a: nat, b: nat)
    requires ModulesListed(EmptyNamed(key, key'), 0, "", modules, paths)
    ensures TwoModules(modules, a, b)
  {
    hide EmptyNamed, Reach, Reachable;
    var g := EmptyNamed(key, key');
    EmptyNamedIs(key, key');
    var a' :| 0 <= a' < |modules| && modules[a'].1 == 0;
    var b' :| 0 <= b' < |modules| && modules[b'].1 == 1;
    forall m | 0 <= m < |modules|
      ensures modules[m].0 == "" && (modules[m].1 == 0 || modules[m].1 == 1)
    {
      EmptyNamedPaths(key, key', paths[m]);
      NamelessName();
    }
    a, b := a', b';
  }

  /**
   On such a root `named_parameters` returns two equal names exactly when the two keys are the same, so
   an empty name alone does no harm.
   */
  lemma EmptyModuleNameCollides(key: string, key': string, modules: seq<Named>, paths: seq<Path>, found: seq<Named>)
    requires DotFree(key) && DotFree(key') && WellFormed(EmptyNamed(key, key'))
    requires ModulesFor(EmptyNamed(key, key'), 0, "", true, modules, paths)
    requires ListsFirsts(EmptyNamed(key, key'), modules, found)
    ensures NamesDistinct(found) <==> key != key'
  {
    hide ModulesListed, ListsFirsts, Collide;
    var g := EmptyNamed(key, key');
    EmptyNamedIs(key, key');
    var a, b := EmptyNamedModules(key, key', modules, paths);
    ParameterNamesDistinctIff(g, modules, found);
    EmptyNamedFirsts(key, key', modules, a, b);
    if key == key' {
      if a < b {
        EmptyNamedCollide(key, modules, a, b);
        assert Collide(g, modules, a, 0, b, 0);
      } else {
        EmptyNamedCollide(key, modules, a, b);
        assert Collide(g, modules, b, 0, a, 0);
      }
    } else if Collision(g, modules) {
      var m: nat, i: nat, m': nat, i': nat :| Collide(g, modules, m, i, m', i');
      EmptyNamedApart(key, key', modules, a, b, m, i, m', i');
    }
  }

  lemma EmptyNamedFirsts(key: string, key': string, modules: seq<Named>, a: nat, b: nat)
    requires TwoModules(modules, a, b)
    ensures FirstAt(EmptyNamed(key, key'), modules, a, 0) && FirstAt(EmptyNamed(key, key'), modules, b, 0)
  {
    var g := EmptyNamed(key, key');
    forall j | 0 <= j < |modules|
      ensures ParamsOf(g, modules[j].1) == if j == a then [(key, Some(0))] else [(key', Some(1))]
    {
      assert j < a || j == a || a < j;
    }
    assert !HasParam([(key, Some(0))], 1, 1) && !HasParam([(key', Some(1))], 1, 0);
  }

  lemma EmptyNamedCollide(key: string, modules: seq<Named>, a: nat, b: nat)
    requires a < |modules| && b < |modules| && modules[a] == ("", 0) && modules[b] == ("", 1)
    requires FirstAt(EmptyNamed(key, key), modules, a, 0) && FirstAt(EmptyNamed(key, key), modules, b, 0)
    ensures if a < b then Collide(EmptyNamed(key, key), modules, a, 0, b, 0)
            else Collide(EmptyNamed(key, key), modules, b, 0, a, 0)
  {
  }

  lemma EmptyNamedApart(key: string, key': string, modules: seq<Named>, a: nat, b: nat, m: nat, i: nat, m': nat, i': nat)
    requires TwoModules(modules, a, b)
    requires Collide(EmptyNamed(key, key'), modules, m, i, m', i')
    ensures key == key'
  {
    hide NewAt, HasParam;
    assert m < |modules| && m' < |modules| && modules[m].1 != modules[m'].1;
  }
}
