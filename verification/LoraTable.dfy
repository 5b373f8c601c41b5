/** `LoraManager`: the adapter tables, uid generation and the buffers passed to the engine. */
module LoraTable {
  import opened Options
  import opened Decimal
  import opened LoraOutcomes
  import opened PipelineLayers
  import opened RankMapping
  import UniqueNames

  // ----- Generated uids -----

  /** Numbers whose numerals were handed out, oldest first. */
  predicate Issuable(issued: seq<nat>, counter: nat) {
    (forall i :: 0 <= i < |issued| ==> issued[i] < counter) &&
    forall i, j :: 0 <= i < j < |issued| ==> issued[i] < issued[j]
  }

  /** Over any run, generated uids are pairwise different. */
  lemma GeneratedDistinct(issued: seq<nat>, counter: nat, i: nat, j: nat)
    requires Issuable(issued, counter) && i < j < |issued|
    ensures Str(issued[i]) != Str(issued[j])
  {
    if Str(issued[i]) == Str(issued[j]) {
      StrInjective(issued[i], issued[j]);
    }
  }

  ghost function Numerals(a: nat, b: nat): set<string>
    requires a <= b
  {
    set n: nat | a <= n < b :: Str(n)
  }

  /** A table with k entries holds at most k consecutive numerals. */
  lemma {:induction false} NumeralsCount(a: nat, b: nat)
    requires a <= b
    ensures |Numerals(a, b)| == b - a
    decreases b
  {
    hide Str;
    if a == b {
      assert Numerals(a, b) == {};
    } else {
      NumeralsCount(a, b - 1);
      if Str(b - 1) in Numerals(a, b - 1) {
        var n :| a <= n < b - 1 && Str(n) == Str(b - 1);
        StrInjective(n, b - 1);
      }
      assert Numerals(a, b) == Numerals(a, b - 1) + {Str(b - 1)};
    }
  }

  lemma SubsetCount<T>(small: set<T>, big: set<T>)
    requires small <= big
    ensures |small| <= |big|
  {
    assert big == small + (big - small);
  }

  lemma RoomLeft(a: nat, b: nat, keys: set<string>)
    requires a <= b && forall n: nat :: a <= n < b ==> Str(n) in keys
    ensures b - a <= |keys|
  {
    hide Str;
    assert Numerals(a, b) <= keys;
    NumeralsCount(a, b);
    SubsetCount(Numerals(a, b), keys);
  }

  // ----- Rows for the C++ runtime -----

  datatype WeightRow = WeightRow(tensors: seq<Tensor>, width: nat)
  datatype ConfigRow = ConfigRow(moduleId: nat, layer: nat, rank: nat, dora: bool)

  /** A list being filled, or the tensor it is stacked into at the end of a load. */
  datatype Cpp<R> = Rows(rows: seq<R>) | Stacked(rows: seq<R>)

  function Size(tensors: seq<Tensor>): nat {
    if tensors == [] then 0 else Size(tensors[..|tensors| - 1]) + tensors[|tensors| - 1].size
  }

  function Widest(rows: seq<WeightRow>): nat {
    if rows == [] then 0
    else
      var k := |rows| - 1;
      if rows[k].width > Widest(rows[..k]) then rows[k].width else Widest(rows[..k])
  }

  function Padded(rows: seq<WeightRow>): seq<WeightRow> {
    seq(|rows|, i requires 0 <= i < |rows| => WeightRow(rows[i].tensors, Widest(rows)))
  }

  lemma {:induction false} WidestBounds(rows: seq<WeightRow>)
    ensures forall i :: 0 <= i < |rows| ==> rows[i].width <= Widest(rows)
    decreases |rows|
  {
    if rows != [] {
      WidestBounds(rows[..|rows| - 1]);
    }
  }

  /** A weight row and its configuration describe the same module. */
  predicate RowAgrees(w: WeightRow, c: ConfigRow) {
    |w.tensors| >= 2 && w.tensors[0].rank == c.rank && (c.dora <==> |w.tensors| == 3) && Size(w.tensors) <= w.width
  }

  predicate RowsAgree(ws: seq<WeightRow>, cs: seq<ConfigRow>) {
    |ws| == |cs| && forall i :: 0 <= i < |ws| ==> RowAgrees(ws[i], cs[i])
  }

  predicate SameWidth(rows: seq<WeightRow>) {
    forall i, j :: 0 <= i < j < |rows| ==> rows[i].width == rows[j].width
  }

  predicate CppAgrees(w: Cpp<WeightRow>, c: Cpp<ConfigRow>, loaded: bool) {
    if w.Stacked? then loaded && c.Stacked? && RowsAgree(w.rows, c.rows) && w.rows != [] && SameWidth(w.rows)
    else c.Rows? && (!loaded ==> w.rows == [] && c.rows == [])
  }

  lemma StackAgrees(ws: seq<WeightRow>, cs: seq<ConfigRow>)
    requires RowsAgree(ws, cs) && ws != []
    ensures CppAgrees(Stacked(Padded(ws)), Stacked(cs), true)
  {
    WidestBounds(ws);
    var padded := Padded(ws);
    forall i | 0 <= i < |padded| ensures RowAgrees(padded[i], cs[i]) {
      assert RowAgrees(ws[i], cs[i]);
    }
  }

  // ----- Whole loads -----

  type RankTable = map<string, map<nat, Ranks>>
  type PointerTable = map<string, map<nat, Pointers>>

  datatype Job = Job(uid: string, checkpoint: Checkpoint)

  /** The uids not loaded yet, each with its checkpoint. */
  function Pending(loaded: set<string>, uids: seq<string>, files: seq<Checkpoint>): (jobs: seq<Job>)
    requires |uids| == |files|
    ensures forall i :: 0 <= i < |jobs| ==> jobs[i].uid in uids && jobs[i].uid !in loaded
    decreases |uids|
  {
    if uids == [] then []
    else
      var k := |uids| - 1;
      Pending(loaded, uids[..k], files[..k]) + (if uids[k] in loaded then [] else [Job(uids[k], files[k])])
  }

  function Uids(jobs: seq<Job>): seq<string> {
    seq(|jobs|, i requires 0 <= i < |jobs| => jobs[i].uid)
  }

  function LayersOf(c: Checkpoint, ctx: Context): seq<LayerOutcomes> {
    match Outcomes(c, ctx)
    case None => []
    case Some(layers) => layers
  }

  function RanksAfter(table: RankTable, jobs: seq<Job>, ctx: Context): RankTable {
    if jobs == [] then table
    else
      var k := |jobs| - 1;
      RanksAfter(table, jobs[..k], ctx)[jobs[k].uid := AdapterRanks(LayersOf(jobs[k].checkpoint, ctx))]
  }

  function PointersAfter(table: PointerTable, jobs: seq<Job>, ctx: Context): PointerTable {
    if jobs == [] then table
    else
      var k := |jobs| - 1;
      PointersAfter(table, jobs[..k], ctx)[jobs[k].uid := AdapterPointers(LayersOf(jobs[k].checkpoint, ctx))]
  }

  /** A load adds its uids and leaves every other adapter as it was. */
  lemma {:induction false} AfterKeeps(ranks: RankTable, pointers: PointerTable, jobs: seq<Job>, ctx: Context, u: string)
    ensures u in RanksAfter(ranks, jobs, ctx) <==> u in ranks || u in Uids(jobs)
    ensures u in PointersAfter(pointers, jobs, ctx) <==> u in pointers || u in Uids(jobs)
    ensures u in ranks && u !in Uids(jobs) ==> RanksAfter(ranks, jobs, ctx)[u] == ranks[u]
    ensures u in pointers && u !in Uids(jobs) ==> PointersAfter(pointers, jobs, ctx)[u] == pointers[u]
    decreases |jobs|
  {
    hide AdapterRanks, AdapterPointers, LayersOf;
    if jobs != [] {
      var k := |jobs| - 1;
      AfterKeeps(ranks, pointers, jobs[..k], ctx, u);
      assert Uids(jobs) == Uids(jobs[..k]) + [jobs[k].uid];
    }
  }

  /** What a load records for a uid is what its last checkpoint holds, layer by layer. */
  lemma {:induction false} AfterRecords(ranks: RankTable, pointers: PointerTable, jobs: seq<Job>, ctx: Context, i: nat)
    requires i < |jobs| && forall j :: i < j < |jobs| ==> jobs[j].uid != jobs[i].uid
    ensures jobs[i].uid in RanksAfter(ranks, jobs, ctx) && jobs[i].uid in PointersAfter(pointers, jobs, ctx)
    ensures RanksAfter(ranks, jobs, ctx)[jobs[i].uid] == AdapterRanks(LayersOf(jobs[i].checkpoint, ctx))
    ensures PointersAfter(pointers, jobs, ctx)[jobs[i].uid] == AdapterPointers(LayersOf(jobs[i].checkpoint, ctx))
    decreases |jobs|
  {
    hide AdapterRanks, AdapterPointers, LayersOf;
    var k := |jobs| - 1;
    if i < k {
      AfterRecords(ranks, pointers, jobs[..k], ctx, i);
    }
  }

  /** Uids that are all new keep their places. */
  lemma {:induction false} AllPending(loaded: set<string>, uids: seq<string>, files: seq<Checkpoint>)
    requires |uids| == |files| && forall i :: 0 <= i < |uids| ==> uids[i] !in loaded
    ensures Uids(Pending(loaded, uids, files)) == uids
    decreases |uids|
  {
    if uids != [] {
      AllPending(loaded, uids[..|uids| - 1], files[..|uids| - 1]);
    }
  }

  function StrAll(ns: seq<nat>): seq<string> {
    seq(|ns|, i requires 0 <= i < |ns| => Str(ns[i]))
  }

  // ----- Nested dictionaries -----

  /** Assignment to `table[uid][layer]`. */
  function Nest<V>(table: map<string, map<nat, V>>, uid: string, layer: nat, v: V): map<string, map<nat, V>>
    requires uid in table
  {
    var layers: map<nat, V> := table[uid][layer := v];
    table[uid := layers]
  }

  /** Nothing but the entry of `uid` differs. */
  predicate OnlyAt<V(==)>(before: map<string, V>, now: map<string, V>, uid: string) {
    before - {uid} == now - {uid}
  }

  lemma OnlyAtJoins<V>(a: map<string, V>, b: map<string, V>, c: map<string, V>, uid: string)
    requires OnlyAt(a, b, uid) && OnlyAt(b, c, uid)
    ensures OnlyAt(a, c, uid)
  {
  }

  lemma OnlyAtUpdate<V>(a: map<string, V>, uid: string, v: V)
    ensures OnlyAt(a, a[uid := v], uid) && OnlyAt(a, a, uid)
  {
  }

  lemma NestOnlyAt<V>(table: map<string, map<nat, V>>, uid: string, layer: nat, v: V)
    requires uid in table
    ensures OnlyAt(table, Nest(table, uid, layer, v), uid) && Nest(table, uid, layer, v).Keys == table.Keys
  {
  }

  lemma NestTwice<V>(table: map<string, map<nat, V>>, uid: string, layer: nat, v: V, w: V)
    requires uid in table
    ensures Nest(Nest(table, uid, layer, v), uid, layer, w) == Nest(table, uid, layer, w)
  {
    assert table[uid][layer := v][layer := w] == table[uid][layer := w];
  }

  lemma NestAgrees(ranks: RankTable, pointers: PointerTable, uid: string, layer: nat, r: Ranks, p: Pointers, held: set<nat>)
    requires TablesAgree(ranks, pointers, held) && uid in ranks && LayerAgrees(r, p, held)
    ensures TablesAgree(Nest(ranks, uid, layer, r), Nest(pointers, uid, layer, p), held)
  {
    hide LayerAgrees;
    var ranks', pointers' := Nest(ranks, uid, layer, r), Nest(pointers, uid, layer, p);
    forall u | u in ranks' ensures AdapterAgrees(ranks'[u], pointers'[u], held) {
      assert AdapterAgrees(ranks[u], pointers[u], held);
    }
  }

  lemma RecordAgrees(ranks: RankTable, pointers: PointerTable, uid: string, layer: nat, o: Outcome, held: set<nat>)
    requires TablesAgree(ranks, pointers, held) && uid in ranks && layer in ranks[uid] && Held(Kept(o)) <= held
    ensures uid in pointers && layer in pointers[uid]
    ensures TablesAgree(
              Nest(ranks, uid, layer, RankStep(ranks[uid][layer], o)),
              Nest(pointers, uid, layer, PointerStep(pointers[uid][layer], o)), held)
  {
    assert AdapterAgrees(ranks[uid], pointers[uid], held);
    assert LayerAgrees(ranks[uid][layer], pointers[uid][layer], held);
    StepAgrees(ranks[uid][layer], pointers[uid][layer], o, held);
    NestAgrees(ranks, pointers, uid, layer, RankStep(ranks[uid][layer], o), PointerStep(pointers[uid][layer], o), held);
  }

  lemma SameNest<V>(table: map<string, map<nat, V>>, uid: string, layer: nat)
    requires uid in table && layer in table[uid]
    ensures Nest(table, uid, layer, table[uid][layer]) == table
  {
    assert table[uid][layer := table[uid][layer]] == table[uid];
  }

  lemma SameUids(ranks: RankTable, pointers: PointerTable, held: set<nat>)
    requires TablesAgree(ranks, pointers, held)
    ensures ranks.Keys == pointers.Keys
  {
  }

  lemma NoLayers()
    ensures AdapterRanks([]) == map[] && AdapterPointers([]) == map[]
  {
  }

  lemma NoOutcomes(open: bool)
    ensures RanksOf([]) == map[] && PointersOf([]) == map[] && AllRecordable([], open)
  {
  }

  /** Recording outcome i on top of the first i. */
  lemma OneMoreOutcome(ranks: RankTable, pointers: PointerTable, uid: string, layer: nat, outcomes: seq<Outcome>, i: nat)
    requires uid in ranks && uid in pointers && i < |outcomes|
    ensures var now := Nest(ranks, uid, layer, RanksOf(outcomes[..i]));
            uid in now && layer in now[uid] &&
            Nest(now, uid, layer, RankStep(now[uid][layer], outcomes[i])) ==
            Nest(ranks, uid, layer, RanksOf(outcomes[..i + 1]))
    ensures var now := Nest(pointers, uid, layer, PointersOf(outcomes[..i]));
            uid in now && layer in now[uid] &&
            Nest(now, uid, layer, PointerStep(now[uid][layer], outcomes[i])) ==
            Nest(pointers, uid, layer, PointersOf(outcomes[..i + 1]))
  {
    assert outcomes[..i + 1][..i] == outcomes[..i];
    NestTwice(ranks, uid, layer, RanksOf(outcomes[..i]), RanksOf(outcomes[..i + 1]));
    NestTwice(pointers, uid, layer, PointersOf(outcomes[..i]), PointersOf(outcomes[..i + 1]));
  }

  lemma OneMoreLayer(ranks: RankTable, pointers: PointerTable, uid: string, layers: seq<LayerOutcomes>, i: nat)
    requires i < |layers|
    ensures Nest(ranks[uid := AdapterRanks(layers[..i])], uid, layers[i].layer, RanksOf(layers[i].outcomes)) ==
            ranks[uid := AdapterRanks(layers[..i + 1])]
    ensures Nest(pointers[uid := AdapterPointers(layers[..i])], uid, layers[i].layer, PointersOf(layers[i].outcomes)) ==
            pointers[uid := AdapterPointers(layers[..i + 1])]
  {
    assert layers[..i + 1][..i] == layers[..i];
  }

  lemma EmptyAdapterAgrees(ranks: RankTable, pointers: PointerTable, uid: string, held: set<nat>)
    requires TablesAgree(ranks, pointers, held)
    ensures TablesAgree(ranks[uid := map[]], pointers[uid := map[]], held)
  {
    hide AdapterAgrees;
    assert AdapterAgrees(map[], map[], held) by {
      NothingAgrees(held);
    }
  }

  lemma NothingAgrees(held: set<nat>)
    ensures AdapterAgrees(map[], map[], held) && LayerAgrees(map[], map[], held)
  {
  }

  /** The rows collected so far match, unless the adapter was already stacked. */
  predicate Filling(w: Cpp<WeightRow>, c: Cpp<ConfigRow>) {
    w.Rows? ==> RowsAgree(w.rows, c.rows)
  }

  /** The two lists of one uid. */
  datatype CppLists = CppLists(weights: Cpp<WeightRow>, config: Cpp<ConfigRow>)

  datatype NewRows = NewRows(weights: seq<WeightRow>, config: seq<ConfigRow>)

  function Plus(a: NewRows, b: NewRows): NewRows {
    NewRows(a.weights + b.weights, a.config + b.config)
  }

  /** What a stored module hands to the C++ runtime: its tensors, and its id, layer, rank and whether it is DoRA. */
  function RowsFor(layer: nat, o: Outcome): NewRows {
    match o
    case Stored(name, tin, _, mag) =>
      NewRows([WeightRow(Kept(o), Size(Kept(o)))],
              [ConfigRow(if name in MODULE_IDS then MODULE_IDS[name] else 0, layer, tin.rank, mag.Some?)])
    case _ => NewRows([], [])
  }

  function LayerRows(layer: nat, outcomes: seq<Outcome>): NewRows {
    if outcomes == [] then NewRows([], [])
    else
      var k := |outcomes| - 1;
      Plus(LayerRows(layer, outcomes[..k]), RowsFor(layer, outcomes[k]))
  }

  function AdapterRows(layers: seq<LayerOutcomes>): NewRows {
    if layers == [] then NewRows([], [])
    else
      var k := |layers| - 1;
      Plus(AdapterRows(layers[..k]), LayerRows(layers[k].layer, layers[k].outcomes))
  }

  /** The rows were appended, unless the lists were stacked already. */
  predicate Grown(before: CppLists, now: CppLists, rows: NewRows) {
    if before.weights.Stacked? then now == before
    else now == CppLists(Rows(before.weights.rows + rows.weights), Rows(before.config.rows + rows.config))
  }

  function StackOf(rows: NewRows): CppLists {
    CppLists(Stacked(Padded(rows.weights)), Stacked(rows.config))
  }

  lemma GrownByNothing(lists: CppLists)
    requires lists.weights.Rows? ==> lists.config.Rows?
    ensures Grown(lists, lists, NewRows([], []))
  {
    assert lists.weights.rows + [] == lists.weights.rows && lists.config.rows + [] == lists.config.rows;
  }

  lemma GrownTwice(a: CppLists, b: CppLists, c: CppLists, r1: NewRows, r2: NewRows)
    requires Grown(a, b, r1) && Grown(b, c, r2)
    ensures Grown(a, c, Plus(r1, r2))
  {
    if a.weights.Rows? {
      assert a.weights.rows + r1.weights + r2.weights == a.weights.rows + (r1.weights + r2.weights);
      assert a.config.rows + r1.config + r2.config == a.config.rows + (r1.config + r2.config);
    }
  }

  lemma GrownByLayer(a: CppLists, b: CppLists, c: CppLists, layer: nat, outcomes: seq<Outcome>, i: nat)
    requires i < |outcomes| && Grown(a, b, LayerRows(layer, outcomes[..i])) && Grown(b, c, RowsFor(layer, outcomes[i]))
    ensures Grown(a, c, LayerRows(layer, outcomes[..i + 1]))
  {
    hide RowsFor, Grown, Plus;
    assert outcomes[..i + 1][..i] == outcomes[..i];
    GrownTwice(a, b, c, LayerRows(layer, outcomes[..i]), RowsFor(layer, outcomes[i]));
  }

  lemma GrownByAdapter(a: CppLists, b: CppLists, c: CppLists, layers: seq<LayerOutcomes>, i: nat)
    requires i < |layers| && Grown(a, b, AdapterRows(layers[..i]))
    requires Grown(b, c, LayerRows(layers[i].layer, layers[i].outcomes))
    ensures Grown(a, c, AdapterRows(layers[..i + 1]))
  {
    hide LayerRows, Grown, Plus;
    assert layers[..i + 1][..i] == layers[..i];
    GrownTwice(a, b, c, AdapterRows(layers[..i]), LayerRows(layers[i].layer, layers[i].outcomes));
  }

  lemma AppendedRowsAgree(a: NewRows, b: NewRows)
    requires RowsAgree(a.weights, a.config) && RowsAgree(b.weights, b.config)
    ensures RowsAgree(Plus(a, b).weights, Plus(a, b).config)
  {
    hide RowAgrees;
    var ws, cs := a.weights + b.weights, a.config + b.config;
    forall i | 0 <= i < |ws| ensures RowAgrees(ws[i], cs[i]) {
      if i < |a.weights| {
        assert RowAgrees(a.weights[i], a.config[i]);
      } else {
        assert RowAgrees(b.weights[i - |a.weights|], b.config[i - |a.weights|]);
      }
    }
  }

  lemma {:induction false} LayerRowsAgree(layer: nat, outcomes: seq<Outcome>)
    ensures RowsAgree(LayerRows(layer, outcomes).weights, LayerRows(layer, outcomes).config)
    decreases |outcomes|
  {
    if outcomes != [] {
      var k := |outcomes| - 1;
      LayerRowsAgree(layer, outcomes[..k]);
      AppendedRowsAgree(LayerRows(layer, outcomes[..k]), RowsFor(layer, outcomes[k]));
    }
  }

  /** The rows of an adapter: weights and configuration in step, each configuration describing its weights. */
  lemma {:induction false} AdapterRowsAgree(layers: seq<LayerOutcomes>)
    ensures RowsAgree(AdapterRows(layers).weights, AdapterRows(layers).config)
    decreases |layers|
  {
    hide RowsAgree, LayerRows, Plus;
    if layers == [] {
      NoRowsAgree();
    } else {
      var k := |layers| - 1;
      AdapterRowsAgree(layers[..k]);
      LayerRowsAgree(layers[k].layer, layers[k].outcomes);
      AppendedRowsAgree(AdapterRows(layers[..k]), LayerRows(layers[k].layer, layers[k].outcomes));
    }
  }

  lemma ListsMatch(w: Cpp<WeightRow>, c: Cpp<ConfigRow>, loaded: bool)
    requires CppAgrees(w, c, loaded)
    ensures w.Rows? <==> c.Rows?
  {
  }

  lemma NoRowsFor(layer: nat)
    ensures LayerRows(layer, []) == NewRows([], []) && AdapterRows([]) == NewRows([], [])
  {
  }

  lemma FreshLists(w: Cpp<WeightRow>, c: Cpp<ConfigRow>, loaded: bool)
    requires CppAgrees(w, c, loaded) && (loaded ==> w.Stacked?)
    ensures w.Rows? <==> !loaded
    ensures !loaded ==> w == Rows([]) && c == Rows([])
  {
  }

  /** After the layers, the lists are either the stacked ones of before or exactly the adapter's rows. */
  lemma ReadyToStack(before: CppLists, now: CppLists, layers: seq<LayerOutcomes>)
    requires before.weights.Rows? ==> before == CppLists(Rows([]), Rows([]))
    requires Grown(before, now, AdapterRows(layers))
    ensures Filling(now.weights, now.config)
    ensures before.weights.Rows? ==>
              now == CppLists(Rows(AdapterRows(layers).weights), Rows(AdapterRows(layers).config))
  {
    hide AdapterRows, RowsAgree;
    var rows := AdapterRows(layers);
    AdapterRowsAgree(layers);
    assert [] + rows.weights == rows.weights && [] + rows.config == rows.config;
  }

  lemma NoRowsAgree()
    ensures RowsAgree([], [])
  {
  }

  lemma NothingLoaded(ranks: RankTable, pointers: PointerTable, ctx: Context)
    ensures RanksAfter(ranks, [], ctx) == ranks && PointersAfter(pointers, [], ctx) == pointers
  {
  }

  /** Every adapter that was there is there, unchanged. */
  predicate Extends<V(==)>(before: map<string, V>, now: map<string, V>) {
    forall u :: u in before ==> u in now && now[u] == before[u]
  }

  lemma ExtendsElsewhere<V>(a: map<string, V>, b: map<string, V>, c: map<string, V>, uid: string)
    requires Extends(a, b) && OnlyAt(b, c, uid) && uid !in a
    ensures Extends(a, c)
  {
    forall u | u in a ensures u in c && c[u] == a[u] {
      assert u in b - {uid} && (b - {uid})[u] == a[u];
    }
  }

  /** What was stacked or collected for every loaded adapter is as it was. */
  predicate KeepsRows<V(==)>(loaded: set<string>, before: map<string, V>, now: map<string, V>) {
    forall u :: u in loaded ==> u in before && u in now && now[u] == before[u]
  }

  lemma KeepsElsewhere<V>(loaded: set<string>, a: map<string, V>, b: map<string, V>, c: map<string, V>, uid: string)
    requires KeepsRows(loaded, a, b) && OnlyAt(b, c, uid) && uid !in loaded
    ensures KeepsRows(loaded, a, c)
  {
    hide OnlyAt;
    forall u | u in loaded ensures u in a && u in c && c[u] == a[u] {
      Elsewhere(b, c, uid, u);
    }
  }

  lemma KeepsAll<V>(loaded: set<string>, a: map<string, V>)
    requires loaded <= a.Keys
    ensures KeepsRows(loaded, a, a)
  {
  }

  /** After the first i jobs the tables hold the old adapters unchanged, and the new ones. */
  lemma JobsDone(ranks: RankTable, pointers: PointerTable, jobs: seq<Job>, i: nat, ctx: Context)
    requires i <= |jobs| && ranks.Keys == pointers.Keys && forall j :: 0 <= j < |jobs| ==> jobs[j].uid !in ranks
    ensures Extends(ranks, RanksAfter(ranks, jobs[..i], ctx))
    ensures Extends(pointers, PointersAfter(pointers, jobs[..i], ctx))
    ensures forall u :: u in RanksAfter(ranks, jobs[..i], ctx) && u !in ranks ==>
              exists j :: 0 <= j < i && jobs[j].uid == u
  {
    hide RanksAfter, PointersAfter;
    var done := jobs[..i];
    var r, p := RanksAfter(ranks, done, ctx), PointersAfter(pointers, done, ctx);
    forall u: string
      ensures u in ranks ==> u in r && r[u] == ranks[u] && u in p && p[u] == pointers[u]
      ensures u in r && u !in ranks ==> exists j :: 0 <= j < i && jobs[j].uid == u
    {
      AfterKeeps(ranks, pointers, done, ctx, u);
      if u in Uids(done) {
        var j :| 0 <= j < |Uids(done)| && Uids(done)[j] == u;
        assert jobs[j].uid == u;
      }
    }
  }

  lemma OneMoreJob(ranks: RankTable, pointers: PointerTable, jobs: seq<Job>, i: nat, ctx: Context)
    requires i < |jobs|
    ensures RanksAfter(ranks, jobs[..i + 1], ctx) ==
            RanksAfter(ranks, jobs[..i], ctx)[jobs[i].uid := AdapterRanks(LayersOf(jobs[i].checkpoint, ctx))]
    ensures PointersAfter(pointers, jobs[..i + 1], ctx) ==
            PointersAfter(pointers, jobs[..i], ctx)[jobs[i].uid := AdapterPointers(LayersOf(jobs[i].checkpoint, ctx))]
  {
    hide AdapterRanks, AdapterPointers, LayersOf;
    assert jobs[..i + 1][..i] == jobs[..i];
  }

  /** No other job has the uid of job i. */
  predicate Once(jobs: seq<Job>, i: nat)
    requires i < |jobs|
  {
    forall j :: 0 <= j < |jobs| && j != i ==> jobs[j].uid != jobs[i].uid
  }

  /** The first n adapters are stacked, each of a uid of its own as exactly the rows of its checkpoint. */
  predicate JobsStacked(jobs: seq<Job>, n: nat, weights: map<string, Cpp<WeightRow>>, config: map<string, Cpp<ConfigRow>>,
                        ctx: Context)
    requires n <= |jobs|
  {
    forall i :: 0 <= i < n ==> JobStacked(jobs, i, weights, config, ctx)
  }

  predicate JobStacked(jobs: seq<Job>, i: nat, weights: map<string, Cpp<WeightRow>>, config: map<string, Cpp<ConfigRow>>,
                       ctx: Context)
    requires i < |jobs|
  {
    var u := jobs[i].uid;
    u in weights && weights[u].Stacked? && u in config &&
    (Once(jobs, i) ==> CppLists(weights[u], config[u]) == StackOf(AdapterRows(LayersOf(jobs[i].checkpoint, ctx))))
  }

  lemma StackedEarlier(jobs: seq<Job>, i: nat, weights: map<string, Cpp<WeightRow>>, config: map<string, Cpp<ConfigRow>>,
                       ctx: Context)
    requires i < |jobs| && JobsStacked(jobs, i, weights, config, ctx)
    requires exists j :: 0 <= j < i && jobs[j].uid == jobs[i].uid
    ensures !Once(jobs, i) && jobs[i].uid in weights && weights[jobs[i].uid].Stacked?
  {
    hide StackOf, AdapterRows, LayersOf;
    var j :| 0 <= j < i && jobs[j].uid == jobs[i].uid;
    assert JobStacked(jobs, j, weights, config, ctx);
  }

  lemma NoJobsStacked(jobs: seq<Job>, weights: map<string, Cpp<WeightRow>>, config: map<string, Cpp<ConfigRow>>,
                      ctx: Context)
    ensures JobsStacked(jobs, 0, weights, config, ctx)
  {
  }

  lemma JobsStackedNext(jobs: seq<Job>, i: nat, weights: map<string, Cpp<WeightRow>>, config: map<string, Cpp<ConfigRow>>,
                        weights': map<string, Cpp<WeightRow>>, config': map<string, Cpp<ConfigRow>>, ctx: Context)
    requires i < |jobs| && JobsStacked(jobs, i, weights, config, ctx)
    requires OnlyAt(weights, weights', jobs[i].uid) && OnlyAt(config, config', jobs[i].uid)
    requires JobStacked(jobs, i, weights', config', ctx)
    ensures JobsStacked(jobs, i + 1, weights', config', ctx)
  {
    hide StackOf, AdapterRows, LayersOf, OnlyAt;
    forall j | 0 <= j <= i ensures JobStacked(jobs, j, weights', config', ctx) {
      if j < i {
        assert JobStacked(jobs, j, weights, config, ctx);
        if jobs[j].uid != jobs[i].uid {
          Elsewhere(weights, weights', jobs[i].uid, jobs[j].uid);
          Elsewhere(config, config', jobs[i].uid, jobs[j].uid);
        }
      }
    }
  }

  lemma Elsewhere<V>(before: map<string, V>, now: map<string, V>, uid: string, u: string)
    requires OnlyAt(before, now, uid) && u != uid
    ensures u in before <==> u in now
    ensures u in before ==> before[u] == now[u]
  {
    assert u in before - {uid} <==> u in now - {uid};
    if u in before {
      assert (before - {uid})[u] == before[u];
    }
  }

  // ----- When a load succeeds -----

  /** The outcome is recorded without raising; `open` says that the uid's lists are not stacked yet. */
  predicate Recordable(o: Outcome, open: bool) {
    !o.Raised? && (o.Stored? ==> open && o.name in MODULE_IDS)
  }

  predicate AllRecordable(outcomes: seq<Outcome>, open: bool) {
    forall i :: 0 <= i < |outcomes| ==> Recordable(outcomes[i], open)
  }

  lemma OneMoreRecordable(outcomes: seq<Outcome>, i: nat, open: bool)
    requires i < |outcomes| && AllRecordable(outcomes[..i], open)
    ensures Recordable(outcomes[i], open) <==> AllRecordable(outcomes[..i + 1], open)
    ensures !Recordable(outcomes[i], open) ==> !AllRecordable(outcomes, open)
  {
    hide Recordable;
    forall j | 0 <= j < i ensures Recordable(outcomes[j], open) {
      assert outcomes[..i][j] == outcomes[j];
    }
    assert outcomes[..i + 1][i] == outcomes[i];
  }

  predicate AnyStored(outcomes: seq<Outcome>) {
    exists i :: 0 <= i < |outcomes| && outcomes[i].Stored?
  }

  /** Every outcome can be recorded, and new lists get at least one row. */
  predicate Loadable(layers: seq<LayerOutcomes>, open: bool) {
    (forall k :: 0 <= k < |layers| ==> AllRecordable(layers[k].outcomes, open)) &&
    (open ==> exists k :: 0 <= k < |layers| && AnyStored(layers[k].outcomes))
  }

  predicate LayersRecordable(layers: seq<LayerOutcomes>, n: nat, open: bool)
    requires n <= |layers|
  {
    forall k :: 0 <= k < n ==> AllRecordable(layers[k].outcomes, open)
  }

  lemma NothingToRecord(layers: seq<LayerOutcomes>, open: bool)
    ensures LayersRecordable(layers, 0, open)
  {
  }

  lemma MoreToRecord(layers: seq<LayerOutcomes>, i: nat, open: bool)
    requires i < |layers| && LayersRecordable(layers, i, open)
    ensures AllRecordable(layers[i].outcomes, open) ==> LayersRecordable(layers, i + 1, open)
    ensures !AllRecordable(layers[i].outcomes, open) ==> !LayersRecordable(layers, |layers|, open)
  {
    hide AllRecordable;
  }

  predicate FirstUse(jobs: seq<Job>, i: nat)
    requires i < |jobs|
  {
    forall j :: 0 <= j < i ==> jobs[j].uid != jobs[i].uid
  }

  /** The checkpoint can be read and recorded: one that follows another of its uid must have nothing to store. */
  predicate JobLoads(jobs: seq<Job>, i: nat, ctx: Context)
    requires i < |jobs|
  {
    Outcomes(jobs[i].checkpoint, ctx).Some? && Loadable(Outcomes(jobs[i].checkpoint, ctx).value, FirstUse(jobs, i))
  }

  lemma {:induction false} LayerHasRow(layer: nat, outcomes: seq<Outcome>)
    ensures LayerRows(layer, outcomes).weights != [] <==> AnyStored(outcomes)
    decreases |outcomes|
  {
    hide MODULE_IDS, Size;
    if outcomes != [] {
      var k := |outcomes| - 1;
      LayerHasRow(layer, outcomes[..k]);
      assert outcomes == outcomes[..k] + [outcomes[k]];
    }
  }

  lemma {:induction false} AdapterHasRow(layers: seq<LayerOutcomes>)
    ensures AdapterRows(layers).weights != [] <==> exists k :: 0 <= k < |layers| && AnyStored(layers[k].outcomes)
    decreases |layers|
  {
    hide LayerRows, AnyStored;
    if layers != [] {
      var n := |layers| - 1;
      AdapterHasRow(layers[..n]);
      LayerHasRow(layers[n].layer, layers[n].outcomes);
      assert layers == layers[..n] + [layers[n]];
    }
  }

  lemma LoadableIf(layers: seq<LayerOutcomes>, open: bool)
    ensures Loadable(layers, open) <==>
            LayersRecordable(layers, |layers|, open) && (open ==> AdapterRows(layers).weights != [])
  {
    hide AllRecordable, AnyStored;
    AdapterHasRow(layers);
  }

  lemma StackedHasRows(before: CppLists, now: CppLists, rows: NewRows, loaded: bool)
    requires Grown(before, now, rows) && CppAgrees(before.weights, before.config, loaded)
    ensures before.weights.Stacked? ==> now.weights.rows != []
  {
  }

  lemma StaysOpen(before: CppLists, now: CppLists, rows: NewRows)
    requires Grown(before, now, rows)
    ensures now.weights.Rows? <==> before.weights.Rows?
  {
  }

  /** A uid is loaded exactly when it was before or an earlier job has it. */
  lemma LoadedByNow(ranks: RankTable, pointers: PointerTable, jobs: seq<Job>, i: nat, ctx: Context)
    requires i < |jobs| && jobs[i].uid !in ranks
    ensures jobs[i].uid !in RanksAfter(ranks, jobs[..i], ctx) <==> FirstUse(jobs, i)
  {
    hide RanksAfter, PointersAfter;
    AfterKeeps(ranks, pointers, jobs[..i], ctx, jobs[i].uid);
    assert forall j :: 0 <= j < i ==> Uids(jobs[..i])[j] == jobs[j].uid;
  }

  // ----- Engine buffers -----

  datatype Buffer = RankBuffer(ranks: seq<nat>) | PointerBuffer(triples: seq<Triple>)

  function RankName(name: string, layer: nat): string {
    UniqueNames.Name("", name + "_lora_ranks", layer)
  }

  function PointerName(name: string, layer: nat): string {
    UniqueNames.Name("", name + "_lora_weights_pointers", layer)
  }

  /** Buffers of different modules or layers never share a name. */
  lemma BufferNamesDiffer(m1: string, l1: nat, m2: string, l2: nat)
    ensures RankName(m1, l1) == RankName(m2, l2) ==> m1 == m2 && l1 == l2
    ensures PointerName(m1, l1) == PointerName(m2, l2) ==> m1 == m2 && l1 == l2
    ensures RankName(m1, l1) != PointerName(m2, l2)
  {
    var ranks, pointers := "_lora_ranks", "_lora_weights_pointers";
    if RankName(m1, l1) == RankName(m2, l2) {
      UniqueNames.NameInjective("", m1 + ranks, l1, m2 + ranks, l2);
      SuffixInjective(m1, m2, ranks);
    }
    if PointerName(m1, l1) == PointerName(m2, l2) {
      UniqueNames.NameInjective("", m1 + pointers, l1, m2 + pointers, l2);
      SuffixInjective(m1, m2, pointers);
    }
    SuffixesDiffer(m1, m2);
    if RankName(m1, l1) == PointerName(m2, l2) {
      UniqueNames.NameInjective("", m1 + ranks, l1, m2 + pointers, l2);
    }
  }

  lemma SuffixesDiffer(a: string, b: string)
    ensures a + "_lora_ranks" != b + "_lora_weights_pointers"
  {
    var s, t := a + "_lora_ranks", b + "_lora_weights_pointers";
    assert s[|s| - 2] == 'k' && t[|t| - 2] == 'r';
  }

  lemma SuffixInjective(a: string, b: string, suffix: string)
    requires a + suffix == b + suffix
    ensures a == b
  {
    assert |a| == |b|;
    assert (a + suffix)[..|a|] == a && (b + suffix)[..|b|] == b;
  }

  /** The rank an engine sees for one adapter, layer and module: 0 for the uid "-1" and for anything not recorded. */
  function RankAt(ranks: RankTable, uid: string, layer: nat, name: string): nat {
    if uid != "-1" && uid in ranks && layer in ranks[uid] && name in ranks[uid][layer] then ranks[uid][layer][name] else 0
  }

  predicate HasTriple(pointers: PointerTable, uid: string, layer: nat, name: string) {
    uid in pointers && layer in pointers[uid] && name in pointers[uid][layer]
  }

  function TripleAt(ranks: RankTable, pointers: PointerTable, uid: string, layer: nat, name: string): Triple {
    if RankAt(ranks, uid, layer, name) != 0 && HasTriple(pointers, uid, layer, name) then pointers[uid][layer][name]
    else NO_POINTERS
  }

  /** A non-zero rank is never without its triple of kept tensors. */
  lemma RankHasTriple(ranks: RankTable, pointers: PointerTable, held: set<nat>, uid: string, layer: nat, name: string)
    requires TablesAgree(ranks, pointers, held) && RankAt(ranks, uid, layer, name) != 0
    ensures HasTriple(pointers, uid, layer, name) && TripleHeld(pointers[uid][layer][name], held)
  {
    assert AdapterAgrees(ranks[uid], pointers[uid], held);
    assert LayerAgrees(ranks[uid][layer], pointers[uid][layer], held);
  }

  predicate Known(ranks: RankTable, uid: string) {
    uid == "-1" || uid in ranks
  }

  /** Both buffers of a module and layer are there, with the entry of every uid in order. */
  predicate Written(buffers: map<string, Buffer>, ranks: RankTable, pointers: PointerTable, uids: seq<string>,
                    layer: nat, name: string)
  {
    RankName(name, layer) in buffers && PointerName(name, layer) in buffers &&
    buffers[RankName(name, layer)] == RankBuffer(RankColumn(ranks, uids, layer, name)) &&
    buffers[PointerName(name, layer)] == PointerBuffer(TripleColumn(ranks, pointers, uids, layer, name))
  }

  function RankColumn(ranks: RankTable, uids: seq<string>, layer: nat, name: string): seq<nat> {
    seq(|uids|, i requires 0 <= i < |uids| => RankAt(ranks, uids[i], layer, name))
  }

  function TripleColumn(ranks: RankTable, pointers: PointerTable, uids: seq<string>, layer: nat, name: string): seq<Triple> {
    seq(|uids|, i requires 0 <= i < |uids| => TripleAt(ranks, pointers, uids[i], layer, name))
  }

  function Write(buffers: map<string, Buffer>, ranks: RankTable, pointers: PointerTable, uids: seq<string>,
                 layer: nat, name: string): map<string, Buffer>
  {
    buffers[RankName(name, layer) := RankBuffer(RankColumn(ranks, uids, layer, name))]
           [PointerName(name, layer) := PointerBuffer(TripleColumn(ranks, pointers, uids, layer, name))]
  }

  lemma WriteKeeps(buffers: map<string, Buffer>, ranks: RankTable, pointers: PointerTable, uids: seq<string>,
                   layer: nat, name: string, l: nat, n: string)
    requires Written(buffers, ranks, pointers, uids, l, n) || (l == layer && n == name)
    ensures Written(Write(buffers, ranks, pointers, uids, layer, name), ranks, pointers, uids, l, n)
  {
    hide RankName, PointerName, RankColumn, TripleColumn;
    BufferNamesDiffer(n, l, name, layer);
    BufferNamesDiffer(name, layer, n, l);
  }

  class LoraManager {
    var uidCounter: nat
    var lowRanks: RankTable
    var pointers: PointerTable
    var weights: seq<Tensor>
    var cppWeights: map<string, Cpp<WeightRow>>
    var cppConfig: map<string, Cpp<ConfigRow>>
    var targetModules: seq<string>
    const setup: Setup
    ghost var issued: seq<nat>

    /** What a load depends on besides its checkpoint. */
    function Ctx(): Context
      reads `targetModules
    {
      Context(targetModules, setup)
    }

    ghost function ListsOf(uid: string): CppLists
      requires uid in cppWeights && uid in cppConfig
      reads this
    {
      CppLists(cppWeights[uid], cppConfig[uid])
    }

    ghost predicate Valid()
      reads this
    {
      TablesAgree(lowRanks, pointers, Held(weights)) &&
      lowRanks.Keys <= cppWeights.Keys && cppWeights.Keys == cppConfig.Keys &&
      (forall u :: u in cppWeights ==> CppAgrees(cppWeights[u], cppConfig[u], u in lowRanks)) &&
      Issuable(issued, uidCounter)
    }

    constructor (setup: Setup)
      ensures this.setup == setup
      ensures Valid() && lowRanks == map[] && pointers == map[] && issued == [] && targetModules == []
    {
      this.setup := setup;
      uidCounter, lowRanks, pointers, weights := 0, map[], map[], [];
      cppWeights, cppConfig, targetModules, issued := map[], map[], [], [];
    }

    /** `_generate_uid`: always returns, with a uid that is not loaded and was never generated before. */
    method GenerateUid() returns (uid: string)
      requires Valid()
      modifies `uidCounter, `issued
      ensures Valid()
      ensures uidCounter > old(uidCounter) && issued == old(issued) + [uidCounter - 1] && uid == Str(uidCounter - 1)
      ensures uid !in lowRanks && forall i :: 0 <= i < |old(issued)| ==> uid != Str(old(issued)[i])
      ensures forall n: nat :: old(uidCounter) <= n < uidCounter - 1 ==> Str(n) in lowRanks
    {
      hide Str, TablesAgree, CppAgrees, Numerals;
      ghost var start := uidCounter;
      while Str(uidCounter) in lowRanks
        invariant start <= uidCounter && issued == old(issued)
        invariant forall n: nat :: start <= n < uidCounter ==> Str(n) in lowRanks
        decreases |lowRanks.Keys| - (uidCounter - start)
      {
        RoomLeft(start, uidCounter + 1, lowRanks.Keys);
        uidCounter := uidCounter + 1;
      }
      uid := Str(uidCounter);
      issued := issued + [uidCounter];
      uidCounter := uidCounter + 1;
      forall i | 0 <= i < |old(issued)| ensures uid != Str(old(issued)[i]) {
        GeneratedDistinct(issued, uidCounter, i, |issued| - 1);
      }
    }

    /** The body of the module loop: rank, pointers, kept tensors and the rows for the C++ runtime. */
    method Record(uid: string, layer: nat, o: Outcome) returns (ok: bool)
      requires Valid() && uid in lowRanks && layer in lowRanks[uid]
      modifies `lowRanks, `pointers, `weights, `cppWeights, `cppConfig
      ensures Valid()
      ensures lowRanks == Nest(old(lowRanks), uid, layer, RankStep(old(lowRanks)[uid][layer], o))
      ensures pointers == Nest(old(pointers), uid, layer, PointerStep(old(pointers)[uid][layer], o))
      ensures weights == old(weights) + Kept(o)
      ensures cppWeights.Keys == old(cppWeights).Keys
      ensures OnlyAt(old(cppWeights), cppWeights, uid) && OnlyAt(old(cppConfig), cppConfig, uid)
      ensures ok <==> Recordable(o, old(cppWeights)[uid].Rows?)
      ensures ok ==> Grown(old(ListsOf(uid)), ListsOf(uid), RowsFor(layer, o))
    {
      hide TablesAgree, LayerAgrees, RowsAgree, OnlyAt, Nest, CppAgrees, Issuable, Grown, MODULE_IDS;
      assert cppWeights[uid].Rows? ==> cppConfig[uid].Rows? by {
        ListsMatch(cppWeights[uid], cppConfig[uid], uid in lowRanks);
      }
      GrownByNothing(ListsOf(uid));
      OnlyAtUpdate(cppWeights, uid, cppWeights[uid]);
      OnlyAtUpdate(cppConfig, uid, cppConfig[uid]);
      NestOnlyAt(lowRanks, uid, layer, RankStep(lowRanks[uid][layer], o));
      ghost var held := Held(weights + Kept(o));
      assert TablesAgree(lowRanks, pointers, held) && Held(Kept(o)) <= held by {
        HeldGrows(weights, Kept(o));
        TablesGrow(lowRanks, pointers, Held(weights), held);
      }
      RecordAgrees(lowRanks, pointers, uid, layer, o, held);
      match o {
        case Raised =>
          assert weights + Kept(o) == weights;
          SameNest(lowRanks, uid, layer);
          SameNest(pointers, uid, layer);
          return false;
        case Skipped(name) =>
          assert weights + Kept(o) == weights;
          SameNest(pointers, uid, layer);
          var ranks: Ranks := lowRanks[uid][layer][name := 0];
          lowRanks := Nest(lowRanks, uid, layer, ranks);
          return true;
        case Stored(name, tin, tout, mag) =>
          var ranks: Ranks := lowRanks[uid][layer][name := tin.rank];
          lowRanks := Nest(lowRanks, uid, layer, ranks);
          pointers := Nest(pointers, uid, layer, PointerStep(pointers[uid][layer], o));
          weights := weights + Kept(o);
          ok := AppendRows(uid, layer, o);
      }
    }

    /** Both appends; the list is already a tensor when the uid was loaded twice in one call. */
    method AppendRows(uid: string, layer: nat, o: Outcome) returns (ok: bool)
      requires Valid() && uid in lowRanks && o.Stored?
      modifies `cppWeights, `cppConfig
      ensures Valid()
      ensures cppWeights.Keys == old(cppWeights).Keys
      ensures OnlyAt(old(cppWeights), cppWeights, uid) && OnlyAt(old(cppConfig), cppConfig, uid)
      ensures ok <==> o.name in MODULE_IDS && old(cppWeights)[uid].Rows?
      ensures ok ==> Grown(old(ListsOf(uid)), ListsOf(uid), RowsFor(layer, o))
    {
      hide TablesAgree, MODULE_IDS, Issuable, OnlyAt, Size, Kept;
      OnlyAtUpdate(cppWeights, uid, cppWeights[uid]);
      OnlyAtUpdate(cppConfig, uid, cppConfig[uid]);
      if cppWeights[uid].Stacked? {
        return false;
      }
      var w, c := cppWeights[uid].rows, cppConfig[uid].rows;
      var row := WeightRow(Kept(o), Size(Kept(o)));
      OnlyAtUpdate(cppWeights, uid, Rows(w + [row]));
      cppWeights := cppWeights[uid := Rows(w + [row])];
      if o.name !in MODULE_IDS {
        return false;
      }
      var config := ConfigRow(MODULE_IDS[o.name], layer, o.tin.rank, o.magnitude.Some?);
      OnlyAtUpdate(cppConfig, uid, Rows(c + [config]));
      cppConfig := cppConfig[uid := Rows(c + [config])];
      return true;
    }

    method StartLayer(uid: string, layer: nat)
      requires Valid() && uid in lowRanks
      modifies `lowRanks, `pointers
      ensures Valid() && uid in old(pointers) && uid in lowRanks
      ensures lowRanks == Nest(old(lowRanks), uid, layer, map[]) && pointers == Nest(old(pointers), uid, layer, map[])
    {
      hide TablesAgree, CppAgrees, OnlyAt, Nest, Issuable;
      SameUids(lowRanks, pointers, Held(weights));
      NothingAgrees(Held(weights));
      NestAgrees(lowRanks, pointers, uid, layer, map[], map[], Held(weights));
      NestOnlyAt(lowRanks, uid, layer, map[]);
      lowRanks := Nest(lowRanks, uid, layer, map[]);
      pointers := Nest(pointers, uid, layer, map[]);
    }

    /** One layer: both dictionaries are emptied, then every module is recorded in turn. */
    method LoadLayer(uid: string, l: LayerOutcomes) returns (ok: bool)
      requires Valid() && uid in lowRanks
      modifies `lowRanks, `pointers, `weights, `cppWeights, `cppConfig
      ensures Valid() && uid in lowRanks && uid in pointers && uid in old(pointers)
      ensures OnlyAt(old(lowRanks), lowRanks, uid) && OnlyAt(old(pointers), pointers, uid)
      ensures ok ==> lowRanks == Nest(old(lowRanks), uid, l.layer, RanksOf(l.outcomes))
      ensures ok ==> pointers == Nest(old(pointers), uid, l.layer, PointersOf(l.outcomes))
      ensures cppWeights.Keys == old(cppWeights).Keys
      ensures OnlyAt(old(cppWeights), cppWeights, uid) && OnlyAt(old(cppConfig), cppConfig, uid)
      ensures ok <==> AllRecordable(l.outcomes, old(cppWeights)[uid].Rows?)
      ensures ok ==> Grown(old(ListsOf(uid)), ListsOf(uid), LayerRows(l.layer, l.outcomes))
    {
      hide TablesAgree, CppAgrees, OnlyAt, Nest, RanksOf, PointersOf, Issuable, Grown, LayerRows, RowsFor,
        Recordable, AllRecordable, Kept, RankStep, PointerStep, MODULE_IDS;
      ListsMatch(cppWeights[uid], cppConfig[uid], uid in lowRanks);
      GrownByNothing(ListsOf(uid));
      NoRowsFor(l.layer);
      ghost var lists0 := ListsOf(uid);
      ghost var ranks0, pointers0, weights0, config0 := lowRanks, pointers, cppWeights, cppConfig;
      var outcomes := l.outcomes;
      OnlyAtUpdate(cppWeights, uid, cppWeights[uid]);
      OnlyAtUpdate(cppConfig, uid, cppConfig[uid]);
      StartLayer(uid, l.layer);
      NoOutcomes(lists0.weights.Rows?);
      assert outcomes[..0] == [];
      var i := 0;
      while i < |outcomes|
        invariant i <= |outcomes| && Valid() && uid in lowRanks
        invariant lowRanks == Nest(ranks0, uid, l.layer, RanksOf(outcomes[..i]))
        invariant pointers == Nest(pointers0, uid, l.layer, PointersOf(outcomes[..i]))
        invariant cppWeights.Keys == old(cppWeights).Keys
        invariant OnlyAt(weights0, cppWeights, uid) && OnlyAt(config0, cppConfig, uid)
        invariant Grown(lists0, ListsOf(uid), LayerRows(l.layer, outcomes[..i]))
        invariant AllRecordable(outcomes[..i], lists0.weights.Rows?)
      {
        StaysOpen(lists0, ListsOf(uid), LayerRows(l.layer, outcomes[..i]));
        ghost var w, c, lists := cppWeights, cppConfig, ListsOf(uid);
        OneMoreOutcome(ranks0, pointers0, uid, l.layer, outcomes, i);
        OneMoreRecordable(outcomes, i, lists0.weights.Rows?);
        ok := Record(uid, l.layer, outcomes[i]);
        if ok {
          GrownByLayer(lists0, lists, ListsOf(uid), l.layer, outcomes, i);
        }
        OnlyAtJoins(weights0, w, cppWeights, uid);
        OnlyAtJoins(config0, c, cppConfig, uid);
        NestOnlyAt(ranks0, uid, l.layer, RanksOf(outcomes[..i + 1]));
        NestOnlyAt(pointers0, uid, l.layer, PointersOf(outcomes[..i + 1]));
        if !ok {
          return;
        }
        i := i + 1;
      }
      assert outcomes[..i] == outcomes;
      NestOnlyAt(ranks0, uid, l.layer, RanksOf(outcomes));
      NestOnlyAt(pointers0, uid, l.layer, PointersOf(outcomes));
      ok := true;
    }

    /** `load_from_model_file` and `load_from_model_dir`. */
    method LoadAdapter(job: Job) returns (ok: bool)
      requires Valid() && (job.uid in lowRanks ==> cppWeights[job.uid].Stacked?)
      modifies `lowRanks, `pointers, `weights, `cppWeights, `cppConfig
      ensures Valid()
      ensures OnlyAt(old(lowRanks), lowRanks, job.uid) && OnlyAt(old(pointers), pointers, job.uid)
      ensures ok ==> lowRanks == old(lowRanks)[job.uid := AdapterRanks(LayersOf(job.checkpoint, Ctx()))]
      ensures ok ==> pointers == old(pointers)[job.uid := AdapterPointers(LayersOf(job.checkpoint, Ctx()))]
      ensures OnlyAt(old(cppWeights), cppWeights, job.uid) && OnlyAt(old(cppConfig), cppConfig, job.uid)
      ensures ok ==> job.uid in cppWeights && cppWeights[job.uid].Stacked?
      ensures ok && job.uid !in old(lowRanks) ==>
                ListsOf(job.uid) == StackOf(AdapterRows(LayersOf(job.checkpoint, Ctx())))
      ensures ok <==> Outcomes(job.checkpoint, Ctx()).Some? &&
                      Loadable(Outcomes(job.checkpoint, Ctx()).value, job.uid !in old(lowRanks))
    {
      hide TablesAgree, Outcomes, StackOf, AdapterRows, Loadable;
      var uid := job.uid;
      if uid !in cppWeights {
        cppWeights := cppWeights[uid := Rows([])];
        cppConfig := cppConfig[uid := Rows([])];
      }
      if Outcomes(job.checkpoint, Ctx()).None? {
        return false;
      }
      var layers := Outcomes(job.checkpoint, Ctx()).value;
      ok := LoadLayers(uid, layers);
    }

    /** The layer loop, on an adapter without layers. */
    method EachLayer(uid: string, layers: seq<LayerOutcomes>, ghost ranks0: RankTable, ghost pointers0: PointerTable)
      returns (ok: bool)
      requires Valid() && lowRanks == ranks0[uid := map[]] && pointers == pointers0[uid := map[]]
      modifies `lowRanks, `pointers, `weights, `cppWeights, `cppConfig
      ensures Valid() && uid in lowRanks && cppWeights.Keys == old(cppWeights).Keys
      ensures OnlyAt(ranks0, lowRanks, uid) && OnlyAt(pointers0, pointers, uid)
      ensures ok ==> lowRanks == ranks0[uid := AdapterRanks(layers)]
      ensures ok ==> pointers == pointers0[uid := AdapterPointers(layers)]
      ensures OnlyAt(old(cppWeights), cppWeights, uid) && OnlyAt(old(cppConfig), cppConfig, uid)
      ensures ok <==> LayersRecordable(layers, |layers|, old(cppWeights)[uid].Rows?)
      ensures ok ==> Grown(old(ListsOf(uid)), ListsOf(uid), AdapterRows(layers))
    {
      hide LayersRecordable, AllRecordable, TablesAgree, RowsAgree, RanksOf, PointersOf, OnlyAt, Nest, AdapterRanks,
        AdapterPointers, Issuable, Grown, LayerRows, AdapterRows, CppAgrees;
      ListsMatch(cppWeights[uid], cppConfig[uid], uid in lowRanks);
      GrownByNothing(ListsOf(uid));
      NoRowsFor(0);
      NoLayers();
      ghost var lists0, weights0, config0 := ListsOf(uid), cppWeights, cppConfig;
      OnlyAtUpdate(cppWeights, uid, cppWeights[uid]);
      OnlyAtUpdate(cppConfig, uid, cppConfig[uid]);
      assert layers[..0] == [];
      NothingToRecord(layers, lists0.weights.Rows?);
      var i := 0;
      while i < |layers|
        invariant i <= |layers| && Valid()
        invariant lowRanks == ranks0[uid := AdapterRanks(layers[..i])]
        invariant pointers == pointers0[uid := AdapterPointers(layers[..i])]
        invariant cppWeights.Keys == old(cppWeights).Keys
        invariant OnlyAt(weights0, cppWeights, uid) && OnlyAt(config0, cppConfig, uid)
        invariant Grown(lists0, ListsOf(uid), AdapterRows(layers[..i]))
        invariant LayersRecordable(layers, i, lists0.weights.Rows?)
      {
        ghost var r, p, w, c, lists := lowRanks, pointers, cppWeights, cppConfig, ListsOf(uid);
        StaysOpen(lists0, lists, AdapterRows(layers[..i]));
        OnlyAtUpdate(ranks0, uid, AdapterRanks(layers[..i]));
        OnlyAtUpdate(pointers0, uid, AdapterPointers(layers[..i]));
        OneMoreLayer(ranks0, pointers0, uid, layers, i);
        MoreToRecord(layers, i, lists0.weights.Rows?);
        ok := LoadLayer(uid, layers[i]);
        OnlyAtJoins(weights0, w, cppWeights, uid);
        OnlyAtJoins(config0, c, cppConfig, uid);
        OnlyAtJoins(ranks0, r, lowRanks, uid);
        OnlyAtJoins(pointers0, p, pointers, uid);
        if !ok {
          return;
        }
        GrownByAdapter(lists0, lists, ListsOf(uid), layers, i);
        i := i + 1;
      }
      assert layers[..i] == layers;
      OnlyAtUpdate(ranks0, uid, AdapterRanks(layers));
      OnlyAtUpdate(pointers0, uid, AdapterPointers(layers));
      ok := true;
    }

    /** Every layer in turn, then the collected rows are padded to one width and stacked. */
    method LoadLayers(uid: string, layers: seq<LayerOutcomes>) returns (ok: bool)
      requires Valid() && uid in cppWeights && (uid in lowRanks ==> cppWeights[uid].Stacked?)
      modifies `lowRanks, `pointers, `weights, `cppWeights, `cppConfig
      ensures Valid()
      ensures OnlyAt(old(lowRanks), lowRanks, uid) && OnlyAt(old(pointers), pointers, uid)
      ensures ok ==> lowRanks == old(lowRanks)[uid := AdapterRanks(layers)]
      ensures ok ==> pointers == old(pointers)[uid := AdapterPointers(layers)]
      ensures OnlyAt(old(cppWeights), cppWeights, uid) && OnlyAt(old(cppConfig), cppConfig, uid)
      ensures ok ==> uid in cppWeights && cppWeights[uid].Stacked?
      ensures ok && uid !in old(lowRanks) ==> ListsOf(uid) == StackOf(AdapterRows(layers))
      ensures ok <==> Loadable(layers, uid !in old(lowRanks))
    {
      hide LayersRecordable, AllRecordable, AnyStored, TablesAgree, RowsAgree, OnlyAt, AdapterRanks, AdapterPointers,
        Issuable, Grown, AdapterRows, Padded;
      ghost var lists0 := ListsOf(uid);
      ghost var ranks0, pointers0, weights0, config0 := lowRanks, pointers, cppWeights, cppConfig;
      EmptyAdapterAgrees(lowRanks, pointers, uid, Held(weights));
      FreshLists(cppWeights[uid], cppConfig[uid], uid in lowRanks);
      lowRanks := lowRanks[uid := map[]];
      pointers := pointers[uid := map[]];
      ok := EachLayer(uid, layers, ranks0, pointers0);
      LoadableIf(layers, lists0.weights.Rows?);
      if !ok {
        return;
      }
      ReadyToStack(lists0, ListsOf(uid), layers);
      StackedHasRows(lists0, ListsOf(uid), AdapterRows(layers), uid in ranks0);
      ghost var w, c := cppWeights, cppConfig;
      ok := StackRows(uid);
      OnlyAtJoins(weights0, w, cppWeights, uid);
      OnlyAtJoins(config0, c, cppConfig, uid);
    }

    method StackRows(uid: string) returns (ok: bool)
      requires Valid() && uid in lowRanks && Filling(cppWeights[uid], cppConfig[uid])
      modifies `cppWeights, `cppConfig
      ensures Valid() && cppWeights.Keys == old(cppWeights).Keys
      ensures OnlyAt(old(cppWeights), cppWeights, uid) && OnlyAt(old(cppConfig), cppConfig, uid)
      ensures ok <==> old(cppWeights)[uid].rows != []
      ensures ok ==> ListsOf(uid) == StackOf(NewRows(old(cppWeights)[uid].rows, old(cppConfig)[uid].rows))
    {
      hide TablesAgree, RowsAgree;
      var w, c := cppWeights[uid].rows, cppConfig[uid].rows;
      if w == [] {
        return false;
      }
      StackAgrees(w, c);
      cppWeights := cppWeights[uid := Stacked(Padded(w))];
      cppConfig := cppConfig[uid := Stacked(c)];
      return true;
    }

    method GenerateUids(n: nat) returns (uids: seq<string>)
      requires Valid()
      modifies `uidCounter, `issued
      ensures Valid() && |issued| == |old(issued)| + n && old(issued) <= issued
      ensures uids == StrAll(issued[|old(issued)|..])
      ensures forall i :: 0 <= i < |uids| ==> uids[i] !in lowRanks
    {
      hide Str, TablesAgree, CppAgrees, Issuable;
      uids := [];
      while |uids| < n
        invariant |uids| <= n && Valid() && |issued| == |old(issued)| + |uids| && old(issued) <= issued
        invariant uids == StrAll(issued[|old(issued)|..])
        invariant forall i :: 0 <= i < |uids| ==> uids[i] !in lowRanks
      {
        var uid := GenerateUid();
        uids := uids + [uid];
      }
    }

    ghost predicate AllStacked(jobs: seq<Job>, n: nat)
      requires n <= |jobs|
      reads this
    {
      JobsStacked(jobs, n, cppWeights, cppConfig, Ctx())
    }

    /** The adapters one after another; a failure leaves what was recorded until then. */
    method RunJobs(jobs: seq<Job>) returns (ok: bool)
      requires Valid() && forall i :: 0 <= i < |jobs| ==> jobs[i].uid !in lowRanks
      modifies `lowRanks, `pointers, `weights, `cppWeights, `cppConfig
      ensures Valid() && Extends(old(lowRanks), lowRanks) && Extends(old(pointers), pointers)
      ensures KeepsRows(old(lowRanks.Keys), old(cppWeights), cppWeights)
      ensures KeepsRows(old(lowRanks.Keys), old(cppConfig), cppConfig)
      ensures ok ==> lowRanks == RanksAfter(old(lowRanks), jobs, Ctx())
      ensures ok ==> pointers == PointersAfter(old(pointers), jobs, Ctx())
      ensures ok ==> AllStacked(jobs, |jobs|)
      ensures ok <==> forall i :: 0 <= i < |jobs| ==> JobLoads(jobs, i, Ctx())
    {
      hide TablesAgree, AdapterRanks, AdapterPointers, LayersOf, CppAgrees, RanksAfter, PointersAfter, Extends, Issuable,
        OnlyAt, StackOf, AdapterRows, JobsStacked, KeepsRows, Loadable, Outcomes, FirstUse;
      SameUids(lowRanks, pointers, Held(weights));
      NothingLoaded(lowRanks, pointers, Ctx());
      ghost var ranks0, pointers0, weights0, config0 := lowRanks, pointers, cppWeights, cppConfig;
      KeepsAll(ranks0.Keys, cppWeights);
      KeepsAll(ranks0.Keys, cppConfig);
      NoJobsStacked(jobs, cppWeights, cppConfig, Ctx());
      assert jobs[..0] == [];
      var i := 0;
      while i < |jobs|
        invariant i <= |jobs| && Valid()
        invariant lowRanks == RanksAfter(ranks0, jobs[..i], Ctx())
        invariant pointers == PointersAfter(pointers0, jobs[..i], Ctx())
        invariant AllStacked(jobs, i) && forall j :: 0 <= j < i ==> JobLoads(jobs, j, Ctx())
        invariant KeepsRows(ranks0.Keys, weights0, cppWeights) && KeepsRows(ranks0.Keys, config0, cppConfig)
      {
        ghost var r, p, w, c := lowRanks, pointers, cppWeights, cppConfig;
        JobsDone(ranks0, pointers0, jobs, i, Ctx());
        OneMoreJob(ranks0, pointers0, jobs, i, Ctx());
        LoadedByNow(ranks0, pointers0, jobs, i, Ctx());
        if jobs[i].uid in lowRanks {
          StackedEarlier(jobs, i, w, c, Ctx());
        }
        ok := LoadAdapter(jobs[i]);
        ExtendsElsewhere(ranks0, r, lowRanks, jobs[i].uid);
        ExtendsElsewhere(pointers0, p, pointers, jobs[i].uid);
        KeepsElsewhere(ranks0.Keys, weights0, w, cppWeights, jobs[i].uid);
        KeepsElsewhere(ranks0.Keys, config0, c, cppConfig, jobs[i].uid);
        if !ok {
          assert !JobLoads(jobs, i, Ctx());
          return;
        }
        JobsStackedNext(jobs, i, w, c, cppWeights, cppConfig, Ctx());
        i := i + 1;
      }
      assert jobs[..i] == jobs;
      JobsDone(ranks0, pointers0, jobs, i, Ctx());
      ok := true;
    }

    /** `load_from_nemo` and `load_from_hf`: the uids that were loaded, or `None` when the call raises. */
    method LoadFromCkpt(files: seq<Checkpoint>, uids: Option<seq<string>>, targets: seq<string>)
      returns (loaded: Option<seq<string>>)
      requires Valid()
      modifies this
      ensures Valid() && old(issued) <= issued
      ensures Extends(old(lowRanks), lowRanks) && Extends(old(pointers), pointers)
      ensures KeepsRows(old(lowRanks.Keys), old(cppWeights), cppWeights)
      ensures KeepsRows(old(lowRanks.Keys), old(cppConfig), cppConfig)
      ensures var ids := if uids.Some? then uids.value else StrAll(issued[|old(issued)|..]);
              loaded.Some? <==>
                |ids| == |files| &&
                var jobs := Pending(old(lowRanks).Keys, ids, files);
                forall i :: 0 <= i < |jobs| ==> JobLoads(jobs, i, Context(targets, setup))
      ensures loaded.Some? ==>
                var ids := if uids.Some? then uids.value else StrAll(issued[|old(issued)|..]);
                |ids| == |files| &&
                var jobs := Pending(old(lowRanks).Keys, ids, files);
                loaded.value == Uids(jobs) &&
                (uids.None? ==> loaded.value == ids) &&
                lowRanks == RanksAfter(old(lowRanks), jobs, Context(targets, setup)) &&
                pointers == PointersAfter(old(pointers), jobs, Context(targets, setup)) &&
                AllStacked(jobs, |jobs|)
      ensures uids.Some? ==> issued == old(issued)
    {
      hide TablesAgree, CppAgrees, RanksAfter, PointersAfter, Issuable, JobLoads, JobStacked;
      var ids;
      if uids.None? {
        ids := GenerateUids(|files|);
      } else {
        ids := uids.value;
      }
      if |ids| != |files| {
        return None;
      }
      if uids.None? {
        AllPending(lowRanks.Keys, ids, files);
      }
      var jobs := FindPending(ids, files);
      if jobs == [] {
        NothingLoaded(lowRanks, pointers, Context(targets, setup));
        return Some([]);
      }
      targetModules := targets;
      var ok := RunJobs(jobs);
      if !ok {
        return None;
      }
      loaded := Some(Uids(jobs));
    }

    method FindPending(uids: seq<string>, files: seq<Checkpoint>) returns (jobs: seq<Job>)
      requires |uids| == |files|
      ensures jobs == Pending(lowRanks.Keys, uids, files)
    {
      jobs := [];
      var i := 0;
      while i < |uids|
        invariant i <= |uids| && jobs == Pending(lowRanks.Keys, uids[..i], files[..i])
      {
        assert uids[..i + 1][..i] == uids[..i] && files[..i + 1][..i] == files[..i];
        if uids[i] !in lowRanks {
          jobs := jobs + [Job(uids[i], files[i])];
        }
        i := i + 1;
      }
      assert uids[..i] == uids && files[..i] == files;
    }

    /** The entries of one module and layer; `ok` is false when some uid is not in the table. */
    method Columns(uids: seq<string>, layer: nat, name: string)
      returns (ok: bool, ranks: seq<nat>, triples: seq<Triple>)
      requires Valid()
      ensures ok <==> forall i :: 0 <= i < |uids| ==> Known(lowRanks, uids[i])
      ensures ok ==> ranks == RankColumn(lowRanks, uids, layer, name)
      ensures ok ==> triples == TripleColumn(lowRanks, pointers, uids, layer, name)
    {
      hide TablesAgree, CppAgrees;
      ranks, triples := [], [];
      var i := 0;
      while i < |uids|
        invariant i <= |uids| && forall j :: 0 <= j < i ==> Known(lowRanks, uids[j])
        invariant ranks == RankColumn(lowRanks, uids[..i], layer, name)
        invariant triples == TripleColumn(lowRanks, pointers, uids[..i], layer, name)
      {
        var uid, rank, triple := uids[i], 0, NO_POINTERS;
        if uid != "-1" {
          if uid !in lowRanks {
            return false, [], [];
          }
          var ofUid := lowRanks[uid];
          if layer in ofUid && name in ofUid[layer] && ofUid[layer][name] != 0 {
            RankHasTriple(lowRanks, pointers, Held(weights), uid, layer, name);
            rank := ofUid[layer][name];
            triple := pointers[uid][layer][name];
          }
        }
        ranks, triples := ranks + [rank], triples + [triple];
        i := i + 1;
      }
      assert uids[..i] == uids;
      ok := true;
    }

    /** The inner loop of `input_buffers`, over the modules of one layer. */
    method WriteLayer(buffers: map<string, Buffer>, uids: seq<string>, layer: nat, modules: seq<string>)
      returns (r: Option<map<string, Buffer>>)
      requires Valid()
      ensures r.Some? <==> modules == [] || forall i :: 0 <= i < |uids| ==> Known(lowRanks, uids[i])
      ensures r.Some? ==> forall n :: n in modules ==> Written(r.value, lowRanks, pointers, uids, layer, n)
      ensures r.Some? ==> forall l: nat, n :: Written(buffers, lowRanks, pointers, uids, l, n) ==>
                            Written(r.value, lowRanks, pointers, uids, l, n)
    {
      hide TablesAgree, CppAgrees, Written, RankColumn, TripleColumn;
      var b := buffers;
      var i := 0;
      while i < |modules|
        invariant i <= |modules| && (i == 0 || forall j :: 0 <= j < |uids| ==> Known(lowRanks, uids[j]))
        invariant forall j :: 0 <= j < i ==> Written(b, lowRanks, pointers, uids, layer, modules[j])
        invariant forall l: nat, n :: Written(buffers, lowRanks, pointers, uids, l, n) ==>
                    Written(b, lowRanks, pointers, uids, l, n)
      {
        var ok, ranks, triples := Columns(uids, layer, modules[i]);
        if !ok {
          return None;
        }
        ghost var b0 := b;
        b := b[RankName(modules[i], layer) := RankBuffer(ranks)];
        b := b[PointerName(modules[i], layer) := PointerBuffer(triples)];
        assert b == Write(b0, lowRanks, pointers, uids, layer, modules[i]);
        forall l: nat, n | Written(b0, lowRanks, pointers, uids, l, n) || (l == layer && n == modules[i])
          ensures Written(b, lowRanks, pointers, uids, l, n)
        {
          WriteKeeps(b0, lowRanks, pointers, uids, layer, modules[i], l, n);
        }
        i := i + 1;
      }
      r := Some(b);
    }

    /**
     `input_buffers`: it raises exactly when the layers of the stage cannot be listed, or a uid was never
     loaded and there is anything to look up; otherwise every layer and module gets its rank and pointer
     buffers, whatever else is written.
     */
    method InputBuffers(uids: seq<string>, mapping: Mapping, numLayers: nat) returns (r: Option<map<string, Buffer>>)
      requires Valid() && Sized(mapping)
      ensures var modules := targetModules + MissingQkv(targetModules);
              match PpLayers(mapping, numLayers)
              case LayersFailed(_) => r == None
              case Stage(layers) =>
                (r.Some? <==> layers == [] || modules == [] || forall i :: 0 <= i < |uids| ==> Known(lowRanks, uids[i])) &&
                (r.Some? ==> forall l: nat, n :: l in layers && n in modules ==>
                               Written(r.value, lowRanks, pointers, uids, l, n))
    {
      hide TablesAgree, CppAgrees, Written, MissingQkv, Known, PpLayers, Sized;
      PpLayersOfRank(mapping, numLayers);
      var stage := PpLayers(mapping, numLayers);
      if stage.LayersFailed? {
        return None;
      }
      var layers := stage.layers;
      var modules := targetModules + MissingQkv(targetModules);
      var b: map<string, Buffer> := map[];
      var i := 0;
      while i < |layers|
        invariant i <= |layers|
        invariant i == 0 || modules == [] || forall j :: 0 <= j < |uids| ==> Known(lowRanks, uids[j])
        invariant forall l: nat, n :: l in layers[..i] && n in modules ==> Written(b, lowRanks, pointers, uids, l, n)
      {
        assert layers[i] in layers;
        var next := WriteLayer(b, uids, layers[i], modules);
        if next.None? {
          return None;
        }
        b := next.value;
        assert layers[..i + 1] == layers[..i] + [layers[i]];
        i := i + 1;
      }
      assert layers[..i] == layers;
      r := Some(b);
    }
  }
}
