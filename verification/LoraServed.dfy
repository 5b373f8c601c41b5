/** From a checkpoint to the engine: what was loaded is what the buffers hold. */
module LoraServed {
  import opened Options
  import opened Decimal
  import opened Dictionaries
  import opened LoraInterleave
  import opened LoraOutcomes
  import opened LoraTable

  // ----- The buffers, written out -----

  /** The entry of one uid: nothing for "-1" and for what was not recorded, else the rank and the pointers recorded. */
  predicate EntryIs(ranks: RankTable, pointers: PointerTable, uid: string, layer: nat, name: string, rank: nat, t: Triple) {
    if uid != "-1" && uid in ranks && layer in ranks[uid] && name in ranks[uid][layer] && ranks[uid][layer][name] != 0 then
      rank == ranks[uid][layer][name] &&
      uid in pointers && layer in pointers[uid] && name in pointers[uid][layer] && t == pointers[uid][layer][name]
    else rank == 0 && t == Triple(0, 0, 0)
  }

  /** The two buffers of a module and layer under their names, with one entry for each uid in turn. */
  lemma WrittenOut(buffers: map<string, Buffer>, ranks: RankTable, pointers: PointerTable, held: set<nat>,
                   uids: seq<string>, layer: nat, name: string, i: nat)
    requires TablesAgree(ranks, pointers, held) && Written(buffers, ranks, pointers, uids, layer, name) && i < |uids|
    ensures var r, p := name + "_lora_ranks_" + Str(layer), name + "_lora_weights_pointers_" + Str(layer);
            r in buffers && buffers[r].RankBuffer? && |buffers[r].ranks| == |uids| &&
            p in buffers && buffers[p].PointerBuffer? && |buffers[p].triples| == |uids| &&
            EntryIs(ranks, pointers, uids[i], layer, name, buffers[r].ranks[i], buffers[p].triples[i])
  {
    hide TablesAgree, Str;
    NamesWrittenOut(name, layer);
    if RankAt(ranks, uids[i], layer, name) != 0 {
      RankHasTriple(ranks, pointers, held, uids[i], layer, name);
    }
  }

  lemma NamesWrittenOut(name: string, layer: nat)
    ensures RankName(name, layer) == name + "_lora_ranks_" + Str(layer)
    ensures PointerName(name, layer) == name + "_lora_weights_pointers_" + Str(layer)
  {
    hide Str;
    assert name + "_lora_ranks" + "_" == name + "_lora_ranks_";
    assert name + "_lora_weights_pointers" + "_" == name + "_lora_weights_pointers_";
  }

  // ----- From the checkpoint to the entry -----

  /** Job j is the last of its uid, and layer i of its checkpoint the last of its number. */
  predicate Latest(jobs: seq<Job>, j: nat, layers: seq<LayerOutcomes>, i: nat) {
    j < |jobs| && (forall k :: j < k < |jobs| ==> jobs[k].uid != jobs[j].uid) &&
    i < |layers| && forall k :: i < k < |layers| ==> layers[k].layer != layers[i].layer
  }

  lemma LayerServed(ranks: RankTable, pointers: PointerTable, jobs: seq<Job>, ctx: Context, j: nat, i: nat, name: string)
    requires j < |jobs| && Latest(jobs, j, LayersOf(jobs[j].checkpoint, ctx), i) && jobs[j].uid != "-1"
    ensures var l, r, p := LayersOf(jobs[j].checkpoint, ctx)[i], RanksAfter(ranks, jobs, ctx), PointersAfter(pointers, jobs, ctx);
            name in RanksOf(l.outcomes) ==>
              RankAt(r, jobs[j].uid, l.layer, name) == RanksOf(l.outcomes)[name] &&
              (RanksOf(l.outcomes)[name] != 0 && name in PointersOf(l.outcomes) ==>
                 TripleAt(r, p, jobs[j].uid, l.layer, name) == PointersOf(l.outcomes)[name])
  {
    hide RanksAfter, PointersAfter, AdapterRanks, AdapterPointers, RanksOf, PointersOf, LayersOf;
    AfterRecords(ranks, pointers, jobs, ctx, j);
    LastLayerDecides(LayersOf(jobs[j].checkpoint, ctx), i);
  }

  /**
   A storable entry of an hf checkpoint, not followed by another of its module: once loaded, the engine
   is given the rank of its input matrix and the addresses of its matrices and of its magnitude.
   */
  lemma HfServed(ranks: RankTable, pointers: PointerTable, jobs: seq<Job>, ctx: Context, j: nat, i: nat,
                 entries: Dict<ModuleWeights>, e: nat)
    requires j < |jobs| && jobs[j].uid != "-1" && jobs[j].checkpoint.Hf?
    requires Latest(jobs, j, LayersOf(jobs[j].checkpoint, ctx), i)
    requires var c := jobs[j].checkpoint;
             Filled(c.hfLayers[i].entries, MissingQkv(ctx.targets), c.modules, Zeros(c.hfLayers[i])) == Some(entries) &&
             e < |entries| && Storable(entries[e], c.modules, c.rsLora, ctx) && entries[e].1.tin.value.rank > 0 &&
             forall k :: e < k < |entries| && entries[k].0 in Invert(c.modules) ==>
               Invert(c.modules)[entries[k].0] != Invert(c.modules)[entries[e].0]
    ensures var c := jobs[j].checkpoint;
            var uid, layer, name, w := jobs[j].uid, c.hfLayers[i].layer, Invert(c.modules)[entries[e].0], entries[e].1;
            var r, p := RanksAfter(ranks, jobs, ctx), PointersAfter(pointers, jobs, ctx);
            RankAt(r, uid, layer, name) == w.tin.value.rank &&
            TripleAt(r, p, uid, layer, name) ==
              Triple(w.tin.value.address, w.tout.value.address,
                     if w.magnitude.Some? && !w.experts then w.magnitude.value.address else 0)
  {
    hide RanksAfter, PointersAfter, RanksOf, PointersOf, RankAt, TripleAt, Filled, MissingQkv, Invert, Preparable,
      HfOutcome, Zeros;
    var c := jobs[j].checkpoint;
    var l := HfOutcomes(c.hfLayers[i], c.modules, c.rsLora, ctx);
    assert LayersOf(c, ctx)[i] == l;
    HfRecords(c.hfLayers[i], c.modules, c.rsLora, ctx, entries, e);
    LayerServed(ranks, pointers, jobs, ctx, j, i, Invert(c.modules)[entries[e].0]);
  }

  /** A NeMo layer with both matrices: attn_qkv is given the rank of the input matrix and both addresses. */
  lemma NemoServed(ranks: RankTable, pointers: PointerTable, jobs: seq<Job>, ctx: Context, j: nat, i: nat, t: nat)
    requires j < |jobs| && jobs[j].uid != "-1" && jobs[j].checkpoint.Nemo?
    requires Latest(jobs, j, LayersOf(jobs[j].checkpoint, ctx), i)
    requires t < |ctx.targets| && ctx.targets[t] == "attn_qkv"
    requires forall k :: t < k < |ctx.targets| ==> ctx.targets[k] != "attn_qkv"
    requires var l := jobs[j].checkpoint.nemoLayers[i]; l.tin.Some? && l.tout.Some? && l.tin.value.rank > 0
    ensures var l := jobs[j].checkpoint.nemoLayers[i];
            var r, p := RanksAfter(ranks, jobs, ctx), PointersAfter(pointers, jobs, ctx);
            RankAt(r, jobs[j].uid, l.layer, "attn_qkv") == l.tin.value.rank &&
            TripleAt(r, p, jobs[j].uid, l.layer, "attn_qkv") == Triple(l.tin.value.address, l.tout.value.address, 0)
  {
    hide RanksAfter, PointersAfter, RanksOf, PointersOf, RankAt, TripleAt, NemoOutcome;
    var c := jobs[j].checkpoint;
    assert LayersOf(c, ctx)[i] == NemoOutcomes(c.nemoLayers[i], ctx.targets);
    NemoRecords(c.nemoLayers[i], ctx.targets, t);
    LayerServed(ranks, pointers, jobs, ctx, j, i, "attn_qkv");
  }

  // ----- From the checkpoint to the rows of the runtime -----

  /** The row of a stored module: its tensors, as wide as they are together, and its id, layer, rank and magnitude. */
  predicate IsRowOf(w: WeightRow, c: ConfigRow, layer: nat, o: Outcome)
    requires o.Stored?
  {
    w.tensors == [o.tin, o.tout] + (if o.magnitude.Some? then [o.magnitude.value] else []) &&
    w.width == o.tin.size + o.tout.size + (if o.magnitude.Some? then o.magnitude.value.size else 0) &&
    c.layer == layer && c.rank == o.tin.rank && c.dora == o.magnitude.Some? &&
    (o.name in MODULE_IDS ==> c.moduleId == MODULE_IDS[o.name])
  }

  lemma StoredRow(layer: nat, o: Outcome)
    requires o.Stored?
    ensures var rows := RowsFor(layer, o);
            |rows.weights| == 1 && |rows.config| == 1 && IsRowOf(rows.weights[0], rows.config[0], layer, o)
  {
    hide MODULE_IDS;
    var kept := Kept(o);
    assert kept[..1] == [o.tin] && kept[..1][..0] == [];
    assert Size(kept[..1]) == o.tin.size;
    if o.magnitude.Some? {
      assert kept[..2][..1] == kept[..1];
      assert Size(kept[..2]) == o.tin.size + o.tout.size;
    }
  }

  /** How many of the first n outcomes are stored. */
  function StoredAmong(outcomes: seq<Outcome>, n: nat): nat
    requires n <= |outcomes|
  {
    if n == 0 then 0 else StoredAmong(outcomes, n - 1) + (if outcomes[n - 1].Stored? then 1 else 0)
  }

  lemma RowsStep(layer: nat, outcomes: seq<Outcome>, n: nat)
    requires 0 < n <= |outcomes|
    ensures LayerRows(layer, outcomes[..n]) ==
            Plus(LayerRows(layer, outcomes[..n - 1]), RowsFor(layer, outcomes[n - 1]))
    ensures !outcomes[n - 1].Stored? ==> RowsFor(layer, outcomes[n - 1]) == NewRows([], [])
    ensures outcomes[n - 1].Stored? ==>
              |RowsFor(layer, outcomes[n - 1]).weights| == 1 && |RowsFor(layer, outcomes[n - 1]).config| == 1
  {
    hide MODULE_IDS;
    assert outcomes[..n][..n - 1] == outcomes[..n - 1] && outcomes[..n][n - 1] == outcomes[n - 1];
  }

  /** A layer has one row for every stored module and no other. */
  lemma {:induction false} LayerRowCount(layer: nat, outcomes: seq<Outcome>, n: nat)
    requires n <= |outcomes|
    ensures |LayerRows(layer, outcomes[..n]).weights| == StoredAmong(outcomes, n)
    ensures |LayerRows(layer, outcomes[..n]).config| == StoredAmong(outcomes, n)
    decreases n
  {
    hide RowsFor;
    if n > 0 {
      hide LayerRows;
      LayerRowCount(layer, outcomes, n - 1);
      RowsStep(layer, outcomes, n);
    }
  }

  /** The rows come in the order of the modules. */
  lemma {:induction false} LayerRowAt(layer: nat, outcomes: seq<Outcome>, n: nat, k: nat)
    requires k < n <= |outcomes| && outcomes[k].Stored?
    ensures var rows, at := LayerRows(layer, outcomes[..n]), StoredAmong(outcomes, k);
            at < |rows.weights| && at < |rows.config| && IsRowOf(rows.weights[at], rows.config[at], layer, outcomes[k])
    decreases n
  {
    hide RowsFor, LayerRows, IsRowOf, StoredAmong;
    LayerRowCount(layer, outcomes, k);
    RowsStep(layer, outcomes, n);
    if k < n - 1 {
      LayerRowAt(layer, outcomes, n - 1, k);
    } else {
      StoredRow(layer, outcomes[k]);
    }
  }
}
