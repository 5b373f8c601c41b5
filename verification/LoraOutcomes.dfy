/**
 What loading one LoRA checkpoint records: for every layer and module the low rank and the pointer
 triple, and the rows handed to the C++ runtime.
 */
module LoraOutcomes {
  import opened Options
  import opened Dictionaries
  import opened LoraInterleave

  /**
   A tensor of a checkpoint, with its address and flattened length on the device and its extent along
   the rank dimension: the low rank of an input matrix, the number of rows of an output matrix.
   */
  datatype Tensor = Tensor(address: nat, rank: nat, size: nat)

  datatype Triple = Triple(tin: nat, tout: nat, magnitude: nat)

  const NO_POINTERS := Triple(0, 0, 0)

  const MODULE_IDS: map<string, nat> := map[
    "attn_qkv" := 0, "attn_q" := 1, "attn_k" := 2, "attn_v" := 3, "attn_dense" := 4,
    "mlp_h_to_4h" := 5, "mlp_4h_to_h" := 6, "mlp_gate" := 7, "cross_attn_qkv" := 8,
    "cross_attn_q" := 9, "cross_attn_k" := 10, "cross_attn_v" := 11, "cross_attn_dense" := 12,
    "moe_h_to_4h" := 13, "moe_4h_to_h" := 14, "moe_gate" := 15, "moe_router" := 16,
    "mlp_router" := 17, "mlp_gate_up" := 18]

  /** Nineteen modules, told apart by their ids 0 to 18. */
  lemma ModuleIdsDiffer(a: string, b: string)
    requires a in MODULE_IDS && b in MODULE_IDS
    ensures MODULE_IDS[a] < 19 && (MODULE_IDS[a] == MODULE_IDS[b] ==> a == b)
  {
  }

  /** The tensors of one module; those of a mixture of experts are stacked. */
  datatype ModuleWeights = ModuleWeights(
    tin: Option<Tensor>, tout: Option<Tensor>, magnitude: Option<Tensor>, experts: bool)

  /** What the manager knows of the model: the tensor parallel size, and the heads of one rank. */
  datatype Parallel = Parallel(tp: nat, headSize: nat, heads: nat, kvHeads: nat)

  type Setup = p: Parallel | p.tp > 0 witness Parallel(1, 0, 0, 0)

  /** What every load depends on besides the checkpoint. */
  datatype Context = Context(targets: seq<string>, setup: Setup)

  datatype NemoLayer = NemoLayer(layer: nat, tin: Option<Tensor>, tout: Option<Tensor>)

  /** One layer's weights by hf module, and the zero matrices that fill in a module that is missing. */
  datatype HfLayer = HfLayer(layer: nat, entries: Dict<ModuleWeights>, zeroIn: Tensor, zeroOut: Tensor)

  function Zeros(l: HfLayer): ModuleWeights {
    ModuleWeights(Some(l.zeroIn), Some(l.zeroOut), None, false)
  }

  /** Which hf modules each module covers, in dictionary order. */
  type ModuleMap = seq<(string, seq<string>)>

  /** A checkpoint's layers, in ascending order. */
  datatype Checkpoint =
    | Unreadable
    | Nemo(nemoLayers: seq<NemoLayer>)
    | Hf(hfLayers: seq<HfLayer>, modules: ModuleMap, rsLora: bool)

  /** What the load loop does for one module. */
  datatype Outcome =
    | Skipped(name: string)
    | Stored(name: string, tin: Tensor, tout: Tensor, magnitude: Option<Tensor>)
    | Raised

  datatype LayerOutcomes = LayerOutcomes(layer: nat, outcomes: seq<Outcome>)

  // ----- The two loaders -----

  function NemoOutcome(l: NemoLayer, name: string): Outcome {
    if name != "attn_qkv" then Skipped(name)
    else if l.tin.None? || l.tout.None? then Raised
    else Stored(name, l.tin.value, l.tout.value, None)
  }

  function NemoOutcomes(l: NemoLayer, targets: seq<string>): LayerOutcomes {
    LayerOutcomes(l.layer, seq(|targets|, i requires 0 <= i < |targets| => NemoOutcome(l, targets[i])))
  }

  predicate AnyOf(names: seq<string>, targets: seq<string>) {
    exists i :: 0 <= i < |names| && names[i] in targets
  }

  function Without(names: seq<string>, targets: seq<string>): (left: seq<string>)
    ensures forall x :: x in left <==> x in names && x !in targets
  {
    if names == [] then []
    else (if names[0] in targets then [] else [names[0]]) + Without(names[1..], targets)
  }

  const SELF_QKV := ["attn_q", "attn_k", "attn_v"]
  const CROSS_QKV := ["cross_attn_q", "cross_attn_k", "cross_attn_v"]

  /** `get_missing_qkv_modules_from_lora_modules`. */
  function MissingQkv(targets: seq<string>): (missing: seq<string>)
    ensures forall x :: x in missing <==>
              x !in targets && ((x in SELF_QKV && AnyOf(SELF_QKV, targets)) || (x in CROSS_QKV && AnyOf(CROSS_QKV, targets)))
  {
    (if AnyOf(SELF_QKV, targets) then Without(SELF_QKV, targets) else []) +
    (if AnyOf(CROSS_QKV, targets) then Without(CROSS_QKV, targets) else [])
  }

  /** `invert_module_mapping`; a later module wins an hf module that is listed twice. */
  function Invert(modules: ModuleMap): map<string, string> {
    if modules == [] then map[]
    else
      var k := |modules| - 1;
      Invert(modules[..k]) + (map hf | hf in modules[k].1 :: modules[k].0)
  }

  /** An hf module leads to the last module that lists it. */
  lemma {:induction false} InvertExactly(modules: ModuleMap, i: nat, hf: string)
    requires i < |modules| && hf in modules[i].1 && forall j :: i < j < |modules| ==> hf !in modules[j].1
    ensures hf in Invert(modules) && Invert(modules)[hf] == modules[i].0
    decreases |modules|
  {
    var k := |modules| - 1;
    if i < k {
      assert hf !in modules[k].1;
      InvertExactly(modules[..k], i, hf);
    }
  }

  /** The first hf module of a module. */
  function FirstHf(modules: ModuleMap, name: string): Option<string> {
    if modules == [] then None
    else
      var (m, hfs) := modules[0];
      if m != name then FirstHf(modules[1..], name)
      else if hfs == [] then None
      else Some(hfs[0])
  }

  /** It is the first name that the first entry of this module lists; there is none without such an entry or name. */
  lemma {:induction false} FirstHfIs(modules: ModuleMap, i: nat, name: string)
    requires i <= |modules| && forall j :: 0 <= j < i ==> modules[j].0 != name
    requires i < |modules| ==> modules[i].0 == name
    ensures FirstHf(modules, name) ==
            if i < |modules| && modules[i].1 != [] then Some(modules[i].1[0]) else None
    decreases i
  {
    if i > 0 {
      assert modules[0].0 != name;
      FirstHfIs(modules[1..], i - 1, name);
    }
  }

  /** The entries after filling in the missing modules; `None` when one has no hf module. */
  function Filled(entries: Dict<ModuleWeights>, missing: seq<string>, modules: ModuleMap, zeros: ModuleWeights)
    : Option<Dict<ModuleWeights>>
    decreases |missing|
  {
    if missing == [] then Some(entries)
    else match FirstHf(modules, missing[0])
      case None => None
      case Some(hf) => Filled(Put(entries, hf, zeros), missing[1..], modules, zeros)
  }

  function KindOf(name: string): LoraModule {
    if name == "mlp_gate_up" then MlpGateUp else if name == "attn_qkv" then AttnQkv else Unfused
  }

  /** The assertions made while an output matrix with this many rows is prepared all hold. */
  predicate Preparable(name: string, rows: nat, setup: Setup) {
    setup.tp == 1 ||
    match KindOf(name)
    case MlpGateUp => rows % 2 == 0 && (rows / 2) % setup.tp == 0
    case AttnQkv =>
      rows == setup.headSize * (setup.heads + 2 * setup.kvHeads) * setup.tp
    case Unfused => true
  }

  /** Exactly then the preparation of the rows themselves succeeds. */
  lemma PreparableIff<T>(name: string, weight: seq<T>, setup: Setup)
    ensures Prepare(KindOf(name), weight, setup.tp, setup.headSize, setup.heads, setup.kvHeads).Some? <==>
            Preparable(name, |weight|, setup)
  {
    hide Prepare;
    PrepareSucceedsIff(KindOf(name), weight, setup.tp, setup.headSize, setup.heads, setup.kvHeads);
  }

  /** One hf module: skipped outside the targets, raised when a matrix is missing, does not fit or cannot be scaled. */
  function HfOutcome(e: (string, ModuleWeights), toModule: map<string, string>, rsLora: bool, ctx: Context): Outcome {
    if e.0 !in toModule then Raised
    else
      var name, w := toModule[e.0], e.1;
      if name !in ctx.targets then Skipped(name)
      else if w.tin.None? || w.tout.None? then Raised
      else if !Preparable(name, w.tout.value.rank, ctx.setup) || (w.tin.value.rank == 0 && !rsLora) then Raised
      else Stored(name, w.tin.value, w.tout.value, if w.experts then None else w.magnitude)
  }

  function HfOutcomes(l: HfLayer, modules: ModuleMap, rsLora: bool, ctx: Context): LayerOutcomes {
    match Filled(l.entries, MissingQkv(ctx.targets), modules, Zeros(l))
    case None => LayerOutcomes(l.layer, [Raised])
    case Some(entries) =>
      var toModule := Invert(modules);
      LayerOutcomes(l.layer,
                    seq(|entries|, i requires 0 <= i < |entries| => HfOutcome(entries[i], toModule, rsLora, ctx)))
  }

  function Outcomes(c: Checkpoint, ctx: Context): Option<seq<LayerOutcomes>> {
    match c
    case Unreadable => None
    case Nemo(layers) =>
      Some(seq(|layers|, i requires 0 <= i < |layers| => NemoOutcomes(layers[i], ctx.targets)))
    case Hf(layers, modules, rsLora) =>
      Some(seq(|layers|, i requires 0 <= i < |layers| => HfOutcomes(layers[i], modules, rsLora, ctx)))
  }

  // ----- The tables -----

  type Ranks = map<string, nat>
  type Pointers = map<string, Triple>

  function RanksOf(outcomes: seq<Outcome>): Ranks {
    if outcomes == [] then map[]
    else
      var k := |outcomes| - 1;
      RankStep(RanksOf(outcomes[..k]), outcomes[k])
  }

  function RankStep(ranks: Ranks, o: Outcome): Ranks {
    match o
    case Skipped(name) => ranks[name := 0]
    case Stored(name, tin, _, _) => ranks[name := tin.rank]
    case Raised => ranks
  }

  function PointersOf(outcomes: seq<Outcome>): Pointers {
    if outcomes == [] then map[]
    else
      var k := |outcomes| - 1;
      PointerStep(PointersOf(outcomes[..k]), outcomes[k])
  }

  function PointerStep(pointers: Pointers, o: Outcome): Pointers {
    match o
    case Stored(name, tin, tout, mag) =>
      pointers[name := Triple(tin.address, tout.address, if mag.Some? then mag.value.address else 0)]
    case _ => pointers
  }

  /** The tensors kept so that they are not freed. */
  function Kept(o: Outcome): seq<Tensor> {
    match o
    case Stored(_, tin, tout, mag) => [tin, tout] + (if mag.Some? then [mag.value] else [])
    case _ => []
  }

  function AdapterRanks(layers: seq<LayerOutcomes>): map<nat, Ranks> {
    if layers == [] then map[]
    else
      var k := |layers| - 1;
      AdapterRanks(layers[..k])[layers[k].layer := RanksOf(layers[k].outcomes)]
  }

  function AdapterPointers(layers: seq<LayerOutcomes>): map<nat, Pointers> {
    if layers == [] then map[]
    else
      var k := |layers| - 1;
      AdapterPointers(layers[..k])[layers[k].layer := PointersOf(layers[k].outcomes)]
  }

  /** The addresses of the tensors that are kept. */
  function Held(weights: seq<Tensor>): set<nat> {
    set i | 0 <= i < |weights| :: weights[i].address
  }

  predicate TripleHeld(t: Triple, held: set<nat>) {
    t.tin in held && t.tout in held && (t.magnitude == 0 || t.magnitude in held)
  }

  /** One layer's dictionaries agree: every non-zero rank has a triple of kept tensors. */
  predicate LayerAgrees(ranks: Ranks, pointers: Pointers, held: set<nat>) {
    pointers.Keys <= ranks.Keys &&
    (forall m :: m in ranks && ranks[m] != 0 ==> m in pointers) &&
    (forall m :: m in pointers ==> TripleHeld(pointers[m], held))
  }

  predicate AdapterAgrees(ranks: map<nat, Ranks>, pointers: map<nat, Pointers>, held: set<nat>) {
    ranks.Keys == pointers.Keys &&
    forall l :: l in ranks ==> LayerAgrees(ranks[l], pointers[l], held)
  }

  predicate TablesAgree(ranks: map<string, map<nat, Ranks>>, pointers: map<string, map<nat, Pointers>>, held: set<nat>) {
    ranks.Keys == pointers.Keys &&
    forall u :: u in ranks ==> AdapterAgrees(ranks[u], pointers[u], held)
  }

  lemma HeldGrows(weights: seq<Tensor>, more: seq<Tensor>)
    ensures Held(weights) <= Held(weights + more) && Held(more) <= Held(weights + more)
  {
    var all := weights + more;
    forall a | a in Held(weights) ensures a in Held(all) {
      var i :| 0 <= i < |weights| && weights[i].address == a;
      assert all[i] == weights[i];
    }
    forall a | a in Held(more) ensures a in Held(all) {
      var i :| 0 <= i < |more| && more[i].address == a;
      assert all[|weights| + i] == more[i];
    }
  }

  lemma LayerGrows(ranks: Ranks, pointers: Pointers, held: set<nat>, more: set<nat>)
    requires LayerAgrees(ranks, pointers, held) && held <= more
    ensures LayerAgrees(ranks, pointers, more)
  {
  }

  lemma AdapterGrows(ranks: map<nat, Ranks>, pointers: map<nat, Pointers>, held: set<nat>, more: set<nat>)
    requires AdapterAgrees(ranks, pointers, held) && held <= more
    ensures AdapterAgrees(ranks, pointers, more)
  {
    forall l | l in ranks ensures LayerAgrees(ranks[l], pointers[l], more) {
      LayerGrows(ranks[l], pointers[l], held, more);
    }
  }

  lemma TablesGrow(ranks: map<string, map<nat, Ranks>>, pointers: map<string, map<nat, Pointers>>,
                   held: set<nat>, more: set<nat>)
    requires TablesAgree(ranks, pointers, held) && held <= more
    ensures TablesAgree(ranks, pointers, more)
  {
    forall u | u in ranks ensures AdapterAgrees(ranks[u], pointers[u], more) {
      AdapterGrows(ranks[u], pointers[u], held, more);
    }
  }

  /** Recording one outcome keeps the two dictionaries in agreement. */
  lemma StepAgrees(ranks: Ranks, pointers: Pointers, o: Outcome, held: set<nat>)
    requires LayerAgrees(ranks, pointers, held) && Held(Kept(o)) <= held
    ensures LayerAgrees(RankStep(ranks, o), PointerStep(pointers, o), held)
  {
    match o
    case Skipped(_) =>
    case Raised =>
    case Stored(name, tin, tout, mag) =>
      var kept := Kept(o);
      assert kept[0] == tin && kept[1] == tout;
      assert tin.address in Held(kept) && tout.address in Held(kept);
      if mag.Some? {
        assert kept[2] == mag.value;
        assert mag.value.address in Held(kept);
      }
  }

  // ----- What is recorded -----

  predicate IsAbout(o: Outcome, name: string) {
    !o.Raised? && o.name == name
  }

  /** The last outcome about a module decides what is recorded for it. */
  lemma {:induction false} LastOutcomeDecides(outcomes: seq<Outcome>, i: nat)
    requires i < |outcomes| && outcomes[i].Stored?
    requires forall j :: i < j < |outcomes| ==> !IsAbout(outcomes[j], outcomes[i].name)
    ensures var o := outcomes[i];
            o.name in RanksOf(outcomes) && RanksOf(outcomes)[o.name] == o.tin.rank &&
            o.name in PointersOf(outcomes) &&
            PointersOf(outcomes)[o.name] ==
              Triple(o.tin.address, o.tout.address, if o.magnitude.Some? then o.magnitude.value.address else 0)
    decreases |outcomes|
  {
    var k := |outcomes| - 1;
    if i < k {
      assert !IsAbout(outcomes[k], outcomes[i].name);
      LastOutcomeDecides(outcomes[..k], i);
    }
  }

  /** A module that was skipped last has rank 0. */
  lemma {:induction false} SkippedHasNoRank(outcomes: seq<Outcome>, i: nat)
    requires i < |outcomes| && outcomes[i].Skipped?
    requires forall j :: i < j < |outcomes| ==> !IsAbout(outcomes[j], outcomes[i].name)
    ensures outcomes[i].name in RanksOf(outcomes) && RanksOf(outcomes)[outcomes[i].name] == 0
    decreases |outcomes|
  {
    var k := |outcomes| - 1;
    if i < k {
      assert !IsAbout(outcomes[k], outcomes[i].name);
      SkippedHasNoRank(outcomes[..k], i);
    }
  }

  /** The last layer of its number decides what the adapter has for that layer. */
  lemma {:induction false} LastLayerDecides(layers: seq<LayerOutcomes>, i: nat)
    requires i < |layers| && forall j :: i < j < |layers| ==> layers[j].layer != layers[i].layer
    ensures var l := layers[i];
            l.layer in AdapterRanks(layers) && AdapterRanks(layers)[l.layer] == RanksOf(l.outcomes) &&
            l.layer in AdapterPointers(layers) && AdapterPointers(layers)[l.layer] == PointersOf(l.outcomes)
    decreases |layers|
  {
    hide RanksOf, PointersOf;
    var k := |layers| - 1;
    if i < k {
      LastLayerDecides(layers[..k], i);
    }
  }

  /** A NeMo layer with both matrices: attn_qkv gets the rank of its input matrix and both addresses. */
  lemma NemoRecords(l: NemoLayer, targets: seq<string>, i: nat)
    requires i < |targets| && targets[i] == "attn_qkv" && l.tin.Some? && l.tout.Some?
    requires forall j :: i < j < |targets| ==> targets[j] != "attn_qkv"
    ensures var outcomes := NemoOutcomes(l, targets).outcomes;
            "attn_qkv" in RanksOf(outcomes) && RanksOf(outcomes)["attn_qkv"] == l.tin.value.rank &&
            "attn_qkv" in PointersOf(outcomes) &&
            PointersOf(outcomes)["attn_qkv"] == Triple(l.tin.value.address, l.tout.value.address, 0)
  {
    LastOutcomeDecides(NemoOutcomes(l, targets).outcomes, i);
  }

  /** A NeMo layer raises exactly when attn_qkv is a target and one of its matrices is missing; all else is skipped. */
  lemma NemoRaisesIff(l: NemoLayer, targets: seq<string>, i: nat)
    requires i < |targets|
    ensures var outcomes := NemoOutcomes(l, targets).outcomes;
            |outcomes| == |targets| &&
            (outcomes[i].Raised? <==> targets[i] == "attn_qkv" && !(l.tin.Some? && l.tout.Some?)) &&
            (outcomes[i].Skipped? <==> targets[i] != "attn_qkv") &&
            (!outcomes[i].Raised? ==> outcomes[i].name == targets[i])
  {
  }

  /** Entry i of a layer is stored: its module is a target, both matrices are there, they fit and can be scaled. */
  predicate Storable(e: (string, ModuleWeights), modules: ModuleMap, rsLora: bool, ctx: Context) {
    e.0 in Invert(modules) && Invert(modules)[e.0] in ctx.targets && e.1.tin.Some? && e.1.tout.Some? &&
    Preparable(Invert(modules)[e.0], e.1.tout.value.rank, ctx.setup) && (e.1.tin.value.rank > 0 || rsLora)
  }

  /**
   A storable entry, not followed by another of the same module: the rank of its input matrix and the
   addresses of its matrices and of its magnitude, if it has one and no experts.
   */
  lemma HfRecords(l: HfLayer, modules: ModuleMap, rsLora: bool, ctx: Context, entries: Dict<ModuleWeights>, i: nat)
    requires Filled(l.entries, MissingQkv(ctx.targets), modules, Zeros(l)) == Some(entries) && i < |entries|
    requires Storable(entries[i], modules, rsLora, ctx)
    requires forall j :: i < j < |entries| && entries[j].0 in Invert(modules) ==>
               Invert(modules)[entries[j].0] != Invert(modules)[entries[i].0]
    ensures var outcomes, name, w :=
              HfOutcomes(l, modules, rsLora, ctx).outcomes, Invert(modules)[entries[i].0], entries[i].1;
            name in RanksOf(outcomes) && RanksOf(outcomes)[name] == w.tin.value.rank &&
            name in PointersOf(outcomes) &&
            PointersOf(outcomes)[name] ==
              Triple(w.tin.value.address, w.tout.value.address,
                     if w.magnitude.Some? && !w.experts then w.magnitude.value.address else 0)
  {
    hide Invert, Filled, MissingQkv, RanksOf, PointersOf, Preparable;
    var outcomes := HfOutcomes(l, modules, rsLora, ctx).outcomes;
    forall j | i < j < |outcomes| ensures !IsAbout(outcomes[j], outcomes[i].name) {
      assert outcomes[j] == HfOutcome(entries[j], Invert(modules), rsLora, ctx);
    }
    LastOutcomeDecides(outcomes, i);
  }

  /**
   An entry raises exactly when no module lists its hf module, or a target does and it is not storable;
   it is skipped exactly when its module is not a target.
   */
  lemma HfRaisesIff(e: (string, ModuleWeights), modules: ModuleMap, rsLora: bool, ctx: Context)
    ensures var o, to := HfOutcome(e, Invert(modules), rsLora, ctx), Invert(modules);
            (o.Raised? <==> e.0 !in to || (to[e.0] in ctx.targets && !Storable(e, modules, rsLora, ctx))) &&
            (o.Skipped? <==> e.0 in to && to[e.0] !in ctx.targets)
  {
    hide Invert, Preparable;
  }

  // ----- Modules outside the targets -----

  predicate StoresOnly(outcomes: seq<Outcome>, targets: seq<string>) {
    forall i :: 0 <= i < |outcomes| && outcomes[i].Stored? ==> outcomes[i].name in targets
  }

  lemma {:induction false} OutsideTargets(outcomes: seq<Outcome>, targets: seq<string>, name: string)
    requires StoresOnly(outcomes, targets) && name !in targets
    ensures name !in PointersOf(outcomes)
    ensures name in RanksOf(outcomes) ==> RanksOf(outcomes)[name] == 0
    decreases |outcomes|
  {
    if outcomes != [] {
      var k := |outcomes| - 1;
      OutsideTargets(outcomes[..k], targets, name);
    }
  }

  /** A module outside the targets never gets a pointer or a non-zero rank, from either loader. */
  lemma UntargetedStayZero(c: Checkpoint, ctx: Context, name: string)
    requires c != Unreadable && name !in ctx.targets
    ensures match Outcomes(c, ctx)
            case None => false
            case Some(layers) =>
              forall i :: 0 <= i < |layers| ==>
                name !in PointersOf(layers[i].outcomes) &&
                (name in RanksOf(layers[i].outcomes) ==> RanksOf(layers[i].outcomes)[name] == 0)
  {
    var layers := Outcomes(c, ctx).value;
    forall i | 0 <= i < |layers|
      ensures name !in PointersOf(layers[i].outcomes) &&
              (name in RanksOf(layers[i].outcomes) ==> RanksOf(layers[i].outcomes)[name] == 0)
    {
      assert StoresOnly(layers[i].outcomes, ctx.targets);
      OutsideTargets(layers[i].outcomes, ctx.targets, name);
    }
  }

  // ----- The zero matrices -----

  /** The hf module is where the zeros of some missing module are put. */
  predicate ZeroAt(missing: seq<string>, modules: ModuleMap, hf: string) {
    exists k :: 0 <= k < |missing| && FirstHf(modules, missing[k]) == Some(hf)
  }

  predicate AllHaveHf(missing: seq<string>, modules: ModuleMap) {
    forall k :: 0 <= k < |missing| ==> FirstHf(modules, missing[k]).Some?
  }

  lemma ZeroInFront(missing: seq<string>, modules: ModuleMap, hf: string)
    requires missing != []
    ensures ZeroAt(missing, modules, hf) <==> FirstHf(modules, missing[0]) == Some(hf) || ZeroAt(missing[1..], modules, hf)
  {
    hide FirstHf;
    if ZeroAt(missing, modules, hf) {
      var k :| 0 <= k < |missing| && FirstHf(modules, missing[k]) == Some(hf);
      if k > 0 {
        assert missing[1..][k - 1] == missing[k];
      }
    }
    if ZeroAt(missing[1..], modules, hf) {
      var k :| 0 <= k < |missing[1..]| && FirstHf(modules, missing[1..][k]) == Some(hf);
      assert missing[k + 1] == missing[1..][k];
    }
  }

  /** The filled dictionary: the zeros under every hf module of a missing one, the checkpoint's weights elsewhere. */
  ghost predicate FilledWith(entries: Dict<ModuleWeights>, missing: seq<string>, modules: ModuleMap, zeros: ModuleWeights,
                             filled: Dict<ModuleWeights>)
  {
    DistinctNames(filled) &&
    (forall hf :: HasName(filled, hf) <==> HasName(entries, hf) || ZeroAt(missing, modules, hf)) &&
    forall i :: 0 <= i < |filled| ==>
      if ZeroAt(missing, modules, filled[i].0) then filled[i].1 == zeros else filled[i] in entries
  }

  lemma {:induction false} FilledExactly(entries: Dict<ModuleWeights>, missing: seq<string>, modules: ModuleMap,
                                         zeros: ModuleWeights)
    requires DistinctNames(entries)
    ensures match Filled(entries, missing, modules, zeros)
            case None => !AllHaveHf(missing, modules)
            case Some(filled) => AllHaveHf(missing, modules) && FilledWith(entries, missing, modules, zeros, filled)
    decreases |missing|
  {
    hide FirstHf, Put;
    if missing != [] {
      var rest := missing[1..];
      assert AllHaveHf(missing, modules) <==> FirstHf(modules, missing[0]).Some? && AllHaveHf(rest, modules) by {
        assert forall k :: 0 < k < |missing| ==> missing[k] == rest[k - 1];
        assert forall k :: 0 <= k < |rest| ==> rest[k] == missing[k + 1];
      }
      if FirstHf(modules, missing[0]).Some? {
        var hf := FirstHf(modules, missing[0]).value;
        PutNames(entries, hf, zeros);
        FilledExactly(Put(entries, hf, zeros), rest, modules, zeros);
        if AllHaveHf(rest, modules) {
          FilledStep(entries, missing, modules, zeros, hf, Filled(entries, missing, modules, zeros).value);
        }
      }
    }
  }

  lemma FilledStep(entries: Dict<ModuleWeights>, missing: seq<string>, modules: ModuleMap, zeros: ModuleWeights, hf: string,
                   filled: Dict<ModuleWeights>)
    requires DistinctNames(entries) && missing != [] && FirstHf(modules, missing[0]) == Some(hf)
    requires FilledWith(Put(entries, hf, zeros), missing[1..], modules, zeros, filled)
    ensures FilledWith(entries, missing, modules, zeros, filled)
  {
    hide FirstHf, Put, ZeroAt;
    var put := Put(entries, hf, zeros);
    PutNames(entries, hf, zeros);
    forall x ensures ZeroAt(missing, modules, x) <==> x == hf || ZeroAt(missing[1..], modules, x) {
      ZeroInFront(missing, modules, x);
    }
    forall i | 0 <= i < |filled|
      ensures if ZeroAt(missing, modules, filled[i].0) then filled[i].1 == zeros else filled[i] in entries
    {
      if !ZeroAt(missing[1..], modules, filled[i].0) {
        var j :| 0 <= j < |put| && put[j] == filled[i];
        PutEntries(entries, hf, zeros, j);
      }
    }
  }

  /** Some outcome of the layer stores zero matrices that were filled in. */
  predicate ZerosStored(l: HfLayer, modules: ModuleMap, rsLora: bool, ctx: Context) {
    match Filled(l.entries, MissingQkv(ctx.targets), modules, Zeros(l))
    case None => false
    case Some(entries) =>
      exists i :: 0 <= i < |entries| && ZeroAt(MissingQkv(ctx.targets), modules, entries[i].0) &&
                  HfOutcome(entries[i], Invert(modules), rsLora, ctx).Stored?
  }

  /** The hf module of missing module k leads to a target that accepts the zeros. */
  predicate FillsTarget(l: HfLayer, modules: ModuleMap, rsLora: bool, ctx: Context, k: nat)
    requires k < |MissingQkv(ctx.targets)|
  {
    match FirstHf(modules, MissingQkv(ctx.targets)[k])
    case None => false
    case Some(hf) => Storable((hf, Zeros(l)), modules, rsLora, ctx)
  }

  /**
   The zeros filled in for missing projections are stored in a layer exactly when every missing module
   has an hf module and the one of some missing module leads, in the inverted mapping, to a target that
   accepts them.
   */
  lemma ZerosStoredIff(l: HfLayer, modules: ModuleMap, rsLora: bool, ctx: Context)
    requires DistinctNames(l.entries)
    ensures var missing := MissingQkv(ctx.targets);
            ZerosStored(l, modules, rsLora, ctx) <==>
            AllHaveHf(missing, modules) && exists k :: 0 <= k < |missing| && FillsTarget(l, modules, rsLora, ctx, k)
  {
    hide FirstHf, Filled, Invert, MissingQkv, Preparable;
    var missing := MissingQkv(ctx.targets);
    FilledExactly(l.entries, missing, modules, Zeros(l));
    if AllHaveHf(missing, modules) {
      var entries := Filled(l.entries, missing, modules, Zeros(l)).value;
      if ZerosStored(l, modules, rsLora, ctx) {
        var i :| 0 <= i < |entries| && ZeroAt(missing, modules, entries[i].0) &&
                 HfOutcome(entries[i], Invert(modules), rsLora, ctx).Stored?;
        var k :| 0 <= k < |missing| && FirstHf(modules, missing[k]) == Some(entries[i].0);
        assert entries[i] == (entries[i].0, Zeros(l));
        assert FillsTarget(l, modules, rsLora, ctx, k);
      }
      if k :| 0 <= k < |missing| && FillsTarget(l, modules, rsLora, ctx, k) {
        var hf := FirstHf(modules, missing[k]).value;
        assert ZeroAt(missing, modules, hf);
        var i :| 0 <= i < |entries| && entries[i].0 == hf;
        assert entries[i] == (hf, Zeros(l));
        assert HfOutcome(entries[i], Invert(modules), rsLora, ctx).Stored?;
      }
    }
  }

  /** Stored fillers are exactly the zero matrices, and the checkpoint's own weights under that hf module are gone. */
  lemma StoredZerosReplace(l: HfLayer, modules: ModuleMap, rsLora: bool, ctx: Context, entries: Dict<ModuleWeights>, i: nat)
    requires DistinctNames(l.entries) && Filled(l.entries, MissingQkv(ctx.targets), modules, Zeros(l)) == Some(entries)
    requires i < |entries| && ZeroAt(MissingQkv(ctx.targets), modules, entries[i].0)
    requires HfOutcome(entries[i], Invert(modules), rsLora, ctx).Stored?
    ensures HfOutcome(entries[i], Invert(modules), rsLora, ctx) ==
            Stored(Invert(modules)[entries[i].0], l.zeroIn, l.zeroOut, None)
    ensures forall j :: 0 <= j < |entries| && entries[j].0 == entries[i].0 ==> entries[j].1 == Zeros(l)
  {
    hide FirstHf, Filled, Invert, MissingQkv, Preparable;
    FilledExactly(l.entries, MissingQkv(ctx.targets), modules, Zeros(l));
  }

  // ----- Zeros in place of weights -----

  const SHARED_HF: ModuleMap :=
    [("attn_q", ["q_proj"]), ("attn_k", ["k_proj"]), ("attn_v", ["v_proj"]), ("attn_qkv", ["q_proj"])]

  const SHARED_TARGETS := ["attn_k", "attn_v", "attn_qkv"]

  lemma SharedMissing()
    ensures MissingQkv(SHARED_TARGETS) == ["attn_q"] && "attn_qkv" in SHARED_TARGETS
    ensures FirstHf(SHARED_HF, "attn_q") == Some("q_proj")
    ensures "q_proj" in Invert(SHARED_HF) && Invert(SHARED_HF)["q_proj"] == "attn_qkv"
  {
    var t := SHARED_TARGETS;
    assert t[0] == "attn_k" && t[1] == "attn_v" && t[2] == "attn_qkv";
    assert SELF_QKV[1] in t && "attn_q" !in t;
    assert SELF_QKV[1..] == ["attn_k", "attn_v"] && SELF_QKV[1..][1..] == ["attn_v"] && ["attn_v"][1..] == [];
    assert Without(SELF_QKV, t) == ["attn_q"];
    assert !AnyOf(CROSS_QKV, t);
    InvertExactly(SHARED_HF, 3, "q_proj");
  }

  /**
   attn_qkv shares q_proj with the missing attn_q: whatever weights the checkpoint has for q_proj, the
   rank and addresses recorded for attn_qkv are those of the zero matrices.
   */
  lemma ZerosReplaceWeights(l: HfLayer, w: ModuleWeights, setup: Setup)
    requires l.entries == [("q_proj", w)] && setup.tp == 1 && l.zeroIn.rank > 0
    ensures var outcomes := HfOutcomes(l, SHARED_HF, false, Context(SHARED_TARGETS, setup)).outcomes;
            outcomes == [Stored("attn_qkv", l.zeroIn, l.zeroOut, None)] &&
            RanksOf(outcomes) == map["attn_qkv" := l.zeroIn.rank] &&
            PointersOf(outcomes) == map["attn_qkv" := Triple(l.zeroIn.address, l.zeroOut.address, 0)]
  {
    hide MissingQkv, FirstHf, Invert, SHARED_HF, SHARED_TARGETS;
    SharedMissing();
    var ctx := Context(SHARED_TARGETS, setup);
    var put := Put(l.entries, "q_proj", Zeros(l));
    assert put == [("q_proj", Zeros(l))];
    assert ["attn_q"][1..] == [];
    assert Filled(put, [], SHARED_HF, Zeros(l)) == Some(put);
    var outcomes := HfOutcomes(l, SHARED_HF, false, ctx).outcomes;
    assert outcomes == [Stored("attn_qkv", l.zeroIn, l.zeroOut, None)];
    assert outcomes[..0] == [];
  }
}
