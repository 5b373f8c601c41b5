/**
 The network that the graph rewriter works on: a list of layers whose inputs name
 tensors, the list of network outputs, the recorded functional calls and the set of
 layers marked as removed.  A layer is identified by its position in the list.  List
 order is not evaluation order, so acyclicity is witnessed by a rank per layer.
 */
module NetworkGraph {
  import opened Options

  /** `Absent` is an optional layer input that was never set. */
  datatype Tensor = Absent | NetIn(id: nat) | Out(layer: nat, slot: nat)

  /** `Attention` is the two-output GPTAttention plugin; `Other` is every remaining layer type. */
  datatype Kind =
    | Constant(weights: nat)
    | Sum
    | Attention(params: nat, unfused: bool, biased: bool)
    | Other(op: nat, outputs: nat)

  function Arity(kind: Kind): nat {
    match kind
    case Constant(_) => 1
    case Sum => 1
    case Attention(_, _, _) => 2
    case Other(_, outputs) => outputs
  }

  datatype Layer = Layer(kind: Kind, inputs: seq<Tensor>)

  /** The `qkv` argument is one tensor, or a list when the three GEMMs are not fused. */
  datatype Qkv = Fused(tensor: Tensor) | Split(parts: seq<Tensor>)

  /** The recorded arguments of one `gpt_attention` call. */
  datatype Call = Call(params: nat, qkv: Qkv, rest: seq<Tensor>, bias: Option<Tensor>)

  function CallKind(c: Call): Kind {
    Attention(c.params, c.qkv.Split?, c.bias.Some?)
  }

  function CallInputs(c: Call): seq<Tensor> {
    (if c.qkv.Split? then c.qkv.parts else [c.qkv.tensor])
    + c.rest
    + (if c.bias.Some? then [c.bias.value] else [])
  }

  datatype Net = Net(layers: seq<Layer>, outputs: seq<Tensor>, memo: map<nat, Call>, removed: set<nat>)

  predicate InNet(net: Net, t: Tensor) {
    t.Out? ==> t.layer < |net.layers| && t.slot < Arity(net.layers[t.layer].kind)
  }

  /** Tensor `t` is available before layer `i` runs. */
  predicate Before(net: Net, rank: seq<nat>, i: nat, t: Tensor)
    requires |rank| == |net.layers| && i < |rank|
  {
    InNet(net, t) && (t.Out? ==> rank[t.layer] < rank[i])
  }

  predicate LayerOk(net: Net, rank: seq<nat>, i: nat)
    requires |rank| == |net.layers| && i < |rank|
  {
    && (forall t :: t in net.layers[i].inputs ==> Before(net, rank, i, t))
    && (net.layers[i].kind.Sum? ==> Absent !in net.layers[i].inputs)
  }

  predicate CallOk(net: Net, rank: seq<nat>, i: nat, c: Call)
    requires |rank| == |net.layers| && i < |rank|
  {
    && net.layers[i].kind.Attention?
    && Absent !in CallInputs(c)
    && (forall t :: t in CallInputs(c) ==> Before(net, rank, i, t))
  }

  /**
   `rank` witnesses that the network is acyclic: every layer, and every recorded call of a
   layer, uses only tensors of strictly smaller rank.
   */
  predicate Ranked(net: Net, rank: seq<nat>) {
    && |rank| == |net.layers|
    && (forall i :: 0 <= i < |rank| ==> LayerOk(net, rank, i))
    && (forall i :: i in net.memo ==> i < |rank| && CallOk(net, rank, i, net.memo[i]))
    && (forall t :: t in net.outputs ==> InNet(net, t))
  }

  ghost predicate Acyclic(net: Net) {
    exists rank :: Ranked(net, rank)
  }

  // ----- Evaluation -----

  /** What each layer computes from its inputs, slot by slot. */
  datatype Semantics<!V> = Semantics(op: (Kind, seq<V>, nat) -> V, absent: V)

  ghost predicate SumCommutes<V(!new)>(sem: Semantics<V>) {
    forall x: V, y: V, k: nat :: sem.op(Sum, [x, y], k) == sem.op(Sum, [y, x], k)
  }

  /** The plugin's contract: a bias argument is added to qkv inside the plugin. */
  ghost predicate BiasIsAdded<V(!new)>(sem: Semantics<V>) {
    forall p: nat, x: V, b: V, rest: seq<V>, k: nat ::
      sem.op(Attention(p, false, true), [x] + rest + [b], k)
      == sem.op(Attention(p, false, false), [sem.op(Sum, [x, b], 0)] + rest, k)
  }

  ghost predicate Lawful<V(!new)>(sem: Semantics<V>) {
    SumCommutes(sem) && BiasIsAdded(sem)
  }

  /** The value of a tensor under an assignment of the network inputs. */
  ghost function Val<V>(net: Net, rank: seq<nat>, sem: Semantics<V>, env: nat -> V, t: Tensor): V
    requires Ranked(net, rank) && InNet(net, t)
    decreases if t.Out? then rank[t.layer] + 1 else 0
  {
    match t
    case Absent => sem.absent
    case NetIn(id) => env(id)
    case Out(j, k) =>
      assert LayerOk(net, rank, j);
      var ins := net.layers[j].inputs;
      sem.op(net.layers[j].kind,
             seq(|ins|, s requires 0 <= s < |ins| =>
               assert ins[s] in ins; assert Before(net, rank, j, ins[s]);
               Val(net, rank, sem, env, ins[s])),
             k)
  }

  ghost function Vals<V>(net: Net, rank: seq<nat>, sem: Semantics<V>, env: nat -> V, ts: seq<Tensor>): seq<V>
    requires Ranked(net, rank) && forall t :: t in ts ==> InNet(net, t)
  {
    seq(|ts|, s requires 0 <= s < |ts| => Val(net, rank, sem, env, ts[s]))
  }

  lemma ValOfOutput<V>(net: Net, rank: seq<nat>, sem: Semantics<V>, env: nat -> V, j: nat, k: nat)
    requires Ranked(net, rank) && InNet(net, Out(j, k))
    ensures forall t :: t in net.layers[j].inputs ==> InNet(net, t)
    ensures Val(net, rank, sem, env, Out(j, k))
            == sem.op(net.layers[j].kind, Vals(net, rank, sem, env, net.layers[j].inputs), k)
  {
    assert LayerOk(net, rank, j);
    var ins := net.layers[j].inputs;
    assert Vals(net, rank, sem, env, ins)
        == seq(|ins|, s requires 0 <= s < |ins| =>
               assert ins[s] in ins; assert Before(net, rank, j, ins[s]);
               Val(net, rank, sem, env, ins[s]));
  }

  /** The value of a tensor does not depend on which rank witnesses acyclicity. */
  lemma {:induction false} ValIgnoresRank<V>(net: Net, r1: seq<nat>, r2: seq<nat>, sem: Semantics<V>,
                                            env: nat -> V, t: Tensor)
    requires Ranked(net, r1) && Ranked(net, r2) && InNet(net, t)
    ensures Val(net, r1, sem, env, t) == Val(net, r2, sem, env, t)
    decreases if t.Out? then r1[t.layer] + 1 else 0
  {
    if t.Out? {
      ValOfOutput(net, r1, sem, env, t.layer, t.slot);
      ValOfOutput(net, r2, sem, env, t.layer, t.slot);
      var ins := net.layers[t.layer].inputs;
      assert LayerOk(net, r1, t.layer);
      forall s | 0 <= s < |ins|
        ensures Val(net, r1, sem, env, ins[s]) == Val(net, r2, sem, env, ins[s])
      {
        assert ins[s] in ins;
        ValIgnoresRank(net, r1, r2, sem, env, ins[s]);
      }
      assert Vals(net, r1, sem, env, ins) == Vals(net, r2, sem, env, ins);
    }
  }

  /**
   Each recorded call still computes what its layer computes.  The record of a layer may
   name tensors that were superseded, or the operands of an addition already folded into
   the plugin, so this is weaker than "the record lists the layer's inputs".
   */
  ghost predicate Consistent<V>(net: Net, rank: seq<nat>, sem: Semantics<V>, env: nat -> V)
    requires Ranked(net, rank)
  {
    forall i, k: nat :: i in net.memo && k < 2 ==> CallAgrees(net, rank, sem, env, i, k)
  }

  ghost predicate CallAgrees<V>(net: Net, rank: seq<nat>, sem: Semantics<V>, env: nat -> V, i: nat, k: nat)
    requires Ranked(net, rank) && i in net.memo && k < 2
  {
    assert CallOk(net, rank, i, net.memo[i]);
    sem.op(CallKind(net.memo[i]), Vals(net, rank, sem, env, CallInputs(net.memo[i])), k)
    == Val(net, rank, sem, env, Out(i, k))
  }
}
