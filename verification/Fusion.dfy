/**
 `FuseAttentionWithBiasPass`: what one call of `match_and_rewrite` decides and does, and why
 a single fusion keeps the network acyclic and keeps every value.
 */
module Fusion {
  import opened Options
  import opened NetworkGraph

  const MAX_DEPTH: nat := 10

  /** The recursive `const_foldable`: a search that gives up below ten levels. */
  predicate Foldable(net: Net, t: Tensor, depth: nat)
    decreases MAX_DEPTH + 1 - depth
  {
    if !t.Out? || t.layer >= |net.layers| || depth > MAX_DEPTH then false
    else
      var layer := net.layers[t.layer];
      (layer.kind.Constant? && |layer.inputs| == 0)
      || forall s :: 0 <= s < |layer.inputs| ==> Foldable(net, layer.inputs[s], depth + 1)
  }

  function ConstInputs(net: Net, ts: seq<Tensor>): seq<Tensor> {
    if ts == [] then []
    else (if Foldable(net, ts[0], 0) then [ts[0]] else []) + ConstInputs(net, ts[1..])
  }

  function MutableInputs(net: Net, ts: seq<Tensor>): seq<Tensor> {
    if ts == [] then []
    else (if Foldable(net, ts[0], 0) then [] else [ts[0]]) + MutableInputs(net, ts[1..])
  }

  /** Every (layer, input position) that consumes `t`; the users list has one entry for each. */
  function UserSlots(net: Net, t: Tensor): set<(nat, nat)> {
    set l, s | 0 <= l < |net.layers| && 0 <= s < |net.layers[l].inputs| && net.layers[l].inputs[s] == t :: (l, s)
  }

  /** `Crash` is an exception raised while the pattern is being matched. */
  datatype Verdict = Crash | NoMatch | Match

  function Inspect(net: Net, i: nat): Verdict
    requires i < |net.layers|
  {
    if !net.layers[i].kind.Attention? then NoMatch
    else if i !in net.memo then Crash
    else
      var call := net.memo[i];
      if call.qkv.Split? || |UserSlots(net, call.qkv.tensor)| != 1 then NoMatch
      else
        var t := call.qkv.tensor;
        if !t.Out? || t.layer >= |net.layers| then Crash
        else if !net.layers[t.layer].kind.Sum? then NoMatch
        else
          var operands := net.layers[t.layer].inputs;
          if |ConstInputs(net, operands)| != 1 || |MutableInputs(net, operands)| != 1 then NoMatch
          else if call.bias.Some? then NoMatch
          else Match
  }

  /** The call recorded for the fused layer: the mutable operand as qkv, the constant one as bias. */
  function FusedCall(net: Net, i: nat): Call
    requires i < |net.layers| && Inspect(net, i).Match?
  {
    var operands := net.layers[net.memo[i].qkv.tensor.layer].inputs;
    net.memo[i].(qkv := Fused(MutableInputs(net, operands)[0]), bias := Some(ConstInputs(net, operands)[0]))
  }

  /** Redirects both outputs of layer `i` to layer `n`. */
  function Redirect(i: nat, n: nat, t: Tensor): Tensor {
    if t.Out? && t.layer == i && t.slot < 2 then Out(n, t.slot) else t
  }

  function RedirectAll(i: nat, n: nat, ts: seq<Tensor>): seq<Tensor> {
    seq(|ts|, s requires 0 <= s < |ts| => Redirect(i, n, ts[s]))
  }

  function RedirectLayers(i: nat, n: nat, layers: seq<Layer>): seq<Layer> {
    seq(|layers|, l requires 0 <= l < |layers| => layers[l].(inputs := RedirectAll(i, n, layers[l].inputs)))
  }

  function NewLayer(net: Net, i: nat): Layer
    requires i < |net.layers| && Inspect(net, i).Match?
  {
    var c := FusedCall(net, i);
    Layer(CallKind(c), CallInputs(c))
  }

  /** The network after fusing layer `i`; the old layer stays in the list and no record but its own changes. */
  function Fuse(net: Net, i: nat): Net
    requires i < |net.layers| && Inspect(net, i).Match?
  {
    var n := |net.layers|;
    var c := FusedCall(net, i);
    Net(RedirectLayers(i, n, net.layers + [NewLayer(net, i)]),
        RedirectAll(i, n, net.outputs),
        net.memo[i := c][n := c],
        net.removed)
  }

  // ----- What a match means -----

  lemma FilterSplit(net: Net, ts: seq<Tensor>)
    requires |ConstInputs(net, ts)| == 1 && |MutableInputs(net, ts)| == 1
    ensures |ts| == 2
    ensures ts == [MutableInputs(net, ts)[0], ConstInputs(net, ts)[0]]
         || ts == [ConstInputs(net, ts)[0], MutableInputs(net, ts)[0]]
    ensures Foldable(net, ConstInputs(net, ts)[0], 0) && !Foldable(net, MutableInputs(net, ts)[0], 0)
  {
    FilterLength(net, ts);
    var r := ts[1..];
    assert ts == [ts[0]] + r;
    FilterLength(net, r);
    assert ConstInputs(net, r[1..]) == [] && MutableInputs(net, r[1..]) == [];
  }

  lemma FilterLength(net: Net, ts: seq<Tensor>)
    ensures |ConstInputs(net, ts)| + |MutableInputs(net, ts)| == |ts|
  {
  }

  /** In a match, qkv is the sum of exactly one foldable and one non-foldable operand. */
  lemma MatchedOperands(net: Net, i: nat)
    requires i < |net.layers| && Inspect(net, i).Match?
    ensures
      var c := FusedCall(net, i);
      var sum := net.layers[net.memo[i].qkv.tensor.layer];
      && sum.kind.Sum?
      && (sum.inputs == [c.qkv.tensor, c.bias.value] || sum.inputs == [c.bias.value, c.qkv.tensor])
      && Foldable(net, c.bias.value, 0) && !Foldable(net, c.qkv.tensor, 0)
  {
    FilterSplit(net, net.layers[net.memo[i].qkv.tensor.layer].inputs);
  }

  // ----- Acyclicity -----

  lemma NewInputsBefore(net: Net, rank: seq<nat>, i: nat, t: Tensor)
    requires Ranked(net, rank) && i < |rank| && Inspect(net, i).Match?
    requires t in CallInputs(FusedCall(net, i))
    ensures Before(net, rank, i, t) && t != Absent
  {
    MatchedOperands(net, i);
    var was := net.memo[i];
    assert CallOk(net, rank, i, was);
    var s := was.qkv.tensor;
    assert s in CallInputs(was);
    assert LayerOk(net, rank, s.layer);
    if t in was.rest {
      assert t in CallInputs(was);
    } else {
      assert t in net.layers[s.layer].inputs;
    }
  }

  lemma BeforeAfterFuse(net: Net, rank: seq<nat>, i: nat, l: nat, t: Tensor)
    requires Ranked(net, rank) && i < |rank| && l < |rank| && Inspect(net, i).Match?
    requires Before(net, rank, l, t)
    ensures
      var net' := Fuse(net, i);
      var rank' := rank + [rank[i]];
      && |rank'| == |net'.layers|
      && Before(net', rank', l, t)
      && Before(net', rank', l, Redirect(i, |rank|, t))
  {
    var net' := Fuse(net, i);
    assert forall j :: 0 <= j < |rank| ==> net'.layers[j].kind == net.layers[j].kind;
  }

  /** Fusion keeps the network acyclic: the new layer takes the rank of the one it supersedes. */
  lemma FuseRanked(net: Net, rank: seq<nat>, i: nat)
    requires Ranked(net, rank) && i < |rank| && Inspect(net, i).Match?
    ensures Ranked(Fuse(net, i), rank + [rank[i]])
  {
    var net', rank', n := Fuse(net, i), rank + [rank[i]], |rank|;
    var c := FusedCall(net, i);
    forall l | 0 <= l < |rank'| ensures LayerOk(net', rank', l) {
      var was := if l < n then net.layers[l] else NewLayer(net, i);
      var anchor := if l < n then l else i;
      forall t | t in was.inputs
        ensures Before(net', rank', anchor, Redirect(i, n, t))
        ensures t == Absent <==> Redirect(i, n, t) == Absent
      {
        if l < n {
          assert LayerOk(net, rank, l);
        } else {
          NewInputsBefore(net, rank, i, t);
        }
        BeforeAfterFuse(net, rank, i, anchor, t);
      }
      if l < n { assert LayerOk(net, rank, l); }
    }
    forall j | j in net'.memo ensures j < |rank'| && CallOk(net', rank', j, net'.memo[j]) {
      var anchor := if j == n then i else j;
      forall t | t in CallInputs(net'.memo[j]) ensures t != Absent && Before(net', rank', j, t) {
        if j == n || j == i {
          NewInputsBefore(net, rank, i, t);
        } else {
          assert CallOk(net, rank, j, net.memo[j]);
        }
        BeforeAfterFuse(net, rank, i, anchor, t);
      }
      if j != n && j != i { assert CallOk(net, rank, j, net.memo[j]); }
    }
    forall t | t in net'.outputs ensures InNet(net', t) {
      var o :| 0 <= o < |net.outputs| && t == Redirect(i, n, net.outputs[o]);
      assert net.outputs[o] in net.outputs;
    }
  }

  // ----- Values -----

  /** No input of the fused layer is an output of the layer it supersedes. */
  lemma NewLayerUnchanged(net: Net, rank: seq<nat>, i: nat)
    requires Ranked(net, rank) && i < |rank| && Inspect(net, i).Match?
    ensures Fuse(net, i).layers[|rank|] == NewLayer(net, i)
  {
    var ins := NewLayer(net, i).inputs;
    forall s | 0 <= s < |ins| ensures Redirect(i, |rank|, ins[s]) == ins[s] {
      NewInputsBefore(net, rank, i, ins[s]);
    }
    assert RedirectAll(i, |rank|, ins) == ins;
  }

  lemma {:induction false} ValAfterFuse<V(!new)>(net: Net, rank: seq<nat>, i: nat, sem: Semantics<V>,
                                               env: nat -> V, t: Tensor)
    requires Ranked(net, rank) && i < |rank| && Inspect(net, i).Match?
    requires Lawful(sem) && Consistent(net, rank, sem, env)
    requires InNet(net, t)
    ensures Ranked(Fuse(net, i), rank + [rank[i]]) && InNet(Fuse(net, i), t)
    ensures Val(Fuse(net, i), rank + [rank[i]], sem, env, t) == Val(net, rank, sem, env, t)
    decreases if t.Out? then rank[t.layer] + 1 else 0
  {
    FuseRanked(net, rank, i);
    var net', rank', n := Fuse(net, i), rank + [rank[i]], |rank|;
    if t.Out? {
      var j := t.layer;
      ValOfOutput(net, rank, sem, env, j, t.slot);
      ValOfOutput(net', rank', sem, env, j, t.slot);
      assert LayerOk(net, rank, j);
      var ins, ins' := net.layers[j].inputs, net'.layers[j].inputs;
      forall s | 0 <= s < |ins|
        ensures Val(net', rank', sem, env, ins'[s]) == Val(net, rank, sem, env, ins[s])
      {
        assert ins[s] in ins;
        assert Before(net, rank, j, ins[s]);
        if Redirect(i, n, ins[s]) == ins[s] {
          ValAfterFuse(net, rank, i, sem, env, ins[s]);
        } else {
          NewLayerValue(net, rank, i, sem, env, ins[s].slot);
        }
      }
      assert Vals(net', rank', sem, env, ins') == Vals(net, rank, sem, env, ins);
    }
  }

  /** The fused layer computes what the layer it supersedes computed. */
  lemma {:induction false} NewLayerValue<V(!new)>(net: Net, rank: seq<nat>, i: nat, sem: Semantics<V>,
                                                env: nat -> V, k: nat)
    requires Ranked(net, rank) && i < |rank| && Inspect(net, i).Match? && k < 2
    requires Lawful(sem) && Consistent(net, rank, sem, env)
    ensures Ranked(Fuse(net, i), rank + [rank[i]])
    ensures Val(Fuse(net, i), rank + [rank[i]], sem, env, Out(|rank|, k)) == Val(net, rank, sem, env, Out(i, k))
    decreases rank[i] + 1, 0
  {
    FuseRanked(net, rank, i);
    var net', rank', n := Fuse(net, i), rank + [rank[i]], |rank|;
    var c := FusedCall(net, i);
    NewLayerUnchanged(net, rank, i);
    ValOfOutput(net', rank', sem, env, n, k);
    forall s | 0 <= s < |CallInputs(c)|
      ensures InNet(net, CallInputs(c)[s])
      ensures Val(net', rank', sem, env, CallInputs(c)[s]) == Val(net, rank, sem, env, CallInputs(c)[s])
    {
      NewInputsBefore(net, rank, i, CallInputs(c)[s]);
      ValAfterFuse(net, rank, i, sem, env, CallInputs(c)[s]);
    }
    assert Vals(net', rank', sem, env, CallInputs(c)) == Vals(net, rank, sem, env, CallInputs(c));
    FusedCallValue(net, rank, i, sem, env, k);
  }

  lemma SumValue<V(!new)>(net: Net, rank: seq<nat>, sem: Semantics<V>, env: nat -> V, j: nat, x: Tensor, b: Tensor)
    requires Ranked(net, rank) && j < |rank| && net.layers[j].kind.Sum? && SumCommutes(sem)
    requires InNet(net, x) && InNet(net, b)
    requires net.layers[j].inputs == [x, b] || net.layers[j].inputs == [b, x]
    ensures Val(net, rank, sem, env, Out(j, 0))
         == sem.op(Sum, [Val(net, rank, sem, env, x), Val(net, rank, sem, env, b)], 0)
  {
    ValOfOutput(net, rank, sem, env, j, 0);
    var vx, vb := Val(net, rank, sem, env, x), Val(net, rank, sem, env, b);
    if net.layers[j].inputs == [x, b] {
      assert Vals(net, rank, sem, env, [x, b]) == [vx, vb];
    } else {
      assert Vals(net, rank, sem, env, [b, x]) == [vb, vx];
      assert sem.op(Sum, [vx, vb], 0) == sem.op(Sum, [vb, vx], 0);
    }
  }

  lemma RecordOk(net: Net, rank: seq<nat>, i: nat)
    requires Ranked(net, rank) && i < |rank| && Inspect(net, i).Match?
    ensures |rank| == |net.layers| && i in net.memo && CallOk(net, rank, i, net.memo[i])
    ensures net.memo[i].qkv.Fused? && net.memo[i].bias.None? && net.memo[i].qkv.tensor.Out?
  {
  }

  /** The sum feeding a matched layer, with the mutable operand written first. */
  lemma MatchedSumValue<V(!new)>(net: Net, rank: seq<nat>, i: nat, sem: Semantics<V>, env: nat -> V)
    requires Ranked(net, rank) && i < |rank| && Inspect(net, i).Match? && SumCommutes(sem)
    requires forall t :: t in CallInputs(FusedCall(net, i)) ==> InNet(net, t)
    ensures InNet(net, net.memo[i].qkv.tensor)
    ensures InNet(net, FusedCall(net, i).qkv.tensor) && InNet(net, FusedCall(net, i).bias.value)
    ensures Val(net, rank, sem, env, net.memo[i].qkv.tensor)
         == sem.op(Sum, [Val(net, rank, sem, env, FusedCall(net, i).qkv.tensor),
                         Val(net, rank, sem, env, FusedCall(net, i).bias.value)], 0)
  {
    RecordOk(net, rank, i);
    hide Inspect, ConstInputs, MutableInputs, Ranked, LayerOk, Val, SumCommutes;
    var c, s := FusedCall(net, i), net.memo[i].qkv.tensor;
    assert s in CallInputs(net.memo[i]) && Before(net, rank, i, s) by { assert CallInputs(net.memo[i])[0] == s; }
    assert CallInputs(c)[0] == c.qkv.tensor && CallInputs(c)[|CallInputs(c)| - 1] == c.bias.value;
    MatchedOperands(net, i);
    assert s == Out(s.layer, 0);
    SumValue(net, rank, sem, env, s.layer, c.qkv.tensor, c.bias.value);
  }

  /** By the plugin's contract, the rewritten call denotes the old layer's value in the old network. */
  lemma FusedCallValue<V(!new)>(net: Net, rank: seq<nat>, i: nat, sem: Semantics<V>, env: nat -> V, k: nat)
    requires Ranked(net, rank) && i < |rank| && Inspect(net, i).Match? && k < 2
    requires Lawful(sem) && Consistent(net, rank, sem, env)
    requires forall t :: t in CallInputs(FusedCall(net, i)) ==> InNet(net, t)
    ensures sem.op(CallKind(FusedCall(net, i)), Vals(net, rank, sem, env, CallInputs(FusedCall(net, i))), k)
         == Val(net, rank, sem, env, Out(i, k))
  {
    RecordOk(net, rank, i);
    hide Inspect, ConstInputs, MutableInputs, Ranked, LayerOk;
    var was, c := net.memo[i], FusedCall(net, i);
    MatchedSumValue(net, rank, i, sem, env);
    var x, b := Val(net, rank, sem, env, c.qkv.tensor), Val(net, rank, sem, env, c.bias.value);
    forall t | t in was.rest ensures InNet(net, t) { assert t in CallInputs(was); }
    var rest := Vals(net, rank, sem, env, was.rest);
    assert CallInputs(was) == [was.qkv.tensor] + was.rest;
    assert CallInputs(c) == [c.qkv.tensor] + was.rest + [c.bias.value];
    assert Vals(net, rank, sem, env, CallInputs(was)) == [sem.op(Sum, [x, b], 0)] + rest;
    assert Vals(net, rank, sem, env, CallInputs(c)) == [x] + rest + [b];
    assert CallAgrees(net, rank, sem, env, i, k);
    BiasLaw(sem, c.params, x, b, rest, k);
  }

  lemma BiasLaw<V(!new)>(sem: Semantics<V>, p: nat, x: V, b: V, rest: seq<V>, k: nat)
    requires BiasIsAdded(sem)
    ensures sem.op(Attention(p, false, true), [x] + rest + [b], k)
         == sem.op(Attention(p, false, false), [sem.op(Sum, [x, b], 0)] + rest, k)
  {
  }

  /** The tensors that a record names after the fusion keep their values. */
  lemma RecordValsKept<V(!new)>(net: Net, rank: seq<nat>, i: nat, sem: Semantics<V>, env: nat -> V, j: nat)
    requires Ranked(net, rank) && i < |rank| && Inspect(net, i).Match?
    requires Lawful(sem) && Consistent(net, rank, sem, env) && j in Fuse(net, i).memo
    ensures Ranked(Fuse(net, i), rank + [rank[i]])
    ensures forall t :: t in CallInputs(Fuse(net, i).memo[j]) ==> InNet(net, t) && InNet(Fuse(net, i), t)
    ensures Vals(Fuse(net, i), rank + [rank[i]], sem, env, CallInputs(Fuse(net, i).memo[j]))
         == Vals(net, rank, sem, env, CallInputs(Fuse(net, i).memo[j]))
  {
    FuseRanked(net, rank, i);
    var net', rank', n := Fuse(net, i), rank + [rank[i]], |rank|;
    var ins := CallInputs(net'.memo[j]);
    assert j != n && j != i ==> CallOk(net, rank, j, net.memo[j]);
    forall t | t in ins
      ensures InNet(net, t) && InNet(net', t)
      ensures Val(net', rank', sem, env, t) == Val(net, rank, sem, env, t)
    {
      if j == n || j == i {
        NewInputsBefore(net, rank, i, t);
      }
      ValAfterFuse(net, rank, i, sem, env, t);
    }
    assert forall s :: 0 <= s < |ins| ==> ins[s] in ins;
  }

  /** Fusion keeps every record consistent with its layer. */
  lemma FuseConsistent<V(!new)>(net: Net, rank: seq<nat>, i: nat, sem: Semantics<V>, env: nat -> V)
    requires Ranked(net, rank) && i < |rank| && Inspect(net, i).Match?
    requires Lawful(sem) && Consistent(net, rank, sem, env)
    ensures Ranked(Fuse(net, i), rank + [rank[i]])
    ensures Consistent(Fuse(net, i), rank + [rank[i]], sem, env)
  {
    FuseRanked(net, rank, i);
    var net', rank', n := Fuse(net, i), rank + [rank[i]], |rank|;
    forall j, k: nat | j in net'.memo && k < 2 ensures CallAgrees(net', rank', sem, env, j, k) {
      RecordValsKept(net, rank, i, sem, env, j);
      if j == n || j == i {
        FusedCallValue(net, rank, i, sem, env, k);
        NewLayerValue(net, rank, i, sem, env, k);
        ValAfterFuse(net, rank, i, sem, env, Out(i, k));
      } else {
        assert CallOk(net, rank, j, net.memo[j]);
        assert CallAgrees(net, rank, sem, env, j, k);
        ValAfterFuse(net, rank, i, sem, env, Out(j, k));
      }
    }
  }

  // ----- Constant operands -----

  /** A foldable tensor has the same value whatever the network inputs are. */
  lemma {:induction false} FoldableIsInputIndependent<V>(net: Net, rank: seq<nat>, sem: Semantics<V>,
                                                       e1: nat -> V, e2: nat -> V, t: Tensor, depth: nat)
    requires Ranked(net, rank) && InNet(net, t) && Foldable(net, t, depth)
    ensures Val(net, rank, sem, e1, t) == Val(net, rank, sem, e2, t)
    decreases MAX_DEPTH + 1 - depth
  {
    var j := t.layer;
    var ins := net.layers[j].inputs;
    ValOfOutput(net, rank, sem, e1, j, t.slot);
    ValOfOutput(net, rank, sem, e2, j, t.slot);
    forall s | 0 <= s < |ins|
      ensures Val(net, rank, sem, e1, ins[s]) == Val(net, rank, sem, e2, ins[s])
    {
      FoldableIsInputIndependent(net, rank, sem, e1, e2, ins[s], depth + 1);
    }
    assert Vals(net, rank, sem, e1, ins) == Vals(net, rank, sem, e2, ins);
  }
}
