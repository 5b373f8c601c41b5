/**
 The fusion pattern in terms of the graph: which tensors count as constant, which layers match and
 which make the matching raise, with no reference to how the search is carried out.
 */
module FusionPattern {
  import opened Options
  import opened NetworkGraph
  import opened Fusion

  // ----- Constant tensors -----

  predicate Produced(net: Net, t: Tensor) {
    t.Out? && t.layer < |net.layers|
  }

  /** A tensor, then an input of its producer, then an input of that one's producer, and so on. */
  predicate Chain(net: Net, c: seq<Tensor>) {
    |c| > 0 && forall k :: 0 <= k < |c| - 1 ==> Produced(net, c[k]) && c[k + 1] in net.layers[c[k].layer].inputs
  }

  predicate ChainFrom(net: Net, t: Tensor, c: seq<Tensor>) {
    Chain(net, c) && c[0] == t
  }

  /** Going back from the tensor one meets only outputs of layers, and the way back ends within eleven tensors. */
  ghost predicate ShallowConstant(net: Net, t: Tensor) {
    forall c :: ChainFrom(net, t, c) ==> |c| <= 11 && Produced(net, c[|c| - 1])
  }

  lemma {:induction false} FoldableChain(net: Net, t: Tensor, d: nat, c: seq<Tensor>)
    requires Foldable(net, t, d) && ChainFrom(net, t, c)
    ensures |c| + d <= 11 && Produced(net, c[|c| - 1])
    decreases |c|
  {
    if |c| > 1 {
      var rest := c[1..];
      assert Produced(net, c[0]) && c[1] in net.layers[c[0].layer].inputs;
      forall k | 0 <= k < |rest| - 1
        ensures Produced(net, rest[k]) && rest[k + 1] in net.layers[rest[k].layer].inputs
      {
        assert rest[k] == c[k + 1] && rest[k + 1] == c[k + 2];
      }
      FoldableChain(net, c[1], d + 1, rest);
    }
  }

  /** A tensor that is not foldable has a chain that shows it. */
  lemma {:induction false} UnfoldableChain(net: Net, t: Tensor, d: nat) returns (c: seq<Tensor>)
    requires !Foldable(net, t, d) && d <= 11
    ensures ChainFrom(net, t, c) && !(|c| + d <= 11 && Produced(net, c[|c| - 1]))
    decreases 11 - d
  {
    c := [t];
    if Produced(net, t) && d <= 10 {
      var ins := net.layers[t.layer].inputs;
      var s :| 0 <= s < |ins| && !Foldable(net, ins[s], d + 1);
      var rest := UnfoldableChain(net, ins[s], d + 1);
      c := [t] + rest;
      forall k | 0 <= k < |c| - 1 ensures Produced(net, c[k]) && c[k + 1] in net.layers[c[k].layer].inputs {
        if k > 0 {
          assert c[k] == rest[k - 1] && c[k + 1] == rest[k];
        }
      }
    }
  }

  /** The search accepts exactly the tensors that depend on layer outputs only, within eleven levels. */
  lemma FoldableIff(net: Net, t: Tensor)
    ensures Foldable(net, t, 0) <==> ShallowConstant(net, t)
  {
    hide Foldable;
    if Foldable(net, t, 0) {
      forall c | ChainFrom(net, t, c) ensures |c| <= 11 && Produced(net, c[|c| - 1]) {
        FoldableChain(net, t, 0, c);
      }
    } else {
      var c := UnfoldableChain(net, t, 0);
      assert ChainFrom(net, t, c);
    }
  }

  lemma {:induction false} ConstInputsIff(net: Net, ts: seq<Tensor>, t: Tensor)
    ensures t in ConstInputs(net, ts) <==> t in ts && ShallowConstant(net, t)
    ensures t in MutableInputs(net, ts) <==> t in ts && !ShallowConstant(net, t)
    decreases |ts|
  {
    hide Foldable, ShallowConstant;
    if ts != [] {
      FoldableIff(net, t);
      ConstInputsIff(net, ts[1..], t);
      assert ts == [ts[0]] + ts[1..];
    }
  }

  // ----- The pattern -----

  predicate IsUse(net: Net, t: Tensor, l: nat, s: nat) {
    l < |net.layers| && s < |net.layers[l].inputs| && net.layers[l].inputs[s] == t
  }

  /** Exactly one input of one layer is the tensor. */
  ghost predicate UsedOnce(net: Net, t: Tensor) {
    exists l: nat, s: nat :: IsUse(net, t, l, s) && OnlyUse(net, t, l, s)
  }

  ghost predicate OnlyUse(net: Net, t: Tensor, l: nat, s: nat) {
    forall l': nat, s': nat :: IsUse(net, t, l', s') ==> l' == l && s' == s
  }

  /** The layer is a recorded attention call on one qkv tensor that nothing else uses. */
  ghost predicate SoleQkv(net: Net, i: nat) {
    i < |net.layers| && net.layers[i].kind.Attention? && i in net.memo && net.memo[i].qkv.Fused? &&
    UsedOnce(net, net.memo[i].qkv.tensor)
  }

  /** Without a bias, and its qkv is the sum, in either order, of a tensor that is not constant and one that is. */
  ghost predicate Fusible(net: Net, i: nat, x: Tensor, b: Tensor) {
    SoleQkv(net, i) && net.memo[i].bias.None? && Produced(net, net.memo[i].qkv.tensor) &&
    IsSumOf(net.layers[net.memo[i].qkv.tensor.layer], x, b) && ShallowConstant(net, b) && !ShallowConstant(net, x)
  }

  predicate IsSumOf(layer: Layer, x: Tensor, y: Tensor) {
    layer.kind.Sum? && (layer.inputs == [x, y] || layer.inputs == [y, x])
  }

  /** Looking at the layer raises: its call was not recorded, or nothing produces its sole qkv. */
  ghost predicate Unmatchable(net: Net, i: nat) {
    i < |net.layers| && net.layers[i].kind.Attention? &&
    (i !in net.memo || (SoleQkv(net, i) && !Produced(net, net.memo[i].qkv.tensor)))
  }

  lemma UsedOnceIff(net: Net, t: Tensor)
    ensures |UserSlots(net, t)| == 1 <==> UsedOnce(net, t)
  {
    var slots := UserSlots(net, t);
    forall l: nat, s: nat ensures IsUse(net, t, l, s) <==> (l, s) in slots {
    }
    if |slots| == 1 {
      var u :| u in slots;
      forall v | v in slots ensures v == u {
        if v != u {
          TwoElements(slots, u, v);
        }
      }
      assert IsUse(net, t, u.0, u.1) && OnlyUse(net, t, u.0, u.1);
    }
    if UsedOnce(net, t) {
      var l: nat, s: nat :| IsUse(net, t, l, s) && OnlyUse(net, t, l, s);
      assert slots == {(l, s)};
    }
  }

  lemma TwoElements<T>(xs: set<T>, a: T, b: T)
    requires a in xs && b in xs && a != b
    ensures |xs| >= 2
  {
    assert xs == {a, b} + (xs - {a, b});
    assert |{a, b}| == 2;
  }

  lemma OperandsIff(net: Net, ts: seq<Tensor>)
    ensures |ConstInputs(net, ts)| == 1 && |MutableInputs(net, ts)| == 1 <==>
            |ts| == 2 && (Foldable(net, ts[0], 0) <==> !Foldable(net, ts[1], 0))
    ensures |ConstInputs(net, ts)| == 1 && |MutableInputs(net, ts)| == 1 ==>
            var (x, b) := if Foldable(net, ts[0], 0) then (ts[1], ts[0]) else (ts[0], ts[1]);
            MutableInputs(net, ts) == [x] && ConstInputs(net, ts) == [b]
  {
    hide Foldable;
    FilterLength(net, ts);
    if |ts| == 2 {
      assert ts[1..] == [ts[1]] && ts[1..][1..] == [];
    }
  }

  /** A layer matches exactly when it is fusible, and then its operands become qkv and bias. */
  lemma MatchIff(net: Net, i: nat)
    requires i < |net.layers|
    ensures Inspect(net, i).Match? <==> exists x, b :: Fusible(net, i, x, b)
    ensures forall x, b :: Fusible(net, i, x, b) ==>
              Inspect(net, i).Match? && FusedCall(net, i).qkv == Fused(x) && FusedCall(net, i).bias == Some(b)
  {
    hide Foldable, ShallowConstant, UsedOnce, UserSlots, ConstInputs, MutableInputs;
    if i in net.memo && net.memo[i].qkv.Fused? {
      UsedOnceIff(net, net.memo[i].qkv.tensor);
      if Produced(net, net.memo[i].qkv.tensor) {
        var operands := net.layers[net.memo[i].qkv.tensor.layer].inputs;
        OperandsIff(net, operands);
        if |operands| == 2 {
          FoldableIff(net, operands[0]);
          FoldableIff(net, operands[1]);
          assert operands == [operands[0], operands[1]];
        }
        if Inspect(net, i).Match? {
          var (x, b) := if Foldable(net, operands[0], 0) then (operands[1], operands[0]) else (operands[0], operands[1]);
          assert Fusible(net, i, x, b);
        }
      }
    }
  }

  lemma RaiseIff(net: Net, i: nat)
    requires i < |net.layers|
    ensures Inspect(net, i).Crash? <==> Unmatchable(net, i)
  {
    hide Foldable, ShallowConstant, UsedOnce, UserSlots, ConstInputs, MutableInputs;
    if i in net.memo && net.memo[i].qkv.Fused? {
      UsedOnceIff(net, net.memo[i].qkv.tensor);
    }
  }
}
