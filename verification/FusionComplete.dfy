/**
 What a completed run leaves, in terms of the graph alone: every fusible layer, and no other, is
 superseded by a layer that takes the constant operand as its bias and the other one as its qkv.
 */
module FusionComplete {
  import opened Options
  import opened NetworkGraph
  import opened Fusion
  import opened FusionRun
  import opened FusionExact
  import opened FusionOutcome
  import opened FusionTheorem
  import opened FusionPattern

  /** A live layer that fits the pattern. */
  ghost predicate LiveFusible(net: Net, i: nat) {
    i !in net.removed && exists x, b :: Fusible(net, i, x, b)
  }

  lemma PendingIff(net: Net, i: nat)
    ensures Pending(net, i) <==> LiveFusible(net, i)
  {
    hide Inspect, ShallowConstant, UsedOnce;
    if i < |net.layers| {
      MatchIff(net, i);
    }
  }

  /** The tensor that stands for `t` once every layer of `nu` is superseded by the layer it is sent to. */
  function Current(nu: map<nat, nat>, t: Tensor): Tensor {
    if t.Out? && t.layer in nu && t.slot < 2 then Out(nu[t.layer], t.slot) else t
  }

  /** `to` is `from` with every tensor brought up to date. */
  predicate AllCurrent(nu: map<nat, nat>, from: seq<Tensor>, to: seq<Tensor>) {
    |from| == |to| && forall s :: 0 <= s < |from| ==> to[s] == Current(nu, from[s])
  }

  /** Layer i, with operands x and b, is superseded: new layer, new records, constant operand as bias. */
  ghost predicate SupersededBy(net: Net, final: Net, nu: map<nat, nat>, i: nat, x: Tensor, b: Tensor)
    requires i in net.memo && i in nu
  {
    var n, call := nu[i], net.memo[i];
    && |net.layers| <= n < |final.layers|
    && final.layers[n].kind == Attention(call.params, false, true)
    && |final.layers[n].inputs| == |call.rest| + 2
    && final.layers[n].inputs[0] == Current(nu, x) && final.layers[n].inputs[|call.rest| + 1] == b
    && (forall s :: 0 <= s < |call.rest| ==>
          final.layers[n].inputs[s + 1] ==
          if call.rest[s].Out? && i < call.rest[s].layer then Current(nu, call.rest[s]) else call.rest[s])
    && i in final.memo && n in final.memo && final.memo[n] == final.memo[i]
    && final.memo[i].params == call.params && final.memo[i].rest == call.rest
    && final.memo[i].bias == Some(b)
    && final.memo[i].qkv == Fused(if x.Out? && x.layer < i then Current(nu, x) else x)
  }

  /** What the run makes of the network; `nu` sends each fused layer to the one that supersedes it. */
  ghost predicate FusedEverywhere(net: Net, final: Net, nu: map<nat, nat>) {
    && (forall i: nat :: i in nu <==> LiveFusible(net, i))
    && Increasing(nu)
    && (forall i: nat, x, b :: i in nu && Fusible(net, i, x, b) ==> SupersededBy(net, final, nu, i, x, b))
    && RestCurrent(net, final, nu)
  }

  /** Everything else is kept: kinds and records as they were, inputs and outputs brought up to date. */
  ghost predicate RestCurrent(net: Net, final: Net, nu: map<nat, nat>) {
    && |final.layers| == |net.layers| + |nu|
    && (forall l :: 0 <= l < |net.layers| ==>
          final.layers[l].kind == net.layers[l].kind && AllCurrent(nu, net.layers[l].inputs, final.layers[l].inputs))
    && AllCurrent(nu, net.outputs, final.outputs) && final.removed == net.removed
    && (forall l :: 0 <= l < |net.layers| && l !in nu ==> SameRecord(net, final, l))
  }

  predicate SameRecord(net: Net, final: Net, l: nat) {
    (l in final.memo <==> l in net.memo) && (l in net.memo ==> final.memo[l] == net.memo[l])
  }

  lemma SubIsCurrent(nu: Renaming, t: Tensor)
    ensures Sub(nu, t) == Current(nu, t)
  {
  }

  /** A constant operand is no output of a fused layer, so it is the same tensor before and after. */
  lemma ConstantKept(net: Net, calls: map<nat, Call>, nu: Renaming, b: Tensor)
    requires Start(net) && Planned(net, calls) && ShallowConstant(net, b)
    requires forall i: nat :: i in nu ==> i in calls
    ensures Sub(nu, b) == b && forall i: nat :: EarlySub(nu, i, b) == b
  {
    hide Foldable, Inspect, ShallowConstant, Start;
    FoldableIff(net, b);
    if Superseded(nu, b) {
      PendingNotFoldable(net, b.layer, b.slot, 0);
    }
  }

  lemma PairSuperseded(net: Net, calls: map<nat, Call>, cur: Net, nu: Renaming, i: nat, x: Tensor, b: Tensor)
    requires Start(net) && Planned(net, calls) && Progress(net, calls, cur, nu, |net.layers|)
    requires i in nu && Fusible(net, i, x, b)
    ensures SupersededBy(net, cur, nu, i, x, b)
  {
    hide Inspect, Start, Progress, Planned, Fusible, FusedRecord, FusedLayer;
    FusedPosition(net, calls, cur, nu, i);
    FusibleCall(net, calls, i, x, b);
    ConstantKept(net, calls, nu, b);
    FusedLookup(net, calls, cur, nu, |net.layers|, i, i);
    FusedLookup(net, calls, cur, nu, |net.layers|, i, nu[i]);
    RecordIs(calls[i], nu, i);
    LayerIs(calls[i], nu, i);
  }

  lemma FusibleCall(net: Net, calls: map<nat, Call>, i: nat, x: Tensor, b: Tensor)
    requires Planned(net, calls) && i in calls && Fusible(net, i, x, b)
    ensures i in net.memo && calls[i] == net.memo[i].(qkv := Fused(x), bias := Some(b)) && ShallowConstant(net, b)
  {
    hide Inspect, ShallowConstant, UsedOnce;
    MatchIff(net, i);
    assert calls[i] == FusedCall(net, i);
  }

  lemma FusedPosition(net: Net, calls: map<nat, Call>, cur: Net, nu: Renaming, i: nat)
    requires Progress(net, calls, cur, nu, |net.layers|) && i in nu
    ensures forall j: nat :: j in nu ==> j in calls
    ensures calls[i].qkv.Fused? && calls[i].bias.Some?
    ensures |net.layers| <= nu[i] < |cur.layers| && cur.layers[nu[i]] == FusedLayer(calls[i], nu, i)
  {
    hide OldLayers, OldRecords, NewRecords, FusedLayer, Increasing;
  }

  lemma RecordIs(c: Call, nu: Renaming, i: nat)
    requires c.qkv.Fused? && c.bias.Some? && EarlySub(nu, i, c.bias.value) == c.bias.value
    ensures var x := c.qkv.tensor;
            FusedRecord(c, nu, i) == c.(qkv := Fused(if x.Out? && x.layer < i then Current(nu, x) else x))
  {
  }

  lemma LayerIs(c: Call, nu: Renaming, i: nat)
    requires c.qkv.Fused? && c.bias.Some? && Sub(nu, c.bias.value) == c.bias.value
    ensures var l := FusedLayer(c, nu, i);
            l.kind == Attention(c.params, false, true) && |l.inputs| == |c.rest| + 2 &&
            l.inputs[0] == Current(nu, c.qkv.tensor) && l.inputs[|c.rest| + 1] == c.bias.value &&
            forall s :: 0 <= s < |c.rest| ==>
              l.inputs[s + 1] == if c.rest[s].Out? && i < c.rest[s].layer then Current(nu, c.rest[s]) else c.rest[s]
  {
  }

  lemma RestIsCurrent(net: Net, calls: map<nat, Call>, cur: Net, nu: Renaming)
    requires Progress(net, calls, cur, nu, |net.layers|)
    ensures RestCurrent(net, cur, nu)
  {
    hide Numbering, NewLayers, NewRecords;
    forall l | 0 <= l < |net.layers| ensures AllCurrent(nu, net.layers[l].inputs, cur.layers[l].inputs) {
      assert cur.layers[l] == Layer(net.layers[l].kind, SubAll(nu, net.layers[l].inputs));
    }
  }

  lemma WhichFused(net: Net, calls: map<nat, Call>, cur: Net, nu: Renaming)
    requires Planned(net, calls) && Progress(net, calls, cur, nu, |net.layers|)
    ensures Increasing(nu) && forall i: nat :: i in nu <==> Pending(net, i)
  {
    hide Pending, OldLayers, NewLayers, OldRecords, NewRecords, Increasing;
  }

  lemma ClosedFormIsComplete(net: Net, calls: map<nat, Call>, cur: Net, nu: Renaming)
    requires Start(net) && Planned(net, calls) && Progress(net, calls, cur, nu, |net.layers|)
    ensures FusedEverywhere(net, cur, nu)
  {
    hide Pending, LiveFusible, Fusible, Start, SupersededBy, Progress, Planned, RestCurrent, Increasing;
    WhichFused(net, calls, cur, nu);
    RestIsCurrent(net, calls, cur, nu);
    forall i: nat ensures i in nu <==> LiveFusible(net, i) {
      PendingIff(net, i);
    }
    forall i: nat, x, b | i in nu && Fusible(net, i, x, b) ensures i in net.memo && SupersededBy(net, cur, nu, i, x, b) {
      FusibleRecorded(net, i, x, b);
      PairSuperseded(net, calls, cur, nu, i, x, b);
    }
  }

  lemma FusibleRecorded(net: Net, i: nat, x: Tensor, b: Tensor)
    requires Fusible(net, i, x, b)
    ensures i in net.memo
  {
  }

  /** Every completed run fuses every live fusible layer of the initial network, exactly so, and nothing else. */
  lemma RunFusesEveryFusible(net: Net)
    requires Start(net) && MemoInRange(net) && Run(net).Some?
    ensures exists nu :: FusedEverywhere(net, Run(net).value, nu)
  {
    hide Run, Progress, FusedEverywhere, Start, SafeToRun, Pass;
    RunOutcome(net);
    var calls := PlanOf(net);
    var nu :| Progress(net, calls, Run(net).value, nu, |net.layers|);
    ClosedFormIsComplete(net, calls, Run(net).value, nu);
  }

  /** A layer that takes an output of p twice, or beside an unset input. */
  predicate BadUser(ins: seq<Tensor>, p: nat) {
    exists k: nat :: k < 2 && Out(p, k) in ins && (Absent in ins || TakenTwice(ins, Out(p, k)))
  }

  predicate TakenTwice(ins: seq<Tensor>, t: Tensor) {
    exists a, b :: 0 <= a < b < |ins| && ins[a] == t && ins[b] == t
  }

  lemma BadUserIff(layers: seq<Layer>, p: nat)
    ensures AllRewirable(layers, p) <==> forall l :: 0 <= l < |layers| ==> !BadUser(layers[l].inputs, p)
  {
    forall ins, k: nat | k < 2 ensures Rewirable(ins, Out(p, k)) <==>
      !(Out(p, k) in ins && (Absent in ins || TakenTwice(ins, Out(p, k))))
    {
    }
    hide Rewirable, TakenTwice;
  }

  /**
   For networks in creation order: the run completes exactly when looking at no live layer raises and no
   layer takes an output of a live fusible layer twice or beside an unset input.
   */
  lemma RunCompletesIff(net: Net)
    requires FreshRecords(net) && Ranked(net, seq(|net.layers|, l requires 0 <= l => l))
    ensures MemoInRange(net)
    ensures Run(net).Some? <==>
              forall p :: 0 <= p < |net.layers| && p !in net.removed ==>
                !Unmatchable(net, p) &&
                (LiveFusible(net, p) ==> forall l :: 0 <= l < |net.layers| ==> !BadUser(net.layers[l].inputs, p))
  {
    hide Run, SafeToRun, Pass, Inspect, Unmatchable, LiveFusible, BadUser, AllRewirable, Ranked;
    assert Start(net);
    RunOutcome(net);
    CreationOrderSafety(net);
    forall p | 0 <= p < |net.layers| && p !in net.removed
      ensures Inspect(net, p).Crash? <==> Unmatchable(net, p)
      ensures Inspect(net, p).Match? <==> LiveFusible(net, p)
      ensures AllRewirable(net.layers, p) <==> forall l :: 0 <= l < |net.layers| ==> !BadUser(net.layers[l].inputs, p)
    {
      RaiseIff(net, p);
      PendingIff(net, p);
      BadUserIff(net.layers, p);
    }
  }
}
