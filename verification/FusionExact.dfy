/**
 The exact outcome of a run that starts from freshly recorded calls: which layers are fused,
 what the final network is, and when the run completes at all, all decided by the initial network.
 */
module FusionExact {
  import opened Options
  import opened NetworkGraph
  import opened Fusion
  import opened FusionRun

  /** A live layer that matches in the initial network. */
  predicate Pending(net: Net, i: nat) {
    i < |net.layers| && i !in net.removed && Inspect(net, i).Match?
  }

  // ----- Substitution of superseded outputs -----

  /** The new layer that supersedes each fused layer. */
  type Renaming = map<nat, nat>

  predicate Superseded(nu: Renaming, t: Tensor) {
    t.Out? && t.layer in nu && t.slot < 2
  }

  /** Replaces every output of a superseded layer; `nu` gives the new layer for each old one. */
  function Sub(nu: Renaming, t: Tensor): Tensor {
    if Superseded(nu, t) then Out(nu[t.layer], t.slot) else t
  }

  /** Replaces only outputs of layers fused after layer `i`. */
  function LateSub(nu: Renaming, i: nat, t: Tensor): Tensor {
    if Superseded(nu, t) && i < t.layer then Out(nu[t.layer], t.slot) else t
  }

  /** Replaces only outputs of layers fused before layer `i`. */
  function EarlySub(nu: Renaming, i: nat, t: Tensor): Tensor {
    if Superseded(nu, t) && t.layer < i then Out(nu[t.layer], t.slot) else t
  }

  function SubAll(nu: Renaming, ts: seq<Tensor>): seq<Tensor> {
    seq(|ts|, s requires 0 <= s < |ts| => Sub(nu, ts[s]))
  }

  function LateSubAll(nu: Renaming, i: nat, ts: seq<Tensor>): seq<Tensor> {
    seq(|ts|, s requires 0 <= s < |ts| => LateSub(nu, i, ts[s]))
  }

  /** `b` is `a`, or the tensor that supersedes it. */
  predicate Rel(nu: Renaming, a: Tensor, b: Tensor) {
    b == a || (Superseded(nu, a) && b == Out(nu[a.layer], a.slot))
  }

  predicate RelAll(nu: Renaming, xs: seq<Tensor>, ys: seq<Tensor>) {
    |xs| == |ys| && forall s :: 0 <= s < |xs| ==> Rel(nu, xs[s], ys[s])
  }

  // ----- The closed form -----

  /** The calls the pending layers would be rebuilt with, all taken from the initial network. */
  ghost predicate Planned(net: Net, calls: map<nat, Call>) {
    && (forall i: nat :: i in calls <==> Pending(net, i))
    && (forall i :: i in calls ==> calls[i] == FusedCall(net, i))
  }

  function PlanOf(net: Net): (calls: map<nat, Call>)
    ensures Planned(net, calls)
  {
    map i | 0 <= i < |net.layers| && Pending(net, i) :: FusedCall(net, i)
  }

  /** The inputs of the layer that supersedes `i`: its operands are current, its other arguments as recorded. */
  function FusedInputs(c: Call, nu: Renaming, i: nat): seq<Tensor>
    requires c.qkv.Fused? && c.bias.Some?
  {
    [Sub(nu, c.qkv.tensor)] + LateSubAll(nu, i, c.rest) + [Sub(nu, c.bias.value)]
  }

  function FusedRecord(c: Call, nu: Renaming, i: nat): Call
    requires c.qkv.Fused? && c.bias.Some?
  {
    c.(qkv := Fused(EarlySub(nu, i, c.qkv.tensor)), bias := Some(EarlySub(nu, i, c.bias.value)))
  }

  function FusedLayer(c: Call, nu: Renaming, i: nat): Layer
    requires c.qkv.Fused? && c.bias.Some?
  {
    Layer(Attention(c.params, false, true), FusedInputs(c, nu, i))
  }

  /** Layer `l` was added by a fusion. */
  predicate Supersedes(nu: Renaming, l: nat) {
    exists i :: i in nu && nu[i] == l
  }

  /** `nu` numbers the planned layers below `p` by the positions from `n` on. */
  ghost predicate Numbering(n: nat, calls: map<nat, Call>, nu: Renaming, p: nat) {
    && p <= n
    && (forall i :: i in calls ==> i < n && calls[i].qkv.Fused? && calls[i].bias.Some?)
    && (forall i: nat :: i in nu <==> i < p && i in calls)
    && (forall i :: i in nu ==> n <= nu[i] < n + |nu|)
    && (forall l :: n <= l < n + |nu| ==> Supersedes(nu, l))
    && Increasing(nu)
  }

  /** Layers fused later get later positions. */
  predicate Increasing(nu: Renaming) {
    forall i, j :: i in nu && j in nu && i < j ==> nu[i] < nu[j]
  }

  predicate OldLayers(net: Net, cur: Net, nu: Renaming) {
    && |net.layers| <= |cur.layers|
    && (forall l :: 0 <= l < |net.layers| ==>
          cur.layers[l] == Layer(net.layers[l].kind, SubAll(nu, net.layers[l].inputs)))
  }

  predicate NewLayers(calls: map<nat, Call>, cur: Net, nu: Renaming) {
    forall i :: i in nu ==>
      && i in calls && calls[i].qkv.Fused? && calls[i].bias.Some?
      && nu[i] < |cur.layers| && cur.layers[nu[i]] == FusedLayer(calls[i], nu, i)
  }

  predicate NewRecords(calls: map<nat, Call>, memo: map<nat, Call>, nu: Renaming) {
    forall i :: i in nu ==>
      && i in calls && calls[i].qkv.Fused? && calls[i].bias.Some?
      && i in memo && memo[i] == FusedRecord(calls[i], nu, i)
      && nu[i] in memo && memo[nu[i]] == FusedRecord(calls[i], nu, i)
  }

  predicate OldRecords(net: Net, cur: Net, nu: Renaming) {
    && MemoInRange(cur)
    && (forall l :: 0 <= l < |net.layers| && l !in nu ==> (l in cur.memo <==> l in net.memo))
    && (forall l :: 0 <= l < |net.layers| && l !in nu && l in net.memo ==> cur.memo[l] == net.memo[l])
  }

  /** `cur` is `net` with exactly the planned layers below `p` fused. */
  ghost predicate Progress(net: Net, calls: map<nat, Call>, cur: Net, nu: Renaming, p: nat) {
    && Numbering(|net.layers|, calls, nu, p)
    && |cur.layers| == |net.layers| + |nu|
    && OldLayers(net, cur, nu)
    && NewLayers(calls, cur, nu)
    && OldRecords(net, cur, nu)
    && NewRecords(calls, cur.memo, nu)
    && cur.outputs == SubAll(nu, net.outputs)
    && cur.removed == net.removed
  }

  ghost predicate Start(net: Net) {
    Acyclic(net) && FreshRecords(net)
  }

  lemma PendingFacts(net: Net, i: nat)
    requires Start(net) && Pending(net, i)
    ensures i in net.memo && net.layers[i].kind == Attention(net.memo[i].params, false, false)
    ensures net.layers[i].inputs == [net.memo[i].qkv.tensor] + net.memo[i].rest
    ensures var s := net.memo[i].qkv.tensor; s.Out? && s.layer < |net.layers| && net.layers[s.layer].kind.Sum?
    ensures forall t :: t in CallInputs(FusedCall(net, i)) ==> InNet(net, t) && t != Absent
    ensures forall t :: t in CallInputs(FusedCall(net, i)) ==> !t.Out? || t.layer != i
    ensures CallInputs(FusedCall(net, i))
         == [FusedCall(net, i).qkv.tensor] + net.memo[i].rest + [FusedCall(net, i).bias.value]
  {
    var rank :| Ranked(net, rank);
    assert net.layers[i].inputs == CallInputs(net.memo[i]);
    forall t | t in CallInputs(FusedCall(net, i)) ensures Before(net, rank, i, t) && t != Absent {
      NewInputsBefore(net, rank, i, t);
    }
  }

  lemma InitialInputs(net: Net, l: nat, t: Tensor)
    requires Start(net) && l < |net.layers| && t in net.layers[l].inputs
    ensures InNet(net, t)
  {
    var rank :| Ranked(net, rank);
    assert LayerOk(net, rank, l);
  }

  lemma FusedInputsRel(c: Call, nu: Renaming, i: nat)
    requires c.qkv.Fused? && c.bias.Some?
    ensures RelAll(nu, CallInputs(c), FusedInputs(c, nu, i))
  {
    assert CallInputs(c) == [c.qkv.tensor] + c.rest + [c.bias.value];
  }

  // ----- Folding is unaffected by fusion -----

  lemma {:induction false} FoldableMonotone(net: Net, t: Tensor, d: nat, e: nat)
    requires e <= d && Foldable(net, t, d)
    ensures Foldable(net, t, e)
    decreases MAX_DEPTH + 1 - e
  {
    var ins := net.layers[t.layer].inputs;
    if !(net.layers[t.layer].kind.Constant? && |ins| == 0) {
      forall s | 0 <= s < |ins| ensures Foldable(net, ins[s], e + 1) {
        FoldableMonotone(net, ins[s], d + 1, e + 1);
      }
    }
  }

  /** The output of a pending layer depends on a non-foldable operand, so it is not foldable. */
  lemma PendingNotFoldable(net: Net, i: nat, k: nat, d: nat)
    requires Start(net) && Pending(net, i)
    ensures !Foldable(net, Out(i, k), d)
  {
    PendingFacts(net, i);
    MatchedOperands(net, i);
    if Foldable(net, Out(i, k), d) {
      var s := net.memo[i].qkv.tensor;
      assert net.layers[i].inputs[0] == s && Foldable(net, s, d + 1);
      var x := FusedCall(net, i).qkv.tensor;
      assert exists q :: 0 <= q < 2 && net.layers[s.layer].inputs[q] == x by {
        assert net.layers[s.layer].inputs[0] == x || net.layers[s.layer].inputs[1] == x;
      }
      assert Foldable(net, x, d + 2);
      FoldableMonotone(net, x, d + 2, 0);
    }
  }

  ghost predicate NeverFoldable(net: Net, c: Call, i: nat) {
    && c.qkv.Fused? && InNet(net, c.qkv.tensor) && !Foldable(net, c.qkv.tensor, 0)
    && (forall k: nat, d: nat :: !Foldable(net, Out(i, k), d))
  }

  lemma PlannedNeverFoldable(net: Net, calls: map<nat, Call>, i: nat)
    requires Start(net) && Planned(net, calls) && i in calls
    ensures NeverFoldable(net, calls[i], i)
  {
    PendingFacts(net, i);
    MatchedOperands(net, i);
    forall k: nat, d: nat ensures !Foldable(net, Out(i, k), d) {
      PendingNotFoldable(net, i, k, d);
    }
    assert CallInputs(calls[i])[0] == calls[i].qkv.tensor;
  }

  lemma NeverFoldableFacts(net: Net, c: Call, i: nat, k: nat, d: nat)
    requires NeverFoldable(net, c, i)
    ensures c.qkv.Fused? && InNet(net, c.qkv.tensor) && !Foldable(net, c.qkv.tensor, 0) && !Foldable(net, Out(i, k), d)
  {
  }

  lemma FoldableLeaf(net: Net, cur: Net, nu: Renaming, t: Tensor, d: nat)
    requires !t.Out?
    ensures Foldable(cur, Sub(nu, t), d) == Foldable(net, t, d)
  {
  }

  lemma FoldableCongruent(net: Net, cur: Net, l: nat, k: nat, d: nat)
    requires l < |net.layers| <= |cur.layers| && cur.layers[l].kind == net.layers[l].kind
    requires |cur.layers[l].inputs| == |net.layers[l].inputs|
    requires d <= MAX_DEPTH ==> forall s :: 0 <= s < |net.layers[l].inputs| ==>
               Foldable(cur, cur.layers[l].inputs[s], d + 1) == Foldable(net, net.layers[l].inputs[s], d + 1)
    ensures Foldable(cur, Out(l, k), d) == Foldable(net, Out(l, k), d)
  {
  }

  lemma UnfoldableInput(cur: Net, l: nat, k: nat, d: nat)
    requires l < |cur.layers| && !cur.layers[l].kind.Constant? && |cur.layers[l].inputs| > 0
    requires d <= MAX_DEPTH ==> !Foldable(cur, cur.layers[l].inputs[0], d + 1)
    ensures !Foldable(cur, Out(l, k), d)
  {
  }

  lemma {:induction false} FoldableTracks(net: Net, calls: map<nat, Call>, cur: Net, nu: Renaming, t: Tensor, d: nat)
    requires OldLayers(net, cur, nu) && NewLayers(calls, cur, nu) && InNet(net, t)
    requires forall l, s :: 0 <= l < |net.layers| && 0 <= s < |net.layers[l].inputs| ==> InNet(net, net.layers[l].inputs[s])
    requires forall i :: i in calls ==> NeverFoldable(net, calls[i], i)
    ensures Foldable(cur, Sub(nu, t), d) == Foldable(net, t, d)
    decreases MAX_DEPTH + 1 - d
  {
    hide Foldable, NeverFoldable;
    if !t.Out? {
      FoldableLeaf(net, cur, nu, t, d);
    } else {
      if Superseded(nu, t) {
        var x := calls[t.layer].qkv.tensor;
        assert NeverFoldable(net, calls[t.layer], t.layer);
        NeverFoldableFacts(net, calls[t.layer], t.layer, t.slot, d);
        assert cur.layers[nu[t.layer]].inputs[0] == Sub(nu, x);
        if d <= MAX_DEPTH {
          FoldableTracks(net, calls, cur, nu, x, d + 1);
          if Foldable(net, x, d + 1) {
            FoldableMonotone(net, x, d + 1, 0);
          }
        }
        UnfoldableInput(cur, nu[t.layer], t.slot, d);
      } else {
        var ins, ins' := net.layers[t.layer].inputs, cur.layers[t.layer].inputs;
        forall s | d <= MAX_DEPTH && 0 <= s < |ins| ensures Foldable(cur, ins'[s], d + 1) == Foldable(net, ins[s], d + 1) {
          FoldableTracks(net, calls, cur, nu, ins[s], d + 1);
        }
        FoldableCongruent(net, cur, t.layer, t.slot, d);
      }
    }
  }

  /** Whether a tensor counts as constant is not changed by the fusions done so far. */
  lemma FoldableUnaffected(net: Net, calls: map<nat, Call>, cur: Net, nu: Renaming, p: nat, t: Tensor, d: nat)
    requires Start(net) && Planned(net, calls) && Progress(net, calls, cur, nu, p) && InNet(net, t)
    ensures Foldable(cur, Sub(nu, t), d) == Foldable(net, t, d)
  {
    forall i | i in calls ensures NeverFoldable(net, calls[i], i) {
      PlannedNeverFoldable(net, calls, i);
    }
    forall l, s | 0 <= l < |net.layers| && 0 <= s < |net.layers[l].inputs|
      ensures InNet(net, net.layers[l].inputs[s])
    {
      InitialInputs(net, l, net.layers[l].inputs[s]);
    }
    FoldableTracks(net, calls, cur, nu, t, d);
  }

  lemma {:induction false} FiltersCommute(net: Net, cur: Net, nu: Renaming, ts: seq<Tensor>)
    requires forall t :: t in ts ==> Foldable(cur, Sub(nu, t), 0) == Foldable(net, t, 0)
    ensures ConstInputs(cur, SubAll(nu, ts)) == SubAll(nu, ConstInputs(net, ts))
    ensures MutableInputs(cur, SubAll(nu, ts)) == SubAll(nu, MutableInputs(net, ts))
  {
    if ts != [] {
      var rest := ts[1..];
      FiltersCommute(net, cur, nu, rest);
      assert SubAll(nu, ts)[1..] == SubAll(nu, rest);
      assert ts[0] in ts;
      SubAllCons(nu, ts[0], ConstInputs(net, rest));
      SubAllCons(nu, ts[0], MutableInputs(net, rest));
      if Foldable(net, ts[0], 0) {
        assert ConstInputs(net, ts) == [ts[0]] + ConstInputs(net, rest);
      } else {
        assert MutableInputs(net, ts) == [ts[0]] + MutableInputs(net, rest);
      }
    }
  }

  lemma SubAllCons(nu: Renaming, t: Tensor, ts: seq<Tensor>)
    ensures SubAll(nu, [t] + ts) == [Sub(nu, t)] + SubAll(nu, ts)
  {
  }

  lemma FiltersUnaffected(net: Net, calls: map<nat, Call>, cur: Net, nu: Renaming, p: nat, ts: seq<Tensor>)
    requires Start(net) && Planned(net, calls) && Progress(net, calls, cur, nu, p) && forall t :: t in ts ==> InNet(net, t)
    ensures ConstInputs(cur, SubAll(nu, ts)) == SubAll(nu, ConstInputs(net, ts))
    ensures MutableInputs(cur, SubAll(nu, ts)) == SubAll(nu, MutableInputs(net, ts))
  {
    forall t | t in ts ensures Foldable(cur, Sub(nu, t), 0) == Foldable(net, t, 0) {
      FoldableUnaffected(net, calls, cur, nu, p, t, 0);
    }
    FiltersCommute(net, cur, nu, ts);
  }
}
