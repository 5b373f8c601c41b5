/**
 Step by step, a run follows the closed form of `FusionExact`; hence the exact set of fused
 layers and the exact condition under which a run completes.
 */
module FusionOutcome {
  import opened Options
  import opened NetworkGraph
  import opened Fusion
  import opened FusionExact

  lemma SingletonSet<T>(a: set<T>, x: T)
    requires x in a
    ensures |a| == 1 <==> a == {x}
  {
    assert a == {x} + (a - {x});
  }

  // ----- Users -----

  lemma RelSame(net: Net, nu: Renaming, t: Tensor, a: Tensor, b: Tensor)
    requires forall i :: i in nu ==> |net.layers| <= nu[i]
    requires InNet(net, t) && !Superseded(nu, t) && Rel(nu, a, b)
    ensures b == t <==> a == t
  {
  }

  /** A layer added by the run uses `t` only if the layer it supersedes, or that layer's sum, already did. */
  lemma NewUserHadUser(net: Net, i: nat, t: Tensor)
    requires Start(net) && Pending(net, i) && t in CallInputs(FusedCall(net, i))
    ensures exists l, s :: (l, s) in UserSlots(net, t) && (l == i || net.layers[l].kind.Sum?)
  {
    PendingFacts(net, i);
    MatchedOperands(net, i);
    var sum := net.memo[i].qkv.tensor.layer;
    if t in net.memo[i].rest {
      var s :| 0 <= s < |net.memo[i].rest| && net.memo[i].rest[s] == t;
      assert net.layers[i].inputs[s + 1] == t;
      assert (i, s + 1) in UserSlots(net, t);
    } else {
      var s :| 0 <= s < 2 && net.layers[sum].inputs[s] == t;
      assert (sum, s) in UserSlots(net, t);
    }
  }

  lemma SoleUserBlocks(net: Net, i: nat, q: nat, t: Tensor)
    requires Start(net) && Pending(net, i) && t in CallInputs(FusedCall(net, i))
    requires q < |net.layers| && net.layers[q].kind.Attention? && UserSlots(net, t) == {(q, 0)}
    ensures i == q
  {
    NewUserHadUser(net, i, t);
  }

  lemma OldSlotKept(net: Net, calls: map<nat, Call>, cur: Net, nu: Renaming, p: nat, t: Tensor, l: nat, s: nat)
    requires Progress(net, calls, cur, nu, p) && InNet(net, t) && !Superseded(nu, t) && l < |net.layers|
    ensures l < |cur.layers| && |cur.layers[l].inputs| == |net.layers[l].inputs|
    ensures s < |net.layers[l].inputs| ==> (cur.layers[l].inputs[s] == t <==> net.layers[l].inputs[s] == t)
  {
    if s < |net.layers[l].inputs| {
      RelSame(net, nu, t, net.layers[l].inputs[s], cur.layers[l].inputs[s]);
    }
  }

  lemma NewSlotSource(net: Net, calls: map<nat, Call>, cur: Net, nu: Renaming, p: nat, t: Tensor, l: nat)
    requires Progress(net, calls, cur, nu, p) && InNet(net, t) && !Superseded(nu, t)
    requires |net.layers| <= l < |cur.layers| && t in cur.layers[l].inputs
    ensures exists i :: i in nu && t in CallInputs(calls[i])
  {
    assert Supersedes(nu, l);
    var i :| i in nu && nu[i] == l;
    FusedInputsRel(calls[i], nu, i);
    var xs := CallInputs(calls[i]);
    var s :| 0 <= s < |xs| && cur.layers[l].inputs[s] == t;
    RelSame(net, nu, t, xs[s], cur.layers[l].inputs[s]);
    assert xs[s] in xs;
  }

  lemma OldUsersKept(net: Net, calls: map<nat, Call>, cur: Net, nu: Renaming, p: nat, t: Tensor)
    requires Progress(net, calls, cur, nu, p) && InNet(net, t) && !Superseded(nu, t)
    ensures UserSlots(net, t) == set u | u in UserSlots(cur, t) && u.0 < |net.layers|
  {
    var kept := set u | u in UserSlots(cur, t) && u.0 < |net.layers|;
    forall u: (nat, nat) ensures u in UserSlots(net, t) <==> u in kept {
      if u.0 < |net.layers| {
        OldSlotKept(net, calls, cur, nu, p, t, u.0, u.1);
      }
    }
  }

  /** No layer added by the run uses the qkv tensor of a layer that was its only user. */
  lemma NoNewUser(net: Net, calls: map<nat, Call>, cur: Net, nu: Renaming, p: nat, q: nat, t: Tensor, u: (nat, nat))
    requires Start(net) && Planned(net, calls) && Progress(net, calls, cur, nu, p)
    requires q < |net.layers| && q !in nu && net.layers[q].kind.Attention?
    requires InNet(net, t) && !Superseded(nu, t)
    requires UserSlots(net, t) == {(q, 0)} && u in UserSlots(cur, t)
    ensures u.0 < |net.layers|
  {
    if u.0 >= |net.layers| {
      NewSlotSource(net, calls, cur, nu, p, t, u.0);
      var i :| i in nu && t in CallInputs(calls[i]);
      SoleUserBlocks(net, i, q, t);
    }
  }

  /** Being the only use of its qkv tensor is decided by the initial network. */
  lemma SoleUseUnaffected(net: Net, calls: map<nat, Call>, cur: Net, nu: Renaming, p: nat, q: nat, t: Tensor)
    requires Start(net) && Planned(net, calls) && Progress(net, calls, cur, nu, p)
    requires q < |net.layers| && q !in nu && net.layers[q].kind.Attention?
    requires InNet(net, t) && !Superseded(nu, t) && (q, 0) in UserSlots(net, t)
    ensures |UserSlots(cur, t)| == 1 <==> |UserSlots(net, t)| == 1
  {
    var was, now := UserSlots(net, t), UserSlots(cur, t);
    OldUsersKept(net, calls, cur, nu, p, t);
    SingletonSet(was, (q, 0));
    SingletonSet(now, (q, 0));
    if was == {(q, 0)} {
      forall u | u in now ensures u in was {
        NoNewUser(net, calls, cur, nu, p, q, t, u);
      }
    }
  }

  // ----- Verdicts -----

  /** The verdict depends only on the facts the code looks at. */
  lemma InspectSame(net: Net, cur: Net, q: nat)
    requires q < |net.layers| <= |cur.layers|
    requires net.layers[q].kind == cur.layers[q].kind && (q in net.memo <==> q in cur.memo)
    requires q in net.memo ==> cur.memo[q] == net.memo[q]
    requires net.layers[q].kind.Attention? && q in net.memo && net.memo[q].qkv.Fused? ==>
               var t := net.memo[q].qkv.tensor;
               && (t.Out? ==> t.layer < |net.layers| && cur.layers[t.layer].kind == net.layers[t.layer].kind)
               && (!t.Out? || net.layers[t.layer].kind.Sum? ==>
                     (|UserSlots(cur, t)| == 1 <==> |UserSlots(net, t)| == 1))
               && (t.Out? && net.layers[t.layer].kind.Sum? ==>
                     && |ConstInputs(cur, cur.layers[t.layer].inputs)| == |ConstInputs(net, net.layers[t.layer].inputs)|
                     && |MutableInputs(cur, cur.layers[t.layer].inputs)| == |MutableInputs(net, net.layers[t.layer].inputs)|)
    ensures Inspect(cur, q) == Inspect(net, q)
  {
  }

  lemma OperandsUnaffected(net: Net, calls: map<nat, Call>, cur: Net, nu: Renaming, p: nat, l: nat)
    requires Start(net) && Planned(net, calls) && Progress(net, calls, cur, nu, p) && l < |net.layers|
    ensures l < |cur.layers| && cur.layers[l].kind == net.layers[l].kind
    ensures ConstInputs(cur, cur.layers[l].inputs) == SubAll(nu, ConstInputs(net, net.layers[l].inputs))
    ensures MutableInputs(cur, cur.layers[l].inputs) == SubAll(nu, MutableInputs(net, net.layers[l].inputs))
  {
    var operands := net.layers[l].inputs;
    forall o | o in operands ensures InNet(net, o) { InitialInputs(net, l, o); }
    FiltersUnaffected(net, calls, cur, nu, p, operands);
  }

  /** A layer not yet reached is judged as it would have been at the start. */
  lemma InspectUnaffected(net: Net, calls: map<nat, Call>, cur: Net, nu: Renaming, p: nat, q: nat)
    requires Start(net) && Planned(net, calls) && Progress(net, calls, cur, nu, p)
    requires q < |net.layers| && q !in nu
    ensures q < |cur.layers| && Inspect(cur, q) == Inspect(net, q)
  {
    if net.layers[q].kind.Attention? && q in net.memo && net.memo[q].qkv.Fused? {
      var t := net.memo[q].qkv.tensor;
      assert net.layers[q].inputs[0] == t && (q, 0) in UserSlots(net, t);
      InitialInputs(net, q, t);
      if t.Out? {
        OperandsUnaffected(net, calls, cur, nu, p, t.layer);
      }
      if t.Out? && t.layer in nu {
        PendingFacts(net, t.layer);
      } else {
        SoleUseUnaffected(net, calls, cur, nu, p, q, t);
      }
    }
    InspectSame(net, cur, q);
  }

  /** The call of a matched layer, with its operands brought up to date. */
  function CurrentCall(c: Call, nu: Renaming): Call
    requires c.qkv.Fused? && c.bias.Some?
  {
    c.(qkv := Fused(Sub(nu, c.qkv.tensor)), bias := Some(Sub(nu, c.bias.value)))
  }

  /** Fusing a layer now yields the call it would have yielded at the start, up to superseded operands. */
  lemma FusedCallUnaffected(net: Net, calls: map<nat, Call>, cur: Net, nu: Renaming, p: nat, q: nat)
    requires Start(net) && Planned(net, calls) && Progress(net, calls, cur, nu, p)
    requires q !in nu && q in calls
    ensures q < |cur.layers| && Inspect(cur, q).Match?
    ensures FusedCall(cur, q) == CurrentCall(calls[q], nu)
  {
    InspectUnaffected(net, calls, cur, nu, p, q);
    OperandsUnaffected(net, calls, cur, nu, p, net.memo[q].qkv.tensor.layer);
  }

  // ----- One more fusion -----

  lemma SubStep(nu: Renaming, p: nat, m: nat, ts: seq<Tensor>)
    requires p !in nu && (forall j :: j in nu ==> nu[j] != p)
    ensures RedirectAll(p, m, SubAll(nu, ts)) == SubAll(nu[p := m], ts)
  {
  }

  lemma LateSubStep(nu: Renaming, p: nat, m: nat, i: nat, ts: seq<Tensor>)
    requires p !in nu && (forall j :: j in nu ==> nu[j] != p) && i < p
    ensures RedirectAll(p, m, LateSubAll(nu, i, ts)) == LateSubAll(nu[p := m], i, ts)
  {
  }

  lemma MapGrows(m: map<nat, nat>, k: nat, v: nat)
    requires k !in m
    ensures |m[k := v]| == |m| + 1
  {
    assert m[k := v].Keys == m.Keys + {k};
  }

  lemma NumberingStep(n: nat, calls: map<nat, Call>, nu: Renaming, p: nat, m: nat)
    requires Numbering(n, calls, nu, p) && p in calls && m == n + |nu|
    ensures p !in nu && Numbering(n, calls, nu[p := m], p + 1)
  {
    hide Supersedes, Increasing;
    var nu' := nu[p := m];
    MapGrows(nu, p, m);
    IncreasingStep(nu, p, m);
    forall l | n <= l < n + |nu'| ensures Supersedes(nu', l) {
      SupersedesStep(nu, p, m, l);
    }
  }

  lemma IncreasingStep(nu: Renaming, p: nat, m: nat)
    requires Increasing(nu) && forall i :: i in nu ==> i < p && nu[i] < m
    ensures Increasing(nu[p := m])
  {
  }

  lemma SupersedesStep(nu: Renaming, p: nat, m: nat, l: nat)
    requires p !in nu && (l == m || Supersedes(nu, l))
    ensures Supersedes(nu[p := m], l)
  {
    var nu' := nu[p := m];
    if l == m {
      assert p in nu' && nu'[p] == l;
    } else {
      var i :| i in nu && nu[i] == l;
      assert i in nu' && nu'[i] == l;
    }
  }

  lemma RedirectConcat(i: nat, n: nat, xs: seq<Tensor>, ys: seq<Tensor>)
    ensures RedirectAll(i, n, xs + ys) == RedirectAll(i, n, xs) + RedirectAll(i, n, ys)
  {
  }

  lemma FusedInputsStep(c: Call, nu: Renaming, p: nat, m: nat, i: nat)
    requires c.qkv.Fused? && c.bias.Some? && i < p && p !in nu && (forall j :: j in nu ==> nu[j] != p)
    ensures RedirectAll(p, m, FusedInputs(c, nu, i)) == FusedInputs(c, nu[p := m], i)
  {
    SubStep(nu, p, m, [c.qkv.tensor]);
    LateSubStep(nu, p, m, i, c.rest);
    SubStep(nu, p, m, [c.bias.value]);
    RedirectConcat(p, m, [Sub(nu, c.qkv.tensor)] + LateSubAll(nu, i, c.rest), [Sub(nu, c.bias.value)]);
    RedirectConcat(p, m, [Sub(nu, c.qkv.tensor)], LateSubAll(nu, i, c.rest));
    assert SubAll(nu, [c.qkv.tensor]) == [Sub(nu, c.qkv.tensor)];
    assert SubAll(nu, [c.bias.value]) == [Sub(nu, c.bias.value)];
    assert SubAll(nu[p := m], [c.qkv.tensor]) == [Sub(nu[p := m], c.qkv.tensor)];
    assert SubAll(nu[p := m], [c.bias.value]) == [Sub(nu[p := m], c.bias.value)];
  }

  /** The layer and the record that fusing `p` adds are the ones of the closed form. */
  lemma NewestInputs(c: Call, nu: Renaming, p: nat, m: nat)
    requires c.qkv.Fused? && c.bias.Some? && (forall j :: j in nu ==> j < p && p < nu[j])
    requires forall t :: t in CallInputs(c) ==> !t.Out? || t.layer != p
    ensures RedirectAll(p, m, CallInputs(CurrentCall(c, nu))) == FusedInputs(c, nu[p := m], p)
    ensures CurrentCall(c, nu) == FusedRecord(c, nu[p := m], p)
  {
    var u, nu' := CurrentCall(c, nu), nu[p := m];
    assert CallInputs(c) == [c.qkv.tensor] + c.rest + [c.bias.value];
    assert c.qkv.tensor in CallInputs(c) && c.bias.value in CallInputs(c);
    forall s | 0 <= s < |c.rest| ensures Redirect(p, m, c.rest[s]) == LateSub(nu', p, c.rest[s]) {
      assert c.rest[s] in CallInputs(c);
    }
    assert RedirectAll(p, m, c.rest) == LateSubAll(nu', p, c.rest);
    assert CallInputs(u) == ([u.qkv.tensor] + c.rest) + [u.bias.value];
    RedirectConcat(p, m, [u.qkv.tensor] + c.rest, [u.bias.value]);
    RedirectConcat(p, m, [u.qkv.tensor], c.rest);
    assert RedirectAll(p, m, [u.qkv.tensor]) == [Sub(nu', c.qkv.tensor)];
    assert RedirectAll(p, m, [u.bias.value]) == [Sub(nu', c.bias.value)];
  }

  lemma FusedRecordStep(c: Call, nu: Renaming, p: nat, m: nat, i: nat)
    requires c.qkv.Fused? && c.bias.Some? && i < p && p !in nu
    ensures FusedRecord(c, nu[p := m], i) == FusedRecord(c, nu, i)
  {
  }

  lemma PlannedFacts(net: Net, calls: map<nat, Call>, p: nat)
    requires Start(net) && Planned(net, calls) && p in calls
    ensures p < |net.layers| && calls[p].qkv.Fused? && calls[p].bias.Some?
    ensures forall t :: t in CallInputs(calls[p]) ==> InNet(net, t) && t != Absent && (!t.Out? || t.layer != p)
  {
    PendingFacts(net, p);
  }

  /** What `Fuse` does to each part of the state, given the call it rebuilds the layer with. */
  predicate FusedWith(cur: Net, p: nat, c: Call, next: Net) {
    var m := |cur.layers|;
    && |next.layers| == m + 1
    && (forall l :: 0 <= l < m ==>
          next.layers[l] == Layer(cur.layers[l].kind, RedirectAll(p, m, cur.layers[l].inputs)))
    && next.layers[m] == Layer(Attention(c.params, false, true), RedirectAll(p, m, CallInputs(c)))
    && next.outputs == RedirectAll(p, m, cur.outputs)
    && next.memo == cur.memo[p := c][m := c]
    && next.removed == cur.removed
  }

  lemma FuseParts(cur: Net, p: nat)
    requires p < |cur.layers| && Inspect(cur, p).Match?
    ensures FusedWith(cur, p, FusedCall(cur, p), Fuse(cur, p))
  {
  }

  lemma OldLayersStep(net: Net, cur: Net, nu: Renaming, p: nat, c: Call, next: Net)
    requires OldLayers(net, cur, nu) && FusedWith(cur, p, c, next)
    requires p !in nu && (forall j :: j in nu ==> nu[j] != p)
    ensures OldLayers(net, next, nu[p := |cur.layers|])
  {
    forall l | 0 <= l < |net.layers|
      ensures next.layers[l] == Layer(net.layers[l].kind, SubAll(nu[p := |cur.layers|], net.layers[l].inputs))
    {
      SubStep(nu, p, |cur.layers|, net.layers[l].inputs);
    }
  }

  lemma NewLayersStep(calls: map<nat, Call>, cur: Net, nu: Renaming, p: nat, next: Net)
    requires NewLayers(calls, cur, nu) && p in calls && calls[p].qkv.Fused? && calls[p].bias.Some?
    requires FusedWith(cur, p, CurrentCall(calls[p], nu), next)
    requires p !in nu && (forall j :: j in nu ==> j < p < nu[j])
    requires forall t :: t in CallInputs(calls[p]) ==> !t.Out? || t.layer != p
    ensures NewLayers(calls, next, nu[p := |cur.layers|])
  {
    var nu' := nu[p := |cur.layers|];
    NewestInputs(calls[p], nu, p, |cur.layers|);
    forall i | i in nu' && i != p ensures next.layers[nu'[i]] == FusedLayer(calls[i], nu', i) {
      FusedInputsStep(calls[i], nu, p, |cur.layers|, i);
    }
  }

  lemma NewRecordsStep(calls: map<nat, Call>, memo: map<nat, Call>, nu: Renaming, p: nat, m: nat)
    requires NewRecords(calls, memo, nu) && p in calls && calls[p].qkv.Fused? && calls[p].bias.Some?
    requires p < m && p !in nu && (forall j :: j in nu ==> j < p < nu[j] < m)
    requires forall t :: t in CallInputs(calls[p]) ==> !t.Out? || t.layer != p
    ensures NewRecords(calls, memo[p := CurrentCall(calls[p], nu)][m := CurrentCall(calls[p], nu)], nu[p := m])
  {
    hide RedirectAll, FusedInputs, CallInputs, FusedRecord, CurrentCall;
    var c := CurrentCall(calls[p], nu);
    var nu', memo' := nu[p := m], memo[p := c][m := c];
    NewestInputs(calls[p], nu, p, m);
    forall i | i in nu'
      ensures i in calls && calls[i].qkv.Fused? && calls[i].bias.Some?
      ensures i in memo' && memo'[i] == FusedRecord(calls[i], nu', i)
      ensures nu'[i] in memo' && memo'[nu'[i]] == FusedRecord(calls[i], nu', i)
    {
      if i != p {
        FusedRecordStep(calls[i], nu, p, m, i);
      }
    }
  }

  lemma OldRecordsStep(net: Net, cur: Net, nu: Renaming, p: nat, c: Call, next: Net)
    requires OldRecords(net, cur, nu) && FusedWith(cur, p, c, next)
    requires p < |net.layers| <= |cur.layers|
    ensures OldRecords(net, next, nu[p := |cur.layers|])
  {
  }

  lemma OutputsStep(outputs: seq<Tensor>, cur: Net, nu: Renaming, p: nat, c: Call, next: Net)
    requires cur.outputs == SubAll(nu, outputs) && FusedWith(cur, p, c, next)
    requires p !in nu && (forall j :: j in nu ==> nu[j] != p)
    ensures next.outputs == SubAll(nu[p := |cur.layers|], outputs) && next.removed == cur.removed
    ensures |next.layers| == |cur.layers| + 1 && |nu[p := |cur.layers|]| == |nu| + 1
  {
    SubStep(nu, p, |cur.layers|, outputs);
    MapGrows(nu, p, |cur.layers|);
  }

  /** The closed form of the state after fusing `p`, from the closed form before. */
  lemma ProgressStep(net: Net, calls: map<nat, Call>, cur: Net, nu: Renaming, p: nat, next: Net)
    requires Progress(net, calls, cur, nu, p) && p in calls
    requires forall t :: t in CallInputs(calls[p]) ==> !t.Out? || t.layer != p
    requires FusedWith(cur, p, CurrentCall(calls[p], nu), next)
    ensures Progress(net, calls, next, nu[p := |cur.layers|], p + 1)
  {
    NumberingStep(|net.layers|, calls, nu, p, |cur.layers|);
    OutputsStep(net.outputs, cur, nu, p, CurrentCall(calls[p], nu), next);
    OldLayersStep(net, cur, nu, p, CurrentCall(calls[p], nu), next);
    NewLayersStep(calls, cur, nu, p, next);
    OldRecordsStep(net, cur, nu, p, CurrentCall(calls[p], nu), next);
    NewRecordsStep(calls, cur.memo, nu, p, |cur.layers|);
  }

  /** Fusing the next pending layer moves the closed form on by one. */
  lemma FuseProgress(net: Net, calls: map<nat, Call>, cur: Net, nu: Renaming, p: nat)
    requires Start(net) && Planned(net, calls) && Progress(net, calls, cur, nu, p) && p in calls
    ensures p < |cur.layers| && Inspect(cur, p).Match?
    ensures Progress(net, calls, Fuse(cur, p), nu[p := |cur.layers|], p + 1)
  {
    PlannedFacts(net, calls, p);
    FusedCallUnaffected(net, calls, cur, nu, p, p);
    FuseParts(cur, p);
    ProgressStep(net, calls, cur, nu, p, Fuse(cur, p));
  }
}
