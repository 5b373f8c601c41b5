/**
 The outcome of a whole run, read off the initial network: a run completes exactly when the
 initial network is safe, one pass does all the work, and the layers fused are exactly those
 that matched at the start.
 */
module FusionTheorem {
  import opened Options
  import opened NetworkGraph
  import opened Fusion
  import opened FusionRun
  import opened FusionExact
  import opened FusionOutcome

  // ----- When a fusion can rewire its users -----

  /**
   No layer of the initial network, and no layer rebuilt before `p` is reached, consumes an output
   of `p` twice or beside an unset input.
   */
  predicate CanRewire(net: Net, p: nat) {
    && AllRewirable(net.layers, p)
    && (forall i: nat, k: nat :: i < p && k < 2 && Pending(net, i) ==>
          Rewirable(CallInputs(FusedCall(net, i)), Out(p, k)))
  }

  /** Visiting `p` raises nothing, judged on the initial network alone. */
  predicate SafeAt(net: Net, p: nat)
    requires p < |net.layers|
  {
    p in net.removed
    || (!Inspect(net, p).Crash? && (Inspect(net, p).Match? ==> CanRewire(net, p)))
  }

  predicate SafeToRun(net: Net) {
    forall p :: 0 <= p < |net.layers| ==> SafeAt(net, p)
  }

  lemma RewirableRel(net: Net, nu: Renaming, xs: seq<Tensor>, ys: seq<Tensor>, t: Tensor)
    requires forall i :: i in nu ==> |net.layers| <= nu[i]
    requires RelAll(nu, xs, ys) && InNet(net, t) && !Superseded(nu, t)
    ensures Rewirable(xs, t) <==> Rewirable(ys, t)
  {
    forall s | 0 <= s < |xs| ensures (ys[s] == t <==> xs[s] == t) && (ys[s] == Absent <==> xs[s] == Absent) {
      RelSame(net, nu, t, xs[s], ys[s]);
    }
    assert t in xs <==> t in ys;
    assert Absent in xs <==> Absent in ys;
  }

  lemma OldLayerRewirable(net: Net, calls: map<nat, Call>, cur: Net, nu: Renaming, p: nat, t: Tensor, l: nat)
    requires Progress(net, calls, cur, nu, p) && l < |net.layers| && InNet(net, t) && !Superseded(nu, t)
    ensures l < |cur.layers|
    ensures Rewirable(cur.layers[l].inputs, t) <==> Rewirable(net.layers[l].inputs, t)
  {
    RewirableRel(net, nu, net.layers[l].inputs, cur.layers[l].inputs, t);
  }

  lemma NewLayerRewirable(net: Net, calls: map<nat, Call>, cur: Net, nu: Renaming, p: nat, t: Tensor, i: nat)
    requires Progress(net, calls, cur, nu, p) && i in nu && InNet(net, t) && !Superseded(nu, t)
    ensures nu[i] < |cur.layers|
    ensures Rewirable(cur.layers[nu[i]].inputs, t) <==> Rewirable(CallInputs(calls[i]), t)
  {
    FusedInputsRel(calls[i], nu, i);
    RewirableRel(net, nu, CallInputs(calls[i]), cur.layers[nu[i]].inputs, t);
  }

  /** The layer being built does not use the outputs it is about to supersede. */
  lemma NewestRewirable(c: Call, nu: Renaming, p: nat, k: nat)
    requires c.qkv.Fused? && c.bias.Some? && (forall j :: j in nu ==> nu[j] != p)
    requires forall t :: t in CallInputs(c) ==> !t.Out? || t.layer != p
    ensures Rewirable(CallInputs(CurrentCall(c, nu)), Out(p, k))
  {
    var u := CallInputs(CurrentCall(c, nu));
    assert CallInputs(c) == [c.qkv.tensor] + c.rest + [c.bias.value];
    assert u == [Sub(nu, c.qkv.tensor)] + c.rest + [Sub(nu, c.bias.value)];
    assert c.qkv.tensor in CallInputs(c) && c.bias.value in CallInputs(c);
    forall t | t in c.rest ensures t != Out(p, k) { assert t in CallInputs(c); }
    assert Out(p, k) !in u;
  }

  lemma RewirableForward(net: Net, calls: map<nat, Call>, cur: Net, nu: Renaming, p: nat, l: nat, k: nat)
    requires Start(net) && Planned(net, calls) && Progress(net, calls, cur, nu, p) && p in calls && k < 2
    requires InNet(net, Out(p, k)) && p !in nu && CanRewire(net, p) && l < |cur.layers|
    ensures Rewirable(cur.layers[l].inputs, Out(p, k))
  {
    if l < |net.layers| {
      OldLayerRewirable(net, calls, cur, nu, p, Out(p, k), l);
    } else {
      assert Supersedes(nu, l);
      var i :| i in nu && nu[i] == l;
      assert Pending(net, i) && calls[i] == FusedCall(net, i);
      NewLayerRewirable(net, calls, cur, nu, p, Out(p, k), i);
    }
  }

  lemma RewirableBackward(net: Net, calls: map<nat, Call>, cur: Net, nu: Renaming, p: nat)
    requires Start(net) && Planned(net, calls) && Progress(net, calls, cur, nu, p) && p in calls
    requires InNet(net, Out(p, 0)) && InNet(net, Out(p, 1)) && p !in nu
    requires AllRewirable(cur.layers, p)
    ensures CanRewire(net, p)
  {
    forall l, k: nat | 0 <= l < |net.layers| && k < 2 ensures Rewirable(net.layers[l].inputs, Out(p, k)) {
      assert InNet(net, Out(p, k)) by { assert k == 0 || k == 1; }
      OldLayerRewirable(net, calls, cur, nu, p, Out(p, k), l);
    }
    forall i: nat, k: nat | i < p && k < 2 && Pending(net, i)
      ensures Rewirable(CallInputs(FusedCall(net, i)), Out(p, k))
    {
      assert i in calls && i in nu;
      assert InNet(net, Out(p, k)) by { assert k == 0 || k == 1; }
      NewLayerRewirable(net, calls, cur, nu, p, Out(p, k), i);
    }
  }

  lemma AppendRewirable(layers: seq<Layer>, added: Layer, p: nat)
    requires Rewirable(added.inputs, Out(p, 0)) && Rewirable(added.inputs, Out(p, 1))
    ensures AllRewirable(layers + [added], p) <==> AllRewirable(layers, p)
  {
    var all := layers + [added];
    forall l, k: nat | AllRewirable(layers, p) && 0 <= l < |all| && k < 2
      ensures Rewirable(all[l].inputs, Out(p, k))
    {
      assert k == 0 || k == 1;
    }
    forall l, k: nat | AllRewirable(all, p) && 0 <= l < |layers| && k < 2
      ensures Rewirable(layers[l].inputs, Out(p, k))
    {
      assert all[l] == layers[l];
    }
  }

  lemma NewestLayerRewirable(net: Net, calls: map<nat, Call>, cur: Net, nu: Renaming, p: nat)
    requires Start(net) && Planned(net, calls) && Progress(net, calls, cur, nu, p) && p in calls
    ensures p !in nu && InNet(net, Out(p, 0)) && InNet(net, Out(p, 1))
    ensures p < |cur.layers| && Inspect(cur, p).Match?
    ensures Rewirable(NewLayer(cur, p).inputs, Out(p, 0)) && Rewirable(NewLayer(cur, p).inputs, Out(p, 1))
  {
    hide Inspect, Rewirable, Start, Planned, Progress, CallInputs, CurrentCall, InNet;
    PlannedFacts(net, calls, p);
    PlannedOutputs(net, calls, p);
    ProgressNumbers(net, calls, cur, nu, p);
    FusedCallUnaffected(net, calls, cur, nu, p, p);
    NewestRewirable(calls[p], nu, p, 0);
    NewestRewirable(calls[p], nu, p, 1);
  }

  lemma PlannedOutputs(net: Net, calls: map<nat, Call>, p: nat)
    requires Start(net) && Planned(net, calls) && p in calls
    ensures InNet(net, Out(p, 0)) && InNet(net, Out(p, 1))
  {
    PendingFacts(net, p);
  }

  lemma ProgressNumbers(net: Net, calls: map<nat, Call>, cur: Net, nu: Renaming, p: nat)
    requires Progress(net, calls, cur, nu, p) && p < |net.layers|
    ensures p !in nu && forall j :: j in nu ==> nu[j] != p
  {
  }

  lemma RewirableExact(net: Net, calls: map<nat, Call>, cur: Net, nu: Renaming, p: nat)
    requires Start(net) && Planned(net, calls) && Progress(net, calls, cur, nu, p) && p in calls
    ensures p < |cur.layers| && Inspect(cur, p).Match?
    ensures AllRewirable(cur.layers + [NewLayer(cur, p)], p) <==> CanRewire(net, p)
  {
    hide Inspect, Rewirable, Start, Planned, Progress, CanRewire;
    NewestLayerRewirable(net, calls, cur, nu, p);
    AppendRewirable(cur.layers, NewLayer(cur, p), p);
    if CanRewire(net, p) {
      forall l, k: nat | 0 <= l < |cur.layers| && k < 2 ensures Rewirable(cur.layers[l].inputs, Out(p, k)) {
        assert k == 0 || k == 1;
        RewirableForward(net, calls, cur, nu, p, l, k);
      }
    }
    if AllRewirable(cur.layers, p) {
      RewirableBackward(net, calls, cur, nu, p);
    }
  }

  // ----- One pass -----

  lemma NumberingSkip(n: nat, calls: map<nat, Call>, nu: Renaming, p: nat)
    requires Numbering(n, calls, nu, p) && p < n && p !in calls
    ensures Numbering(n, calls, nu, p + 1)
  {
  }

  lemma ProgressSkip(net: Net, calls: map<nat, Call>, cur: Net, nu: Renaming, p: nat)
    requires Progress(net, calls, cur, nu, p) && p < |net.layers| && p !in calls
    ensures Progress(net, calls, cur, nu, p + 1)
  {
    NumberingSkip(|net.layers|, calls, nu, p);
  }

  lemma ProgressStart(net: Net, calls: map<nat, Call>)
    requires Start(net) && Planned(net, calls)
    ensures Progress(net, calls, net, map[], 0)
  {
    var nu: Renaming := map[];
    forall ts: seq<Tensor> ensures SubAll(nu, ts) == ts { }
    forall i | i in calls ensures i < |net.layers| && calls[i].qkv.Fused? && calls[i].bias.Some? {
      PlannedFacts(net, calls, i);
    }
    var rank :| Ranked(net, rank);
  }

  lemma VisitExact(net: Net, calls: map<nat, Call>, cur: Net, nu: Renaming, p: nat)
    requires Start(net) && Planned(net, calls) && Progress(net, calls, cur, nu, p) && p < |net.layers|
    ensures p < |cur.layers|
    ensures Visit(cur, p).Failed? <==> !SafeAt(net, p)
    ensures Visit(cur, p).Changed? <==> SafeAt(net, p) && p in calls
    ensures Visit(cur, p).Changed? ==>
              Inspect(cur, p).Match? && Visit(cur, p) == Changed(Fuse(cur, p))
              && Progress(net, calls, Fuse(cur, p), nu[p := |cur.layers|], p + 1)
  {
    assert p !in nu;
    InspectUnaffected(net, calls, cur, nu, p, p);
    if p in calls {
      RewirableExact(net, calls, cur, nu, p);
      FuseProgress(net, calls, cur, nu, p);
    }
  }

  lemma ProgressBasics(net: Net, calls: map<nat, Call>, cur: Net, nu: Renaming, p: nat)
    requires Progress(net, calls, cur, nu, p)
    ensures p <= |net.layers| <= |cur.layers| && MemoInRange(cur)
  {
  }

  /** From any state on the way, the pass completes exactly when every layer ahead is safe. */
  lemma {:induction false} PassExact(net: Net, calls: map<nat, Call>, cur: Net, nu: Renaming, p: nat, modified: bool)
    requires Start(net) && Planned(net, calls) && Progress(net, calls, cur, nu, p)
    ensures p <= |net.layers| <= |cur.layers| && MemoInRange(cur)
    ensures Pass(cur, p, |net.layers|, modified).PassDone? <==> (forall q :: p <= q < |net.layers| ==> SafeAt(net, q))
    ensures Pass(cur, p, |net.layers|, modified).PassDone? ==>
              exists nu' :: Progress(net, calls, Pass(cur, p, |net.layers|, modified).net, nu', |net.layers|)
    decreases |net.layers| - p
  {
    hide SafeAt, Planned, Start, Progress, Inspect, MatchAndRewrite;
    var n := |net.layers|;
    ProgressBasics(net, calls, cur, nu, p);
    if p == n {
      assert Progress(net, calls, cur, nu, n);
    } else {
      VisitExact(net, calls, cur, nu, p);
      match Visit(cur, p) {
        case Failed =>
        case Kept =>
          ProgressSkip(net, calls, cur, nu, p);
          PassExact(net, calls, cur, nu, p + 1, modified);
        case Changed(next) =>
          FuseDropsOneBiaslessCall(cur, p);
          PassExact(net, calls, next, nu[p := |cur.layers|], p + 1, true);
      }
    }
  }

  // ----- After the pass -----

  /** The qkv tensor of a fused record is still used by the sum and by the new layer. */
  lemma FusedOperandUsers(net: Net, calls: map<nat, Call>, cur: Net, nu: Renaming, p: nat, i: nat)
    requires Start(net) && Planned(net, calls) && Progress(net, calls, cur, nu, p) && i in nu
    requires !calls[i].qkv.tensor.Out?
    ensures |UserSlots(cur, calls[i].qkv.tensor)| != 1
  {
    var x := calls[i].qkv.tensor;
    PendingFacts(net, i);
    MatchedOperands(net, i);
    var sum := net.memo[i].qkv.tensor.layer;
    var s :| 0 <= s < 2 && net.layers[sum].inputs[s] == x;
    TwoUsers(net, calls, cur, nu, p, i, sum, s, x);
  }

  lemma TwoUsers(net: Net, calls: map<nat, Call>, cur: Net, nu: Renaming, p: nat, i: nat, sum: nat, s: nat, x: Tensor)
    requires Progress(net, calls, cur, nu, p) && i in nu && x == calls[i].qkv.tensor && !x.Out?
    requires sum < |net.layers| && s < |net.layers[sum].inputs| && net.layers[sum].inputs[s] == x
    ensures |UserSlots(cur, x)| != 1
  {
    var users := UserSlots(cur, x);
    assert cur.layers[sum].inputs[s] == x && (sum, s) in users;
    assert cur.layers[nu[i]].inputs[0] == x && (nu[i], 0) in users;
    SingletonSet(users, (sum, s));
  }

  lemma FusedOperandInRange(net: Net, calls: map<nat, Call>, cur: Net, nu: Renaming, p: nat, i: nat)
    requires Start(net) && Planned(net, calls) && Progress(net, calls, cur, nu, p) && i in nu
    requires calls[i].qkv.tensor.Out?
    ensures var t := EarlySub(nu, i, calls[i].qkv.tensor); t.Out? && t.layer < |cur.layers|
  {
    PlannedFacts(net, calls, i);
    assert CallInputs(calls[i])[0] == calls[i].qkv.tensor;
  }

  lemma BiasedNeverMatches(cur: Net, l: nat)
    requires l < |cur.layers| && l in cur.memo && cur.memo[l].bias.Some? && cur.memo[l].qkv.Fused?
    requires var t := cur.memo[l].qkv.tensor; (t.Out? && t.layer < |cur.layers|) || |UserSlots(cur, t)| != 1
    ensures Inspect(cur, l) == NoMatch
  {
  }

  lemma FusedLookup(net: Net, calls: map<nat, Call>, cur: Net, nu: Renaming, p: nat, i: nat, l: nat)
    requires Progress(net, calls, cur, nu, p) && i in nu && (l == i || l == nu[i])
    ensures l < |cur.layers| && l in cur.memo && i in calls && calls[i].qkv.Fused? && calls[i].bias.Some?
    ensures cur.memo[l] == FusedRecord(calls[i], nu, i)
  {
  }

  /** Neither a fused layer nor the layer that supersedes it matches again. */
  lemma FusedStaysFused(net: Net, calls: map<nat, Call>, cur: Net, nu: Renaming, p: nat, i: nat, l: nat)
    requires Start(net) && Planned(net, calls) && Progress(net, calls, cur, nu, p) && i in nu
    requires l == i || l == nu[i]
    ensures l < |cur.layers| && Inspect(cur, l) == NoMatch
  {
    hide Start, Planned, Progress, Inspect, UserSlots;
    FusedLookup(net, calls, cur, nu, p, i, l);
    if calls[i].qkv.tensor.Out? {
      FusedOperandInRange(net, calls, cur, nu, p, i);
    } else {
      FusedOperandUsers(net, calls, cur, nu, p, i);
    }
    BiasedNeverMatches(cur, l);
  }

  lemma WhichLayer(net: Net, calls: map<nat, Call>, cur: Net, nu: Renaming, l: nat)
    requires Progress(net, calls, cur, nu, |net.layers|) && l < |cur.layers|
    ensures cur.removed == net.removed
    ensures l < |net.layers| && l !in nu ==> l !in calls
    ensures l >= |net.layers| ==> Supersedes(nu, l)
  {
  }

  lemma PassSettles(net: Net, calls: map<nat, Call>, cur: Net, nu: Renaming, l: nat)
    requires Start(net) && Planned(net, calls) && Progress(net, calls, cur, nu, |net.layers|)
    requires SafeToRun(net) && l < |cur.layers|
    ensures Visit(cur, l) == Kept
  {
    hide Start, Progress, Inspect;
    WhichLayer(net, calls, cur, nu, l);
    if l < |net.layers| {
      if l in nu {
        FusedStaysFused(net, calls, cur, nu, |net.layers|, l, l);
      } else {
        assert SafeAt(net, l);
        InspectUnaffected(net, calls, cur, nu, |net.layers|, l);
      }
    } else {
      var i :| i in nu && nu[i] == l;
      FusedStaysFused(net, calls, cur, nu, |net.layers|, i, l);
    }
  }

  lemma {:induction false} KeptPass(net: Net, i: nat, limit: nat, modified: bool)
    requires i <= limit <= |net.layers| && MemoInRange(net)
    requires forall l :: i <= l < limit ==> Visit(net, l) == Kept
    ensures Pass(net, i, limit, modified) == PassDone(net, modified)
    decreases limit - i
  {
    hide Visit;
    if i < limit {
      KeptPass(net, i + 1, limit, modified);
    }
  }

  lemma SettledRun(net: Net)
    requires MemoInRange(net) && forall l :: 0 <= l < |net.layers| ==> Visit(net, l) == Kept
    ensures Run(net) == Some(net)
  {
    hide Visit;
    KeptPass(net, 0, |net.layers|, false);
  }

  /**
   A run completes if and only if the initial network is safe; a completed run ends in the closed
   form, with every pending layer fused and no other, after the first of at most two passes.
   */
  lemma RunOutcome(net: Net)
    requires Start(net)
    ensures MemoInRange(net)
    ensures Run(net).Some? <==> SafeToRun(net)
    ensures SafeToRun(net) ==>
              exists nu :: Progress(net, PlanOf(net), Run(net).value, nu, |net.layers|)
    ensures SafeToRun(net) ==>
              && Pass(net, 0, |net.layers|, false).PassDone?
              && Run(net).value == Pass(net, 0, |net.layers|, false).net
  {
    hide SafeAt, Planned, Progress, Visit, Pass, Settled;
    var calls := PlanOf(net);
    ProgressStart(net, calls);
    PassExact(net, calls, net, map[], 0, false);
    var r := Pass(net, 0, |net.layers|, false);
    if SafeToRun(net) {
      var nu :| Progress(net, calls, r.net, nu, |net.layers|);
      ProgressBasics(net, calls, r.net, nu, |net.layers|);
      forall l | 0 <= l < |r.net.layers| ensures Visit(r.net, l) == Kept {
        PassSettles(net, calls, r.net, nu, l);
      }
      SettledRun(r.net);
      assert r.PassDone?;
      assert Run(net) == Some(r.net);
    }
  }

  // ----- What the closed form says about the final network -----

  lemma FusedExactlyPlanned(net: Net, calls: map<nat, Call>, cur: Net, nu: Renaming)
    requires Progress(net, calls, cur, nu, |net.layers|)
    ensures nu.Keys == calls.Keys && |cur.layers| == |net.layers| + |calls|
    ensures forall l :: 0 <= l < |net.layers| ==> cur.layers[l].kind == net.layers[l].kind
  {
    forall i ensures i in nu <==> i in calls { }
    assert nu.Keys == calls.Keys;
    assert |nu| == |nu.Keys| && |calls| == |calls.Keys|;
  }

  lemma MovedExactlyPlanned(net: Net, calls: map<nat, Call>, cur: Net, nu: Renaming, j: nat)
    requires Start(net) && Planned(net, calls) && Progress(net, calls, cur, nu, |net.layers|) && j < |net.layers|
    ensures MovedBias(net, cur, j) <==> Pending(net, j)
  {
    if j in calls {
      PendingFacts(net, j);
      FusedLookup(net, calls, cur, nu, |net.layers|, j, j);
    }
  }

  /**
   A completed run adds one layer for each layer that matched at the start, gives those layers'
   records a bias, and leaves every other record and every layer's kind as they were.
   */
  lemma RunFusesExactlyPending(net: Net)
    requires Start(net) && SafeToRun(net)
    ensures MemoInRange(net) && Run(net).Some?
    ensures |Run(net).value.layers| == |net.layers| + |set i | 0 <= i < |net.layers| && Pending(net, i)|
    ensures forall l :: 0 <= l < |net.layers| ==> Run(net).value.layers[l].kind == net.layers[l].kind
    ensures forall j: nat :: j < |net.layers| ==> (MovedBias(net, Run(net).value, j) <==> Pending(net, j))
  {
    hide Progress, Run, Pending, SafeToRun, Start, MovedBias, Pass, FusedCall, Inspect;
    RunOutcome(net);
    var calls, cur := PlanOf(net), Run(net).value;
    var nu :| Progress(net, calls, cur, nu, |net.layers|);
    FusedExactlyPlanned(net, calls, cur, nu);
    assert calls.Keys == set i | 0 <= i < |net.layers| && Pending(net, i);
    forall j: nat | j < |net.layers| ensures MovedBias(net, cur, j) <==> Pending(net, j) {
      MovedExactlyPlanned(net, calls, cur, nu, j);
    }
  }

  lemma SubIsCurrent(net: Net, calls: map<nat, Call>, nu: Renaming, t: Tensor)
    requires Start(net) && Planned(net, calls) && Numbering(|net.layers|, calls, nu, |net.layers|) && InNet(net, t)
    ensures Sub(nu, t).Out? ==> !Pending(net, Sub(nu, t).layer)
  {
    hide Inspect;
    if t.Out? && t.layer in nu {
      PendingFacts(net, t.layer);
      assert nu[t.layer] >= |net.layers|;
    } else if t.Out? {
      assert t.layer !in calls;
    }
  }

  /** After a completed run no original layer and no network output refers to a superseded layer. */
  lemma RunDetachesSuperseded(net: Net, t: Tensor)
    requires Start(net) && SafeToRun(net)
    requires MemoInRange(net) && Run(net).Some? && |net.layers| <= |Run(net).value.layers|
    requires t in Run(net).value.outputs
          || exists l :: 0 <= l < |net.layers| && t in Run(net).value.layers[l].inputs
    ensures t.Out? ==> !Pending(net, t.layer)
  {
    RunOutcome(net);
    hide Run, Pending, SafeToRun;
    var calls, cur := PlanOf(net), Run(net).value;
    var nu :| Progress(net, calls, cur, nu, |net.layers|);
    DetachedIn(net, calls, cur, nu, t);
  }

  lemma DetachedIn(net: Net, calls: map<nat, Call>, cur: Net, nu: Renaming, t: Tensor)
    requires Start(net) && Planned(net, calls) && Progress(net, calls, cur, nu, |net.layers|)
    requires t in cur.outputs || exists l :: 0 <= l < |net.layers| && t in cur.layers[l].inputs
    ensures t.Out? ==> !Pending(net, t.layer)
  {
    hide Pending;
    var rank :| Ranked(net, rank);
    if t in cur.outputs {
      var o :| 0 <= o < |net.outputs| && t == Sub(nu, net.outputs[o]);
      assert net.outputs[o] in net.outputs;
      SubIsCurrent(net, calls, nu, net.outputs[o]);
    } else {
      var l :| 0 <= l < |net.layers| && t in cur.layers[l].inputs;
      var s :| 0 <= s < |net.layers[l].inputs| && t == Sub(nu, net.layers[l].inputs[s]);
      InitialInputs(net, l, net.layers[l].inputs[s]);
      SubIsCurrent(net, calls, nu, net.layers[l].inputs[s]);
    }
  }

  /**
   A fused layer itself can still refer to a superseded layer, because recorded arguments are never
   updated: the layer that replaces `i` uses output `k` of the fused layer `a` exactly when `a` was
   visited before `i` and the recorded arguments of `i`, other than qkv, mention that output.
   */
  lemma StaleArguments(net: Net, calls: map<nat, Call>, cur: Net, nu: Renaming, i: nat, a: nat, k: nat)
    requires Start(net) && Planned(net, calls) && Progress(net, calls, cur, nu, |net.layers|)
    requires Pending(net, i) && Pending(net, a) && k < 2
    ensures i in nu && nu[i] < |cur.layers|
    ensures Out(a, k) in cur.layers[nu[i]].inputs <==> a < i && Out(a, k) in net.memo[i].rest
  {
    hide Inspect, Progress, Start;
    assert i in calls && a in calls;
    PlannedFacts(net, calls, i);
    PlannedFacts(net, calls, a);
    FusedInputsOf(net, calls, cur, nu, i, a);
    PendingFacts(net, i);
    assert calls[i].rest == net.memo[i].rest;
    StaleInputs(calls[i], nu, i, a, k);
  }

  lemma FusedInputsOf(net: Net, calls: map<nat, Call>, cur: Net, nu: Renaming, i: nat, a: nat)
    requires Progress(net, calls, cur, nu, |net.layers|) && i in calls && a in calls
    ensures a in nu && (forall j :: j in nu ==> nu[j] != a)
    ensures i in nu && nu[i] < |cur.layers| && calls[i].qkv.Fused? && calls[i].bias.Some?
    ensures cur.layers[nu[i]].inputs == FusedInputs(calls[i], nu, i)
  {
  }

  lemma StaleInputs(c: Call, nu: Renaming, i: nat, a: nat, k: nat)
    requires c.qkv.Fused? && c.bias.Some? && a in nu && k < 2 && (forall j :: j in nu ==> nu[j] != a)
    requires forall t :: t in CallInputs(c) ==> !t.Out? || t.layer != i
    ensures Out(a, k) in FusedInputs(c, nu, i) <==> a < i && Out(a, k) in c.rest
  {
    var late := LateSubAll(nu, i, c.rest);
    assert Sub(nu, c.qkv.tensor) != Out(a, k) && Sub(nu, c.bias.value) != Out(a, k);
    assert Out(a, k) in FusedInputs(c, nu, i) <==> Out(a, k) in late;
    if Out(a, k) in c.rest && a < i {
      var s :| 0 <= s < |c.rest| && c.rest[s] == Out(a, k);
      assert late[s] == Out(a, k);
    }
    if Out(a, k) in late {
      var s :| 0 <= s < |late| && late[s] == Out(a, k);
      assert c.rest[s] == Out(a, k);
      assert c.rest[s] in c.rest && c.rest[s] in CallInputs(c);
    }
  }

  /** In a network listed in creation order, only the initial users of a matched layer matter. */
  lemma CreationOrderSafety(net: Net)
    requires FreshRecords(net) && Ranked(net, seq(|net.layers|, l requires 0 <= l => l))
    ensures SafeToRun(net) <==>
              forall p :: 0 <= p < |net.layers| && p !in net.removed ==>
                !Inspect(net, p).Crash? && (Inspect(net, p).Match? ==> AllRewirable(net.layers, p))
  {
    hide Inspect, AllRewirable, Rewirable;
    var rank := seq(|net.layers|, l requires 0 <= l => l);
    forall p: nat | p < |net.layers| && Pending(net, p) ensures CanRewire(net, p) <==> AllRewirable(net.layers, p) {
      forall i: nat, k: nat | i < p && k < 2 && Pending(net, i)
        ensures Rewirable(CallInputs(FusedCall(net, i)), Out(p, k))
      {
        EarlierCallIndependent(net, rank, i, p, k);
      }
    }
    forall p | 0 <= p < |net.layers| && p !in net.removed
      ensures SafeAt(net, p) <==>
                !Inspect(net, p).Crash? && (Inspect(net, p).Match? ==> AllRewirable(net.layers, p))
    {
      assert Inspect(net, p).Match? ==> Pending(net, p);
    }
  }

  lemma EarlierCallIndependent(net: Net, rank: seq<nat>, i: nat, p: nat, k: nat)
    requires Ranked(net, rank) && i < |rank| && p < |rank| && rank[i] <= rank[p] && Inspect(net, i).Match?
    ensures Rewirable(CallInputs(FusedCall(net, i)), Out(p, k))
  {
    hide Inspect;
    var ins := CallInputs(FusedCall(net, i));
    forall s | 0 <= s < |ins| ensures ins[s] != Out(p, k) {
      NewInputsBefore(net, rank, i, ins[s]);
    }
  }

  /** A matched layer whose output one later layer takes twice. */
  function DoubleUse(): Net {
    Net([Layer(Constant(0), []), Layer(Sum, [NetIn(0), Out(0, 0)]),
         Layer(Attention(0, false, false), [Out(1, 0)]), Layer(Other(0, 1), [Out(2, 0), Out(2, 0)])],
        [Out(3, 0)], map[2 := Call(0, Fused(Out(1, 0)), [], None)], {})
  }

  lemma DoubleUseMatches()
    ensures Inspect(DoubleUse(), 2).Match?
  {
    var net := DoubleUse();
    var t, operands := Out(1, 0), [NetIn(0), Out(0, 0)];
    assert UserSlots(net, t) == {(2, 0)} by {
      forall l, s | (l, s) in UserSlots(net, t) ensures (l, s) == (2, 0) {
        assert l == 0 || l == 1 || l == 2 || l == 3;
      }
      assert net.layers[2].inputs[0] == t;
      assert (2, 0) in UserSlots(net, t);
    }
    assert Foldable(net, Out(0, 0), 0) && !Foldable(net, NetIn(0), 0);
    assert operands[1..] == [Out(0, 0)] && operands[1..][1..] == [];
    assert ConstInputs(net, operands) == [Out(0, 0)] && MutableInputs(net, operands) == [NetIn(0)];
  }

  lemma DoubleUseStarts()
    ensures Start(DoubleUse())
  {
    var net := DoubleUse();
    var rank := [0, 1, 2, 3];
    forall i | 0 <= i < |rank| ensures LayerOk(net, rank, i) {
      assert i == 0 || i == 1 || i == 2 || i == 3;
    }
    assert CallInputs(net.memo[2]) == [Out(1, 0)];
    assert CallOk(net, rank, 2, net.memo[2]);
    assert Ranked(net, rank);
  }

  /** The rewrite does not complete on it: rewiring the second use finds nothing left to replace. */
  lemma DoubleUseRaises()
    ensures Start(DoubleUse()) && MemoInRange(DoubleUse()) && Run(DoubleUse()).None?
  {
    hide Inspect, Start, Run;
    var net := DoubleUse();
    DoubleUseStarts();
    DoubleUseMatches();
    RunOutcome(net);
    var ins := net.layers[3].inputs;
    assert ins[0] == ins[1] == Out(2, 0);
    assert !Rewirable(ins, Out(2, 0));
    assert !SafeAt(net, 2);
  }
}
