/**
 `RewritePatternManager.rewrite` with the fusion pattern: passes over the layer list until a
 whole pass changes nothing.  The theorems are about every run, from any acyclic network.
 */
module FusionRun {
  import opened Options
  import opened NetworkGraph
  import opened Fusion

  /**
   Whether `replace_all_uses_with` survives one consumer.  The consumer list names a layer once
   per matching input, and the second visit finds nothing left to replace; an unset input has
   no underlying tensor to compare with.
   */
  predicate Rewirable(ins: seq<Tensor>, t: Tensor) {
    && (forall a, b :: 0 <= a < b < |ins| && ins[a] == t ==> ins[b] != t)
    && (t in ins ==> Absent !in ins)
  }

  predicate AllRewirable(layers: seq<Layer>, i: nat) {
    forall l, k: nat :: 0 <= l < |layers| && k < 2 ==> Rewirable(layers[l].inputs, Out(i, k))
  }

  datatype Step = Failed | Kept | Changed(net: Net)

  function MatchAndRewrite(net: Net, i: nat): Step
    requires i < |net.layers|
  {
    match Inspect(net, i)
    case Crash => Failed
    case NoMatch => Kept
    case Match => if AllRewirable(net.layers + [NewLayer(net, i)], i) then Changed(Fuse(net, i)) else Failed
  }

  lemma RewriteGrows(net: Net, i: nat)
    requires i < |net.layers|
    ensures MatchAndRewrite(net, i).Changed? ==> |MatchAndRewrite(net, i).net.layers| == |net.layers| + 1
  {
  }

  function Visit(net: Net, i: nat): Step
    requires i < |net.layers|
  {
    if i in net.removed then Kept else MatchAndRewrite(net, i)
  }

  // ----- Termination -----

  predicate MemoInRange(net: Net) {
    forall i :: i in net.memo ==> i < |net.layers|
  }

  function BiaslessCalls(net: Net): set<nat> {
    set i | i in net.memo && net.memo[i].bias.None?
  }

  /** Each fusion lowers the number of recorded calls without a bias by exactly one. */
  lemma FuseDropsOneBiaslessCall(net: Net, i: nat)
    requires i < |net.layers| && Inspect(net, i).Match? && MemoInRange(net)
    ensures MemoInRange(Fuse(net, i))
    ensures |BiaslessCalls(Fuse(net, i))| == |BiaslessCalls(net)| - 1
  {
    assert BiaslessCalls(Fuse(net, i)) == BiaslessCalls(net) - {i};
  }

  datatype PassResult = PassFailed | PassDone(net: Net, modified: bool)

  /** One pass over the layers present when the pass began; layers added meanwhile wait for the next one. */
  function Pass(net: Net, i: nat, limit: nat, modified: bool): (r: PassResult)
    requires i <= limit <= |net.layers| && MemoInRange(net)
    ensures r.PassDone? ==>
              && MemoInRange(r.net)
              && |r.net.layers| - |net.layers| == |BiaslessCalls(net)| - |BiaslessCalls(r.net)| >= 0
              && r.modified == (modified || |net.layers| < |r.net.layers|)
    decreases limit - i
  {
    if i == limit then PassDone(net, modified)
    else
      match Visit(net, i)
      case Failed => PassFailed
      case Kept => Pass(net, i + 1, limit, modified)
      case Changed(net') =>
        FuseDropsOneBiaslessCall(net, i);
        Pass(net', i + 1, limit, true)
  }

  /** No layer that is still live matches, and looking at it raises nothing. */
  predicate Settled(net: Net) {
    forall l :: 0 <= l < |net.layers| ==> Visit(net, l) == Kept
  }

  lemma UnmodifiedPass(net: Net, i: nat, limit: nat)
    requires i <= limit <= |net.layers| && MemoInRange(net)
    requires Pass(net, i, limit, false).PassDone? && !Pass(net, i, limit, false).modified
    ensures Pass(net, i, limit, false).net == net
    ensures forall l :: i <= l < limit ==> Visit(net, l) == Kept
    decreases limit - i
  {
  }

  /** The whole rewrite; `None` when an exception leaves it.  It terminates, and ends with nothing to fuse. */
  function Run(net: Net): (r: Option<Net>)
    requires MemoInRange(net)
    ensures r.Some? ==> MemoInRange(r.value) && Settled(r.value)
    ensures r.Some? ==> |r.value.layers| - |net.layers| == |BiaslessCalls(net)| - |BiaslessCalls(r.value)| >= 0
    decreases |BiaslessCalls(net)|
  {
    var p := Pass(net, 0, |net.layers|, false);
    if p.PassFailed? then None
    else if p.modified then Run(p.net)
    else
      UnmodifiedPass(net, 0, |net.layers|);
      Some(p.net)
  }

  // ----- Meaning -----

  /** `cur` gives every tensor of `net` its old value, and its outputs stand for those of `net`, in place. */
  ghost predicate SameMeaning<V>(net: Net, rank: seq<nat>, cur: Net, rank': seq<nat>, sem: Semantics<V>, env: nat -> V)
    requires Ranked(net, rank) && Ranked(cur, rank')
  {
    && (forall t :: InNet(net, t) ==>
          InNet(cur, t) && Val(cur, rank', sem, env, t) == Val(net, rank, sem, env, t))
    && |cur.outputs| == |net.outputs|
    && (forall p :: 0 <= p < |net.outputs| ==> OutputKept(net, rank, cur, rank', sem, env, p))
  }

  ghost predicate OutputKept<V>(net: Net, rank: seq<nat>, cur: Net, rank': seq<nat>, sem: Semantics<V>,
                                env: nat -> V, p: nat)
    requires Ranked(net, rank) && Ranked(cur, rank') && p < |net.outputs| == |cur.outputs|
  {
    assert net.outputs[p] in net.outputs && cur.outputs[p] in cur.outputs;
    Val(cur, rank', sem, env, cur.outputs[p]) == Val(net, rank, sem, env, net.outputs[p])
  }

  lemma SameMeaningRefl<V>(net: Net, rank: seq<nat>, sem: Semantics<V>, env: nat -> V)
    requires Ranked(net, rank)
    ensures SameMeaning(net, rank, net, rank, sem, env)
  {
  }

  lemma FuseSameMeaning<V(!new)>(net: Net, rank: seq<nat>, i: nat, sem: Semantics<V>, env: nat -> V)
    requires Ranked(net, rank) && i < |rank| && Inspect(net, i).Match?
    requires Lawful(sem) && Consistent(net, rank, sem, env)
    ensures Ranked(Fuse(net, i), rank + [rank[i]])
    ensures SameMeaning(net, rank, Fuse(net, i), rank + [rank[i]], sem, env)
  {
    FuseRanked(net, rank, i);
    var net', rank' := Fuse(net, i), rank + [rank[i]];
    forall t | InNet(net, t)
      ensures InNet(net', t) && Val(net', rank', sem, env, t) == Val(net, rank, sem, env, t)
    {
      ValAfterFuse(net, rank, i, sem, env, t);
    }
    forall p | 0 <= p < |net.outputs| ensures OutputKept(net, rank, net', rank', sem, env, p) {
      var t := net.outputs[p];
      assert t in net.outputs;
      if Redirect(i, |rank|, t) != t {
        NewLayerValue(net, rank, i, sem, env, t.slot);
      }
    }
  }

  lemma SameMeaningTrans<V>(a: Net, ra: seq<nat>, b: Net, rb: seq<nat>, c: Net, rc: seq<nat>,
                            sem: Semantics<V>, env: nat -> V)
    requires Ranked(a, ra) && Ranked(b, rb) && Ranked(c, rc)
    requires SameMeaning(a, ra, b, rb, sem, env) && SameMeaning(b, rb, c, rc, sem, env)
    ensures SameMeaning(a, ra, c, rc, sem, env)
  {
    forall p | 0 <= p < |a.outputs| ensures OutputKept(a, ra, c, rc, sem, env, p) {
      assert OutputKept(a, ra, b, rb, sem, env, p) && OutputKept(b, rb, c, rc, sem, env, p);
    }
  }

  /** A bias that a record of `cur` has and the record of the same layer in `net` does not. */
  predicate MovedBias(net: Net, cur: Net, j: nat) {
    && j in cur.memo && cur.memo[j].bias.Some?
    && (j !in net.memo || net.memo[j].bias.None?)
  }

  ghost predicate BiasSteady<V>(cur: Net, rank: seq<nat>, sem: Semantics<V>, e1: nat -> V, e2: nat -> V, j: nat)
    requires Ranked(cur, rank) && j in cur.memo && cur.memo[j].bias.Some?
  {
    var b := cur.memo[j].bias.value;
    InNet(cur, b) && Val(cur, rank, sem, e1, b) == Val(cur, rank, sem, e2, b)
  }

  /** What every state of a run keeps, for two arbitrary assignments of the network inputs. */
  ghost predicate RunInv<V>(net: Net, rank: seq<nat>, cur: Net, rank': seq<nat>, sem: Semantics<V>,
                            e1: nat -> V, e2: nat -> V)
    requires Ranked(net, rank)
  {
    && Ranked(cur, rank')
    && Consistent(cur, rank', sem, e1) && Consistent(cur, rank', sem, e2)
    && SameMeaning(net, rank, cur, rank', sem, e1) && SameMeaning(net, rank, cur, rank', sem, e2)
    && (forall j :: MovedBias(net, cur, j) ==> BiasSteady(cur, rank', sem, e1, e2, j))
  }

  lemma FuseKeepsBiasesSteady<V(!new)>(net: Net, cur: Net, rank: seq<nat>, i: nat, sem: Semantics<V>,
                                       e1: nat -> V, e2: nat -> V, j: nat)
    requires Ranked(cur, rank) && i < |rank| && Inspect(cur, i).Match? && Lawful(sem)
    requires Consistent(cur, rank, sem, e1) && Consistent(cur, rank, sem, e2)
    requires forall j :: MovedBias(net, cur, j) ==> BiasSteady(cur, rank, sem, e1, e2, j)
    requires MovedBias(net, Fuse(cur, i), j)
    ensures Ranked(Fuse(cur, i), rank + [rank[i]])
    ensures BiasSteady(Fuse(cur, i), rank + [rank[i]], sem, e1, e2, j)
  {
    FuseRanked(cur, rank, i);
    var c := FusedCall(cur, i);
    var b := Fuse(cur, i).memo[j].bias.value;
    if j == i || j == |rank| {
      assert CallInputs(c)[|CallInputs(c)| - 1] == b;
      NewInputsBefore(cur, rank, i, b);
      MatchedOperands(cur, i);
      FoldableIsInputIndependent(cur, rank, sem, e1, e2, b, 0);
    } else {
      assert MovedBias(net, cur, j);
    }
    ValAfterFuse(cur, rank, i, sem, e1, b);
    ValAfterFuse(cur, rank, i, sem, e2, b);
  }

  lemma FuseKeepsRunInv<V(!new)>(net: Net, rank: seq<nat>, cur: Net, rank': seq<nat>, i: nat, sem: Semantics<V>,
                                 e1: nat -> V, e2: nat -> V)
    requires Ranked(net, rank) && Lawful(sem) && RunInv(net, rank, cur, rank', sem, e1, e2)
    requires i < |rank'| && Inspect(cur, i).Match?
    ensures RunInv(net, rank, Fuse(cur, i), rank' + [rank'[i]], sem, e1, e2)
  {
    var next, r := Fuse(cur, i), rank' + [rank'[i]];
    FuseConsistent(cur, rank', i, sem, e1);
    FuseConsistent(cur, rank', i, sem, e2);
    FuseSameMeaning(cur, rank', i, sem, e1);
    FuseSameMeaning(cur, rank', i, sem, e2);
    SameMeaningTrans(net, rank, cur, rank', next, r, sem, e1);
    SameMeaningTrans(net, rank, cur, rank', next, r, sem, e2);
    forall j | MovedBias(net, next, j) ensures BiasSteady(next, r, sem, e1, e2, j) {
      FuseKeepsBiasesSteady(net, cur, rank', i, sem, e1, e2, j);
    }
  }

  lemma RankedLength<V>(net: Net, rank: seq<nat>, cur: Net, rank': seq<nat>, sem: Semantics<V>,
                        e1: nat -> V, e2: nat -> V)
    requires Ranked(net, rank) && RunInv(net, rank, cur, rank', sem, e1, e2)
    ensures |rank'| == |cur.layers|
  {
  }

  lemma {:induction false} PassKeepsRunInv<V(!new)>(net: Net, rank: seq<nat>, cur: Net, rank': seq<nat>,
      i: nat, limit: nat, modified: bool, sem: Semantics<V>, e1: nat -> V, e2: nat -> V)
    requires Ranked(net, rank) && Lawful(sem) && RunInv(net, rank, cur, rank', sem, e1, e2)
    requires i <= limit <= |cur.layers| && MemoInRange(cur) && Pass(cur, i, limit, modified).PassDone?
    ensures exists r :: RunInv(net, rank, Pass(cur, i, limit, modified).net, r, sem, e1, e2)
    decreases limit - i
  {
    hide Lawful, RunInv, Inspect, Fuse, Ranked;
    RankedLength(net, rank, cur, rank', sem, e1, e2);
    if i == limit {
      assert RunInv(net, rank, cur, rank', sem, e1, e2);
    } else if Visit(cur, i) == Kept {
      PassKeepsRunInv(net, rank, cur, rank', i + 1, limit, modified, sem, e1, e2);
    } else {
      FuseDropsOneBiaslessCall(cur, i);
      FuseKeepsRunInv(net, rank, cur, rank', i, sem, e1, e2);
      PassKeepsRunInv(net, rank, Fuse(cur, i), rank' + [rank'[i]], i + 1, limit, true, sem, e1, e2);
    }
  }

  lemma {:induction false} RunKeepsRunInv<V(!new)>(net: Net, rank: seq<nat>, cur: Net, rank': seq<nat>,
                                                 sem: Semantics<V>, e1: nat -> V, e2: nat -> V)
    requires Ranked(net, rank) && Lawful(sem) && RunInv(net, rank, cur, rank', sem, e1, e2)
    requires MemoInRange(cur) && Run(cur).Some?
    ensures exists r :: RunInv(net, rank, Run(cur).value, r, sem, e1, e2)
    decreases |BiaslessCalls(cur)|
  {
    var p := Pass(cur, 0, |cur.layers|, false);
    PassKeepsRunInv(net, rank, cur, rank', 0, |cur.layers|, false, sem, e1, e2);
    if p.modified {
      var r :| RunInv(net, rank, p.net, r, sem, e1, e2);
      RunKeepsRunInv(net, rank, p.net, r, sem, e1, e2);
    }
  }

  /** Records as `record_signature` leaves them: each lists exactly the inputs its layer was built with. */
  predicate FreshRecords(net: Net) {
    forall i :: i in net.memo ==>
      i < |net.layers| && net.layers[i] == Layer(CallKind(net.memo[i]), CallInputs(net.memo[i]))
  }

  lemma FreshIsConsistent<V>(net: Net, rank: seq<nat>, sem: Semantics<V>, env: nat -> V)
    requires Ranked(net, rank) && FreshRecords(net)
    ensures Consistent(net, rank, sem, env)
  {
    forall i, k: nat | i in net.memo && k < 2 ensures CallAgrees(net, rank, sem, env, i, k) {
      ValOfOutput(net, rank, sem, env, i, k);
    }
  }

  /** The value of a tensor of an acyclic network; by `ValIgnoresRank` the choice of rank is immaterial. */
  ghost function Value<V>(net: Net, sem: Semantics<V>, env: nat -> V, t: Tensor): V
    requires Acyclic(net) && InNet(net, t)
  {
    var rank :| Ranked(net, rank);
    Val(net, rank, sem, env, t)
  }

  lemma ValueIsVal<V>(net: Net, rank: seq<nat>, sem: Semantics<V>, env: nat -> V, t: Tensor)
    requires Ranked(net, rank) && InNet(net, t)
    ensures Value(net, sem, env, t) == Val(net, rank, sem, env, t)
  {
    var r :| Ranked(net, r) && Value(net, sem, env, t) == Val(net, r, sem, env, t);
    ValIgnoresRank(net, r, rank, sem, env, t);
  }

  /**
   Every completed run, under every lawful semantics and every assignment of the inputs, leaves the
   network acyclic and each network output at its position with its value.
   */
  lemma RunPreservesOutputs<V(!new)>(net: Net, sem: Semantics<V>, env: nat -> V)
    requires Acyclic(net) && FreshRecords(net) && Lawful(sem) && Run(net).Some?
    ensures Acyclic(Run(net).value)
    ensures |Run(net).value.outputs| == |net.outputs|
    ensures forall p :: 0 <= p < |net.outputs| ==>
              && InNet(net, net.outputs[p]) && InNet(Run(net).value, Run(net).value.outputs[p])
              && Value(Run(net).value, sem, env, Run(net).value.outputs[p]) == Value(net, sem, env, net.outputs[p])
  {
    var rank :| Ranked(net, rank);
    FreshIsConsistent(net, rank, sem, env);
    SameMeaningRefl(net, rank, sem, env);
    RunKeepsRunInv(net, rank, net, rank, sem, env, env);
    var cur := Run(net).value;
    var r :| RunInv(net, rank, cur, r, sem, env, env);
    forall p | 0 <= p < |net.outputs|
      ensures InNet(net, net.outputs[p]) && InNet(cur, cur.outputs[p])
      ensures Value(cur, sem, env, cur.outputs[p]) == Value(net, sem, env, net.outputs[p])
    {
      assert net.outputs[p] in net.outputs && cur.outputs[p] in cur.outputs;
      assert OutputKept(net, rank, cur, r, sem, env, p);
      ValueIsVal(net, rank, sem, env, net.outputs[p]);
      ValueIsVal(cur, r, sem, env, cur.outputs[p]);
    }
  }

  /** Every tensor that a completed run moved into `qkv_bias` has a value independent of the inputs. */
  lemma RunMovesOnlyConstants<V(!new)>(net: Net, sem: Semantics<V>, e1: nat -> V, e2: nat -> V, j: nat)
    requires Acyclic(net) && FreshRecords(net) && Lawful(sem) && Run(net).Some?
    requires MovedBias(net, Run(net).value, j)
    ensures Acyclic(Run(net).value) && InNet(Run(net).value, Run(net).value.memo[j].bias.value)
    ensures Value(Run(net).value, sem, e1, Run(net).value.memo[j].bias.value)
         == Value(Run(net).value, sem, e2, Run(net).value.memo[j].bias.value)
  {
    var rank :| Ranked(net, rank);
    FreshIsConsistent(net, rank, sem, e1);
    FreshIsConsistent(net, rank, sem, e2);
    SameMeaningRefl(net, rank, sem, e1);
    SameMeaningRefl(net, rank, sem, e2);
    RunKeepsRunInv(net, rank, net, rank, sem, e1, e2);
    var cur := Run(net).value;
    var r :| RunInv(net, rank, cur, r, sem, e1, e2);
    assert BiasSteady(cur, r, sem, e1, e2, j);
    ValueIsVal(cur, r, sem, e1, cur.memo[j].bias.value);
    ValueIsVal(cur, r, sem, e2, cur.memo[j].bias.value);
  }
}
