/**
 The rewriter as it runs: a network object whose layers, outputs and records are changed in place.
 Every method is proved to do what the functions of `Fusion` and `FusionRun` say.
 */
module GraphRewriter {
  import opened Options
  import opened NetworkGraph
  import opened Fusion
  import opened FusionRun
  import opened FusionPattern
  import opened GraphIndex
  import opened UniqueNames

  // ----- Replacing one tensor -----

  function Replace(from: Tensor, to: Tensor, ts: seq<Tensor>): seq<Tensor> {
    seq(|ts|, s requires 0 <= s < |ts| => if ts[s] == from then to else ts[s])
  }

  function ReplaceIn(from: Tensor, to: Tensor, layers: seq<Layer>): seq<Layer> {
    seq(|layers|, l requires 0 <= l < |layers| => layers[l].(inputs := Replace(from, to, layers[l].inputs)))
  }

  lemma ReplaceBoth(i: nat, n: nat, ts: seq<Tensor>)
    requires i != n
    ensures Replace(Out(i, 1), Out(n, 1), Replace(Out(i, 0), Out(n, 0), ts)) == RedirectAll(i, n, ts)
  {
  }

  lemma ReplaceBothIn(i: nat, n: nat, layers: seq<Layer>)
    requires i != n
    ensures ReplaceIn(Out(i, 1), Out(n, 1), ReplaceIn(Out(i, 0), Out(n, 0), layers)) == RedirectLayers(i, n, layers)
  {
    forall l | 0 <= l < |layers| {
      ReplaceBoth(i, n, layers[l].inputs);
    }
  }

  /** Rewiring one output does not change whether another can be rewired. */
  lemma RewirableAfterReplace(from: Tensor, to: Tensor, ts: seq<Tensor>, t: Tensor)
    requires t != from && t != to && from != Absent && to != Absent
    ensures Rewirable(Replace(from, to, ts), t) <==> Rewirable(ts, t)
  {
    var r := Replace(from, to, ts);
    assert forall s :: 0 <= s < |ts| ==> (r[s] == t <==> ts[s] == t) && (r[s] == Absent <==> ts[s] == Absent);
    assert t in r <==> t in ts;
    assert Absent in r <==> Absent in ts;
  }

  predicate RewirableIn(layers: seq<Layer>, t: Tensor) {
    forall l :: 0 <= l < |layers| ==> Rewirable(layers[l].inputs, t)
  }

  lemma AllRewirableInTurn(layers: seq<Layer>, i: nat, n: nat)
    requires i != n
    ensures AllRewirable(layers, i) <==>
              RewirableIn(layers, Out(i, 0)) && RewirableIn(ReplaceIn(Out(i, 0), Out(n, 0), layers), Out(i, 1))
  {
    forall l | 0 <= l < |layers|
      ensures Rewirable(ReplaceIn(Out(i, 0), Out(n, 0), layers)[l].inputs, Out(i, 1))
          <==> Rewirable(layers[l].inputs, Out(i, 1))
    {
      RewirableAfterReplace(Out(i, 0), Out(n, 0), layers[l].inputs, Out(i, 1));
    }
    hide Rewirable;
    forall l, k: nat | RewirableIn(layers, Out(i, 0)) && RewirableIn(layers, Out(i, 1)) && 0 <= l < |layers| && k < 2
      ensures Rewirable(layers[l].inputs, Out(i, k))
    {
      assert k == 0 || k == 1;
    }
  }

  // ----- A consumer listed twice is a layer that uses the tensor twice -----

  lemma {:induction false} SlotsTwice(ins: seq<Tensor>, t: Tensor, l: nat)
    ensures |SlotsIn(ins, t, l)| <= 1 <==> forall a, b :: 0 <= a < b < |ins| && ins[a] == t ==> ins[b] != t
  {
    if ins != [] {
      var k := |ins| - 1;
      SlotsTwice(ins[..k], t, l);
      SlotsInElements(ins[..k], t, l, l);
      if |SlotsIn(ins[..k], t, l)| > 0 {
        SlotsInElements(ins[..k], t, l, SlotsIn(ins[..k], t, l)[0]);
      }
    }
  }

  lemma {:induction false} ConsumersIncrease(layers: seq<Layer>, t: Tensor)
    requires forall l :: 0 <= l < |layers| ==> |SlotsIn(layers[l].inputs, t, l)| <= 1
    ensures forall x, y :: 0 <= x < y < |Consumers(layers, t)| ==> Consumers(layers, t)[x] < Consumers(layers, t)[y]
  {
    if layers != [] {
      var n := |layers| - 1;
      ConsumersIncrease(layers[..n], t);
      var cs, more := Consumers(layers[..n], t), SlotsIn(layers[n].inputs, t, n);
      assert Consumers(layers, t) == cs + more;
      forall x | 0 <= x < |cs| ensures cs[x] < n {
        ConsumersElements(layers[..n], t, cs[x]);
      }
      forall x | 0 <= x < |more| ensures more[x] == n {
        SlotsInElements(layers[n].inputs, t, n, more[x]);
      }
    }
  }

  lemma {:induction false} ConsumersRepeat(layers: seq<Layer>, t: Tensor, l: nat)
    requires l < |layers| && |SlotsIn(layers[l].inputs, t, l)| > 1
    ensures exists x, y :: 0 <= x < y < |Consumers(layers, t)| && Consumers(layers, t)[x] == Consumers(layers, t)[y]
  {
    var n := |layers| - 1;
    var cs, more := Consumers(layers[..n], t), SlotsIn(layers[n].inputs, t, n);
    var all := Consumers(layers, t);
    assert all == cs + more;
    if l == n {
      SlotsInElements(layers[n].inputs, t, n, more[0]);
      SlotsInElements(layers[n].inputs, t, n, more[1]);
      assert all[|cs|] == all[|cs| + 1];
    } else {
      ConsumersRepeat(layers[..n], t, l);
      var x, y :| 0 <= x < y < |cs| && cs[x] == cs[y];
      assert all[x] == all[y];
    }
  }

  /** Rewiring every user succeeds exactly when no user is listed twice or has an unset input. */
  lemma UsersRewirable(layers: seq<Layer>, t: Tensor)
    ensures RewirableIn(layers, t) <==>
              && (forall x, y :: 0 <= x < y < |Consumers(layers, t)| ==> Consumers(layers, t)[x] != Consumers(layers, t)[y])
              && (forall x :: 0 <= x < |Consumers(layers, t)| ==>
                    Consumers(layers, t)[x] < |layers| && Absent !in layers[Consumers(layers, t)[x]].inputs)
  {
    var cs := Consumers(layers, t);
    forall l | 0 <= l < |layers|
      ensures |SlotsIn(layers[l].inputs, t, l)| <= 1 <==>
                forall a, b :: 0 <= a < b < |layers[l].inputs| && layers[l].inputs[a] == t ==> layers[l].inputs[b] != t
      ensures t in layers[l].inputs <==> l in cs
    {
      SlotsTwice(layers[l].inputs, t, l);
      ConsumersElements(layers, t, l);
    }
    forall x | 0 <= x < |cs| ensures cs[x] < |layers| {
      ConsumersElements(layers, t, cs[x]);
    }
    if forall l :: 0 <= l < |layers| ==> |SlotsIn(layers[l].inputs, t, l)| <= 1 {
      ConsumersIncrease(layers, t);
    } else {
      var l :| 0 <= l < |layers| && |SlotsIn(layers[l].inputs, t, l)| > 1;
      ConsumersRepeat(layers, t, l);
    }
  }

  // ----- The state of the rewiring loop -----

  /** `cur` is `start` with exactly the layers of `done` rewired. */
  predicate PartlyReplaced(from: Tensor, to: Tensor, start: seq<Layer>, cur: seq<Layer>, done: seq<nat>) {
    && |cur| == |start|
    && (forall l :: 0 <= l < |start| ==>
          cur[l] == if l in done then start[l].(inputs := Replace(from, to, start[l].inputs)) else start[l])
  }

  predicate UsersFine(start: seq<Layer>, users: seq<nat>, u: nat)
    requires u <= |users|
  {
    && (forall x, y :: 0 <= x < y < u ==> users[x] != users[y])
    && (forall x :: 0 <= x < u ==> users[x] < |start| && Absent !in start[users[x]].inputs)
  }

  lemma UserStep(from: Tensor, to: Tensor, start: seq<Layer>, cur: seq<Layer>, users: seq<nat>, u: nat)
    requires u < |users| && users[u] < |start| && from != to
    requires PartlyReplaced(from, to, start, cur, users[..u]) && UsersFine(start, users, u)
    requires from in cur[users[u]].inputs && Absent !in cur[users[u]].inputs
    ensures users[u] !in users[..u] && UsersFine(start, users, u + 1)
    ensures PartlyReplaced(from, to, start,
              cur[users[u] := cur[users[u]].(inputs := Replace(from, to, cur[users[u]].inputs))], users[..u + 1])
  {
    assert users[..u + 1] == users[..u] + [users[u]];
    if users[u] in users[..u] {
      ReplacedIsGone(from, to, start[users[u]].inputs);
    }
  }

  lemma ReplacedIsGone(from: Tensor, to: Tensor, ts: seq<Tensor>)
    requires from != to
    ensures from !in Replace(from, to, ts)
  {
  }

  lemma NothingReplaced(from: Tensor, to: Tensor, ins: seq<Tensor>)
    ensures Replace(from, to, ins[..0]) + ins[0..] == ins && |Replace(from, to, ins[..0])| == 0
  {
  }

  lemma ReplaceStep(from: Tensor, to: Tensor, ins: seq<Tensor>, i: nat)
    requires i < |ins|
    ensures |Replace(from, to, ins[..i])| == i && |Replace(from, to, ins[..i + 1])| == i + 1
    ensures var now, next := Replace(from, to, ins[..i]) + ins[i..], Replace(from, to, ins[..i + 1]) + ins[i + 1..];
      next == if ins[i] == from then now[i := to] else now
  {
  }

  lemma BadUser(start: seq<Layer>, from: Tensor, u: nat)
    requires u < |Consumers(start, from)|
    requires var users := Consumers(start, from);
      users[u] in users[..u] || (users[u] < |start| && Absent in start[users[u]].inputs)
    ensures !RewirableIn(start, from)
  {
    UsersRewirable(start, from);
    var users := Consumers(start, from);
    if users[u] in users[..u] {
      var x :| 0 <= x < u && users[x] == users[u];
    }
  }

  lemma ReplacedAll(from: Tensor, to: Tensor, start: seq<Layer>, cur: seq<Layer>)
    requires PartlyReplaced(from, to, start, cur, Consumers(start, from))
    ensures cur == ReplaceIn(from, to, start)
  {
    forall l | 0 <= l < |start| ensures cur[l] == ReplaceIn(from, to, start)[l] {
      ConsumersElements(start, from, l);
      if l !in Consumers(start, from) {
        assert Replace(from, to, start[l].inputs) == start[l].inputs;
      }
    }
  }

  // ----- The network object -----

  /** Sets every input that is `from` to `to`; fails on an unset input or when there is nothing to set. */
  method RewireInputs(ins: seq<Tensor>, from: Tensor, to: Tensor) returns (ok: bool, out: seq<Tensor>)
    requires from != Absent && to != Absent && from != to
    ensures ok <==> from in ins && Absent !in ins
    ensures ok ==> out == Replace(from, to, ins)
  {
    hide Replace;
    out := ins;
    var changed := 0;
    NothingReplaced(from, to, ins);
    var i := 0;
    while i < |ins|
      invariant i <= |ins| && |out| == |ins| && out == Replace(from, to, ins[..i]) + ins[i..]
      invariant |Replace(from, to, ins[..i])| == i
      invariant Absent !in ins[..i]
      invariant changed >= 0 && (changed > 0 <==> from in ins[..i])
    {
      assert out[i] == ins[i];
      if out[i] == Absent {
        return false, out;
      }
      assert ins[..i + 1] == ins[..i] + [ins[i]];
      ReplaceStep(from, to, ins, i);
      if out[i] == from {
        changed := changed + 1;
        out := out[i := to];
      }
      i := i + 1;
    }
    assert ins[..|ins|] == ins && ins[|ins|..] == [];
    ok := changed >= 1;
  }

  /** How one `match_and_rewrite` call ends. */
  datatype Outcome = Raised | Unchanged | Rewritten

  class Network {
    var layers: seq<Layer>
    var names: seq<string>
    var outputs: seq<Tensor>
    var memo: map<nat, Call>
    var removed: set<nat>
    const generator: UniqueNameGenerator
    const scope: string

    constructor (generator: UniqueNameGenerator, scope: string)
      requires generator.Valid()
      ensures Valid() && layers == [] && outputs == [] && memo == map[] && removed == {}
      ensures this.generator == generator
    {
      layers, names, outputs, memo, removed := [], [], [], map[], {};
      this.generator := generator;
      this.scope := scope;
    }

    function State(): Net
      reads this
    {
      Net(layers, outputs, memo, removed)
    }

    /** Layer names are distinct names of the generator, and every tensor that must be set is set. */
    ghost predicate Valid()
      reads this, generator
    {
      && generator.Valid()
      && |names| == |layers|
      && (forall l :: 0 <= l < |names| ==> names[l] in generator.Names())
      && (forall l, l' :: 0 <= l < l' < |names| ==> names[l] != names[l'])
      && MemoInRange(State())
      && (forall i :: i in memo ==> Absent !in CallInputs(memo[i]))
      && (forall l :: 0 <= l < |layers| && layers[l].kind.Sum? ==> Absent !in layers[l].inputs)
    }

    /** `get_tensor_users`: the graph is indexed afresh on every query. */
    method Users(t: Tensor) returns (users: seq<nat>)
      requires Valid() && t != Absent
      ensures users == Consumers(layers, t)
    {
      var graph := new GraphState();
      graph.Build(layers, names);
      users := Get(graph.tensorToConsumers, t);
    }

    /** Appends the layer of a `gpt_attention` call and records the call. */
    method AddAttention(call: Call)
      requires Valid() && Absent !in CallInputs(call)
      modifies this`layers, this`names, this`memo, generator
      ensures Valid()
      ensures layers == old(layers) + [Layer(CallKind(call), CallInputs(call))]
      ensures memo == old(memo)[|old(layers)| := call]
    {
      // each of the two outputs renames the layer once; the second name stays
      var first := generator.Call("PLUGIN_V2_GPTAttention", scope);
      var name := generator.Call("PLUGIN_V2_GPTAttention", scope);
      memo := memo[|layers| := call];
      layers := layers + [Layer(CallKind(call), CallInputs(call))];
      names := names + [name];
    }

    /** Rewires one consumer; fails on an unset input or when nothing is left to rewire. */
    method RewireUser(l: nat, from: Tensor, to: Tensor) returns (ok: bool)
      requires l < |layers| && from != Absent && to != Absent && from != to
      modifies this`layers
      ensures ok <==> from in old(layers)[l].inputs && Absent !in old(layers)[l].inputs
      ensures ok ==> layers == old(layers)[l := old(layers)[l].(inputs := Replace(from, to, old(layers)[l].inputs))]
    {
      var out;
      ok, out := RewireInputs(layers[l].inputs, from, to);
      if ok {
        layers := layers[l := layers[l].(inputs := out)];
      }
    }

    /** `Tensor.replace_all_uses_with`: completes exactly when every consumer can be rewired. */
    method ReplaceAllUsesWith(from: Tensor, to: Tensor) returns (ok: bool)
      requires Valid() && from != Absent && to != Absent && from != to
      modifies this`layers
      ensures ok <==> RewirableIn(old(layers), from)
      ensures ok ==> layers == ReplaceIn(from, to, old(layers))
    {
      ghost var start := layers;
      var users := Users(from);
      var u := 0;
      assert PartlyReplaced(from, to, start, layers, users[..0]);
      while u < |users|
        invariant 0 <= u <= |users|
        invariant UsersFine(start, users, u)
        invariant PartlyReplaced(from, to, start, layers, users[..u])
      {
        ghost var before := layers;
        ConsumersElements(start, from, users[u]);
        var done := RewireUser(users[u], from, to);
        if !done {
          assert users[u] in users[..u] || before[users[u]] == start[users[u]];
          BadUser(start, from, u);
          return false;
        }
        UserStep(from, to, start, before, users, u);
        u := u + 1;
      }
      ok := true;
      UsersRewirable(start, from);
      assert users[..|users|] == users;
      ReplacedAll(from, to, start, layers);
    }

    /** `_reset_network_output_tensors`: unmarks and re-marks, keeping every position. */
    method ResetNetworkOutputs(from: Tensor, to: Tensor)
      modifies this`outputs
      ensures outputs == Replace(from, to, old(outputs))
    {
      var saved := [];
      var needToMark := false;
      var i := 0;
      while i < |outputs|
        invariant 0 <= i <= |outputs| && saved == outputs[..i] && outputs == old(outputs)
        invariant needToMark <==> from in outputs[..i]
      {
        saved := saved + [outputs[i]];
        if outputs[i] == from {
          needToMark := true;
        }
        i := i + 1;
      }
      assert outputs[..|outputs|] == outputs;
      if !needToMark {
        assert Replace(from, to, outputs) == outputs;
        return;
      }
      while outputs != []
        decreases |outputs|
      {
        outputs := outputs[1..];
      }
      i := 0;
      while i < |saved|
        invariant 0 <= i <= |saved| && outputs == Replace(from, to, saved[..i])
      {
        outputs := outputs + [if saved[i] == from then to else saved[i]];
        assert saved[..i + 1] == saved[..i] + [saved[i]];
        i := i + 1;
      }
      assert saved[..|saved|] == saved;
    }

    /** `replace_outputs_uses_with` on the two outputs of layer `i`, redirected to layer `n`. */
    method ReplaceOutputsUsesWith(i: nat, n: nat) returns (ok: bool)
      requires Valid() && i != n
      modifies this`layers, this`outputs
      ensures ok <==> AllRewirable(old(layers), i)
      ensures ok ==> layers == RedirectLayers(i, n, old(layers)) && outputs == RedirectAll(i, n, old(outputs))
    {
      AllRewirableInTurn(layers, i, n);
      ok := ReplaceAllUsesWith(Out(i, 0), Out(n, 0));
      if !ok {
        return;
      }
      ResetNetworkOutputs(Out(i, 0), Out(n, 0));
      ValidAfterReplace(old(layers), Out(i, 0), Out(n, 0));
      ok := ReplaceAllUsesWith(Out(i, 1), Out(n, 1));
      if !ok {
        return;
      }
      ResetNetworkOutputs(Out(i, 1), Out(n, 1));
      ReplaceBothIn(i, n, old(layers));
      ReplaceBoth(i, n, old(outputs));
    }

    /** `get_eltwise_inputs`. */
    method EltwiseInputs(l: nat) returns (consts: seq<Tensor>, mutables: seq<Tensor>)
      requires l < |layers|
      ensures forall t :: t in consts <==> t in layers[l].inputs && ShallowConstant(State(), t)
      ensures forall t :: t in mutables <==> t in layers[l].inputs && !ShallowConstant(State(), t)
      ensures consts == ConstInputs(State(), layers[l].inputs)
      ensures mutables == MutableInputs(State(), layers[l].inputs)
    {
      hide Foldable, ShallowConstant;
      consts, mutables := [], [];
      var i := 0;
      var ins := layers[l].inputs;
      while i < |ins|
        invariant 0 <= i <= |ins|
        invariant consts + ConstInputs(State(), ins[i..]) == ConstInputs(State(), ins)
        invariant mutables + MutableInputs(State(), ins[i..]) == MutableInputs(State(), ins)
      {
        assert ins[i..][0] == ins[i] && ins[i..][1..] == ins[i + 1..];
        if Foldable(State(), ins[i], 0) {
          consts := consts + [ins[i]];
        } else {
          mutables := mutables + [ins[i]];
        }
        i := i + 1;
      }
      assert ins[i..] == [];
      forall t
        ensures t in consts <==> t in ins && ShallowConstant(State(), t)
        ensures t in mutables <==> t in ins && !ShallowConstant(State(), t)
      {
        ConstInputsIff(State(), ins, t);
      }
    }

    /** The matching half: the verdict, and the operands when it is a match. */
    method Matches(i: nat) returns (v: Verdict, bias: Tensor, qkv: Tensor)
      requires Valid() && i < |layers|
      ensures v.Match? <==> exists x, b :: Fusible(State(), i, x, b)
      ensures v.Crash? <==> Unmatchable(State(), i)
      ensures v.Match? ==> Fusible(State(), i, qkv, bias)
      ensures v == Inspect(State(), i)
      ensures v.Match? ==> FusedCall(State(), i).qkv == Fused(qkv) && FusedCall(State(), i).bias == Some(bias)
    {
      hide Inspect, FusedCall, Fusible, Unmatchable;
      v, bias, qkv := Judge(i);
      MatchIff(State(), i);
      RaiseIff(State(), i);
      if v.Match? {
        ghost var x, b :| Fusible(State(), i, x, b);
      }
    }

    /** The checks one after another. */
    method Judge(i: nat) returns (v: Verdict, bias: Tensor, qkv: Tensor)
      requires Valid() && i < |layers|
      ensures v == Inspect(State(), i)
      ensures v.Match? ==> FusedCall(State(), i).qkv == Fused(qkv) && FusedCall(State(), i).bias == Some(bias)
    {
      hide Foldable, ShallowConstant, ConstInputs, MutableInputs;
      bias, qkv := Absent, Absent;
      if !layers[i].kind.Attention? {
        return NoMatch, bias, qkv;
      }
      if i !in memo {
        return Crash, bias, qkv;
      }
      var call := memo[i];
      if call.qkv.Split? {
        return NoMatch, bias, qkv;
      }
      var t := call.qkv.tensor;
      assert CallInputs(call)[0] == t;
      var users := Users(t);
      UserCount(State(), t);
      if |users| != 1 {
        return NoMatch, bias, qkv;
      }
      if !t.Out? || t.layer >= |layers| {
        return Crash, bias, qkv;
      }
      if !layers[t.layer].kind.Sum? {
        return NoMatch, bias, qkv;
      }
      var consts, mutables := EltwiseInputs(t.layer);
      if |consts| != 1 || |mutables| != 1 {
        return NoMatch, bias, qkv;
      }
      if call.bias.Some? {
        return NoMatch, bias, qkv;
      }
      return Match, consts[0], mutables[0];
    }

    /** The rewriting half: new record, new layer, users redirected. */
    method Fuse(i: nat, bias: Tensor, qkv: Tensor) returns (r: Outcome)
      requires Valid() && i < |layers| && Inspect(State(), i).Match?
      requires FusedCall(State(), i).qkv == Fused(qkv) && FusedCall(State(), i).bias == Some(bias)
      modifies this, generator
      ensures AllRewirable(old(layers) + [NewLayer(old(State()), i)], i) ==>
                r == Rewritten && Valid() && State() == Fusion.Fuse(old(State()), i)
      ensures !AllRewirable(old(layers) + [NewLayer(old(State()), i)], i) ==> r == Raised
    {
      ghost var start := State();
      var n := |layers|;
      var call := memo[i].(qkv := NetworkGraph.Fused(qkv), bias := Some(bias));
      FusedArgumentsSet(start, i);
      memo := memo[i := call];
      AddAttention(call);
      var ok := ReplaceOutputsUsesWith(i, n);
      if !ok {
        return Raised;
      }
      RedirectKeepsSet(i, n, start.layers + [NewLayer(start, i)]);
      r := Rewritten;
    }

    method MatchAndRewrite(i: nat) returns (r: Outcome)
      requires Valid() && i < |layers|
      modifies this, generator
      ensures match FusionRun.MatchAndRewrite(old(State()), i)
              case Failed => r == Raised
              case Kept => r == Unchanged && Valid() && State() == old(State())
              case Changed(net) => r == Rewritten && Valid() && State() == net
    {
      var v, bias, qkv := Matches(i);
      if v.Crash? {
        return Raised;
      }
      if v.NoMatch? {
        return Unchanged;
      }
      r := Fuse(i, bias, qkv);
    }

    /** One sweep over the layers present at its start. */
    method Sweep() returns (ok: bool, modified: bool)
      requires Valid()
      modifies this, generator
      ensures MemoInRange(old(State()))
      ensures match Pass(old(State()), 0, |old(layers)|, false)
              case PassFailed => !ok
              case PassDone(net, m) => ok && Valid() && State() == net && modified == m
    {
      hide FusionRun.MatchAndRewrite;
      ghost var start := State();
      var limit := |layers|;
      modified := false;
      var i := 0;
      while i < limit
        invariant 0 <= i <= limit <= |layers| && Valid()
        invariant Pass(start, 0, limit, false) == Pass(State(), i, limit, modified)
      {
        if i !in removed {
          RewriteGrows(State(), i);
          var r := MatchAndRewrite(i);
          if r.Raised? {
            return false, modified;
          }
          if r.Rewritten? {
            modified := true;
          }
        }
        i := i + 1;
      }
      ok := true;
    }

    /** `RewritePatternManager.rewrite`: sweeps until a whole sweep changes nothing. */
    method Rewrite() returns (ok: bool)
      requires Valid()
      modifies this, generator
      ensures MemoInRange(old(State()))
      ensures ok <==> Run(old(State())).Some?
      ensures ok ==> Valid() && State() == Run(old(State())).value
    {
      ghost var start := State();
      var modified := true;
      while modified
        invariant Valid()
        invariant modified ==> Run(start) == Run(State())
        invariant !modified ==> Run(start) == Some(State())
        decreases modified, |BiaslessCalls(State())|
      {
        ghost var before := State();
        ok, modified := Sweep();
        if !ok {
          return false;
        }
      }
      ok := true;
    }
  }

  lemma ValidAfterReplace(layers: seq<Layer>, from: Tensor, to: Tensor)
    requires to != Absent
    requires forall l :: 0 <= l < |layers| && layers[l].kind.Sum? ==> Absent !in layers[l].inputs
    ensures forall l :: 0 <= l < |layers| && layers[l].kind.Sum? ==> Absent !in ReplaceIn(from, to, layers)[l].inputs
  {
  }

  lemma RedirectKeepsSet(i: nat, n: nat, layers: seq<Layer>)
    requires forall l :: 0 <= l < |layers| && layers[l].kind.Sum? ==> Absent !in layers[l].inputs
    ensures forall l :: 0 <= l < |layers| && layers[l].kind.Sum? ==> Absent !in RedirectLayers(i, n, layers)[l].inputs
  {
  }

  lemma FusedArgumentsSet(net: Net, i: nat)
    requires i < |net.layers| && Inspect(net, i).Match?
    requires Absent !in CallInputs(net.memo[i])
    requires forall l :: 0 <= l < |net.layers| && net.layers[l].kind.Sum? ==> Absent !in net.layers[l].inputs
    ensures Absent !in CallInputs(FusedCall(net, i))
  {
    MatchedOperands(net, i);
    var was, c := net.memo[i], FusedCall(net, i);
    assert CallInputs(c) == [c.qkv.tensor] + was.rest + [c.bias.value];
    forall t | t in was.rest ensures t != Absent { assert t in CallInputs(was); }
  }
}
