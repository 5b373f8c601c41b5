/** `Network._GraphState.build`: consumer, producer and name tables, rebuilt by scanning all layers. */
module GraphIndex {
  import opened NetworkGraph
  import opened Fusion
  import UniqueNames

  // ----- The direct scan -----

  /** `l` once for each input equal to `t`. */
  function SlotsIn(ins: seq<Tensor>, t: Tensor, l: nat): seq<nat> {
    if ins == [] then []
    else
      var k := |ins| - 1;
      SlotsIn(ins[..k], t, l) + (if ins[k] == t then [l] else [])
  }

  /** The layers that consume `t`, in list order, once per consuming input. */
  function Consumers(layers: seq<Layer>, t: Tensor): seq<nat> {
    if layers == [] then []
    else
      var n := |layers| - 1;
      Consumers(layers[..n], t) + SlotsIn(layers[n].inputs, t, n)
  }

  /** The consumers table has a default of the empty list. */
  function Get(table: map<Tensor, seq<nat>>, t: Tensor): seq<nat> {
    if t in table then table[t] else []
  }

  function AddUse(table: map<Tensor, seq<nat>>, t: Tensor, l: nat): map<Tensor, seq<nat>> {
    if t == Absent then table else table[t := Get(table, t) + [l]]
  }

  /** The table holds the uses it held before, then those of the given inputs. */
  ghost predicate Added(before: map<Tensor, seq<nat>>, now: map<Tensor, seq<nat>>, ins: seq<Tensor>, l: nat) {
    (forall t :: t != Absent ==> Get(now, t) == Get(before, t) + SlotsIn(ins, t, l)) &&
    (Absent in now <==> Absent in before)
  }

  lemma AddedStep(before: map<Tensor, seq<nat>>, now: map<Tensor, seq<nat>>, ins: seq<Tensor>, i: nat, l: nat)
    requires i < |ins| && Added(before, now, ins[..i], l)
    ensures Added(before, AddUse(now, ins[i], l), ins[..i + 1], l)
  {
    var next := AddUse(now, ins[i], l);
    forall t | t != Absent ensures Get(next, t) == Get(before, t) + SlotsIn(ins[..i + 1], t, l) {
      assert ins[..i + 1][..i] == ins[..i];
      assert SlotsIn(ins[..i + 1], t, l) == SlotsIn(ins[..i], t, l) + (if ins[i] == t then [l] else []);
      if t == ins[i] {
        assert Get(next, t) == Get(before, t) + SlotsIn(ins[..i], t, l) + [l];
      } else {
        assert Get(next, t) == Get(now, t);
      }
    }
  }

  /** The consumer table of the given layers. */
  ghost predicate ConsumersIndexed(table: map<Tensor, seq<nat>>, layers: seq<Layer>) {
    (forall t :: t != Absent ==> Get(table, t) == Consumers(layers, t)) && Absent !in table
  }

  /** The producer table of the given layers. */
  ghost predicate ProducersIndexed(table: map<Tensor, nat>, layers: seq<Layer>) {
    (forall t :: t in table <==> t.Out? && t.layer < |layers| && t.slot < Arity(layers[t.layer].kind)) &&
    forall t :: t in table ==> table[t] == t.layer
  }

  /** The name table: a name that is not used again leads to its own layer. */
  ghost predicate NamesIndexed(table: map<string, nat>, names: seq<string>) {
    (forall name :: name in table <==> name in names) &&
    forall l :: 0 <= l < |names| && (forall l' :: l < l' < |names| ==> names[l'] != names[l]) ==>
      table[names[l]] == l
  }

  lemma ConsumersNext(before: map<Tensor, seq<nat>>, now: map<Tensor, seq<nat>>, layers: seq<Layer>, l: nat)
    requires l < |layers| && ConsumersIndexed(before, layers[..l]) && Added(before, now, layers[l].inputs, l)
    ensures ConsumersIndexed(now, layers[..l + 1])
  {
    assert layers[..l + 1][..l] == layers[..l];
    forall t | t != Absent ensures Get(now, t) == Consumers(layers[..l + 1], t) {
      assert Consumers(layers[..l + 1], t) == Consumers(layers[..l], t) + SlotsIn(layers[l].inputs, t, l);
    }
  }

  lemma NamesNext(table: map<string, nat>, names: seq<string>, l: nat)
    requires l < |names| && NamesIndexed(table, names[..l])
    ensures NamesIndexed(table[names[l] := l], names[..l + 1])
  {
    var done, next := names[..l], names[..l + 1];
    assert next == done + [names[l]];
    forall k | 0 <= k < l + 1 && (forall k' :: k < k' < l + 1 ==> next[k'] != next[k])
      ensures next[k] in table[names[l] := l] && table[names[l] := l][next[k]] == k
    {
      if k < l {
        assert next[l] != next[k] && done[k] == next[k];
        assert forall k' :: k < k' < l ==> done[k'] == next[k'];
      }
    }
  }

  class GraphState {
    var tensorToConsumers: map<Tensor, seq<nat>>
    var tensorToProducer: map<Tensor, nat>
    var nameToLayer: map<string, nat>

    constructor ()
      ensures tensorToConsumers == map[] && tensorToProducer == map[] && nameToLayer == map[]
    {
      tensorToConsumers, tensorToProducer, nameToLayer := map[], map[], map[];
    }

    method AddInputs(l: nat, ins: seq<Tensor>)
      modifies this`tensorToConsumers
      ensures Added(old(tensorToConsumers), tensorToConsumers, ins, l)
    {
      hide Added;
      NothingAdded(tensorToConsumers, l);
      assert ins[..0] == [];
      var i := 0;
      while i < |ins|
        invariant 0 <= i <= |ins| && Added(old(tensorToConsumers), tensorToConsumers, ins[..i], l)
      {
        AddedStep(old(tensorToConsumers), tensorToConsumers, ins, i, l);
        if ins[i] != Absent {
          tensorToConsumers := tensorToConsumers[ins[i] := Get(tensorToConsumers, ins[i]) + [l]];
        }
        i := i + 1;
      }
      assert ins[..|ins|] == ins;
    }

    method AddOutputs(l: nat, layers: seq<Layer>)
      requires l < |layers| && ProducersIndexed(tensorToProducer, layers[..l])
      modifies this`tensorToProducer
      ensures ProducersIndexed(tensorToProducer, layers[..l + 1])
    {
      var arity := Arity(layers[l].kind);
      var i := 0;
      while i < arity
        invariant 0 <= i <= arity
        invariant forall t :: t in tensorToProducer <==>
                    t in old(tensorToProducer) || (t.Out? && t.layer == l && t.slot < i)
        invariant forall t :: t in tensorToProducer ==> tensorToProducer[t] == t.layer
      {
        tensorToProducer := tensorToProducer[Out(l, i) := l];
        i := i + 1;
      }
    }

    /** The tables equal the direct scan; with distinct names, each name leads to exactly its layer. */
    method Build(layers: seq<Layer>, names: seq<string>)
      requires |names| == |layers|
      requires tensorToConsumers == map[] && tensorToProducer == map[] && nameToLayer == map[]
      modifies this
      ensures ConsumersIndexed(tensorToConsumers, layers)
      ensures ProducersIndexed(tensorToProducer, layers)
      ensures NamesIndexed(nameToLayer, names)
    {
      hide ConsumersIndexed, ProducersIndexed, NamesIndexed, Added;
      NothingIndexed();
      assert layers[..0] == [] && names[..0] == [];
      var l := 0;
      while l < |layers|
        invariant 0 <= l <= |layers| && ConsumersIndexed(tensorToConsumers, layers[..l])
        invariant ProducersIndexed(tensorToProducer, layers[..l]) && NamesIndexed(nameToLayer, names[..l])
      {
        ghost var before := tensorToConsumers;
        NamesNext(nameToLayer, names, l);
        nameToLayer := nameToLayer[names[l] := l];
        AddInputs(l, layers[l].inputs);
        ConsumersNext(before, tensorToConsumers, layers, l);
        AddOutputs(l, layers);
        l := l + 1;
      }
      assert layers[..|layers|] == layers && names[..|names|] == names;
    }
  }

  lemma NothingAdded(table: map<Tensor, seq<nat>>, l: nat)
    ensures Added(table, table, [], l)
  {
  }

  lemma NothingIndexed()
    ensures ConsumersIndexed(map[], []) && ProducersIndexed(map[], []) && NamesIndexed(map[], [])
  {
  }

  /** Names from one generator are distinct, so the name table inverts them. */
  lemma GeneratedNamesIdentify(prefix: string, calls: seq<UniqueNames.Request>, l: nat, l': nat)
    requires l < |calls| && l' < |calls|
    ensures UniqueNames.Issued(prefix, map[], calls)[l] == UniqueNames.Issued(prefix, map[], calls)[l'] <==> l == l'
  {
    if l < l' {
      UniqueNames.IssuedDistinct(prefix, map[], calls, l, l');
    } else if l' < l {
      UniqueNames.IssuedDistinct(prefix, map[], calls, l', l);
    }
  }

  // ----- The scan against the set of uses -----

  function SlotSet(layers: seq<Layer>, t: Tensor): set<(nat, nat)> {
    set l, s | 0 <= l < |layers| && 0 <= s < |layers[l].inputs| && layers[l].inputs[s] == t :: (l, s)
  }

  function SlotSetIn(ins: seq<Tensor>, t: Tensor, l: nat): set<(nat, nat)> {
    set s | 0 <= s < |ins| && ins[s] == t :: (l, s)
  }

  lemma {:induction false} SlotsInCount(ins: seq<Tensor>, t: Tensor, l: nat)
    ensures |SlotsIn(ins, t, l)| == |SlotSetIn(ins, t, l)|
  {
    if ins != [] {
      var k := |ins| - 1;
      SlotsInCount(ins[..k], t, l);
      var was := SlotSetIn(ins[..k], t, l);
      assert (l, k) !in was;
      assert SlotSetIn(ins, t, l) == was + (if ins[k] == t then {(l, k)} else {});
    }
  }

  lemma {:induction false} SlotsInElements(ins: seq<Tensor>, t: Tensor, l: nat, c: nat)
    ensures c in SlotsIn(ins, t, l) <==> c == l && t in ins
  {
    if ins != [] {
      var k := |ins| - 1;
      SlotsInElements(ins[..k], t, l, c);
      assert ins == ins[..k] + [ins[k]];
    }
  }

  /** The consumer list has one entry for every use. */
  lemma {:induction false} ConsumersCount(layers: seq<Layer>, t: Tensor)
    ensures |Consumers(layers, t)| == |SlotSet(layers, t)|
  {
    if layers != [] {
      var n := |layers| - 1;
      ConsumersCount(layers[..n], t);
      SlotsInCount(layers[n].inputs, t, n);
      hide SlotSet, SlotSetIn;
      SlotSetSplit(layers, t);
    }
  }

  lemma SlotSetSplit(layers: seq<Layer>, t: Tensor)
    requires |layers| > 0
    ensures var n := |layers| - 1;
      |SlotSet(layers, t)| == |SlotSet(layers[..n], t)| + |SlotSetIn(layers[n].inputs, t, n)|
  {
    hide SlotSet, SlotSetIn;
    var n := |layers| - 1;
    var all, was, more := SlotSet(layers, t), SlotSet(layers[..n], t), SlotSetIn(layers[n].inputs, t, n);
    forall u: (nat, nat) ensures (u in all <==> u in was || u in more) && !(u in was && u in more) {
      SlotIn(layers, t, u.0, u.1);
      SlotIn(layers[..n], t, u.0, u.1);
      SlotInOne(layers[n].inputs, t, n, u.0, u.1);
      assert u.0 < n ==> layers[..n][u.0] == layers[u.0];
    }
    assert all == was + more && was !! more;
  }

  lemma SlotIn(layers: seq<Layer>, t: Tensor, l: nat, s: nat)
    ensures (l, s) in SlotSet(layers, t) <==> l < |layers| && s < |layers[l].inputs| && layers[l].inputs[s] == t
  {
  }

  lemma SlotInOne(ins: seq<Tensor>, t: Tensor, n: nat, l: nat, s: nat)
    ensures (l, s) in SlotSetIn(ins, t, n) <==> l == n && s < |ins| && ins[s] == t
  {
  }

  lemma {:induction false} ConsumersElements(layers: seq<Layer>, t: Tensor, c: nat)
    ensures c in Consumers(layers, t) <==> c < |layers| && t in layers[c].inputs
  {
    if layers != [] {
      var n := |layers| - 1;
      ConsumersElements(layers[..n], t, c);
      SlotsInElements(layers[n].inputs, t, n, c);
    }
  }

  lemma UserCount(net: Net, t: Tensor)
    ensures |UserSlots(net, t)| == |Consumers(net.layers, t)|
  {
    ConsumersCount(net.layers, t);
    assert UserSlots(net, t) == SlotSet(net.layers, t);
  }
}
