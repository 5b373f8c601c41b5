/** `MpiTopology`: all group tables of a mapping, as the constructor fills them, and a rank's own groups. */
module Topology {
  import opened Arith
  import opened MixedRadix
  import opened RankMapping
  import opened RankGroups

  function MoeStride(m: Mapping): nat {
    m.moeClusterSize * m.moeEpSize
  }

  /** `moe_tp_cluster_ep_size`. */
  function MoeSize(m: Mapping): nat {
    m.moeTpSize * m.moeEpSize * m.moeClusterSize
  }

  // ----- The group that each loop iteration appends -----

  function PpGroupAt(m: Mapping): (nat, nat) -> seq<int>
    requires Sized(m)
  {
    PositiveProduct(m.tpSize, m.cpSize);
    (_, i) => Range(i, m.worldSize, m.tpSize * m.cpSize)
  }

  function CpGroupAt(m: Mapping): (nat, nat) -> seq<int> {
    (i, j) => Range(i * m.tpSize * m.cpSize + j * m.cpSize, i * m.tpSize * m.cpSize + (j + 1) * m.cpSize, 1)
  }

  function TpGroupAt(m: Mapping): (nat, nat) -> seq<int>
    requires Sized(m)
  {
    (i, j) => Range(i * m.tpSize * m.cpSize + j, (i + 1) * m.tpSize * m.cpSize + j, m.cpSize)
  }

  function MoeTpGroupAt(m: Mapping): (nat, nat) -> seq<int>
    requires Sized(m)
  {
    PositiveProduct(m.moeClusterSize, m.moeEpSize);
    (i, j) => Range(i * MoeSize(m) + j, (i + 1) * MoeSize(m), MoeStride(m))
  }

  function MoeClusterGroupAt(m: Mapping): (nat, nat) -> seq<int> {
    (i, j) => Range(i * MoeSize(m) + j * m.moeClusterSize * m.moeEpSize,
                    i * MoeSize(m) + (j + 1) * m.moeClusterSize * m.moeEpSize, 1)
  }

  /** Row r stands for the pair (i, j) of the two outer loops, r = i * moe_tp_size + j. */
  function MoeEpGroupAt(m: Mapping): (nat, nat) -> seq<int> {
    (r, k) => Range(r * m.moeClusterSize * m.moeEpSize + k * m.moeEpSize,
                    r * m.moeClusterSize * m.moeEpSize + (k + 1) * m.moeEpSize, 1)
  }

  // ----- Shapes -----

  lemma ContiguousRange(T: nat, C: nat, p: nat, t: nat, start: int, stop: int)
    requires start == p * (T * C) + t * C && stop == start + C
    ensures |Range(start, stop, 1)| == C
    ensures forall c: nat :: c < C ==> Range(start, stop, 1)[c] == Compose(T, C, p, t, c)
  {
    RangeAt(start, stop, 1, C);
    hide Range;
    forall c: nat | c < C ensures Range(start, stop, 1)[c] == Compose(T, C, p, t, c) {
      ComposeSplit(T, C, p, t, c);
    }
  }

  lemma StridedShape(groups: Groups, f: (nat, nat) -> seq<int>, P: nat, T: nat, C: nat)
    requires groups == Table(f, P, C)
    requires forall p: nat, c: nat :: p < P && c < C ==>
               |f(p, c)| == T && forall t: nat :: t < T ==> f(p, c)[t] == Compose(T, C, p, t, c)
    ensures StridedTable(groups, P, T, C)
  {
    hide Compose, Table;
    TableSize(f, P, C);
    forall p: nat, c: nat | p < P && c < C ensures StridedGroup(groups, T, C, p, c) {
      TableAt(f, P, C, p, c);
    }
  }

  lemma ContiguousShape(groups: Groups, f: (nat, nat) -> seq<int>, P: nat, T: nat, C: nat)
    requires groups == Table(f, P, T)
    requires forall p: nat, t: nat :: p < P && t < T ==>
               |f(p, t)| == C && forall c: nat :: c < C ==> f(p, t)[c] == Compose(T, C, p, t, c)
    ensures ContiguousTable(groups, P, T, C)
  {
    hide Compose, Table;
    TableSize(f, P, T);
    forall p: nat, t: nat | p < P && t < T ensures ContiguousGroup(groups, T, C, p, t) {
      TableAt(f, P, T, p, t);
    }
  }

  lemma PpShape(m: Mapping, groups: Groups)
    requires Sized(m) && groups == Table(PpGroupAt(m), 1, m.tpSize * m.cpSize)
    ensures StridedTable(groups, 1, m.ppSize, m.tpSize * m.cpSize)
  {
    hide Table, StridedTable;
    var P, S, f := m.ppSize, m.tpSize * m.cpSize, PpGroupAt(m);
    PositiveProduct(m.tpSize, m.cpSize);
    assert m.worldSize == P * S by { assert P * m.tpSize * m.cpSize == P * (m.tpSize * m.cpSize); }
    forall p: nat, c: nat | p < 1 && c < S
      ensures |f(p, c)| == P && forall t: nat :: t < P ==> f(p, c)[t] == Compose(P, S, p, t, c)
    {
      RangeAt(c, P * S, S, P);
    }
    StridedShape(groups, f, 1, P, S);
  }

  lemma TpShape(m: Mapping, groups: Groups)
    requires Sized(m) && groups == Table(TpGroupAt(m), m.ppSize, m.cpSize)
    ensures StridedTable(groups, m.ppSize, m.tpSize, m.cpSize)
  {
    hide Table, StridedTable, Compose, TpGroupAt;
    var T, C, f := m.tpSize, m.cpSize, TpGroupAt(m);
    forall p: nat, c: nat | p < m.ppSize && c < C
      ensures |f(p, c)| == T && forall t: nat :: t < T ==> f(p, c)[t] == Compose(T, C, p, t, c)
    {
      TpGroupIs(m, p, c);
    }
    StridedShape(groups, f, m.ppSize, T, C);
  }

  lemma TpGroupIs(m: Mapping, p: nat, c: nat)
    requires Sized(m)
    ensures |TpGroupAt(m)(p, c)| == m.tpSize
    ensures forall t: nat :: t < m.tpSize ==> TpGroupAt(m)(p, c)[t] == Compose(m.tpSize, m.cpSize, p, t, c)
  {
    hide Range, Compose;
    var T, C := m.tpSize, m.cpSize;
    var start, stop := p * T * C + c, (p + 1) * T * C + c;
    MulAssoc(p, T, C);
    MulAssoc(p + 1, T, C);
    MulAdd(p, 1, T * C);
    StridedRange(T, C, p, c, start, stop);
    assert TpGroupAt(m)(p, c) == Range(start, stop, C);
  }

  lemma StridedRange(T: nat, C: nat, p: nat, c: nat, start: int, stop: int)
    requires C > 0 && start == p * (T * C) + c && stop == start + T * C
    ensures |Range(start, stop, C)| == T
    ensures forall t: nat :: t < T ==> Range(start, stop, C)[t] == Compose(T, C, p, t, c)
  {
    hide Range, Compose;
    RangeAt(start, stop, C, T);
    forall t: nat | t < T ensures Range(start, stop, C)[t] == Compose(T, C, p, t, c) {
      ComposeSplit(T, C, p, t, c);
    }
  }

  lemma NextBlock(a: nat, t: nat, C: nat)
    ensures a + (t + 1) * C == a + t * C + C
  {
    MulAdd(t, 1, C);
  }

  lemma CpGroupIs(m: Mapping, p: nat, t: nat)
    ensures |CpGroupAt(m)(p, t)| == m.cpSize
    ensures forall c: nat :: c < m.cpSize ==> CpGroupAt(m)(p, t)[c] == Compose(m.tpSize, m.cpSize, p, t, c)
  {
    hide Range, Compose;
    var a := p * m.tpSize * m.cpSize;
    assert a == p * (m.tpSize * m.cpSize);
    NextBlock(a, t, m.cpSize);
    ContiguousRange(m.tpSize, m.cpSize, p, t, a + t * m.cpSize, a + (t + 1) * m.cpSize);
  }

  lemma CpShape(m: Mapping, groups: Groups)
    requires Sized(m) && groups == Table(CpGroupAt(m), m.ppSize, m.tpSize)
    ensures ContiguousTable(groups, m.ppSize, m.tpSize, m.cpSize)
  {
    hide Table, ContiguousTable, CpGroupAt, Compose, Sized;
    forall p: nat, t: nat | p < m.ppSize && t < m.tpSize
      ensures |CpGroupAt(m)(p, t)| == m.cpSize
      ensures forall c: nat :: c < m.cpSize ==> CpGroupAt(m)(p, t)[c] == Compose(m.tpSize, m.cpSize, p, t, c)
    {
      CpGroupIs(m, p, t);
    }
    ContiguousShape(groups, CpGroupAt(m), m.ppSize, m.tpSize, m.cpSize);
  }

  lemma MoeSizeSplit(m: Mapping)
    ensures MoeSize(m) == m.moeTpSize * MoeStride(m) == m.moeTpSize * m.moeClusterSize * m.moeEpSize
  {
    assert m.moeTpSize * m.moeEpSize * m.moeClusterSize == m.moeTpSize * (m.moeClusterSize * m.moeEpSize);
    assert m.moeTpSize * m.moeClusterSize * m.moeEpSize == m.moeTpSize * (m.moeClusterSize * m.moeEpSize);
  }

  lemma MoeTpShape(m: Mapping, groups: Groups)
    requires Sized(m) && groups == Table(MoeTpGroupAt(m), m.ppSize, MoeStride(m))
    ensures StridedTable(groups, m.ppSize, m.moeTpSize, MoeStride(m))
  {
    hide Table, StridedTable;
    MoeSizeSplit(m);
    PositiveProduct(m.moeClusterSize, m.moeEpSize);
    var T, C, f := m.moeTpSize, MoeStride(m), MoeTpGroupAt(m);
    hide MoeSize, MoeStride;
    forall p: nat, c: nat | p < m.ppSize && c < C
      ensures |f(p, c)| == T && forall t: nat :: t < T ==> f(p, c)[t] == Compose(T, C, p, t, c)
    {
      MulAdd(p, 1, T * C);
      RangeAt(p * (T * C) + c, (p + 1) * (T * C), C, T);
      forall t: nat | t < T ensures f(p, c)[t] == Compose(T, C, p, t, c) {
        ComposeSplit(T, C, p, t, c);
      }
    }
    StridedShape(groups, f, m.ppSize, T, C);
  }

  lemma MoeClusterGroupIs(m: Mapping, p: nat, t: nat)
    ensures |MoeClusterGroupAt(m)(p, t)| == MoeStride(m)
    ensures forall c: nat :: c < MoeStride(m) ==>
              MoeClusterGroupAt(m)(p, t)[c] == Compose(m.moeTpSize, MoeStride(m), p, t, c)
  {
    hide Range, Compose;
    MoeSizeSplit(m);
    var C := MoeStride(m);
    assert t * m.moeClusterSize * m.moeEpSize == t * C;
    assert (t + 1) * m.moeClusterSize * m.moeEpSize == (t + 1) * C;
    NextBlock(p * MoeSize(m), t, C);
    hide MoeSize, MoeStride;
    ContiguousRange(m.moeTpSize, C, p, t, p * MoeSize(m) + t * C, p * MoeSize(m) + (t + 1) * C);
  }

  lemma MoeClusterShape(m: Mapping, groups: Groups)
    requires Sized(m) && groups == Table(MoeClusterGroupAt(m), m.ppSize, m.moeTpSize)
    ensures ContiguousTable(groups, m.ppSize, m.moeTpSize, MoeStride(m))
  {
    hide Table, ContiguousTable, MoeClusterGroupAt, Compose, Sized, MoeStride;
    forall p: nat, t: nat | p < m.ppSize && t < m.moeTpSize
      ensures |MoeClusterGroupAt(m)(p, t)| == MoeStride(m)
      ensures forall c: nat :: c < MoeStride(m) ==>
                MoeClusterGroupAt(m)(p, t)[c] == Compose(m.moeTpSize, MoeStride(m), p, t, c)
    {
      MoeClusterGroupIs(m, p, t);
    }
    ContiguousShape(groups, MoeClusterGroupAt(m), m.ppSize, m.moeTpSize, MoeStride(m));
  }

  lemma MoeEpGroupIs(m: Mapping, r: nat, k: nat)
    ensures |MoeEpGroupAt(m)(r, k)| == m.moeEpSize
    ensures forall c: nat :: c < m.moeEpSize ==>
              MoeEpGroupAt(m)(r, k)[c] == Compose(m.moeClusterSize, m.moeEpSize, r, k, c)
  {
    hide Range, Compose;
    var a := r * m.moeClusterSize * m.moeEpSize;
    assert a == r * (m.moeClusterSize * m.moeEpSize);
    NextBlock(a, k, m.moeEpSize);
    ContiguousRange(m.moeClusterSize, m.moeEpSize, r, k, a + k * m.moeEpSize, a + (k + 1) * m.moeEpSize);
  }

  lemma MoeEpShape(m: Mapping, groups: Groups)
    requires Sized(m) && groups == Table(MoeEpGroupAt(m), m.ppSize * m.moeTpSize, m.moeClusterSize)
    ensures ContiguousTable(groups, m.ppSize * m.moeTpSize, m.moeClusterSize, m.moeEpSize)
  {
    hide Table, ContiguousTable, MoeEpGroupAt, Compose, Sized;
    forall r: nat, k: nat | r < m.ppSize * m.moeTpSize && k < m.moeClusterSize
      ensures |MoeEpGroupAt(m)(r, k)| == m.moeEpSize
      ensures forall c: nat :: c < m.moeEpSize ==>
                MoeEpGroupAt(m)(r, k)[c] == Compose(m.moeClusterSize, m.moeEpSize, r, k, c)
    {
      MoeEpGroupIs(m, r, k);
    }
    ContiguousShape(groups, MoeEpGroupAt(m), m.ppSize * m.moeTpSize, m.moeClusterSize, m.moeEpSize);
  }
}
