/** Mixture-of-experts groups of a mapping without context parallelism, and the helix repurposing. */
module MoeGroups {
  import opened Options
  import opened Arith
  import opened MixedRadix
  import opened RankMapping
  import opened RankGroups
  import opened Topology
  import opened OwnGroups

  function MoeTpRank(m: Mapping): nat
    requires RankOk(m)
  {
    PositiveProduct(m.moeEpSize, m.moeClusterSize);
    TpRank(m) / (m.moeEpSize * m.moeClusterSize)
  }

  function MoeClusterRank(m: Mapping): nat
    requires RankOk(m)
  {
    TpRank(m) % m.moeClusterSize
  }

  function MoeEpRank(m: Mapping): nat
    requires RankOk(m)
  {
    TpRank(m) % m.moeEpSize
  }

  /** The position inside the block of `cluster * ep` consecutive ranks. */
  function BlockRank(m: Mapping): nat
    requires RankOk(m)
  {
    PositiveProduct(m.moeClusterSize, m.moeEpSize);
    TpRank(m) % MoeStride(m)
  }

  // ----- Coordinates -----

  lemma FlatRank(m: Mapping)
    requires RankOk(m) && m.cpSize == 1
    ensures TpRank(m) < m.tpSize == m.moeTpSize * MoeStride(m) && MoeStride(m) > 0
    ensures m.rank == PpRank(m) * (m.moeTpSize * MoeStride(m)) + TpRank(m)
    ensures CpRank(m) == 0 && PpRank(m) < m.ppSize
    ensures m.worldSize == m.ppSize * m.moeTpSize * MoeStride(m)
  {
    hide PpRank, TpRank, CpRank;
    CoordinatesDetermineRank(m);
    MoeSizeSplit(m);
    PositiveProduct(m.moeClusterSize, m.moeEpSize);
    assert m.tpSize == MoeSize(m);
    var p, t, S := PpRank(m), TpRank(m), m.moeTpSize * MoeStride(m);
    RankSplit(m, p, t, 0);
    assert m.tpSize * 1 == S && t * 1 + 0 == t;
    assert m.ppSize * m.moeTpSize * MoeStride(m) == m.ppSize * S;
  }

  /** The rank in terms of stage, moe tp rank and position in the block. */
  lemma MoeDigits(m: Mapping)
    requires RankOk(m) && m.cpSize == 1
    ensures MoeTpRank(m) < m.moeTpSize && BlockRank(m) < MoeStride(m)
    ensures m.rank == Compose(m.moeTpSize, MoeStride(m), PpRank(m), MoeTpRank(m), BlockRank(m))
  {
    hide PpRank, TpRank, CpRank;
    FlatRank(m);
    var C, x := MoeStride(m), TpRank(m);
    assert m.moeEpSize * m.moeClusterSize == C;
    DivModDef(x, C);
    if x / C >= m.moeTpSize { MulMonotone(m.moeTpSize, x / C, C); }
    ComposeSplit(m.moeTpSize, C, PpRank(m), x / C, x % C);
  }

  /** At most one of cluster and ep size exceeds one, so the two coordinates make up the block position. */
  lemma BlockDigits(m: Mapping)
    requires RankOk(m)
    ensures BlockRank(m) == MoeClusterRank(m) * m.moeEpSize + MoeEpRank(m)
    ensures MoeClusterRank(m) < m.moeClusterSize && MoeEpRank(m) < m.moeEpSize
    ensures BlockRank(m) == MoeClusterRank(m) <==> m.moeClusterSize > 1 || MoeEpRank(m) == 0
  {
    hide TpRank;
    if m.moeClusterSize == 1 {
      assert MoeStride(m) == m.moeEpSize;
    } else {
      assert MoeStride(m) == m.moeClusterSize;
    }
  }

  // ----- Own groups -----

  /** `moe_tp_group`, `moe_ep_group` and `moe_cluster_group`: the index each property looks up. */
  function MoeTpIndex(m: Mapping): nat
    requires RankOk(m)
  {
    Times(Times(PpRank(m), m.moeClusterSize), m.moeEpSize) + Times(MoeClusterRank(m), m.moeEpSize) + MoeEpRank(m)
  }

  function MoeEpIndex(m: Mapping): nat
    requires RankOk(m)
  {
    Times(Times(PpRank(m), m.moeTpSize), m.moeClusterSize) + Times(MoeTpRank(m), m.moeClusterSize) + MoeClusterRank(m)
  }

  function MoeClusterIndex(m: Mapping): nat
    requires RankOk(m)
  {
    Times(PpRank(m), m.moeTpSize) + MoeTpRank(m)
  }

  lemma MoeTpIndexIs(m: Mapping)
    requires RankOk(m)
    ensures MoeTpIndex(m) == PpRank(m) * MoeStride(m) + BlockRank(m)
  {
    hide PpRank, MoeClusterRank, MoeEpRank, BlockRank, Sized;
    BlockDigits(m);
    MulAssoc(PpRank(m), m.moeClusterSize, m.moeEpSize);
  }

  lemma OwnMoeTp(m: Mapping)
    requires RankOk(m) && m.cpSize == 1
    ensures MoeTpIndex(m) < |MoeTpGroups(m)| && |MoeTpGroups(m)[MoeTpIndex(m)]| == m.moeTpSize
    ensures Holds(MoeTpGroups(m), (MoeTpIndex(m), MoeTpRank(m)), m.rank)
  {
    hide Table, StridedTable, Compose, PpRank, TpRank, MoeTpRank, MoeTpIndex, BlockRank, Sized, MoeStride;
    MoeTpShape(m, MoeTpGroups(m));
    FlatRank(m);
    MoeDigits(m);
    MoeTpIndexIs(m);
    StridedMember(MoeTpGroups(m), m.ppSize, m.moeTpSize, MoeStride(m), PpRank(m), MoeTpRank(m), BlockRank(m));
  }

  lemma OwnMoeCluster(m: Mapping)
    requires RankOk(m) && m.cpSize == 1
    ensures MoeClusterIndex(m) < |MoeClusterGroups(m)| && |MoeClusterGroups(m)[MoeClusterIndex(m)]| == MoeStride(m)
    ensures Holds(MoeClusterGroups(m), (MoeClusterIndex(m), BlockRank(m)), m.rank)
  {
    hide Table, ContiguousTable, Compose, PpRank, MoeTpRank, BlockRank, Sized;
    MoeClusterShape(m, MoeClusterGroups(m));
    FlatRank(m);
    MoeDigits(m);
    ContiguousMember(MoeClusterGroups(m), m.ppSize, m.moeTpSize, MoeStride(m), PpRank(m), MoeTpRank(m), BlockRank(m));
  }

  lemma EpDigits(m: Mapping)
    requires RankOk(m) && m.cpSize == 1
    ensures MoeClusterIndex(m) < m.ppSize * m.moeTpSize
    ensures MoeEpIndex(m) == MoeClusterIndex(m) * m.moeClusterSize + MoeClusterRank(m)
    ensures m.rank == Compose(m.moeClusterSize, m.moeEpSize, MoeClusterIndex(m), MoeClusterRank(m), MoeEpRank(m))
  {
    hide PpRank, MoeTpRank, MoeClusterRank, MoeEpRank, BlockRank, Sized;
    FlatRank(m);
    MoeDigits(m);
    BlockDigits(m);
    var r, k, l := MoeClusterIndex(m), MoeClusterRank(m), MoeEpRank(m);
    MulStep(PpRank(m), m.ppSize, m.moeTpSize);
    MulAdd(PpRank(m) * m.moeTpSize, MoeTpRank(m), m.moeClusterSize);
    ComposeSplit(m.moeClusterSize, m.moeEpSize, r, k, l);
  }

  lemma OwnMoeEp(m: Mapping)
    requires RankOk(m) && m.cpSize == 1
    ensures MoeEpIndex(m) < |MoeEpGroups(m)| && |MoeEpGroups(m)[MoeEpIndex(m)]| == m.moeEpSize
    ensures Holds(MoeEpGroups(m), (MoeEpIndex(m), MoeEpRank(m)), m.rank)
    ensures forall l: nat :: l < m.moeEpSize ==>
              MoeEpGroups(m)[MoeEpIndex(m)][l]
              == Compose(m.moeClusterSize, m.moeEpSize, MoeClusterIndex(m), MoeClusterRank(m), l)
  {
    hide Table, ContiguousTable, Compose, PpRank, MoeTpRank, MoeClusterRank, MoeEpRank, Sized, MoeEpIndex, MoeClusterIndex;
    MoeEpShape(m, MoeEpGroups(m));
    EpDigits(m);
    BlockDigits(m);
    var R, r, k := m.ppSize * m.moeTpSize, MoeClusterIndex(m), MoeClusterRank(m);
    ContiguousMember(MoeEpGroups(m), R, m.moeClusterSize, m.moeEpSize, r, k, MoeEpRank(m));
    forall l: nat | l < m.moeEpSize
      ensures MoeEpGroups(m)[MoeEpIndex(m)][l] == Compose(m.moeClusterSize, m.moeEpSize, r, k, l)
    {
      ContiguousMember(MoeEpGroups(m), R, m.moeClusterSize, m.moeEpSize, r, k, l);
    }
  }

  /** A rank sits in its own moe tp, ep and cluster group, at its moe tp rank, moe ep rank and block position. */
  lemma OwnMoeGroupsHold(m: Mapping)
    requires RankOk(m) && m.cpSize == 1
    ensures Holds(MoeTpGroups(m), (MoeTpIndex(m), MoeTpRank(m)), m.rank)
    ensures Holds(MoeEpGroups(m), (MoeEpIndex(m), MoeEpRank(m)), m.rank)
    ensures Holds(MoeClusterGroups(m), (MoeClusterIndex(m), BlockRank(m)), m.rank)
    ensures BlockRank(m) == MoeClusterRank(m) <==> m.moeClusterSize > 1 || MoeEpRank(m) == 0
  {
    hide MoeTpGroups, MoeEpGroups, MoeClusterGroups, MoeTpIndex, MoeEpIndex, MoeClusterIndex, Holds, Sized;
    OwnMoeTp(m);
    OwnMoeEp(m);
    OwnMoeCluster(m);
    BlockDigits(m);
  }

  lemma MoeTpPartition(m: Mapping)
    requires Sized(m) && m.cpSize == 1 && MoeStride(m) > 0
    ensures Partition(MoeTpGroups(m), m.worldSize, StridedPlace(m.moeTpSize, MoeStride(m)))
  {
    hide Table, Partition, StridedTable, StridedPlace;
    MoeWorld(m);
    MoeTpShape(m, MoeTpGroups(m));
    hide MoeTpGroups, MoeStride;
    StridedIsPartition(MoeTpGroups(m), m.ppSize, m.moeTpSize, MoeStride(m));
  }

  lemma MoeClusterPartition(m: Mapping)
    requires Sized(m) && m.cpSize == 1 && MoeStride(m) > 0
    ensures Partition(MoeClusterGroups(m), m.worldSize, ContiguousPlace(m.moeTpSize, MoeStride(m)))
  {
    hide Table, Partition, ContiguousTable, ContiguousPlace;
    MoeWorld(m);
    MoeClusterShape(m, MoeClusterGroups(m));
    hide MoeClusterGroups, MoeStride;
    ContiguousIsPartition(MoeClusterGroups(m), m.ppSize, m.moeTpSize, MoeStride(m));
  }

  lemma PositiveSizes(m: Mapping)
    requires Sized(m)
    ensures m.moeClusterSize > 0 && m.moeEpSize > 0
  {
  }

  lemma MoeEpPartition(m: Mapping)
    requires Sized(m) && m.cpSize == 1
    ensures Partition(MoeEpGroups(m), m.worldSize, ContiguousPlace(m.moeClusterSize, m.moeEpSize))
  {
    hide Table, Partition, ContiguousTable, ContiguousPlace, Sized, MoeStride, MoeEpGroupAt;
    PositiveSizes(m);
    MoeWorld(m);
    var R: nat := m.ppSize * m.moeTpSize;
    MoeEpShape(m, MoeEpGroups(m));
    ContiguousIsPartition(MoeEpGroups(m), R, m.moeClusterSize, m.moeEpSize);
  }

  /** Each kind of expert group lists every rank exactly once. */
  lemma MoeGroupsPartition(m: Mapping)
    requires Sized(m) && m.cpSize == 1
    ensures MoeStride(m) > 0
    ensures Partition(MoeTpGroups(m), m.worldSize, StridedPlace(m.moeTpSize, MoeStride(m)))
    ensures Partition(MoeClusterGroups(m), m.worldSize, ContiguousPlace(m.moeTpSize, MoeStride(m)))
    ensures Partition(MoeEpGroups(m), m.worldSize, ContiguousPlace(m.moeClusterSize, m.moeEpSize))
  {
    hide Partition, MoeTpGroups, MoeClusterGroups, MoeEpGroups;
    PositiveProduct(m.moeClusterSize, m.moeEpSize);
    MoeTpPartition(m);
    MoeClusterPartition(m);
    MoeEpPartition(m);
  }

  lemma MoeWorld(m: Mapping)
    requires Sized(m) && m.cpSize == 1
    ensures MoeStride(m) > 0
    ensures m.worldSize == m.ppSize * m.moeTpSize * MoeStride(m)
         == m.ppSize * m.moeTpSize * m.moeClusterSize * m.moeEpSize
  {
    MoeSizeSplit(m);
    PositiveProduct(m.moeClusterSize, m.moeEpSize);
    var S := m.moeTpSize * MoeStride(m);
    assert m.tpSize == S && m.ppSize * m.tpSize * 1 == m.ppSize * S;
    assert m.ppSize * m.moeTpSize * MoeStride(m) == m.ppSize * S;
    assert m.ppSize * m.moeTpSize * m.moeClusterSize * m.moeEpSize
        == m.ppSize * m.moeTpSize * (m.moeClusterSize * m.moeEpSize);
  }

  // ----- Helix -----

  predicate HasHelix(m: Mapping) {
    m.cpSize > 1 && m.cpType == Some(Helix)
  }

  /** `repurpose_helix_cp_to_tp`: the context ranks become tensor ranks. */
  function Repurpose(m: Mapping): Made
    requires Sized(m) && HasHelix(m)
  {
    PositiveProduct(m.tpSize, m.cpSize);
    Make(Args(m.worldSize, m.rank, m.tpSize * m.cpSize, m.ppSize, 1, None, m.ppPartition,
              m.moeClusterSize, m.moeTpSize, m.moeEpSize, -1, -1, m.attentionDp, m.lmHeadTp))
  }

  /** Every valid helix mapping is repurposed without error, into a valid mapping of the same ranks. */
  lemma RepurposeSucceeds(m: Mapping)
    requires Sized(m) && HasHelix(m)
    ensures Repurpose(m).Ok? && Sized(Repurpose(m).mapping)
    ensures var m' := Repurpose(m).mapping;
      && m'.tpSize == m.tpSize * m.cpSize && m'.cpSize == 1 && m'.ppSize == m.ppSize
      && m'.worldSize == m.worldSize && m'.rank == m.rank
      && m'.moeTpSize == m.moeTpSize && m'.moeEpSize == m.moeEpSize && m'.moeClusterSize == m.moeClusterSize
  {
    PositiveProduct(m.tpSize, m.cpSize);
    var S := m.tpSize * m.cpSize;
    assert S * m.ppSize * 1 == m.worldSize by {
      assert m.ppSize * m.tpSize * m.cpSize == m.ppSize * S;
    }
    assert S * 1 == S;
    var a := Args(m.worldSize, m.rank, S, m.ppSize, 1, None, m.ppPartition,
                  m.moeClusterSize, m.moeTpSize, m.moeEpSize, -1, -1, m.attentionDp, m.lmHeadTp);
    assert MoeSizes(a) == (m.moeClusterSize, m.moeTpSize, m.moeEpSize);
    MadeIsSized(a);
  }

  /** After repurposing, a rank's tensor group is its whole pipeline stage, in rank order. */
  lemma RepurposedGroupIsStage(m: Mapping, x: nat)
    requires RankOk(m) && HasHelix(m) && x < m.tpSize * m.cpSize
    ensures Repurpose(m).Ok? && RankOk(Repurpose(m).mapping)
    ensures var m' := Repurpose(m).mapping; var g := Index(PpRank(m'), m'.cpSize, CpRank(m'));
      && PpRank(m') == PpRank(m)
      && g < |TpGroups(m')| && |TpGroups(m')[g]| == m.tpSize * m.cpSize
      && TpGroups(m')[g][x] == PpRank(m) * (m.tpSize * m.cpSize) + x
  {
    hide TpGroups, Repurpose, Sized;
    RepurposeSucceeds(m);
    var m' := Repurpose(m).mapping;
    CoordinatesDetermineRank(m');
    assert CpRank(m') == 0;
    assert m'.tpSize * 1 == m'.tpSize;
    assert PpRank(m') == PpRank(m);
    hide PpRank, CpRank, TpRank;
    TpMember(m', PpRank(m'), x, 0);
    RankSplit(m', PpRank(m'), x, 0);
  }
}
