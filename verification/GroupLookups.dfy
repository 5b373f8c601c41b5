/**
 The six group lookups of every mapping that can be constructed.  With attention data parallelism the
 constructor accepts any rank, so the lookups are written on integers, with Python's indexing.
 */
module GroupLookups {
  import opened Options
  import opened Arith
  import opened MixedRadix
  import opened RankMapping
  import opened RankGroups
  import opened Topology
  import opened OwnGroups
  import opened MoeGroups

  /** A list index; a negative one counts from the end. */
  function At<T>(xs: seq<T>, i: int): Option<T> {
    if 0 <= i < |xs| then Some(xs[i])
    else if -|xs| <= i < 0 then Some(xs[|xs| + i])
    else None
  }

  /** The lookup succeeds and finds `x` at position `k` of the group. */
  predicate FindsAt(groups: Groups, i: int, k: int, x: int) {
    match At(groups, i)
    case None => false
    case Some(group) => 0 <= k < |group| && group[k] == x
  }

  // ----- Coordinates of any rank -----

  function PpOf(m: Mapping): int
    requires Sized(m)
  {
    PositiveProduct(m.tpSize, m.cpSize);
    m.rank / (m.tpSize * m.cpSize)
  }

  function TpOf(m: Mapping): int
    requires Sized(m)
  {
    PositiveProduct(m.tpSize, m.cpSize);
    m.rank % (m.tpSize * m.cpSize) / m.cpSize
  }

  function CpOf(m: Mapping): int
    requires Sized(m)
  {
    m.rank % m.cpSize
  }

  function MoeTpOf(m: Mapping): int
    requires Sized(m)
  {
    PositiveProduct(m.moeEpSize, m.moeClusterSize);
    TpOf(m) / (m.moeEpSize * m.moeClusterSize)
  }

  function MoeClusterOf(m: Mapping): int
    requires Sized(m)
  {
    TpOf(m) % m.moeClusterSize
  }

  function MoeEpOf(m: Mapping): int
    requires Sized(m)
  {
    TpOf(m) % m.moeEpSize
  }

  /** The position inside the block of `cluster * ep` consecutive ranks. */
  function BlockOf(m: Mapping): int
    requires Sized(m)
  {
    PositiveProduct(m.moeClusterSize, m.moeEpSize);
    TpOf(m) % MoeStride(m)
  }

  // ----- The index each property looks up -----

  function TpIndexOf(m: Mapping): int
    requires Sized(m)
  {
    PpOf(m) * m.cpSize + CpOf(m)
  }

  function PpIndexOf(m: Mapping): int
    requires Sized(m)
  {
    TpOf(m) * m.cpSize + CpOf(m)
  }

  function CpIndexOf(m: Mapping): int
    requires Sized(m)
  {
    PpOf(m) * m.tpSize + TpOf(m)
  }

  function MoeTpIndexOf(m: Mapping): int
    requires Sized(m)
  {
    PpOf(m) * m.moeClusterSize * m.moeEpSize + MoeClusterOf(m) * m.moeEpSize + MoeEpOf(m)
  }

  function MoeEpIndexOf(m: Mapping): int
    requires Sized(m)
  {
    PpOf(m) * m.moeTpSize * m.moeClusterSize + MoeTpOf(m) * m.moeClusterSize + MoeClusterOf(m)
  }

  function MoeClusterIndexOf(m: Mapping): int
    requires Sized(m)
  {
    PpOf(m) * m.moeTpSize + MoeTpOf(m)
  }

  // ----- Which ranks are found -----

  lemma AllPositive(m: Mapping)
    requires Sized(m)
    ensures m.tpSize > 0 && m.ppSize > 0 && m.cpSize > 0
    ensures m.moeTpSize > 0 && m.moeEpSize > 0 && m.moeClusterSize > 0
  {
  }

  /** No group of a table that partitions the world holds anything but ranks of the world. */
  lemma OnlyTheWorld(groups: Groups, world: nat, place: nat -> (nat, nat), i: int, k: int, x: int)
    requires Partition(groups, world, place) && FindsAt(groups, i, k, x)
    ensures 0 <= x < world
  {
    var g := if 0 <= i then i else |groups| + i;
    assert BelongsAt(groups, world, place, g, k);
  }

  lemma FindsHeld(groups: Groups, g: nat, k: nat, x: nat)
    requires Holds(groups, (g, k), x)
    ensures FindsAt(groups, g, k, x)
  {
  }

  lemma SameIndices(m: Mapping)
    requires RankOk(m)
    ensures TpIndexOf(m) == Index(PpRank(m), m.cpSize, CpRank(m)) && TpOf(m) == TpRank(m)
    ensures CpIndexOf(m) == Index(PpRank(m), m.tpSize, TpRank(m)) && CpOf(m) == CpRank(m)
    ensures PpIndexOf(m) == Index(TpRank(m), m.cpSize, CpRank(m)) && PpOf(m) == PpRank(m)
  {
  }

  lemma SameMoeIndices(m: Mapping)
    requires RankOk(m)
    ensures MoeTpIndexOf(m) == MoeTpIndex(m) && MoeTpOf(m) == MoeTpRank(m)
    ensures MoeEpIndexOf(m) == MoeEpIndex(m) && MoeEpOf(m) == MoeEpRank(m)
    ensures MoeClusterIndexOf(m) == MoeClusterIndex(m) && BlockOf(m) == BlockRank(m)
    ensures MoeClusterOf(m) == MoeClusterRank(m)
  {
    hide PpRank, TpRank, Sized;
    SameIndices(m);
  }

  /**
   In every constructible mapping a rank finds itself in its own tensor, context and pipeline group, at
   its own coordinate, exactly when it is a rank of the world.
   */
  lemma OwnGroupsExactly(m: Mapping)
    requires Sized(m)
    ensures FindsAt(TpGroups(m), TpIndexOf(m), TpOf(m), m.rank) <==> 0 <= m.rank < m.worldSize
    ensures FindsAt(CpGroups(m), CpIndexOf(m), CpOf(m), m.rank) <==> 0 <= m.rank < m.worldSize
    ensures FindsAt(PpGroups(m), PpIndexOf(m), PpOf(m), m.rank) <==> 0 <= m.rank < m.worldSize
  {
    hide Sized, TpGroups, CpGroups, PpGroups, Partition, FindsAt, Holds, Index, PpRank, TpRank, CpRank,
      PpOf, TpOf, CpOf, TpIndexOf, CpIndexOf, PpIndexOf, StridedPlace, ContiguousPlace;
    GroupsPartition(m);
    AllPositive(m);
    if 0 <= m.rank < m.worldSize {
      OwnGroupsHold(m);
      SameIndices(m);
      FindsHeld(TpGroups(m), Index(PpRank(m), m.cpSize, CpRank(m)), TpRank(m), m.rank);
      FindsHeld(CpGroups(m), Index(PpRank(m), m.tpSize, TpRank(m)), CpRank(m), m.rank);
      FindsHeld(PpGroups(m), Index(TpRank(m), m.cpSize, CpRank(m)), PpRank(m), m.rank);
    } else {
      if FindsAt(TpGroups(m), TpIndexOf(m), TpOf(m), m.rank) {
        OnlyTheWorld(TpGroups(m), m.worldSize, StridedPlace(m.tpSize, m.cpSize), TpIndexOf(m), TpOf(m), m.rank);
      }
      if FindsAt(CpGroups(m), CpIndexOf(m), CpOf(m), m.rank) {
        OnlyTheWorld(CpGroups(m), m.worldSize, ContiguousPlace(m.tpSize, m.cpSize), CpIndexOf(m), CpOf(m), m.rank);
      }
      if FindsAt(PpGroups(m), PpIndexOf(m), PpOf(m), m.rank) {
        OnlyTheWorld(PpGroups(m), m.worldSize, StridedPlace(m.ppSize, m.tpSize * m.cpSize),
                     PpIndexOf(m), PpOf(m), m.rank);
      }
    }
  }

  /**
   With one context rank, in every constructible mapping a rank finds itself in its own expert tensor,
   expert and cluster group exactly when it is a rank of the world: in the first two at its own
   coordinate, in the third at its block position, which is the cluster rank exactly when clusters are
   used or the expert rank is 0.
   */
  lemma OwnMoeGroupsExactly(m: Mapping)
    requires Sized(m) && m.cpSize == 1
    ensures FindsAt(MoeTpGroups(m), MoeTpIndexOf(m), MoeTpOf(m), m.rank) <==> 0 <= m.rank < m.worldSize
    ensures FindsAt(MoeEpGroups(m), MoeEpIndexOf(m), MoeEpOf(m), m.rank) <==> 0 <= m.rank < m.worldSize
    ensures FindsAt(MoeClusterGroups(m), MoeClusterIndexOf(m), BlockOf(m), m.rank) <==> 0 <= m.rank < m.worldSize
    ensures BlockOf(m) == MoeClusterOf(m) <==> m.moeClusterSize > 1 || MoeEpOf(m) == 0
  {
    hide Sized, MoeTpGroups, MoeEpGroups, MoeClusterGroups, Partition, FindsAt, Holds, StridedPlace, ContiguousPlace,
      PpRank, TpRank, MoeTpRank, MoeEpRank, MoeClusterRank, BlockRank, MoeTpIndex, MoeEpIndex, MoeClusterIndex,
      PpOf, TpOf, MoeTpOf, MoeEpOf, MoeClusterOf, BlockOf, MoeTpIndexOf, MoeEpIndexOf, MoeClusterIndexOf, MoeStride;
    MoeGroupsPartition(m);
    AllPositive(m);
    BlockIs(m);
    if 0 <= m.rank < m.worldSize {
      OwnMoeGroupsHold(m);
      SameMoeIndices(m);
      FindsHeld(MoeTpGroups(m), MoeTpIndex(m), MoeTpRank(m), m.rank);
      FindsHeld(MoeEpGroups(m), MoeEpIndex(m), MoeEpRank(m), m.rank);
      FindsHeld(MoeClusterGroups(m), MoeClusterIndex(m), BlockRank(m), m.rank);
    } else {
      if FindsAt(MoeTpGroups(m), MoeTpIndexOf(m), MoeTpOf(m), m.rank) {
        OnlyTheWorld(MoeTpGroups(m), m.worldSize, StridedPlace(m.moeTpSize, MoeStride(m)),
                     MoeTpIndexOf(m), MoeTpOf(m), m.rank);
      }
      if FindsAt(MoeEpGroups(m), MoeEpIndexOf(m), MoeEpOf(m), m.rank) {
        OnlyTheWorld(MoeEpGroups(m), m.worldSize, ContiguousPlace(m.moeClusterSize, m.moeEpSize),
                     MoeEpIndexOf(m), MoeEpOf(m), m.rank);
      }
      if FindsAt(MoeClusterGroups(m), MoeClusterIndexOf(m), BlockOf(m), m.rank) {
        OnlyTheWorld(MoeClusterGroups(m), m.worldSize, ContiguousPlace(m.moeTpSize, MoeStride(m)),
                     MoeClusterIndexOf(m), BlockOf(m), m.rank);
      }
    }
  }

  lemma BlockIs(m: Mapping)
    requires Sized(m)
    ensures BlockOf(m) == MoeClusterOf(m) <==> m.moeClusterSize > 1 || MoeEpOf(m) == 0
  {
    hide TpOf;
    if m.moeClusterSize == 1 {
      assert MoeStride(m) == m.moeEpSize;
    } else {
      assert MoeStride(m) == m.moeClusterSize;
    }
  }

  /** A mapping of one rank, made for rank 5 with attention data parallelism. */
  function OutsideArgs(): Args {
    Args(1, 5, 1, 1, 1, None, None, -1, -1, -1, -1, -1, true, false)
  }

  lemma OutsideArgsMake()
    ensures Make(OutsideArgs()) == Ok(Mapping(1, 5, 1, 1, 1, None, None, 1, 1, 1, 1, 1, true, false))
  {
    hide Sized;
  }

  /** The constructor accepts it, and then its tensor group is not found. */
  lemma OutsideRankIsAccepted()
    ensures Make(OutsideArgs()).Ok? && Sized(Make(OutsideArgs()).mapping)
    ensures var m := Make(OutsideArgs()).mapping; At(TpGroups(m), TpIndexOf(m)) == None
  {
    hide Make, Table, OutsideArgs;
    OutsideArgsMake();
    var m := Mapping(1, 5, 1, 1, 1, None, None, 1, 1, 1, 1, 1, true, false);
    assert Sized(m);
    assert TpIndexOf(m) == 5;
    TableSize(TpGroupAt(m), 1, 1);
  }

  // ----- The groups written out -----

  predicate IsGroup(groups: Groups, i: int, size: nat) {
    match At(groups, i)
    case None => false
    case Some(group) => |group| == size
  }

  /**
   Member x of the groups of rank (p * tp + t) * cp + c: the tensor group varies t, the context group c
   and the pipeline group p.
   */
  lemma GroupsWrittenOut(m: Mapping, p: nat, t: nat, c: nat, x: nat)
    requires Sized(m) && p < m.ppSize && t < m.tpSize && c < m.cpSize && m.rank == (p * m.tpSize + t) * m.cpSize + c
    ensures IsGroup(TpGroups(m), TpIndexOf(m), m.tpSize) && IsGroup(CpGroups(m), CpIndexOf(m), m.cpSize)
    ensures IsGroup(PpGroups(m), PpIndexOf(m), m.ppSize)
    ensures x < m.tpSize ==> FindsAt(TpGroups(m), TpIndexOf(m), x, (p * m.tpSize + x) * m.cpSize + c)
    ensures x < m.cpSize ==> FindsAt(CpGroups(m), CpIndexOf(m), x, (p * m.tpSize + t) * m.cpSize + x)
    ensures x < m.ppSize ==> FindsAt(PpGroups(m), PpIndexOf(m), x, (x * m.tpSize + t) * m.cpSize + c)
  {
    hide TpGroups, CpGroups, PpGroups, PpOf, TpOf, CpOf, TpIndexOf, CpIndexOf, PpIndexOf, Index, RankOf, Sized,
      FindsAt, IsGroup;
    IndicesOf(m, p, t, c);
    TpMember(m, p, t, c);
    CpMember(m, p, t, c);
    PpMember(m, p, t, c);
    GroupFound(TpGroups(m), Index(p, m.cpSize, c));
    GroupFound(CpGroups(m), Index(p, m.tpSize, t));
    GroupFound(PpGroups(m), Index(t, m.cpSize, c));
    if x < m.tpSize {
      TpMember(m, p, x, c);
      WrittenOut(m, p, x, c);
      MemberFound(TpGroups(m), Index(p, m.cpSize, c), x);
    }
    if x < m.cpSize {
      CpMember(m, p, t, x);
      WrittenOut(m, p, t, x);
      MemberFound(CpGroups(m), Index(p, m.tpSize, t), x);
    }
    if x < m.ppSize {
      PpMember(m, x, t, c);
      WrittenOut(m, x, t, c);
      MemberFound(PpGroups(m), Index(t, m.cpSize, c), x);
    }
  }

  lemma WrittenOut(m: Mapping, p: nat, t: nat, c: nat)
    ensures RankOf(m, p, t, c) == (p * m.tpSize + t) * m.cpSize + c
  {
  }

  lemma GroupFound(groups: Groups, i: nat)
    requires i < |groups|
    ensures IsGroup(groups, i, |groups[i]|)
  {
  }

  lemma MemberFound(groups: Groups, i: nat, k: nat)
    requires i < |groups| && k < |groups[i]|
    ensures FindsAt(groups, i, k, groups[i][k])
  {
  }

  lemma IndicesOf(m: Mapping, p: nat, t: nat, c: nat)
    requires Sized(m) && p < m.ppSize && t < m.tpSize && c < m.cpSize && m.rank == (p * m.tpSize + t) * m.cpSize + c
    ensures RankOk(m) && TpOf(m) == t
    ensures TpIndexOf(m) == Index(p, m.cpSize, c) && CpIndexOf(m) == Index(p, m.tpSize, t)
    ensures PpIndexOf(m) == Index(t, m.cpSize, c) && PpOf(m) == p && CpOf(m) == c
  {
    hide PpRank, TpRank, CpRank, Sized, PpOf, TpOf, CpOf;
    RankDeterminesCoordinates(m, p, t, c);
    assert RankMapping.At(m, RankOf(m, p, t, c)) == m;
    SameIndices(m);
  }

  lemma BlockAlgebra(row: nat, cluster: nat, ep: nat, k: nat, l: nat)
    ensures row * (cluster * ep) + (k * ep + l) == (row * cluster + k) * ep + l
  {
    MulAssoc(row, cluster, ep);
    MulAdd(row * cluster, k, ep);
  }

  /** With one context rank, a rank of the world is composed of its stage and its three expert coordinates. */
  lemma MoeRankWrittenOut(m: Mapping)
    requires RankOk(m) && m.cpSize == 1
    ensures PpRank(m) < m.ppSize && MoeTpRank(m) < m.moeTpSize
    ensures MoeClusterRank(m) < m.moeClusterSize && MoeEpRank(m) < m.moeEpSize
    ensures m.rank ==
            ((PpRank(m) * m.moeTpSize + MoeTpRank(m)) * m.moeClusterSize + MoeClusterRank(m)) * m.moeEpSize + MoeEpRank(m)
  {
    hide PpRank, TpRank, MoeTpRank, MoeClusterRank, MoeEpRank, BlockRank, Sized, MoeEpIndex;
    FlatRank(m);
    MoeDigits(m);
    BlockDigits(m);
    EpDigits(m);
  }

  /**
   With one context rank, member x of the groups of a rank of the world, whose stage and expert
   coordinates are p, j, k and l: the expert tensor group varies j, the expert group l, and the cluster
   group runs through the whole block.
   */
  lemma MoeGroupsWrittenOut(m: Mapping, x: nat)
    requires RankOk(m) && m.cpSize == 1
    ensures IsGroup(MoeTpGroups(m), MoeTpIndexOf(m), m.moeTpSize) && IsGroup(MoeEpGroups(m), MoeEpIndexOf(m), m.moeEpSize)
    ensures IsGroup(MoeClusterGroups(m), MoeClusterIndexOf(m), m.moeClusterSize * m.moeEpSize)
    ensures var p, j, k, l := PpRank(m), MoeTpRank(m), MoeClusterRank(m), MoeEpRank(m);
      && (x < m.moeTpSize ==>
            FindsAt(MoeTpGroups(m), MoeTpIndexOf(m), x, ((p * m.moeTpSize + x) * m.moeClusterSize + k) * m.moeEpSize + l))
      && (x < m.moeEpSize ==>
            FindsAt(MoeEpGroups(m), MoeEpIndexOf(m), x, ((p * m.moeTpSize + j) * m.moeClusterSize + k) * m.moeEpSize + x))
      && (x < m.moeClusterSize * m.moeEpSize ==>
            FindsAt(MoeClusterGroups(m), MoeClusterIndexOf(m), x, (p * m.moeTpSize + j) * m.moeClusterSize * m.moeEpSize + x))
  {
    hide MoeTpGroups, MoeEpGroups, MoeClusterGroups, PpRank, TpRank, MoeTpRank, MoeClusterRank, MoeEpRank, BlockRank,
      Sized, MoeTpIndex, MoeEpIndex, MoeClusterIndex, MoeTpIndexOf, MoeEpIndexOf, MoeClusterIndexOf, FindsAt, IsGroup;
    SameMoeIndices(m);
    OwnMoeTp(m);
    OwnMoeEp(m);
    OwnMoeCluster(m);
    GroupFound(MoeTpGroups(m), MoeTpIndex(m));
    GroupFound(MoeEpGroups(m), MoeEpIndex(m));
    GroupFound(MoeClusterGroups(m), MoeClusterIndex(m));
    if x < m.moeTpSize {
      MoeTpMember(m, x);
      MemberFound(MoeTpGroups(m), MoeTpIndex(m), x);
    }
    if x < m.moeEpSize {
      MoeEpMember(m, x);
      MemberFound(MoeEpGroups(m), MoeEpIndex(m), x);
    }
    if x < m.moeClusterSize * m.moeEpSize {
      MoeClusterMember(m, x);
      MemberFound(MoeClusterGroups(m), MoeClusterIndex(m), x);
    }
  }

  lemma MoeTpMember(m: Mapping, x: nat)
    requires RankOk(m) && m.cpSize == 1 && x < m.moeTpSize
    ensures MoeTpIndex(m) < |MoeTpGroups(m)| && x < |MoeTpGroups(m)[MoeTpIndex(m)]|
    ensures MoeTpGroups(m)[MoeTpIndex(m)][x] ==
            ((PpRank(m) * m.moeTpSize + x) * m.moeClusterSize + MoeClusterRank(m)) * m.moeEpSize + MoeEpRank(m)
  {
    hide Table, StridedTable, PpRank, TpRank, MoeTpRank, MoeClusterRank, MoeEpRank, MoeTpIndex, BlockRank, Sized;
    MoeTpShape(m, MoeTpGroups(m));
    FlatRank(m);
    MoeDigits(m);
    BlockDigits(m);
    MoeTpIndexIs(m);
    hide MoeTpGroups;
    StridedMember(MoeTpGroups(m), m.ppSize, m.moeTpSize, MoeStride(m), PpRank(m), x, BlockRank(m));
    BlockAlgebra(PpRank(m) * m.moeTpSize + x, m.moeClusterSize, m.moeEpSize, MoeClusterRank(m), MoeEpRank(m));
  }

  lemma MoeEpMember(m: Mapping, x: nat)
    requires RankOk(m) && m.cpSize == 1 && x < m.moeEpSize
    ensures MoeEpIndex(m) < |MoeEpGroups(m)| && x < |MoeEpGroups(m)[MoeEpIndex(m)]|
    ensures MoeEpGroups(m)[MoeEpIndex(m)][x] ==
            ((PpRank(m) * m.moeTpSize + MoeTpRank(m)) * m.moeClusterSize + MoeClusterRank(m)) * m.moeEpSize + x
  {
    hide MoeEpGroups, PpRank, MoeTpRank, MoeClusterRank, MoeEpRank, Sized, MoeEpIndex;
    OwnMoeEp(m);
  }

  lemma MoeClusterMember(m: Mapping, x: nat)
    requires RankOk(m) && m.cpSize == 1 && x < m.moeClusterSize * m.moeEpSize
    ensures MoeClusterIndex(m) < |MoeClusterGroups(m)| && x < |MoeClusterGroups(m)[MoeClusterIndex(m)]|
    ensures MoeClusterGroups(m)[MoeClusterIndex(m)][x] ==
            (PpRank(m) * m.moeTpSize + MoeTpRank(m)) * m.moeClusterSize * m.moeEpSize + x
  {
    hide Table, ContiguousTable, PpRank, TpRank, MoeTpRank, BlockRank, Sized;
    MoeClusterShape(m, MoeClusterGroups(m));
    FlatRank(m);
    MoeDigits(m);
    hide MoeClusterGroups;
    ContiguousMember(MoeClusterGroups(m), m.ppSize, m.moeTpSize, MoeStride(m), PpRank(m), MoeTpRank(m), x);
    MulAssoc(PpRank(m) * m.moeTpSize + MoeTpRank(m), m.moeClusterSize, m.moeEpSize);
  }
}
