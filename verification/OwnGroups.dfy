/** Each rank in its own groups, and each kind of group as a partition of all ranks. */
module OwnGroups {
  import opened Arith
  import opened MixedRadix
  import opened RankMapping
  import opened RankGroups
  import opened Topology

  function PpGroups(m: Mapping): Groups
    requires Sized(m)
  {
    Table(PpGroupAt(m), 1, m.tpSize * m.cpSize)
  }

  function CpGroups(m: Mapping): Groups {
    Table(CpGroupAt(m), m.ppSize, m.tpSize)
  }

  function TpGroups(m: Mapping): Groups
    requires Sized(m)
  {
    Table(TpGroupAt(m), m.ppSize, m.cpSize)
  }

  function MoeTpGroups(m: Mapping): Groups
    requires Sized(m)
  {
    Table(MoeTpGroupAt(m), m.ppSize, MoeStride(m))
  }

  function MoeClusterGroups(m: Mapping): Groups {
    Table(MoeClusterGroupAt(m), m.ppSize, m.moeTpSize)
  }

  function MoeEpGroups(m: Mapping): Groups {
    Table(MoeEpGroupAt(m), m.ppSize * m.moeTpSize, m.moeClusterSize)
  }

  /** `MpiTopology`: the tables are filled when the object is made. */
  class MpiTopology {
    const mapping: Mapping
    var ppGroups: Groups
    var cpGroups: Groups
    var tpGroups: Groups
    var moeTpGroups: Groups
    var moeClusterGroups: Groups
    var moeEpGroups: Groups

    constructor (mapping: Mapping)
      requires Sized(mapping)
      ensures this.mapping == mapping
      ensures ppGroups == PpGroups(mapping) && cpGroups == CpGroups(mapping) && tpGroups == TpGroups(mapping)
      ensures moeTpGroups == MoeTpGroups(mapping) && moeClusterGroups == MoeClusterGroups(mapping)
      ensures moeEpGroups == MoeEpGroups(mapping)
    {
      this.mapping := mapping;
      new;
      hide Table;
      ppGroups := BuildTable(PpGroupAt(mapping), 1, mapping.tpSize * mapping.cpSize);
      cpGroups := BuildTable(CpGroupAt(mapping), mapping.ppSize, mapping.tpSize);
      tpGroups := BuildTable(TpGroupAt(mapping), mapping.ppSize, mapping.cpSize);
      moeTpGroups := BuildTable(MoeTpGroupAt(mapping), mapping.ppSize, mapping.moeClusterSize * mapping.moeEpSize);
      moeClusterGroups := BuildTable(MoeClusterGroupAt(mapping), mapping.ppSize, mapping.moeTpSize);
      moeEpGroups := BuildMoeEpGroups(mapping);
    }
  }

  /** The innermost loop, over the cluster ranks of one (stage, moe tp rank) pair. */
  method AppendMoeEpRow(m: Mapping, groups: Groups, i: nat, j: nat) returns (r: Groups)
    ensures r == groups + Row(MoeEpGroupAt(m), i * m.moeTpSize + j, m.moeClusterSize)
  {
    hide Range, MoeSize, MoeEpGroupAt;
    ghost var row := i * m.moeTpSize + j;
    r := groups;
    var k := 0;
    while k < m.moeClusterSize
      invariant 0 <= k <= m.moeClusterSize && r == groups + Row(MoeEpGroupAt(m), row, k)
    {
      EpGroupAgain(m, i, j, k);
      r := r + [Range(i * MoeSize(m) + j * m.moeClusterSize * m.moeEpSize + k * m.moeEpSize,
                      i * MoeSize(m) + j * m.moeClusterSize * m.moeEpSize + (k + 1) * m.moeEpSize, 1)];
      k := k + 1;
    }
  }

  lemma EpGroupAgain(m: Mapping, i: nat, j: nat, k: nat)
    ensures Range(i * MoeSize(m) + j * m.moeClusterSize * m.moeEpSize + k * m.moeEpSize,
                  i * MoeSize(m) + j * m.moeClusterSize * m.moeEpSize + (k + 1) * m.moeEpSize, 1)
         == MoeEpGroupAt(m)(i * m.moeTpSize + j, k)
  {
    hide Range, MoeSize;
    var row := i * m.moeTpSize + j;
    EpGroupStart(m, i, j);
    EpGroupIs(m, row, k, i * MoeSize(m) + j * m.moeClusterSize * m.moeEpSize);
  }

  lemma EpGroupIs(m: Mapping, row: nat, k: nat, start: nat)
    requires start == row * m.moeClusterSize * m.moeEpSize
    ensures MoeEpGroupAt(m)(row, k) == Range(start + k * m.moeEpSize, start + (k + 1) * m.moeEpSize, 1)
  {
    hide Range;
  }

  /** The three nested loops over pipeline stage, moe tp rank and cluster rank. */
  method BuildMoeEpGroups(m: Mapping) returns (groups: Groups)
    ensures groups == MoeEpGroups(m)
  {
    hide MoeEpGroupAt;
    groups := [];
    var i := 0;
    while i < m.ppSize
      invariant 0 <= i <= m.ppSize && groups == Table(MoeEpGroupAt(m), i * m.moeTpSize, m.moeClusterSize)
    {
      var j := 0;
      while j < m.moeTpSize
        invariant 0 <= j <= m.moeTpSize
        invariant groups == Table(MoeEpGroupAt(m), i * m.moeTpSize + j, m.moeClusterSize)
      {
        groups := AppendMoeEpRow(m, groups, i, j);
        j := j + 1;
      }
      MulAdd(i, 1, m.moeTpSize);
      i := i + 1;
    }
  }

  lemma EpGroupStart(m: Mapping, i: nat, j: nat)
    ensures i * MoeSize(m) + j * m.moeClusterSize * m.moeEpSize
         == (i * m.moeTpSize + j) * m.moeClusterSize * m.moeEpSize
  {
    MoeSizeSplit(m);
    var S := MoeStride(m);
    MulAssoc(i, m.moeTpSize, S);
    MulAdd(i * m.moeTpSize, j, S);
    MulAssoc(j, m.moeClusterSize, m.moeEpSize);
    MulAssoc(i * m.moeTpSize + j, m.moeClusterSize, m.moeEpSize);
  }

  // ----- Tensor, pipeline and context groups -----

  lemma TpPartition(m: Mapping)
    requires Sized(m)
    ensures Partition(TpGroups(m), m.worldSize, StridedPlace(m.tpSize, m.cpSize))
  {
    hide Table, Partition, StridedTable, StridedPlace;
    TpShape(m, TpGroups(m));
    hide TpGroups;
    StridedIsPartition(TpGroups(m), m.ppSize, m.tpSize, m.cpSize);
  }

  lemma CpPartition(m: Mapping)
    requires Sized(m)
    ensures Partition(CpGroups(m), m.worldSize, ContiguousPlace(m.tpSize, m.cpSize))
  {
    hide Table, Partition, ContiguousTable, ContiguousPlace;
    CpShape(m, CpGroups(m));
    hide CpGroups;
    ContiguousIsPartition(CpGroups(m), m.ppSize, m.tpSize, m.cpSize);
  }

  lemma PpPartition(m: Mapping)
    requires Sized(m)
    ensures m.tpSize * m.cpSize > 0
    ensures Partition(PpGroups(m), m.worldSize, StridedPlace(m.ppSize, m.tpSize * m.cpSize))
  {
    hide Table, Partition, StridedTable, StridedPlace;
    PositiveProduct(m.tpSize, m.cpSize);
    PpShape(m, PpGroups(m));
    hide PpGroups;
    var S := m.tpSize * m.cpSize;
    StridedIsPartition(PpGroups(m), 1, m.ppSize, S);
    RankSplit(m, 0, 0, 0);
    assert 1 * m.ppSize * S == m.ppSize * S;
  }

  /** Each of the three kinds of group lists every rank exactly once. */
  lemma GroupsPartition(m: Mapping)
    requires Sized(m)
    ensures m.tpSize * m.cpSize > 0
    ensures Partition(TpGroups(m), m.worldSize, StridedPlace(m.tpSize, m.cpSize))
    ensures Partition(CpGroups(m), m.worldSize, ContiguousPlace(m.tpSize, m.cpSize))
    ensures Partition(PpGroups(m), m.worldSize, StridedPlace(m.ppSize, m.tpSize * m.cpSize))
  {
    hide Partition, Sized, PpGroups, TpGroups, CpGroups;
    TpPartition(m);
    CpPartition(m);
    PpPartition(m);
  }

  // ----- The members of a rank's groups -----

  /** The position of row `a`, column `b` in a table with `width` columns. */
  function Index(a: nat, width: nat, b: nat): nat {
    a * width + b
  }

  lemma TpMember(m: Mapping, p: nat, t: nat, c: nat)
    requires Sized(m) && p < m.ppSize && t < m.tpSize && c < m.cpSize
    ensures Index(p, m.cpSize, c) < |TpGroups(m)| && |TpGroups(m)[Index(p, m.cpSize, c)]| == m.tpSize
    ensures TpGroups(m)[Index(p, m.cpSize, c)][t] == RankOf(m, p, t, c)
  {
    hide Table, StridedTable, Compose, Sized;
    TpShape(m, TpGroups(m));
    StridedMember(TpGroups(m), m.ppSize, m.tpSize, m.cpSize, p, t, c);
  }

  lemma CpMember(m: Mapping, p: nat, t: nat, c: nat)
    requires Sized(m) && p < m.ppSize && t < m.tpSize && c < m.cpSize
    ensures Index(p, m.tpSize, t) < |CpGroups(m)| && |CpGroups(m)[Index(p, m.tpSize, t)]| == m.cpSize
    ensures CpGroups(m)[Index(p, m.tpSize, t)][c] == RankOf(m, p, t, c)
  {
    hide Table, ContiguousTable, Compose, Sized;
    CpShape(m, CpGroups(m));
    ContiguousMember(CpGroups(m), m.ppSize, m.tpSize, m.cpSize, p, t, c);
  }

  lemma PpMember(m: Mapping, p: nat, t: nat, c: nat)
    requires Sized(m) && p < m.ppSize && t < m.tpSize && c < m.cpSize
    ensures Index(t, m.cpSize, c) < |PpGroups(m)| && |PpGroups(m)[Index(t, m.cpSize, c)]| == m.ppSize
    ensures PpGroups(m)[Index(t, m.cpSize, c)][p] == RankOf(m, p, t, c)
  {
    hide Table, StridedTable;
    PpShape(m, PpGroups(m));
    MulStep(t, m.tpSize, m.cpSize);
    var S, low := m.tpSize * m.cpSize, Index(t, m.cpSize, c);
    StridedMember(PpGroups(m), 1, m.ppSize, S, 0, p, low);
    assert 0 * S + low == low && Compose(m.ppSize, S, 0, p, low) == p * S + low;
    RankSplit(m, p, t, c);
  }

  /** A rank sits in its own group of each kind, at its own coordinate. */
  lemma OwnGroupsHold(m: Mapping)
    requires RankOk(m)
    ensures Holds(TpGroups(m), (Index(PpRank(m), m.cpSize, CpRank(m)), TpRank(m)), m.rank)
    ensures Holds(CpGroups(m), (Index(PpRank(m), m.tpSize, TpRank(m)), CpRank(m)), m.rank)
    ensures Holds(PpGroups(m), (Index(TpRank(m), m.cpSize, CpRank(m)), PpRank(m)), m.rank)
  {
    hide PpGroups, TpGroups, CpGroups, PpRank, TpRank, CpRank, RankOf, Sized, Index;
    CoordinatesDetermineRank(m);
    var p, t, c := PpRank(m), TpRank(m), CpRank(m);
    assert Holds(TpGroups(m), (Index(p, m.cpSize, c), t), m.rank) by { TpMember(m, p, t, c); }
    assert Holds(CpGroups(m), (Index(p, m.tpSize, t), c), m.rank) by { CpMember(m, p, t, c); }
    assert Holds(PpGroups(m), (Index(t, m.cpSize, c), p), m.rank) by { PpMember(m, p, t, c); }
    hide Holds;
  }

  /** A rank's tensor group and its pipeline group have only the rank itself in common. */
  lemma TpAndPpMeetOnce(m: Mapping, t: nat, p: nat)
    requires RankOk(m) && t < m.tpSize && p < m.ppSize
    ensures var tp := Index(PpRank(m), m.cpSize, CpRank(m)); var pp := Index(TpRank(m), m.cpSize, CpRank(m));
      && tp < |TpGroups(m)| && |TpGroups(m)[tp]| == m.tpSize
      && pp < |PpGroups(m)| && |PpGroups(m)[pp]| == m.ppSize
      && (TpGroups(m)[tp][t] == PpGroups(m)[pp][p] <==> t == TpRank(m) && p == PpRank(m))
  {
    hide PpRank, TpRank, CpRank, PpGroups, TpGroups, RankOf, Sized, Index;
    CoordinatesDetermineRank(m);
    TpMember(m, PpRank(m), t, CpRank(m));
    PpMember(m, p, TpRank(m), CpRank(m));
    SameRankSameDigits(m, PpRank(m), t, CpRank(m), p, TpRank(m), CpRank(m));
  }
}
