/**
 The communicators that the MNNVL classes split off, against the groups of the mapping, and the
 rank that a token's expert is sent to.
 */
module Communicators {
  import opened Arith
  import opened MixedRadix
  import opened RankMapping
  import opened RankGroups
  import opened Topology
  import opened OwnGroups
  import opened MoeGroups

  // ----- MPI_Comm_split, section 6.4.2 of MPI 3.1 -----

  predicate Precedes(key: nat -> int, x: nat, y: nat) {
    key(x) < key(y) || (key(x) == key(y) && x < y)
  }

  predicate Ordered(key: nat -> int, comm: seq<nat>) {
    forall i, j :: 0 <= i < j < |comm| ==> Precedes(key, comm[i], comm[j])
  }

  /** `comm` holds the ranks of one colour, ordered by key and, within equal keys, by old rank. */
  ghost predicate IsSplit(comm: seq<nat>, world: nat, color: nat -> int, key: nat -> int, c: int) {
    && (forall x: nat :: x in comm <==> x < world && color(x) == c)
    && Ordered(key, comm)
  }

  /** The split determines the communicator completely. */
  lemma {:induction false} OrderedUnique(key: nat -> int, a: seq<nat>, b: seq<nat>)
    requires Ordered(key, a) && Ordered(key, b) && forall x: nat :: x in a <==> x in b
    ensures a == b
  {
    HeadIsMember(a);
    HeadIsMember(b);
    if a != [] {
      var i :| 0 <= i < |b| && b[i] == a[0];
      var j :| 0 <= j < |a| && a[j] == b[0];
      assert a[0] == b[0];
      TailMembers(key, a);
      TailMembers(key, b);
      OrderedUnique(key, a[1..], b[1..]);
      assert a == [a[0]] + a[1..] && b == [b[0]] + b[1..];
    }
  }

  lemma HeadIsMember(a: seq<nat>)
    ensures a != [] ==> a[0] in a
  {
  }

  lemma TailMembers(key: nat -> int, a: seq<nat>)
    requires a != [] && Ordered(key, a)
    ensures Ordered(key, a[1..])
    ensures forall x: nat :: x in a[1..] <==> x in a && x != a[0]
  {
    forall x: nat ensures x in a[1..] <==> x in a && x != a[0] {
      if x in a && x != a[0] {
        var i :| 0 <= i < |a| && a[i] == x;
        assert a[1..][i - 1] == x;
      }
      if x in a[1..] {
        var i :| 0 <= i < |a[1..]| && a[1..][i] == x;
        assert a[i + 1] == x && Precedes(key, a[0], a[i + 1]);
      }
    }
  }

  // ----- The colours and keys of the two classes -----

  /** `MnnvlMemory.get_comm`. */
  function MoeColor(m: Mapping): nat -> int
    requires Sized(m)
  {
    (x: nat) =>
      if x < m.worldSize
      then (PpRank(At(m, x)) * m.cpSize + CpRank(At(m, x))) * m.moeTpSize + MoeTpRank(At(m, x))
      else -1
  }

  function TpKey(m: Mapping): nat -> int
    requires Sized(m)
  {
    (x: nat) => if x < m.worldSize then TpRank(At(m, x)) else -1
  }

  /** `HelixCpMnnvlMemory.get_comm`. */
  function HelixColor(m: Mapping): nat -> int
    requires Sized(m)
  {
    (x: nat) => if x < m.worldSize then PpRank(At(m, x)) * m.tpSize + TpRank(At(m, x)) else -1
  }

  function CpKey(m: Mapping): nat -> int
    requires Sized(m)
  {
    (x: nat) => if x < m.worldSize then CpRank(At(m, x)) else -1
  }

  /** A group whose members are all ranks. */
  function AsRanks(g: seq<int>): seq<nat>
    requires forall i :: 0 <= i < |g| ==> g[i] >= 0
  {
    seq(|g|, i requires 0 <= i < |g| => g[i])
  }

  lemma SamePair(a: nat, b: nat, a': nat, b': nat, width: nat)
    requires b < width && b' < width
    ensures a * width + b == a' * width + b' <==> a == a' && b == b'
  {
    DivModUnique(a * width + b, width, a, b);
    DivModUnique(a' * width + b', width, a', b');
  }

  // ----- The helix communicator is the context group -----

  lemma HelixMember(m: Mapping, c: nat)
    requires RankOk(m) && c < m.cpSize
    ensures var x := RankOf(m, PpRank(m), TpRank(m), c);
      && x < m.worldSize && HelixColor(m)(x) == HelixColor(m)(m.rank) && CpKey(m)(x) == c
  {
    hide PpRank, TpRank, CpRank, RankOf, Sized;
    CoordinatesDetermineRank(m);
    RankDeterminesCoordinates(m, PpRank(m), TpRank(m), c);
    assert At(m, m.rank) == m;
  }

  lemma HelixColorMates(m: Mapping, x: nat)
    requires RankOk(m) && x < m.worldSize && HelixColor(m)(x) == HelixColor(m)(m.rank)
    ensures RankOk(At(m, x)) && CpRank(At(m, x)) < m.cpSize
    ensures x == RankOf(m, PpRank(m), TpRank(m), CpRank(At(m, x)))
  {
    hide PpRank, TpRank, CpRank, RankOf, Sized;
    var m' := At(m, x);
    assert RankOk(m') by { SizedAt(m, x); }
    CoordinatesDetermineRank(m);
    CoordinatesDetermineRank(m');
    SamePair(PpRank(m), TpRank(m), PpRank(m'), TpRank(m'), m.tpSize);
    assert At(m, m.rank) == m;
    RankOfAt(m, x, PpRank(m'), TpRank(m'), CpRank(m'));
  }

  lemma SizedAt(m: Mapping, x: nat)
    requires Sized(m) && x < m.worldSize
    ensures RankOk(At(m, x))
  {
  }

  lemma RankOfAt(m: Mapping, x: nat, p: nat, t: nat, c: nat)
    ensures RankOf(At(m, x), p, t, c) == RankOf(m, p, t, c)
  {
  }

  /** For every mapping, the helix split gives the rank's context group, and its place in it is the cp rank. */
  lemma HelixCommIsCpGroup(m: Mapping)
    requires RankOk(m)
    ensures var g := Index(PpRank(m), m.tpSize, TpRank(m));
      && g < |CpGroups(m)| && (forall i :: 0 <= i < |CpGroups(m)[g]| ==> CpGroups(m)[g][i] >= 0)
      && IsSplit(AsRanks(CpGroups(m)[g]), m.worldSize, HelixColor(m), CpKey(m), HelixColor(m)(m.rank))
      && CpRank(m) < |CpGroups(m)[g]| && CpGroups(m)[g][CpRank(m)] == m.rank
  {
    hide PpRank, TpRank, CpRank, RankOf, CpGroups, Index, HelixColor, CpKey, Sized;
    CoordinatesDetermineRank(m);
    var p, t := PpRank(m), TpRank(m);
    CpMember(m, p, t, CpRank(m));
    var g := CpGroups(m)[Index(p, m.tpSize, t)];
    forall c: nat | c < |g|
      ensures g[c] == RankOf(m, p, t, c) < m.worldSize
      ensures HelixColor(m)(g[c]) == HelixColor(m)(m.rank) && CpKey(m)(g[c]) == c
    {
      CpMember(m, p, t, c);
      HelixMember(m, c);
    }
    var comm := AsRanks(g);
    forall x: nat ensures x in comm <==> x < m.worldSize && HelixColor(m)(x) == HelixColor(m)(m.rank) {
      if x < m.worldSize && HelixColor(m)(x) == HelixColor(m)(m.rank) {
        HelixColorMates(m, x);
        assert comm[CpRank(At(m, x))] == x;
      }
    }
  }

  // ----- The MoE communicator is the expert-parallel group -----

  lemma EpMate(m: Mapping, l: nat)
    requires RankOk(m) && m.cpSize == 1 && m.moeClusterSize == 1 && l < m.moeEpSize
    ensures var x := Compose(1, m.moeEpSize, MoeClusterIndex(m), 0, l);
      && x < m.worldSize && RankOk(At(m, x))
      && MoeClusterIndex(At(m, x)) == MoeClusterIndex(m) && MoeEpRank(At(m, x)) == l
      && MoeColor(m)(x) == MoeClusterIndex(m)
      && TpKey(m)(x) == MoeTpRank(m) * m.moeEpSize + l
  {
    hide PpRank, MoeTpRank, MoeEpRank, BlockRank, TpRank, CpRank, MoeClusterRank;
    FlatRank(m);
    MoeDigits(m);
    var T, C, p, q := m.moeTpSize, MoeStride(m), PpRank(m), MoeTpRank(m);
    assert C == m.moeEpSize;
    var x := Compose(T, C, p, q, l);
    assert x == Compose(1, C, MoeClusterIndex(m), 0, l);
    ComposeBelow(m.ppSize, T, C, p, q, l);
    var m' := At(m, x);
    SizedAt(m, x);
    FlatRank(m');
    MoeDigits(m');
    BlockDigits(m');
    DigitsOfCompose(T, C, p, q, l);
    DigitsOfCompose(T, C, PpRank(m'), MoeTpRank(m'), BlockRank(m'));
    EpKey(m');
  }

  lemma EpKey(m: Mapping)
    requires RankOk(m) && m.cpSize == 1 && m.moeClusterSize == 1
    ensures TpRank(m) == MoeTpRank(m) * m.moeEpSize + MoeEpRank(m)
  {
    hide TpRank;
    DivModDef(TpRank(m), m.moeEpSize);
  }

  lemma ColorIsCluster(m: Mapping, x: nat)
    requires Sized(m) && m.cpSize == 1 && x < m.worldSize
    ensures RankOk(At(m, x)) && MoeColor(m)(x) == MoeClusterIndex(At(m, x))
  {
    hide PpRank, MoeTpRank, CpRank;
    SizedAt(m, x);
    FlatRank(At(m, x));
  }

  lemma ColorMate(m: Mapping, x: nat)
    requires RankOk(m) && m.cpSize == 1 && m.moeClusterSize == 1
    requires x < m.worldSize && MoeColor(m)(x) == MoeClusterIndex(m)
    ensures RankOk(At(m, x)) && MoeEpRank(At(m, x)) < m.moeEpSize
    ensures x == Compose(1, m.moeEpSize, MoeClusterIndex(m), 0, MoeEpRank(At(m, x)))
  {
    hide MoeEpRank, MoeClusterIndex, Compose, Sized, MoeColor;
    ColorIsCluster(m, x);
    EpDigits(At(m, x));
    BlockDigits(At(m, x));
  }

  /** The expert-parallel group of a rank, as ranks. */
  function EpGroup(m: Mapping): seq<int>
    requires RankOk(m) && m.cpSize == 1
  {
    OwnMoeEp(m);
    MoeEpGroups(m)[MoeEpIndex(m)]
  }

  lemma EpGroupMembers(m: Mapping, l: nat)
    requires RankOk(m) && m.cpSize == 1 && m.moeClusterSize == 1 && l < m.moeEpSize
    ensures |EpGroup(m)| == m.moeEpSize
    ensures EpGroup(m)[l] == Compose(1, m.moeEpSize, MoeClusterIndex(m), 0, l)
  {
    hide MoeEpGroups, MoeClusterIndex, Compose, Sized;
    OwnMoeEp(m);
    BlockDigits(m);
  }

  lemma EpGroupSplits(m: Mapping)
    requires RankOk(m) && m.cpSize == 1 && m.moeClusterSize == 1
    ensures forall i :: 0 <= i < |EpGroup(m)| ==> EpGroup(m)[i] >= 0
    ensures IsSplit(AsRanks(EpGroup(m)), m.worldSize, MoeColor(m), TpKey(m), MoeColor(m)(m.rank))
    ensures MoeEpRank(m) < |EpGroup(m)| && EpGroup(m)[MoeEpRank(m)] == m.rank
  {
    hide EpGroup, MoeClusterIndex, Compose, MoeColor, TpKey, MoeEpRank, MoeTpRank, Sized;
    var g, c := EpGroup(m), MoeClusterIndex(m);
    assert At(m, m.rank) == m;
    ColorIsCluster(m, m.rank);
    ColorMate(m, m.rank);
    EpGroupMembers(m, MoeEpRank(m));
    forall l: nat | l < |g|
      ensures g[l] == Compose(1, m.moeEpSize, c, 0, l) < m.worldSize
      ensures MoeColor(m)(g[l]) == c && TpKey(m)(g[l]) == MoeTpRank(m) * m.moeEpSize + l
    {
      EpGroupMembers(m, l);
      EpMate(m, l);
    }
    var comm := AsRanks(g);
    forall x: nat ensures x in comm <==> x < m.worldSize && MoeColor(m)(x) == c {
      if x < m.worldSize && MoeColor(m)(x) == c {
        ColorMate(m, x);
        assert comm[MoeEpRank(At(m, x))] == x;
      }
    }
  }

  /** With a cluster of several ranks the colour has more than one rank, but the group has only one. */
  lemma ClusterHasMate(m: Mapping) returns (x: nat)
    requires RankOk(m) && m.cpSize == 1 && m.moeClusterSize > 1
    ensures x < m.worldSize && x != m.rank && MoeColor(m)(x) == MoeColor(m)(m.rank)
  {
    hide PpRank, MoeTpRank, BlockRank, CpRank, TpRank;
    FlatRank(m);
    MoeDigits(m);
    var T, C, p, q := m.moeTpSize, MoeStride(m), PpRank(m), MoeTpRank(m);
    assert C == m.moeClusterSize;
    var b: nat := if BlockRank(m) == 0 then 1 else 0;
    x := Compose(T, C, p, q, b);
    ComposeBelow(m.ppSize, T, C, p, q, b);
    SizedAt(m, x);
    var m' := At(m, x);
    FlatRank(m');
    MoeDigits(m');
    DigitsOfCompose(T, C, p, q, b);
    DigitsOfCompose(T, C, PpRank(m'), MoeTpRank(m'), BlockRank(m'));
    DigitsOfCompose(T, C, p, q, BlockRank(m));
    assert At(m, m.rank) == m;
    ColorIsCluster(m, x);
    ColorIsCluster(m, m.rank);
  }

  /**
   Without context parallelism the split communicator is the rank's expert-parallel group if and only
   if there is no clustering; the place of the rank in it is then its moe ep rank.
   */
  lemma MoeCommIsEpGroup(m: Mapping)
    requires RankOk(m) && m.cpSize == 1
    ensures forall i :: 0 <= i < |EpGroup(m)| ==> EpGroup(m)[i] >= 0
    ensures IsSplit(AsRanks(EpGroup(m)), m.worldSize, MoeColor(m), TpKey(m), MoeColor(m)(m.rank))
            <==> m.moeClusterSize == 1
    ensures m.moeClusterSize == 1 ==> MoeEpRank(m) < |EpGroup(m)| && EpGroup(m)[MoeEpRank(m)] == m.rank
  {
    hide MoeColor, TpKey, MoeEpRank, EpGroup, Sized, IsSplit;
    if m.moeClusterSize == 1 {
      EpGroupSplits(m);
    } else {
      ClusterDiffers(m);
    }
  }

  lemma SoleEpMember(m: Mapping)
    requires RankOk(m) && m.cpSize == 1 && m.moeClusterSize > 1
    ensures EpGroup(m) == [m.rank]
  {
    hide MoeEpGroups, MoeEpIndex, Compose;
    OwnMoeEp(m);
    BlockDigits(m);
  }

  lemma ClusterDiffers(m: Mapping)
    requires RankOk(m) && m.cpSize == 1 && m.moeClusterSize != 1
    ensures forall i :: 0 <= i < |EpGroup(m)| ==> EpGroup(m)[i] >= 0
    ensures !IsSplit(AsRanks(EpGroup(m)), m.worldSize, MoeColor(m), TpKey(m), MoeColor(m)(m.rank))
  {
    hide MoeColor, TpKey, EpGroup;
    SoleEpMember(m);
    var x := ClusterHasMate(m);
    assert x !in AsRanks(EpGroup(m));
  }

  // ----- Experts -----

  /** `ep_experts`. */
  function EpExperts(m: Mapping, experts: nat): seq<int>
    requires RankOk(m) && m.cpSize == 1
  {
    var perRank := experts / m.moeEpSize;
    Range(MoeEpRank(m) * perRank, (MoeEpRank(m) + 1) * perRank, 1)
  }

  /** `compute_target_rank_id` for one expert id. */
  function TargetRank(e: nat, experts: nat, epSize: nat): nat
    requires epSize > 0 && experts % epSize == 0 && experts > 0
  {
    DivModDef(experts, epSize);
    e / (experts / epSize)
  }

  lemma RangeMember(start: int, stop: int, e: int)
    requires start <= stop
    ensures e in Range(start, stop, 1) <==> start <= e < stop
  {
    RangeAt(start, stop, 1, stop - start);
    var r := Range(start, stop, 1);
    hide Range;
    if start <= e < stop {
      assert r[e - start] == e;
    }
  }

  lemma BlockOf(e: nat, l: nat, per: nat)
    requires per > 0
    ensures l * per <= e < (l + 1) * per <==> l == e / per
  {
    DivModDef(e, per);
    MulAdd(l, 1, per);
    if l * per <= e < (l + 1) * per {
      DivModUnique(e, per, l, e - l * per);
    }
  }

  /** The target computed for an expert is the one member of the group whose expert list contains it. */
  lemma TargetOwnsExpert(m: Mapping, experts: nat, e: nat, l: nat)
    requires RankOk(m) && m.cpSize == 1 && m.moeClusterSize == 1
    requires experts % m.moeEpSize == 0 && e < experts && l < m.moeEpSize
    ensures |EpGroup(m)| == m.moeEpSize && 0 <= EpGroup(m)[l] < m.worldSize && RankOk(At(m, EpGroup(m)[l]))
    ensures e in EpExperts(At(m, EpGroup(m)[l]), experts) <==> l == TargetRank(e, experts, m.moeEpSize)
    ensures TargetRank(e, experts, m.moeEpSize) < m.moeEpSize
    ensures var per, target := experts / m.moeEpSize, TargetRank(e, experts, m.moeEpSize);
            target * per <= e < (target + 1) * per
  {
    hide EpGroup, MoeClusterIndex, Compose, MoeEpRank, Range, MoeColor, TpKey;
    EpGroupMembers(m, l);
    EpMate(m, l);
    var per := experts / m.moeEpSize;
    DivModDef(experts, m.moeEpSize);
    assert per > 0;
    MulAdd(l, 1, per);
    RangeMember(l * per, (l + 1) * per, e);
    BlockOf(e, l, per);
    BlockOf(e, e / per, per);
    if e / per >= m.moeEpSize { MulMonotone(m.moeEpSize, e / per, per); }
  }
}
