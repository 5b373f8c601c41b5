/** `MappingBase.__init__`, the rank coordinates of `MpiTopology`, and the neighbour ranks. */
module RankMapping {
  import opened Options
  import opened Arith
  import opened MixedRadix

  datatype CpType = Ulysses | Star | Ring | Helix

  /** The constructor's arguments; -1 stands for a size that was not given. */
  datatype Args = Args(
    worldSize: nat, rank: int, tpSize: nat, ppSize: nat, cpSize: nat, cpType: Option<CpType>,
    ppPartition: Option<seq<nat>>,
    moeClusterSize: int, moeTpSize: int, moeEpSize: int, attnTpSize: int, attnCpSize: int,
    attentionDp: bool, lmHeadTp: bool)

  datatype Mapping = Mapping(
    worldSize: nat, rank: int, tpSize: nat, ppSize: nat, cpSize: nat, cpType: Option<CpType>,
    ppPartition: Option<seq<nat>>,
    moeClusterSize: nat, moeTpSize: nat, moeEpSize: nat, attnTpSize: nat, attnCpSize: nat,
    attentionDp: bool, lmHeadTp: bool)

  datatype Error =
    | UlyssesAttnCp | WorldSizeMismatch | MoeSizeMismatch | AttnSizeMismatch
    | CpTypeWithoutMoe | ClusterWithEp | LmHeadNeedsDp | RankOutOfRange

  datatype Made = Ok(mapping: Mapping) | Err(error: Error)

  /** A size that was given is positive. */
  predicate Given(x: int) {
    x == -1 || x > 0
  }

  predicate SizesPositive(a: Args) {
    && a.tpSize > 0 && a.ppSize > 0 && a.cpSize > 0
    && Given(a.moeClusterSize) && Given(a.moeTpSize) && Given(a.moeEpSize)
    && Given(a.attnTpSize) && Given(a.attnCpSize)
  }

  function TypeOf(t: Option<CpType>): CpType {
    if t.Some? then t.value else Ulysses
  }

  function MoeWorldSize(a: Args): nat {
    if TypeOf(a.cpType).Ulysses? then a.tpSize else a.tpSize * a.cpSize
  }

  /** The cluster, tp and ep sizes after the defaults are filled in. */
  function MoeSizes(a: Args): (nat, nat, nat)
    requires SizesPositive(a)
  {
    var cluster: nat := if a.moeClusterSize == -1 then 1 else a.moeClusterSize;
    var world := MoeWorldSize(a);
    if a.moeTpSize == -1 && a.moeEpSize == -1 then (cluster, world / cluster, 1)
    else if a.moeTpSize == -1 then
      PositiveProduct(a.moeEpSize, cluster);
      (cluster, world / (a.moeEpSize * cluster), a.moeEpSize)
    else if a.moeEpSize == -1 then
      PositiveProduct(a.moeTpSize, cluster);
      (cluster, a.moeTpSize, world / (a.moeTpSize * cluster))
    else (cluster, a.moeTpSize, a.moeEpSize)
  }

  function AttnSizes(a: Args): (nat, nat)
    requires SizesPositive(a)
  {
    if a.attnTpSize == -1 && a.attnCpSize == -1 then
      if TypeOf(a.cpType).Ulysses? then (a.tpSize * a.cpSize, 1) else (a.tpSize, a.cpSize)
    else if a.attnTpSize == -1 then (a.tpSize * a.cpSize / a.attnCpSize, a.attnCpSize)
    else if a.attnCpSize == -1 then (a.attnTpSize, a.tpSize * a.cpSize / a.attnTpSize)
    else (a.attnTpSize, a.attnCpSize)
  }

  /** The constructor, with its checks in the order the code makes them. */
  function Make(a: Args): Made
    requires SizesPositive(a)
  {
    var (cluster, moeTp, moeEp) := MoeSizes(a);
    var (attnTp, attnCp) := AttnSizes(a);
    if attnCp != 1 && TypeOf(a.cpType).Ulysses? then Err(UlyssesAttnCp)
    else if a.tpSize * a.ppSize * a.cpSize != a.worldSize then Err(WorldSizeMismatch)
    else if moeTp * moeEp * cluster != MoeWorldSize(a) then Err(MoeSizeMismatch)
    else if attnTp * attnCp != a.tpSize * a.cpSize then Err(AttnSizeMismatch)
    else if moeEp != 1 && a.cpSize > 1 && !TypeOf(a.cpType).Helix? then Err(CpTypeWithoutMoe)
    else if cluster > 1 && moeEp != 1 then Err(ClusterWithEp)
    else if a.lmHeadTp && !a.attentionDp then Err(LmHeadNeedsDp)
    else if !a.attentionDp && (a.rank < 0 || a.rank >= a.worldSize) then Err(RankOutOfRange)
    else
      Ok(Mapping(a.worldSize, a.rank, a.tpSize, a.ppSize, a.cpSize, a.cpType, a.ppPartition,
                 cluster, moeTp, moeEp, attnTp, attnCp, a.attentionDp, a.lmHeadTp))
  }

  /** What a constructed mapping guarantees about its sizes. */
  predicate Sized(m: Mapping) {
    && m.tpSize > 0 && m.ppSize > 0 && m.cpSize > 0
    && m.worldSize == m.ppSize * m.tpSize * m.cpSize
    && m.moeTpSize > 0 && m.moeEpSize > 0 && m.moeClusterSize > 0
    && m.moeTpSize * m.moeEpSize * m.moeClusterSize
       == (if TypeOf(m.cpType).Ulysses? then m.tpSize else m.tpSize * m.cpSize)
    && m.attnTpSize * m.attnCpSize == m.tpSize * m.cpSize
    && (m.moeClusterSize > 1 ==> m.moeEpSize == 1)
    && (m.lmHeadTp ==> m.attentionDp)
    && (!m.attentionDp ==> 0 <= m.rank < m.worldSize)
  }

  lemma MadeIsSized(a: Args)
    requires SizesPositive(a) && Make(a).Ok?
    ensures Sized(Make(a).mapping)
  {
    var m := Make(a).mapping;
    assert m.tpSize * m.ppSize * m.cpSize == m.ppSize * m.tpSize * m.cpSize;
    PositiveProduct(a.tpSize, a.cpSize);
    NonZeroFactors(m.moeTpSize, m.moeEpSize, m.moeClusterSize);
  }

  // ----- The constructor in terms of its arguments -----

  function CpTypeOf(a: Args): CpType {
    match a.cpType
    case None => Ulysses
    case Some(t) => t
  }

  /** The ranks that share the experts. */
  predicate IsMoeWorld(a: Args, n: nat) {
    n == if CpTypeOf(a) == Ulysses then a.tpSize else a.tpSize * a.cpSize
  }

  /**
   The sizes of a mapping that was made: what was given is kept; an unset cluster is 1; with neither
   expert size given there is no expert parallelism; with one given the other is the quotient.  Without
   attention sizes Ulysses has no context split and every other type splits as asked.
   */
  lemma MadeSizes(a: Args, world: nat)
    requires SizesPositive(a) && Make(a).Ok? && IsMoeWorld(a, world)
    ensures var m := Make(a).mapping;
      && m.worldSize == a.worldSize == m.tpSize * m.ppSize * m.cpSize && m.rank == a.rank
      && m.tpSize == a.tpSize && m.ppSize == a.ppSize && m.cpSize == a.cpSize && m.cpType == a.cpType
      && m.ppPartition == a.ppPartition && m.attentionDp == a.attentionDp && m.lmHeadTp == a.lmHeadTp
      && m.moeClusterSize == (if a.moeClusterSize == -1 then 1 else a.moeClusterSize)
      && (a.moeTpSize != -1 ==> m.moeTpSize == a.moeTpSize) && (a.moeEpSize != -1 ==> m.moeEpSize == a.moeEpSize)
      && (a.moeTpSize == -1 && a.moeEpSize == -1 ==> m.moeEpSize == 1)
      && m.moeTpSize * m.moeEpSize * m.moeClusterSize == world
    ensures var m := Make(a).mapping;
      && (a.attnTpSize != -1 ==> m.attnTpSize == a.attnTpSize) && (a.attnCpSize != -1 ==> m.attnCpSize == a.attnCpSize)
      && (a.attnTpSize == -1 && a.attnCpSize == -1 ==>
            if CpTypeOf(a) == Ulysses then m.attnTpSize == a.tpSize * a.cpSize && m.attnCpSize == 1
            else m.attnTpSize == a.tpSize && m.attnCpSize == a.cpSize)
      && m.attnTpSize * m.attnCpSize == a.tpSize * a.cpSize
  {
  }

  predicate Divides(d: nat, n: nat) {
    d > 0 && n % d == 0
  }

  /** A size that was given, or 1. */
  function OrOne(size: int): nat
    requires Given(size)
  {
    if size == -1 then 1 else size
  }

  /** The expert sizes fit the ranks that share the experts; one that was not given is what is left. */
  predicate ExpertsFit(a: Args, world: nat)
    requires SizesPositive(a)
  {
    var given := OrOne(a.moeTpSize) * OrOne(a.moeEpSize) * OrOne(a.moeClusterSize);
    if a.moeTpSize != -1 && a.moeEpSize != -1 then given == world else Divides(given, world)
  }

  /** The mapping ends up with one expert rank. */
  predicate NoExpertSplit(a: Args, world: nat)
    requires SizesPositive(a)
  {
    if a.moeEpSize != -1 then a.moeEpSize == 1
    else a.moeTpSize == -1 || a.moeTpSize * OrOne(a.moeClusterSize) == world
  }

  /** The attention sizes fit the product n of tp and cp, and with Ulysses they leave no context split. */
  predicate AttentionFits(a: Args, n: nat)
    requires SizesPositive(a)
  {
    var tp, cp := a.attnTpSize, a.attnCpSize;
    if tp == -1 && cp == -1 then true
    else if tp == -1 then Divides(cp, n) && (CpTypeOf(a) == Ulysses ==> cp == 1)
    else if cp == -1 then Divides(tp, n) && (CpTypeOf(a) == Ulysses ==> tp == n)
    else tp * cp == n && (CpTypeOf(a) == Ulysses ==> cp == 1)
  }

  lemma QuotientFits(n: nat, d: nat)
    requires d > 0
    ensures n / d * d == n <==> Divides(d, n)
    ensures n > 0 && Divides(d, n) ==> (n / d == 1 <==> d == n)
  {
    DivModDef(n, d);
    if d == n && n > 0 {
      DivModUnique(n, d, 1, 0);
    }
  }

  lemma ExpertsFitIff(a: Args)
    requires SizesPositive(a) && MoeWorldSize(a) > 0
    ensures var (cluster, tp, ep) := MoeSizes(a);
      && (tp * ep * cluster == MoeWorldSize(a) <==> ExpertsFit(a, MoeWorldSize(a)))
      && (ExpertsFit(a, MoeWorldSize(a)) ==> (ep == 1 <==> NoExpertSplit(a, MoeWorldSize(a))))
  {
    hide MoeWorldSize, Divides;
    var world, cluster := MoeWorldSize(a), OrOne(a.moeClusterSize);
    if a.moeTpSize == -1 && a.moeEpSize == -1 {
      QuotientFits(world, cluster);
    } else if a.moeTpSize == -1 {
      PositiveProduct(a.moeEpSize, cluster);
      QuotientFits(world, a.moeEpSize * cluster);
      MulAssoc(world / (a.moeEpSize * cluster), a.moeEpSize, cluster);
    } else if a.moeEpSize == -1 {
      PositiveProduct(a.moeTpSize, cluster);
      var d := a.moeTpSize * cluster;
      QuotientFits(world, d);
      var q := world / d;
      assert a.moeTpSize * q * cluster == q * d by {
        MulAssoc(q, a.moeTpSize, cluster);
      }
    }
  }

  lemma AttentionFitsIff(a: Args)
    requires SizesPositive(a) && a.tpSize * a.cpSize > 0
    ensures var (tp, cp) := AttnSizes(a);
      tp * cp == a.tpSize * a.cpSize && (cp != 1 ==> !TypeOf(a.cpType).Ulysses?) <==> AttentionFits(a, a.tpSize * a.cpSize)
  {
    hide Divides;
    var n := a.tpSize * a.cpSize;
    if a.attnTpSize == -1 && a.attnCpSize != -1 {
      QuotientFits(n, a.attnCpSize);
    } else if a.attnCpSize == -1 && a.attnTpSize != -1 {
      QuotientFits(n, a.attnTpSize);
      var q := n / a.attnTpSize;
      assert a.attnTpSize * q == q * a.attnTpSize;
    }
  }

  /** Exactly the arguments that the constructor accepts. */
  lemma MakeOkIff(a: Args, world: nat)
    requires SizesPositive(a) && IsMoeWorld(a, world)
    ensures Make(a).Ok? <==>
      && a.worldSize == a.tpSize * a.ppSize * a.cpSize
      && ExpertsFit(a, world) && AttentionFits(a, a.tpSize * a.cpSize)
      && (NoExpertSplit(a, world) || a.cpSize == 1 || CpTypeOf(a) == Helix)
      && (NoExpertSplit(a, world) || OrOne(a.moeClusterSize) == 1)
      && (a.lmHeadTp ==> a.attentionDp)
      && (a.attentionDp || 0 <= a.rank < a.worldSize)
  {
    hide MoeSizes, AttnSizes, ExpertsFit, NoExpertSplit, AttentionFits;
    PositiveProduct(a.tpSize, a.cpSize);
    ExpertsFitIff(a);
    AttentionFitsIff(a);
    ClusterIs(a);
  }

  lemma ClusterIs(a: Args)
    requires SizesPositive(a)
    ensures MoeSizes(a).0 == OrOne(a.moeClusterSize)
  {
  }

  lemma NonZeroFactors(x: nat, y: nat, z: nat)
    requires x * y * z > 0
    ensures x > 0 && y > 0 && z > 0
  {
  }

  /** The mapping seen from another rank: sizes are shared by all ranks. */
  function At(m: Mapping, rank: nat): Mapping {
    m.(rank := rank)
  }

  predicate RankOk(m: Mapping) {
    Sized(m) && 0 <= m.rank < m.worldSize
  }

  // ----- Coordinates -----

  function PpRank(m: Mapping): nat
    requires RankOk(m)
  {
    PositiveProduct(m.tpSize, m.cpSize);
    m.rank / (m.tpSize * m.cpSize)
  }

  function TpRank(m: Mapping): nat
    requires RankOk(m)
  {
    PositiveProduct(m.tpSize, m.cpSize);
    m.rank % (m.tpSize * m.cpSize) / m.cpSize
  }

  function CpRank(m: Mapping): nat
    requires RankOk(m)
  {
    m.rank % m.cpSize
  }

  function RankOf(m: Mapping, p: nat, t: nat, c: nat): nat {
    Compose(m.tpSize, m.cpSize, p, t, c)
  }

  /** The three coordinates of a rank are in range and determine it. */
  lemma CoordinatesDetermineRank(m: Mapping)
    requires RankOk(m)
    ensures PpRank(m) < m.ppSize && TpRank(m) < m.tpSize && CpRank(m) < m.cpSize
    ensures RankOf(m, PpRank(m), TpRank(m), CpRank(m)) == m.rank
    ensures m.rank == (PpRank(m) * m.tpSize + TpRank(m)) * m.cpSize + CpRank(m)
  {
    ComposeOfDigits(m.tpSize, m.cpSize, m.rank);
    HighBelow(m.ppSize, m.tpSize, m.cpSize, m.rank);
  }

  /** Every triple of coordinates in range belongs to exactly the rank composed of it. */
  lemma RankDeterminesCoordinates(m: Mapping, p: nat, t: nat, c: nat)
    requires Sized(m) && p < m.ppSize && t < m.tpSize && c < m.cpSize
    ensures RankOf(m, p, t, c) == (p * m.tpSize + t) * m.cpSize + c < m.worldSize
    ensures var m' := At(m, RankOf(m, p, t, c));
      RankOk(m') && PpRank(m') == p && TpRank(m') == t && CpRank(m') == c
  {
    ComposeBelow(m.ppSize, m.tpSize, m.cpSize, p, t, c);
    DigitsOfCompose(m.tpSize, m.cpSize, p, t, c);
  }

  // ----- Neighbours -----

  function NextPp(m: Mapping): int {
    var p := m.rank + m.tpSize * m.cpSize;
    if p >= m.worldSize then p - m.worldSize else p
  }

  function PrevPp(m: Mapping): int {
    var p := m.rank - m.tpSize * m.cpSize;
    if p < 0 then p + m.worldSize else p
  }

  function NextCp(m: Mapping): int
    requires RankOk(m)
  {
    if CpRank(m) == m.cpSize - 1 then m.rank - m.cpSize + 1 else m.rank + 1
  }

  function PrevCp(m: Mapping): int
    requires RankOk(m)
  {
    if CpRank(m) == 0 then m.rank + m.cpSize - 1 else m.rank - 1
  }

  function Cycle(x: nat, size: nat): nat
    requires x < size
  {
    if x + 1 == size then 0 else x + 1
  }

  function CycleBack(x: nat, size: nat): nat
    requires x < size
  {
    if x == 0 then size - 1 else x - 1
  }

  lemma RankSplit(m: Mapping, p: nat, t: nat, c: nat)
    requires Sized(m)
    ensures RankOf(m, p, t, c) == p * (m.tpSize * m.cpSize) + (t * m.cpSize + c)
    ensures m.worldSize == m.ppSize * (m.tpSize * m.cpSize)
  {
    ComposeSplit(m.tpSize, m.cpSize, p, t, c);
    assert m.ppSize * m.tpSize * m.cpSize == m.ppSize * (m.tpSize * m.cpSize);
  }

  /** The next and previous pipeline rank differ in the pipeline coordinate only, cyclically. */
  lemma PpNeighbours(m: Mapping)
    requires RankOk(m)
    ensures PpRank(m) < m.ppSize
    ensures NextPp(m) == RankOf(m, Cycle(PpRank(m), m.ppSize), TpRank(m), CpRank(m))
    ensures PrevPp(m) == RankOf(m, CycleBack(PpRank(m), m.ppSize), TpRank(m), CpRank(m))
  {
    CoordinatesDetermineRank(m);
    var p, t, c, s := PpRank(m), TpRank(m), CpRank(m), m.tpSize * m.cpSize;
    RankSplit(m, p, t, c);
    RankSplit(m, Cycle(p, m.ppSize), t, c);
    RankSplit(m, CycleBack(p, m.ppSize), t, c);
    MulStep(t, m.tpSize, m.cpSize);
    MulAdd(p, 1, s);
    MulAdd(p - 1, 1, s);
    MulAdd(m.ppSize - 1, 1, s);
    if p + 1 < m.ppSize { MulStep(p + 1, m.ppSize, s); }
    if p > 0 { MulMonotone(1, p, s); }
  }

  /** The next and previous context rank differ in the context coordinate only, cyclically. */
  lemma CpNeighbours(m: Mapping)
    requires RankOk(m)
    ensures CpRank(m) < m.cpSize
    ensures NextCp(m) == RankOf(m, PpRank(m), TpRank(m), Cycle(CpRank(m), m.cpSize))
    ensures PrevCp(m) == RankOf(m, PpRank(m), TpRank(m), CycleBack(CpRank(m), m.cpSize))
  {
    CoordinatesDetermineRank(m);
    RankSplit(m, PpRank(m), TpRank(m), CpRank(m));
    RankSplit(m, PpRank(m), TpRank(m), Cycle(CpRank(m), m.cpSize));
    RankSplit(m, PpRank(m), TpRank(m), CycleBack(CpRank(m), m.cpSize));
  }

  /** Going one way and then the other returns to the same rank, in the pipeline and in the context ring. */
  lemma NeighboursInverse(m: Mapping)
    requires RankOk(m)
    ensures 0 <= NextPp(m) < m.worldSize && 0 <= PrevPp(m) < m.worldSize
    ensures 0 <= NextCp(m) < m.worldSize && 0 <= PrevCp(m) < m.worldSize
    ensures PrevPp(At(m, NextPp(m))) == m.rank == NextPp(At(m, PrevPp(m)))
    ensures PrevCp(At(m, NextCp(m))) == m.rank == NextCp(At(m, PrevCp(m)))
  {
    hide PpRank, TpRank, CpRank, RankOf, NextPp, PrevPp, NextCp, PrevCp, Sized;
    CoordinatesDetermineRank(m);
    PpNeighbours(m);
    CpNeighbours(m);
    var p, t, c := PpRank(m), TpRank(m), CpRank(m);
    StepBack(m, Cycle(p, m.ppSize), t, c);
    StepBack(m, CycleBack(p, m.ppSize), t, c);
    StepBack(m, p, t, Cycle(c, m.cpSize));
    StepBack(m, p, t, CycleBack(c, m.cpSize));
  }

  /** The neighbours of the rank with the given coordinates. */
  lemma StepBack(m: Mapping, p: nat, t: nat, c: nat)
    requires Sized(m) && p < m.ppSize && t < m.tpSize && c < m.cpSize
    ensures RankOf(m, p, t, c) < m.worldSize && RankOk(At(m, RankOf(m, p, t, c)))
    ensures var m' := At(m, RankOf(m, p, t, c));
      && NextPp(m') == RankOf(m, Cycle(p, m.ppSize), t, c)
      && PrevPp(m') == RankOf(m, CycleBack(p, m.ppSize), t, c)
      && NextCp(m') == RankOf(m, p, t, Cycle(c, m.cpSize))
      && PrevCp(m') == RankOf(m, p, t, CycleBack(c, m.cpSize))
  {
    hide PpRank, TpRank, CpRank, NextPp, PrevPp, NextCp, PrevCp, Sized;
    RankDeterminesCoordinates(m, p, t, c);
    PpNeighbours(At(m, RankOf(m, p, t, c)));
    CpNeighbours(At(m, RankOf(m, p, t, c)));
  }

  // ----- Walking around -----

  lemma CycleIsMod(x: nat, k: nat, size: nat)
    requires x < size
    ensures (x + k) % size < size
    ensures Cycle((x + k) % size, size) == (x + k + 1) % size
  {
    var y := x + k;
    DivModDef(y, size);
    if y % size + 1 == size {
      MulAdd(y / size, 1, size);
      DivModUnique(y + 1, size, y / size + 1, 0);
    } else {
      DivModUnique(y + 1, size, y / size, y % size + 1);
    }
  }

  /** The rank reached by `k` steps to the next pipeline rank. */
  function WalkPp(m: Mapping, k: nat): int {
    if k == 0 then m.rank else NextPp(m.(rank := WalkPp(m, k - 1)))
  }

  function WalkCp(m: Mapping, k: nat): int
    requires RankOk(m)
  {
    if k == 0 then m.rank
    else
      var r := WalkCp(m, k - 1);
      if 0 <= r < m.worldSize then NextCp(At(m, r)) else -1
  }

  /** After `k` steps the pipeline coordinate has moved by `k`, modulo the number of stages. */
  lemma {:induction false} WalkPpAt(m: Mapping, k: nat)
    requires RankOk(m)
    ensures WalkPp(m, k) == RankOf(m, (PpRank(m) + k) % m.ppSize, TpRank(m), CpRank(m))
  {
    hide PpRank, TpRank, CpRank, RankOf, NextPp, Sized;
    CoordinatesDetermineRank(m);
    if k == 0 {
      DivModUnique(PpRank(m), m.ppSize, 0, PpRank(m));
    } else {
      WalkPpAt(m, k - 1);
      CycleIsMod(PpRank(m), k - 1, m.ppSize);
      StepBack(m, (PpRank(m) + k - 1) % m.ppSize, TpRank(m), CpRank(m));
    }
  }

  lemma {:induction false} WalkCpAt(m: Mapping, k: nat)
    requires RankOk(m)
    ensures WalkCp(m, k) == RankOf(m, PpRank(m), TpRank(m), (CpRank(m) + k) % m.cpSize)
  {
    hide PpRank, TpRank, CpRank, RankOf, NextCp, Sized;
    CoordinatesDetermineRank(m);
    if k == 0 {
      DivModUnique(CpRank(m), m.cpSize, 0, CpRank(m));
    } else {
      WalkCpAt(m, k - 1);
      CycleIsMod(CpRank(m), k - 1, m.cpSize);
      StepBack(m, PpRank(m), TpRank(m), (CpRank(m) + k - 1) % m.cpSize);
    }
  }

  lemma ModReturns(x: nat, k: nat, size: nat)
    requires x < size && 0 < k <= size
    ensures (x + k) % size == x <==> k == size
  {
    if x + k < size {
      DivModUnique(x + k, size, 0, x + k);
    } else {
      DivModUnique(x + k, size, 1, x + k - size);
    }
  }

  lemma SameRankSameDigits(m: Mapping, p: nat, t: nat, c: nat, p': nat, t': nat, c': nat)
    requires Sized(m) && p < m.ppSize && t < m.tpSize && c < m.cpSize && p' < m.ppSize && t' < m.tpSize && c' < m.cpSize
    ensures RankOf(m, p, t, c) == RankOf(m, p', t', c') <==> p == p' && t == t' && c == c'
  {
    hide Sized;
    RankDeterminesCoordinates(m, p, t, c);
    RankDeterminesCoordinates(m, p', t', c');
  }

  /** Walking returns to its start after the whole pipeline, and after the whole context ring, not before. */
  lemma WalksReturn(m: Mapping, k: nat)
    requires RankOk(m)
    ensures 0 < k <= m.ppSize ==> (WalkPp(m, k) == m.rank <==> k == m.ppSize)
    ensures 0 < k <= m.cpSize ==> (WalkCp(m, k) == m.rank <==> k == m.cpSize)
  {
    hide PpRank, TpRank, CpRank, RankOf, Sized;
    CoordinatesDetermineRank(m);
    var p, t, c := PpRank(m), TpRank(m), CpRank(m);
    WalkPpAt(m, k);
    WalkCpAt(m, k);
    CycleIsMod(p, k, m.ppSize);
    CycleIsMod(c, k, m.cpSize);
    SameRankSameDigits(m, (p + k) % m.ppSize, t, c, p, t, c);
    SameRankSameDigits(m, p, t, (c + k) % m.cpSize, p, t, c);
    if 0 < k <= m.ppSize { ModReturns(p, k, m.ppSize); }
    if 0 < k <= m.cpSize { ModReturns(c, k, m.cpSize); }
  }

  lemma StepsTo(x: nat, y: nat, size: nat) returns (k: nat)
    requires x < size && y < size
    ensures k < size && (x + k) % size == y
  {
    if y >= x {
      k := y - x;
      DivModUnique(x + k, size, 0, y);
    } else {
      k := y + size - x;
      DivModUnique(x + k, size, 1, y);
    }
  }

  /** Every member of the pipeline group, and of the context group, is reached in less than one round. */
  lemma WalksReachAll(m: Mapping, p: nat, c: nat)
    requires RankOk(m) && p < m.ppSize && c < m.cpSize
    ensures exists k: nat :: k < m.ppSize && WalkPp(m, k) == RankOf(m, p, TpRank(m), CpRank(m))
    ensures exists k: nat :: k < m.cpSize && WalkCp(m, k) == RankOf(m, PpRank(m), TpRank(m), c)
  {
    hide RankOf, TpRank, CpRank, PpRank, Sized;
    CoordinatesDetermineRank(m);
    var k := StepsTo(PpRank(m), p, m.ppSize);
    WalkPpAt(m, k);
    var l := StepsTo(CpRank(m), c, m.cpSize);
    WalkCpAt(m, l);
  }
}
