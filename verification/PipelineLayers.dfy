/** `pp_layers`, which lists a stage's layers, and `pp_rank_of_layer`, its separate closed-form inverse. */
module PipelineLayers {
  import opened Options
  import opened Arith
  import opened RankMapping
  import opened RankGroups
  import GroupLookups
  import MixedRadix

  datatype LayersError = PartitionLength | PartitionSum | LayerOutOfRange | NoSuchStage

  datatype Layers = Stage(layers: seq<int>) | LayersFailed(error: LayersError)

  datatype Owner = Owned(stage: nat) | OwnerFailed(error: LayersError)

  function Sum(xs: seq<nat>): nat {
    if xs == [] then 0 else Sum(xs[..|xs| - 1]) + xs[|xs| - 1]
  }

  // ----- Where stages begin -----

  /** The first layer of stage r under an explicit partition. */
  function PartitionStart(xs: seq<nat>, r: nat): nat
    requires r <= |xs|
  {
    Sum(xs[..r])
  }

  /** `tensor_split`: the first n % stages stages get one layer more. */
  function SplitStart(n: nat, stages: nat, r: nat): nat
    requires stages > 0
  {
    r * (n / stages) + (if r < n % stages then r else n % stages)
  }

  /** The layers of stage r; `r` is the stage of the mapping's rank. */
  function StageLayers(partition: Option<seq<nat>>, stages: nat, n: nat, r: nat): Layers
    requires r < stages
  {
    match partition
    case Some(xs) =>
      if |xs| != stages then LayersFailed(PartitionLength)
      else if Sum(xs) != n then LayersFailed(PartitionSum)
      else Stage(Range(PartitionStart(xs, r), PartitionStart(xs, r + 1), 1))
    case None => Stage(Range(SplitStart(n, stages, r), SplitStart(n, stages, r + 1), 1))
  }

  /** `pp_layers`, for any rank the constructor accepts: the list of stages is indexed last. */
  function PpLayers(m: Mapping, n: nat): Layers
    requires Sized(m)
  {
    StageAt(m.ppPartition, m.ppSize, n, GroupLookups.PpOf(m))
  }

  function StageAt(partition: Option<seq<nat>>, stages: nat, n: nat, r: int): Layers
    requires stages > 0
  {
    if StageLayers(partition, stages, n, 0).LayersFailed? then StageLayers(partition, stages, n, 0)
    else if 0 <= r < stages then StageLayers(partition, stages, n, r)
    else if r < 0 <= stages + r then StageLayers(partition, stages, n, stages + r)
    else LayersFailed(NoSuchStage)
  }

  /** Listing the layers of a stage fails exactly for a partition that does not fit, one stage or more. */
  lemma StageFailsIff(partition: Option<seq<nat>>, stages: nat, n: nat, r: nat)
    requires r < stages
    ensures StageLayers(partition, stages, n, r).LayersFailed? <==>
            partition.Some? && (|partition.value| != stages || Sum(partition.value) != n)
  {
    hide Sum;
  }

  /** A rank of the world gets the layers of its own stage; every listed layer exists. */
  lemma PpLayersOfRank(m: Mapping, n: nat)
    requires Sized(m)
    ensures RankOk(m) ==> PpRank(m) < m.ppSize && PpLayers(m, n) == StageLayers(m.ppPartition, m.ppSize, n, PpRank(m))
    ensures PpLayers(m, n).Stage? ==> forall l :: l in PpLayers(m, n).layers ==> 0 <= l < n
  {
    hide StageLayers, GroupLookups.PpOf, PpRank, Sized;
    GroupLookups.AllPositive(m);
    if RankOk(m) {
      CoordinatesDetermineRank(m);
      GroupLookups.SameIndices(m);
      if StageLayers(m.ppPartition, m.ppSize, n, 0).LayersFailed? {
        SameFailure(m.ppPartition, m.ppSize, n, PpRank(m));
      }
    }
    forall r: nat | r < m.ppSize && StageLayers(m.ppPartition, m.ppSize, n, r).Stage?
      ensures forall l :: l in StageLayers(m.ppPartition, m.ppSize, n, r).layers ==> 0 <= l < n
    {
      StageInRange(m.ppPartition, m.ppSize, n, r);
    }
  }

  /**
   For any rank the constructor accepts: the list fails exactly when the partition does not fit or the rank
   lies outside the world on either side; a negative rank counts from the end.
   */
  lemma PpLayersOfAnyRank(m: Mapping, n: nat)
    requires Sized(m)
    ensures PpLayers(m, n).LayersFailed? <==>
            (m.ppPartition.Some? && (|m.ppPartition.value| != m.ppSize || Sum(m.ppPartition.value) != n))
            || !(0 - m.worldSize <= m.rank < m.worldSize)
    ensures 0 - m.worldSize <= m.rank < 0 ==> PpLayers(m, n) == PpLayers(m.(rank := m.rank + m.worldSize), n)
  {
    hide StageLayers, Sum;
    var q := GroupLookups.PpOf(m);
    StageOfAnyRank(m);
    StageFailsIff(m.ppPartition, m.ppSize, n, 0);
    if 0 <= q < m.ppSize {
      StageFailsIff(m.ppPartition, m.ppSize, n, q);
    } else if 0 - m.ppSize <= q < 0 {
      StageFailsIff(m.ppPartition, m.ppSize, n, m.ppSize + q);
    }
  }

  lemma StageOfAnyRank(m: Mapping)
    requires Sized(m)
    ensures 0 - m.ppSize <= GroupLookups.PpOf(m) < m.ppSize <==> 0 - m.worldSize <= m.rank < m.worldSize
    ensures 0 - m.worldSize <= m.rank < 0 ==>
              0 - m.ppSize <= GroupLookups.PpOf(m) < 0 &&
              Sized(m.(rank := m.rank + m.worldSize)) &&
              GroupLookups.PpOf(m.(rank := m.rank + m.worldSize)) == m.ppSize + GroupLookups.PpOf(m)
  {
    MixedRadix.PositiveProduct(m.tpSize, m.cpSize);
    var d, pp := m.tpSize * m.cpSize, m.ppSize;
    assert m.worldSize == pp * d by {
      MulAssoc(pp, m.tpSize, m.cpSize);
    }
    QuotientBounds(m.rank, d, pp);
  }

  lemma QuotientBounds(x: int, d: nat, pp: nat)
    requires d > 0
    ensures 0 - pp <= x / d < pp <==> 0 - pp * d <= x < pp * d
    ensures x / d < 0 <==> x < 0
    ensures (x + pp * d) / d == x / d + pp
  {
    var q, s := x / d, x % d;
    DivModDef(x, d);
    MulAdd(q, pp, d);
    DivModUnique(x + pp * d, d, q + pp, s);
    SignOf(x, d);
    MulAdd(pp, 0 - pp, d);
    if q < pp {
      MulStep(q, pp, d);
    } else {
      MulMonotone(pp, q, d);
    }
    if q < 0 - pp {
      MulStep(q, 0 - pp, d);
    } else {
      MulMonotone(0 - pp, q, d);
    }
  }

  lemma SignOf(x: int, d: nat)
    requires d > 0
    ensures x / d < 0 <==> x < 0
  {
    DivModDef(x, d);
    if x / d < 0 {
      MulStep(x / d, 0, d);
    } else {
      MulMonotone(0, x / d, d);
    }
  }

  lemma SameFailure(partition: Option<seq<nat>>, stages: nat, n: nat, r: nat)
    requires r < stages && StageLayers(partition, stages, n, 0).LayersFailed?
    ensures StageLayers(partition, stages, n, r) == StageLayers(partition, stages, n, 0)
  {
  }

  lemma StageInRange(partition: Option<seq<nat>>, stages: nat, n: nat, r: nat)
    requires r < stages && StageLayers(partition, stages, n, r).Stage?
    ensures forall l :: l in StageLayers(partition, stages, n, r).layers ==> 0 <= l < n
  {
    hide Range;
    var start, stop := StageStart(partition, stages, n, r), StageStart(partition, stages, n, r + 1);
    assert stop <= n by {
      if partition.Some? {
        SumMonotone(partition.value, r + 1);
      } else {
        SplitMonotone(n, stages, r + 1, stages);
        SplitSizes(n, stages, 0);
      }
    }
    RangeBetween(start, stop);
  }

  lemma {:induction false} RangeBetween(start: int, stop: int)
    ensures forall l :: l in Range(start, stop, 1) ==> start <= l < stop
    decreases stop - start
  {
    if start < stop {
      RangeBetween(start + 1, stop);
    }
  }

  /** The default branch of `pp_rank_of_layer`. */
  function SplitOwner(l: nat, n: nat, stages: nat): nat
    requires stages > 0 && l < n
  {
    var base, rem := n / stages, n % stages;
    if base == 0 then l
    else
      var cutoff := (base + 1) * rem;
      if l < cutoff then l / (base + 1) else rem + (l - cutoff) / base
  }

  /** The partition branch as a function: the first stage whose end lies beyond the layer. */
  function PartitionOwner(xs: seq<nat>, l: nat): nat
    requires l < Sum(xs)
  {
    if l < Sum(xs[..|xs| - 1]) then PartitionOwner(xs[..|xs| - 1], l) else |xs| - 1
  }

  function OwnerOf(partition: Option<seq<nat>>, stages: nat, l: int, n: nat): Owner
    requires stages > 0
  {
    if l < 0 || l >= n then OwnerFailed(LayerOutOfRange)
    else if stages == 1 then Owned(0)
    else
      match partition
      case Some(xs) =>
        if |xs| != stages then OwnerFailed(PartitionLength)
        else if Sum(xs) != n then OwnerFailed(PartitionSum)
        else Owned(PartitionOwner(xs, l))
      case None => Owned(SplitOwner(l, n, stages))
  }

  /**
   The lookup fails exactly for a layer out of range, or a partition that does not fit two or more stages;
   a single stage owns every layer whatever the partition says.
   */
  lemma OwnerFailsIff(partition: Option<seq<nat>>, stages: nat, l: int, n: nat)
    requires stages > 0
    ensures OwnerOf(partition, stages, l, n).OwnerFailed? <==>
            !(0 <= l < n) || (stages > 1 && partition.Some? && (|partition.value| != stages || Sum(partition.value) != n))
    ensures 0 <= l < n && stages == 1 ==> OwnerOf(partition, stages, l, n) == Owned(0)
  {
    hide Sum, PartitionOwner, SplitOwner;
  }

  /** `pp_rank_of_layer`. */
  method PpRankOfLayer(partition: Option<seq<nat>>, stages: nat, l: int, n: nat) returns (o: Owner)
    requires stages > 0
    ensures o == OwnerOf(partition, stages, l, n)
  {
    hide SplitOwner, Sum, PartitionOwner;
    if l < 0 || l >= n {
      return OwnerFailed(LayerOutOfRange);
    }
    if stages == 1 {
      return Owned(0);
    }
    match partition {
      case Some(xs) =>
        if |xs| != stages {
          return OwnerFailed(PartitionLength);
        }
        if Sum(xs) != n {
          return OwnerFailed(PartitionSum);
        }
        var r := FindStage(xs, l);
        return Owned(r);
      case None =>
        return Owned(SplitOwner(l, n, stages));
    }
  }

  /** The loop that accumulates `end` until it passes the layer. */
  method FindStage(xs: seq<nat>, l: nat) returns (r: nat)
    requires l < Sum(xs)
    ensures r == PartitionOwner(xs, l)
  {
    assert xs[..|xs|] == xs;
    var end := 0;
    r := 0;
    while r < |xs|
      invariant r <= |xs| && end == Sum(xs[..r]) && end <= l
    {
      assert xs[..r + 1][..r] == xs[..r];
      end := end + xs[r];
      if l < end {
        OwnerOfPrefix(xs, l, r + 1);
        return;
      }
      r := r + 1;
    }
    assert false;
  }

  lemma {:induction false} OwnerOfPrefix(xs: seq<nat>, l: nat, r: nat)
    requires 0 < r <= |xs| && Sum(xs[..r - 1]) <= l < Sum(xs[..r])
    ensures l < Sum(xs) && PartitionOwner(xs, l) == r - 1
    decreases |xs| - r
  {
    SumMonotone(xs, r);
    if r == |xs| {
      assert xs[..r] == xs;
    } else {
      var init := xs[..|xs| - 1];
      assert init[..r] == xs[..r] && init[..r - 1] == xs[..r - 1];
      OwnerOfPrefix(init, l, r);
    }
  }

  lemma {:induction false} SumMonotone(xs: seq<nat>, r: nat)
    requires r <= |xs|
    ensures Sum(xs[..r]) <= Sum(xs)
  {
    if r == |xs| {
      assert xs[..r] == xs;
    } else {
      assert xs[..|xs| - 1][..r] == xs[..r];
      SumMonotone(xs[..|xs| - 1], r);
    }
  }

  // ----- Explicit partitions -----

  lemma SumNext(xs: seq<nat>, r: nat)
    requires r < |xs|
    ensures PartitionStart(xs, r + 1) == PartitionStart(xs, r) + xs[r]
  {
    assert xs[..r + 1][..r] == xs[..r];
  }

  /** The owner of a layer is the stage whose interval contains it, empty stages included. */
  lemma {:induction false} PartitionOwnerInterval(xs: seq<nat>, l: nat)
    requires l < Sum(xs)
    ensures var r := PartitionOwner(xs, l);
      r < |xs| && PartitionStart(xs, r) <= l < PartitionStart(xs, r + 1)
  {
    var init := xs[..|xs| - 1];
    if l < Sum(init) {
      PartitionOwnerInterval(init, l);
      var r := PartitionOwner(init, l);
      assert init[..r] == xs[..r] && init[..r + 1] == xs[..r + 1];
    } else {
      assert xs[..|xs|] == xs;
    }
  }

  lemma {:induction false} StartsMonotone(xs: seq<nat>, r: nat, q: nat)
    requires r <= q <= |xs|
    ensures PartitionStart(xs, r) <= PartitionStart(xs, q)
    decreases q
  {
    if r < q {
      StartsMonotone(xs, r, q - 1);
      SumNext(xs, q - 1);
    }
  }

  lemma PartitionOwnerUnique(xs: seq<nat>, l: nat, r: nat)
    requires l < Sum(xs) && r < |xs|
    ensures PartitionStart(xs, r) <= l < PartitionStart(xs, r + 1) <==> r == PartitionOwner(xs, l)
  {
    PartitionOwnerInterval(xs, l);
    var o := PartitionOwner(xs, l);
    hide PartitionOwner, PartitionStart;
    if r < o {
      StartsMonotone(xs, r + 1, o);
    } else if o < r {
      StartsMonotone(xs, o + 1, r);
    }
  }

  // ----- The default split -----

  lemma SplitSizes(n: nat, stages: nat, r: nat)
    requires r < stages
    ensures SplitStart(n, stages, r + 1) - SplitStart(n, stages, r) == n / stages + (if r < n % stages then 1 else 0)
    ensures SplitStart(n, stages, 0) == 0 && SplitStart(n, stages, stages) == n
  {
    MulAdd(r, 1, n / stages);
    DivModDef(n, stages);
  }

  lemma {:induction false} SplitMonotone(n: nat, stages: nat, r: nat, q: nat)
    requires stages > 0 && r <= q <= stages
    ensures SplitStart(n, stages, r) <= SplitStart(n, stages, q)
    decreases q
  {
    if r < q {
      SplitMonotone(n, stages, r, q - 1);
      SplitSizes(n, stages, q - 1);
    }
  }

  lemma SplitOwnerLow(l: nat, n: nat, stages: nat)
    requires stages > 0 && l < n && n / stages > 0 && l < (n / stages + 1) * (n % stages)
    ensures var r := SplitOwner(l, n, stages);
      r < n % stages && SplitStart(n, stages, r) <= l < SplitStart(n, stages, r) + n / stages + 1
  {
    LowStage(l, n / stages, n % stages);
  }

  lemma LowStage(l: nat, b: nat, rem: nat)
    requires l < (b + 1) * rem
    ensures var r := l / (b + 1);
      r < rem && r * b + r <= l < r * b + r + b + 1
  {
    var r := l / (b + 1);
    DivModDef(l, b + 1);
    MulAdd(b, 1, r);
    if r >= rem {
      MulMonotone(rem, r, b + 1);
    }
  }

  lemma SplitOwnerHigh(l: nat, n: nat, stages: nat)
    requires stages > 0 && l < n && n / stages > 0 && l >= (n / stages + 1) * (n % stages)
    ensures var r := SplitOwner(l, n, stages);
      n % stages <= r < stages && SplitStart(n, stages, r) <= l < SplitStart(n, stages, r) + n / stages
  {
    DivModDef(n, stages);
    HighStage(l, n / stages, n % stages, stages);
  }

  lemma HighStage(l: nat, b: nat, rem: nat, stages: nat)
    requires b > 0 && (b + 1) * rem <= l < b * stages + rem
    ensures var r := rem + (l - (b + 1) * rem) / b;
      r < stages && r * b + rem <= l < r * b + rem + b
  {
    var x := l - (b + 1) * rem;
    var q := x / b;
    DivModDef(x, b);
    MulAdd(b, 1, rem);
    MulAdd(rem, q, b);
    if rem + q >= stages {
      MulMonotone(stages, rem + q, b);
    }
  }

  lemma SplitOwnerInterval(l: nat, n: nat, stages: nat)
    requires stages > 0 && l < n
    ensures var r := SplitOwner(l, n, stages);
      r < stages && SplitStart(n, stages, r) <= l < SplitStart(n, stages, r + 1)
  {
    hide SplitOwner, SplitStart;
    var b, rem := n / stages, n % stages;
    if b == 0 {
      SplitOwnerFew(l, n, stages);
    } else {
      var r := SplitOwner(l, n, stages);
      if l < (b + 1) * rem {
        SplitOwnerLow(l, n, stages);
      } else {
        SplitOwnerHigh(l, n, stages);
      }
      SplitSizes(n, stages, r);
    }
  }

  /** Fewer layers than stages: one layer each. */
  lemma SplitOwnerFew(l: nat, n: nat, stages: nat)
    requires stages > 0 && l < n && n / stages == 0
    ensures var r := SplitOwner(l, n, stages);
      r < stages && SplitStart(n, stages, r) <= l < SplitStart(n, stages, r + 1)
  {
    DivModDef(n, stages);
    assert l * 0 == 0 && (l + 1) * 0 == 0;
  }

  lemma SplitOwnerUnique(l: nat, n: nat, stages: nat, r: nat)
    requires l < n && r < stages
    ensures SplitStart(n, stages, r) <= l < SplitStart(n, stages, r + 1) <==> r == SplitOwner(l, n, stages)
  {
    SplitOwnerInterval(l, n, stages);
    var o := SplitOwner(l, n, stages);
    hide SplitOwner, SplitStart;
    if r < o {
      SplitMonotone(n, stages, r + 1, o);
    } else if o < r {
      SplitMonotone(n, stages, o + 1, r);
    }
  }

  // ----- The two functions agree -----

  lemma IntervalMember(start: nat, stop: nat, l: nat)
    ensures l in Range(start, stop, 1) <==> start <= l < stop
  {
    if start <= stop {
      RangeAt(start, stop, 1, stop - start);
      var r := Range(start, stop, 1);
      hide Range;
      if start <= l < stop {
        assert r[l - start] == l;
      }
    }
  }

  /**
   Whenever the stages can be listed, `pp_rank_of_layer(l, n)` is r exactly when stage r lists layer l.
   */
  lemma OwnerListsLayer(partition: Option<seq<nat>>, stages: nat, n: nat, l: nat, r: nat)
    requires r < stages && l < n && StageLayers(partition, stages, n, r).Stage?
    ensures l in StageLayers(partition, stages, n, r).layers <==> OwnerOf(partition, stages, l, n) == Owned(r)
  {
    hide Range;
    match partition {
      case Some(xs) =>
        IntervalMember(PartitionStart(xs, r), PartitionStart(xs, r + 1), l);
        PartitionOwnerUnique(xs, l, r);
        PartitionOwnerInterval(xs, l);
      case None =>
        IntervalMember(SplitStart(n, stages, r), SplitStart(n, stages, r + 1), l);
        SplitOwnerUnique(l, n, stages, r);
        SplitOwnerInterval(l, n, stages);
    }
  }

  /**
   A partition that does not fit fails in both functions, except that `pp_rank_of_layer` never looks
   at it when there is a single stage.
   */
  lemma BadPartitionFails(partition: Option<seq<nat>>, stages: nat, n: nat, l: nat, r: nat)
    requires r < stages && l < n && StageLayers(partition, stages, n, r).LayersFailed?
    ensures OwnerOf(partition, stages, l, n)
         == if stages == 1 then Owned(0) else OwnerFailed(StageLayers(partition, stages, n, r).error)
  {
  }

  // ----- The stages together -----

  function Concatenated(partition: Option<seq<nat>>, stages: nat, n: nat, k: nat): seq<int>
    requires k <= stages && forall r: nat :: r < k ==> StageLayers(partition, stages, n, r).Stage?
  {
    if k == 0 then []
    else Concatenated(partition, stages, n, k - 1) + StageLayers(partition, stages, n, k - 1).layers
  }

  lemma {:induction false} RangeConcat(a: nat, b: nat, c: nat)
    requires a <= b <= c
    ensures Range(a, b, 1) + Range(b, c, 1) == Range(a, c, 1)
    decreases b - a
  {
    if a < b {
      RangeConcat(a + 1, b, c);
      assert [a] + Range(a + 1, b, 1) + Range(b, c, 1) == [a] + (Range(a + 1, b, 1) + Range(b, c, 1));
    }
  }

  function StageStart(partition: Option<seq<nat>>, stages: nat, n: nat, r: nat): nat
    requires r <= stages && stages > 0 && (partition.Some? ==> |partition.value| == stages)
  {
    if partition.Some? then PartitionStart(partition.value, r) else SplitStart(n, stages, r)
  }

  /** The stage lists, put one after another, are 0, 1, ..., n - 1. */
  lemma StagesCoverInOrder(partition: Option<seq<nat>>, stages: nat, n: nat)
    requires stages > 0 && StageLayers(partition, stages, n, 0).Stage?
    ensures forall r: nat :: r < stages ==> StageLayers(partition, stages, n, r).Stage?
    ensures Concatenated(partition, stages, n, stages) == Range(0, n, 1)
  {
    ConcatenatedUpTo(partition, stages, n, stages);
    if partition.Some? {
      assert partition.value[..stages] == partition.value;
    } else {
      SplitSizes(n, stages, 0);
    }
  }

  lemma {:induction false} ConcatenatedUpTo(partition: Option<seq<nat>>, stages: nat, n: nat, k: nat)
    requires k <= stages && stages > 0 && StageLayers(partition, stages, n, 0).Stage?
    ensures forall r: nat :: r < stages ==> StageLayers(partition, stages, n, r).Stage?
    ensures Concatenated(partition, stages, n, k) == Range(0, StageStart(partition, stages, n, k), 1)
  {
    if k > 0 {
      ConcatenatedUpTo(partition, stages, n, k - 1);
      var a, b := StageStart(partition, stages, n, k - 1), StageStart(partition, stages, n, k);
      assert a <= b by {
        if partition.Some? { SumNext(partition.value, k - 1); } else { SplitSizes(n, stages, k - 1); }
      }
      hide SplitStart, PartitionStart;
      RangeConcat(0, a, b);
    }
  }

  /** Under an explicit partition stage r has as many layers as the partition says. */
  lemma PartitionStageSize(xs: seq<nat>, stages: nat, r: nat)
    requires r < stages == |xs|
    ensures match StageLayers(Some(xs), stages, Sum(xs), r)
            case Stage(layers) => |layers| == xs[r]
            case LayersFailed(_) => false
  {
    hide Range, Sum;
    SumNext(xs, r);
    var a, b := PartitionStart(xs, r), PartitionStart(xs, r + 1);
    RangeAt(a, b, 1, b - a);
  }

  /** The total of a partition is what its parts add up to, one after another. */
  lemma SumAppend(xs: seq<nat>, x: nat)
    ensures Sum([]) == 0 && Sum(xs + [x]) == Sum(xs) + x
  {
    assert (xs + [x])[..|xs|] == xs;
  }

  /** Without a partition the first n % stages stages have one layer more than the others. */
  lemma DefaultStageSize(n: nat, stages: nat, r: nat)
    requires r < stages
    ensures StageLayers(None, stages, n, r).Stage?
    ensures |StageLayers(None, stages, n, r).layers| == n / stages + (if r < n % stages then 1 else 0)
  {
    hide SplitStart, Range;
    SplitSizes(n, stages, r);
    var a, b := SplitStart(n, stages, r), SplitStart(n, stages, r + 1);
    RangeAt(a, b, 1, b - a);
  }

  /** Without a partition, stage sizes differ by at most one. */
  lemma DefaultStagesBalanced(n: nat, stages: nat, r: nat, q: nat)
    requires r < stages && q < stages
    ensures var a, b := StageLayers(None, stages, n, r), StageLayers(None, stages, n, q);
      a.Stage? && b.Stage? && |a.layers| <= |b.layers| + 1
  {
    hide StageLayers;
    DefaultStageSize(n, stages, r);
    DefaultStageSize(n, stages, q);
  }
}
