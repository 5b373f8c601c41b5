/**
 Reordering of fused LoRA output weights, so that an even tensor-parallel split gives every rank its
 piece of each part.  A weight is its sequence of rows along the split dimension.
 */
module LoraInterleave {
  import opened Options
  import opened Arith

  function Sum(sizes: seq<nat>): nat {
    if sizes == [] then 0 else Sum(sizes[..|sizes| - 1]) + sizes[|sizes| - 1]
  }

  function Concat<T>(xss: seq<seq<T>>): seq<T> {
    if xss == [] then [] else Concat(xss[..|xss| - 1]) + xss[|xss| - 1]
  }

  /** `weight.narrow(dim, sum(part_sizes[:i]), part_sizes[i])` for each i. */
  function Parts<T>(weight: seq<T>, sizes: seq<nat>): (parts: seq<seq<T>>)
    requires |weight| == Sum(sizes)
    ensures |parts| == |sizes|
    decreases |sizes|
  {
    if sizes == [] then []
    else
      var k := |sizes| - 1;
      var start := Sum(sizes[..k]);
      Parts(weight[..start], sizes[..k]) + [weight[start..]]
  }

  /** `torch.split`: chunks of the given size; an empty part, with chunk size 0, is one empty chunk. */
  function Split<T>(xs: seq<T>, chunk: nat): seq<seq<T>>
    decreases |xs|
  {
    if chunk == 0 || |xs| <= chunk then [xs] else [xs[..chunk]] + Split(xs[chunk..], chunk)
  }

  function SplitAll<T>(parts: seq<seq<T>>, tp: nat): (lists: seq<seq<seq<T>>>)
    requires tp > 0
    ensures |lists| == |parts|
  {
    seq(|parts|, i requires 0 <= i < |parts| => Split(parts[i], |parts[i]| / tp))
  }

  /** How many tuples `zip` yields: the length of the shortest list. */
  function Shortest<T>(lists: seq<seq<T>>): nat {
    if lists == [] then 0
    else if |lists| == 1 then |lists[0]|
    else
      var k := |lists| - 1;
      if |lists[k]| < Shortest(lists[..k]) then |lists[k]| else Shortest(lists[..k])
  }

  predicate AllLonger<T>(lists: seq<seq<T>>, n: nat) {
    forall i :: 0 <= i < |lists| ==> n <= |lists[i]|
  }

  lemma {:induction false} ShortestIsMin<T>(lists: seq<seq<T>>)
    ensures AllLonger(lists, Shortest(lists))
    ensures lists != [] ==> exists i :: 0 <= i < |lists| && |lists[i]| == Shortest(lists)
  {
    if |lists| > 1 {
      ShortestIsMin(lists[..|lists| - 1]);
    }
  }

  /** The k-th tuple of `zip`. */
  function Column<T>(lists: seq<seq<T>>, k: nat): seq<T>
    requires AllLonger(lists, k + 1)
  {
    seq(|lists|, i requires 0 <= i < |lists| => lists[i][k])
  }

  /** `chain.from_iterable(zip(*lists))`, first n tuples. */
  function Zipped<T>(lists: seq<seq<T>>, n: nat): seq<T>
    requires AllLonger(lists, n)
  {
    if n == 0 then [] else Zipped(lists, n - 1) + Column(lists, n - 1)
  }

  predicate Divisible(sizes: seq<nat>, tp: nat)
    requires tp > 0
  {
    forall i :: 0 <= i < |sizes| ==> sizes[i] % tp == 0
  }

  /** `interleave_fused_lora_weights_for_tp` followed by the concatenation; `None` is a failed assertion. */
  function Interleave<T>(weight: seq<T>, sizes: seq<nat>, tp: nat): Option<seq<T>>
    requires tp > 0
  {
    if |weight| != Sum(sizes) || !Divisible(sizes, tp) then None
    else
      var lists := SplitAll(Parts(weight, sizes), tp);
      ShortestIsMin(lists);
      Some(Concat(Zipped(lists, Shortest(lists))))
  }

  // ----- The intended layout -----

  /** Chunk r of one part. */
  function Chunk<T>(part: seq<T>, tp: nat, r: nat): seq<T>
    requires r < tp && |part| % tp == 0
  {
    ChunkBounds(|part|, tp, r);
    part[r * (|part| / tp)..(r + 1) * (|part| / tp)]
  }

  lemma ChunkBounds(n: nat, tp: nat, r: nat)
    requires r < tp && n % tp == 0
    ensures 0 <= r * (n / tp) <= (r + 1) * (n / tp) <= n
    ensures (r + 1) * (n / tp) - r * (n / tp) == n / tp
  {
    DivModDef(n, tp);
    MulAdd(r, 1, n / tp);
    MulMonotone(r + 1, tp, n / tp);
    assert tp * (n / tp) == n;
  }

  predicate PartsDivisible<T>(parts: seq<seq<T>>, tp: nat)
    requires tp > 0
  {
    forall i :: 0 <= i < |parts| ==> |parts[i]| % tp == 0
  }

  /** What rank r should hold: chunk r of every part, in part order. */
  function RankRows<T>(parts: seq<seq<T>>, tp: nat, r: nat): seq<T>
    requires r < tp && PartsDivisible(parts, tp)
  {
    if parts == [] then []
    else RankRows(parts[..|parts| - 1], tp, r) + Chunk(parts[|parts| - 1], tp, r)
  }

  /** The rows of ranks 0..n one after another. */
  function AllRanks<T>(parts: seq<seq<T>>, tp: nat, n: nat): seq<T>
    requires n <= tp && tp > 0 && PartsDivisible(parts, tp)
  {
    if n == 0 then [] else AllRanks(parts, tp, n - 1) + RankRows(parts, tp, n - 1)
  }

  // ----- Splitting -----

  lemma {:induction false} SplitAt<T>(xs: seq<T>, chunk: nat, n: nat, k: nat)
    requires chunk > 0 && |xs| == n * chunk && k < n
    ensures |Split(xs, chunk)| == n && k * chunk + chunk <= |xs|
    ensures Split(xs, chunk)[k] == xs[k * chunk..k * chunk + chunk]
    decreases n
  {
    MulStep(k, n, chunk);
    if n == 1 {
      assert xs[0..chunk] == xs;
    } else {
      var rest, k' := xs[chunk..], if k > 0 then k - 1 else 0;
      MulAdd(n - 1, 1, chunk);
      MulMonotone(1, n - 1, chunk);
      SplitAt(rest, chunk, n - 1, k');
      MulAdd(k - 1, 1, chunk);
      assert Split(xs, chunk) == [xs[..chunk]] + Split(rest, chunk);
    }
  }

  /** A part that is not empty is split into exactly tp chunks, the k-th being rank k's. */
  lemma SplitPart<T>(part: seq<T>, tp: nat)
    requires tp > 0 && |part| % tp == 0 && |part| > 0
    ensures |Split(part, |part| / tp)| == tp
    ensures forall k: nat :: k < tp ==> Split(part, |part| / tp)[k] == Chunk(part, tp, k)
  {
    hide Split;
    var c := |part| / tp;
    DivModDef(|part|, tp);
    SplitAt(part, c, tp, 0);
    forall k: nat | k < tp ensures Split(part, c)[k] == Chunk(part, tp, k) {
      SplitAt(part, c, tp, k);
      MulAdd(k, 1, c);
    }
  }

  lemma EmptyPart<T>(part: seq<T>, tp: nat, k: nat)
    requires tp > 0 && part == [] && k < tp
    ensures Split(part, |part| / tp) == [part] && |part| % tp == 0 && Chunk(part, tp, k) == []
  {
    assert |part| / tp == 0;
  }

  lemma SplitHead<T>(part: seq<T>, tp: nat, k: nat)
    requires tp > 0 && |part| % tp == 0 && k < |Split(part, |part| / tp)|
    ensures k < tp && Split(part, |part| / tp)[k] == Chunk(part, tp, k)
  {
    if part == [] {
      EmptyPart(part, tp, k);
    } else {
      SplitPart(part, tp);
    }
  }

  /** A tuple of `zip`, concatenated, is one rank's rows. */
  lemma {:induction false} ColumnIsRankRows<T>(parts: seq<seq<T>>, tp: nat, k: nat)
    requires tp > 0 && PartsDivisible(parts, tp) && parts != []
    requires AllLonger(SplitAll(parts, tp), k + 1)
    ensures k < tp && Concat(Column(SplitAll(parts, tp), k)) == RankRows(parts, tp, k)
    decreases |parts|
  {
    var n := |parts| - 1;
    var lists, column := SplitAll(parts, tp), Column(SplitAll(parts, tp), k);
    assert |lists[n]| >= k + 1;
    SplitHead(parts[n], tp, k);
    assert column[n] == Chunk(parts[n], tp, k);
    if n > 0 {
      assert SplitAll(parts[..n], tp) == lists[..n];
      ColumnIsRankRows(parts[..n], tp, k);
      assert column[..n] == Column(SplitAll(parts[..n], tp), k);
    } else {
      assert column[..n] == [] && parts[..n] == [];
    }
  }

  lemma {:induction false} ConcatAppend<T>(xss: seq<seq<T>>, yss: seq<seq<T>>)
    ensures Concat(xss + yss) == Concat(xss) + Concat(yss)
    decreases |yss|
  {
    if yss == [] {
      assert xss + yss == xss;
    } else {
      var n := |yss| - 1;
      assert (xss + yss)[..|xss| + n] == xss + yss[..n];
      ConcatAppend(xss, yss[..n]);
    }
  }

  lemma ConcatNothing<T>()
    ensures Concat<T>([]) == []
  {
  }

  lemma {:induction false} ZippedIsAllRanks<T>(parts: seq<seq<T>>, tp: nat, n: nat)
    requires tp > 0 && PartsDivisible(parts, tp) && parts != []
    requires AllLonger(SplitAll(parts, tp), n)
    ensures n <= tp && Concat(Zipped(SplitAll(parts, tp), n)) == AllRanks(parts, tp, n)
  {
    hide Chunk, Split, SplitAll, RankRows, Column, Concat;
    if n == 0 {
      assert Concat<T>([]) == [] by {
        ConcatNothing<T>();
      }
    } else {
      var lists := SplitAll(parts, tp);
      assert AllLonger(lists, n - 1);
      ZippedIsAllRanks(parts, tp, n - 1);
      ColumnIsRankRows(parts, tp, n - 1);
      ConcatAppend(Zipped(lists, n - 1), Column(lists, n - 1));
    }
  }

  // ----- Sizes -----

  function Lengths<T>(parts: seq<seq<T>>): seq<nat> {
    seq(|parts|, i requires 0 <= i < |parts| => |parts[i]|)
  }

  lemma {:induction false} PartsLengths<T>(weight: seq<T>, sizes: seq<nat>)
    requires |weight| == Sum(sizes)
    ensures Lengths(Parts(weight, sizes)) == sizes && Concat(Parts(weight, sizes)) == weight
    decreases |sizes|
  {
    hide Parts, Lengths, Concat;
    if sizes == [] {
      NoPartsOf(weight);
    } else {
      var k := |sizes| - 1;
      var start := Sum(sizes[..k]);
      PartsLengths(weight[..start], sizes[..k]);
      PartsStep(weight, sizes);
      AppendPart(Parts(weight[..start], sizes[..k]), weight[start..]);
      assert weight[..start] + weight[start..] == weight;
      assert sizes[..k] + [sizes[k]] == sizes;
    }
  }

  lemma NoPartsOf<T>(weight: seq<T>)
    requires weight == []
    ensures Lengths(Parts(weight, [])) == [] && Concat(Parts(weight, [])) == weight
  {
  }

  lemma PartsStep<T>(weight: seq<T>, sizes: seq<nat>)
    requires |weight| == Sum(sizes) && sizes != []
    ensures var k := |sizes| - 1; var start := Sum(sizes[..k]);
            Parts(weight, sizes) == Parts(weight[..start], sizes[..k]) + [weight[start..]]
  {
  }

  lemma AppendPart<T>(parts: seq<seq<T>>, part: seq<T>)
    ensures Lengths(parts + [part]) == Lengths(parts) + [|part|]
    ensures Concat(parts + [part]) == Concat(parts) + part
  {
    assert (parts + [part])[..|parts|] == parts;
  }

  lemma PartsAreDivisible<T>(weight: seq<T>, sizes: seq<nat>, tp: nat)
    requires tp > 0 && |weight| == Sum(sizes) && Divisible(sizes, tp)
    ensures PartsDivisible(Parts(weight, sizes), tp)
  {
    var parts := Parts(weight, sizes);
    PartsLengths(weight, sizes);
    forall i | 0 <= i < |parts| ensures |parts[i]| % tp == 0 {
      assert Lengths(parts)[i] == sizes[i];
    }
  }

  lemma NoRankRows<T>(tp: nat, r: nat)
    requires r < tp
    ensures RankRows<T>([], tp, r) == [] && Concat<T>([]) == []
  {
  }

  lemma ChunkLength<T>(part: seq<T>, tp: nat, r: nat)
    requires r < tp && |part| % tp == 0
    ensures |Chunk(part, tp, r)| * tp == |part|
  {
    ChunkBounds(|part|, tp, r);
    DivModDef(|part|, tp);
  }

  /** Every rank's rows are as many as an even split gives. */
  lemma {:induction false} RankRowsLength<T>(parts: seq<seq<T>>, tp: nat, r: nat)
    requires r < tp && PartsDivisible(parts, tp)
    ensures |RankRows(parts, tp, r)| * tp == |Concat(parts)|
    decreases |parts|
  {
    hide Chunk, RankRows, Concat;
    if parts == [] {
      NoRankRows<T>(tp, r);
    } else {
      var n := |parts| - 1;
      RankRowsLength(parts[..n], tp, r);
      ChunkLength(parts[n], tp, r);
      RankRowsLast(parts, tp, r);
      AppendPart(parts[..n], parts[n]);
      assert parts[..n] + [parts[n]] == parts;
      MulAdd(|RankRows(parts[..n], tp, r)|, |Chunk(parts[n], tp, r)|, tp);
    }
  }

  lemma AllRanksStep<T>(parts: seq<seq<T>>, tp: nat, n: nat)
    requires 0 < n <= tp && PartsDivisible(parts, tp)
    ensures AllRanks(parts, tp, n) == AllRanks(parts, tp, n - 1) + RankRows(parts, tp, n - 1)
  {
  }

  lemma {:induction false} AllRanksLength<T>(parts: seq<seq<T>>, tp: nat, n: nat, width: nat)
    requires n <= tp && tp > 0 && PartsDivisible(parts, tp) && width * tp == |Concat(parts)|
    ensures |AllRanks(parts, tp, n)| == n * width
  {
    hide Chunk, RankRows, Concat;
    if n > 0 {
      AllRanksLength(parts, tp, n - 1, width);
      RankRowsLength(parts, tp, n - 1);
      EqualFactors(|RankRows(parts, tp, n - 1)|, width, tp);
      MulAdd(n - 1, 1, width);
    }
  }

  lemma {:induction false} AllRanksSlice<T>(parts: seq<seq<T>>, tp: nat, n: nat, width: nat, r: nat)
    requires r < n <= tp && PartsDivisible(parts, tp) && width * tp == |Concat(parts)|
    ensures r * width + width <= |AllRanks(parts, tp, n)|
    ensures AllRanks(parts, tp, n)[r * width..r * width + width] == RankRows(parts, tp, r)
    decreases n
  {
    hide Chunk, RankRows, Concat, AllRanks;
    var init, last := AllRanks(parts, tp, n - 1), RankRows(parts, tp, n - 1);
    AllRanksStep(parts, tp, n);
    AllRanksLength(parts, tp, n - 1, width);
    if r < n - 1 {
      AllRanksSlice(parts, tp, n - 1, width, r);
      SliceOfPrefix(init, last, r * width, r * width + width);
    } else {
      RankRowsLength(parts, tp, r);
      EqualFactors(|last|, width, tp);
      SliceOfSuffix(init, last);
    }
  }

  lemma SliceOfPrefix<T>(xs: seq<T>, ys: seq<T>, a: nat, b: nat)
    requires a <= b <= |xs|
    ensures (xs + ys)[a..b] == xs[a..b]
  {
  }

  lemma SliceOfSuffix<T>(xs: seq<T>, ys: seq<T>)
    ensures (xs + ys)[|xs|..|xs| + |ys|] == ys
  {
  }

  lemma EqualFactors(a: nat, b: nat, t: nat)
    requires t > 0 && a * t == b * t
    ensures a == b
  {
    DivModUnique(a * t, t, a, 0);
    DivModUnique(b * t, t, b, 0);
  }

  // ----- Nothing is lost or repeated -----

  lemma RankRowsLast<T>(parts: seq<seq<T>>, tp: nat, r: nat)
    requires r < tp && PartsDivisible(parts, tp) && parts != []
    ensures var k := |parts| - 1;
            RankRows(parts, tp, r) == RankRows(parts[..k], tp, r) + Chunk(parts[k], tp, r)
  {
  }

  lemma RankRowsOfOne<T>(part: seq<T>, tp: nat, r: nat)
    requires r < tp && |part| % tp == 0
    ensures RankRows([part], tp, r) == Chunk(part, tp, r)
  {
    hide Chunk;
    assert [part][..0] == [];
  }

  lemma NoRanks<T>(parts: seq<seq<T>>, tp: nat)
    requires tp > 0 && PartsDivisible(parts, tp)
    ensures AllRanks(parts, tp, 0) == []
  {
  }

  lemma JoinMultisets<T>(xs: seq<T>, ys: seq<T>, zs: seq<T>, a: seq<T>, b: seq<T>)
    requires multiset(xs) == multiset(ys) + multiset(zs)
    ensures multiset(xs + (a + b)) == multiset(ys + a) + multiset(zs + b)
  {
  }

  lemma {:induction false} AllRanksMultiset<T>(parts: seq<seq<T>>, tp: nat, n: nat)
    requires n <= tp && tp > 0 && PartsDivisible(parts, tp) && parts != []
    ensures var k := |parts| - 1;
            multiset(AllRanks(parts, tp, n)) ==
            multiset(AllRanks(parts[..k], tp, n)) + multiset(AllRanks([parts[k]], tp, n))
  {
    hide Chunk, RankRows, AllRanks;
    var k := |parts| - 1;
    if n == 0 {
      NoRanks(parts, tp);
      NoRanks(parts[..k], tp);
      NoRanks([parts[k]], tp);
    } else {
      AllRanksMultiset(parts, tp, n - 1);
      AllRanksStep(parts, tp, n);
      AllRanksStep(parts[..k], tp, n);
      AllRanksStep([parts[k]], tp, n);
      RankRowsLast(parts, tp, n - 1);
      RankRowsOfOne(parts[k], tp, n - 1);
      JoinMultisets(
        AllRanks(parts, tp, n - 1), AllRanks(parts[..k], tp, n - 1), AllRanks([parts[k]], tp, n - 1),
        RankRows(parts[..k], tp, n - 1), Chunk(parts[k], tp, n - 1));
    }
  }

  lemma {:induction false} OnePart<T>(part: seq<T>, tp: nat, n: nat)
    requires n <= tp && tp > 0 && |part| % tp == 0
    ensures n * (|part| / tp) <= |part|
    ensures AllRanks([part], tp, n) == part[..n * (|part| / tp)]
  {
    hide RankRows;
    DivModDef(|part|, tp);
    MulMonotone(n, tp, |part| / tp);
    if n > 0 {
      var c := |part| / tp;
      var lo, hi := (n - 1) * c, n * c;
      OnePart(part, tp, n - 1);
      RankRowsOfOne(part, tp, n - 1);
      ChunkBounds(|part|, tp, n - 1);
      assert Chunk(part, tp, n - 1) == part[lo..hi];
      assert part[..lo] + part[lo..hi] == part[..hi];
    }
  }

  lemma {:induction false} AllRanksPermute<T>(parts: seq<seq<T>>, tp: nat)
    requires tp > 0 && PartsDivisible(parts, tp)
    ensures multiset(AllRanks(parts, tp, tp)) == multiset(Concat(parts))
    decreases |parts|
  {
    hide Chunk, RankRows, AllRanks;
    if parts == [] {
      NoParts<T>(tp, tp);
    } else {
      var k := |parts| - 1;
      AllRanksMultiset(parts, tp, tp);
      AllRanksPermute(parts[..k], tp);
      OnePart(parts[k], tp, tp);
      DivModDef(|parts[k]|, tp);
      assert tp * (|parts[k]| / tp) == |parts[k]|;
      assert parts[k][..|parts[k]|] == parts[k];
    }
  }

  lemma {:induction false} NoParts<T>(tp: nat, n: nat)
    requires n <= tp && tp > 0
    ensures AllRanks<T>([], tp, n) == []
  {
    if n > 0 {
      NoParts<T>(tp, n - 1);
    }
  }

  // ----- The interleaving -----

  /** No part is empty. */
  predicate AllNonempty(sizes: seq<nat>) {
    forall i :: 0 <= i < |sizes| ==> sizes[i] > 0
  }

  /** How many ranks' rows reach the result. */
  function RanksKept(sizes: seq<nat>, tp: nat): nat
    requires tp > 0
  {
    if AllNonempty(sizes) then tp else 1
  }

  lemma SplitCount<T>(parts: seq<seq<T>>, sizes: seq<nat>, tp: nat, i: nat)
    requires tp > 0 && PartsDivisible(parts, tp) && Lengths(parts) == sizes && i < |sizes|
    ensures |SplitAll(parts, tp)[i]| == if sizes[i] > 0 then tp else 1
  {
    assert |parts[i]| == sizes[i];
    if sizes[i] > 0 {
      SplitPart(parts[i], tp);
    }
  }

  lemma InterleaveKeeps<T>(weight: seq<T>, sizes: seq<nat>, tp: nat)
    requires tp > 0 && |weight| == Sum(sizes) && Divisible(sizes, tp) && sizes != []
    ensures PartsDivisible(Parts(weight, sizes), tp)
    ensures Interleave(weight, sizes, tp) == Some(AllRanks(Parts(weight, sizes), tp, RanksKept(sizes, tp)))
  {
    hide Parts, SplitAll, Shortest, Zipped, Concat, Sum;
    var parts := Parts(weight, sizes);
    PartsAreDivisible(weight, sizes, tp);
    PartsLengths(weight, sizes);
    var lists := SplitAll(parts, tp);
    ShortestIsMin(lists);
    forall i | 0 <= i < |sizes| ensures |lists[i]| == if sizes[i] > 0 then tp else 1 {
      SplitCount(parts, sizes, tp, i);
    }
    assert Shortest(lists) == RanksKept(sizes, tp);
    ZippedIsAllRanks(parts, tp, Shortest(lists));
  }

  /** The tp equal slices of the result are the ranks' rows, and no row is lost or repeated. */
  lemma InterleaveGivesEveryRankItsRows<T>(weight: seq<T>, sizes: seq<nat>, tp: nat)
    requires tp > 0 && |weight| == Sum(sizes) && Divisible(sizes, tp) && sizes != [] && AllNonempty(sizes)
    ensures |weight| % tp == 0 && PartsDivisible(Parts(weight, sizes), tp)
    ensures match Interleave(weight, sizes, tp)
            case None => false
            case Some(rows) =>
              |rows| == |weight| && multiset(rows) == multiset(weight) &&
              forall r: nat :: r < tp ==> Chunk(rows, tp, r) == RankRows(Parts(weight, sizes), tp, r)
  {
    hide Interleave, Parts, Sum, Concat, RankRows, AllRanks;
    var parts := Parts(weight, sizes);
    InterleaveKeeps(weight, sizes, tp);
    PartsLengths(weight, sizes);
    AllRanksPermute(parts, tp);
    RankRowsLength(parts, tp, 0);
    var width := |RankRows(parts, tp, 0)|;
    AllRanksLength(parts, tp, tp, width);
    DivModUnique(|weight|, tp, width, 0);
    var rows := AllRanks(parts, tp, tp);
    forall r: nat | r < tp ensures Chunk(rows, tp, r) == RankRows(parts, tp, r) {
      AllRanksSlice(parts, tp, tp, width, r);
      MulAdd(r, 1, width);
    }
  }

  lemma SameCount<T>(xs: seq<T>, ys: seq<T>)
    requires multiset(xs) == multiset(ys)
    ensures |xs| == |ys|
  {
    assert |multiset(xs)| == |xs| && |multiset(ys)| == |ys|;
  }

  /** Exactly when the result holds the same rows as the weight: unless a part is empty beside one that is not. */
  lemma InterleavePermutesIff<T>(weight: seq<T>, sizes: seq<nat>, tp: nat)
    requires tp > 0 && |weight| == Sum(sizes) && Divisible(sizes, tp) && sizes != []
    ensures match Interleave(weight, sizes, tp)
            case None => false
            case Some(rows) =>
              multiset(rows) == multiset(weight) <==> tp == 1 || AllNonempty(sizes) || Sum(sizes) == 0
  {
    hide Interleave, Parts, Sum, Concat, RankRows, AllRanks;
    var parts, kept := Parts(weight, sizes), RanksKept(sizes, tp);
    InterleaveKeeps(weight, sizes, tp);
    PartsLengths(weight, sizes);
    var rows := AllRanks(parts, tp, kept);
    if kept == tp {
      AllRanksPermute(parts, tp);
    } else {
      RankRowsLength(parts, tp, 0);
      var width := |RankRows(parts, tp, 0)|;
      AllRanksLength(parts, tp, kept, width);
      MulMonotone(2, tp, width);
      if multiset(rows) == multiset(weight) {
        SameCount(rows, weight);
      } else {
        assert weight != [] || rows != [];
      }
    }
  }

  /** Two rows beside an empty part, split for two ranks: the second row is lost. */
  lemma EmptyPartLosesRows()
    ensures Interleave(["q0", "q1"], [2, 0], 2) == Some(["q0"])
  {
    hide Interleave, Chunk, RankRows, Parts, Sum;
    var weight, sizes := ["q0", "q1"], [2, 0];
    TwoAndNothing(weight);
    InterleaveKeeps(weight, sizes, 2);
    RankRowsOfTwo(weight, [], 2, 0);
    FirstOfTwo("q0", "q1");
    assert !AllNonempty(sizes) by {
      assert sizes[1] == 0;
    }
    NoRanks([weight, []], 2);
    AllRanksStep([weight, []], 2, 1);
    assert ["q0"] + [] == ["q0"] && [] + ["q0"] == ["q0"];
  }

  lemma TwoAndNothing<T>(weight: seq<T>)
    requires |weight| == 2
    ensures Sum([2, 0]) == 2 && Parts(weight, [2, 0]) == [weight, []]
  {
    assert [2, 0][..1] == [2] && [2][..0] == [];
    assert weight[..2] == weight && weight[2..] == [];
    assert Parts(weight, [2]) == [weight];
  }

  lemma FirstOfTwo<T>(a: T, b: T)
    ensures Chunk([a, b], 2, 0) == [a] && Chunk<T>([], 2, 0) == []
  {
  }

  // ----- Fused modules -----

  datatype LoraModule = MlpGateUp | AttnQkv | Unfused

  /** The rows of a number of heads per rank, over all ranks. */
  function HeadRows(headSize: nat, heads: nat, tp: nat): (rows: nat)
    requires tp > 0
    ensures rows % tp == 0
  {
    DivModUnique(headSize * heads * tp, tp, headSize * heads, 0);
    headSize * heads * tp
  }

  /** `prepare_fused_lora_modules_for_tp`; the head counts are per rank. */
  function Prepare<T>(m: LoraModule, weight: seq<T>, tp: nat, headSize: nat, heads: nat, kvHeads: nat): Option<seq<T>>
    requires tp > 0
  {
    if tp == 1 then Some(weight)
    else match m
      case MlpGateUp =>
        if |weight| % 2 != 0 then None else Interleave(weight, [|weight| / 2, |weight| / 2], tp)
      case AttnQkv =>
        var q, kv := HeadRows(headSize, heads, tp), HeadRows(headSize, kvHeads, tp);
        Interleave(weight, [q, kv, kv], tp)
      case Unfused => Some(weight)
  }

  /** `preprocess_lora_weights` on one gate_up weight. */
  function SwapHalves<T>(weight: seq<T>): seq<T> {
    weight[|weight| / 2..] + weight[..|weight| / 2]
  }

  lemma TwoParts<T>(weight: seq<T>, h: nat)
    requires |weight| == 2 * h
    ensures Sum([h, h]) == |weight| && Parts(weight, [h, h]) == [weight[..h], weight[h..]]
  {
    assert [h, h][..1] == [h] && [h][..0] == [];
    assert Parts(weight[..h], [h]) == [weight[..h]];
  }

  lemma ThreeParts<T>(weight: seq<T>, q: nat, kv: nat)
    requires |weight| == q + kv + kv
    ensures Sum([q, kv, kv]) == |weight|
    ensures Parts(weight, [q, kv, kv]) == [weight[..q], weight[q..q + kv], weight[q + kv..]]
  {
    assert [q, kv, kv][..2] == [q, kv] && [q, kv][..1] == [q] && [q][..0] == [];
    assert weight[..q + kv][..q] == weight[..q];
    assert Parts(weight[..q], [q]) == [weight[..q]];
    assert Parts(weight[..q + kv], [q, kv]) == [weight[..q], weight[q..q + kv]];
  }

  lemma RankRowsOfTwo<T>(a: seq<T>, b: seq<T>, tp: nat, r: nat)
    requires r < tp && |a| % tp == 0 && |b| % tp == 0
    ensures PartsDivisible([a, b], tp) && RankRows([a, b], tp, r) == Chunk(a, tp, r) + Chunk(b, tp, r)
  {
    hide Chunk;
    assert [a, b][..1] == [a];
    RankRowsOfOne(a, tp, r);
  }

  lemma RankRowsOfThree<T>(a: seq<T>, b: seq<T>, c: seq<T>, tp: nat, r: nat)
    requires r < tp && |a| % tp == 0 && |b| % tp == 0 && |c| % tp == 0
    ensures PartsDivisible([a, b, c], tp)
    ensures RankRows([a, b, c], tp, r) == Chunk(a, tp, r) + Chunk(b, tp, r) + Chunk(c, tp, r)
  {
    hide Chunk;
    assert [a, b, c][..2] == [a, b];
    RankRowsOfTwo(a, b, tp, r);
  }

  /**
   gate_up weights, swapped on loading and then prepared: each rank's slice is its chunk of the
   second half followed by its chunk of the first.
   */
  lemma GateUpSlices<T>(weight: seq<T>, tp: nat, headSize: nat, heads: nat, kvHeads: nat)
    requires tp > 0 && |weight| % 2 == 0 && (|weight| / 2) % tp == 0
    ensures |weight| % tp == 0
    ensures match Prepare(MlpGateUp, SwapHalves(weight), tp, headSize, heads, kvHeads)
            case None => false
            case Some(rows) =>
              |rows| == |weight| && multiset(rows) == multiset(weight) &&
              forall r: nat :: r < tp ==>
                Chunk(rows, tp, r) == Chunk(weight[|weight| / 2..], tp, r) + Chunk(weight[..|weight| / 2], tp, r)
  {
    hide Interleave, Chunk, RankRows, Sum, Parts;
    var h := |weight| / 2;
    var first, second, swapped := weight[..h], weight[h..], SwapHalves(weight);
    SwapKeeps(weight);
    HalfDivides(|weight|, tp);
    TwoParts(swapped, h);
    if tp == 1 {
      WholeChunk(swapped);
      WholeChunk(second);
      WholeChunk(first);
    } else if h == 0 {
      InterleavePermutesIff(swapped, [h, h], tp);
      var rows := Interleave(swapped, [h, h], tp).value;
      SameCount(rows, swapped);
      forall r: nat | r < tp ensures Chunk(rows, tp, r) == Chunk(second, tp, r) + Chunk(first, tp, r) {
        EmptyPart(rows, tp, r);
      }
    } else {
      InterleaveGivesEveryRankItsRows(swapped, [h, h], tp);
      forall r: nat | r < tp
        ensures RankRows([second, first], tp, r) == Chunk(second, tp, r) + Chunk(first, tp, r)
      {
        RankRowsOfTwo(second, first, tp, r);
      }
    }
  }

  lemma SwapKeeps<T>(weight: seq<T>)
    requires |weight| % 2 == 0
    ensures var h, swapped := |weight| / 2, SwapHalves(weight);
            |swapped| == |weight| && multiset(swapped) == multiset(weight) &&
            swapped[..h] == weight[h..] && swapped[h..] == weight[..h]
  {
    var h := |weight| / 2;
    assert weight[..h] + weight[h..] == weight;
  }

  lemma HalfDivides(n: nat, tp: nat)
    requires tp > 0 && n % 2 == 0 && (n / 2) % tp == 0
    ensures n % tp == 0
  {
    var h := n / 2;
    DivModDef(h, tp);
    MulAdd(h / tp, h / tp, tp);
    DivModUnique(n, tp, h / tp + h / tp, 0);
  }

  lemma WholeChunk<T>(part: seq<T>)
    ensures Chunk(part, 1, 0) == part
  {
  }

  ghost predicate QkvLayout<T>(rows: seq<T>, weight: seq<T>, tp: nat, q: nat, kv: nat)
    requires tp > 0 && q % tp == 0 && kv % tp == 0 && |weight| == q + kv + kv
  {
    |rows| == |weight| && |rows| % tp == 0 &&
    forall r: nat :: r < tp ==>
      Chunk(rows, tp, r) ==
      Chunk(weight[..q], tp, r) + Chunk(weight[q..q + kv], tp, r) + Chunk(weight[q + kv..], tp, r)
  }

  lemma QkvLayoutHolds<T>(weight: seq<T>, tp: nat, q: nat, kv: nat)
    requires tp > 0 && q % tp == 0 && kv % tp == 0 && |weight| == q + kv + kv && q > 0 && kv > 0
    ensures Sum([q, kv, kv]) == |weight| && Interleave(weight, [q, kv, kv], tp).Some?
    ensures QkvLayout(Interleave(weight, [q, kv, kv], tp).value, weight, tp, q, kv)
  {
    var sizes := [q, kv, kv];
    ThreeParts(weight, q, kv);
    InterleaveGivesEveryRankItsRows(weight, sizes, tp);
    var rows := Interleave(weight, sizes, tp).value;
    forall r: nat | r < tp
      ensures Chunk(rows, tp, r) ==
              Chunk(weight[..q], tp, r) + Chunk(weight[q..q + kv], tp, r) + Chunk(weight[q + kv..], tp, r)
    {
      RankRowsOfThree(weight[..q], weight[q..q + kv], weight[q + kv..], tp, r);
    }
  }

  lemma HeadRowsIs(headSize: nat, heads: nat, tp: nat)
    requires tp > 0
    ensures HeadRows(headSize, heads, tp) == headSize * heads * tp
    ensures HeadRows(headSize, heads, tp) / tp == headSize * heads
  {
    DivModUnique(headSize * heads * tp, tp, headSize * heads, 0);
  }

  lemma QkvRows(headSize: nat, heads: nat, kvHeads: nat, tp: nat)
    ensures headSize * (heads + 2 * kvHeads) * tp ==
            headSize * heads * tp + headSize * kvHeads * tp + headSize * kvHeads * tp
  {
    var a, b := headSize * heads, headSize * kvHeads;
    assert headSize * (heads + 2 * kvHeads) == a + (b + b) by {
      MulAdd(heads, 2 * kvHeads, headSize);
      MulAdd(kvHeads, kvHeads, headSize);
    }
    MulAdd(a, b + b, tp);
    MulAdd(b, b, tp);
  }

  /** When the preparation succeeds, for every kind of module. */
  lemma PrepareSucceedsIff<T>(m: LoraModule, weight: seq<T>, tp: nat, headSize: nat, heads: nat, kvHeads: nat)
    requires tp > 0
    ensures Prepare(m, weight, tp, headSize, heads, kvHeads).Some? <==>
            tp == 1 ||
            match m
            case MlpGateUp => |weight| % 2 == 0 && (|weight| / 2) % tp == 0
            case AttnQkv => |weight| == headSize * (heads + 2 * kvHeads) * tp
            case Unfused => true
  {
    hide HeadRows, Parts, SplitAll, Zipped;
    if tp > 1 {
      match m
      case Unfused =>
      case MlpGateUp =>
        if |weight| % 2 == 0 {
          var h := |weight| / 2;
          TwoParts(weight, h);
          assert [h, h][0] == h && [h, h][1] == h;
        }
      case AttnQkv =>
        HeadRowsIs(headSize, heads, tp);
        HeadRowsIs(headSize, kvHeads, tp);
        QkvRows(headSize, heads, kvHeads, tp);
        SumOfThree(HeadRows(headSize, heads, tp), HeadRows(headSize, kvHeads, tp));
    }
  }

  lemma SumOfThree(q: nat, kv: nat)
    ensures Sum([q, kv, kv]) == q + kv + kv
  {
    assert [q, kv, kv][..2] == [q, kv] && [q, kv][..1] == [q] && [q][..0] == [];
    assert Sum([q]) == q && Sum([q, kv]) == q + kv;
  }

  /** `ys` is the stretch of `xs` that starts at `start`. */
  predicate StretchIs<T(==)>(xs: seq<T>, start: int, ys: seq<T>) {
    0 <= start && start + |ys| <= |xs| && xs[start..start + |ys|] == ys
  }

  /**
   Rank r's slice of the prepared rows: with a query rows and b key rows per rank, its a queries, then
   its b keys, then its b values, found in the weight at those places.
   */
  predicate QkvSliceAt<T(==)>(rows: seq<T>, weight: seq<T>, tp: nat, a: nat, b: nat, r: nat) {
    var s, q, k, v := r * (a + b + b), r * a, a * tp + r * b, a * tp + b * tp + r * b;
    && 0 <= s <= s + (a + b + b) <= |rows| && 0 <= q <= q + a <= |weight|
    && 0 <= k <= k + b <= |weight| && 0 <= v <= v + b <= |weight|
    && rows[s..s + (a + b + b)] == weight[q..q + a] + weight[k..k + b] + weight[v..v + b]
  }

  lemma ChunkStretch<T>(part: seq<T>, tp: nat, a: nat, r: nat)
    requires r < tp && |part| == a * tp
    ensures |part| % tp == 0 && |Chunk(part, tp, r)| == a && StretchIs(part, r * a, Chunk(part, tp, r))
  {
    DivModUnique(a * tp, tp, a, 0);
    ChunkBounds(|part|, tp, r);
    MulAdd(r, 1, a);
  }

  lemma StretchInside<T>(whole: seq<T>, at: nat, part: seq<T>, start: int, ys: seq<T>)
    requires StretchIs(whole, at, part) && StretchIs(part, start, ys)
    ensures StretchIs(whole, at + start, ys)
  {
    forall k | 0 <= k < |ys| ensures whole[at + start + k] == ys[k] {
      assert ys[k] == part[start..start + |ys|][k];
      assert part[start + k] == whole[at..at + |part|][start + k];
    }
  }

  lemma PartStretch<T>(weight: seq<T>, at: nat, part: seq<T>, tp: nat, a: nat, r: nat)
    requires r < tp && |part| == a * tp && StretchIs(weight, at, part)
    ensures |part| % tp == 0 && |Chunk(part, tp, r)| == a && StretchIs(weight, at + r * a, Chunk(part, tp, r))
  {
    hide Chunk, StretchIs;
    ChunkStretch(part, tp, a, r);
    StretchInside(weight, at, part, r * a, Chunk(part, tp, r));
  }

  lemma SliceRows(a: nat, b: nat, tp: nat)
    ensures (a + b + b) * tp == a * tp + b * tp + b * tp
  {
    MulAdd(a, b, tp);
    MulAdd(a + b, b, tp);
  }

  lemma QkvSliceHolds<T>(rows: seq<T>, weight: seq<T>, tp: nat, a: nat, b: nat, q: nat, kv: nat, r: nat)
    requires r < tp && q == a * tp && kv == b * tp && q % tp == 0 && kv % tp == 0 && |weight| == q + kv + kv
    requires QkvLayout(rows, weight, tp, q, kv)
    ensures QkvSliceAt(rows, weight, tp, a, b, r)
  {
    hide Chunk, QkvLayout, StretchIs, QkvSliceAt;
    ThreeStretches(weight, q, kv);
    PartStretch(weight, 0, weight[..q], tp, a, r);
    PartStretch(weight, q, weight[q..q + kv], tp, b, r);
    PartStretch(weight, q + kv, weight[q + kv..], tp, b, r);
    QkvLayoutAt(rows, weight, tp, q, kv, r);
    SliceRows(a, b, tp);
    ChunkStretch(rows, tp, a + b + b, r);
    JoinStretches(rows, weight, tp, a, b, r,
                  Chunk(weight[..q], tp, r), Chunk(weight[q..q + kv], tp, r), Chunk(weight[q + kv..], tp, r));
  }

  lemma ThreeStretches<T>(weight: seq<T>, q: nat, kv: nat)
    requires |weight| == q + kv + kv
    ensures StretchIs(weight, 0, weight[..q]) && StretchIs(weight, q, weight[q..q + kv])
    ensures StretchIs(weight, q + kv, weight[q + kv..])
  {
  }

  lemma QkvLayoutAt<T>(rows: seq<T>, weight: seq<T>, tp: nat, q: nat, kv: nat, r: nat)
    requires r < tp && q % tp == 0 && kv % tp == 0 && |weight| == q + kv + kv && QkvLayout(rows, weight, tp, q, kv)
    ensures |rows| == |weight| && |rows| % tp == 0
    ensures Chunk(rows, tp, r) ==
            Chunk(weight[..q], tp, r) + Chunk(weight[q..q + kv], tp, r) + Chunk(weight[q + kv..], tp, r)
  {
    hide Chunk;
  }

  lemma JoinStretches<T>(rows: seq<T>, weight: seq<T>, tp: nat, a: nat, b: nat, r: nat,
                         qs: seq<T>, ks: seq<T>, vs: seq<T>)
    requires |qs| == a && |ks| == b && |vs| == b && StretchIs(rows, r * (a + b + b), qs + ks + vs)
    requires StretchIs(weight, r * a, qs) && StretchIs(weight, a * tp + r * b, ks)
    requires StretchIs(weight, a * tp + b * tp + r * b, vs)
    ensures QkvSliceAt(rows, weight, tp, a, b, r)
  {
  }

  /**
   attn_qkv weights: one rank keeps them as they are.  On several ranks, with headSize * heads query rows
   and headSize * kvHeads key rows per rank, no row is lost or repeated exactly when queries and keys are
   both present or both absent; when both are present each rank's slice is its queries, then its keys,
   then its values.
   */
  lemma QkvSlices<T>(weight: seq<T>, tp: nat, headSize: nat, heads: nat, kvHeads: nat)
    requires tp > 0 && (tp == 1 || |weight| == headSize * (heads + 2 * kvHeads) * tp)
    ensures match Prepare(AttnQkv, weight, tp, headSize, heads, kvHeads)
            case None => false
            case Some(rows) =>
              (tp == 1 ==> rows == weight) &&
              (multiset(rows) == multiset(weight) <==> tp == 1 || (headSize * heads == 0 <==> headSize * kvHeads == 0)) &&
              (tp > 1 && headSize * heads > 0 && headSize * kvHeads > 0 ==>
                 |rows| == |weight| &&
                 forall r: nat :: r < tp ==> QkvSliceAt(rows, weight, tp, headSize * heads, headSize * kvHeads, r))
  {
    hide Interleave, HeadRows, QkvLayout, QkvSliceAt;
    if tp > 1 {
      HeadRowsIs(headSize, heads, tp);
      HeadRowsIs(headSize, kvHeads, tp);
      QkvRows(headSize, heads, kvHeads, tp);
      QkvParts(weight, tp, headSize * heads, headSize * kvHeads);
    }
  }

  /** Other modules, and every module on one rank, keep their rows as they are. */
  lemma OthersKept<T>(m: LoraModule, weight: seq<T>, tp: nat, headSize: nat, heads: nat, kvHeads: nat)
    requires tp > 0 && (tp == 1 || m == Unfused)
    ensures Prepare(m, weight, tp, headSize, heads, kvHeads) == Some(weight)
  {
  }

  lemma QkvParts<T>(weight: seq<T>, tp: nat, a: nat, b: nat)
    requires tp > 1 && |weight| == a * tp + b * tp + b * tp
    ensures match Interleave(weight, [a * tp, b * tp, b * tp], tp)
            case None => false
            case Some(rows) =>
              (multiset(rows) == multiset(weight) <==> (a == 0 <==> b == 0)) &&
              (a > 0 && b > 0 ==> |rows| == |weight| && forall r: nat :: r < tp ==> QkvSliceAt(rows, weight, tp, a, b, r))
  {
    hide Interleave, QkvLayout, QkvSliceAt;
    var q, kv := a * tp, b * tp;
    DivModUnique(q, tp, a, 0);
    DivModUnique(kv, tp, b, 0);
    assert q > 0 <==> a > 0;
    assert kv > 0 <==> b > 0;
    ThreeParts(weight, q, kv);
    InterleavePermutesIff(weight, [q, kv, kv], tp);
    if q > 0 && kv > 0 {
      QkvLayoutHolds(weight, tp, q, kv);
      assert AllNonempty([q, kv, kv]);
      var rows := Interleave(weight, [q, kv, kv], tp).value;
      QkvCount(rows, weight, tp, q, kv);
      forall r: nat | r < tp ensures QkvSliceAt(rows, weight, tp, a, b, r) {
        QkvSliceHolds(rows, weight, tp, a, b, q, kv, r);
      }
    } else {
      assert [q, kv, kv][0] == q && [q, kv, kv][1] == kv;
    }
  }

  lemma QkvCount<T>(rows: seq<T>, weight: seq<T>, tp: nat, q: nat, kv: nat)
    requires tp > 0 && q % tp == 0 && kv % tp == 0 && |weight| == q + kv + kv && QkvLayout(rows, weight, tp, q, kv)
    ensures |rows| == |weight|
  {
  }
}
