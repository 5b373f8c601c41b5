/** What the invariant of the system means for the users of the memory. */
module MnnvlGuarantees {
  import opened Options
  import opened MnnvlDriver
  import opened MnnvlMemory
  import opened MnnvlRank
  import opened MnnvlSystem
  import Arith

  /** The states of all allowed runs. */
  ghost predicate Reachable(c: Config, s: System)
    requires ConfigOk(c)
  {
    exists steps :: AllowedRun(c, Initial(c), steps) && Run(c, Initial(c), steps) == Some(s)
  }

  lemma ReachableInv(c: Config, s: System)
    requires ConfigOk(c) && Reachable(c, s)
    ensures SysInv(c, s)
  {
    hide SysInv, AllowedRun, Run;
    var steps :| AllowedRun(c, Initial(c), steps) && Run(c, Initial(c), steps) == Some(s);
    RunSafe(c, steps);
  }

  lemma ReachableRank(c: Config, s: System, i: nat)
    requires ConfigOk(c) && Reachable(c, s) && i < |s.ranks|
    ensures |s.ranks| == c.n && RankInv(c.n, s.ranks[i]) && RankFromOpens(c, s.sizes, s.ranks[i])
  {
    hide Reachable, RankInv, RankFromOpens;
    ReachableInv(c, s);
  }

  /** On every rank, the ranges mapped for live allocations are pairwise disjoint. */
  lemma LiveRangesDisjoint(c: Config, s: System, i: nat, p: nat, j: nat, q: nat, k: nat)
    requires ConfigOk(c) && Reachable(c, s) && i < |s.ranks|
    requires p in s.ranks[i].live && q in s.ranks[i].live && j < c.n && k < c.n && (p != q || j != k)
    ensures var r := s.ranks[i];
      Apart(AllocSeg(r.live[p], j), r.live[p].size, AllocSeg(r.live[q], k), r.live[q].size)
  {
    hide Reachable, RankFromOpens, AllocSeg, Mid;
    ReachableRank(c, s, i);
    MappedApart(c.n, s.ranks[i], p, j, q, k);
  }

  /** Each such range is not empty and lies in a region that is still reserved. */
  lemma LiveRangeReserved(c: Config, s: System, i: nat, p: nat, j: nat)
    requires ConfigOk(c) && Reachable(c, s) && i < |s.ranks| && p in s.ranks[i].live && j < c.n
    ensures var r := s.ranks[i]; var a := r.live[p];
      && a.size > 0 && a.start in r.driver.reserved
      && Within(AllocSeg(a, j), a.size, a.start, r.driver.reserved[a.start])
  {
    hide Reachable, RankFromOpens, AllocSeg, Mid;
    ReachableRank(c, s, i);
    LiveAllocOk(c.n, s.ranks[i], p);
    AllocSegWithin(s.ranks[i].driver, c.n, p, s.ranks[i].live[p], j);
  }

  /** The collective open that made a live allocation. */
  function OpenOf(a: Alloc): nat
    requires |a.handles| > 0
  {
    a.handles[0].open
  }

  /** Segment j is backed, on every rank, by the memory that rank j created in the same open. */
  lemma SegmentBacking(c: Config, s: System, i: nat, p: nat, j: nat)
    requires ConfigOk(c) && Reachable(c, s) && i < |s.ranks| && p in s.ranks[i].live && j < c.n
    ensures var r := s.ranks[i]; var a := r.live[p];
      && |a.handles| == c.n && OpenOf(a) < |s.sizes|
      && a.size == AlignUp(s.sizes[OpenOf(a)], c.granularity)
      && AllocSeg(a, j) in r.driver.mapped
      && r.driver.mapped[AllocSeg(a, j)] == Mapped(a.size, Mem(OpenOf(a), j))
  {
    hide Reachable, AllocSeg, AlignUp;
    ReachableRank(c, s, i);
    var r := s.ranks[i];
    assert FromOneOpen(c, s.sizes, r.live[p]);
    hide RankFromOpens;
    LiveMapped(c.n, r, p, j);
  }

  lemma LiveMapped(n: nat, r: Rank, p: nat, j: nat)
    requires RankInv(n, r) && p in r.live && j < n && |r.live[p].handles| == n
    ensures AllocSeg(r.live[p], j) in r.driver.mapped
    ensures r.driver.mapped[AllocSeg(r.live[p], j)] == Mapped(r.live[p].size, r.live[p].handles[j])
  {
    hide CountsOk, AllocsOk, AllocsApart, RegionsOk, CurrentOk, AllocSeg, Owned;
  }

  /** Two live allocations of one rank come from different opens, so they never share memory. */
  lemma OpensDiffer(c: Config, s: System, i: nat, p: nat, q: nat)
    requires ConfigOk(c) && Reachable(c, s) && i < |s.ranks|
    requires p in s.ranks[i].live && q in s.ranks[i].live && p != q
    ensures var r := s.ranks[i];
      |r.live[p].handles| > 0 && |r.live[q].handles| > 0 && OpenOf(r.live[p]) != OpenOf(r.live[q])
  {
    hide Reachable, RankInv, AlignUp, Exchanged;
    ReachableRank(c, s, i);
    assert FromOneOpen(c, s.sizes, s.ranks[i].live[p]) && FromOneOpen(c, s.sizes, s.ranks[i].live[q]);
  }

  /**
   At rest each region's count is its number of live allocations, the counted regions are exactly
   the reserved ones, and the current region is unset or has a live allocation.
   */
  lemma CountsAtRest(c: Config, s: System, i: nat)
    requires ConfigOk(c) && Reachable(c, s) && i < |s.ranks|
    ensures var r := s.ranks[i];
      && r.refcnt.Keys == r.driver.reserved.Keys
      && (forall a :: a in r.refcnt ==> r.refcnt[a] == |LiveIn(r.live, a)| > 0)
      && (r.start != 0 ==> exists p :: p in r.live && r.live[p].start == r.start)
      && (r.start == 0 ==> r.stride == 0 && r.offset == 0)
      && (r.live == map[] ==> r.driver == Driver(map[], map[]) && r.refcnt == map[])
  {
    hide Reachable, RankFromOpens;
    ReachableRank(c, s, i);
    hide AllocsOk, AllocsApart, RegionsOk, AllocSeg;
    var r := s.ranks[i];
    if r.start != 0 {
      assert r.start in r.refcnt;
      var p :| p in LiveIn(r.live, r.start);
    }
    if r.live == map[] {
      NothingLeft(c.n, r);
    }
  }

  lemma NothingLeft(n: nat, r: Rank)
    requires RankInv(n, r) && r.live == map[]
    ensures r.driver == Driver(map[], map[]) && r.refcnt == map[]
  {
    hide AllocsOk, AllocsApart, RegionsOk, AllocSeg, CurrentOk;
    forall a: nat ensures a !in r.refcnt {
      assert LiveIn(r.live, a) == {};
    }
    forall m: nat ensures m !in r.driver.mapped {
      assert !Owned(r.live, n, m);
    }
    assert r.driver.reserved.Keys == {};
    assert r.driver.reserved == map[] && r.driver.mapped == map[] && r.refcnt == map[];
  }

  /**
   All ranks have made the same collective calls in the same order, which are those of their opens: none
   sits in a branch of its own.
   */
  lemma SameCollectives(c: Config, s: System, i: nat, j: nat)
    requires ConfigOk(c) && Reachable(c, s) && i < c.n && j < c.n
    ensures |s.ranks| == c.n && s.ranks[i].log == s.ranks[j].log == Calls(c.fabric[i], |s.sizes|)
    ensures s.sizes != [] ==> c.fabric[i] == c.fabric[j]
  {
    hide Reachable, RankFromOpens, RankInv, Calls;
    ReachableInv(c, s);
    assert CallsOk(c, |s.sizes|, s.ranks[i], i) && CallsOk(c, |s.sizes|, s.ranks[j], j);
    CallsAgreeIff(c.fabric[i], c.fabric[j], |s.sizes|);
  }

  // ----- The strided tensor over an allocation -----

  /** Shape and strides that `create_dlpack_capsule` writes, in elements of `width` bytes. */
  datatype View = View(ptr: nat, rows: nat, cols: nat, rowStride: nat, width: nat)

  function Pack(ptr: nat, size: nat, stride: nat, segments: nat, width: nat): View
    requires width > 0
  {
    View(ptr, segments, size / width, stride / width, width)
  }

  function ElementAt(v: View, row: nat, col: nat): nat {
    v.ptr + (row * v.rowStride + col) * v.width
  }

  predicate ElementWidth(w: nat) {
    w == 1 || w == 2 || w == 4 || w == 8
  }

  lemma PageMultiple(stride: nat, w: nat)
    requires stride % PAGE == 0 && ElementWidth(w)
    ensures stride / w * w == stride
  {
    var k := stride / PAGE;
    assert stride == k * PAGE;
  }

  lemma ElementOffset(ptr: nat, size: nat, stride: nat, n: nat, w: nat, row: nat, col: nat)
    requires stride % PAGE == 0 && ElementWidth(w) && col < size / w
    ensures ElementAt(Pack(ptr, size, stride, n, w), row, col) == Seg(ptr, stride, row) + col * w
    ensures col * w + w <= size
  {
    PageMultiple(stride, w);
    Offset(stride / w, w, row, col);
    Arith.MulStep(col, size / w, w);
    Arith.DivModDef(size, w);
  }

  lemma Offset(e: nat, w: nat, row: nat, col: nat)
    ensures (row * e + col) * w == row * (e * w) + col * w
  {
    Arith.MulAdd(row * e, col, w);
    Arith.MulAssoc(row, e, w);
  }

  /** The allocation is live on the rank, and the open that made it is known. */
  predicate HasView(c: Config, s: System, i: nat, p: nat) {
    i < |s.ranks| && p in s.ranks[i].live && |s.ranks[i].live[p].handles| > 0 &&
    OpenOf(s.ranks[i].live[p]) < |s.sizes|
  }

  /** The tensor that `as_torch_strided_tensor` makes of a live allocation. */
  function ViewOf(c: Config, s: System, i: nat, p: nat, w: nat): View
    requires HasView(c, s, i, p) && w > 0
  {
    var a := s.ranks[i].live[p];
    Pack(p, s.sizes[OpenOf(a)], a.stride, c.n, w)
  }

  lemma LiveHasView(c: Config, s: System, i: nat, p: nat)
    requires ConfigOk(c) && Reachable(c, s) && i < |s.ranks| && p in s.ranks[i].live
    ensures HasView(c, s, i, p)
  {
    hide Reachable;
    SegmentBacking(c, s, i, p, 0);
  }

  /** Every element of the tensor over a live allocation lies inside its row's mapped range. */
  lemma ElementInside(c: Config, s: System, i: nat, p: nat, w: nat, row: nat, col: nat)
    requires ConfigOk(c) && Reachable(c, s) && HasView(c, s, i, p) && ElementWidth(w)
    requires row < ViewOf(c, s, i, p, w).rows && col < ViewOf(c, s, i, p, w).cols
    ensures var a, e := s.ranks[i].live[p], ElementAt(ViewOf(c, s, i, p, w), row, col);
      && e == a.start + row * a.stride + a.offset + col * w
      && a.start + row * a.stride + a.offset in s.ranks[i].driver.mapped
      && Within(e, w, a.start + row * a.stride + a.offset, a.size)
  {
    hide Reachable, RankFromOpens, Mid;
    var a := s.ranks[i].live[p];
    var size := s.sizes[OpenOf(a)];
    ReachableRank(c, s, i);
    SegmentBacking(c, s, i, p, row);
    LiveAllocOk(c.n, s.ranks[i], p);
    AlignUpCovers(size, c.granularity);
    hide AlignUp, ElementAt;
    ElementOffset(p, size, a.stride, c.n, w, row, col);
  }

  /**
   The tensor has one row per rank, and its columns are exactly the places of whole elements in a
   segment of the requested size.
   */
  lemma ViewCovers(c: Config, s: System, i: nat, p: nat, w: nat)
    requires ConfigOk(c) && Reachable(c, s) && HasView(c, s, i, p) && ElementWidth(w)
    ensures var v, size := ViewOf(c, s, i, p, w), s.sizes[OpenOf(s.ranks[i].live[p])];
      && v.rows == c.n == |s.ranks| && v.cols * w <= size < v.cols * w + w
      && forall o: nat :: o % w == 0 && o + w <= size ==> o / w < v.cols && o / w * w == o
  {
    hide Reachable, RankInv, RankFromOpens;
    ReachableRank(c, s, i);
    var v, size := ViewOf(c, s, i, p, w), s.sizes[OpenOf(s.ranks[i].live[p])];
    Arith.DivModDef(size, w);
    forall o: nat | o % w == 0 && o + w <= size ensures o / w < v.cols && o / w * w == o {
      Arith.DivModDef(o, w);
      if v.cols <= o / w {
        Arith.MulMonotone(v.cols, o / w, w);
      }
    }
  }

  /**
   Two ranks that hold the same allocation make tensors of the same shape, and reach, through element
   (row, col), the same bytes of the same memory, wherever each of them has mapped it.
   */
  lemma ElementShared(c: Config, s: System, i: nat, p: nat, i': nat, p': nat, w: nat, row: nat, col: nat)
    requires ConfigOk(c) && Reachable(c, s) && HasView(c, s, i, p) && HasView(c, s, i', p') && ElementWidth(w)
    requires OpenOf(s.ranks[i].live[p]) == OpenOf(s.ranks[i'].live[p'])
    requires row < ViewOf(c, s, i, p, w).rows && col < ViewOf(c, s, i, p, w).cols
    ensures var r, r', v, v' := s.ranks[i], s.ranks[i'], ViewOf(c, s, i, p, w), ViewOf(c, s, i', p', w);
      var m, m' := AllocSeg(r.live[p], row), AllocSeg(r'.live[p'], row);
      && v.rows == v'.rows && v.cols == v'.cols
      && m in r.driver.mapped && m' in r'.driver.mapped && r.driver.mapped[m] == r'.driver.mapped[m']
      && ElementAt(v, row, col) - m == ElementAt(v', row, col) - m'
  {
    hide Reachable, RankFromOpens, Mid, AlignUp, ElementAt;
    ViewCovers(c, s, i, p, w);
    SegmentBacking(c, s, i, p, row);
    SegmentBacking(c, s, i', p', row);
    ElementInside(c, s, i, p, w, row, col);
    ElementInside(c, s, i', p', w, row, col);
  }
}
