/** Opening and closing keep the invariant of a rank, and never fail once it holds. */
module MnnvlRank {
  import opened Options
  import opened MnnvlDriver
  import opened MnnvlMemory
  import Arith

  // ----- Geometry -----

  lemma WithinApart(a: nat, m: nat, b: nat, n: nat, a': nat, m': nat, b': nat, n': nat)
    requires Within(a, m, b, n) && Within(a', m', b', n') && Apart(b, n, b', n')
    ensures Apart(a, m, a', m')
  {
  }

  /** Two pieces of one region are apart when they are in different strides or at apart offsets. */
  lemma PiecesApart(start: nat, stride: nat, o1: nat, s1: nat, j: nat, o2: nat, s2: nat, k: nat)
    requires o1 + s1 <= stride && o2 + s2 <= stride && (j != k || Apart(o1, s1, o2, s2))
    ensures Apart(Seg(start + o1, stride, j), s1, Seg(start + o2, stride, k), s2)
  {
    if j < k {
      Arith.MulStep(j, k, stride);
    } else if k < j {
      Arith.MulStep(k, j, stride);
    }
  }

  lemma AllocSegWithin(d: Driver, n: nat, p: nat, a: Alloc, j: nat)
    requires AllocOk(d, n, p, a) && j < n
    ensures a.start in d.reserved && Within(AllocSeg(a, j), a.size, a.start, d.reserved[a.start])
  {
    SegmentWithin(a.start, a.offset, a.stride, a.size, j, n);
  }

  /** Any two different segments of live allocations are apart. */
  lemma LiveSegsApart(d: Driver, n: nat, p: nat, a: Alloc, j: nat, q: nat, b: Alloc, k: nat)
    requires RegionsOk(d) && AllocOk(d, n, p, a) && AllocOk(d, n, q, b) && j < n && k < n
    requires OffsetsApart(a, b) || (a == b && j != k)
    ensures Apart(AllocSeg(a, j), a.size, AllocSeg(b, k), b.size)
    ensures AllocSeg(a, j) != AllocSeg(b, k)
  {
    if a.start == b.start {
      PiecesApart(a.start, a.stride, a.offset, a.size, j, b.offset, b.size, k);
    } else {
      hide Seg;
      AllocSegWithin(d, n, p, a, j);
      AllocSegWithin(d, n, q, b, k);
      WithinApart(AllocSeg(a, j), a.size, a.start, d.reserved[a.start],
                  AllocSeg(b, k), b.size, b.start, d.reserved[b.start]);
    }
  }

  /** In a state that keeps the invariant, all mapped ranges are pairwise apart. */
  lemma MappedApart(n: nat, r: Rank, p: nat, j: nat, q: nat, k: nat)
    requires Mid(n, r) && p in r.live && q in r.live && j < n && k < n && (p != q || j != k)
    ensures Apart(AllocSeg(r.live[p], j), r.live[p].size, AllocSeg(r.live[q], k), r.live[q].size)
    ensures AllocSeg(r.live[p], j) != AllocSeg(r.live[q], k)
  {
    hide MappedExactly, CountsOk, CurrentOk;
    assert p != q ==> OffsetsApart(r.live[p], r.live[q]);
    LiveSegsApart(r.driver, n, p, r.live[p], j, q, r.live[q], k);
  }

  // ----- Placing an allocation -----

  /** The piece of the current region that the next allocation takes. */
  function NextAlloc(r: Rank, aligned: nat, handles: seq<Mem>): Alloc {
    Alloc(aligned, handles, r.start, r.stride, r.offset)
  }

  lemma NextAllocOk(n: nat, r: Rank, aligned: nat, handles: seq<Mem>)
    requires Mid(n, r) && 0 < aligned && r.offset + aligned <= r.stride && |handles| == n
    ensures AllocOk(r.driver, n, r.start + r.offset, NextAlloc(r, aligned, handles))
    ensures forall p :: p in r.live ==> OffsetsApart(NextAlloc(r, aligned, handles), r.live[p])
    ensures r.start > 0
  {
    hide MappedExactly, CountsOk, AllocsOk, AllocsApart;
  }

  lemma OwnedSegment(n: nat, r: Rank, m: nat) returns (p: nat, j: nat)
    requires Mid(n, r) && m in r.driver.mapped
    ensures p in r.live && j < n && m == AllocSeg(r.live[p], j)
    ensures AllocOk(r.driver, n, p, r.live[p])
    ensures r.driver.mapped[m] == Mapped(r.live[p].size, r.live[p].handles[j])
  {
    hide CountsOk, CurrentOk, Seg, AllocsApart, RegionsOk;
    assert Owned(r.live, n, m);
    p, j :| p in r.live && j < n && m == AllocSeg(r.live[p], j);
  }

  /** Nothing mapped overlaps the next allocation, and all its segments lie in the region. */
  lemma NextRoom(n: nat, r: Rank, aligned: nat, handles: seq<Mem>)
    requires Mid(n, r) && 0 < aligned && r.offset + aligned <= r.stride && |handles| == n
    ensures Room(r.driver, r.start + r.offset, r.stride, aligned, n)
  {
    var a := NextAlloc(r, aligned, handles);
    var d := r.driver;
    NextAllocOk(n, r, aligned, handles);
    forall m | m in d.mapped ensures d.mapped[m].size > 0 {
      var p, k := OwnedSegment(n, r, m);
    }
    var first := r.start + r.offset;
    forall j: nat | j < n ensures CanMap(d, Seg(first, r.stride, j), aligned) {
      AllocSegWithin(d, n, r.start + r.offset, a, j);
      forall m | m in d.mapped ensures Apart(AllocSeg(a, j), aligned, m, d.mapped[m].size) {
        var p, k := OwnedSegment(n, r, m);
        LiveSegsApart(d, n, r.start + r.offset, a, j, p, r.live[p], k);
      }
    }
  }

  /** The new pointer is not the key of a live entry. */
  lemma NextPointerFresh(n: nat, r: Rank, aligned: nat, handles: seq<Mem>)
    requires Mid(n, r) && n > 0 && 0 < aligned && r.offset + aligned <= r.stride && |handles| == n
    ensures r.start + r.offset !in r.live
  {
    hide MappedExactly, CountsOk, CurrentOk, Mid;
    NextAllocOk(n, r, aligned, handles);
    var p := r.start + r.offset;
    if p in r.live {
      LiveAllocOk(n, r, p);
      assert AllocSeg(r.live[p], 0) == p == AllocSeg(NextAlloc(r, aligned, handles), 0);
      LiveSegsApart(r.driver, n, p, NextAlloc(r, aligned, handles), 0, p, r.live[p], 0);
    }
  }

  lemma LiveAllocOk(n: nat, r: Rank, p: nat)
    requires Mid(n, r) && p in r.live
    ensures RegionsOk(r.driver) && AllocOk(r.driver, n, p, r.live[p])
  {
    hide MappedExactly, CountsOk, CurrentOk;
  }

  lemma PlaceMapped(d: Driver, e: Driver, n: nat, live: map<nat, Alloc>, p: nat, a: Alloc)
    requires MappedExactly(d, n, live) && p !in live && p == a.start + a.offset && |a.handles| == n
    requires SegmentsMapped(d, e, p, a.stride, a.size, a.handles, n)
    ensures MappedExactly(e, n, live[p := a])
  {
    hide Seg;
    var live' := live[p := a];
    forall m | m in e.mapped ensures Owned(live', n, m) {
      if m in d.mapped {
        assert Owned(live, n, m);
        var q, j: nat :| q in live && j < n && m == AllocSeg(live[q], j);
        assert q in live' && m == AllocSeg(live'[q], j);
      } else {
        var j: nat :| j < n && m == Seg(p, a.stride, j);
        assert p in live' && m == AllocSeg(live'[p], j);
      }
    }
    forall q, j: nat | q in live' && j < n && j < |live'[q].handles|
      ensures AllocSeg(live'[q], j) in e.mapped
      ensures e.mapped[AllocSeg(live'[q], j)] == Mapped(live'[q].size, live'[q].handles[j])
    {
      if q == p {
        assert Seg(p, a.stride, j) in e.mapped;
      } else {
        assert AllocSeg(live[q], j) in d.mapped;
      }
    }
  }

  lemma PlaceCounts(refcnt: map<nat, nat>, live: map<nat, Alloc>, p: nat, a: Alloc)
    requires CountsOk(refcnt, live) && p !in live
    ensures CountsOk(refcnt[a.start := Count(refcnt, a.start) + 1], live[p := a])
  {
    forall s ensures LiveIn(live[p := a], s) == if s == a.start then LiveIn(live, s) + {p} else LiveIn(live, s) {
    }
    if a.start !in refcnt {
      assert LiveIn(live, a.start) == {};
    }
  }

  lemma PlaceAllocs(d: Driver, n: nat, live: map<nat, Alloc>, p: nat, a: Alloc)
    requires AllocsOk(d, n, live) && AllocsApart(live) && AllocOk(d, n, p, a) && p !in live
    requires forall q :: q in live ==> OffsetsApart(a, live[q])
    ensures AllocsOk(d, n, live[p := a]) && AllocsApart(live[p := a])
  {
  }

  lemma SameReservations(d: Driver, e: Driver, n: nat, live: map<nat, Alloc>)
    requires e.reserved == d.reserved
    ensures AllocsOk(d, n, live) ==> AllocsOk(e, n, live)
    ensures RegionsOk(d) ==> RegionsOk(e)
  {
  }

  lemma PlaceCurrent(n: nat, r: Rank, aligned: nat, handles: seq<Mem>, r': Rank)
    requires CurrentOk(n, r) && r.start > 0 && r.offset + aligned <= r.stride
    requires r'.start == r.start && r'.stride == r.stride && r'.offset == r.offset + aligned
    requires r'.driver.reserved == r.driver.reserved
    requires r'.live == r.live[r.start + r.offset := NextAlloc(r, aligned, handles)]
    ensures CurrentOk(n, r')
  {
  }

  lemma PlaceSucceeds(c: Config, r: Rank, aligned: nat, handles: seq<Mem>)
    requires ConfigOk(c) && Mid(c.n, r) && |handles| == c.n && 0 < aligned && r.offset + aligned <= r.stride
    ensures Place(c, r, aligned, handles).Some?
    ensures SegmentsMapped(r.driver, Place(c, r, aligned, handles).value.driver,
                           r.start + r.offset, r.stride, aligned, handles, c.n)
  {
    hide Mid, Seg;
    NextRoom(c.n, r, aligned, handles);
    MapSegmentsExact(r.driver, r.start + r.offset, r.stride, aligned, handles, c.n);
  }

  /** Placing into the current region succeeds and restores the full invariant. */
  lemma PlaceInv(c: Config, r: Rank, aligned: nat, handles: seq<Mem>)
    requires ConfigOk(c) && Mid(c.n, r) && r.hasComm && |handles| == c.n
    requires 0 < aligned && r.offset + aligned <= r.stride
    requires r.refcnt.Keys + {r.start} == r.driver.reserved.Keys
    ensures r.start + r.offset !in r.live
    ensures Place(c, r, aligned, handles).Some? && RankInv(c.n, Place(c, r, aligned, handles).value)
    ensures Place(c, r, aligned, handles).value.live
         == r.live[r.start + r.offset := NextAlloc(r, aligned, handles)]
  {
    hide MapSegments, MappedExactly, AllocsApart, CountsOk, AllocOk, AllocsOk, CurrentOk, RegionsOk, OffsetsApart;
    var n, p, a := c.n, r.start + r.offset, NextAlloc(r, aligned, handles);
    NextAllocOk(n, r, aligned, handles);
    NextPointerFresh(n, r, aligned, handles);
    PlaceSucceeds(c, r, aligned, handles);
    var r' := Place(c, r, aligned, handles).value;
    PlaceMapped(r.driver, r'.driver, n, r.live, p, a);
    PlaceCounts(r.refcnt, r.live, p, a);
    PlaceAllocs(r.driver, n, r.live, p, a);
    SameReservations(r.driver, r'.driver, n, r'.live);
    PlaceCurrent(n, r, aligned, handles, r');
    hide SegmentsMapped;
    assert r'.refcnt.Keys == r.refcnt.Keys + {r.start};
  }

  // ----- Opening -----

  /** The driver's promise for one open: if a region is reserved, the range it returns is fresh. */
  predicate GoodAddress(c: Config, r: Rank, size: nat, at: nat)
    requires ConfigOk(c)
  {
    NeedsRegion(c, r, size) ==> Fresh(r.driver, at, RegionSize(c, AlignUp(size, c.granularity)))
  }

  lemma RegionSizePositive(c: Config, aligned: nat)
    requires ConfigOk(c) && aligned > 0
    ensures RegionSize(c, aligned) == c.n * AlignUp(aligned, PAGE) > 0
    ensures aligned <= AlignUp(aligned, PAGE) && AlignUp(aligned, PAGE) % PAGE == 0
  {
    AlignUpCovers(aligned, PAGE);
    Arith.MulMonotone(1, c.n, AlignUp(aligned, PAGE));
  }

  lemma ReserveRegions(d: Driver, at: nat, size: nat)
    requires RegionsOk(d) && Fresh(d, at, size) && size > 0
    ensures at !in d.reserved && RegionsOk(Reserve(d, at, size))
  {
  }

  lemma ReserveAllocs(d: Driver, at: nat, size: nat, n: nat, live: map<nat, Alloc>)
    requires AllocsOk(d, n, live) && at !in d.reserved
    ensures AllocsOk(Reserve(d, at, size), n, live)
    ensures forall p :: p in live ==> live[p].start != at
  {
  }

  lemma SameMappings(d: Driver, e: Driver, n: nat, live: map<nat, Alloc>)
    requires MappedExactly(d, n, live) && e.mapped == d.mapped
    ensures MappedExactly(e, n, live)
  {
    hide Owned;
  }

  /** Switching regions keeps everything except that the new region has no allocation yet. */
  lemma SwitchMid(c: Config, r: Rank, aligned: nat, at: nat)
    requires ConfigOk(c) && RankInv(c.n, r) && aligned > 0 && Fresh(r.driver, at, RegionSize(c, aligned))
    ensures var r' := NewAddress(c, r, aligned, at);
      && Mid(c.n, r') && r'.hasComm && r'.offset + aligned <= r'.stride
      && r'.refcnt.Keys + {r'.start} == r'.driver.reserved.Keys
  {
    RegionSizePositive(c, aligned);
    hide Fresh, AlignUp, RegionSize, AllocsApart, CountsOk, AllocOk;
    var r' := NewAddress(c, r, aligned, at);
    ReserveRegions(r.driver, at, RegionSize(c, aligned));
    ReserveAllocs(r.driver, at, RegionSize(c, aligned), c.n, r.live);
    SameMappings(r.driver, r'.driver, c.n, r.live);
    hide MappedExactly, RegionsOk, AllocsOk;
    assert at > 0;
  }

  lemma SameBooks(n: nat, r: Rank, r': Rank)
    requires RankInv(n, r) && r' == r.(hasComm := r'.hasComm, log := r'.log) && r'.hasComm
    ensures RankInv(n, r')
  {
  }

  lemma PositionMid(c: Config, r: Rank, size: nat, at: nat)
    requires ConfigOk(c) && RankInv(c.n, r) && size > 0 && GoodAddress(c, r, size, at)
    ensures var p, aligned := Position(c, r, size, at), AlignUp(size, c.granularity);
      && Mid(c.n, p) && p.hasComm && p.live == r.live && 0 < aligned && p.offset + aligned <= p.stride
      && p.refcnt.Keys + {p.start} == p.driver.reserved.Keys
      && p.start + p.offset == OpenPtr(c, r, size, at)
  {
    var r0 := GetComm(r);
    var r1 := r0.(log := r0.log + [GatherSize]);
    SameBooks(c.n, r, r1);
    AlignUpCovers(size, c.granularity);
    hide AlignUp, Mid, RankInv;
    if NeedsRegion(c, r1, size) {
      SwitchMid(c, r1, AlignUp(size, c.granularity), at);
    } else {
      RankInvMid(c.n, r1);
      CurrentCounted(c.n, r1, AlignUp(size, c.granularity));
    }
  }

  lemma RankInvMid(n: nat, r: Rank)
    requires RankInv(n, r)
    ensures Mid(n, r) && r.refcnt.Keys == r.driver.reserved.Keys
  {
  }

  /** What `open_mnnvl_memory` returns as the pointer. */
  function OpenPtr(c: Config, r: Rank, size: nat, at: nat): nat
    requires ConfigOk(c)
  {
    if NeedsRegion(c, r, size) then at else r.start + r.offset
  }

  /**
   Opening on a rank at rest succeeds: the assertion after region switching holds, no driver call
   faults, the pointer is new, every live entry stays, and the rank is at rest again.
   */
  lemma OpenInv(c: Config, r: Rank, size: nat, handles: seq<Mem>, at: nat)
    requires ConfigOk(c) && RankInv(c.n, r) && |handles| == c.n && size > 0
    requires GoodAddress(c, r, size, at)
    ensures OpenPtr(c, r, size, at) !in r.live
    ensures match Open(c, r, size, handles, at)
            case None => false
            case Some(r') =>
              && RankInv(c.n, r')
              && r'.live == r.live[OpenPtr(c, r, size, at) :=
                                     NextAlloc(Position(c, r, size, at), AlignUp(size, c.granularity), handles)]
  {
    hide AlignUp, Mid, Place, RankInv, Position, OpenPtr, NeedsRegion, GoodAddress;
    PositionMid(c, r, size, at);
    PlaceInv(c, Position(c, r, size, at), AlignUp(size, c.granularity), handles);
  }

  lemma CurrentCounted(n: nat, r: Rank, aligned: nat)
    requires RankInv(n, r) && 0 < aligned && r.offset + aligned <= r.stride
    ensures r.refcnt.Keys + {r.start} == r.driver.reserved.Keys
  {
    hide MappedExactly, CountsOk, AllocsOk, AllocsApart, RegionsOk;
  }

  // ----- Closing -----

  lemma LiveHeld(n: nat, r: Rank, p: nat)
    requires Mid(n, r) && p in r.live
    ensures var a := r.live[p];
      p == a.start + a.offset && |a.handles| == n && SegmentsHeld(r.driver, p, a.stride, a.size, a.handles)
  {
    hide CountsOk, CurrentOk, AllocsApart, RegionsOk, Seg, Owned;
    var a := r.live[p];
    assert AllocOk(r.driver, n, p, a);
    forall j: nat | j < n
      ensures Seg(p, a.stride, j) in r.driver.mapped && r.driver.mapped[Seg(p, a.stride, j)] == Mapped(a.size, a.handles[j])
    {
      assert AllocSeg(a, j) in r.driver.mapped;
    }
  }

  lemma CloseMapped(n: nat, r: Rank, p: nat, e: Driver)
    requires Mid(n, r) && p in r.live && |r.live[p].handles| == n
    requires SegmentsUnmapped(r.driver, e, r.live[p].start + r.live[p].offset, r.live[p].stride, r.live[p].handles, n)
    ensures MappedExactly(e, n, r.live - {p})
  {
    hide Seg, CountsOk, CurrentOk, AllocsApart, RegionsOk, AllocsOk;
    var a := r.live[p];
    var live' := r.live - {p};
    forall m | m in e.mapped ensures Owned(live', n, m) {
      var q, j := OwnedSegment(n, r, m);
      assert !IsSegment(a.start + a.offset, a.stride, n, m);
      assert q in live' && m == AllocSeg(live'[q], j);
    }
    forall q, j: nat | q in live' && j < n && j < |live'[q].handles|
      ensures AllocSeg(live'[q], j) in e.mapped
      ensures e.mapped[AllocSeg(live'[q], j)] == Mapped(live'[q].size, live'[q].handles[j])
    {
      assert AllocSeg(r.live[q], j) in r.driver.mapped;
      if IsSegment(a.start + a.offset, a.stride, n, AllocSeg(r.live[q], j)) {
        var k: nat :| k < n && AllocSeg(r.live[q], j) == Seg(a.start + a.offset, a.stride, k);
        MappedApart(n, r, q, j, p, k);
      }
    }
  }

  lemma LiveInDrop(live: map<nat, Alloc>, p: nat, s: nat)
    requires p in live
    ensures LiveIn(live - {p}, s) == LiveIn(live, s) - {p}
    ensures |LiveIn(live - {p}, s)| == |LiveIn(live, s)| - (if s == live[p].start then 1 else 0)
  {
    assert LiveIn(live - {p}, s) == LiveIn(live, s) - {p};
    if s == live[p].start {
      assert p in LiveIn(live, s);
    } else {
      assert LiveIn(live, s) - {p} == LiveIn(live, s);
    }
  }

  /** Dropping one allocation of several. */
  lemma DropCounts(refcnt: map<nat, nat>, live: map<nat, Alloc>, p: nat)
    requires CountsOk(refcnt, live) && p in live && refcnt[live[p].start] > 1
    ensures CountsOk(refcnt[live[p].start := refcnt[live[p].start] - 1], live - {p})
  {
    hide LiveIn;
    forall s | s in refcnt ensures |LiveIn(live - {p}, s)| == refcnt[s] - (if s == live[p].start then 1 else 0) {
      LiveInDrop(live, p, s);
    }
  }

  /** Dropping the last allocation of a region. */
  lemma DropLastCounts(refcnt: map<nat, nat>, live: map<nat, Alloc>, p: nat)
    requires CountsOk(refcnt, live) && p in live && refcnt[live[p].start] == 1
    ensures CountsOk(refcnt - {live[p].start}, live - {p})
    ensures forall q :: q in live && q != p ==> live[q].start != live[p].start
  {
    var start := live[p].start;
    LiveInDrop(live, p, start);
    assert LiveIn(live - {p}, start) == {};
    forall q | q in live && q != p ensures live[q].start != start {
      assert q !in LiveIn(live - {p}, start);
    }
    hide LiveIn;
    forall s | s in refcnt && s != start ensures |LiveIn(live - {p}, s)| == refcnt[s] {
      LiveInDrop(live, p, s);
    }
  }

  lemma DropAllocs(d: Driver, n: nat, live: map<nat, Alloc>, p: nat)
    requires AllocsOk(d, n, live) && AllocsApart(live)
    ensures AllocsOk(d, n, live - {p}) && AllocsApart(live - {p})
  {
  }

  lemma DropCurrent(n: nat, r: Rank, p: nat, r': Rank)
    requires CurrentOk(n, r) && r'.start == r.start && r'.stride == r.stride && r'.offset == r.offset
    requires r'.live == r.live - {p}
    requires r.start in r.driver.reserved ==>
               r.start in r'.driver.reserved && r'.driver.reserved[r.start] == r.driver.reserved[r.start]
    ensures CurrentOk(n, r')
  {
  }

  /** Once no live allocation is left in the region of `a`, the driver lets it be freed. */
  lemma RegionCanBeFreed(d: Driver, n: nat, live: map<nat, Alloc>, start: nat, stride: nat)
    requires RegionsOk(d) && AllocsOk(d, n, live) && MappedExactly(d, n, live)
    requires start in d.reserved && d.reserved[start] == n * stride
    requires forall q :: q in live ==> live[q].start != start
    ensures CanFree(d, start, n * stride)
  {
    hide Seg;
    forall m | m in d.mapped ensures Apart(start, n * stride, m, d.mapped[m].size) {
      assert Owned(live, n, m);
      var q, j: nat :| q in live && j < n && m == AllocSeg(live[q], j);
      assert AllocOk(d, n, q, live[q]);
      AllocSegWithin(d, n, q, live[q], j);
      assert d.mapped[AllocSeg(live[q], j)].size == live[q].size;
    }
  }

  lemma FreeKeeps(d: Driver, n: nat, live: map<nat, Alloc>, start: nat, size: nat)
    requires RegionsOk(d) && AllocsOk(d, n, live) && MappedExactly(d, n, live) && CanFree(d, start, size)
    requires forall q :: q in live ==> live[q].start != start
    ensures var e := Free(d, start, size).value; RegionsOk(e) && AllocsOk(e, n, live) && MappedExactly(e, n, live)
  {
    var e := Free(d, start, size).value;
    assert AllocsOk(e, n, live);
    SameMappings(d, e, n, live);
  }

  /** Some allocations of the region remain. */
  lemma DropShared(c: Config, r: Rank, p: nat, e: Driver)
    requires RankInv(c.n, r) && r.hasComm && p in r.live && r.refcnt[r.live[p].start] > 1
    requires e.reserved == r.driver.reserved && MappedExactly(e, c.n, r.live - {p})
    ensures match Drop(c, r, p, e)
            case Closed(r') => RankInv(c.n, r') && r'.live == r.live - {p}
            case _ => false
  {
    hide MappedExactly, CountsOk, AllocsOk, AllocsApart, RegionsOk, CurrentOk;
    LiveCounted(c.n, r, p);
    var r' := Drop(c, r, p, e).rank;
    DropCounts(r.refcnt, r.live, p);
    DropAllocs(r.driver, c.n, r.live, p);
    SameReservations(r.driver, e, c.n, r.live - {p});
    DropCurrent(c.n, r, p, r');
  }

  lemma LiveCounted(n: nat, r: Rank, p: nat)
    requires RankInv(n, r) && p in r.live
    ensures var a := r.live[p];
      && a.start in r.refcnt && r.refcnt[a.start] > 0
      && a.start in r.driver.reserved && r.driver.reserved[a.start] == n * a.stride
  {
    hide MappedExactly, AllocsApart, RegionsOk, CurrentOk, LiveIn;
    assert AllocOk(r.driver, n, p, r.live[p]);
  }

  /** The region becomes empty: it is freed, and forgotten if it was the current one. */
  lemma DropLast(c: Config, r: Rank, p: nat, e: Driver)
    requires RankInv(c.n, r) && r.hasComm && p in r.live && r.refcnt[r.live[p].start] == 1
    requires e.reserved == r.driver.reserved && MappedExactly(e, c.n, r.live - {p})
    ensures match Drop(c, r, p, e)
            case Closed(r') => RankInv(c.n, r') && r'.live == r.live - {p}
            case _ => false
  {
    hide MappedExactly, CountsOk, AllocsOk, AllocsApart, RegionsOk, CurrentOk, CanFree;
    var a, live' := r.live[p], r.live - {p};
    LiveCounted(c.n, r, p);
    DropLastCounts(r.refcnt, r.live, p);
    DropAllocs(r.driver, c.n, r.live, p);
    SameReservations(r.driver, e, c.n, live');
    RegionCanBeFreed(e, c.n, live', a.start, a.stride);
    FreeKeeps(e, c.n, live', a.start, c.n * a.stride);
    var r' := Drop(c, r, p, e).rank;
    if a.start == r.start {
      NothingCurrent(c.n, r');
    } else {
      DropCurrent(c.n, r, p, r');
    }
    assert r'.refcnt.Keys == r.refcnt.Keys - {a.start};
    assert r'.driver.reserved.Keys == e.reserved.Keys - {a.start};
  }

  lemma NothingCurrent(n: nat, r: Rank)
    requires r.start == 0 && r.stride == 0 && r.offset == 0
    ensures CurrentOk(n, r)
  {
  }

  /** Closing a live allocation succeeds: every driver call is allowed, and the rank is at rest again. */
  lemma CloseInv(c: Config, r: Rank, p: nat)
    requires ConfigOk(c) && RankInv(c.n, r) && p in r.live
    ensures |r.live[p].handles| == c.n
    ensures match Close(c, r, p)
            case Closed(r') => RankInv(c.n, r') && r'.live == r.live - {p} && r'.log == r.log
            case _ => false
  {
    hide MappedExactly, CountsOk, AllocsOk, AllocsApart, RegionsOk, CurrentOk, SegmentsHeld;
    var a := r.live[p];
    assert r.hasComm;
    LiveHeld(c.n, r, p);
    UnmapSegmentsExact(r.driver, p, a.stride, a.size, a.handles, c.n);
    var e := UnmapSegments(r.driver, p, a.stride, a.size, a.handles, c.n).value;
    CloseMapped(c.n, r, p, e);
    LiveCounted(c.n, r, p);
    if r.refcnt[a.start] > 1 {
      DropShared(c, r, p, e);
    } else {
      DropLast(c, r, p, e);
    }
  }
}
