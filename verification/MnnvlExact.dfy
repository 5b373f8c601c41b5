/**
 What one open and one close change, written out: when the current region is continued and when a new
 one is reserved, and when closing gives a region back.
 */
module MnnvlExact {
  import opened Options
  import opened MnnvlDriver
  import opened MnnvlMemory
  import opened MnnvlRank
  import Arith

  /** `aligned` is the least multiple of `unit` that covers `size`. */
  predicate Covers(size: nat, unit: nat, aligned: nat)
    requires unit > 0
  {
    aligned % unit == 0 && size <= aligned < size + unit
  }

  lemma CoversUnique(size: nat, unit: nat, a: nat, b: nat)
    requires unit > 0 && Covers(size, unit, a) && Covers(size, unit, b)
    ensures a == b
  {
    Arith.DivModDef(a, unit);
    Arith.DivModDef(b, unit);
    if a < b {
      MultiplesApart(a / unit, b / unit, unit);
    } else if b < a {
      MultiplesApart(b / unit, a / unit, unit);
    }
  }

  lemma MultiplesApart(x: nat, y: nat, unit: nat)
    requires x * unit < y * unit
    ensures x * unit + unit <= y * unit
  {
    if x >= y {
      Arith.MulMonotone(y, x, unit);
    }
    Arith.MulStep(x, y, unit);
  }

  lemma AlignUpIs(size: nat, unit: nat, aligned: nat)
    requires unit > 0 && Covers(size, unit, aligned)
    ensures AlignUp(size, unit) == aligned
  {
    AlignUpCovers(size, unit);
    CoversUnique(size, unit, AlignUp(size, unit), aligned);
  }

  /** The allocation took the next piece of the current region. */
  predicate Continued(r: Rank, r': Rank, aligned: nat, handles: seq<Mem>) {
    && r'.driver.reserved == r.driver.reserved
    && r'.start == r.start && r'.stride == r.stride && r'.offset == r.offset + aligned
    && r'.live == r.live[r.start + r.offset := Alloc(aligned, handles, r.start, r.stride, r.offset)]
    && r.start in r.refcnt && r'.refcnt == r.refcnt[r.start := r.refcnt[r.start] + 1]
  }

  /** The allocation took the beginning of a new region at the address the driver returned. */
  predicate FreshRegion(c: Config, r: Rank, r': Rank, aligned: nat, handles: seq<Mem>, at: nat) {
    && Covers(aligned, 0x2000_0000, r'.stride)
    && r'.driver.reserved.Keys == r.driver.reserved.Keys + {at} && at !in r.driver.reserved
    && r'.driver.reserved - {at} == r.driver.reserved && r'.driver.reserved[at] == r'.stride * c.n
    && r'.start == at && r'.offset == aligned
    && r'.live == r.live[at := Alloc(aligned, handles, at, r'.stride, 0)]
    && r'.refcnt == r.refcnt[at := 1]
  }

  /**
   An open that fits behind the current offset reserves nothing and continues the current region; any
   other open reserves one new region, of the whole 512 MB pages that one segment needs for every rank,
   and starts at its beginning.
   */
  lemma OpenExactly(c: Config, r: Rank, size: nat, aligned: nat, handles: seq<Mem>, at: nat)
    requires ConfigOk(c) && RankInv(c.n, r) && |handles| == c.n && size > 0 && GoodAddress(c, r, size, at)
    requires Covers(size, c.granularity, aligned)
    ensures match Open(c, r, size, handles, at)
            case None => false
            case Some(r') =>
              if r.offset + aligned <= r.stride then Continued(r, r', aligned, handles)
              else FreshRegion(c, r, r', aligned, handles, at)
  {
    hide AlignUp, Mid, RankInv, MapSegments, GoodAddress, Covers;
    AlignUpIs(size, c.granularity, aligned);
    assert aligned > 0 by {
      AlignUpCovers(size, c.granularity);
    }
    OpenInv(c, r, size, handles, at);
    var p := Position(c, r, size, at);
    OpenReserves(c, p, aligned, handles);
    if r.offset + aligned <= r.stride {
      CurrentIsCounted(c.n, r, aligned);
    } else {
      PagesCover(aligned);
      NewIsUncounted(c, r, size, at);
    }
  }

  lemma PagesCover(aligned: nat)
    ensures Covers(aligned, 0x2000_0000, AlignUp(aligned, PAGE))
  {
    AlignUpCovers(aligned, PAGE);
  }

  lemma OpenReserves(c: Config, r: Rank, aligned: nat, handles: seq<Mem>)
    requires |handles| == c.n && Place(c, r, aligned, handles).Some?
    ensures Place(c, r, aligned, handles).value.driver.reserved == r.driver.reserved
  {
    hide MapSegments;
    MapKeepsReserved(r.driver, r.start + r.offset, r.stride, aligned, handles, c.n);
  }

  lemma {:induction false} MapKeepsReserved(d: Driver, first: nat, stride: nat, size: nat, handles: seq<Mem>, k: nat)
    requires k <= |handles|
    ensures match MapSegments(d, first, stride, size, handles, k)
            case None => true
            case Some(e) => e.reserved == d.reserved
  {
    if k > 0 {
      MapKeepsReserved(d, first, stride, size, handles, k - 1);
    }
  }

  lemma CurrentIsCounted(n: nat, r: Rank, aligned: nat)
    requires RankInv(n, r) && 0 < aligned && r.offset + aligned <= r.stride
    ensures r.start in r.refcnt
  {
    hide AllocsOk, AllocsApart, MappedExactly, RegionsOk, CountsOk;
  }

  /** A range that the driver may return starts no region that is counted. */
  lemma NewIsUncounted(c: Config, r: Rank, size: nat, at: nat)
    requires ConfigOk(c) && RankInv(c.n, r) && size > 0 && NeedsRegion(c, r, size) && GoodAddress(c, r, size, at)
    ensures at !in r.refcnt && at !in r.driver.reserved
  {
    hide AllocsOk, AllocsApart, MappedExactly, CountsOk, CurrentOk, AlignUp;
    AlignUpCovers(size, c.granularity);
    RegionSizePositive(c, AlignUp(size, c.granularity));
  }

  /** Another live allocation sits in the same region. */
  predicate Shared(live: map<nat, Alloc>, p: nat)
    requires p in live
  {
    exists q :: q in live && q != p && live[q].start == live[p].start
  }

  /**
   Closing one of several allocations of a region only counts it down; closing the last one gives the
   region back, and resets the current region exactly if it was that one.
   */
  lemma CloseExactly(c: Config, r: Rank, p: nat)
    requires ConfigOk(c) && RankInv(c.n, r) && p in r.live
    ensures |r.live[p].handles| == c.n
    ensures match Close(c, r, p)
            case KeyError => false
            case Faulted => false
            case Closed(r') =>
              var a := r.live[p];
              && r'.live == r.live - {p} && a.start in r.refcnt
              && (if Shared(r.live, p) then
                    && r'.driver.reserved == r.driver.reserved
                    && r'.refcnt == r.refcnt[a.start := r.refcnt[a.start] - 1]
                    && (r'.start, r'.stride, r'.offset) == (r.start, r.stride, r.offset)
                  else
                    && r'.driver.reserved == r.driver.reserved - {a.start}
                    && r'.refcnt == r.refcnt - {a.start}
                    && (r'.start, r'.stride, r'.offset) ==
                       if a.start == r.start then (0, 0, 0) else (r.start, r.stride, r.offset))
  {
    hide RankInv, UnmapSegments, Mid, CanFree;
    CloseInv(c, r, p);
    CountOfRegion(c.n, r, p);
    var a := r.live[p];
    UnmapKeepsReserved(r.driver, a.start + a.offset, a.stride, a.size, a.handles, c.n);
  }

  lemma {:induction false} UnmapKeepsReserved(d: Driver, first: nat, stride: nat, size: nat, handles: seq<Mem>, k: nat)
    requires k <= |handles|
    ensures match UnmapSegments(d, first, stride, size, handles, k)
            case None => true
            case Some(e) => e.reserved == d.reserved
  {
    if k > 0 {
      UnmapKeepsReserved(d, first, stride, size, handles, k - 1);
    }
  }

  lemma CountOfRegion(n: nat, r: Rank, p: nat)
    requires RankInv(n, r) && p in r.live
    ensures r.live[p].start in r.refcnt && r.refcnt[r.live[p].start] > 0
    ensures r.refcnt[r.live[p].start] > 1 <==> Shared(r.live, p)
  {
    hide AllocsOk, AllocsApart, MappedExactly, RegionsOk, CurrentOk;
    var here := LiveIn(r.live, r.live[p].start);
    assert p in here;
    if Shared(r.live, p) {
      var q :| q in r.live && q != p && r.live[q].start == r.live[p].start;
      assert here == {p, q} + (here - {p, q}) && |{p, q}| == 2;
    } else {
      assert here == {p};
    }
  }
}
