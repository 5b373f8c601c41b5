/**
 The CUDA virtual-memory driver seen by one rank: reserved address ranges, and mapped ranges with the
 memory that backs each.  An operation that breaks the driver's rules faults, which the model writes as `None`.
 */
module MnnvlDriver {
  import opened Options
  import Arith

  /** `fabric_page_size`: 512 MB. */
  const PAGE: nat := 0x2000_0000

  /** The physical memory that `rank` created in collective open number `open`. */
  datatype Mem = Mem(open: nat, rank: nat)

  datatype Mapped = Mapped(size: nat, mem: Mem)

  datatype Driver = Driver(reserved: map<nat, nat>, mapped: map<nat, Mapped>)

  predicate Apart(a: nat, m: nat, b: nat, n: nat) {
    a + m <= b || b + n <= a
  }

  predicate Within(a: nat, m: nat, b: nat, n: nat) {
    b <= a && a + m <= b + n
  }

  /** What the driver promises of a reservation: a non-zero page-aligned range apart from those still reserved. */
  predicate Fresh(d: Driver, at: nat, size: nat) {
    && at > 0 && at % PAGE == 0
    && (forall s :: s in d.reserved ==> Apart(at, size, s, d.reserved[s]))
  }

  function Reserve(d: Driver, at: nat, size: nat): Driver {
    d.(reserved := d.reserved[at := size])
  }

  /** A range may be mapped inside one reservation where nothing is mapped yet. */
  predicate CanMap(d: Driver, addr: nat, size: nat) {
    && size > 0
    && (exists s :: s in d.reserved && Within(addr, size, s, d.reserved[s]))
    && (forall m :: m in d.mapped ==> Apart(addr, size, m, d.mapped[m].size))
  }

  function Map(d: Driver, addr: nat, size: nat, mem: Mem): Option<Driver> {
    if CanMap(d, addr, size)
    then Some(d.(mapped := d.mapped[addr := Mapped(size, mem)]))
    else None
  }

  /** Unmapping names exactly one mapped range, and the handle released with it is the one mapped there. */
  function Unmap(d: Driver, addr: nat, size: nat, mem: Mem): Option<Driver> {
    if addr in d.mapped && d.mapped[addr] == Mapped(size, mem)
    then Some(d.(mapped := d.mapped - {addr}))
    else None
  }

  predicate CanFree(d: Driver, addr: nat, size: nat) {
    && addr in d.reserved && d.reserved[addr] == size
    && (forall m :: m in d.mapped ==> Apart(addr, size, m, d.mapped[m].size))
  }

  /** A reservation is freed with the size it was made with, and only once nothing in it is mapped. */
  function Free(d: Driver, addr: nat, size: nat): Option<Driver> {
    if CanFree(d, addr, size) then Some(d.(reserved := d.reserved - {addr})) else None
  }

  // ----- Mapping and unmapping one segment per rank -----

  function Seg(first: nat, stride: nat, j: nat): nat {
    first + j * stride
  }

  /** Maps segments 0..k of an allocation, segment j backed by `handles[j]`. */
  function MapSegments(d: Driver, first: nat, stride: nat, size: nat, handles: seq<Mem>, k: nat): Option<Driver>
    requires k <= |handles|
  {
    if k == 0 then Some(d)
    else
      var before := MapSegments(d, first, stride, size, handles, k - 1);
      if before.None? then None else Map(before.value, Seg(first, stride, k - 1), size, handles[k - 1])
  }

  function UnmapSegments(d: Driver, first: nat, stride: nat, size: nat, handles: seq<Mem>, k: nat): Option<Driver>
    requires k <= |handles|
  {
    if k == 0 then Some(d)
    else
      var before := UnmapSegments(d, first, stride, size, handles, k - 1);
      if before.None? then None else Unmap(before.value, Seg(first, stride, k - 1), size, handles[k - 1])
  }

  lemma SegMonotone(first: nat, stride: nat, i: nat, j: nat)
    requires i < j
    ensures Seg(first, stride, i) + stride <= Seg(first, stride, j)
  {
    Arith.MulStep(i, j, stride);
  }

  /** The segments of an allocation, each no longer than the stride, are apart and inside the region. */
  lemma SegmentsApart(first: nat, stride: nat, size: nat, i: nat, j: nat)
    requires i != j && 0 < size <= stride
    ensures Apart(Seg(first, stride, i), size, Seg(first, stride, j), size)
    ensures Seg(first, stride, i) != Seg(first, stride, j)
  {
    hide Seg;
    if i < j { SegMonotone(first, stride, i, j); } else { SegMonotone(first, stride, j, i); }
  }

  lemma SegmentWithin(start: nat, offset: nat, stride: nat, size: nat, j: nat, n: nat)
    requires j < n && offset + size <= stride
    ensures Within(Seg(start + offset, stride, j), size, start, n * stride)
  {
    Arith.MulStep(j, n, stride);
    Arith.MulMonotone(0, j, stride);
  }

  predicate IsSegment(first: nat, stride: nat, k: nat, m: nat) {
    exists j: nat :: j < k && m == Seg(first, stride, j)
  }

  /** Every segment can be mapped: it lies in a reservation and nothing mapped overlaps it. */
  predicate Room(d: Driver, first: nat, stride: nat, size: nat, n: nat) {
    && 0 < size <= stride
    && (forall m :: m in d.mapped ==> d.mapped[m].size > 0)
    && (forall j: nat :: j < n ==> CanMap(d, Seg(first, stride, j), size))
  }

  /** `e` is `d` with segments 0..k mapped. */
  predicate SegmentsMapped(d: Driver, e: Driver, first: nat, stride: nat, size: nat, handles: seq<Mem>, k: nat)
    requires k <= |handles|
  {
    && e.reserved == d.reserved
    && (forall m :: m in e.mapped ==> m in d.mapped || IsSegment(first, stride, k, m))
    && (forall m :: m in d.mapped ==> m in e.mapped && e.mapped[m] == d.mapped[m])
    && (forall j: nat :: j < k ==>
          Seg(first, stride, j) in e.mapped && e.mapped[Seg(first, stride, j)] == Mapped(size, handles[j]))
  }

  lemma SegmentAgain(first: nat, stride: nat, k: nat, m: nat)
    requires k > 0 && (m == Seg(first, stride, k - 1) || IsSegment(first, stride, k - 1, m))
    ensures IsSegment(first, stride, k, m)
  {
    hide Seg;
    if m != Seg(first, stride, k - 1) {
      var j: nat :| j < k - 1 && m == Seg(first, stride, j);
      assert j < k;
    }
  }

  lemma SegmentStep(first: nat, stride: nat, k: nat, m: nat)
    ensures IsSegment(first, stride, k + 1, m) <==> IsSegment(first, stride, k, m) || m == Seg(first, stride, k)
  {
    hide Seg;
    if IsSegment(first, stride, k, m) || m == Seg(first, stride, k) {
      SegmentAgain(first, stride, k + 1, m);
    }
    if IsSegment(first, stride, k + 1, m) {
      var j: nat :| j < k + 1 && m == Seg(first, stride, j);
      assert j < k || j == k;
    }
  }

  lemma CanMapNext(d: Driver, b: Driver, first: nat, stride: nat, size: nat, handles: seq<Mem>, k: nat)
    requires k < |handles| && Room(d, first, stride, size, |handles|)
    requires SegmentsMapped(d, b, first, stride, size, handles, k)
    ensures CanMap(b, Seg(first, stride, k), size)
    ensures Seg(first, stride, k) !in b.mapped
  {
    hide Seg;
    var addr := Seg(first, stride, k);
    assert CanMap(d, addr, size);
    forall m | m in b.mapped ensures Apart(addr, size, m, b.mapped[m].size) && m != addr {
      if m !in d.mapped {
        var j: nat :| j < k && m == Seg(first, stride, j);
        SegmentsApart(first, stride, size, k, j);
      }
    }
  }

  lemma MapNext(d: Driver, b: Driver, first: nat, stride: nat, size: nat, handles: seq<Mem>, k: nat, e: Driver)
    requires k < |handles| && SegmentsMapped(d, b, first, stride, size, handles, k)
    requires Seg(first, stride, k) !in b.mapped
    requires e == b.(mapped := b.mapped[Seg(first, stride, k) := Mapped(size, handles[k])])
    ensures SegmentsMapped(d, e, first, stride, size, handles, k + 1)
  {
    hide Seg, IsSegment;
    forall m | m in e.mapped ensures m in d.mapped || IsSegment(first, stride, k + 1, m) {
      if m !in d.mapped { SegmentAgain(first, stride, k + 1, m); }
    }
    forall j: nat | j < k + 1
      ensures Seg(first, stride, j) in e.mapped && e.mapped[Seg(first, stride, j)] == Mapped(size, handles[j])
    {
      if j < k { assert Seg(first, stride, j) in b.mapped; }
    }
  }

  lemma NothingMapped(d: Driver, first: nat, stride: nat, size: nat, handles: seq<Mem>)
    ensures SegmentsMapped(d, d, first, stride, size, handles, 0)
  {
  }

  lemma {:induction false} MapSegmentsExact(d: Driver, first: nat, stride: nat, size: nat, handles: seq<Mem>, k: nat)
    requires k <= |handles| && Room(d, first, stride, size, |handles|)
    ensures MapSegments(d, first, stride, size, handles, k).Some?
    ensures SegmentsMapped(d, MapSegments(d, first, stride, size, handles, k).value, first, stride, size, handles, k)
  {
    hide Seg, Room, CanMap, SegmentsMapped;
    if k == 0 {
      NothingMapped(d, first, stride, size, handles);
    } else {
      MapSegmentsExact(d, first, stride, size, handles, k - 1);
      var b := MapSegments(d, first, stride, size, handles, k - 1).value;
      CanMapNext(d, b, first, stride, size, handles, k - 1);
      MapNext(d, b, first, stride, size, handles, k - 1, MapSegments(d, first, stride, size, handles, k).value);
    }
  }

  /** Every segment of an allocation is mapped as it was recorded. */
  predicate SegmentsHeld(d: Driver, first: nat, stride: nat, size: nat, handles: seq<Mem>) {
    && 0 < size <= stride
    && (forall j: nat :: j < |handles| ==>
          Seg(first, stride, j) in d.mapped && d.mapped[Seg(first, stride, j)] == Mapped(size, handles[j]))
  }

  /** `e` is `d` with segments 0..k unmapped. */
  ghost predicate SegmentsUnmapped(d: Driver, e: Driver, first: nat, stride: nat, handles: seq<Mem>, k: nat)
    requires k <= |handles|
  {
    && e.reserved == d.reserved
    && (forall m: nat :: m in e.mapped <==> m in d.mapped && !IsSegment(first, stride, k, m))
    && (forall m :: m in e.mapped ==> e.mapped[m] == d.mapped[m])
  }

  lemma UnmapNext(d: Driver, b: Driver, first: nat, stride: nat, size: nat, handles: seq<Mem>, k: nat)
    requires k < |handles| && SegmentsHeld(d, first, stride, size, handles)
    requires SegmentsUnmapped(d, b, first, stride, handles, k)
    ensures Unmap(b, Seg(first, stride, k), size, handles[k]).Some?
    ensures SegmentsUnmapped(d, Unmap(b, Seg(first, stride, k), size, handles[k]).value, first, stride, handles, k + 1)
  {
    hide Seg;
    var addr := Seg(first, stride, k);
    forall j: nat | j < k ensures Seg(first, stride, j) != addr {
      SegmentsApart(first, stride, size, j, k);
    }
    var e := Unmap(b, addr, size, handles[k]).value;
    hide IsSegment, SegmentsHeld;
    forall m: nat ensures m in e.mapped <==> m in d.mapped && !IsSegment(first, stride, k + 1, m) {
      SegmentStep(first, stride, k, m);
    }
  }

  lemma NothingUnmapped(d: Driver, first: nat, stride: nat, handles: seq<Mem>)
    ensures SegmentsUnmapped(d, d, first, stride, handles, 0)
  {
  }

  lemma {:induction false} UnmapSegmentsExact(d: Driver, first: nat, stride: nat, size: nat, handles: seq<Mem>, k: nat)
    requires k <= |handles| && SegmentsHeld(d, first, stride, size, handles)
    ensures UnmapSegments(d, first, stride, size, handles, k).Some?
    ensures SegmentsUnmapped(d, UnmapSegments(d, first, stride, size, handles, k).value, first, stride, handles, k)
  {
    hide Seg, SegmentsHeld, SegmentsUnmapped, Unmap;
    if k == 0 {
      NothingUnmapped(d, first, stride, handles);
    } else {
      UnmapSegmentsExact(d, first, stride, size, handles, k - 1);
      UnmapNext(d, UnmapSegments(d, first, stride, size, handles, k - 1).value, first, stride, size, handles, k - 1);
    }
  }
}
