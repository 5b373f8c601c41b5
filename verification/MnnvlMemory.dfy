/**
 `MnnvlMemory` on one rank: a bump allocator inside reserved regions, with a reference count per
 region.  `n` is the size of the communicator, which is also the number of segments per allocation.
 */
module MnnvlMemory {
  import opened Options
  import opened MnnvlDriver
  import Arith

  /** One entry of `allocated_map`. */
  datatype Alloc = Alloc(size: nat, handles: seq<Mem>, start: nat, stride: nat, offset: nat)

  /** The collective calls a rank makes on the communicator, in order. */
  datatype Collective = Split | GatherSize | GatherHandle | GatherPid

  /** What does not change over a run; each process finds out for itself how it exchanges handles. */
  datatype Config = Config(n: nat, granularity: nat, fabric: seq<bool>)

  datatype Rank = Rank(
    offset: nat, stride: nat, start: nat, hasComm: bool, fabric: bool,
    live: map<nat, Alloc>, refcnt: map<nat, nat>,
    driver: Driver, log: seq<Collective>)

  predicate ConfigOk(c: Config) {
    c.n > 0 && c.granularity > 0 && |c.fabric| == c.n
  }

  function AlignUp(size: nat, unit: nat): nat
    requires unit > 0
  {
    (size + unit - 1) / unit * unit
  }

  lemma AlignUpCovers(size: nat, unit: nat)
    requires unit > 0
    ensures AlignUp(size, unit) % unit == 0
    ensures size <= AlignUp(size, unit) < size + unit
  {
    var x := size + unit - 1;
    Arith.DivModDef(x, unit);
    Arith.DivModUnique(AlignUp(size, unit), unit, x / unit, 0);
  }

  /** `get_comm`: the split is collective and happens once. */
  function GetComm(r: Rank): Rank {
    if r.hasComm then r else r.(hasComm := true, log := r.log + [Split])
  }

  function RegionSize(c: Config, size: nat): nat {
    AlignUp(size, PAGE) * c.n
  }

  /** `new_mnnvl_memory_address`; `at` is the address the driver hands out. */
  function NewAddress(c: Config, r: Rank, size: nat, at: nat): Rank {
    var r1 := GetComm(r);
    r1.(start := at, stride := AlignUp(size, PAGE), offset := 0, driver := Reserve(r1.driver, at, RegionSize(c, size)))
  }

  predicate NeedsRegion(c: Config, r: Rank, size: nat)
    requires ConfigOk(c)
  {
    r.offset + AlignUp(size, c.granularity) > r.stride
  }

  function ExchangeCalls(fabric: bool): seq<Collective> {
    if fabric then [GatherHandle] else [GatherHandle, GatherPid]
  }

  function Count(refcnt: map<nat, nat>, s: nat): nat {
    if s in refcnt then refcnt[s] else 0
  }

  /** The part of `open_mnnvl_memory` after the region is settled; `None` is a failed assertion or driver call. */
  function Place(c: Config, r: Rank, aligned: nat, handles: seq<Mem>): Option<Rank>
    requires |handles| == c.n
  {
    if r.offset + aligned > r.stride then None
    else
      var d := MapSegments(r.driver, r.start + r.offset, r.stride, aligned, handles, c.n);
      if d.None? then None
      else
        Some(r.(driver := d.value,
                log := r.log + ExchangeCalls(r.fabric),
                live := r.live[r.start + r.offset := Alloc(aligned, handles, r.start, r.stride, r.offset)],
                refcnt := r.refcnt[r.start := Count(r.refcnt, r.start) + 1],
                offset := r.offset + aligned))
  }

  /** The part of `open_mnnvl_memory` that settles the region. */
  function Position(c: Config, r: Rank, size: nat, at: nat): Rank
    requires ConfigOk(c)
  {
    var r0 := GetComm(r);
    var r1 := r0.(log := r0.log + [GatherSize]);
    if NeedsRegion(c, r1, size) then NewAddress(c, r1, AlignUp(size, c.granularity), at) else r1
  }

  /** `open_mnnvl_memory` once the sizes are known to agree: `handles[j]` is what rank j exported. */
  function Open(c: Config, r: Rank, size: nat, handles: seq<Mem>, at: nat): Option<Rank>
    requires ConfigOk(c) && |handles| == c.n
  {
    Place(c, Position(c, r, size, at), AlignUp(size, c.granularity), handles)
  }

  datatype CloseResult = KeyError | Faulted | Closed(rank: Rank)

  /** The part of `close_mnnvl_memory` after the segments are unmapped. */
  function Drop(c: Config, r: Rank, ptr: nat, d: Driver): CloseResult
    requires ptr in r.live
  {
    var a := r.live[ptr];
    var r1 := r.(live := r.live - {ptr}, driver := d);
    if a.start !in r.refcnt || r.refcnt[a.start] == 0 then Faulted
    else if r.refcnt[a.start] > 1 then Closed(r1.(refcnt := r.refcnt[a.start := r.refcnt[a.start] - 1]))
    else
      var freed := Free(d, a.start, c.n * a.stride);
      if freed.None? then Faulted
      else
        var r2 := r1.(refcnt := r.refcnt - {a.start}, driver := freed.value);
        Closed(if a.start == r.start then r2.(start := 0, stride := 0, offset := 0) else r2)
  }

  /** `close_mnnvl_memory`: local to the rank. */
  function Close(c: Config, r: Rank, ptr: nat): CloseResult
    requires ptr in r.live ==> |r.live[ptr].handles| == c.n
  {
    if ptr !in r.live then KeyError
    else
      var a := r.live[ptr];
      var r0 := GetComm(r);
      var d := UnmapSegments(r0.driver, a.start + a.offset, a.stride, a.size, a.handles, c.n);
      if d.None? then Faulted else Drop(c, r0, ptr, d.value)
  }

  // ----- What every state keeps -----

  predicate RegionsOk(d: Driver) {
    && (forall s :: s in d.reserved ==> s > 0 && d.reserved[s] > 0)
    && (forall s, t :: s in d.reserved && t in d.reserved && s != t ==> Apart(s, d.reserved[s], t, d.reserved[t]))
  }

  predicate AllocOk(d: Driver, n: nat, p: nat, a: Alloc) {
    && p == a.start + a.offset && a.size > 0 && a.offset + a.size <= a.stride && |a.handles| == n
    && a.start in d.reserved && d.reserved[a.start] == n * a.stride && a.stride % PAGE == 0
  }

  predicate AllocsOk(d: Driver, n: nat, live: map<nat, Alloc>) {
    forall p :: p in live ==> AllocOk(d, n, p, live[p])
  }

  /** Allocations of one region lie at different offsets. */
  predicate OffsetsApart(a: Alloc, b: Alloc) {
    a.start == b.start ==> a.stride == b.stride && Apart(a.offset, a.size, b.offset, b.size)
  }

  predicate AllocsApart(live: map<nat, Alloc>) {
    forall p, q :: p in live && q in live && p != q ==> OffsetsApart(live[p], live[q])
  }

  function AllocSeg(a: Alloc, j: nat): nat {
    Seg(a.start + a.offset, a.stride, j)
  }

  /** Address `m` is where some segment of a live allocation begins. */
  ghost predicate Owned(live: map<nat, Alloc>, n: nat, m: nat) {
    exists p, j: nat :: p in live && j < n && m == AllocSeg(live[p], j)
  }

  /** Exactly the segments of the live allocations are mapped, segment j backed by handle j. */
  ghost predicate MappedExactly(d: Driver, n: nat, live: map<nat, Alloc>) {
    && (forall p, j: nat :: p in live && j < n && j < |live[p].handles| ==>
          AllocSeg(live[p], j) in d.mapped
          && d.mapped[AllocSeg(live[p], j)] == Mapped(live[p].size, live[p].handles[j]))
    && (forall m :: m in d.mapped ==> Owned(live, n, m))
  }

  function LiveIn(live: map<nat, Alloc>, s: nat): set<nat> {
    set p | p in live && live[p].start == s
  }

  /** Counts are the numbers of live allocations, and every region with one is counted. */
  predicate CountsOk(refcnt: map<nat, nat>, live: map<nat, Alloc>) {
    && (forall s :: s in refcnt ==> refcnt[s] == |LiveIn(live, s)| > 0)
    && (forall p :: p in live ==> live[p].start in refcnt)
  }

  /** The current region has room from `offset` on; no region is current when `start` is 0. */
  predicate CurrentOk(n: nat, r: Rank) {
    if r.start == 0 then r.stride == 0 && r.offset == 0
    else
      && r.start in r.driver.reserved && r.driver.reserved[r.start] == n * r.stride
      && r.offset <= r.stride && r.stride % PAGE == 0
      && (forall p :: p in r.live && r.live[p].start == r.start ==>
            r.live[p].stride == r.stride && r.live[p].offset + r.live[p].size <= r.offset)
  }

  /** All of the invariant but the claim that every reserved region is counted. */
  ghost predicate Mid(n: nat, r: Rank) {
    && RegionsOk(r.driver)
    && AllocsOk(r.driver, n, r.live)
    && AllocsApart(r.live)
    && MappedExactly(r.driver, n, r.live)
    && CountsOk(r.refcnt, r.live)
    && CurrentOk(n, r)
    && (r.hasComm || r.live == map[])
  }

  /** The invariant of a rank at rest. */
  ghost predicate RankInv(n: nat, r: Rank) {
    && Mid(n, r)
    && r.refcnt.Keys == r.driver.reserved.Keys
  }
}
