/** The allocator as a mutable object, with one loop over the ranks per open and per close. */
module MnnvlObject {
  import opened Options
  import opened MnnvlDriver
  import opened MnnvlMemory
  import opened MnnvlRank

  class MnnvlMemoryObject {
    const config: Config
    const fabric: bool
    var currentMemOffset: nat
    var currentRankStride: nat
    var currentStartAddress: nat
    var hasComm: bool
    var allocatedMap: map<nat, Alloc>
    var addressRefcnt: map<nat, nat>
    var driver: Driver
    var log: seq<Collective>

    constructor (config: Config, fabric: bool)
      requires ConfigOk(config)
      ensures this.config == config && this.fabric == fabric && RankInv(config.n, State())
    {
      this.config, this.fabric := config, fabric;
      currentMemOffset, currentRankStride, currentStartAddress := 0, 0, 0;
      hasComm := false;
      allocatedMap, addressRefcnt := map[], map[];
      driver := Driver(map[], map[]);
      log := [];
    }

    function State(): Rank
      reads this
    {
      Rank(currentMemOffset, currentRankStride, currentStartAddress, hasComm, fabric,
           allocatedMap, addressRefcnt, driver, log)
    }

    method EnsureComm()
      modifies this
      ensures State() == GetComm(old(State()))
    {
      if !hasComm {
        hasComm := true;
        log := log + [Split];
      }
    }

    method NewMnnvlMemoryAddress(size: nat, at: nat)
      modifies this
      ensures State() == NewAddress(config, old(State()), size, at)
    {
      var stride := AlignUp(size, PAGE);
      EnsureComm();
      driver := Reserve(driver, at, stride * config.n);
      currentStartAddress := at;
      currentRankStride := stride;
      currentMemOffset := 0;
    }

    /** Maps one segment per rank; stops at the first driver fault. */
    method MapAll(aligned: nat, handles: seq<Mem>) returns (ok: bool)
      requires |handles| == config.n
      modifies this`driver
      ensures var d := MapSegments(old(driver), currentStartAddress + currentMemOffset, currentRankStride, aligned,
                                   handles, config.n);
        ok == d.Some? && (ok ==> driver == d.value)
    {
      ghost var start := driver;
      ghost var first := currentStartAddress + currentMemOffset;
      var i := 0;
      while i < |handles|
        invariant 0 <= i <= |handles|
        invariant MapSegments(start, first, currentRankStride, aligned, handles, i) == Some(driver)
      {
        var rankPtr := currentStartAddress + currentRankStride * i + currentMemOffset;
        assert rankPtr == Seg(first, currentRankStride, i);
        var mapped := Map(driver, rankPtr, aligned, handles[i]);
        if mapped.None? {
          MapFails(start, first, currentRankStride, aligned, handles, i + 1);
          return false;
        }
        driver := mapped.value;
        i := i + 1;
      }
      return true;
    }

    /** The first half of `open_mnnvl_memory`: communicator, size exchange, region. */
    method SettleRegion(size: nat, at: nat)
      requires ConfigOk(config)
      modifies this
      ensures State() == Position(config, old(State()), size, at)
    {
      hide AlignUp;
      EnsureComm();
      log := log + [GatherSize];
      var aligned := AlignUp(size, config.granularity);
      if currentMemOffset + aligned > currentRankStride {
        NewMnnvlMemoryAddress(aligned, at);
      }
    }

    /** The second half: handle exchange, mapping, book-keeping. */
    method PlaceSegments(aligned: nat, handles: seq<Mem>) returns (ok: bool, ptr: nat, stride: nat)
      requires |handles| == config.n
      modifies this
      ensures ok <==> Place(config, old(State()), aligned, handles).Some?
      ensures ok ==>
                && State() == Place(config, old(State()), aligned, handles).value
                && ptr == old(currentStartAddress + currentMemOffset) && stride == old(currentRankStride)
    {
      ptr := currentStartAddress + currentMemOffset;
      stride := currentRankStride;
      if currentMemOffset + aligned > currentRankStride {
        return false, ptr, stride;
      }
      log := log + ExchangeCalls(fabric);
      ok := MapAll(aligned, handles);
      if !ok {
        return;
      }
      allocatedMap := allocatedMap[ptr := Alloc(aligned, handles, currentStartAddress, currentRankStride, currentMemOffset)];
      addressRefcnt := addressRefcnt[currentStartAddress := Count(addressRefcnt, currentStartAddress) + 1];
      currentMemOffset := currentMemOffset + aligned;
    }

    /** `open_mnnvl_memory` on one rank, after the sizes were found equal; returns pointer and stride. */
    method Open(size: nat, handles: seq<Mem>, at: nat) returns (ok: bool, ptr: nat, stride: nat)
      requires ConfigOk(config) && |handles| == config.n && size > 0
      requires RankInv(config.n, State()) && GoodAddress(config, State(), size, at)
      modifies this
      ensures ok && MnnvlMemory.Open(config, old(State()), size, handles, at) == Some(State())
      ensures RankInv(config.n, State())
      ensures ptr !in old(allocatedMap)
      ensures allocatedMap == old(allocatedMap)[ptr := NextAlloc(Position(config, old(State()), size, at),
                                                               AlignUp(size, config.granularity), handles)]
      ensures allocatedMap[ptr].stride == stride
    {
      hide RankInv, GoodAddress, AlignUp, Mid, Place, NeedsRegion;
      OpenInv(config, State(), size, handles, at);
      PositionMid(config, State(), size, at);
      SettleRegion(size, at);
      hide Position, OpenPtr;
      ok, ptr, stride := PlaceSegments(AlignUp(size, config.granularity), handles);
    }

    method UnmapAll(a: Alloc) returns (ok: bool)
      requires |a.handles| == config.n
      modifies this`driver
      ensures var d := UnmapSegments(old(driver), a.start + a.offset, a.stride, a.size, a.handles, config.n);
        ok == d.Some? && (ok ==> driver == d.value)
    {
      ghost var start := driver;
      var i := 0;
      while i < config.n
        invariant 0 <= i <= config.n
        invariant UnmapSegments(start, a.start + a.offset, a.stride, a.size, a.handles, i) == Some(driver)
      {
        var rankPtr := a.start + i * a.stride + a.offset;
        assert rankPtr == Seg(a.start + a.offset, a.stride, i);
        var unmapped := Unmap(driver, rankPtr, a.size, a.handles[i]);
        if unmapped.None? {
          UnmapFails(start, a.start + a.offset, a.stride, a.size, a.handles, i + 1);
          return false;
        }
        driver := unmapped.value;
        i := i + 1;
      }
      return true;
    }

    /** `close_mnnvl_memory`; closing an unknown pointer is a key error and changes nothing. */
    method Close(ptr: nat) returns (r: CloseResult)
      requires ConfigOk(config) && RankInv(config.n, State())
      modifies this
      ensures ptr !in old(allocatedMap) ==> r == KeyError && State() == old(State())
      ensures ptr in old(allocatedMap) ==>
                && |old(allocatedMap)[ptr].handles| == config.n
                && r == Closed(State()) && r == MnnvlMemory.Close(config, old(State()), ptr)
      ensures RankInv(config.n, State())
    {
      hide RankInv;
      if ptr !in allocatedMap {
        return KeyError;
      }
      CloseInv(config, State(), ptr);
      var a := allocatedMap[ptr];
      allocatedMap := allocatedMap - {ptr};
      EnsureComm();
      var ok := UnmapAll(a);
      if addressRefcnt[a.start] > 1 {
        addressRefcnt := addressRefcnt[a.start := addressRefcnt[a.start] - 1];
      } else {
        addressRefcnt := addressRefcnt - {a.start};
        var freed := Free(driver, a.start, config.n * a.stride);
        driver := freed.value;
        if a.start == currentStartAddress {
          currentStartAddress := 0;
          currentRankStride := 0;
          currentMemOffset := 0;
        }
      }
      r := Closed(State());
    }
  }

  lemma {:induction false} MapFails(d: Driver, first: nat, stride: nat, size: nat, handles: seq<Mem>, k: nat)
    requires k <= |handles| && MapSegments(d, first, stride, size, handles, k).None?
    ensures MapSegments(d, first, stride, size, handles, |handles|).None?
    decreases |handles| - k
  {
    if k < |handles| {
      MapFails(d, first, stride, size, handles, k + 1);
    }
  }

  lemma {:induction false} UnmapFails(d: Driver, first: nat, stride: nat, size: nat, handles: seq<Mem>, k: nat)
    requires k <= |handles| && UnmapSegments(d, first, stride, size, handles, k).None?
    ensures UnmapSegments(d, first, stride, size, handles, |handles|).None?
    decreases |handles| - k
  {
    if k < |handles| {
      UnmapFails(d, first, stride, size, handles, k + 1);
    }
  }
}
