/**
 All ranks of one communicator.  Opens are collective: every rank creates memory, all handles are
 exchanged, and every rank maps all of them.  Closes are local, so ranks may drift apart: the same
 allocation can sit in different regions, at different offsets, on different ranks.
 */
module MnnvlSystem {
  import opened Options
  import opened MnnvlDriver
  import opened MnnvlMemory
  import opened MnnvlRank

  /** `sizes[o]` is the size requested in collective open number o. */
  datatype System = System(ranks: seq<Rank>, sizes: seq<nat>)

  datatype Step =
    | OpenAll(sizes: seq<nat>, ats: seq<nat>)
    | CloseOne(rank: nat, ptr: nat)

  /** The handles after the exchange: an exported handle imported elsewhere names the exporter's memory. */
  function Exchanged(n: nat, open: nat): (handles: seq<Mem>)
    ensures |handles| == n
  {
    seq(n, j requires 0 <= j < n => Mem(open, j))
  }

  function EmptyRank(fabric: bool): Rank {
    Rank(0, 0, 0, false, fabric, map[], map[], Driver(map[], map[]), [])
  }

  function Initial(c: Config): System
    requires ConfigOk(c)
  {
    System(seq(c.n, i requires 0 <= i < c.n => EmptyRank(c.fabric[i])), [])
  }

  predicate SameSizes(sizes: seq<nat>) {
    forall i, j :: 0 <= i < |sizes| && 0 <= j < |sizes| ==> sizes[i] == sizes[j]
  }

  /** Every rank runs the same open; `None` when an assertion or a driver call fails on some rank. */
  function OpenRanks(c: Config, ranks: seq<Rank>, size: nat, open: nat, ats: seq<nat>): Option<seq<Rank>>
    requires ConfigOk(c) && |ats| == |ranks|
  {
    if ranks == [] then Some([])
    else
      var k := |ranks| - 1;
      var init := OpenRanks(c, ranks[..k], size, open, ats[..k]);
      var last := Open(c, ranks[k], size, Exchanged(c.n, open), ats[k]);
      if init.None? || last.None? then None else Some(init.value + [last.value])
  }

  /** Collective calls pair up only when all ranks make the same ones in the same order. */
  predicate SameLogs(ranks: seq<Rank>) {
    forall i, j :: 0 <= i < |ranks| && 0 <= j < |ranks| ==> ranks[i].log == ranks[j].log
  }

  /** `None` also when a collective call is left without partners. */
  function Next(c: Config, s: System, step: Step): Option<System>
    requires ConfigOk(c)
  {
    match step
    case OpenAll(sizes, ats) =>
      if |sizes| != |s.ranks| || |ats| != |s.ranks| || sizes == [] || !SameSizes(sizes) then None
      else
        var ranks := OpenRanks(c, s.ranks, sizes[0], |s.sizes|, ats);
        if ranks.None? || !SameLogs(ranks.value) then None else Some(System(ranks.value, s.sizes + [sizes[0]]))
    case CloseOne(i, ptr) =>
      if i >= |s.ranks| || (ptr in s.ranks[i].live && |s.ranks[i].live[ptr].handles| != c.n) then None
      else
        match Close(c, s.ranks[i], ptr)
        case Closed(r) => Some(s.(ranks := s.ranks[i := r]))
        case _ => None
  }

  /** What callers and the driver promise: agreed positive sizes, fresh reservations, closes of live pointers. */
  predicate Allowed(c: Config, s: System, step: Step)
    requires ConfigOk(c)
  {
    match step
    case OpenAll(sizes, ats) =>
      && |sizes| == |s.ranks| && |ats| == |s.ranks| && SameSizes(sizes)
      && (forall i :: 0 <= i < |s.ranks| ==> sizes[i] > 0 && GoodAddress(c, s.ranks[i], sizes[i], ats[i]))
    case CloseOne(i, ptr) => i < |s.ranks| && ptr in s.ranks[i].live
  }

  // ----- What every state of the system keeps -----

  /** The allocation was made in one collective open, and segment j is what rank j created in it. */
  predicate FromOneOpen(c: Config, sizes: seq<nat>, a: Alloc)
    requires ConfigOk(c)
  {
    && |a.handles| == c.n
    && a.handles[0].open < |sizes|
    && a.handles == Exchanged(c.n, a.handles[0].open)
    && a.size == AlignUp(sizes[a.handles[0].open], c.granularity)
  }

  predicate RankFromOpens(c: Config, sizes: seq<nat>, r: Rank)
    requires ConfigOk(c)
  {
    && (forall p :: p in r.live ==> FromOneOpen(c, sizes, r.live[p]))
    && (forall p, q :: p in r.live && q in r.live && p != q ==> r.live[p].handles != r.live[q].handles)
  }

  /** The collective calls of a process over its first k opens. */
  function Calls(fabric: bool, k: nat): seq<Collective> {
    if k == 0 then []
    else (if k == 1 then [Split] else Calls(fabric, k - 1)) + [GatherSize] + ExchangeCalls(fabric)
  }

  /** Two processes make the same calls exactly when they exchange handles the same way, or have not opened anything. */
  lemma CallsAgreeIff(f: bool, g: bool, k: nat)
    ensures Calls(f, k) == Calls(g, k) <==> k == 0 || f == g
  {
    CallsCount(f, k);
    CallsCount(g, k);
  }

  lemma {:induction false} CallsCount(fabric: bool, k: nat)
    ensures |Calls(fabric, k)| == if k == 0 then 0 else 1 + (if fabric then 2 * k else 3 * k)
  {
    if k > 1 {
      CallsCount(fabric, k - 1);
    }
  }

  /** All processes exchange handles the same way. */
  predicate SameFlags(c: Config) {
    forall i, j :: 0 <= i < |c.fabric| && 0 <= j < |c.fabric| ==> c.fabric[i] == c.fabric[j]
  }

  /** What rank i has called, after k opens. */
  predicate CallsOk(c: Config, k: nat, r: Rank, i: nat)
    requires i < |c.fabric|
  {
    r.fabric == c.fabric[i] && r.log == Calls(r.fabric, k) && (r.hasComm <==> k > 0)
  }

  ghost predicate SysInv(c: Config, s: System)
    requires ConfigOk(c)
  {
    && |s.ranks| == c.n
    && (forall i :: 0 <= i < c.n ==>
          RankInv(c.n, s.ranks[i]) && RankFromOpens(c, s.sizes, s.ranks[i]) && CallsOk(c, |s.sizes|, s.ranks[i], i))
    && SameLogs(s.ranks)
  }

  lemma EmptyRankInv(n: nat, fabric: bool)
    ensures RankInv(n, EmptyRank(fabric))
  {
  }

  lemma InitialInv(c: Config)
    requires ConfigOk(c)
    ensures SysInv(c, Initial(c))
  {
    hide RankInv;
    EmptyRankInv(c.n, true);
    EmptyRankInv(c.n, false);
  }

  // ----- Opening on all ranks -----

  lemma {:induction false} OpenRanksEach(c: Config, ranks: seq<Rank>, size: nat, open: nat, ats: seq<nat>)
    requires ConfigOk(c) && |ats| == |ranks| && size > 0
    requires forall i :: 0 <= i < |ranks| ==> RankInv(c.n, ranks[i]) && GoodAddress(c, ranks[i], size, ats[i])
    ensures match OpenRanks(c, ranks, size, open, ats)
            case None => false
            case Some(ranks') =>
              && |ranks'| == |ranks|
              && (forall i :: 0 <= i < |ranks| ==>
                    Open(c, ranks[i], size, Exchanged(c.n, open), ats[i]) == Some(ranks'[i]))
  {
    hide RankInv, GoodAddress, Open, Exchanged, OpenPtr;
    if ranks != [] {
      var k := |ranks| - 1;
      OpenRanksEach(c, ranks[..k], size, open, ats[..k]);
      OpenInv(c, ranks[k], size, Exchanged(c.n, open), ats[k]);
    }
  }

  /** The collective calls of an open depend on nothing but whether the communicator existed. */
  lemma OpenLog(c: Config, r: Rank, size: nat, handles: seq<Mem>, at: nat)
    requires ConfigOk(c) && |handles| == c.n
    ensures match Open(c, r, size, handles, at)
            case None => true
            case Some(r') =>
              && r'.hasComm && r'.fabric == r.fabric
              && r'.log == r.log + (if r.hasComm then [] else [Split]) + [GatherSize] + ExchangeCalls(r.fabric)
  {
    hide AlignUp, MapSegments;
  }

  lemma OpenFromOneOpen(c: Config, sizes: seq<nat>, size: nat, r: Rank, r': Rank, at: nat)
    requires ConfigOk(c) && RankInv(c.n, r) && RankFromOpens(c, sizes, r) && size > 0
    requires GoodAddress(c, r, size, at) && Open(c, r, size, Exchanged(c.n, |sizes|), at) == Some(r')
    ensures RankInv(c.n, r') && RankFromOpens(c, sizes + [size], r')
  {
    hide RankInv, GoodAddress, Open, AlignUp, Position, OpenPtr;
    var handles := Exchanged(c.n, |sizes|);
    OpenInv(c, r, size, handles, at);
    var ptr := OpenPtr(c, r, size, at);
    forall p | p in r'.live ensures FromOneOpen(c, sizes + [size], r'.live[p]) {
      if p != ptr { assert FromOneOpen(c, sizes, r.live[p]); }
    }
    forall p, q | p in r'.live && q in r'.live && p != q ensures r'.live[p].handles != r'.live[q].handles {
      if p == ptr {
        assert FromOneOpen(c, sizes, r.live[q]);
      } else if q == ptr {
        assert FromOneOpen(c, sizes, r.live[p]);
      }
    }
  }

  lemma OpenCalls(c: Config, r: Rank, r': Rank, i: nat, k: nat, size: nat, handles: seq<Mem>, at: nat)
    requires ConfigOk(c) && |handles| == c.n && i < c.n && CallsOk(c, k, r, i)
    requires Open(c, r, size, handles, at) == Some(r')
    ensures CallsOk(c, k + 1, r', i)
  {
    hide Open;
    OpenLog(c, r, size, handles, at);
  }

  lemma SameLogsIff(c: Config, ranks: seq<Rank>, k: nat)
    requires ConfigOk(c) && |ranks| == c.n && k > 0 && forall i :: 0 <= i < c.n ==> CallsOk(c, k, ranks[i], i)
    ensures SameLogs(ranks) <==> SameFlags(c)
  {
    hide Calls;
    forall i, j | 0 <= i < c.n && 0 <= j < c.n
      ensures ranks[i].log == ranks[j].log <==> c.fabric[i] == c.fabric[j]
    {
      CallsAgreeIff(c.fabric[i], c.fabric[j], k);
    }
  }

  /** A collective open completes exactly when all processes exchange handles the same way. */
  lemma OpenAllInv(c: Config, s: System, sizes: seq<nat>, ats: seq<nat>)
    requires ConfigOk(c) && SysInv(c, s) && Allowed(c, s, OpenAll(sizes, ats))
    ensures Next(c, s, OpenAll(sizes, ats)).Some? <==> SameFlags(c)
    ensures Next(c, s, OpenAll(sizes, ats)).Some? ==> SysInv(c, Next(c, s, OpenAll(sizes, ats)).value)
  {
    hide RankInv, GoodAddress, Open, RankFromOpens, Exchanged, OpenRanks, CallsOk, SameLogs, SameFlags;
    var size := sizes[0];
    OpenRanksEach(c, s.ranks, size, |s.sizes|, ats);
    var ranks := OpenRanks(c, s.ranks, size, |s.sizes|, ats).value;
    forall i | 0 <= i < c.n
      ensures RankInv(c.n, ranks[i]) && RankFromOpens(c, s.sizes + [size], ranks[i])
      ensures CallsOk(c, |s.sizes| + 1, ranks[i], i)
    {
      OpenFromOneOpen(c, s.sizes, size, s.ranks[i], ranks[i], ats[i]);
      OpenCalls(c, s.ranks[i], ranks[i], i, |s.sizes|, size, Exchanged(c.n, |s.sizes|), ats[i]);
    }
    SameLogsIff(c, ranks, |s.sizes| + 1);
  }

  // ----- Closing on one rank -----

  lemma CloseOneInv(c: Config, s: System, i: nat, ptr: nat)
    requires ConfigOk(c) && SysInv(c, s) && Allowed(c, s, CloseOne(i, ptr))
    ensures Next(c, s, CloseOne(i, ptr)).Some? && SysInv(c, Next(c, s, CloseOne(i, ptr)).value)
  {
    hide RankInv, Close;
    CloseInv(c, s.ranks[i], ptr);
    CloseComm(c, s.ranks[i], ptr);
    var s' := Next(c, s, CloseOne(i, ptr)).value;
    hide FromOneOpen;
    assert RankFromOpens(c, s'.sizes, s'.ranks[i]);
  }

  lemma CloseComm(c: Config, r: Rank, ptr: nat)
    requires ConfigOk(c) && RankInv(c.n, r) && ptr in r.live && |r.live[ptr].handles| == c.n
    ensures Close(c, r, ptr).Closed? ==>
              var r' := Close(c, r, ptr).rank; r'.hasComm == r.hasComm && r'.fabric == r.fabric && r'.log == r.log
  {
    hide MappedExactly, CountsOk, AllocsOk, AllocsApart, RegionsOk, CurrentOk, UnmapSegments, Free;
  }

  // ----- Runs -----

  predicate Completes(c: Config, step: Step) {
    step.OpenAll? ==> SameFlags(c)
  }

  /** Every allowed close completes, every allowed open exactly when the flags agree, and both keep the invariant. */
  lemma StepInv(c: Config, s: System, step: Step)
    requires ConfigOk(c) && SysInv(c, s) && Allowed(c, s, step)
    ensures Next(c, s, step).Some? <==> Completes(c, step)
    ensures Next(c, s, step).Some? ==> SysInv(c, Next(c, s, step).value)
  {
    hide SysInv, Next, Allowed, SameFlags;
    match step
    case OpenAll(sizes, ats) => OpenAllInv(c, s, sizes, ats);
    case CloseOne(i, ptr) => CloseOneInv(c, s, i, ptr);
  }

  function Run(c: Config, s: System, steps: seq<Step>): Option<System>
    requires ConfigOk(c)
    decreases steps
  {
    if steps == [] then Some(s)
    else
      var s' := Next(c, s, steps[0]);
      if s'.None? then None else Run(c, s'.value, steps[1..])
  }

  /** Each step is allowed in the state it is taken in. */
  predicate AllowedRun(c: Config, s: System, steps: seq<Step>)
    requires ConfigOk(c)
    decreases steps
  {
    steps == []
    || (Allowed(c, s, steps[0]) && (Next(c, s, steps[0]).Some? ==> AllowedRun(c, Next(c, s, steps[0]).value, steps[1..])))
  }

  lemma {:induction false} RunInv(c: Config, s: System, steps: seq<Step>)
    requires ConfigOk(c) && SysInv(c, s) && AllowedRun(c, s, steps)
    ensures Run(c, s, steps).Some? <==> forall k :: 0 <= k < |steps| ==> Completes(c, steps[k])
    ensures Run(c, s, steps).Some? ==> SysInv(c, Run(c, s, steps).value)
    decreases steps
  {
    hide SysInv, Next, Allowed, Completes;
    if steps != [] {
      StepInv(c, s, steps[0]);
      if Completes(c, steps[0]) {
        var rest := steps[1..];
        RunInv(c, Next(c, s, steps[0]).value, rest);
        assert forall k :: 0 < k < |steps| ==> steps[k] == rest[k - 1];
        assert forall k :: 0 <= k < |rest| ==> rest[k] == steps[k + 1];
      }
    }
  }

  /**
   Over every run of opens and closes, in every interleaving, no assertion and no driver call fails and
   no collective call is left without partners, exactly when all processes exchange handles the same
   way (or nothing is opened at all); the invariant holds at the end.
   */
  lemma RunSafe(c: Config, steps: seq<Step>)
    requires ConfigOk(c) && AllowedRun(c, Initial(c), steps)
    ensures Run(c, Initial(c), steps).Some? <==> steps == [] || SameFlags(c)
    ensures Run(c, Initial(c), steps).Some? ==> SysInv(c, Run(c, Initial(c), steps).value)
  {
    hide SysInv, Run, SameFlags;
    InitialInv(c);
    RunInv(c, Initial(c), steps);
    if steps != [] {
      assert Allowed(c, Initial(c), steps[0]);
      assert steps[0].OpenAll?;
    }
  }
}
