/** The allocator never gets stuck: from every reachable state another open can complete on all ranks. */
module MnnvlProgress {
  import opened Options
  import opened MnnvlDriver
  import opened MnnvlMemory
  import opened MnnvlRank
  import opened MnnvlSystem
  import opened MnnvlGuarantees
  import Arith

  lemma {:induction false} EndOfRegions(reserved: map<nat, nat>) returns (b: nat)
    ensures forall s :: s in reserved ==> s + reserved[s] <= b
    decreases |reserved|
  {
    if reserved == map[] {
      b := 0;
    } else {
      var s :| s in reserved;
      var rest := reserved - {s};
      assert rest.Keys == reserved.Keys - {s} && |rest| < |reserved|;
      var e := EndOfRegions(rest);
      b := if e < s + reserved[s] then s + reserved[s] else e;
      forall t | t in reserved ensures t + reserved[t] <= b {
        assert t == s || t in rest;
      }
    }
  }

  /** However many regions are reserved, the driver can still hand out a range apart from them. */
  lemma FreshAddress(d: Driver, size: nat) returns (at: nat)
    ensures Fresh(d, at, size)
  {
    var b := EndOfRegions(d.reserved);
    at := (b + 1) * PAGE;
    Arith.MulMonotone(1, PAGE, b + 1);
    Arith.DivModUnique(at, PAGE, b + 1, 0);
    assert at == PAGE * (b + 1) && at >= b + 1;
  }

  lemma {:induction false} GoodAddresses(c: Config, ranks: seq<Rank>, size: nat) returns (ats: seq<nat>)
    requires ConfigOk(c)
    ensures |ats| == |ranks| && forall i :: 0 <= i < |ranks| ==> GoodAddress(c, ranks[i], size, ats[i])
    decreases |ranks|
  {
    hide Fresh, NeedsRegion, RegionSize;
    if ranks == [] {
      ats := [];
    } else {
      var k := |ranks| - 1;
      var init := GoodAddresses(c, ranks[..k], size);
      var at := FreshAddress(ranks[k].driver, RegionSize(c, AlignUp(size, c.granularity)));
      ats := init + [at];
    }
  }

  lemma {:induction false} RunLonger(c: Config, s: System, steps: seq<Step>, step: Step)
    requires ConfigOk(c) && AllowedRun(c, s, steps) && Run(c, s, steps).Some?
    requires Allowed(c, Run(c, s, steps).value, step)
    ensures AllowedRun(c, s, steps + [step])
    ensures Run(c, s, steps + [step]) == Next(c, Run(c, s, steps).value, step)
    decreases steps
  {
    hide Next, Allowed;
    var all := steps + [step];
    if steps == [] {
      assert all[0] == step && all[1..] == [];
    } else {
      assert all[0] == steps[0] && all[1..] == steps[1..] + [step];
      RunLonger(c, Next(c, s, steps[0]).value, steps[1..], step);
    }
  }

  /** From every reachable state, any positive size can be opened: every rank gains exactly one live allocation. */
  lemma OpenAlwaysPossible(c: Config, s: System, size: nat) returns (s': System)
    requires ConfigOk(c) && SameFlags(c) && Reachable(c, s) && size > 0
    ensures Reachable(c, s') && |s.ranks| == |s'.ranks| == c.n && s'.sizes == s.sizes + [size]
    ensures forall i :: 0 <= i < c.n ==>
              s.ranks[i].live.Keys < s'.ranks[i].live.Keys && |s'.ranks[i].live| == |s.ranks[i].live| + 1
  {
    hide AllowedRun, Run, RankInv, RankFromOpens, GoodAddress, Open, Exchanged, CallsOk, SameLogs, SameFlags;
    ReachableInv(c, s);
    var ats := GoodAddresses(c, s.ranks, size);
    var sizes := seq(c.n, i requires 0 <= i < c.n => size);
    var step := OpenAll(sizes, ats);
    assert Allowed(c, s, step);
    StepInv(c, s, step);
    s' := Next(c, s, step).value;
    var steps :| AllowedRun(c, Initial(c), steps) && Run(c, Initial(c), steps) == Some(s);
    RunLonger(c, Initial(c), steps, step);
    OpenRanksEach(c, s.ranks, size, |s.sizes|, ats);
    forall i | 0 <= i < c.n
      ensures s.ranks[i].live.Keys < s'.ranks[i].live.Keys && |s'.ranks[i].live| == |s.ranks[i].live| + 1
    {
      OneMoreLive(c, s.ranks[i], size, Exchanged(c.n, |s.sizes|), ats[i]);
    }
  }

  lemma OneMoreLive(c: Config, r: Rank, size: nat, handles: seq<Mem>, at: nat)
    requires ConfigOk(c) && RankInv(c.n, r) && |handles| == c.n && size > 0 && GoodAddress(c, r, size, at)
    ensures match Open(c, r, size, handles, at)
            case None => false
            case Some(r') => r.live.Keys < r'.live.Keys && |r'.live| == |r.live| + 1
  {
    hide RankInv, GoodAddress, Open, OpenPtr, NextAlloc, Position, AlignUp;
    OpenInv(c, r, size, handles, at);
    var r' := Open(c, r, size, handles, at).value;
    var p := OpenPtr(c, r, size, at);
    assert r'.live.Keys == r.live.Keys + {p};
  }

  /** Every communicator starts from a reachable state with nothing allocated. */
  lemma StartIsReachable(c: Config)
    requires ConfigOk(c)
    ensures Reachable(c, Initial(c))
  {
    hide Initial;
    assert AllowedRun(c, Initial(c), []) && Run(c, Initial(c), []) == Some(Initial(c));
  }

  /** Any list of positive sizes can be opened one after another, without a close: all of them stay live on every rank. */
  lemma {:induction false} ManyOpens(c: Config, sizes: seq<nat>) returns (s: System)
    requires ConfigOk(c) && SameFlags(c) && forall k :: 0 <= k < |sizes| ==> sizes[k] > 0
    ensures Reachable(c, s) && |s.ranks| == c.n && s.sizes == sizes
    ensures forall i :: 0 <= i < c.n ==> |s.ranks[i].live| == |sizes|
    decreases |sizes|
  {
    hide Reachable, SameFlags;
    if sizes == [] {
      StartIsReachable(c);
      s := Initial(c);
    } else {
      var k := |sizes| - 1;
      var before := ManyOpens(c, sizes[..k]);
      s := OpenAlwaysPossible(c, before, sizes[k]);
      assert sizes[..k] + [sizes[k]] == sizes;
    }
  }
}
