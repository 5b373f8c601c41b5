/** `_UniqueNameGenerator`: names for layers, unique over any run of calls. */
module UniqueNames {
  import opened Decimal

  datatype Request = Request(key: string, moduleName: string)

  /** `module_name.replace(".", "/")`. */
  function Slashed(s: string): (r: string)
    ensures |r| == |s| && '.' !in r && forall i :: 0 <= i < |s| && r[i] != s[i] ==> s[i] == '.' && r[i] == '/'
  {
    seq(|s|, i requires 0 <= i < |s| => if s[i] == '.' then '/' else s[i])
  }

  function FullKey(r: Request): string {
    if r.moduleName == "" then r.key else Slashed(r.moduleName) + "/" + r.key
  }

  function Name(prefix: string, key: string, n: nat): string {
    prefix + key + "_" + Str(n)
  }

  function Count(ids: map<string, nat>, key: string): nat {
    if key in ids then ids[key] else 0
  }

  /** The names a run of calls returns, starting from the counters `ids`. */
  function Issued(prefix: string, ids: map<string, nat>, calls: seq<Request>): (names: seq<string>)
    ensures |names| == |calls|
    decreases calls
  {
    if calls == [] then []
    else
      var key := FullKey(calls[0]);
      [Name(prefix, key, Count(ids, key))] + Issued(prefix, ids[key := Count(ids, key) + 1], calls[1..])
  }

  /** The last underscore separates key and number, whatever the key contains. */
  lemma NameInjective(prefix: string, k1: string, n1: nat, k2: string, n2: nat)
    requires Name(prefix, k1, n1) == Name(prefix, k2, n2)
    ensures k1 == k2 && n1 == n2
  {
    var a, b := prefix + k1, prefix + k2;
    var s := Name(prefix, k1, n1);
    assert s == a + "_" + Str(n1) == b + "_" + Str(n2);
    StrDigits(n1);
    StrDigits(n2);
    assert s[|a|] == '_' && s[|b|] == '_';
    assert forall i :: |a| < i < |s| ==> IsDigit(s[i]);
    assert forall i :: |b| < i < |s| ==> IsDigit(s[i]);
    assert s[..|a|] == a && s[..|b|] == b;
    assert s[|a| + 1..] == Str(n1) && s[|b| + 1..] == Str(n2);
    assert a[|prefix|..] == k1 && b[|prefix|..] == k2;
    StrInjective(n1, n2);
  }

  /** How many of the first `i` calls resolve to `key`. */
  function Earlier(calls: seq<Request>, key: string, i: nat): nat
    requires i <= |calls|
  {
    if i == 0 then 0
    else (if FullKey(calls[0]) == key then 1 else 0) + Earlier(calls[1..], key, i - 1)
  }

  /** The i-th name carries its own key and the number of earlier calls with that key. */
  lemma {:induction false} IssuedAt(prefix: string, ids: map<string, nat>, calls: seq<Request>, i: nat)
    requires i < |calls|
    ensures Issued(prefix, ids, calls)[i]
         == Name(prefix, FullKey(calls[i]), Count(ids, FullKey(calls[i])) + Earlier(calls, FullKey(calls[i]), i))
    decreases calls
  {
    hide Name, FullKey;
    if i > 0 {
      var key, later := FullKey(calls[0]), FullKey(calls[i]);
      assert calls[1..][i - 1] == calls[i];
      IssuedAt(prefix, ids[key := Count(ids, key) + 1], calls[1..], i - 1);
      assert Earlier(calls, later, i) == (if key == later then 1 else 0) + Earlier(calls[1..], later, i - 1);
    }
  }

  lemma {:induction false} EarlierGrows(calls: seq<Request>, i: nat, j: nat)
    requires i < j <= |calls|
    ensures Earlier(calls, FullKey(calls[i]), i) < Earlier(calls, FullKey(calls[i]), j)
    decreases calls
  {
    if i > 0 {
      EarlierGrows(calls[1..], i - 1, j - 1);
    }
  }

  /** Over any run of calls, with any keys and module names, no name is returned twice. */
  lemma IssuedDistinct(prefix: string, ids: map<string, nat>, calls: seq<Request>, i: nat, j: nat)
    requires i < j < |calls|
    ensures Issued(prefix, ids, calls)[i] != Issued(prefix, ids, calls)[j]
  {
    IssuedAt(prefix, ids, calls, i);
    IssuedAt(prefix, ids, calls, j);
    var ki, kj := FullKey(calls[i]), FullKey(calls[j]);
    if Issued(prefix, ids, calls)[i] == Issued(prefix, ids, calls)[j] {
      NameInjective(prefix, ki, Count(ids, ki) + Earlier(calls, ki, i), kj, Count(ids, kj) + Earlier(calls, kj, j));
      EarlierGrows(calls, i, j);
    }
  }

  /** The earlier calls of a run that resolve to the same key. */
  function SameKey(calls: seq<Request>, i: nat): set<nat>
    requires i < |calls|
  {
    set j: nat | j < i && FullKey(calls[j]) == FullKey(calls[i])
  }

  lemma {:induction false} EarlierLast(calls: seq<Request>, key: string, i: nat)
    requires i < |calls|
    ensures Earlier(calls, key, i + 1) == Earlier(calls, key, i) + (if FullKey(calls[i]) == key then 1 else 0)
    decreases calls
  {
    hide FullKey;
    if i > 0 {
      EarlierLast(calls[1..], key, i - 1);
    }
  }

  /** The first i calls that resolve to `key`. */
  function WithKey(calls: seq<Request>, key: string, i: nat): set<nat>
    requires i <= |calls|
  {
    set j: nat | j < i && FullKey(calls[j]) == key
  }

  lemma WithKeyLast(calls: seq<Request>, key: string, i: nat)
    requires i < |calls|
    ensures WithKey(calls, key, i + 1) == WithKey(calls, key, i) + (if FullKey(calls[i]) == key then {i} else {})
    ensures i !in WithKey(calls, key, i)
  {
    hide FullKey;
  }

  lemma {:induction false} EarlierCounts(calls: seq<Request>, key: string, i: nat)
    requires i <= |calls|
    ensures Earlier(calls, key, i) == |WithKey(calls, key, i)|
    decreases i
  {
    hide FullKey;
    if i > 0 {
      hide WithKey, Earlier;
      EarlierCounts(calls, key, i - 1);
      EarlierLast(calls, key, i - 1);
      WithKeyLast(calls, key, i - 1);
    }
  }

  /** The i-th name of a generator, written out: its key is numbered by the earlier calls of the same key. */
  lemma IssuedWrittenOut(prefix: string, calls: seq<Request>, i: nat)
    requires i < |calls|
    ensures var r := calls[i];
            Issued(prefix, map[], calls)[i] ==
              prefix + (if r.moduleName == "" then r.key else Slashed(r.moduleName) + "/" + r.key) + "_"
              + Str(|SameKey(calls, i)|)
  {
    hide Str, Slashed;
    IssuedAt(prefix, map[], calls, i);
    EarlierCounts(calls, FullKey(calls[i]), i);
  }

  /** The counters after a run of calls. */
  function After(ids: map<string, nat>, calls: seq<Request>): map<string, nat>
    decreases calls
  {
    if calls == [] then ids
    else
      var key := FullKey(calls[0]);
      After(ids[key := Count(ids, key) + 1], calls[1..])
  }

  lemma {:induction false} OneMoreCall(prefix: string, ids: map<string, nat>, calls: seq<Request>, r: Request)
    ensures var now := After(ids, calls);
      && Issued(prefix, ids, calls + [r]) == Issued(prefix, ids, calls) + [Name(prefix, FullKey(r), Count(now, FullKey(r)))]
      && After(ids, calls + [r]) == now[FullKey(r) := Count(now, FullKey(r)) + 1]
    decreases calls
  {
    hide Name, FullKey;
    if calls == [] {
      assert calls + [r] == [r];
    } else {
      var key := FullKey(calls[0]);
      assert (calls + [r])[1..] == calls[1..] + [r];
      OneMoreCall(prefix, ids[key := Count(ids, key) + 1], calls[1..], r);
    }
  }

  class UniqueNameGenerator {
    var ids: map<string, nat>
    const prefix: string
    ghost var history: seq<Request>

    ghost predicate Valid()
      reads this
    {
      ids == After(map[], history)
    }

    /** Every name returned so far, in order. */
    ghost function Names(): seq<string>
      reads this
    {
      Issued(prefix, map[], history)
    }

    constructor (prefix: string)
      ensures Valid() && history == [] && this.prefix == prefix
    {
      ids := map[];
      history := [];
      this.prefix := prefix;
    }

    method Call(key: string, moduleName: string) returns (name: string)
      requires Valid()
      modifies this
      ensures Valid() && history == old(history) + [Request(key, moduleName)]
      ensures Names() == old(Names()) + [name]
      ensures name !in old(Names())
      ensures name == prefix + (if moduleName == "" then key else Slashed(moduleName) + "/" + key) + "_"
                      + Str(|SameKey(history, |history| - 1)|)
    {
      hide Str, Slashed, SameKey, Issued, After;
      var full := key;
      if moduleName != "" {
        full := Slashed(moduleName) + "/" + key;
      }
      var tmp := if full in ids then ids[full] else 0;
      ids := ids[full := tmp + 1];
      name := Name(prefix, full, tmp);

      ghost var r := Request(key, moduleName);
      OneMoreCall(prefix, map[], history, r);
      ghost var n := |history|;
      history := history + [r];
      IssuedWrittenOut(prefix, history, n);
      forall i | 0 <= i < n ensures old(Names())[i] != name {
        IssuedDistinct(prefix, map[], history, i, n);
      }
    }
  }
}
