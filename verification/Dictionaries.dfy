/** Dictionaries with string keys, as Python keeps them: in insertion order. */
module Dictionaries {

  /** A dictionary in insertion order. */
  type Dict<V> = seq<(string, V)>

  predicate DistinctNames<V>(d: Dict<V>) {
    forall i, j :: 0 <= i < j < |d| ==> d[i].0 != d[j].0
  }

  predicate HasName<V>(d: Dict<V>, name: string) {
    exists i :: 0 <= i < |d| && d[i].0 == name
  }

  function MapOf<V>(d: Dict<V>): map<string, V> {
    if d == [] then map[] else MapOf(d[..|d| - 1])[d[|d| - 1].0 := d[|d| - 1].1]
  }

  /** Dictionary assignment. */
  function Put<V>(d: Dict<V>, name: string, v: V): Dict<V> {
    if d == [] then [(name, v)]
    else if d[0].0 == name then [(name, v)] + d[1..]
    else [d[0]] + Put(d[1..], name, v)
  }

  lemma {:induction false} PutNames<V>(d: Dict<V>, name: string, v: V)
    requires DistinctNames(d)
    ensures DistinctNames(Put(d, name, v))
    ensures forall n :: HasName(Put(d, name, v), n) <==> HasName(d, n) || n == name
    decreases |d|
  {
    var p := Put(d, name, v);
    if d == [] {
      assert p[0].0 == name;
    } else if d[0].0 == name {
      forall n ensures HasName(p, n) <==> HasName(d, n) || n == name {
        SameNames(d, p, n);
      }
    } else {
      PutNames(d[1..], name, v);
      var rest := Put(d[1..], name, v);
      assert p == [d[0]] + rest;
      NameInFront(d, d[0].0);
      assert !HasName(rest, d[0].0) by {
        assert !HasName(d[1..], d[0].0);
      }
      forall j | 1 <= j < |p| ensures p[j].0 != d[0].0 {
        assert p[j] == rest[j - 1];
      }
      forall i, j | 0 <= i < j < |p| ensures p[i].0 != p[j].0 {
        if i > 0 {
          assert p[i] == rest[i - 1] && p[j] == rest[j - 1];
        }
      }
      forall n ensures HasName(p, n) <==> HasName(d, n) || n == name {
        NameInFront(p, n);
        NameInFront(d, n);
        assert p[1..] == rest;
      }
    }
  }

  lemma SameNames<V>(d: Dict<V>, e: Dict<V>, n: string)
    requires |d| == |e| && forall i :: 0 <= i < |d| ==> d[i].0 == e[i].0
    ensures HasName(d, n) <==> HasName(e, n)
  {
    if HasName(d, n) {
      var i :| 0 <= i < |d| && d[i].0 == n;
      assert e[i].0 == n;
    }
  }

  lemma NameInFront<V>(d: Dict<V>, n: string)
    requires d != []
    ensures HasName(d, n) <==> d[0].0 == n || HasName(d[1..], n)
  {
    if HasName(d, n) {
      var i :| 0 <= i < |d| && d[i].0 == n;
      if i > 0 {
        assert d[1..][i - 1].0 == n;
      }
    }
    if HasName(d[1..], n) {
      var i :| 0 <= i < |d[1..]| && d[1..][i].0 == n;
      assert d[i + 1].0 == n;
    }
  }

  lemma {:induction false} PutEntries<V>(d: Dict<V>, name: string, v: V, i: nat)
    requires DistinctNames(d) && i < |Put(d, name, v)|
    ensures var e := Put(d, name, v)[i];
            if e.0 == name then e.1 == v else exists j :: 0 <= j < |d| && d[j] == e
    decreases |d|
  {
    if d != [] && d[0].0 != name {
      if i > 0 {
        PutEntries(d[1..], name, v, i - 1);
        var e := Put(d, name, v)[i];
        assert Put(d[1..], name, v)[i - 1] == e;
        if e.0 != name {
          var j :| 0 <= j < |d[1..]| && d[1..][j] == e;
          assert d[j + 1] == e;
        }
      } else {
        assert d[0] == Put(d, name, v)[0];
      }
    } else if d != [] && i > 0 {
      assert Put(d, name, v)[i] == d[i];
    }
  }

  lemma NameLast<V>(d: Dict<V>, n: string, i: nat)
    requires i < |d|
    ensures HasName(d[..i + 1], n) <==> HasName(d[..i], n) || d[i].0 == n
  {
    if HasName(d[..i + 1], n) {
      var j :| 0 <= j < i + 1 && d[..i + 1][j].0 == n;
      assert j < i ==> d[..i][j].0 == n;
    }
    if HasName(d[..i], n) {
      var j :| 0 <= j < i && d[..i][j].0 == n;
      assert d[..i + 1][j].0 == n;
    }
    if d[i].0 == n {
      assert d[..i + 1][i].0 == n;
    }
  }

  lemma {:induction false} MapOfExactly<V>(d: Dict<V>)
    requires DistinctNames(d)
    ensures forall x :: x in MapOf(d) <==> HasName(d, x)
    ensures forall i :: 0 <= i < |d| ==> d[i].0 in MapOf(d) && MapOf(d)[d[i].0] == d[i].1
    decreases |d|
  {
    if d != [] {
      var k := |d| - 1;
      MapOfExactly(d[..k]);
      forall x ensures HasName(d, x) <==> HasName(d[..k], x) || d[k].0 == x {
        NameLast(d, x, k);
        assert d[..k + 1] == d;
      }
      forall i | 0 <= i < k ensures d[i].0 != d[k].0 && d[i] == d[..k][i] {
      }
    }
  }
}
