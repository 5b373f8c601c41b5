/** The group tables of `MpiTopology._init_parallel_groups` and the lookups into them. */
module RankGroups {
  import opened Arith
  import opened MixedRadix

  /** `list(range(start, stop, step))`. */
  function Range(start: int, stop: int, step: nat): seq<int>
    requires step > 0
    decreases stop - start
  {
    if start >= stop then [] else [start] + Range(start + step, stop, step)
  }

  lemma {:induction false} RangeAt(start: int, stop: int, step: nat, count: nat)
    requires step > 0 && (count * step) - step < stop - start <= count * step
    ensures |Range(start, stop, step)| == count
    ensures forall k :: 0 <= k < count ==> Range(start, stop, step)[k] == start + k * step
    decreases count
  {
    if count > 0 {
      MulAdd(count - 1, 1, step);
      RangeAt(start + step, stop, step, count - 1);
      var rest := Range(start + step, stop, step);
      forall k | 0 <= k < count ensures Range(start, stop, step)[k] == start + k * step {
        if k > 0 {
          MulAdd(k - 1, 1, step);
          assert Range(start, stop, step)[k] == rest[k - 1];
        }
      }
    }
  }

  // ----- Tables -----

  type Groups = seq<seq<int>>

  /** The groups of row `i`, in the order the inner loop appends them. */
  function Row(f: (nat, nat) -> seq<int>, i: nat, cols: nat): Groups {
    if cols == 0 then [] else Row(f, i, cols - 1) + [f(i, cols - 1)]
  }

  function Table(f: (nat, nat) -> seq<int>, rows: nat, cols: nat): Groups {
    if rows == 0 then [] else Table(f, rows - 1, cols) + Row(f, rows - 1, cols)
  }

  lemma {:induction false} RowAt(f: (nat, nat) -> seq<int>, i: nat, cols: nat)
    ensures |Row(f, i, cols)| == cols
    ensures forall j: nat :: j < cols ==> Row(f, i, cols)[j] == f(i, j)
  {
    if cols > 0 {
      RowAt(f, i, cols - 1);
    }
  }

  lemma {:induction false} TableAt(f: (nat, nat) -> seq<int>, rows: nat, cols: nat, i: nat, j: nat)
    requires i < rows && j < cols
    ensures |Table(f, rows, cols)| == rows * cols
    ensures i * cols + j < rows * cols
    ensures Table(f, rows, cols)[i * cols + j] == f(i, j)
  {
    hide Row;
    var above, last := Table(f, rows - 1, cols), Row(f, rows - 1, cols);
    TableSize(f, rows, cols);
    MulStep(i, rows, cols);
    TableSize(f, rows - 1, cols);
    RowAt(f, rows - 1, cols);
    assert Table(f, rows, cols) == above + last;
    if i == rows - 1 {
      assert (above + last)[|above| + j] == last[j];
    } else {
      TableAt(f, rows - 1, cols, i, j);
      assert (above + last)[i * cols + j] == above[i * cols + j];
    }
  }

  lemma {:induction false} TableSize(f: (nat, nat) -> seq<int>, rows: nat, cols: nat)
    ensures |Table(f, rows, cols)| == rows * cols
  {
    if rows > 0 {
      TableSize(f, rows - 1, cols);
      RowAt(f, rows - 1, cols);
      MulAdd(rows - 1, 1, cols);
    }
  }

  /** The nested loops that fill a table. */
  method BuildTable(f: (nat, nat) -> seq<int>, rows: nat, cols: nat) returns (groups: Groups)
    ensures groups == Table(f, rows, cols)
  {
    groups := [];
    var i := 0;
    while i < rows
      invariant 0 <= i <= rows && groups == Table(f, i, cols)
    {
      ghost var before := groups;
      var j := 0;
      while j < cols
        invariant 0 <= j <= cols && groups == before + Row(f, i, j)
      {
        groups := groups + [f(i, j)];
        j := j + 1;
      }
      i := i + 1;
    }
  }

  // ----- The three shapes of table -----

  /** `where(x)` names the group and the position of rank x: the table holds every rank below `world` exactly once. */
  ghost predicate Partition(groups: Groups, world: nat, where_: nat -> (nat, nat)) {
    && (forall x: nat :: x < world ==> Holds(groups, where_(x), x))
    && (forall g, k: nat :: 0 <= g < |groups| && k < |groups[g]| ==> BelongsAt(groups, world, where_, g, k))
  }

  predicate Holds(groups: Groups, at: (nat, nat), x: nat) {
    at.0 < |groups| && at.1 < |groups[at.0]| && groups[at.0][at.1] == x
  }

  predicate BelongsAt(groups: Groups, world: nat, where_: nat -> (nat, nat), g: nat, k: nat)
    requires g < |groups| && k < |groups[g]|
  {
    0 <= groups[g][k] < world && where_(groups[g][k]) == (g, k)
  }

  /** Group (p, c) lists the ranks with those digits, in order of the middle digit. */
  predicate StridedTable(groups: Groups, P: nat, T: nat, C: nat) {
    && |groups| == P * C
    && (forall p: nat, c: nat :: p < P && c < C ==> StridedGroup(groups, T, C, p, c))
  }

  predicate StridedGroup(groups: Groups, T: nat, C: nat, p: nat, c: nat) {
    p * C + c < |groups| && |groups[p * C + c]| == T
    && forall t: nat :: t < T ==> groups[p * C + c][t] == Compose(T, C, p, t, c)
  }

  /** Group (p, t) lists the ranks with those digits, in order of the low digit. */
  predicate ContiguousTable(groups: Groups, P: nat, T: nat, C: nat) {
    && |groups| == P * T
    && (forall p: nat, t: nat :: p < P && t < T ==> ContiguousGroup(groups, T, C, p, t))
  }

  predicate ContiguousGroup(groups: Groups, T: nat, C: nat, p: nat, t: nat) {
    p * T + t < |groups| && |groups[p * T + t]| == C
    && forall c: nat :: c < C ==> groups[p * T + t][c] == Compose(T, C, p, t, c)
  }

  function StridedPlace(T: nat, C: nat): nat -> (nat, nat)
    requires T > 0 && C > 0
  {
    x => (High(T, C, x) * C + Low(C, x), Middle(T, C, x))
  }

  function ContiguousPlace(T: nat, C: nat): nat -> (nat, nat)
    requires T > 0 && C > 0
  {
    x => (High(T, C, x) * T + Middle(T, C, x), Low(C, x))
  }

  lemma StridedIsPartition(groups: Groups, P: nat, T: nat, C: nat)
    requires T > 0 && C > 0 && StridedTable(groups, P, T, C)
    ensures Partition(groups, P * T * C, StridedPlace(T, C))
  {
    hide Compose, High, Middle, Low;
    forall x: nat | x < P * T * C ensures Holds(groups, StridedPlace(T, C)(x), x) {
      ComposeOfDigits(T, C, x);
      HighBelow(P, T, C, x);
      assert StridedGroup(groups, T, C, High(T, C, x), Low(C, x));
    }
    forall g, k: nat | 0 <= g < |groups| && k < |groups[g]|
      ensures BelongsAt(groups, P * T * C, StridedPlace(T, C), g, k)
    {
      var p, c := g / C, g % C;
      DivModDef(g, C);
      if p >= P { MulMonotone(P, p, C); }
      assert StridedGroup(groups, T, C, p, c);
      ComposeBelow(P, T, C, p, k, c);
      DigitsOfCompose(T, C, p, k, c);
    }
  }

  lemma ContiguousIsPartition(groups: Groups, P: nat, T: nat, C: nat)
    requires T > 0 && C > 0 && ContiguousTable(groups, P, T, C)
    ensures Partition(groups, P * T * C, ContiguousPlace(T, C))
  {
    hide Compose, High, Middle, Low;
    forall x: nat | x < P * T * C ensures Holds(groups, ContiguousPlace(T, C)(x), x) {
      ComposeOfDigits(T, C, x);
      HighBelow(P, T, C, x);
      assert ContiguousGroup(groups, T, C, High(T, C, x), Middle(T, C, x));
    }
    forall g, k: nat | 0 <= g < |groups| && k < |groups[g]|
      ensures BelongsAt(groups, P * T * C, ContiguousPlace(T, C), g, k)
    {
      var p, t := g / T, g % T;
      DivModDef(g, T);
      if p >= P { MulMonotone(P, p, T); }
      assert ContiguousGroup(groups, T, C, p, t);
      ComposeBelow(P, T, C, p, t, k);
      DigitsOfCompose(T, C, p, t, k);
    }
  }

  lemma StridedMember(groups: Groups, P: nat, T: nat, C: nat, p: nat, t: nat, c: nat)
    requires StridedTable(groups, P, T, C) && p < P && t < T && c < C
    ensures p * C + c < |groups| && |groups[p * C + c]| == T
    ensures groups[p * C + c][t] == Compose(T, C, p, t, c)
  {
    hide Compose;
    assert StridedGroup(groups, T, C, p, c);
  }

  lemma ContiguousMember(groups: Groups, P: nat, T: nat, C: nat, p: nat, t: nat, c: nat)
    requires ContiguousTable(groups, P, T, C) && p < P && t < T && c < C
    ensures p * T + t < |groups| && |groups[p * T + t]| == C
    ensures groups[p * T + t][c] == Compose(T, C, p, t, c)
  {
    hide Compose;
    assert ContiguousGroup(groups, T, C, p, t);
  }
}
