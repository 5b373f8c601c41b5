/**
 Three-digit mixed-radix numbers, the arithmetic behind every rank coordinate and every group
 table: the number with digits (p, t, c) in radices (any, T, C) is (p * T + t) * C + c.
 */
module MixedRadix {
  import opened Arith

  function Compose(T: nat, C: nat, p: nat, t: nat, c: nat): nat {
    (p * T + t) * C + c
  }

  function High(T: nat, C: nat, x: nat): nat
    requires T > 0 && C > 0
  {
    PositiveProduct(T, C);
    x / (T * C)
  }

  function Middle(T: nat, C: nat, x: nat): nat
    requires T > 0 && C > 0
  {
    PositiveProduct(T, C);
    x % (T * C) / C
  }

  function Low(C: nat, x: nat): nat
    requires C > 0
  {
    x % C
  }

  lemma PositiveProduct(a: nat, b: nat)
    requires a > 0 && b > 0
    ensures a * b > 0
  {
    MulMonotone(1, a, b);
  }

  lemma ComposeSplit(T: nat, C: nat, p: nat, t: nat, c: nat)
    ensures Compose(T, C, p, t, c) == p * (T * C) + (t * C + c)
  {
    MulAdd(p * T, t, C);
    assert p * T * C == p * (T * C);
  }

  /** Digits in range determine the number and are recovered from it. */
  lemma DigitsOfCompose(T: nat, C: nat, p: nat, t: nat, c: nat)
    requires t < T && c < C
    ensures High(T, C, Compose(T, C, p, t, c)) == p
    ensures Middle(T, C, Compose(T, C, p, t, c)) == t
    ensures Low(C, Compose(T, C, p, t, c)) == c
  {
    var x := Compose(T, C, p, t, c);
    DivModUnique(x, C, p * T + t, c);
    ComposeSplit(T, C, p, t, c);
    MulStep(t, T, C);
    DivModUnique(x, T * C, p, t * C + c);
    DivModUnique(t * C + c, C, t, c);
  }

  /** Every number is composed of its digits. */
  lemma ComposeOfDigits(T: nat, C: nat, x: nat)
    requires T > 0 && C > 0
    ensures Middle(T, C, x) < T && Low(C, x) < C
    ensures Compose(T, C, High(T, C, x), Middle(T, C, x), Low(C, x)) == x
  {
    PositiveProduct(T, C);
    var p, y := x / (T * C), x % (T * C);
    DivModDef(x, T * C);
    var t, c := y / C, y % C;
    DivModDef(y, C);
    if t >= T { MulMonotone(T, t, C); }
    ComposeSplit(T, C, p, t, c);
    DivModUnique(x, C, p * T + t, c);
  }

  lemma ComposeBelow(P: nat, T: nat, C: nat, p: nat, t: nat, c: nat)
    requires p < P && t < T && c < C
    ensures Compose(T, C, p, t, c) < P * T * C
  {
    MulStep(p, P, T);
    MulStep(p * T + t, P * T, C);
  }

  lemma HighBelow(P: nat, T: nat, C: nat, x: nat)
    requires T > 0 && C > 0 && x < P * T * C
    ensures High(T, C, x) < P
  {
    ComposeOfDigits(T, C, x);
    var p := High(T, C, x);
    ComposeSplit(T, C, p, Middle(T, C, x), Low(C, x));
    assert P * T * C == P * (T * C);
    if p >= P {
      MulMonotone(P, p, T * C);
    }
  }
}
