/** The few facts about products, quotients and remainders that the models share. */
module Arith {

  /** A product of sizes, as a size. */
  function Times(a: nat, b: nat): nat {
    a * b
  }

  lemma MulAdd(a: int, b: int, c: int)
    ensures (a + b) * c == a * c + b * c
  {
  }

  lemma MulAssoc(a: int, b: int, c: int)
    ensures a * b * c == a * (b * c)
  {
  }

  lemma MulMonotone(a: int, b: int, c: int)
    requires a <= b && 0 <= c
    ensures a * c <= b * c
  {
  }

  lemma MulStep(i: int, j: int, c: int)
    requires i < j && 0 <= c
    ensures i * c + c <= j * c
  {
    MulMonotone(i + 1, j, c);
    MulAdd(i, 1, c);
  }

  /** `d` is the quotient and `m` the remainder as soon as they look like it. */
  lemma DivModUnique(x: int, b: int, q: int, m: int)
    requires 0 < b && 0 <= m < b && x == q * b + m
    ensures x / b == q && x % b == m
  {
    var q', m' := x / b, x % b;
    assert x == q' * b + m';
    if q < q' {
      MulStep(q, q', b);
    } else if q' < q {
      MulStep(q', q, b);
    }
  }

  /** Division with remainder, written with the product on the left. */
  lemma DivModDef(x: int, b: int)
    requires 0 < b
    ensures x == (x / b) * b + x % b && 0 <= x % b < b
  {
  }
}
