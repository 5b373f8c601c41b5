/** Decimal numerals as Python's `str` and f-strings write them for non-negative integers. */
module Decimal {

  function Digit(d: nat): char
    requires d < 10
  {
    '0' + d as char
  }

  predicate IsDigit(c: char) {
    '0' <= c <= '9'
  }

  function Str(n: nat): string {
    if n < 10 then [Digit(n)] else Str(n / 10) + [Digit(n % 10)]
  }

  lemma {:induction false} StrDigits(n: nat)
    ensures |Str(n)| > 0 && forall i :: 0 <= i < |Str(n)| ==> IsDigit(Str(n)[i])
  {
    if n >= 10 {
      StrDigits(n / 10);
    }
  }

  /** Different numbers have different numerals. */
  lemma {:induction false} StrInjective(m: nat, n: nat)
    requires Str(m) == Str(n)
    ensures m == n
  {
    StrDigits(m / 10);
    StrDigits(n / 10);
    var s, t := Str(m), Str(n);
    assert s[|s| - 1] == Digit(m % 10) && t[|t| - 1] == Digit(n % 10);
    if m >= 10 && n >= 10 {
      assert Str(m / 10) == s[..|s| - 1] && Str(n / 10) == t[..|t| - 1];
      StrInjective(m / 10, n / 10);
    }
  }

  /** The number a string of digits stands for. */
  function Value(s: string): nat
    requires forall i :: 0 <= i < |s| ==> IsDigit(s[i])
  {
    if s == [] then 0
    else assert IsDigit(s[|s| - 1]); 10 * Value(s[..|s| - 1]) + (s[|s| - 1] as int - '0' as int)
  }

  /** A numeral stands for its number, and has no leading zero unless it is "0". */
  lemma {:induction false} StrReadsBack(n: nat)
    ensures (forall i :: 0 <= i < |Str(n)| ==> IsDigit(Str(n)[i])) && Value(Str(n)) == n
    ensures Str(n) == "0" || Str(n)[0] != '0'
  {
    StrDigits(n);
    var s := Str(n);
    if n < 10 {
      assert s[..0] == [];
    } else {
      StrReadsBack(n / 10);
      assert s[..|s| - 1] == Str(n / 10) && s[0] == Str(n / 10)[0];
      assert Value("0") == 0 by {
        assert "0"[..0] == [];
      }
    }
  }
}
