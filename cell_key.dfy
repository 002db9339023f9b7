/** The string key under which a cell is stored: the column and the row in
    decimal, joined by an underscore ("3_12"). */
module CellKey {

  function DigitChar(d: nat): (c: char)
    requires d < 10
    ensures '0' <= c <= '9'
  {
    (('0' as int) + d) as char
  }

  /** Decimal rendering of a natural number, without leading zeros, as a
      template literal renders it. */
  function Digits(n: nat): (s: string)
    ensures |s| >= 1
    ensures forall i :: 0 <= i < |s| ==> '0' <= s[i] <= '9'
    ensures n >= 10 ==> |s| >= 2
  {
    if n < 10 then [DigitChar(n)]
    else Digits(n / 10) + [DigitChar(n % 10)]
  }

  /** `cellKey(col, row)`: `${col}_${row}`. The key holds exactly one
      underscore, right after the column's digits. */
  function Key(col: nat, row: nat): (k: string)
    ensures |Digits(col)| < |k| && k[|Digits(col)|] == '_'
    ensures forall i :: 0 <= i < |k| && i != |Digits(col)| ==> k[i] != '_'
  {
    Digits(col) + "_" + Digits(row)
  }

  /** Distinct numbers render differently. */
  lemma {:induction false} DigitsInjective(n: nat, m: nat)
    requires Digits(n) == Digits(m)
    ensures n == m
  {
    if n >= 10 && m >= 10 {
      var a, b := Digits(n), Digits(m);
      assert a[..|a| - 1] == Digits(n / 10);
      assert b[..|b| - 1] == Digits(m / 10);
      DigitsInjective(n / 10, m / 10);
      assert a[|a| - 1] == DigitChar(n % 10);
    }
  }

  /** Decimal digits never contain '_', so the underscore in a key marks the
      end of the column part: distinct cells have distinct keys. */
  lemma KeyInjective(c1: nat, r1: nat, c2: nat, r2: nat)
    requires Key(c1, r1) == Key(c2, r2)
    ensures c1 == c2 && r1 == r2
  {
    var a, b := Digits(c1), Digits(c2);
    var k := Key(c1, r1);
    assert |a| == |b|;
    assert a == k[..|a|] == b;
    assert Digits(r1) == k[|a| + 1..] == Digits(r2);
    DigitsInjective(c1, c2);
    DigitsInjective(r1, r2);
  }
}
