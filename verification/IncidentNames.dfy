/** Incident names: the rule name, a dash, and the firing time in whole seconds. */
module IncidentNames {

  const SECOND: nat := 1_000_000_000

  function Digit(d: nat): char
    requires d < 10
  {
    '0' + d as char
  }

  function DigitValue(c: char): nat {
    if '0' <= c <= '9' then (c - '0') as nat else 0
  }

  /** Decimal rendering without sign or leading zeros. */
  function Decimal(n: nat): (s: string)
    ensures |s| > 0
    ensures forall i :: 0 <= i < |s| ==> s[i] != '-'
  {
    if n < 10 then [Digit(n)] else Decimal(n / 10) + [Digit(n % 10)]
  }

  function DecimalValue(s: string): nat {
    if s == [] then 0 else 10 * DecimalValue(s[..|s| - 1]) + DigitValue(s[|s| - 1])
  }

  /** Names carry whole seconds only: the firing time is truncated. */
  function IncidentName(rule: string, at: nat): (s: string)
    ensures s != ""
  {
    rule + "-" + Decimal(at / SECOND)
  }

  lemma {:induction false} DecimalRoundTrip(n: nat)
    ensures DecimalValue(Decimal(n)) == n
  {
    if n < 10 {
      assert Decimal(n)[..0] == [];
    } else {
      var s := Decimal(n);
      assert s[..|s| - 1] == Decimal(n / 10);
      DecimalRoundTrip(n / 10);
    }
  }

  /** Two incident names are equal only for the same rule and the same second. */
  lemma NamesDistinct(rule1: string, at1: nat, rule2: string, at2: nat)
    ensures IncidentName(rule1, at1) == IncidentName(rule2, at2)
        <==> rule1 == rule2 && at1 / SECOND == at2 / SECOND
  {
    var d1, d2 := Decimal(at1 / SECOND), Decimal(at2 / SECOND);
    var n1, n2 := IncidentName(rule1, at1), IncidentName(rule2, at2);
    assert n1[|n1| - |d1| - 1] == '-' && n2[|n2| - |d2| - 1] == '-';
    assert |d1| < |d2| ==> n2[|n2| - |d1| - 1] == d2[|d2| - |d1| - 1] != '-';
    assert |d2| < |d1| ==> n1[|n1| - |d2| - 1] == d1[|d1| - |d2| - 1] != '-';
    if n1 == n2 {
      assert |d1| == |d2|;
      assert d1 == n1[|n1| - |d1|..] == n2[|n2| - |d2|..] == d2;
      assert rule1 == n1[..|n1| - |d1| - 1] == rule2;
      DecimalRoundTrip(at1 / SECOND);
      DecimalRoundTrip(at2 / SECOND);
    }
  }
}
