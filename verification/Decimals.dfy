/** Decimal numerals: printing, reading, trailing zeros, `toFixed`, and powers of ten. */
module Decimals {

  function Pow10(k: nat): (p: real)
    ensures p >= 1.0
  {
    if k == 0 then 1.0 else 10.0 * Pow10(k - 1)
  }

  lemma {:induction false} Pow10Adds(j: nat, k: nat)
    ensures Pow10(j + k) == Pow10(j) * Pow10(k)
  {
    if j > 0 {
      Pow10Adds(j - 1, k);
      assert Pow10(j - 1 + k) == Pow10(j - 1) * Pow10(k);
    }
  }

  predicate IsDigit(c: char) {
    '0' <= c <= '9'
  }

  function DigitOf(c: char): (d: int)
    requires IsDigit(c)
    ensures 0 <= d < 10
  {
    c as int - '0' as int
  }

  predicate IsNumeral(s: string) {
    forall i :: 0 <= i < |s| ==> IsDigit(s[i])
  }

  /** `String(n)` */
  function Numeral(n: nat): (s: string)
    ensures IsNumeral(s) && s != ""
    decreases n
  {
    (if n < 10 then "" else Numeral(n / 10)) + [('0' as int + n % 10) as char]
  }

  function NatOf(s: string): nat
    requires IsNumeral(s)
    decreases |s|
  {
    if s == "" then 0 else 10 * NatOf(s[..|s| - 1]) + DigitOf(s[|s| - 1])
  }

  lemma {:induction false} NumeralReads(n: nat)
    ensures NatOf(Numeral(n)) == n
    decreases n
  {
    var s := Numeral(n);
    assert s[|s| - 1] == ('0' as int + n % 10) as char;
    if n >= 10 {
      assert s[..|s| - 1] == Numeral(n / 10);
      NumeralReads(n / 10);
    } else {
      assert s[..|s| - 1] == "";
    }
  }

  lemma NumeralOfFour(n: nat)
    requires 1000 <= n < 10000
    ensures |Numeral(n)| == 4 && Numeral(n)[0] != '0'
  {
    assert |Numeral(n / 1000)| == 1;
    assert n / 10 / 10 / 10 == n / 1000;
    assert Numeral(n / 10 / 10)[0] == Numeral(n / 1000)[0];
    assert Numeral(n / 10)[0] == Numeral(n / 10 / 10)[0];
    assert Numeral(n)[0] == Numeral(n / 10)[0];
  }

  function Zeros(k: nat): (s: string)
    ensures |s| == k && forall i :: 0 <= i < k ==> s[i] == '0'
  {
    seq(k, _ => '0')
  }

  lemma {:induction false} LeadingZeros(k: nat, s: string)
    requires IsNumeral(s)
    ensures NatOf(Zeros(k) + s) == NatOf(s)
    decreases |s|
  {
    if s == "" {
      assert Zeros(k) + s == Zeros(k);
      ZerosReadZero(k);
    } else {
      LeadingZeros(k, s[..|s| - 1]);
      assert (Zeros(k) + s)[..k + |s| - 1] == Zeros(k) + s[..|s| - 1];
    }
  }

  lemma {:induction false} ZerosReadZero(k: nat)
    ensures NatOf(Zeros(k)) == 0
  {
    if k > 0 {
      ZerosReadZero(k - 1);
      assert Zeros(k)[..k - 1] == Zeros(k - 1);
    }
  }

  /** Without its trailing zeros. */
  function Stripped(s: string): (t: string)
    ensures t <= s && (t != "" ==> t[|t| - 1] != '0')
    decreases |s|
  {
    if s != "" && s[|s| - 1] == '0' then Stripped(s[..|s| - 1]) else s
  }

  /** The number with k zeros appended. */
  function WithZeros(n: nat, k: nat): real {
    n as real * Pow10(k)
  }

  lemma OneMoreZero(n: nat, k: nat)
    ensures WithZeros(n, k + 1) == 10.0 * WithZeros(n, k)
  {
    TimesTen(n as real, Pow10(k));
  }

  lemma {:induction false} StrippedReads(s: string)
    requires IsNumeral(s)
    ensures IsNumeral(Stripped(s))
    ensures WithZeros(NatOf(Stripped(s)), |s| - |Stripped(s)|) == NatOf(s) as real
    ensures NatOf(s) > 0 ==> Stripped(s) != ""
    decreases |s|
  {
    if s != "" && s[|s| - 1] == '0' {
      var t := s[..|s| - 1];
      StrippedReads(t);
      OneMoreZero(NatOf(Stripped(t)), |t| - |Stripped(t)|);
      assert NatOf(s) == 10 * NatOf(t);
    }
  }

  lemma TimesTen(x: real, y: real)
    ensures x * (10.0 * y) == 10.0 * (x * y)
  {
  }

  // ----- toFixed -----

  /** The integer of section 21.1.3.3 of ECMA-262 for three digits: closest to 1000 x, the larger of two. */
  function Thousandths(x: real): (n: int)
    ensures n as real - 1000.0 * x <= 0.5 && 1000.0 * x - n as real < 0.5
  {
    (1000.0 * x + 0.5).Floor
  }

  /** `x.toFixed(3)` for a non-negative x below 10^21. */
  function ToFixed3(x: real): string
    requires x >= 0.0
  {
    var m := Numeral(Thousandths(x));
    var p := if |m| <= 3 then Zeros(4 - |m|) + m else m;
    p[..|p| - 3] + "." + p[|p| - 3..]
  }

  /** Removes the first decimal point. */
  function WithoutPoint(s: string): string {
    if s == "" then "" else if s[0] == '.' then s[1..] else [s[0]] + WithoutPoint(s[1..])
  }

  function FractionLength(s: string): nat {
    if s == "" then 0 else if s[0] == '.' then |s| - 1 else FractionLength(s[1..])
  }

  /** `Number(s)` */
  function NumberOf(s: string): real
    requires IsNumeral(WithoutPoint(s))
  {
    NatOf(WithoutPoint(s)) as real / Pow10(FractionLength(s))
  }

  lemma {:induction false} PointBetween(a: string, b: string)
    requires IsNumeral(a)
    ensures WithoutPoint(a + "." + b) == a + b && FractionLength(a + "." + b) == |b|
    decreases |a|
  {
    var s := a + "." + b;
    if a != "" {
      PointBetween(a[1..], b);
      assert s[1..] == a[1..] + "." + b;
      assert a + b == [a[0]] + (a[1..] + b);
    } else {
      assert s == "." + b;
      assert s[1..] == b;
    }
  }

  /** The text of `toFixed(3)` for a number of at least one, up to rounding. */
  lemma ToFixed3Reads(x: real)
    requires Thousandths(x) >= 1000 && x >= 0.0
    ensures WithoutPoint(ToFixed3(x)) == Numeral(Thousandths(x))
    ensures NumberOf(ToFixed3(x)) == Thousandths(x) as real / 1000.0
  {
    var n := Thousandths(x);
    var m := Numeral(n);
    AtLeastFour(n);
    assert IsNumeral(m[..|m| - 3]);
    PointBetween(m[..|m| - 3], m[|m| - 3..]);
    assert m[..|m| - 3] + m[|m| - 3..] == m;
    NumeralReads(n);
    assert Pow10(3) == 1000.0 by {
      assert Pow10(1) == 10.0 && Pow10(2) == 100.0;
    }
  }

  lemma AtLeastFour(n: nat)
    requires n >= 1000
    ensures |Numeral(n)| >= 4
  {
    assert n / 10 >= 100 && n / 10 / 10 >= 10 && n / 10 / 10 / 10 >= 1;
    assert |Numeral(n / 10 / 10)| >= 2;
    assert |Numeral(n / 10)| >= 3;
  }
}
