/** Amounts as text: abbreviation by millions and billions, and tiny currency amounts with counted zeros. */
module FormatAmount {
  import opened Decimals

  const MILLION := 1000000.0
  const BILLION := 1000000000.0
  const SMALLEST_STANDARD_CURRENCY_AMOUNT := 0.005
  const SUBSCRIPT_NOTATION_THRESHOLD := 4

  // ----- the decimal exponent -----

  lemma Shrinks(a: real)
    requires 0.0 < a < 0.1
    ensures 0 <= (1.0 / (10.0 * a)).Floor < (1.0 / a).Floor
  {
    var b := 1.0 / a;
    assert b * a == 1.0;
    assert b > 10.0 by {
      if b <= 10.0 {
        Product(b, 10.0, a);
        assert false;
      }
    }
    assert 1.0 / (10.0 * a) == b / 10.0;
  }

  lemma Product(x: real, y: real, a: real)
    requires x <= y && a > 0.0
    ensures x * a <= y * a
  {
  }

  /** -floor(log10(a)) for an amount below one. */
  function Magnitude(a: real): (n: nat)
    requires 0.0 < a < 1.0
    ensures n >= 1
    decreases (1.0 / a).Floor + 1
  {
    if a >= 0.1 then 1
    else
      Shrinks(a);
      1 + Magnitude(10.0 * a)
  }

  lemma {:induction false} MagnitudeScales(a: real)
    requires 0.0 < a < 1.0
    ensures 1.0 <= Shifted(a, Magnitude(a)) < 10.0
    decreases Magnitude(a)
  {
    if a >= 0.1 {
      assert Pow10(1) == 10.0;
    } else {
      MagnitudeScales(10.0 * a);
      ShiftedFurther(a, Magnitude(10.0 * a));
    }
  }

  /** The amount moved k places to the left. */
  function Shifted(a: real, k: nat): real {
    a * Pow10(k)
  }

  lemma ShiftedFurther(a: real, k: nat)
    ensures Shifted(a, k + 1) == 10.0 * Shifted(a, k)
    ensures Shifted(10.0 * a, k) == 10.0 * Shifted(a, k)
  {
    TimesTen(a, Pow10(k));
  }

  // ----- tiny amounts -----

  function Subscript(d: char): char
    requires IsDigit(d)
  {
    (0x2080 + DigitOf(d)) as char
  }

  function Subscripts(s: string): (t: string)
    requires IsNumeral(s)
    ensures |t| == |s| && forall i :: 0 <= i < |s| ==> t[i] == Subscript(s[i])
  {
    seq(|s|, i requires 0 <= i < |s| => Subscript(s[i]))
  }

  function ToSubscript(value: nat): string {
    Subscripts(Numeral(value))
  }

  /** The thousandths of the significand and the number of zeros after the point, once rounding has carried. */
  function Rounded(a: real): (r: (nat, nat))
    requires 0.0 < a < SMALLEST_STANDARD_CURRENCY_AMOUNT
    ensures 1000 <= r.0 < 10000 && r.1 >= 2
  {
    MagnitudeScales(a);
    MagnitudeIsThreeUp(a);
    var n := Magnitude(a);
    var digits := Thousandths(Shifted(a, n));
    if digits >= 10000 then (CarryMakesZeros(a); (1000, n - 2)) else (digits, n - 1)
  }

  lemma MagnitudeIsThreeUp(a: real)
    requires 0.0 < a < SMALLEST_STANDARD_CURRENCY_AMOUNT
    ensures Magnitude(a) >= 3
  {
    assert Magnitude(a) == 1 + Magnitude(10.0 * a);
    assert Magnitude(10.0 * a) == 1 + Magnitude(100.0 * a);
  }

  /** An amount whose rounding carries has at least three zeros before its first digit. */
  lemma CarryMakesZeros(a: real)
    requires 0.0 < a < SMALLEST_STANDARD_CURRENCY_AMOUNT
    requires Thousandths(Shifted(a, Magnitude(a))) >= 10000
    ensures Magnitude(a) >= 4
  {
    MagnitudeIsThreeUp(a);
    assert Pow10(3) == 1000.0 by {
      assert Pow10(1) == 10.0 && Pow10(2) == 100.0;
    }
  }

  /** What follows the decimal point: zeros, spelled out or counted in subscript, and the significant digits. */
  function DecimalsOf(zeros: nat, significant: string): string {
    if zeros >= SUBSCRIPT_NOTATION_THRESHOLD then "0" + ToSubscript(zeros) + significant
    else Zeros(zeros) + significant
  }

  function TinyDecimals(a: real): string
    requires 0.0 < a < SMALLEST_STANDARD_CURRENCY_AMOUNT
  {
    var (digits, zeros) := Rounded(a);
    DecimalsOf(zeros, Stripped(Numeral(digits)))
  }

  // ----- reading the text back -----

  predicate IsSubscript(c: char) {
    0x2080 <= c as int <= 0x2089
  }

  function SubscriptRun(s: string): (n: nat)
    ensures n <= |s| && (forall i :: 0 <= i < n ==> IsSubscript(s[i])) && (n < |s| ==> !IsSubscript(s[n]))
  {
    if s == "" || !IsSubscript(s[0]) then 0 else 1 + SubscriptRun(s[1..])
  }

  function Normal(c: char): (d: char)
    requires IsSubscript(c)
    ensures IsDigit(d) && Subscript(d) == c
  {
    (c as int - 0x2080 + '0' as int) as char
  }

  function Normals(s: string): (t: string)
    requires forall i :: 0 <= i < |s| ==> IsSubscript(s[i])
    ensures |t| == |s| && IsNumeral(t) && forall i :: 0 <= i < |s| ==> t[i] == Normal(s[i])
  {
    seq(|s|, i requires 0 <= i < |s| => Normal(s[i]))
  }

  /** A reader's view of the decimals: a zero with subscript k stands for k zeros. */
  function Expanded(s: string): string {
    if |s| < 2 || s[0] != '0' || !IsSubscript(s[1]) then s
    else
      var n := SubscriptRun(s[1..]);
      Zeros(NatOf(Normals(s[1..][..n]))) + s[1 + n..]
  }

  /** The value of the text behind "0." */
  function ReadDecimals(s: string): real
    requires IsNumeral(Expanded(s))
  {
    NatOf(Expanded(s)) as real / Pow10(|Expanded(s)|)
  }

  lemma {:induction false} RunOfSubscripts(a: string, b: string)
    requires IsNumeral(a) && (b == "" || !IsSubscript(b[0]))
    ensures SubscriptRun(Subscripts(a) + b) == |a|
    decreases |a|
  {
    if a == "" {
      assert Subscripts(a) + b == b;
    } else {
      RunOfSubscripts(a[1..], b);
      assert (Subscripts(a) + b)[1..] == Subscripts(a[1..]) + b;
    }
  }

  /** The notation says how many zeros it stands for, whichever form it takes. */
  lemma DecimalsExpand(zeros: nat, significant: string)
    requires IsNumeral(significant)
    ensures Expanded(DecimalsOf(zeros, significant)) == Zeros(zeros) + significant
  {
    var s := DecimalsOf(zeros, significant);
    if zeros >= SUBSCRIPT_NOTATION_THRESHOLD {
      var m := Numeral(zeros);
      assert s[1..] == Subscripts(m) + significant;
      assert s[1] == Subscript(m[0]);
      RunOfSubscripts(m, significant);
      assert s[1..][..|m|] == Subscripts(m);
      assert Normals(Subscripts(m)) == m;
      NumeralReads(zeros);
      assert s[1 + |m|..] == significant;
    } else {
      assert IsNumeral(s);
    }
  }

  /** The amount rounded to four significant digits, ties upwards. */
  function FourDigits(a: real): real
    requires 0.0 < a < 1.0
  {
    Thousandths(Shifted(a, Magnitude(a))) as real / Pow10(Magnitude(a) + 3)
  }

  lemma ThreeMore(n: nat)
    ensures Pow10(n + 3) == 1000.0 * Pow10(n)
  {
    assert Pow10(n + 1) == 10.0 * Pow10(n);
    assert Pow10(n + 2) == 10.0 * Pow10(n + 1);
  }

  /** Rounding is off by at most half a unit of the fourth digit, which is worth 1 / 10^(Magnitude + 3). */
  lemma FourDigitsAreClose(a: real)
    requires 0.0 < a < 1.0
    ensures -0.5 <= (FourDigits(a) - a) * Pow10(Magnitude(a) + 3) <= 0.5
  {
    var n := Magnitude(a);
    var p := Pow10(n + 3);
    ThreeMore(n);
    assert 1000.0 * Shifted(a, n) == a * p by {
      assert 1000.0 * (a * Pow10(n)) == a * (1000.0 * Pow10(n));
    }
    Multiplied(Thousandths(Shifted(a, n)) as real, a, p);
  }

  lemma Multiplied(t: real, a: real, p: real)
    requires p > 0.0
    ensures (t / p - a) * p == t - a * p
  {
    var x := t / p;
    assert x * p == t;
  }

  /** The digits and zeros that are printed are the rounded amount, also when rounding carries. */
  lemma RoundedIsFourDigits(a: real)
    requires 0.0 < a < SMALLEST_STANDARD_CURRENCY_AMOUNT
    ensures Rounded(a).0 as real / Pow10(Rounded(a).1 + 4) == FourDigits(a)
  {
    MagnitudeScales(a);
    var n := Magnitude(a);
    MagnitudeIsThreeUp(a);
    if Thousandths(Shifted(a, n)) >= 10000 {
      CarryMakesZeros(a);
      assert Thousandths(Shifted(a, n)) == 10000;
      assert Rounded(a) == (1000, n - 2);
      TenTimesBoth(Pow10(n + 2));
      assert Pow10(n + 3) == 10.0 * Pow10(n + 2);
    } else {
      assert Rounded(a) == (Thousandths(Shifted(a, n)), n - 1);
    }
  }

  lemma TenTimesBoth(p: real)
    requires p > 0.0
    ensures 1000.0 / p == 10000.0 / (10.0 * p)
  {
  }

  lemma CutZeros(value: nat, cut: nat, digits: nat, length: nat)
    requires WithZeros(value, cut) == digits as real
    ensures value as real / Pow10(length) == digits as real / Pow10(length + cut)
  {
    Pow10Adds(length, cut);
    Cancelled(value as real, Pow10(length), Pow10(cut));
  }

  lemma Cancelled(d: real, y: real, x: real)
    requires x > 0.0 && y > 0.0
    ensures d / y == d * x / (y * x)
  {
  }

  /** Digits without their trailing zeros, behind some zeros, are worth what all the digits are. */
  lemma StrippedBehindZeros(digits: nat, zeros: nat)
    requires 1000 <= digits < 10000
    ensures var text := Zeros(zeros) + Stripped(Numeral(digits));
            IsNumeral(text) && NatOf(text) as real / Pow10(|text|) == digits as real / Pow10(zeros + 4)
  {
    var numeral := Numeral(digits);
    var significant := Stripped(numeral);
    NumeralOfFour(digits);
    NumeralReads(digits);
    StrippedReads(numeral);
    LeadingZeros(zeros, significant);
    CutZeros(NatOf(significant), |numeral| - |significant|, digits, zeros + |significant|);
  }

  /** Reading a printed tiny amount gives the amount rounded to four significant digits. */
  lemma TinyAmountReadsBack(a: real)
    requires 0.0 < a < SMALLEST_STANDARD_CURRENCY_AMOUNT
    ensures IsNumeral(Expanded(TinyDecimals(a)))
    ensures ReadDecimals(TinyDecimals(a)) == FourDigits(a)
  {
    var (digits, zeros) := Rounded(a);
    StrippedReads(Numeral(digits));
    DecimalsExpand(zeros, Stripped(Numeral(digits)));
    StrippedBehindZeros(digits, zeros);
    RoundedIsFourDigits(a);
  }

  lemma SignificantDigitsRemain(a: real)
    requires 0.0 < a < SMALLEST_STANDARD_CURRENCY_AMOUNT
    ensures IsNumeral(Stripped(Numeral(Rounded(a).0))) && Stripped(Numeral(Rounded(a).0)) != ""
  {
    NumeralReads(Rounded(a).0);
    StrippedReads(Numeral(Rounded(a).0));
  }

  lemma {:induction false} Pow10Grows(m: nat, n: nat)
    requires m <= n
    ensures Pow10(m) <= Pow10(n)
    decreases n
  {
    if m < n {
      Pow10Grows(m, n - 1);
      assert Pow10(n) == 10.0 * Pow10(n - 1);
    }
  }

  lemma QuotientFalls(d: real, p: real, q: real)
    requires d >= 0.0 && 0.0 < p <= q
    ensures d / q <= d / p
  {
    var x, y := d / p, d / q;
    assert x * p == d && y * q == d;
    if y > 0.0 {
      Product(p, q, y);
    }
    assert y * p <= x * p;
    if y > x {
      StrictProduct(x, y, p);
      assert false;
    }
  }

  lemma StrictProduct(x: real, y: real, a: real)
    requires x < y && a > 0.0
    ensures x * a < y * a
  {
  }

  /** Four digits behind so many zeros are below a ten-thousandth exactly if there are four zeros or more. */
  lemma FourZerosExactlyWhen(digits: nat, zeros: nat)
    requires 1000 <= digits < 10000
    ensures digits as real / Pow10(zeros + 4) < 0.0001 <==> zeros >= 4
  {
    var d, p := digits as real, Pow10(zeros + 4);
    EightZeros();
    if zeros >= 4 {
      Pow10Grows(8, zeros + 4);
      QuotientFalls(d, 100000000.0, p);
    } else {
      Pow10Grows(zeros + 4, 7);
      Pow10Grows(0, zeros + 4);
      QuotientFalls(d, p, 10000000.0);
    }
  }

  lemma NotationExactlyWhen(zeros: nat, significant: string)
    requires IsNumeral(significant)
    ensures var s := DecimalsOf(zeros, significant); (|s| >= 2 && IsSubscript(s[1])) <==> zeros >= 4
  {
    if zeros >= 4 {
      NumeralReads(zeros);
      assert DecimalsOf(zeros, significant)[1] == Subscript(Numeral(zeros)[0]);
    } else {
      assert IsNumeral(DecimalsOf(zeros, significant));
    }
  }

  /** Zeros are counted in subscript exactly if the rounded amount is below a ten-thousandth. */
  lemma CompactExactlyWhen(a: real)
    requires 0.0 < a < SMALLEST_STANDARD_CURRENCY_AMOUNT
    ensures var s := TinyDecimals(a); (|s| >= 2 && IsSubscript(s[1])) <==> FourDigits(a) < 0.0001
  {
    var (digits, zeros) := Rounded(a);
    RoundedIsFourDigits(a);
    SignificantDigitsRemain(a);
    NotationExactlyWhen(zeros, Stripped(Numeral(digits)));
    FourZerosExactlyWhen(digits, zeros);
  }

  lemma EightZeros()
    ensures Pow10(7) == 10000000.0 && Pow10(8) == 100000000.0
  {
    assert Pow10(1) == 10.0 && Pow10(2) == 100.0 && Pow10(3) == 1000.0 && Pow10(4) == 10000.0;
    assert Pow10(5) == 100000.0 && Pow10(6) == 1000000.0;
  }

  // ----- the formatter itself -----

  datatype PartType = Integer | Group | Decimal | Fraction | MinusSign | Other

  datatype Part = Part(kind: PartType, value: string)

  /** The texts of all parts that are not of the number. */
  function Symbols(parts: seq<Part>): string {
    if parts == [] then "" else (if parts[0].kind.Other? then parts[0].value else "") + Symbols(parts[1..])
  }

  lemma {:induction false} SymbolsAppend(parts: seq<Part>, part: Part)
    ensures Symbols(parts + [part]) == Symbols(parts) + (if part.kind.Other? then part.value else "")
    decreases |parts|
  {
    if parts == [] {
      assert parts + [part] == [part];
    } else {
      SymbolsAppend(parts[1..], part);
      assert (parts + [part])[1..] == parts[1..] + [part];
    }
  }

  /** Where the number begins. */
  function NumberStart(parts: seq<Part>): (k: nat)
    ensures k <= |parts| && (k < |parts| ==> !parts[k].kind.Other?)
    ensures forall i :: 0 <= i < k ==> parts[i].kind.Other?
  {
    if parts == [] || !parts[0].kind.Other? then 0 else 1 + NumberStart(parts[1..])
  }

  /** `getCurrencyAffixes`: the symbols before the number begins, and those after that. */
  method GetCurrencyAffixes(parts: seq<Part>) returns (prefix: string, suffix: string)
    ensures prefix == Symbols(parts[..NumberStart(parts)])
    ensures suffix == Symbols(parts[NumberStart(parts)..])
  {
    var hasSeenNumber := false;
    prefix, suffix := "", "";
    ghost var k := NumberStart(parts);
    for i := 0 to |parts|
      invariant hasSeenNumber == (i > k)
      invariant prefix == Symbols(parts[..if i < k then i else k])
      invariant i > k ==> suffix == Symbols(parts[k..i])
      invariant i <= k ==> suffix == ""
    {
      var part := parts[i];
      if i < k {
        SymbolsAppend(parts[..i], part);
        assert parts[..i + 1] == parts[..i] + [part];
      } else {
        SymbolsAppend(parts[k..i], part);
        assert parts[k..i + 1] == parts[k..i] + [part];
      }
      if !part.kind.Other? {
        hasSeenNumber := true;
      } else if hasSeenNumber {
        suffix := suffix + part.value;
      } else {
        prefix := prefix + part.value;
      }
    }
    assert parts[k..|parts|] == parts[k..];
  }

  /** The significand at an exponent, to three digits. */
  function DigitsAt(a: real, exponent: int): string
    requires a > 0.0 && exponent <= 0
  {
    ToFixed3(Shifted(a, -exponent))
  }

  /** The two texts that `toFixed` can give, and when the first one is 10.000. */
  lemma TinyTexts(a: real, exponent: int)
    requires 0.0 < a < SMALLEST_STANDARD_CURRENCY_AMOUNT && exponent == -(Magnitude(a) as int)
    ensures exponent <= -3 && IsNumeral(WithoutPoint(DigitsAt(a, exponent)))
    ensures NumberOf(DigitsAt(a, exponent)) < 10.0 ==>
              WithoutPoint(DigitsAt(a, exponent)) == Numeral(Rounded(a).0) && Rounded(a).1 == -exponent - 1
    ensures NumberOf(DigitsAt(a, exponent)) >= 10.0 ==>
              WithoutPoint(DigitsAt(a, exponent + 1)) == Numeral(Rounded(a).0) && Rounded(a).1 == -exponent - 2
  {
    var n := Magnitude(a);
    MagnitudeScales(a);
    MagnitudeIsThreeUp(a);
    ToFixed3Reads(Shifted(a, n));
    assert -exponent == n;
    assert NumberOf(DigitsAt(a, exponent)) == Thousandths(Shifted(a, n)) as real / 1000.0;
    if Thousandths(Shifted(a, n)) >= 10000 {
      CarryMakesZeros(a);
      CarriedSignificand(a);
      ToFixed3Reads(Shifted(a, n - 1));
    }
  }

  /** `formatTinyCurrencyAmount` between its affixes. */
  method FormatTinyCurrencyAmount(amount: real, prefix: string, suffix: string) returns (text: string)
    requires 0.0 < amount < SMALLEST_STANDARD_CURRENCY_AMOUNT
    ensures text == prefix + "0." + TinyDecimals(amount) + suffix
  {
    var exponent: int := -(Magnitude(amount) as int);
    TinyTexts(amount, exponent);
    var digits := DigitsAt(amount, exponent);
    if NumberOf(digits) >= 10.0 {
      exponent := exponent + 1;
      digits := DigitsAt(amount, exponent);
    }
    SignificantDigitsRemain(amount);
    var stripped := Stripped(WithoutPoint(digits));
    var significantDigits := if stripped == "" then "0" else stripped;
    var leadingZeros := -exponent - 1;
    assert DecimalsOf(leadingZeros, significantDigits) == TinyDecimals(amount);
    text := prefix + "0." + DecimalsOf(leadingZeros, significantDigits) + suffix;
  }

  /** After a carry the significand is read again one place further up, and is then 1.000. */
  lemma CarriedSignificand(a: real)
    requires 0.0 < a < SMALLEST_STANDARD_CURRENCY_AMOUNT
    requires Thousandths(Shifted(a, Magnitude(a))) >= 10000
    ensures Thousandths(Shifted(a, Magnitude(a) - 1)) == 1000
  {
    MagnitudeScales(a);
    ShiftedFurther(a, Magnitude(a) - 1);
  }

  // ----- abbreviation -----

  datatype Suffix = Plain | M | B

  function Weight(s: Suffix): (w: real)
    ensures w >= 1.0
  {
    match s
    case Plain => 1.0
    case M => MILLION
    case B => BILLION
  }

  /** The amount and suffix with which the recursion ends. */
  function Scaled(amount: real, suffix: Suffix): (r: (real, Suffix))
    decreases if amount >= 0.0 then amount.Floor else 0
  {
    if amount >= BILLION then Scaled(amount / BILLION, B)
    else if amount >= MILLION then Scaled(amount / MILLION, M)
    else (amount, suffix)
  }

  /** The abbreviated value is below a million, and at least one if anything was abbreviated. */
  lemma {:induction false} ScaledRange(amount: real, suffix: Suffix)
    ensures Scaled(amount, suffix).0 < MILLION
    ensures amount >= MILLION ==> Scaled(amount, suffix).0 >= 1.0
    ensures Scaled(amount, suffix).1 != suffix ==> amount >= MILLION
    decreases if amount >= 0.0 then amount.Floor else 0
  {
    if amount >= BILLION {
      ScaledRange(amount / BILLION, B);
    } else if amount >= MILLION {
      ScaledRange(amount / MILLION, M);
    }
  }

  /** What the abbreviated text says. */
  function Stated(amount: real, suffix: Suffix): real {
    Scaled(amount, suffix).0 * Weight(Scaled(amount, suffix).1)
  }

  lemma StatedBelowTheBound(amount: real)
    requires MILLION <= amount < BILLION * MILLION
    ensures forall suffix :: Stated(amount, suffix) == amount
  {
    if amount >= BILLION {
      assert forall suffix :: Scaled(amount, suffix) == (amount / BILLION, B);
    } else {
      assert forall suffix :: Scaled(amount, suffix) == (amount / MILLION, M);
    }
  }

  /** A second round of scaling forgets the first, and with it a factor of a billion. */
  lemma {:induction false} ScalingLoses(amount: real, suffix: Suffix)
    requires amount >= BILLION * MILLION
    ensures Stated(amount, suffix) <= amount / BILLION
    decreases amount.Floor
  {
    var next := amount / BILLION;
    assert Stated(amount, suffix) == Stated(next, B);
    if next < BILLION * MILLION {
      StatedBelowTheBound(next);
    } else {
      ScalingLoses(next, B);
    }
  }

  /** Value times suffix is the amount exactly below 10^15; from there on it is less by a factor of 10^9 or more. */
  lemma SuffixIsExactIff(amount: real)
    ensures Stated(amount, Plain) == amount <==> amount < BILLION * MILLION
    ensures amount >= BILLION * MILLION ==> Stated(amount, Plain) <= amount / BILLION
  {
    if amount >= BILLION * MILLION {
      ScalingLoses(amount, Plain);
    } else if amount >= MILLION {
      StatedBelowTheBound(amount);
    }
  }

  datatype Options = Currency(code: string) | Ticker(ticker: string) | Precision(high: bool)

  /** The options of `Intl.NumberFormat`. */
  datatype Style =
    | CurrencyStyle(code: string, maximumFractionDigits: nat)
    | DecimalStyle(maximumFractionDigits: nat)

  /** `Intl.NumberFormat`, the affixes it gives for a currency, and `toUpperCase`. */
  datatype Locale = Locale(
    intl: (real, Style) -> string, affixes: string -> (string, string), upper: string -> string)

  function StyleOf(options: Options, locale: Locale): Style {
    match options
    case Currency(code) => CurrencyStyle(locale.upper(code), 2)
    case Ticker(_) => DecimalStyle(8)
    case Precision(high) => DecimalStyle(if high then 8 else 3)
  }

  function SuffixText(s: Suffix): string {
    match s
    case Plain => ""
    case M => "M"
    case B => "B"
  }

  /** `formatAmount`. */
  function Format(amount: real, options: Options, suffix: Suffix, locale: Locale): string
    decreases if amount >= 0.0 then amount.Floor else 0
  {
    if amount >= BILLION then Format(amount / BILLION, options, B, locale)
    else if amount >= MILLION then Format(amount / MILLION, options, M, locale)
    else if options.Currency? && 0.0 < amount < SMALLEST_STANDARD_CURRENCY_AMOUNT then
      var affixes := locale.affixes(locale.upper(options.code));
      affixes.0 + "0." + TinyDecimals(amount) + affixes.1
    else
      var result := locale.intl(amount, StyleOf(options, locale)) + SuffixText(suffix);
      if options.Ticker? then result + " " + options.ticker else result
  }

  /** Recursion only scales: the text is that of the scaled value with the last suffix, whatever the options. */
  lemma {:induction false} FormatPrintsTheScaledValue(
      amount: real, options: Options, suffix: Suffix, locale: Locale)
    ensures var (value, s) := Scaled(amount, suffix);
            Format(amount, options, suffix, locale) == Format(value, options, s, locale)
    ensures var (value, s) := Scaled(amount, suffix);
            value < MILLION && (amount >= MILLION ==> value >= 1.0)
    decreases if amount >= 0.0 then amount.Floor else 0
  {
    ScaledRange(amount, suffix);
    if amount >= BILLION {
      FormatPrintsTheScaledValue(amount / BILLION, options, B, locale);
    } else if amount >= MILLION {
      FormatPrintsTheScaledValue(amount / MILLION, options, M, locale);
    }
  }

  // ----- what is printed -----

  /** The number as `Intl` prints it under each option: 2 decimals for a currency, 8 for a ticker, 8 or 3 otherwise. */
  function Printed(value: real, options: Options, locale: Locale): string {
    if options.Currency? then locale.intl(value, CurrencyStyle(locale.upper(options.code), 2))
    else if options.Ticker? || options.high then locale.intl(value, DecimalStyle(8))
    else locale.intl(value, DecimalStyle(3))
  }

  /** A ticker follows behind a blank. */
  function Labelled(text: string, options: Options): string {
    if options.Ticker? then text + " " + options.ticker else text
  }

  /** Millions are printed with M and billions with B, up to 10^15; from there on a factor of a billion is lost. */
  lemma LargeAmounts(amount: real, options: Options, locale: Locale)
    ensures 1000000.0 <= amount < 1000000000.0 ==>
              Format(amount, options, Plain, locale)
              == Labelled(Printed(amount / 1000000.0, options, locale) + "M", options)
    ensures 1000000000.0 <= amount < 1000000000000000.0 ==>
              Format(amount, options, Plain, locale)
              == Labelled(Printed(amount / 1000000000.0, options, locale) + "B", options)
    ensures amount >= 1000000000000000.0 ==>
              Format(amount, options, Plain, locale) == Format(amount / 1000000000.0, options, Plain, locale)
  {
    if MILLION <= amount < BILLION {
      BelowAMillion(amount / MILLION, options, M, locale);
    } else if BILLION <= amount < BILLION * MILLION {
      BelowAMillion(amount / BILLION, options, B, locale);
    } else if amount >= BILLION * MILLION {
      AbbreviationForgets(amount / BILLION, options, B, Plain, locale);
    }
  }

  lemma BelowAMillion(value: real, options: Options, suffix: Suffix, locale: Locale)
    requires 1.0 <= value < MILLION
    ensures Format(value, options, suffix, locale)
            == Labelled(Printed(value, options, locale) + SuffixText(suffix), options)
  {
  }

  lemma AbbreviationForgets(amount: real, options: Options, s: Suffix, t: Suffix, locale: Locale)
    requires amount >= MILLION
    ensures Format(amount, options, s, locale) == Format(amount, options, t, locale)
  {
  }

  /** A currency amount below half a cent stands between the affixes of its currency; others are printed as they are. */
  lemma SmallAmounts(amount: real, options: Options, locale: Locale)
    requires amount < 1000000.0
    ensures options.Currency? && 0.0 < amount < 0.005 ==>
              var affixes := locale.affixes(locale.upper(options.code));
              var decimals := TinyDecimals(amount);
              && Format(amount, options, Plain, locale) == affixes.0 + ("0." + decimals) + affixes.1
              && IsNumeral(Expanded(decimals)) && ReadDecimals(decimals) == FourDigits(amount)
    ensures !(options.Currency? && 0.0 < amount < 0.005) ==>
              Format(amount, options, Plain, locale) == Labelled(Printed(amount, options, locale), options)
  {
    if options.Currency? && 0.0 < amount < 0.005 {
      TinyAmountReadsBack(amount);
      var affixes := locale.affixes(locale.upper(options.code));
      assert affixes.0 + "0." + TinyDecimals(amount) == affixes.0 + ("0." + TinyDecimals(amount));
    } else {
      var text := locale.intl(amount, StyleOf(options, locale));
      assert text + "" == text;
    }
  }
}
