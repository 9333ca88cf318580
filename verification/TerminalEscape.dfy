/** `escapeTerminalControls`, which goes over the code points of a string of UTF-16 code units. */
module TerminalEscape {
  import opened Wrappers
  import opened Utf8

  const BACKSLASH: CodeUnit := 0x5c
  const LETTER_X: CodeUnit := 0x78

  predicate IsControl(u: int) {
    u <= 0x1f || u == 0x7f || 0x80 <= u <= 0x9f
  }

  function HexDigit(d: nat): CodeUnit
    requires d < 16
  {
    if d < 10 then 0x30 + d else 0x41 + d - 10
  }

  /** `toString(16)` in upper case. */
  function Hex(n: nat): Units {
    (if n < 16 then [] else Hex(n / 16)) + [HexDigit(n % 16)]
  }

  function PaddedToTwo(s: Units): Units {
    if |s| == 0 then [0x30, 0x30] else if |s| == 1 then [0x30] + s else s
  }

  function EscapedUnit(u: CodeUnit): Units {
    if u == BACKSLASH then [BACKSLASH, BACKSLASH]
    else if IsControl(u) then [BACKSLASH, LETTER_X] + PaddedToTwo(Hex(u))
    else [u]
  }

  function Escaped(s: Units): Units
    decreases |s|
  {
    if s == [] then []
    else if StartsWithPair(s) then s[..2] + Escaped(s[2..])
    else EscapedUnit(s[0]) + Escaped(s[1..])
  }

  function DigitValue(u: CodeUnit): Option<nat> {
    if 0x30 <= u <= 0x39 then Some(u - 0x30) else if 0x41 <= u <= 0x46 then Some(u - 0x41 + 10) else None
  }

  /** Reads escapes back; a backslash that starts no escape is an error. */
  function Unescaped(s: Units): Option<Units>
    decreases |s|
  {
    if s == [] then Some([])
    else if s[0] != BACKSLASH then Prepend(s[0], Unescaped(s[1..]))
    else if |s| >= 2 && s[1] == BACKSLASH then Prepend(BACKSLASH, Unescaped(s[2..]))
    else if |s| >= 4 && s[1] == LETTER_X && DigitValue(s[2]).Some? && DigitValue(s[3]).Some?
    then Prepend(16 * DigitValue(s[2]).value + DigitValue(s[3]).value, Unescaped(s[4..]))
    else None
  }

  function Prepend(u: CodeUnit, rest: Option<Units>): Option<Units> {
    if rest == None then None else Some([u] + rest.value)
  }

  lemma ControlIsTwoDigits(u: CodeUnit)
    requires u < 0x100
    ensures PaddedToTwo(Hex(u)) == [HexDigit(u / 16), HexDigit(u % 16)]
  {
    if u >= 16 {
      assert Hex(u / 16) == [HexDigit(u / 16)];
    }
  }

  lemma UnescapedUnit(u: CodeUnit, rest: Units)
    ensures Unescaped(EscapedUnit(u) + rest) == Prepend(u, Unescaped(rest))
  {
    var s := EscapedUnit(u) + rest;
    if u == BACKSLASH {
      assert s[2..] == rest;
    } else if IsControl(u) {
      ControlIsTwoDigits(u);
      assert s[4..] == rest;
    } else {
      assert s[1..] == rest;
    }
  }

  lemma UnescapedPlain(u: CodeUnit, rest: Units)
    requires u != BACKSLASH
    ensures Unescaped([u] + rest) == Prepend(u, Unescaped(rest))
  {
    assert ([u] + rest)[1..] == rest;
  }

  lemma PairReturns(s: Units, rest: Units)
    requires StartsWithPair(s)
    ensures Unescaped(s[..2] + rest) == Prepend(s[0], Prepend(s[1], Unescaped(rest)))
  {
    assert s[..2] + rest == [s[0]] + ([s[1]] + rest);
    UnescapedPlain(s[0], [s[1]] + rest);
    UnescapedPlain(s[1], rest);
  }

  /** Escaping is undone by the reader for every string, lone surrogates included. */
  lemma {:induction false} EscapeIsReversible(s: Units)
    ensures Unescaped(Escaped(s)) == Some(s)
    decreases |s|
  {
    if s == [] {
    } else if StartsWithPair(s) {
      EscapeIsReversible(s[2..]);
      PairReturns(s, Escaped(s[2..]));
      assert [s[0]] + ([s[1]] + s[2..]) == s;
    } else {
      EscapeIsReversible(s[1..]);
      UnescapedUnit(s[0], Escaped(s[1..]));
      assert [s[0]] + s[1..] == s;
    }
  }

  /** No control character is ever emitted. */
  lemma {:induction false} EscapeEmitsNoControls(s: Units)
    ensures forall u :: u in Escaped(s) ==> u >= 0x20 && !(0x7f <= u <= 0x9f)
    decreases |s|
  {
    if s == [] {
    } else if StartsWithPair(s) {
      EscapeEmitsNoControls(s[2..]);
    } else {
      EscapeEmitsNoControls(s[1..]);
      if IsControl(s[0]) {
        ControlIsTwoDigits(s[0]);
      }
    }
  }

  predicate IsPlain(u: CodeUnit) {
    u != BACKSLASH && !IsControl(u)
  }

  /** A backslash is doubled, and a control is written with two hexadecimal digits in upper case. */
  lemma EscapedForms(u: CodeUnit)
    ensures u == 0x5c ==> EscapedUnit(u) == [0x5c, 0x5c]
    ensures u < 0x20 || 0x7f <= u <= 0x9f ==>
              |EscapedUnit(u)| == 4 && EscapedUnit(u)[..2] == [0x5c, 0x78]
              && EscapedUnit(u)[2] as int == "0123456789ABCDEF"[u / 16] as int
              && EscapedUnit(u)[3] as int == "0123456789ABCDEF"[u % 16] as int
    ensures u != 0x5c && u >= 0x20 && !(0x7f <= u <= 0x9f) ==> EscapedUnit(u) == [u]
  {
    if u < 0x100 {
      ControlIsTwoDigits(u);
      HexDigitIsUpperCase(u / 16);
      HexDigitIsUpperCase(u % 16);
    }
  }

  lemma HexDigitIsUpperCase(d: nat)
    requires d < 16
    ensures HexDigit(d) as int == "0123456789ABCDEF"[d] as int
  {
    assert "0123456789ABCDEF"[0] == '0' && "0123456789ABCDEF"[1] == '1' && "0123456789ABCDEF"[2] == '2';
  }

  lemma EscapedUnitIsPlainIff(u: CodeUnit)
    ensures |EscapedUnit(u)| >= 1 && (|EscapedUnit(u)| == 1 <==> IsPlain(u)) && (IsPlain(u) ==> EscapedUnit(u) == [u])
  {
    if IsControl(u) {
      ControlIsTwoDigits(u);
    }
  }

  lemma SamePlainParts(first: Units, a: Units, rest: Units, b: Units)
    requires |first| >= |a| && |rest| >= |b|
    ensures first + rest == a + b <==> first == a && rest == b
  {
    if first + rest == a + b {
      assert |first| == |a|;
      assert first == (first + rest)[..|a|] == a;
      assert rest == (first + rest)[|a|..] == b;
    }
  }

  lemma {:induction false} PlainTextStays(s: Units)
    ensures Escaped(s) == s <==> forall u :: u in s ==> IsPlain(u)
    ensures |Escaped(s)| >= |s|
    decreases |s|
  {
    if s != [] {
      var n := FirstLength(s);
      var first := if StartsWithPair(s) then s[..2] else EscapedUnit(s[0]);
      PlainTextStays(s[n..]);
      EscapedUnitIsPlainIff(s[0]);
      SamePlainParts(first, s[..n], Escaped(s[n..]), s[n..]);
      assert s == s[..n] + s[n..];
      assert forall u :: u in s <==> u in s[..n] || u in s[n..];
      assert StartsWithPair(s) ==> s[..n] == [s[0], s[1]];
      assert !StartsWithPair(s) ==> s[..n] == [s[0]];
    }
  }

  /** Text without backslashes and controls, and no other text, is shown as it is. */
  lemma EscapeLeavesPlainTextIff(s: Units)
    ensures Escaped(s) == s <==> forall u :: u in s ==> u >= 0x20 && u != 0x5c && !(0x7f <= u <= 0x9f)
  {
    PlainTextStays(s);
    assert forall u: CodeUnit :: IsPlain(u) <==> u >= 0x20 && u != 0x5c && !(0x7f <= u <= 0x9f);
  }
}
