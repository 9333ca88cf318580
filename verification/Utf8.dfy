/**
 * What `TextEncoder` writes for a JavaScript string: UTF-16 code units to scalar values, with lone
 * surrogates replaced by U+FFFD, and scalar values to octets as in section 3 of RFC 3629.
 * The decoder of section 4 of that document serves as the reference.
 */
module Utf8 {
  import opened Wrappers
  import opened Octets

  type CodeUnit = x: int | 0 <= x < 0x1_0000
  type Units = seq<CodeUnit>

  predicate IsLead(u: CodeUnit) {
    0xD800 <= u < 0xDC00
  }

  predicate IsTrail(u: CodeUnit) {
    0xDC00 <= u < 0xE000
  }

  predicate IsScalar(v: int) {
    0 <= v < 0xD800 || 0xE000 <= v <= 0x10FFFF
  }

  type Scalar = v: int | 0 <= v < 0xD800 || 0xE000 <= v <= 0x10FFFF

  const REPLACEMENT_CHARACTER: Scalar := 0xFFFD

  predicate StartsWithPair(s: Units) {
    |s| >= 2 && IsLead(s[0]) && IsTrail(s[1])
  }

  /** How many code units the first scalar value of `s` takes. */
  function FirstLength(s: Units): nat
    requires s != []
  {
    if StartsWithPair(s) then 2 else 1
  }

  function FirstScalar(s: Units): Scalar
    requires s != []
  {
    if StartsWithPair(s) then 0x1_0000 + (s[0] - 0xD800) * 0x400 + (s[1] - 0xDC00)
    else if IsLead(s[0]) || IsTrail(s[0]) then REPLACEMENT_CHARACTER
    else s[0]
  }

  /** The string as a sequence of scalar values. */
  function Scalars(s: Units): seq<Scalar>
    decreases |s|
  {
    if s == [] then [] else [FirstScalar(s)] + Scalars(s[FirstLength(s)..])
  }

  function EncodeScalar(v: Scalar): (b: Bytes)
    ensures 1 <= |b| <= 4
    ensures v < 0x1_0000 ==> |b| <= 3
  {
    if v < 0x80 then [v]
    else if v < 0x800 then [0xC0 + v / 0x40, 0x80 + v % 0x40]
    else if v < 0x1_0000 then [0xE0 + v / 0x1000, 0x80 + v / 0x40 % 0x40, 0x80 + v % 0x40]
    else
      assert v / 0x4_0000 <= 4;
      [0xF0 + v / 0x4_0000, 0x80 + v / 0x1000 % 0x40, 0x80 + v / 0x40 % 0x40, 0x80 + v % 0x40]
  }

  function EncodeScalars(vs: seq<Scalar>): Bytes {
    if vs == [] then [] else EncodeScalar(vs[0]) + EncodeScalars(vs[1..])
  }

  /** `TextEncoder.encode`. */
  function Encode(s: Units): Bytes {
    EncodeScalars(Scalars(s))
  }

  // ----- the reference decoder -----

  predicate IsTail(b: byte) {
    0x80 <= b < 0xC0
  }

  /** The six bits a tail octet carries. */
  function Tail(b: byte): (bits: int)
    requires IsTail(b)
    ensures 0 <= bits < 0x40
  {
    b as int - 0x80
  }

  /** The first scalar value of `b` and its number of octets; None unless they are well formed. */
  function DecodeFirst(b: Bytes): (r: Option<(Scalar, nat)>)
    requires b != []
    ensures r.Some? ==> 1 <= r.value.1 <= |b|
  {
    var lead: int := b[0];
    if lead < 0x80 then Some((lead, 1))
    else if 0xC2 <= lead < 0xE0 && |b| >= 2 && IsTail(b[1]) then
      Some(((lead - 0xC0) * 0x40 + Tail(b[1]), 2))
    else if 0xE0 <= lead < 0xF0 && |b| >= 3 && IsTail(b[1]) && IsTail(b[2]) then
      var v := (lead - 0xE0) * 0x1000 + Tail(b[1]) * 0x40 + Tail(b[2]);
      if v >= 0x800 && IsScalar(v) then Some((v, 3)) else None
    else if 0xF0 <= lead < 0xF5 && |b| >= 4 && IsTail(b[1]) && IsTail(b[2]) && IsTail(b[3]) then
      var v := (lead - 0xF0) * 0x4_0000 + Tail(b[1]) * 0x1000 + Tail(b[2]) * 0x40 + Tail(b[3]);
      if 0x1_0000 <= v <= 0x10FFFF then Some((v, 4)) else None
    else None
  }

  /** A fatal decoder: None on any malformed octet. */
  function Decode(b: Bytes): Option<seq<Scalar>>
    decreases |b|
  {
    if b == [] then Some([])
    else
      var first := DecodeFirst(b);
      if first.None? then None
      else
        var rest := Decode(b[first.value.1..]);
        if rest.None? then None else Some([first.value.0] + rest.value)
  }

  /** The six-bit groups of a number below 2^21. */
  lemma SixBitGroups(v: nat)
    ensures v / 0x40 / 0x40 == v / 0x1000 && v / 0x1000 / 0x40 == v / 0x4_0000
    ensures v == v / 0x1000 * 0x1000 + v / 0x40 % 0x40 * 0x40 + v % 0x40
    ensures v == v / 0x4_0000 * 0x4_0000 + v / 0x1000 % 0x40 * 0x1000 + v / 0x40 % 0x40 * 0x40 + v % 0x40
  {
    assert v == v / 0x40 * 0x40 + v % 0x40;
    assert v / 0x40 == v / 0x40 / 0x40 * 0x40 + v / 0x40 % 0x40;
    assert v / 0x1000 == v / 0x1000 / 0x40 * 0x40 + v / 0x1000 % 0x40;
  }

  lemma DecodeFirstInvertsEncode(v: Scalar, rest: Bytes)
    ensures DecodeFirst(EncodeScalar(v) + rest) == Some((v, |EncodeScalar(v)|))
  {
    var e := EncodeScalar(v);
    var b := e + rest;
    assert b[0] == e[0];
    SixBitGroups(v);
    if 0x80 <= v < 0x800 {
      assert b[1] == e[1];
    } else if 0x800 <= v < 0x1_0000 {
      assert b[1] == e[1] && b[2] == e[2];
    } else if 0x1_0000 <= v {
      assert v / 0x4_0000 <= 4;
      assert b[1] == e[1] && b[2] == e[2] && b[3] == e[3];
    }
  }

  /** Decoding undoes encoding. */
  lemma {:induction false} DecodeInvertsEncode(vs: seq<Scalar>)
    ensures Decode(EncodeScalars(vs)) == Some(vs)
  {
    if vs != [] {
      var head, rest := EncodeScalar(vs[0]), EncodeScalars(vs[1..]);
      DecodeFirstInvertsEncode(vs[0], rest);
      assert (head + rest)[|head|..] == rest;
      DecodeInvertsEncode(vs[1..]);
      assert vs == [vs[0]] + vs[1..];
    }
  }

  lemma SixBitJoin(high: nat, low: nat)
    requires low < 0x40
    ensures (high * 0x40 + low) / 0x40 == high && (high * 0x40 + low) % 0x40 == low
  {
  }

  lemma ThreeOctetsReturn(b: Bytes)
    requires b != [] && DecodeFirst(b).Some? && DecodeFirst(b).value.1 == 3
    ensures EncodeScalar(DecodeFirst(b).value.0) == b[..3]
  {
    var v: int, lead: int := DecodeFirst(b).value.0, b[0];
    var high := (lead - 0xE0) * 0x40 + Tail(b[1]);
    assert v == high * 0x40 + Tail(b[2]);
    SixBitGroups(v);
    SixBitJoin(lead - 0xE0, Tail(b[1]));
    SixBitJoin(high, Tail(b[2]));
  }

  lemma FourOctetsReturn(b: Bytes)
    requires b != [] && DecodeFirst(b).Some? && DecodeFirst(b).value.1 == 4
    ensures EncodeScalar(DecodeFirst(b).value.0) == b[..4]
  {
    var v: int, lead: int := DecodeFirst(b).value.0, b[0];
    var middle := (lead - 0xF0) * 0x40 + Tail(b[1]);
    var high := middle * 0x40 + Tail(b[2]);
    assert v == high * 0x40 + Tail(b[3]);
    SixBitGroups(v);
    SixBitJoin(lead - 0xF0, Tail(b[1]));
    SixBitJoin(middle, Tail(b[2]));
    SixBitJoin(high, Tail(b[3]));
  }

  lemma EncodeInvertsDecodeFirst(b: Bytes)
    requires b != [] && DecodeFirst(b).Some?
    ensures var (v, n) := DecodeFirst(b).value; EncodeScalar(v) == b[..n]
  {
    var (v, n) := DecodeFirst(b).value;
    if n == 2 {
      SixBitJoin(b[0] as int - 0xC0, Tail(b[1]));
    } else if n == 3 {
      ThreeOctetsReturn(b);
    } else if n == 4 {
      FourOctetsReturn(b);
    }
  }

  /** Octets that decode are the encoding of what they decode to: there is one encoding per string. */
  lemma {:induction false} EncodeInvertsDecode(b: Bytes)
    ensures Decode(b).Some? ==> EncodeScalars(Decode(b).value) == b
    decreases |b|
  {
    if b != [] && DecodeFirst(b).Some? {
      var (v, n) := DecodeFirst(b).value;
      EncodeInvertsDecodeFirst(b);
      EncodeInvertsDecode(b[n..]);
      assert b == b[..n] + b[n..];
      if Decode(b).Some? {
        assert Decode(b).value[1..] == Decode(b[n..]).value;
      }
    }
  }

  // ----- what the fast path relies on -----

  /** A code unit takes at most three octets. */
  lemma {:induction false} EncodeFitsThreePerUnit(s: Units)
    ensures |Encode(s)| <= 3 * |s|
    decreases |s|
  {
    if s != [] {
      EncodeUnfolds(s);
      EncodeFitsThreePerUnit(s[FirstLength(s)..]);
    }
  }

  lemma EncodeUnfolds(s: Units)
    requires s != []
    ensures Encode(s) == EncodeScalar(FirstScalar(s)) + Encode(s[FirstLength(s)..])
  {
    assert Scalars(s)[1..] == Scalars(s[FirstLength(s)..]);
  }

  predicate IsAscii(s: Units) {
    forall i :: 0 <= i < |s| ==> s[i] <= 0x7F
  }

  lemma AsciiFirst(s: Units)
    requires s != [] && s[0] <= 0x7F
    ensures Encode(s) == [s[0] as byte] + Encode(s[1..])
  {
    EncodeUnfolds(s);
  }

  lemma AsciiBytesUnfolds(s: Units)
    requires IsAscii(s) && s != []
    ensures s[0] <= 0x7F && IsAscii(s[1..]) && AsciiBytes(s) == [s[0] as byte] + AsciiBytes(s[1..])
  {
    assert forall i :: 0 <= i < |s[1..]| ==> s[1..][i] == s[i + 1];
  }

  lemma ConcatIsAssociative(a: Bytes, b: Bytes, c: Bytes)
    ensures (a + b) + c == a + (b + c)
  {
  }

  /** An ASCII prefix is its own encoding, and the rest is encoded as if it stood alone. */
  lemma {:induction false} AsciiPrefixSplits(prefix: Units, rest: Units)
    requires IsAscii(prefix)
    ensures Encode(prefix + rest) == AsciiBytes(prefix) + Encode(rest)
  {
    if prefix == [] {
      assert prefix + rest == rest;
    } else {
      assert (prefix + rest)[1..] == prefix[1..] + rest;
      AsciiBytesUnfolds(prefix);
      AsciiFirst(prefix + rest);
      AsciiPrefixSplits(prefix[1..], rest);
      ConcatIsAssociative([prefix[0] as byte], AsciiBytes(prefix[1..]), Encode(rest));
    }
  }

  function AsciiBytes(s: Units): (b: Bytes)
    requires IsAscii(s)
    ensures |b| == |s| && forall i :: 0 <= i < |s| ==> b[i] == s[i]
  {
    seq(|s|, i requires 0 <= i < |s| => s[i])
  }

  // ----- strings there and back -----

  /** UTF-16, the form in which a decoder hands the string back. */
  function UnitsOf(v: Scalar): Units {
    if v < 0x1_0000 then [v] else [0xD800 + (v - 0x1_0000) / 0x400, 0xDC00 + (v - 0x1_0000) % 0x400]
  }

  function ToUnits(vs: seq<Scalar>): Units {
    if vs == [] then [] else UnitsOf(vs[0]) + ToUnits(vs[1..])
  }

  /** Every surrogate is half of a pair. */
  predicate NoLoneSurrogate(s: Units)
    decreases |s|
  {
    s == [] || ((StartsWithPair(s) || !(IsLead(s[0]) || IsTrail(s[0]))) && NoLoneSurrogate(s[FirstLength(s)..]))
  }

  lemma FirstUnitsReturn(s: Units)
    requires s != []
    ensures |UnitsOf(FirstScalar(s))| == FirstLength(s)
    ensures UnitsOf(FirstScalar(s)) == s[..FirstLength(s)] <==> StartsWithPair(s) || !(IsLead(s[0]) || IsTrail(s[0]))
  {
    if StartsWithPair(s) {
      var high, low: int := s[0] - 0xD800, s[1] - 0xDC00;
      assert (high * 0x400 + low) / 0x400 == high && (high * 0x400 + low) % 0x400 == low;
      assert s[..2] == [s[0], s[1]];
    } else {
      assert s[..1] == [s[0]];
      assert UnitsOf(FirstScalar(s)) == [FirstScalar(s)];
      assert [FirstScalar(s)][0] == FirstScalar(s);
      assert [s[0]][0] == s[0];
    }
  }

  lemma {:induction false} UnitsReturnIff(s: Units)
    ensures |ToUnits(Scalars(s))| == |s|
    ensures ToUnits(Scalars(s)) == s <==> NoLoneSurrogate(s)
    decreases |s|
  {
    if s != [] {
      var n := FirstLength(s);
      FirstUnitsReturn(s);
      UnitsReturnIff(s[n..]);
      var first, rest := UnitsOf(FirstScalar(s)), ToUnits(Scalars(s[n..]));
      assert ToUnits(Scalars(s)) == first + rest;
      assert (first + rest)[..n] == first && (first + rest)[n..] == rest;
      assert s == s[..n] + s[n..];
    }
  }

  /** A string comes back from the other side unchanged if and only if it holds no lone surrogate. */
  lemma StringSurvivesIff(s: Units)
    ensures Decode(Encode(s)).Some?
    ensures ToUnits(Decode(Encode(s)).value) == s <==> NoLoneSurrogate(s)
    ensures |ToUnits(Decode(Encode(s)).value)| == |s|
  {
    DecodeInvertsEncode(Scalars(s));
    UnitsReturnIff(s);
  }

  /** A surrogate without its other half beside it. */
  predicate IsLoneAt(s: Units, i: nat)
    requires i < |s|
  {
    || (0xD800 <= s[i] < 0xDC00 && !(i + 1 < |s| && 0xDC00 <= s[i + 1] < 0xE000))
    || (0xDC00 <= s[i] < 0xE000 && !(i > 0 && 0xD800 <= s[i - 1] < 0xDC00))
  }

  lemma LoneBehindFirst(s: Units, i: nat)
    requires s != [] && FirstLength(s) <= i < |s|
    ensures IsLoneAt(s, i) <==> IsLoneAt(s[FirstLength(s)..], i - FirstLength(s))
  {
    var n := FirstLength(s);
    assert s[n..][i - n] == s[i];
    if i > n {
      assert s[n..][i - n - 1] == s[i - 1];
    }
    if i + 1 < |s| {
      assert s[n..][i - n + 1] == s[i + 1];
    }
  }

  lemma FirstUnitsAt(s: Units, i: nat)
    requires s != [] && i < FirstLength(s)
    ensures |UnitsOf(FirstScalar(s))| == FirstLength(s)
    ensures UnitsOf(FirstScalar(s))[i] == if IsLoneAt(s, i) then 0xFFFD else s[i]
  {
    FirstUnitsReturn(s);
    if StartsWithPair(s) {
      assert s[..2][i] == s[i];
    }
  }

  lemma {:induction false} UnitsReturnAt(s: Units, i: nat)
    requires i < |s|
    ensures |ToUnits(Scalars(s))| == |s|
    ensures ToUnits(Scalars(s))[i] == if IsLoneAt(s, i) then 0xFFFD else s[i]
    decreases |s|
  {
    var n := FirstLength(s);
    var first, rest := UnitsOf(FirstScalar(s)), ToUnits(Scalars(s[n..]));
    UnitsReturnIff(s);
    FirstUnitsReturn(s);
    assert ToUnits(Scalars(s)) == first + rest;
    if i < n {
      FirstUnitsAt(s, i);
    } else {
      LoneBehindFirst(s, i);
      UnitsReturnAt(s[n..], i - n);
    }
  }

  /** What comes back, unit by unit: each lone surrogate has become U+FFFD and nothing else has changed. */
  lemma StringComesBackAs(s: Units, i: nat)
    requires i < |s|
    ensures Decode(Encode(s)).Some?
    ensures var back := ToUnits(Decode(Encode(s)).value);
            |back| == |s| && back[i] == if IsLoneAt(s, i) then 0xFFFD else s[i]
  {
    DecodeInvertsEncode(Scalars(s));
    UnitsReturnAt(s, i);
  }
}
