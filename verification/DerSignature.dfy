/**
 * `encodeDERSignature`: two unsigned numbers as a DER sequence, against a decoder of definite short-form
 * lengths and two's complement integers written from sections 8.1.3.4 and 8.3 of ITU-T X.690.
 */
module DerSignature {
  import opened Wrappers
  import opened Octets

  const SEQUENCE_TAG: byte := 0x30
  const INTEGER_TAG: byte := 0x02

  // ----- what is written -----

  /** The contents octets: a zero in front keeps a first octet of 0x80 or more from being a sign. */
  function Contents(v: Bytes): Bytes {
    if v != [] && v[0] >= 0x80 then [0] + v else v
  }

  /** A number stored into a `Uint8Array`. */
  function Truncated(n: nat): byte {
    n % 256
  }

  function IntegerOctets(v: Bytes): Bytes {
    [INTEGER_TAG, Truncated(|Contents(v)|)] + Contents(v)
  }

  function SignatureOctets(r: Bytes, s: Bytes): Bytes {
    [SEQUENCE_TAG, Truncated(|IntegerOctets(r)| + |IntegerOctets(s)|)] + IntegerOctets(r) + IntegerOctets(s)
  }

  function Spliced(b: Bytes, at: nat, data: Bytes): Bytes
    requires at + |data| <= |b|
  {
    b[..at] + data + b[at + |data|..]
  }

  /** `Uint8Array.set` */
  method SetAt(target: array<byte>, source: array<byte>, offset: nat)
    requires offset + source.Length <= target.Length && target != source
    modifies target
    ensures target[..] == Spliced(old(target[..]), offset, source[..])
  {
    for i := 0 to source.Length
      invariant target[..offset] == old(target[..offset])
      invariant target[offset + source.Length..] == old(target[offset + source.Length..])
      invariant target[offset..offset + i] == source[..i]
    {
      target[offset + i] := source[i];
      assert target[offset..offset + i + 1] == target[offset..offset + i] + [source[i]];
    }
    assert source[..source.Length] == source[..];
    assert target[..] == target[..offset] + target[offset..offset + source.Length] + target[offset + source.Length..];
  }

  method EncodeDERInteger(value: array<byte>) returns (der: array<byte>)
    ensures fresh(der) && der[..] == IntegerOctets(value[..])
  {
    var byteArray := value;
    if value.Length > 0 && value[0] >= 0x80 {
      byteArray := new byte[value.Length + 1](_ => 0);
      SetAt(byteArray, value, 1);
      assert byteArray[..] == [0] + value[..];
    }
    assert byteArray[..] == Contents(value[..]);
    der := new byte[byteArray.Length + 2](_ => 0);
    der[0] := INTEGER_TAG;
    der[1] := Truncated(byteArray.Length);
    assert der[..2] == [INTEGER_TAG, Truncated(byteArray.Length)];
    SetAt(der, byteArray, 2);
  }

  /** Behind a header of two octets, two strings that fill the rest. */
  lemma Assembled(b: Bytes, r: Bytes, s: Bytes)
    requires |b| == 2 + |r| + |s|
    ensures Spliced(Spliced(b, 2, r), 2 + |r|, s) == b[..2] + r + s
  {
    var first := Spliced(b, 2, r);
    assert first[..2 + |r|] == b[..2] + r;
    assert first[2 + |r| + |s|..] == [];
  }

  method EncodeDERSignature(r: array<byte>, s: array<byte>) returns (der: array<byte>)
    ensures fresh(der) && der[..] == SignatureOctets(r[..], s[..])
  {
    var rDER := EncodeDERInteger(r);
    var sDER := EncodeDERInteger(s);
    der := new byte[2 + rDER.Length + sDER.Length](_ => 0);
    der[0] := SEQUENCE_TAG;
    der[1] := Truncated(rDER.Length + sDER.Length);
    ghost var headed := der[..];
    assert headed[..2] == [SEQUENCE_TAG, Truncated(rDER.Length + sDER.Length)];
    Assembled(headed, rDER[..], sDER[..]);
    SetAt(der, rDER, 2);
    SetAt(der, sDER, 2 + rDER.Length);
    assert der[..] == headed[..2] + rDER[..] + sDER[..];
  }

  // ----- what is read -----

  /** The unsigned number of some octets, first octet most significant. */
  function Unsigned(b: Bytes): nat
    decreases |b|
  {
    if b == [] then 0 else 256 * Unsigned(b[..|b| - 1]) + b[|b| - 1]
  }

  function Pow256(k: nat): (p: nat)
    ensures p >= 1
  {
    if k == 0 then 1 else 256 * Pow256(k - 1)
  }

  /** Section 8.3.3: contents octets are a two's complement number. */
  function Signed(b: Bytes): int {
    if b != [] && b[0] >= 0x80 then Unsigned(b) - Pow256(|b|) else Unsigned(b)
  }

  /** One INTEGER of one or more contents octets, and what follows it. */
  function DecodeInteger(b: Bytes): Option<(int, Bytes)> {
    if |b| >= 2 && b[0] == INTEGER_TAG && 1 <= b[1] < 0x80 && |b| >= 2 + b[1]
    then Some((Signed(b[2..2 + b[1]]), b[2 + b[1]..]))
    else None
  }

  /** Two INTEGERs and nothing else. */
  function DecodePair(b: Bytes): Option<(int, int)> {
    match DecodeInteger(b)
    case None => None
    case Some((first, rest)) =>
      match DecodeInteger(rest)
      case None => None
      case Some((second, end)) => if end == [] then Some((first, second)) else None
  }

  /** A SEQUENCE of exactly two INTEGERs that fills all the octets. */
  function DecodeSignature(b: Bytes): Option<(int, int)> {
    if |b| >= 2 && b[0] == SEQUENCE_TAG && b[1] < 0x80 && |b| == 2 + b[1] then DecodePair(b[2..]) else None
  }

  lemma {:induction false} LeadingZero(v: Bytes)
    ensures Unsigned([0] + v) == Unsigned(v)
    decreases |v|
  {
    if v == [] {
      assert ([0] + v)[..0] == [];
    } else {
      LeadingZero(v[..|v| - 1]);
      assert ([0] + v)[..|v|] == [0] + v[..|v| - 1];
    }
  }

  /** The integer that is written is never negative, and is the unsigned number given. */
  lemma ContentsAreUnsigned(v: Bytes)
    ensures Signed(Contents(v)) == Unsigned(v)
  {
    LeadingZero(v);
  }

  lemma IntegerReadsBack(v: Bytes, rest: Bytes)
    requires |Contents(v)| < 0x80
    ensures DecodeInteger(IntegerOctets(v) + rest) == if v == [] then None else Some((Unsigned(v) as int, rest))
  {
    var b := IntegerOctets(v) + rest;
    assert b[1] == |Contents(v)|;
    if v != [] {
      assert b[2..2 + |Contents(v)|] == Contents(v);
      assert b[2 + |Contents(v)|..] == rest;
      ContentsAreUnsigned(v);
    }
  }

  function Total(r: Bytes, s: Bytes): nat {
    |IntegerOctets(r)| + |IntegerOctets(s)|
  }

  lemma PairReadsBack(r: Bytes, s: Bytes)
    requires |Contents(r)| < 0x80 && |Contents(s)| < 0x80
    ensures DecodePair(IntegerOctets(r) + IntegerOctets(s)) ==
            if r == [] || s == [] then None else Some((Unsigned(r) as int, Unsigned(s) as int))
  {
    IntegerReadsBack(r, IntegerOctets(s));
    assert IntegerOctets(s) + [] == IntegerOctets(s);
    IntegerReadsBack(s, []);
  }

  lemma ShortSignatureReads(r: Bytes, s: Bytes)
    requires Total(r, s) <= 127
    ensures DecodeSignature(SignatureOctets(r, s)) ==
            if r == [] || s == [] then None else Some((Unsigned(r) as int, Unsigned(s) as int))
  {
    var body := IntegerOctets(r) + IntegerOctets(s);
    assert SignatureOctets(r, s) == [SEQUENCE_TAG, Truncated(|body|)] + body by {
      JoinsAfter([SEQUENCE_TAG, Truncated(|body|)], IntegerOctets(r), IntegerOctets(s));
    }
    HeaderIsRead(body);
    assert DecodeSignature(SignatureOctets(r, s)) == DecodePair(body);
    PairReadsBack(r, s);
  }

  lemma HeaderIsRead(body: Bytes)
    requires |body| <= 127
    ensures DecodeSignature([SEQUENCE_TAG, Truncated(|body|)] + body) == DecodePair(body)
  {
    assert ([SEQUENCE_TAG, Truncated(|body|)] + body)[2..] == body;
  }

  lemma JoinsAfter(a: Bytes, b: Bytes, c: Bytes)
    ensures a + b + c == a + (b + c)
  {
  }

  lemma LongSignatureFails(r: Bytes, s: Bytes)
    requires Total(r, s) > 127
    ensures DecodeSignature(SignatureOctets(r, s)) == None
  {
    var b := SignatureOctets(r, s);
    assert |b| == 2 + Total(r, s) && b[1] == Truncated(Total(r, s));
  }

  /** A signature can be read back exactly when both numbers have octets and together take at most 127. */
  lemma SignatureReadsBackIff(r: Bytes, s: Bytes)
    ensures DecodeSignature(SignatureOctets(r, s)) ==
            if r != [] && s != [] && Total(r, s) <= 127
            then Some((Unsigned(r) as int, Unsigned(s) as int)) else None
  {
    if Total(r, s) <= 127 {
      ShortSignatureReads(r, s);
    } else {
      LongSignatureFails(r, s);
    }
  }

  // ----- the canonical form -----

  /** Section 8.3.2: the first nine bits are neither all zero nor all one. */
  predicate IsMinimal(c: Bytes) {
    |c| >= 2 ==> !(c[0] == 0 && c[1] < 0x80) && !(c[0] == 0xff && c[1] >= 0x80)
  }

  predicate HasRedundantZero(v: Bytes) {
    |v| >= 2 && v[0] == 0 && v[1] < 0x80
  }

  lemma MinimalIff(r: Bytes, s: Bytes)
    ensures IsMinimal(Contents(r)) && IsMinimal(Contents(s)) <==> !HasRedundantZero(r) && !HasRedundantZero(s)
  {
  }

  lemma {:induction false} UnsignedBelow(b: Bytes)
    ensures Unsigned(b) < Pow256(|b|)
    decreases |b|
  {
    if b != [] {
      UnsignedBelow(b[..|b| - 1]);
    }
  }

  /** The number is first octet, then the rest. */
  lemma {:induction false} FirstOctet(b: Bytes)
    requires b != []
    ensures Unsigned(b) == b[0] * Pow256(|b| - 1) + Unsigned(b[1..])
    decreases |b|
  {
    var n := |b| - 1;
    if n == 0 {
      assert b[..0] == [] && b[1..] == [];
    } else {
      FirstOctet(b[..n]);
      assert b[..n][1..] == b[1..][..n - 1];
      var p: int, first: int := Pow256(n - 1), b[0];
      assert 256 * (first * p) == first * (256 * p);
    }
  }

  lemma Times(first: int, p: nat)
    requires first >= 1
    ensures first * p >= p
  {
  }

  /** A longer minimal non-negative form stands for a greater number. */
  lemma LongerIsGreater(c: Bytes, d: Bytes)
    requires c != [] && c[0] < 0x80 && IsMinimal(d) && d != [] && d[0] < 0x80 && |c| < |d|
    ensures Unsigned(c) < Unsigned(d)
  {
    FirstOctet(c);
    UnsignedBelow(c[1..]);
    var p := Pow256(|c| - 1);
    assert Unsigned(c) < 128 * p by {
      Bounded(c[0], p, Unsigned(c[1..]));
    }
    FirstOctet(d);
    if d[0] == 0 {
      FirstOctet(d[1..]);
      AtLeast(d[1], Pow256(|d| - 2), 128);
      GrowsTo(|c| - 1, |d| - 2);
    } else {
      Times(d[0], Pow256(|d| - 1));
      GrowsTo(|c|, |d| - 1);
    }
  }

  lemma Bounded(first: int, p: nat, rest: nat)
    requires 0 <= first < 128 && rest < p
    ensures first * p + rest < 128 * p
  {
  }

  lemma AtLeast(first: int, p: nat, bound: int)
    requires bound <= first
    ensures bound * p <= first * p
  {
  }

  lemma {:induction false} GrowsTo(j: nat, k: nat)
    requires j <= k
    ensures Pow256(j) <= Pow256(k)
    decreases k
  {
    if j < k {
      GrowsTo(j, k - 1);
    }
  }

  lemma {:induction false} SameLengthSameOctets(c: Bytes, d: Bytes)
    requires |c| == |d| && Unsigned(c) == Unsigned(d)
    ensures c == d
    decreases |c|
  {
    if c != [] {
      SameLengthSameOctets(c[..|c| - 1], d[..|d| - 1]);
      assert c == c[..|c| - 1] + [c[|c| - 1]] && d == d[..|d| - 1] + [d[|d| - 1]];
    }
  }

  /** Without redundant zeros the octets of a number depend on the number alone, however its input was padded. */
  lemma OctetsAreCanonical(v: Bytes, w: Bytes)
    requires v != [] && w != [] && !HasRedundantZero(v) && !HasRedundantZero(w)
    ensures IntegerOctets(v) == IntegerOctets(w) <==> Unsigned(v) == Unsigned(w)
  {
    var c, d := Contents(v), Contents(w);
    ContentsAreUnsigned(v);
    ContentsAreUnsigned(w);
    if Unsigned(v) == Unsigned(w) {
      if |c| < |d| {
        LongerIsGreater(c, d);
      } else if |d| < |c| {
        LongerIsGreater(d, c);
      } else {
        SameLengthSameOctets(c, d);
      }
    }
    assert IntegerOctets(v)[2..] == c && IntegerOctets(w)[2..] == d;
  }
}
