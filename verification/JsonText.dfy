/**
 * The text `JSON.stringify` gives for an array of pairs of strings (section 25.5.2 of ECMA-262),
 * and the fact the source relies on when it compares two such texts: the text decides the value.
 */
module JsonText {

  type Pair = (string, string)

  const HEX_DIGITS := "0123456789abcdef"

  /** QuoteJSONString for one character. */
  function QuoteChar(c: char): (r: string)
    ensures |r| > 0
  {
    if c == '\"' then "\\\""
    else if c == '\\' then "\\\\"
    else if c as int == 8 then "\\b"
    else if c as int == 9 then "\\t"
    else if c as int == 10 then "\\n"
    else if c as int == 12 then "\\f"
    else if c as int == 13 then "\\r"
    else if c as int < 0x20 then ['\\', 'u', '0', '0', HEX_DIGITS[c as int / 16], HEX_DIGITS[c as int % 16]]
    else [c]
  }

  /** The escapes, one by one. */
  lemma QuoteForms(c: char)
    ensures QuoteChar('\"') == ['\\', '\"'] && QuoteChar('\\') == ['\\', '\\']
    ensures QuoteChar(0x8 as char) == ['\\', 'b'] && QuoteChar(0x9 as char) == ['\\', 't']
    ensures QuoteChar(0xA as char) == ['\\', 'n'] && QuoteChar(0xC as char) == ['\\', 'f']
    ensures QuoteChar(0xD as char) == ['\\', 'r']
    ensures c as int < 0x20 && c as int !in {0x8, 0x9, 0xA, 0xC, 0xD} ==>
              QuoteChar(c) == "\\u00" + ["01"[c as int / 16], "0123456789abcdef"[c as int % 16]]
    ensures c as int >= 0x20 && c != '\"' && c != '\\' ==> QuoteChar(c) == [c]
  {
    if c as int < 0x20 {
      assert "01"[c as int / 16] == HEX_DIGITS[c as int / 16];
    }
  }

  /** The rest of a quoted string, its closing quote, and then `rest`. */
  function QuotedTail(s: string, rest: string): string {
    if s == "" then ['\"'] + rest else QuoteChar(s[0]) + QuotedTail(s[1..], rest)
  }

  /** A quoted string followed by `rest`. */
  function Quoted(s: string, rest: string): string {
    ['\"'] + QuotedTail(s, rest)
  }

  function PairText(p: Pair, rest: string): string {
    ['['] + Quoted(p.0, [','] + Quoted(p.1, [']'] + rest))
  }

  /** What follows the opening bracket of an array. */
  function ItemsText(ps: seq<Pair>): string
    decreases |ps|, 1
  {
    if ps == [] then [']'] else PairText(ps[0], AfterFirst(ps))
  }

  function AfterFirst(ps: seq<Pair>): string
    requires ps != []
    decreases |ps|, 0
  {
    if |ps| == 1 then [']'] else [','] + ItemsText(ps[1..])
  }

  /** `JSON.stringify` of an array of `[key, value]` pairs. */
  function Stringify(ps: seq<Pair>): string {
    ['['] + ItemsText(ps)
  }

  lemma HexDigitsDiffer(m: nat, n: nat)
    requires m < 0x20 && n < 0x20
    requires HEX_DIGITS[m / 16] == HEX_DIGITS[n / 16] && HEX_DIGITS[m % 16] == HEX_DIGITS[n % 16]
    ensures m == n
  {
    assert m / 16 < 2 && n / 16 < 2;
    assert m / 16 == n / 16;
    assert forall i, j :: 0 <= i < 16 && 0 <= j < 16 && HEX_DIGITS[i] == HEX_DIGITS[j] ==> i == j;
    assert m % 16 == n % 16;
  }

  /** Two quoted characters of which one begins with the other are the same. */
  lemma QuoteCharsDiffer(c: char, d: char)
    requires |QuoteChar(c)| <= |QuoteChar(d)| && QuoteChar(c) == QuoteChar(d)[..|QuoteChar(c)|]
    ensures c == d
  {
    var q, r := QuoteChar(c), QuoteChar(d);
    assert forall i :: 0 <= i < |q| ==> q[i] == r[..|q|][i] == r[i];
    assert q[0] == r[0];
    assert |q| >= 2 ==> q[1] == r[1];
    if |q| == 6 && |r| == 6 {
      assert q[4] == r[4] && q[5] == r[5];
      HexDigitsDiffer(c as int, d as int);
    }
  }

  /** The quoted characters form a prefix code, and none starts like the closing quote. */
  lemma QuoteCharIsPrefixCode(c: char, x: string, d: char, y: string)
    requires QuoteChar(c) + x == QuoteChar(d) + y
    ensures c == d && x == y
  {
    var t, m, n := QuoteChar(c) + x, |QuoteChar(c)|, |QuoteChar(d)|;
    assert t[..m] == QuoteChar(c) && t[..n] == QuoteChar(d);
    if m <= n {
      assert t[..n][..m] == t[..m];
      QuoteCharsDiffer(c, d);
    } else {
      assert t[..m][..n] == t[..n];
      QuoteCharsDiffer(d, c);
    }
    assert x == t[m..] == y;
  }

  lemma DropFirst(c: char, x: string, y: string)
    requires [c] + x == [c] + y
    ensures x == y
  {
    assert x == ([c] + x)[1..] == ([c] + y)[1..] == y;
  }

  lemma {:induction false} QuotedTailIsPrefixCode(s: string, x: string, t: string, y: string)
    requires QuotedTail(s, x) == QuotedTail(t, y)
    ensures s == t && x == y
  {
    if s == "" || t == "" {
      assert QuotedTail(s, x)[0] == QuotedTail(t, y)[0];
      DropFirst('\"', x, y);
    } else {
      QuoteCharIsPrefixCode(s[0], QuotedTail(s[1..], x), t[0], QuotedTail(t[1..], y));
      QuotedTailIsPrefixCode(s[1..], x, t[1..], y);
      assert s == [s[0]] + s[1..] && t == [t[0]] + t[1..];
    }
  }

  lemma QuotedIsPrefixCode(s: string, x: string, t: string, y: string)
    requires Quoted(s, x) == Quoted(t, y)
    ensures s == t && x == y
  {
    DropFirst('\"', QuotedTail(s, x), QuotedTail(t, y));
    QuotedTailIsPrefixCode(s, x, t, y);
  }

  lemma PairTextIsPrefixCode(p: Pair, x: string, q: Pair, y: string)
    requires PairText(p, x) == PairText(q, y)
    ensures p == q && x == y
  {
    var left, right := Quoted(p.1, [']'] + x), Quoted(q.1, [']'] + y);
    DropFirst('[', Quoted(p.0, [','] + left), Quoted(q.0, [','] + right));
    QuotedIsPrefixCode(p.0, [','] + left, q.0, [','] + right);
    DropFirst(',', left, right);
    QuotedIsPrefixCode(p.1, [']'] + x, q.1, [']'] + y);
    DropFirst(']', x, y);
  }

  lemma {:induction false} ItemsTextIsInjective(ps: seq<Pair>, qs: seq<Pair>)
    requires ItemsText(ps) == ItemsText(qs)
    ensures ps == qs
  {
    assert ItemsText(ps)[0] == ItemsText(qs)[0];
    if ps != [] && qs != [] {
      PairTextIsPrefixCode(ps[0], AfterFirst(ps), qs[0], AfterFirst(qs));
      assert AfterFirst(ps)[0] == AfterFirst(qs)[0];
      if |ps| > 1 {
        DropFirst(',', ItemsText(ps[1..]), ItemsText(qs[1..]));
        ItemsTextIsInjective(ps[1..], qs[1..]);
      }
      assert ps == [ps[0]] + ps[1..] && qs == [qs[0]] + qs[1..];
    }
  }

  /** Two texts are the same string exactly when the two arrays are the same array. */
  lemma StringifyDecidesEquality(ps: seq<Pair>, qs: seq<Pair>)
    ensures Stringify(ps) == Stringify(qs) <==> ps == qs
  {
    if Stringify(ps) == Stringify(qs) {
      DropFirst('[', ItemsText(ps), ItemsText(qs));
      ItemsTextIsInjective(ps, qs);
    }
  }
}
