/** Shared vocabulary: an optional value, Kotlin's notion of whitespace and `trim`,
    ASCII decimal digits, and splitting a string at a delimiter character. */
module Common {

  datatype Option<T> = None | Some(value: T)

  /** Kotlin's `Char.isWhitespace()` on the JVM: `Character.isWhitespace(c) || Character.isSpaceChar(c)`. */
  predicate IsWhitespace(c: char) {
    var n := c as int;
    (9 <= n <= 13) || (28 <= n <= 32) || n == 0xA0 || n == 0x1680
    || (0x2000 <= n <= 0x200A) || n == 0x2028 || n == 0x2029 || n == 0x202F
    || n == 0x205F || n == 0x3000
  }

  predicate AllWhitespace(s: string) {
    forall i :: 0 <= i < |s| ==> IsWhitespace(s[i])
  }

  lemma AllWhitespaceConcat(a: string, b: string)
    requires AllWhitespace(a) && AllWhitespace(b)
    ensures AllWhitespace(a + b)
  {
    assert forall i :: |a| <= i < |a + b| ==> (a + b)[i] == b[i - |a|];
  }

  /** Drops leading whitespace; the result is the longest suffix that starts with a non-blank. */
  function TrimStart(s: string): (r: string)
    ensures |r| <= |s| && r == s[|s| - |r|..]
    ensures AllWhitespace(s[..|s| - |r|])
    ensures r == [] || !IsWhitespace(r[0])
  {
    if s != [] && IsWhitespace(s[0]) then
      var r := TrimStart(s[1..]);
      assert s[..|s| - |r|] == [s[0]] + s[1..][..|s| - 1 - |r|];
      AllWhitespaceConcat([s[0]], s[1..][..|s| - 1 - |r|]);
      r
    else
      assert s[..0] == [];
      s
  }

  /** Drops trailing whitespace; the result is the longest prefix that ends with a non-blank. */
  function TrimEnd(s: string): (r: string)
    ensures |r| <= |s| && r == s[..|r|]
    ensures AllWhitespace(s[|r|..])
    ensures r == [] || !IsWhitespace(r[|r| - 1])
  {
    if s != [] && IsWhitespace(s[|s| - 1]) then
      var r := TrimEnd(s[..|s| - 1]);
      assert s[|r|..] == s[..|s| - 1][|r|..] + [s[|s| - 1]];
      AllWhitespaceConcat(s[..|s| - 1][|r|..], [s[|s| - 1]]);
      r
    else
      assert s[|s|..] == [];
      s
  }

  /** Kotlin's `String.trim()`. */
  function Trim(s: string): (r: string)
    ensures |r| <= |s|
    ensures r == [] || (!IsWhitespace(r[0]) && !IsWhitespace(r[|r| - 1]))
    ensures r == [] <==> AllWhitespace(s)
  {
    var t := TrimStart(s);
    var r := TrimEnd(t);
    var k := |s| - |t|;
    assert k <= |s| && t == s[k..] && AllWhitespace(s[..k]) && (t == [] || !IsWhitespace(t[0]));
    assert |r| <= |t| && r == t[..|r|] && AllWhitespace(t[|r|..]) && (r == [] || !IsWhitespace(r[|r| - 1]));
    TrimShape(s, k, t, r);
    r
  }

  /** Cutting whitespace off the start (leaving `t`) and then off the end (leaving `r`) keeps a
      stretch of the input with only whitespace around it, which is empty exactly when the
      input is blank and otherwise starts and ends with non-whitespace. */
  lemma TrimShape(s: string, k: nat, t: string, r: string)
    requires k <= |s| && t == s[k..] && AllWhitespace(s[..k]) && (t == [] || !IsWhitespace(t[0]))
    requires |r| <= |t| && r == t[..|r|] && AllWhitespace(t[|r|..]) && (r == [] || !IsWhitespace(r[|r| - 1]))
    ensures |r| <= |s|
    ensures r == [] || (!IsWhitespace(r[0]) && !IsWhitespace(r[|r| - 1]))
    ensures r == [] <==> AllWhitespace(s)
    ensures exists k: nat :: k + |r| <= |s| && r == s[k..k + |r|] && AllWhitespace(s[..k]) && AllWhitespace(s[k + |r|..])
  {
    assert s[k + |r|..] == t[|r|..];
    assert k + |r| <= |s| && r == s[k..k + |r|];
    if r == [] {
      assert t[|r|..] == t;
      assert s == s[..k] + t;
      AllWhitespaceConcat(s[..k], t);
    } else {
      assert r[0] == t[0];
      assert s[k] == r[0];
    }
  }

  /** What `trim` keeps is a stretch of the input with only whitespace before and after it. */
  lemma TrimKeepsMiddle(s: string)
    ensures exists k: nat :: k + |Trim(s)| <= |s| && Trim(s) == s[k..k + |Trim(s)|]
                             && AllWhitespace(s[..k]) && AllWhitespace(s[k + |Trim(s)|..])
  {
    var t := TrimStart(s);
    var r := TrimEnd(t);
    var k := |s| - |t|;
    assert r == Trim(s);
    TrimShape(s, k, t, r);
  }

  /** `trim` is idempotent: a trimmed string has nothing left to trim. */
  lemma TrimIdempotent(s: string)
    ensures Trim(Trim(s)) == Trim(s)
  {
    var t := Trim(s);
    if t != [] {
      assert TrimStart(t) == t;
      assert TrimEnd(t) == t;
    }
  }

  // ---------------------------------------------------------------------------
  // ASCII decimal digits

  predicate IsDigit(c: char) {
    '0' <= c <= '9'
  }

  predicate AllDigits(s: string) {
    forall i :: 0 <= i < |s| ==> IsDigit(s[i])
  }

  function DigitChar(d: nat): (c: char)
    requires d < 10
    ensures IsDigit(c) && DigitValue(c) == d
  {
    ('0' as int + d) as char
  }

  function DigitValue(c: char): (d: nat)
    requires IsDigit(c)
    ensures d < 10
  {
    c as int - '0' as int
  }

  /** The number written by a string of decimal digits. */
  function DecimalValue(s: string): nat
    requires AllDigits(s)
  {
    if s == [] then 0 else DecimalValue(s[..|s| - 1]) * 10 + DigitValue(s[|s| - 1])
  }

  /** Kotlin's `Long.toString()` / string template for a non-negative number. */
  function NatToString(n: nat): (r: string)
    ensures r != [] && AllDigits(r)
    ensures |r| > 1 ==> r[0] != '0'
  {
    if n < 10 then [DigitChar(n)] else NatToString(n / 10) + [DigitChar(n % 10)]
  }

  lemma {:induction false} NatToStringValue(n: nat)
    ensures DecimalValue(NatToString(n)) == n
  {
    if n >= 10 {
      NatToStringValue(n / 10);
      var r := NatToString(n);
      assert r[..|r| - 1] == NatToString(n / 10);
    }
  }

  /** `NatToString` is injective: distinct numbers are printed differently. */
  lemma NatToStringInjective(m: nat, n: nat)
    requires NatToString(m) == NatToString(n)
    ensures m == n
  {
    NatToStringValue(m);
    NatToStringValue(n);
  }

  /** Two decimal digits, zero padded (the `dd`, `MM`, `HH`, `mm` fields of SimpleDateFormat). */
  function Pad2(n: nat): (r: string)
    requires n < 100
    ensures |r| == 2 && AllDigits(r) && DecimalValue(r) == n
  {
    var r := [DigitChar(n / 10), DigitChar(n % 10)];
    assert r[..1] == [DigitChar(n / 10)];
    assert r[..1][..0] == [];
    assert DecimalValue(r[..1]) == n / 10;
    r
  }

  /** The value of digits followed by two more digits. */
  lemma DecimalValueAppend2(a: string, b: string)
    requires AllDigits(a) && AllDigits(b) && |b| == 2
    ensures AllDigits(a + b) && DecimalValue(a + b) == DecimalValue(a) * 100 + DecimalValue(b)
  {
    var ab, a1 := a + b, a + b[..1];
    assert ab[..|ab| - 1] == a1 && ab[|ab| - 1] == b[1];
    assert a1[..|a1| - 1] == a && a1[|a1| - 1] == b[0];
    assert b[..1][..0] == [] && b[..1][0] == b[0];
    assert DecimalValue(a1) == DecimalValue(a) * 10 + DigitValue(b[0]);
    assert DecimalValue(ab) == DecimalValue(a1) * 10 + DigitValue(b[1]);
    assert DecimalValue(b[..1]) == DigitValue(b[0]);
    assert DecimalValue(b) == DecimalValue(b[..1]) * 10 + DigitValue(b[1]);
  }

  /** Digit strings of one length are told apart by their value. */
  lemma {:induction false} DecimalValueInjective(a: string, b: string)
    requires AllDigits(a) && AllDigits(b) && |a| == |b| && DecimalValue(a) == DecimalValue(b)
    ensures a == b
  {
    if a != [] {
      var n := |a|;
      var x, y := DecimalValue(a[..n - 1]), DecimalValue(b[..n - 1]);
      var c, d := DigitValue(a[n - 1]), DigitValue(b[n - 1]);
      assert x * 10 + c == y * 10 + d;
      assert c == (x * 10 + c) % 10 && d == (y * 10 + d) % 10;
      assert x == (x * 10 + c) / 10 && y == (y * 10 + d) / 10;
      DecimalValueInjective(a[..n - 1], b[..n - 1]);
      assert a == a[..n - 1] + [a[n - 1]] && b == b[..n - 1] + [b[n - 1]];
    }
  }

  /** A two-digit string is the zero-padded spelling of its value. */
  lemma Pad2OfDigits(t: string)
    requires |t| == 2 && AllDigits(t)
    ensures DecimalValue(t) < 100 && Pad2(DecimalValue(t)) == t
  {
    assert t[..1][..0] == [];
    assert DecimalValue(t[..1]) == DigitValue(t[0]);
    DecimalValueInjective(Pad2(DecimalValue(t)), t);
  }

  /** Four decimal digits, zero padded (the `yyyy` field for years below 10000). */
  function Pad4(n: nat): (r: string)
    requires n < 10000
    ensures |r| == 4 && AllDigits(r) && DecimalValue(r) == n
  {
    DecimalValueAppend2(Pad2(n / 100), Pad2(n % 100));
    Pad2(n / 100) + Pad2(n % 100)
  }

  /** A four-digit string is the zero-padded spelling of its value. */
  lemma Pad4OfDigits(t: string)
    requires |t| == 4 && AllDigits(t)
    ensures DecimalValue(t) < 10000 && Pad4(DecimalValue(t)) == t
  {
    assert t == t[..2] + t[2..];
    DecimalValueAppend2(t[..2], t[2..]);
    Pad2OfDigits(t[..2]);
    Pad2OfDigits(t[2..]);
    DecimalValueInjective(Pad4(DecimalValue(t)), t);
  }

  // ---------------------------------------------------------------------------
  // Splitting at a delimiter

  /** Kotlin's `s.split(d)` for a one-character delimiter: every piece, empty ones included. */
  function Split(s: string, d: char): (r: seq<string>)
    ensures |r| >= 1
    ensures forall i :: 0 <= i < |r| ==> d !in r[i]
    ensures Join(r, d) == s
  {
    if s == [] then [[]]
    else if s[0] == d then
      var rest := Split(s[1..], d);
      assert [d] + Join(rest, d) == s;
      [[]] + rest
    else
      var rest := Split(s[1..], d);
      var r := [[s[0]] + rest[0]] + rest[1..];
      assert r[1..] == rest[1..];
      JoinHead(rest, d);
      JoinHead(r, d);
      r
  }

  /** Joins the pieces with the delimiter between consecutive pieces. */
  function Join(pieces: seq<string>, d: char): string
  {
    if pieces == [] then []
    else if |pieces| == 1 then pieces[0]
    else pieces[0] + [d] + Join(pieces[1..], d)
  }

  /** A piece without the delimiter, followed by the delimiter, is split off on its own. */
  lemma {:induction false} SplitPiece(a: string, d: char, rest: string)
    requires d !in a
    ensures Split(a + [d] + rest, d) == [a] + Split(rest, d)
  {
    var s := a + [d] + rest;
    if a == [] {
      assert s[0] == d && s[1..] == rest;
    } else {
      assert s[0] == a[0] && s[1..] == a[1..] + [d] + rest;
      SplitPiece(a[1..], d, rest);
      assert [a[0]] + a[1..] == a;
    }
  }

  /** A string without the delimiter is a single piece. */
  lemma {:induction false} SplitWhole(a: string, d: char)
    requires d !in a
    ensures Split(a, d) == [a]
  {
    if a != [] {
      SplitWhole(a[1..], d);
      assert [a[0]] + a[1..] == a;
    }
  }

  lemma JoinHead(pieces: seq<string>, d: char)
    requires pieces != []
    ensures Join(pieces, d) == pieces[0] + (if |pieces| == 1 then [] else [d] + Join(pieces[1..], d))
  {
  }

  /** Kotlin's `s.substringBefore(c)`: everything before the first `c`, or all of `s`. */
  function SubstringBefore(s: string, c: char): (r: string)
    ensures |r| <= |s| && r == s[..|r|] && c !in r
    ensures |r| < |s| <==> c in s
    ensures |r| < |s| ==> s[|r|] == c
  {
    if s == [] then []
    else if s[0] == c then []
    else [s[0]] + SubstringBefore(s[1..], c)
  }
}
