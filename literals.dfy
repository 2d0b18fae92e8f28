/**
 * The literal forms PHP's `var_export($x, true)` and `sprintf('%d', $x)` give
 * to the scalars the generator emits, together with decoders that read them
 * back the way PHP's own lexer does.  The decoders are the partners of the
 * encoders: every literal reads back as the value it was made from.
 */
module PhpLiterals {
  import opened Wrappers

  /** The scalars the generator passes to `var_export` (floats are not modelled). */
  datatype Scalar = Null | Bool(b: bool) | Int(i: int) | Str(s: string)

  // ---------------------------------------------------------------------
  // Prefix matching

  predicate StartsWith(t: string, p: string) {
    |p| <= |t| && t[..|p|] == p
  }

  /** Consumes the fixed text `p` at the front of `t`. */
  function Expect(p: string, t: string): (r: Option<string>)
    ensures r.Some? <==> StartsWith(t, p)
    ensures r.Some? ==> t == p + r.value
  {
    if StartsWith(t, p) then
      assert t == t[..|p|] + t[|p|..];
      Some(t[|p|..])
    else None
  }

  lemma ExpectPrefix(p: string, r: string)
    ensures StartsWith(p + r, p)
    ensures (p + r)[|p|..] == r
    ensures Expect(p, p + r) == Some(r)
  {
    assert (p + r)[..|p|] == p;
    assert (p + r)[|p|..] == r;
  }

  /** A prefix of `t` that disagrees with `p` somewhere is no match. */
  lemma NotStartsWith(t: string, p: string, k: nat)
    requires k < |p| && (k >= |t| || t[k] != p[k])
    ensures !StartsWith(t, p)
  {
  }

  /** Length of the longest prefix of `t` whose characters all satisfy `p`. */
  function RunLength(t: string, p: char -> bool): (n: nat)
    ensures n <= |t|
    ensures forall i :: 0 <= i < n ==> p(t[i])
    ensures n < |t| ==> !p(t[n])
  {
    if t == [] || !p(t[0]) then 0 else 1 + RunLength(t[1..], p)
  }

  lemma {:induction false} RunLengthOf(s: string, r: string, p: char -> bool)
    requires forall i :: 0 <= i < |s| ==> p(s[i])
    requires r == [] || !p(r[0])
    ensures RunLength(s + r, p) == |s|
  {
    if s != [] {
      assert (s + r)[1..] == s[1..] + r;
      RunLengthOf(s[1..], r, p);
    }
  }

  // ---------------------------------------------------------------------
  // Decimal integers

  predicate IsDigit(c: char) { '0' <= c <= '9' }

  function DigitChar(d: nat): (c: char)
    requires d < 10
    ensures IsDigit(c)
  {
    (('0' as int) + d) as char
  }

  function DigitValue(c: char): (d: nat)
    requires IsDigit(c)
    ensures d < 10 && DigitChar(d) == c
  {
    (c as int) - ('0' as int)
  }

  predicate AllDigits(s: string) {
    forall i :: 0 <= i < |s| ==> IsDigit(s[i])
  }

  /** The decimal digits of `n`, most significant first, without leading zeros. */
  function NatText(n: nat): (s: string)
    ensures |s| > 0 && AllDigits(s)
    ensures |s| > 1 ==> s[0] != '0'
  {
    if n < 10 then [DigitChar(n)] else NatText(n / 10) + [DigitChar(n % 10)]
  }

  /** The number a string of decimal digits denotes. */
  function DigitsValue(s: string): nat
    requires AllDigits(s)
  {
    if s == [] then 0 else DigitsValue(s[..|s| - 1]) * 10 + DigitValue(s[|s| - 1])
  }

  lemma {:induction false} NatTextValue(n: nat)
    ensures DigitsValue(NatText(n)) == n
  {
    if n >= 10 {
      var s := NatText(n);
      assert s[..|s| - 1] == NatText(n / 10);
      NatTextValue(n / 10);
    }
  }

  /** `sprintf('%d', i)`, and `var_export` of an integer. */
  function IntText(i: int): (s: string)
  {
    if i < 0 then "-" + NatText(-i) else NatText(i)
  }

  /** Reads a run of decimal digits. */
  function ParseNat(t: string): (r: Option<(nat, string)>)
    ensures r.Some? ==> |r.value.1| < |t|
  {
    var k := RunLength(t, IsDigit);
    if k == 0 then None else Some((DigitsValue(t[..k]), t[k..]))
  }

  /** Reads an optionally negative decimal integer. */
  function ParseInt(t: string): (r: Option<(int, string)>)
    ensures r.Some? ==> |r.value.1| < |t|
  {
    if |t| > 0 && t[0] == '-' then
      match ParseNat(t[1..])
      case None => None
      case Some(p) => Some((-(p.0 as int), p.1))
    else
      match ParseNat(t)
      case None => None
      case Some(p) => Some((p.0, p.1))
  }

  lemma NatTextRoundTrip(n: nat, rest: string)
    requires rest == [] || !IsDigit(rest[0])
    ensures ParseNat(NatText(n) + rest) == Some((n, rest))
  {
    var s := NatText(n);
    RunLengthOf(s, rest, IsDigit);
    assert (s + rest)[..|s|] == s;
    assert (s + rest)[|s|..] == rest;
    NatTextValue(n);
  }

  /** Every integer literal reads back as the integer it was made from. */
  lemma IntTextRoundTrip(i: int, rest: string)
    requires rest == [] || !IsDigit(rest[0])
    ensures ParseInt(IntText(i) + rest) == Some((i, rest))
  {
    if i < 0 {
      NegativeRoundTrip(-i, rest);
    } else {
      var t := NatText(i) + rest;
      assert t[0] == NatText(i)[0];
      NatTextRoundTrip(i, rest);
    }
  }

  lemma NegativeRoundTrip(n: nat, rest: string)
    requires n > 0
    requires rest == [] || !IsDigit(rest[0])
    ensures ParseInt("-" + NatText(n) + rest) == Some((-(n as int), rest))
  {
    var t := "-" + NatText(n) + rest;
    assert t[1..] == NatText(n) + rest;
    NatTextRoundTrip(n, rest);
  }

  // ---------------------------------------------------------------------
  // Single-quoted strings

  /** `var_export` escapes only the backslash and the single quote. */
  function EscapeChar(c: char): string {
    if c == '\\' || c == '\'' then ['\\', c] else [c]
  }

  function Escape(s: string): string {
    if s == [] then [] else EscapeChar(s[0]) + Escape(s[1..])
  }

  /** `var_export` of a string: a single-quoted PHP literal. */
  function Quote(s: string): string {
    "'" + Escape(s) + "'"
  }

  /**
   * Reads the body of a single-quoted PHP literal up to its closing quote:
   * `\\` and `\'` stand for one character, any other backslash for itself.
   */
  function ParseQuotedBody(t: string): (r: Option<(string, string)>)
    ensures r.Some? ==> |r.value.1| < |t|
  {
    if t == [] then None
    else if t[0] == '\'' then Some(([], t[1..]))
    else if t[0] == '\\' && |t| > 1 && (t[1] == '\\' || t[1] == '\'') then
      match ParseQuotedBody(t[2..])
      case None => None
      case Some(p) => Some(([t[1]] + p.0, p.1))
    else
      match ParseQuotedBody(t[1..])
      case None => None
      case Some(p) => Some(([t[0]] + p.0, p.1))
  }

  function ParseQuoted(t: string): (r: Option<(string, string)>)
    ensures r.Some? ==> |r.value.1| < |t|
  {
    if |t| > 0 && t[0] == '\'' then ParseQuotedBody(t[1..]) else None
  }

  lemma {:induction false} EscapeRoundTrip(s: string, rest: string)
    ensures ParseQuotedBody(Escape(s) + "'" + rest) == Some((s, rest))
  {
    if s == [] {
      assert Escape(s) + "'" + rest == "'" + rest;
    } else {
      var t := Escape(s) + "'" + rest;
      var e := EscapeChar(s[0]);
      assert t == e + (Escape(s[1..]) + "'" + rest);
      EscapeRoundTrip(s[1..], rest);
      assert t[|e|..] == Escape(s[1..]) + "'" + rest;
      assert [s[0]] + s[1..] == s;
    }
  }

  /** Every quoted literal reads back as the string it was made from, whatever follows it. */
  lemma QuoteRoundTrip(s: string, rest: string)
    ensures ParseQuoted(Quote(s) + rest) == Some((s, rest))
  {
    assert (Quote(s) + rest)[1..] == Escape(s) + "'" + rest;
    EscapeRoundTrip(s, rest);
  }

  // ---------------------------------------------------------------------
  // Scalars

  /** `var_export($c, true)` for a scalar or null. */
  function VarExport(c: Scalar): string {
    match c
    case Null => "NULL"
    case Bool(b) => if b then "true" else "false"
    case Int(i) => IntText(i)
    case Str(s) => Quote(s)
  }

  /** Reads one scalar literal as PHP's lexer would. */
  function ParseScalar(t: string): (r: Option<(Scalar, string)>)
    ensures r.Some? ==> |r.value.1| < |t|
  {
    if StartsWith(t, "NULL") then Some((Null, t[4..]))
    else if StartsWith(t, "true") then Some((Bool(true), t[4..]))
    else if StartsWith(t, "false") then Some((Bool(false), t[5..]))
    else if |t| > 0 && t[0] == '\'' then
      match ParseQuoted(t)
      case None => None
      case Some(p) => Some((Str(p.0), p.1))
    else
      match ParseInt(t)
      case None => None
      case Some(p) => Some((Int(p.0), p.1))
  }

  /** Every scalar literal reads back as the scalar it was made from. */
  lemma VarExportRoundTrip(c: Scalar, rest: string)
    requires rest == [] || !IsDigit(rest[0])
    ensures ParseScalar(VarExport(c) + rest) == Some((c, rest))
  {
    var t := VarExport(c) + rest;
    match c
    case Null =>
      ExpectPrefix("NULL", rest);
    case Bool(b) =>
      NotStartsWith(t, "NULL", 0);
      if b {
        ExpectPrefix("true", rest);
      } else {
        NotStartsWith(t, "true", 0);
        ExpectPrefix("false", rest);
      }
    case Int(i) =>
      assert t[0] == '-' || IsDigit(t[0]);
      NotStartsWith(t, "NULL", 0);
      NotStartsWith(t, "true", 0);
      NotStartsWith(t, "false", 0);
      IntTextRoundTrip(i, rest);
    case Str(s) =>
      NotStartsWith(t, "NULL", 0);
      NotStartsWith(t, "true", 0);
      NotStartsWith(t, "false", 0);
      QuoteRoundTrip(s, rest);
  }
}
