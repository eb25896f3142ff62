/**
 Numbers as the dashboard stores them. A derived field of a cleaned record is
 in one of three states: the property was never set (its source text was
 empty), it holds NaN (the text was there but did not parse), or it holds a
 number. Numbers are exact reals here, not IEEE doubles.
 */
module Numbers {
  import opened Text

  datatype Num = Absent | NaN | Val(v: real)

  /** JavaScript truthiness of a stored field: `undefined`, NaN and 0 are falsy. */
  predicate Truthy(n: Num) {
    n.Val? && n.v != 0.0
  }

  /** `x || 0` for a stored field. A stored number comes back as it is (a
      stored 0 is 0 either way); a missing field and NaN both read as 0, so
      the result is non-zero exactly when the field is truthy. */
  function OrZero(n: Num): (r: real)
    ensures r == if n.Val? then n.v else 0.0
    ensures r != 0.0 <==> Truthy(n)
  {
    if Truthy(n) then n.v else 0.0
  }

  /** The value of the digits `fp` written after a decimal point. */
  function FractionValue(fp: string): (r: real)
    requires AllDigits(fp)
    ensures 0.0 <= r < 1.0
  {
    if fp == [] then 0.0
    else
      assert AllDigits(fp[1..]) by { assert forall i :: 0 <= i < |fp| - 1 ==> fp[1..][i] == fp[i + 1]; }
      (DigitValue(fp[0]) as real + FractionValue(fp[1..])) / 10.0
  }

  /** The value of `ip.fp`: integer digits and fraction digits. */
  function DecimalValue(ip: string, fp: string): (r: real)
    requires AllDigits(ip) && AllDigits(fp)
    ensures DigitsValue(ip) as real <= r < DigitsValue(ip) as real + 1.0
    ensures fp == [] ==> r == DigitsValue(ip) as real
  {
    DigitsValue(ip) as real + FractionValue(fp)
  }

  /* ---------------- parseFloat ---------------- */

  /** The longest prefix of `s` made of digits. */
  function DigitPrefix(s: string): (r: string)
    ensures AllDigits(r) && |r| <= |s| && r == s[..|r|]
    ensures |r| == |s| || !IsDigit(s[|r|])
  {
    if |s| > 0 && IsDigit(s[0]) then [s[0]] + DigitPrefix(s[1..]) else []
  }

  predicate IsSign(c: char) {
    c == '+' || c == '-'
  }

  predicate IsExponentMark(c: char) {
    c == 'e' || c == 'E'
  }

  /** The exponent written at the start of `s` (`e`/`E`, an optional sign, at
      least one digit); 0 when `s` does not start with a complete exponent. */
  function ExponentPart(s: string): int {
    if |s| > 0 && IsExponentMark(s[0]) then
      var t := s[1..];
      var u := if |t| > 0 && IsSign(t[0]) then t[1..] else t;
      var d := DigitPrefix(u);
      if |d| == 0 then 0
      else if |t| > 0 && t[0] == '-' then -(DigitsValue(d) as int)
      else DigitsValue(d)
    else 0
  }

  /** The number an unsigned decimal literal at the start of `u` denotes:
      digits, optionally `.` and digits, at least one digit in all, then an
      optional exponent. NaN when `u` does not start with such a literal. */
  function ParseUnsigned(u: string): (r: Num)
    ensures !r.Absent?
  {
    var ip := DigitPrefix(u);
    var rest := u[|ip|..];
    var dot := |rest| > 0 && rest[0] == '.';
    var fp := if dot then DigitPrefix(rest[1..]) else [];
    if |ip| + |fp| == 0 then NaN
    else
      var tail := if dot then rest[1 + |fp|..] else rest;
      Val(LiteralValue(ip, fp, ExponentPart(tail)))
  }

  /** The value of `ip.fp` times ten to the `e`, one power of ten at a time. */
  function LiteralValue(ip: string, fp: string, e: int): (r: real)
    requires AllDigits(ip) && AllDigits(fp)
    ensures e == 0 ==> r == DecimalValue(ip, fp)
    ensures r >= 0.0
    decreases if e < 0 then -e else e
  {
    if e == 0 then DecimalValue(ip, fp)
    else if e > 0 then 10.0 * LiteralValue(ip, fp, e - 1)
    else LiteralValue(ip, fp, e + 1) / 10.0
  }

  /** An unsigned literal is missing exactly when the text neither starts with
      a digit nor with a dot followed by a digit. */
  lemma ParseUnsignedNaN(u: string)
    ensures ParseUnsigned(u).NaN? <==> u == [] || (!IsDigit(u[0]) && (u[0] != '.' || |u| == 1 || !IsDigit(u[1])))
  {
    var ip := DigitPrefix(u);
    if |u| > 0 && IsDigit(u[0]) {
      assert |ip| > 0;
    } else if |u| > 1 && u[0] == '.' && IsDigit(u[1]) {
      assert ip == [];
      assert u[|ip|..] == u;
      assert |DigitPrefix(u[1..])| > 0;
    }
  }

  /** JavaScript's `parseFloat`: leading white space is skipped, then an
      optional sign and the longest decimal literal after it give the number;
      NaN when no literal follows. */
  function ParseFloat(s: string): (r: Num)
    ensures !r.Absent?
  {
    var t := TrimStart(s);
    if |t| > 0 && IsSign(t[0]) then
      var m := ParseUnsigned(t[1..]);
      if t[0] == '-' && m.Val? then Val(-m.v) else m
    else ParseUnsigned(t)
  }

  /** Leading white space does not change what `parseFloat` reads. */
  lemma ParseSkipsSpace(c: char, s: string)
    requires IsSpace(c)
    ensures ParseFloat([c] + s) == ParseFloat(s)
  {
    hide ParseUnsigned, TrimStart;
    TrimStartSpace(c, s);
  }

  /** Text that starts with neither white space nor a sign is parsed as an
      unsigned literal. */
  lemma ParsePlain(s: string)
    requires s == [] || (!IsSpace(s[0]) && !IsSign(s[0]))
    ensures ParseFloat(s) == ParseUnsigned(s)
  {
    SkipNothing(s);
  }

  /** A digit string followed by something that cannot continue a number
      parses to the digits' value. */
  lemma ParseDigits(d: string, rest: string)
    requires |d| > 0 && AllDigits(d)
    requires rest == [] || (!IsDigit(rest[0]) && rest[0] != '.' && !IsExponentMark(rest[0]))
    ensures ParseFloat(d + rest) == Val(DigitsValue(d) as real)
  {
    var s := d + rest;
    assert s[0] == d[0];
    ParsePlain(s);
    DigitPrefixOf(d, rest);
    assert s[|d|..] == rest;
    assert ExponentPart(rest) == 0;
  }

  /** `ip.fp` followed by something that cannot continue a number parses to
      its decimal value. */
  lemma ParseDecimal(ip: string, fp: string, rest: string)
    requires AllDigits(ip) && AllDigits(fp) && |ip| + |fp| > 0
    requires rest == [] || (!IsDigit(rest[0]) && !IsExponentMark(rest[0]))
    ensures ParseFloat(ip + "." + fp + rest) == Val(DecimalValue(ip, fp))
  {
    var s := ip + "." + fp + rest;
    assert s[0] == if |ip| > 0 then ip[0] else '.';
    ParsePlain(s);
    UnsignedDecimal(ip, fp, rest);
  }

  lemma UnsignedDecimal(ip: string, fp: string, rest: string)
    requires AllDigits(ip) && AllDigits(fp) && |ip| + |fp| > 0
    requires rest == [] || (!IsDigit(rest[0]) && !IsExponentMark(rest[0]))
    ensures ParseUnsigned(ip + "." + fp + rest) == Val(DecimalValue(ip, fp))
  {
    var s := ip + "." + fp + rest;
    assert s == ip + ("." + fp + rest);
    DigitPrefixOf(ip, "." + fp + rest);
    var r := s[|ip|..];
    assert r == "." + fp + rest;
    assert r[1..] == fp + rest;
    DigitPrefixOf(fp, rest);
    assert r[1 + |fp|..] == rest;
    assert ExponentPart(rest) == 0;
    var dv := DecimalValue(ip, fp);
    assert LiteralValue(ip, fp, 0) == dv;
  }

  /** A minus sign negates whatever the unsigned literal after it denotes. */
  lemma ParseNegative(s: string)
    ensures ParseFloat("-" + s) == match ParseUnsigned(s)
                                   case Val(v) => Val(-v)
                                   case other => other
  {
    hide ParseFloat, ParseUnsigned;
    var t := "-" + s;
    ParseSigned(t);
    assert t[1..] == s;
  }

  /** Text that starts with a sign: the literal after it, negated for `-`. */
  lemma ParseSigned(t: string)
    requires |t| > 0 && IsSign(t[0])
    ensures ParseFloat(t) == var m := ParseUnsigned(t[1..]);
                             if t[0] == '-' && m.Val? then Val(-m.v) else m
  {
    hide ParseUnsigned, TrimStart;
    SkipNothing(t);
  }

  /** Text whose first non-space character cannot start a number is NaN. */
  lemma ParseJunk(s: string)
    requires |s| > 0 && !IsSpace(s[0]) && !IsSign(s[0]) && !IsDigit(s[0]) && s[0] != '.'
    ensures ParseFloat(s).NaN?
  {
    ParsePlain(s);
  }

  lemma {:induction false} DigitPrefixOf(d: string, rest: string)
    requires AllDigits(d)
    requires rest == [] || !IsDigit(rest[0])
    ensures DigitPrefix(d + rest) == d
  {
    if d == [] {
      assert d + rest == rest;
    } else {
      assert (d + rest)[0] == d[0] && (d + rest)[1..] == d[1..] + rest;
      DigitPrefixOf(d[1..], rest);
    }
  }

  /* ---------------- Math.round and averages ---------------- */

  /** `Math.round`: the nearest integer, halves rounded up. */
  function Round(x: real): (r: int)
    ensures r as real - 0.5 <= x < r as real + 0.5
  {
    (x + 0.5).Floor
  }

  /** Any integer within half a unit of `x` (a half below included) is `Round(x)`. */
  lemma RoundUnique(x: real, k: int)
    requires k as real - 0.5 <= x < k as real + 0.5
    ensures Round(x) == k
  {
  }

  /** `(a + b) / 2` on parsed numbers: NaN when either side is NaN. */
  function Mean(a: Num, b: Num): (r: Num)
    requires !a.Absent? && !b.Absent?
    ensures r.NaN? <==> a.NaN? || b.NaN?
    ensures r.Val? ==> r.v - a.v == b.v - r.v
  {
    if a.NaN? || b.NaN? then NaN else Val((a.v + b.v) / 2.0)
  }
}
