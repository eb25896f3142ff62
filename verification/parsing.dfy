/**
 How `parseFloat` reads the numbers the dashboard's cells are written with:
 plain digit strings, integers with an optional minus sign, and digits with
 thousands separators once the separators are removed.
 */
module Parsing {
  import opened Text
  import opened Numbers

  lemma DigitsParse(d: string)
    requires |d| > 0 && AllDigits(d)
    ensures ParseFloat(d) == Val(DigitsValue(d) as real)
  {
    ParseDigits(d, []);
    assert d + [] == d;
  }

  lemma NatParses(n: nat)
    ensures ParseFloat(NatToString(n)) == Val(n as real)
  {
    DigitsParse(NatToString(n));
    DigitsValueOfNatToString(n);
  }

  /** The literal after a minus sign is read as unsigned. */
  lemma UnsignedNatParses(n: nat)
    ensures ParseUnsigned(NatToString(n)) == Val(n as real)
  {
    var d := NatToString(n);
    assert IsDigit(d[0]);
    ParsePlain(d);
    NatParses(n);
  }

  lemma NegativeParses(n: nat)
    ensures ParseFloat("-" + NatToString(n)) == Val(-(n as real))
  {
    UnsignedNatParses(n);
    ParseNegative(NatToString(n));
  }

  lemma IntParses(i: int)
    ensures ParseFloat(IntToString(i)) == Val(i as real)
  {
    hide ParseFloat, NatToString;
    if i < 0 {
      NegativeParses(-i);
    } else {
      NatParses(i);
    }
  }

  /** A text of digits and thousands separators is parsed as the number its
      digits spell (e.g. "4,000" and "12,500"). */
  lemma GroupedParse(s: string)
    requires forall i :: 0 <= i < |s| ==> IsDigit(s[i]) || s[i] == ','
    requires StripCommas(s) != []
    ensures AllDigits(StripCommas(s))
    ensures ParseFloat(StripCommas(s)) == Val(DigitsValue(StripCommas(s)) as real)
  {
    StripCommasDigits(s);
    DigitsParse(StripCommas(s));
  }

  /* ---------------- exponents ---------------- */

  /** Ten to the `k`. */
  function Pow10(k: nat): (r: real)
    ensures r >= 1.0
  {
    if k == 0 then 1.0 else 10.0 * Pow10(k - 1)
  }

  /** A positive exponent `k` multiplies the literal's value by ten to the `k`. */
  lemma {:induction false} LiteralScaleUp(ip: string, fp: string, k: nat)
    requires AllDigits(ip) && AllDigits(fp)
    ensures LiteralValue(ip, fp, k) == DecimalValue(ip, fp) * Pow10(k)
  {
    hide LiteralValue, DecimalValue, Pow10;
    PowersOfTen(k);
    if k > 0 {
      LiteralUp(ip, fp, k);
      LiteralScaleUp(ip, fp, k - 1);
      TimesTen(DecimalValue(ip, fp), Pow10(k - 1));
    }
  }

  /** A negative exponent `-k` divides the literal's value by ten to the `k`. */
  lemma {:induction false} LiteralScaleDown(ip: string, fp: string, k: nat)
    requires AllDigits(ip) && AllDigits(fp)
    ensures LiteralValue(ip, fp, -(k as int)) == DecimalValue(ip, fp) / Pow10(k)
  {
    hide LiteralValue, DecimalValue, Pow10;
    PowersOfTen(k);
    if k > 0 {
      LiteralDown(ip, fp, k);
      LiteralScaleDown(ip, fp, k - 1);
      OverTen(DecimalValue(ip, fp), Pow10(k - 1));
    }
  }

  /* One unfolding of `Pow10` and of `LiteralValue` in each direction, stated
     on their own so that the scaling proofs above keep the definitions hidden. */

  lemma PowersOfTen(k: nat)
    ensures Pow10(0) == 1.0
    ensures k > 0 ==> Pow10(k) == 10.0 * Pow10(k - 1)
  {
  }

  lemma LiteralUp(ip: string, fp: string, k: nat)
    requires AllDigits(ip) && AllDigits(fp) && k > 0
    ensures LiteralValue(ip, fp, k) == 10.0 * LiteralValue(ip, fp, k - 1)
  {
  }

  lemma LiteralDown(ip: string, fp: string, k: nat)
    requires AllDigits(ip) && AllDigits(fp) && k > 0
    ensures LiteralValue(ip, fp, -(k as int)) == LiteralValue(ip, fp, -((k - 1) as int)) / 10.0
  {
  }

  /* The arithmetic of one scaling step. */

  lemma TimesTen(a: real, p: real)
    ensures 10.0 * (a * p) == a * (10.0 * p)
  {
  }

  lemma OverTen(a: real, p: real)
    requires p >= 1.0
    ensures (a / p) / 10.0 == a / (10.0 * p)
  {
  }

  /** `e` followed by a natural number, with or without a minus sign, is read
      as that exponent. */
  lemma ExponentOfNat(k: nat)
    ensures ExponentPart("e" + NatToString(k)) == k
    ensures ExponentPart("e-" + NatToString(k)) == -(k as int)
  {
    var n := NatToString(k);
    assert IsDigit(n[0]);
    DigitPrefixOf(n, []);
    assert n + [] == n;
    DigitsValueOfNatToString(k);
    assert ("e" + n)[1..] == n;
    assert ("e-" + n)[1..] == "-" + n && ("-" + n)[1..] == n;
  }

  /** Digits with an exponent, such as "15e5", are read as the digits' value
      times a power of ten; with a negative exponent ("15e-1") it is divided. */
  lemma ParseExponent(d: string, k: nat)
    requires |d| > 0 && AllDigits(d)
    ensures ParseFloat(d + "e" + NatToString(k)) == Val(DigitsValue(d) as real * Pow10(k))
    ensures ParseFloat(d + "e-" + NatToString(k)) == Val(DigitsValue(d) as real / Pow10(k))
  {
    hide ParseFloat, LiteralValue, ExponentPart, NatToString, Pow10, DecimalValue, DigitsValue;
    ExponentOfNat(k);
    var n := NatToString(k);
    assert DecimalValue(d, []) == DigitsValue(d) as real;
    LiteralScaleUp(d, [], k);
    LiteralScaleDown(d, [], k);
    ScaledDigits(d, "e" + n, k);
    assert d + "e" + n == d + ("e" + n);
    ScaledDigits(d, "e-" + n, -(k as int));
    assert d + "e-" + n == d + ("e-" + n);
  }

  /** Digits followed by an exponent mark: the literal is the digits scaled by
      whatever exponent the rest spells. */
  lemma ScaledDigits(d: string, rest: string, e: int)
    requires |d| > 0 && AllDigits(d)
    requires |rest| > 0 && rest[0] == 'e' && ExponentPart(rest) == e
    ensures ParseFloat(d + rest) == Val(LiteralValue(d, [], e))
  {
    var s := d + rest;
    assert s[0] == d[0];
    ParsePlain(s);
    DigitPrefixOf(d, rest);
    assert s[|d|..] == rest;
  }
}
