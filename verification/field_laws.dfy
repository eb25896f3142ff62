/**
 What the field cleaners of dashboard.js (lines 51-116) make of well-formed
 cells. The cells are written with the dashboard's own number formatter (or as
 plain digits), so several laws are round trips: the cleaner reads back the
 number that `formatNumber` wrote.
 */
module FieldLaws {
  import opened Text
  import opened Numbers
  import opened Parsing
  import opened Options
  import opened Normalize
  import opened Format

  /** How the dashboard displays the natural number `n`, e.g. "12,500". */
  function Shown(n: nat): (r: string)
    ensures |r| > 0
    ensures StripCommas(r) == NatToString(n)
    ensures forall i :: 0 <= i < |r| ==> IsDigit(r[i]) || r[i] == ','
    ensures IsDigit(r[0]) && IsDigit(r[|r| - 1])
  {
    assert (n as real).Floor == n;
    var r := FormatNumber(Val(n as real));
    GroupThousandsChars(NatToString(n));
    GroupThousandsCommas(NatToString(n));
    r
  }

  /* ---------------- BUA ---------------- */

  /** BUA text: the cleaner reads back every integer the formatter writes. */
  lemma {:induction false} BuaReadsFormatted(i: int)
    ensures CleanBua(FormatNumber(Val(i as real))) == Val(i as real)
  {
    assert (i as real).Floor == i;
    var r := FormatNumber(Val(i as real));
    assert StripCommas(r) == IntToString(i);
    IntParses(i);
  }

  /** BUA text with separators is its digits' value ("12,500" is 12500). */
  lemma {:induction false} BuaGrouped(s: string)
    requires forall i :: 0 <= i < |s| ==> IsDigit(s[i]) || s[i] == ','
    requires StripCommas(s) != []
    ensures AllDigits(StripCommas(s))
    ensures CleanBua(s) == Val(DigitsValue(StripCommas(s)) as real)
  {
    GroupedParse(s);
  }

  /** Separators never change a BUA value: cleaning the comma-free text gives
      the same field whenever that text is not empty. */
  lemma {:induction false} BuaIgnoresCommas(s: string)
    requires StripCommas(s) != []
    ensures CleanBua(StripCommas(s)) == CleanBua(s)
  {
    RemoveCharsTwice(s, {','});
  }

  /* ---------------- ranges ---------------- */

  /** The mean of a range of two displayed numbers. */
  lemma {:induction false} RangeOfShown(a: nat, b: nat)
    ensures RangeMean(Shown(a) + "-" + Shown(b)) == Val((a as real + b as real) / 2.0)
  {
    var x := Shown(a);
    var y := Shown(b);
    assert '-' !in x && '-' !in y;
    SplitPair(x, y, '-');
    assert ParseFloat(Trim(StripCommas(x))) == Val(a as real) by {
      ShownParses(a);
    }
    assert ParseFloat(Trim(StripCommas(y))) == Val(b as real) by {
      ShownParses(b);
    }
  }

  /** One side of a range: a displayed number, commas removed and trimmed. */
  lemma ShownParses(a: nat)
    ensures ParseFloat(Trim(StripCommas(Shown(a)))) == Val(a as real)
  {
    var d := NatToString(a);
    assert !IsSpace(d[0]) && !IsSpace(d[|d| - 1]);
    TrimNoop(d);
    NatParses(a);
  }

  /** Plot size "A-B" is the midpoint ("4,000-6,000" is 5000). */
  lemma {:induction false} PlotRange(a: nat, b: nat)
    ensures CleanPlot(Shown(a) + "-" + Shown(b)) == Val((a as real + b as real) / 2.0)
  {
    RangeText(a, b);
    RangeOfShown(a, b);
  }

  /** Removing the `~` from "~r" and trimming leaves a displayed cell alone. */
  lemma {:induction false} DropTilde(r: string)
    requires |r| > 0 && '~' !in r && !IsSpace(r[0]) && !IsSpace(r[|r| - 1])
    ensures Trim(RemoveChars("~" + r, {'~'})) == r
  {
    RemoveCharsAppend("~", r, {'~'});
    assert RemoveChars("~", {'~'}) == [];
    assert [] + RemoveChars(r, {'~'}) == RemoveChars(r, {'~'});
    RemoveCharsNoop(r, {'~'});
    TrimNoop(r);
  }

  /** The characters of a displayed range "A-B". */
  lemma RangeText(a: nat, b: nat)
    ensures var r := Shown(a) + "-" + Shown(b);
            && '-' in r && '~' !in r
            && IsDigit(r[0]) && IsDigit(r[|r| - 1])
  {
    hide Shown;
    var x := Shown(a);
    var y := Shown(b);
    var r := x + "-" + y;
    assert r[|x|] == '-';
    forall k | 0 <= k < |r| ensures r[k] != '~' {
      if k < |x| {
        assert r[k] == x[k];
      } else if k > |x| {
        assert r[k] == y[k - |x| - 1];
      }
    }
    assert r[|r| - 1] == y[|y| - 1];
  }

  /** The `~` in front of a range is removed before the range is split. */
  lemma {:induction false} TildeRange(r: string)
    requires |r| > 0 && '-' in r && '~' !in r && !IsSpace(r[0]) && !IsSpace(r[|r| - 1])
    ensures CleanPlot("~" + r) == RangeMean(r)
  {
    var s := "~" + r;
    assert '~' in s by {
      assert s[0] == '~';
    }
    DropTilde(r);
    var t := Trim(RemoveChars(s, {'~'}));
    assert t == r;
  }

  /** An approximate plot size "~A-B" is the midpoint too. */
  lemma {:induction false} PlotApproxRange(a: nat, b: nat)
    ensures CleanPlot("~" + (Shown(a) + "-" + Shown(b))) == Val((a as real + b as real) / 2.0)
  {
    hide CleanPlot, RangeMean, Shown;
    var r := Shown(a) + "-" + Shown(b);
    RangeText(a, b);
    TildeRange(r);
    RangeOfShown(a, b);
  }

  /** A single approximate plot size "~A" is A. */
  lemma {:induction false} PlotApprox(a: nat)
    ensures CleanPlot("~" + Shown(a)) == Val(a as real)
  {
    hide Shown, ParseFloat, Trim, RemoveChars, StripCommas, NatToString;
    var r := Shown(a);
    var s := "~" + r;
    assert s[0] == '~';
    assert '~' !in r && '-' !in r;
    DropTilde(r);
    NatParses(a);
  }

  /* ---------------- launch price ---------------- */

  lemma {:induction false} DigitRunEndOf(s: string, i: nat, j: nat)
    requires i <= j <= |s|
    requires forall k :: i <= k < j ==> IsDigit(s[k])
    requires j == |s| || !IsDigit(s[j])
    ensures DigitRunEnd(s, i) == j
    decreases j - i
  {
    if i < j {
      DigitRunEndOf(s, i + 1, j);
    }
  }

  /** A price written "ip.fpM" is ip.fp million ("2.5M" is 2.5). */
  lemma {:induction false} PriceMillionsDecimal(ip: string, fp: string)
    requires |ip| > 0 && AllDigits(ip) && AllDigits(fp)
    ensures CleanPrice(ip + "." + fp + "M") == Val(DecimalValue(ip, fp))
  {
    var s := ip + "." + fp + "M";
    var e := |ip| + 1 + |fp|;
    assert s[|ip|] == '.' && s[e] == 'M';
    assert forall k :: 0 <= k < |ip| ==> s[k] == ip[k];
    assert forall k :: |ip| + 1 <= k < e ==> s[k] == fp[k - |ip| - 1];
    DigitRunEndOf(s, 0, |ip|);
    DigitRunEndOf(s, |ip| + 1, e);
    assert MillionsAt(s, 0);
    assert s[0..e] == ip + "." + fp;
    ParseDecimal(ip, fp, []);
    assert ip + "." + fp + [] == ip + "." + fp;
  }

  /** A price written "NM" is N million. */
  lemma {:induction false} PriceMillionsWhole(n: nat)
    ensures CleanPrice(NatToString(n) + "M") == Val(n as real)
  {
    var d := NatToString(n);
    var s := d + "M";
    assert s[|d|] == 'M';
    assert forall k :: 0 <= k < |d| ==> s[k] == d[k];
    DigitRunEndOf(s, 0, |d|);
    assert MillionsAt(s, 0);
    assert s[0..|d|] == d;
    NatParses(n);
  }

  /** A text of digits and separators without an `M` is a price in dirhams,
      stored in millions ("2500000" and "2,500,000" are 2.5). */
  lemma {:induction false} PriceDirhams(s: string)
    requires forall i :: 0 <= i < |s| ==> IsDigit(s[i]) || s[i] == ','
    requires StripCommas(s) != []
    ensures AllDigits(StripCommas(s))
    ensures CleanPrice(s) == Val(DigitsValue(StripCommas(s)) as real / 1000000.0)
  {
    assert forall i :: 0 <= i < |s| ==> !MillionsAt(s, i);
    GroupedParse(s);
  }

  /** Whether a price has a millions suffix: some `M` directly follows a digit,
      or a digit and a dot. */
  ghost predicate MarkedMillions(s: string, k: int) {
    && 0 < k < |s|
    && s[k] == 'M'
    && (IsDigit(s[k - 1]) || (1 < k && s[k - 1] == '.' && IsDigit(s[k - 2])))
  }

  /** Every match of the price regex ends at a marked `M`. */
  lemma MatchIsMarked(s: string, i: nat)
    requires MillionsAt(s, i)
    ensures MarkedMillions(s, NumeralEnd(s, i))
  {
    var m := DigitRunEnd(s, i);
    var j := NumeralEnd(s, i);
    if m < |s| && s[m] == '.' {
      if j == m + 1 {
        assert IsDigit(s[m - 1]);
      } else {
        assert IsDigit(s[j - 1]);
      }
    } else {
      assert j == m && IsDigit(s[m - 1]);
    }
  }

  /** A marked `M` is the end of a match of the price regex. */
  lemma MarkedIsMatch(s: string, k: int)
    requires MarkedMillions(s, k)
    ensures MillionsAt(s, k - 1) || MillionsAt(s, k - 2)
  {
    if IsDigit(s[k - 1]) {
      DigitRunEndOf(s, k - 1, k);
      assert NumeralEnd(s, k - 1) == k;
    } else {
      DigitRunEndOf(s, k - 2, k - 1);
      DigitRunEndOf(s, k, k);
      assert NumeralEnd(s, k - 2) == k;
    }
  }

  /** The price regex finds a match exactly when the text has a marked `M`. */
  lemma MillionsMatchIff(s: string)
    ensures MillionsMatch(s, 0).Some? <==> exists k :: MarkedMillions(s, k)
  {
    if MillionsMatch(s, 0).Some? {
      var i :| 0 <= i < |s| && MillionsAt(s, i);
      MatchIsMarked(s, i);
    }
    if k :| MarkedMillions(s, k) {
      MarkedIsMatch(s, k);
    }
  }

  /* ---------------- price per square foot ---------------- */

  /** `(avg)` removal leaves a leading part without white space alone. */
  lemma {:induction false} RemoveAvgKeepsHead(x: string, y: string)
    requires NoSpaces(x)
    ensures RemoveAvg(x + y) == x + RemoveAvg(y)
  {
    if x != [] {
      var s := x + y;
      assert s[0] == x[0] && s[1..] == x[1..] + y;
      assert SpaceRun(s) == 0;
      RemoveAvgKeepsHead(x[1..], y);
    } else {
      assert x + y == y;
    }
  }

  /** Removing `~` and `,` from "~A (avg)" leaves A's digits and the note. */
  lemma {:induction false} StripApproxAverage(a: nat)
    ensures RemoveChars("~" + Shown(a) + " (avg)", {'~', ','}) == NatToString(a) + " (avg)"
  {
    var r := Shown(a);
    var cs := {'~', ','};
    RemoveCharsAppend("~" + r, " (avg)", cs);
    RemoveCharsAppend("~", r, cs);
    assert RemoveChars("~", cs) == [];
    assert forall k :: 0 <= k < |r| ==> r[k] !in {'~'};
    RemoveCharsAbsent(r, {','}, {'~'});
    assert {','} + {'~'} == cs;
    RemoveCharsNoop(" (avg)", cs);
  }

  /** A trailing " (avg)" is removed from a text without white space. */
  lemma {:induction false} AverageNoteRemoved(d: string)
    requires NoSpaces(d)
    ensures RemoveAvg(d + " (avg)") == d
  {
    RemoveAvgKeepsHead(d, " (avg)");
    assert SpaceRun(" (avg)") == 1;
    assert RemoveAvg(" (avg)") == [];
    assert d + [] == d;
  }

  /** PSF text "~A (avg)" is A ("~1,200 (avg)" is 1200). */
  lemma {:induction false} PsfApproxAverage(a: nat)
    ensures CleanPsf("~" + Shown(a) + " (avg)") == Val(a as real)
  {
    var r := Shown(a);
    var s := "~" + r + " (avg)";
    assert '-' !in s by {
      assert forall k :: 0 <= k < |r| ==> s[k + 1] == r[k];
    }
    StripApproxAverage(a);
    var d := NatToString(a);
    DigitsAreNotSpaces(d);
    AverageNoteRemoved(d);
    NatParses(a);
  }

  /** PSF range "A-B" is the midpoint. */
  lemma {:induction false} PsfRange(a: nat, b: nat)
    ensures CleanPsf(Shown(a) + "-" + Shown(b)) == Val((a as real + b as real) / 2.0)
  {
    var s := Shown(a) + "-" + Shown(b);
    assert s[|Shown(a)|] == '-';
    RangeOfShown(a, b);
  }

  /** PSF range with a leading `~`: the `~` is not removed on this path, so the
      lower bound does not parse and the field is NaN ("~1,000-1,200"). */
  lemma {:induction false} PsfApproxRangeIsNaN(x: string, y: string)
    requires '-' !in x && '-' !in y
    ensures CleanPsf("~" + x + "-" + y).NaN?
  {
    var lo := "~" + x;
    assert '-' !in lo;
    SplitPair(lo, y, '-');
    RemoveCharsAppend("~", x, {','});
    assert StripCommas("~") == "~";
    var t := StripCommas(lo);
    assert t[0] == '~';
    TrimKeepsHead(t);
    ParseJunk(Trim(t));
  }

  /* ---------------- bedrooms ---------------- */

  lemma {:induction false} FirstDigitRunOf(pre: string, d: string, post: string)
    requires NoDigits(pre) && |d| > 0 && AllDigits(d)
    requires post == [] || !IsDigit(post[0])
    ensures FirstDigitRun(pre + d + post) == Some(d)
  {
    var s := pre + d + post;
    if pre == [] {
      assert s == d + post;
      assert s[0] == d[0];
      DigitPrefixOf(d, post);
    } else {
      assert s[0] == pre[0];
      assert s[1..] == pre[1..] + d + post;
      FirstDigitRunOf(pre[1..], d, post);
    }
  }

  /** Bedrooms are the first number in `Config` ("4 Bed + Maid" has 4). */
  lemma {:induction false} BedroomsOf(pre: string, n: nat, post: string)
    requires NoDigits(pre)
    requires post == [] || !IsDigit(post[0])
    ensures CleanBedrooms(pre + NatToString(n) + post) == Some(n)
  {
    FirstDigitRunOf(pre, NatToString(n), post);
    DigitsValueOfNatToString(n);
  }
}
