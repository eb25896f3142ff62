/**
 Character classes and string operations that the dashboard's cleaning code
 borrows from JavaScript: `\d` and `\s` in regular expressions, `trim`,
 `split`, `replace(/x/g, '')`, and the decimal spelling of a natural number.
 */
module Text {

  /** `\d` in a JavaScript regular expression: the ASCII digits only. */
  predicate IsDigit(c: char) {
    '0' <= c <= '9'
  }

  /** White space as JavaScript's `trim`, `parseFloat` and the regex class `\s`
      see it: the WhiteSpace and LineTerminator characters of ECMAScript. */
  predicate IsSpace(c: char) {
    || c == '\t' || c == '\n' || c == '\U{000B}' || c == '\U{000C}' || c == '\r' || c == ' '
    || c == '\U{00A0}' || c == '\U{1680}' || ('\U{2000}' <= c <= '\U{200A}')
    || c == '\U{2028}' || c == '\U{2029}' || c == '\U{202F}' || c == '\U{205F}'
    || c == '\U{3000}' || c == '\U{FEFF}'
  }

  predicate AllDigits(s: string) {
    forall i :: 0 <= i < |s| ==> IsDigit(s[i])
  }

  predicate NoDigits(s: string) {
    forall i :: 0 <= i < |s| ==> !IsDigit(s[i])
  }

  predicate AllSpaces(s: string) {
    forall i :: 0 <= i < |s| ==> IsSpace(s[i])
  }

  predicate NoSpaces(s: string) {
    forall i :: 0 <= i < |s| ==> !IsSpace(s[i])
  }

  function DigitValue(c: char): (d: nat)
    requires IsDigit(c)
    ensures d < 10
  {
    (c as int - '0' as int) as nat
  }

  function DigitChar(d: nat): (c: char)
    requires d < 10
    ensures IsDigit(c) && DigitValue(c) == d
  {
    ('0' as int + d) as char
  }

  /** The value of a string of decimal digits, as `parseInt` reads it
      (leading zeros allowed, the empty string is 0). */
  function DigitsValue(s: string): nat
    requires AllDigits(s)
  {
    if s == [] then 0 else DigitsValue(s[..|s| - 1]) * 10 + DigitValue(s[|s| - 1])
  }

  /** The decimal spelling of a natural number, as `Number.prototype.toString`
      writes it for integers below 10^21: no sign, no leading zero. */
  function NatToString(n: nat): (r: string)
    ensures |r| > 0 && AllDigits(r)
    ensures r[0] == '0' ==> n == 0
  {
    if n < 10 then [DigitChar(n)] else NatToString(n / 10) + [DigitChar(n % 10)]
  }

  /** The decimal spelling of an integer: a minus sign before negative ones. */
  function IntToString(i: int): (r: string)
    ensures |r| > 0
    ensures r[0] == '-' <==> i < 0
  {
    if i < 0 then "-" + NatToString(-i) else NatToString(i)
  }

  /** A digit string without a superfluous leading zero. */
  predicate Canonical(s: string) {
    |s| > 0 && AllDigits(s) && (s[0] == '0' ==> |s| == 1)
  }

  /** Reading back the spelling of `n` gives `n`. */
  lemma {:induction false} DigitsValueOfNatToString(n: nat)
    ensures DigitsValue(NatToString(n)) == n
  {
    if n >= 10 {
      var s := NatToString(n);
      assert s[..|s| - 1] == NatToString(n / 10);
      DigitsValueOfNatToString(n / 10);
    }
  }

  /** Spelling the value of a canonical digit string gives the string back. */
  lemma {:induction false} NatToStringOfDigitsValue(s: string)
    requires Canonical(s)
    ensures NatToString(DigitsValue(s)) == s
  {
    if |s| == 1 {
      assert s[..0] == [];
    } else {
      var init := s[..|s| - 1];
      assert init[0] == s[0];
      NatToStringOfDigitsValue(init);
      LeadingNonZero(init);
      var n := DigitsValue(s);
      assert n / 10 == DigitsValue(init) && n % 10 == DigitValue(s[|s| - 1]);
      assert [DigitChar(n % 10)] == [s[|s| - 1]];
      assert s == init + [s[|s| - 1]];
    }
  }

  /** A canonical string of two or more digits has a value of at least 10. */
  lemma {:induction false} LeadingNonZero(s: string)
    requires Canonical(s) && s[0] != '0'
    ensures DigitsValue(s) >= 1
  {
    if |s| > 1 {
      var init := s[..|s| - 1];
      assert init[0] == s[0];
      LeadingNonZero(init);
    } else {
      assert s[..0] == [];
    }
  }

  lemma DigitsAreNotSpaces(s: string)
    requires AllDigits(s)
    ensures NoSpaces(s)
  {
  }

  /* ---------------- removing characters: `replace(/[..]/g, '')` ---------------- */

  /** `s.replace(/[cs]/g, '')`: every character in `cs` deleted. */
  function RemoveChars(s: string, cs: set<char>): (r: string)
    ensures |r| <= |s|
  {
    if s == [] then []
    else
      var rest := RemoveChars(s[1..], cs);
      if s[0] in cs then rest else [s[0]] + rest
  }

  /** Removal deletes every occurrence of the characters in `cs` and keeps
      every other character as often as it occurs. */
  lemma {:induction false} RemoveCharsCounts(s: string, cs: set<char>)
    ensures forall c :: multiset(RemoveChars(s, cs))[c] == if c in cs then 0 else multiset(s)[c]
  {
    if s != [] {
      RemoveCharsCounts(s[1..], cs);
      assert s == [s[0]] + s[1..];
    }
  }

  /** `s.replace(/,/g, '')`. */
  function StripCommas(s: string): string {
    RemoveChars(s, {','})
  }

  /** Removal only deletes: characters outside `cs` keep their order. */
  lemma {:induction false} RemoveCharsAppend(a: string, b: string, cs: set<char>)
    ensures RemoveChars(a + b, cs) == RemoveChars(a, cs) + RemoveChars(b, cs)
  {
    if a == [] {
      assert a + b == b;
    } else {
      assert (a + b)[0] == a[0] && (a + b)[1..] == a[1..] + b;
      RemoveCharsAppend(a[1..], b, cs);
    }
  }

  /** A string that holds none of the removed characters is left as it is. */
  lemma {:induction false} RemoveCharsNoop(s: string, cs: set<char>)
    requires forall i :: 0 <= i < |s| ==> s[i] !in cs
    ensures RemoveChars(s, cs) == s
  {
    if s != [] {
      RemoveCharsNoop(s[1..], cs);
    }
  }

  /** Removing characters that do not occur changes nothing either when they
      are added to the removed set. */
  lemma {:induction false} RemoveCharsAbsent(s: string, cs: set<char>, ds: set<char>)
    requires forall i :: 0 <= i < |s| ==> s[i] !in ds
    ensures RemoveChars(s, cs + ds) == RemoveChars(s, cs)
  {
    if s != [] {
      RemoveCharsAbsent(s[1..], cs, ds);
    }
  }

  /** Removal is idempotent. */
  lemma {:induction false} RemoveCharsTwice(s: string, cs: set<char>)
    ensures RemoveChars(RemoveChars(s, cs), cs) == RemoveChars(s, cs)
  {
    if s != [] {
      RemoveCharsTwice(s[1..], cs);
    }
  }

  /** Removing commas from digits and commas leaves digits only. */
  lemma {:induction false} StripCommasDigits(s: string)
    requires forall i :: 0 <= i < |s| ==> IsDigit(s[i]) || s[i] == ','
    ensures AllDigits(StripCommas(s))
  {
    if s != [] {
      StripCommasDigits(s[1..]);
    }
  }

  /* ---------------- trim ---------------- */

  /** Length of the white-space run at the start of `s`. */
  function SpaceRun(s: string): (n: nat)
    ensures n <= |s| && AllSpaces(s[..n])
    ensures n == |s| || !IsSpace(s[n])
  {
    if |s| > 0 && IsSpace(s[0]) then 1 + SpaceRun(s[1..]) else 0
  }

  /** `String.prototype.trimStart`: the text after its leading white space. */
  function TrimStart(s: string): (r: string)
    ensures |r| <= |s| && r == s[|s| - |r|..]
    ensures AllSpaces(s[..|s| - |r|])
    ensures r == [] || !IsSpace(r[0])
  {
    s[SpaceRun(s)..]
  }

  /** Text that does not start with white space has none to skip. */
  lemma SkipNothing(s: string)
    requires s == [] || !IsSpace(s[0])
    ensures TrimStart(s) == s
  {
  }

  /** A leading white-space character is skipped. */
  lemma TrimStartSpace(c: char, s: string)
    requires IsSpace(c)
    ensures TrimStart([c] + s) == TrimStart(s)
  {
    assert ([c] + s)[1..] == s;
  }

  function TrimEnd(s: string): (r: string)
    ensures |r| <= |s| && r == s[..|r|]
    ensures AllSpaces(s[|r|..])
    ensures r == [] || !IsSpace(r[|r| - 1])
  {
    if |s| > 0 && IsSpace(s[|s| - 1]) then
      var r := TrimEnd(s[..|s| - 1]);
      assert s[|r|..] == s[..|s| - 1][|r|..] + [s[|s| - 1]];
      r
    else s
  }

  /** `String.prototype.trim`: white space removed from both ends. */
  function Trim(s: string): (r: string)
    ensures |r| <= |s|
  {
    TrimEnd(TrimStart(s))
  }

  /** Trimming keeps the middle: the trimmed text `t` starts right after the
      leading white-space run of `s`, and only white space follows it. */
  lemma TrimMiddle(s: string, k: nat, t: string)
    requires k == SpaceRun(s) && t == Trim(s)
    ensures k + |t| <= |s| && t == s[k..k + |t|] && AllSpaces(s[k + |t|..])
  {
    hide Trim, TrimStart, TrimEnd, SpaceRun, AllSpaces, IsSpace;
    TrimSteps(s);
    var u := TrimStart(s);
    assert t == u[..|t|] && AllSpaces(u[|t|..]);
    SuffixSlices(s, k, |t|, u);
  }

  /** `trim()` as the two steps it is built from. */
  lemma TrimSteps(s: string)
    ensures TrimStart(s) == s[SpaceRun(s)..] && Trim(s) == TrimEnd(TrimStart(s))
  {
  }

  /** Cutting the suffix `u` of `s` at `n` cuts `s` itself at `k + n`. */
  lemma SuffixSlices(s: string, k: nat, n: nat, u: string)
    requires k <= |s| && u == s[k..] && n <= |u|
    ensures k + n <= |s| && u[..n] == s[k..k + n] && u[n..] == s[k + n..]
  {
  }

  /** Neither end of the trimmed text is white space. */
  lemma TrimEnds(s: string)
    ensures Trim(s) == [] || (!IsSpace(Trim(s)[0]) && !IsSpace(Trim(s)[|Trim(s)| - 1]))
  {
    var t := TrimStart(s);
    var r := TrimEnd(t);
    assert r != [] ==> r[0] == t[0];
  }

  /** Trimming leaves nothing exactly when the text is all white space. */
  lemma TrimBlank(s: string)
    ensures Trim(s) == [] <==> AllSpaces(s)
  {
    var t := TrimStart(s);
    var r := TrimEnd(t);
    assert Trim(s) == r;
    var i := |s| - |t|;
    hide Trim, TrimStart, TrimEnd;
    if r == [] {
      assert t == [] by { assert t[|r|..] == t; }
      assert s[..i] == s;
    } else {
      assert s[i] == t[0] == r[0];
    }
  }

  /** Trimming a string whose ends are not white space changes nothing. */
  lemma TrimNoop(s: string)
    requires s == [] || (!IsSpace(s[0]) && !IsSpace(s[|s| - 1]))
    ensures Trim(s) == s
  {
  }

  /** Trimming keeps a first character that is not white space. */
  lemma TrimKeepsHead(s: string)
    requires |s| > 0 && !IsSpace(s[0])
    ensures |Trim(s)| > 0 && Trim(s)[0] == s[0]
  {
    assert TrimStart(s) == s;
  }

  /* ---------------- split ---------------- */

  function IndexOf(s: string, c: char): (i: nat)
    requires c in s
    ensures i < |s| && s[i] == c && c !in s[..i]
  {
    if s[0] == c then 0 else assert c in s[1..]; 1 + IndexOf(s[1..], c)
  }

  /** `s.split(c)` for a one-character separator. */
  function Split(s: string, c: char): (parts: seq<string>)
    ensures |parts| >= 1
    ensures forall k :: 0 <= k < |parts| ==> c !in parts[k]
    ensures c in s <==> |parts| >= 2
    decreases |s|
  {
    if c !in s then [s]
    else
      var i := IndexOf(s, c);
      [s[..i]] + Split(s[i + 1..], c)
  }

  /** `parts.join(c)`. */
  function Join(parts: seq<string>, c: char): string
    requires |parts| >= 1
  {
    if |parts| == 1 then parts[0] else parts[0] + [c] + Join(parts[1..], c)
  }

  /** Splitting loses nothing: joining the parts again gives the text back. */
  lemma {:induction false} JoinSplit(s: string, c: char)
    ensures Join(Split(s, c), c) == s
    decreases |s|
  {
    if c in s {
      var i := IndexOf(s, c);
      var rest := s[i + 1..];
      JoinSplit(rest, c);
      var parts := Split(s, c);
      assert parts[1..] == Split(rest, c);
      assert s == s[..i] + [c] + rest;
    }
  }

  /** The two halves of a text with exactly one separator. */
  lemma SplitPair(x: string, y: string, c: char)
    requires c !in x && c !in y
    ensures Split(x + [c] + y, c) == [x, y]
  {
    var s := x + [c] + y;
    assert s[|x|] == c;
    assert s[..|x|] == x;
    var i := IndexOf(s, c);
    assert i == |x|;
    assert s[i + 1..] == y;
  }
}
