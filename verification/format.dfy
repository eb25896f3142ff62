/**
 `formatNumber` of dashboard.js (lines 258-261): a dash for a missing value,
 otherwise the number's decimal spelling with a comma inserted by the regular
 expression `/\B(?=(\d{3})+(?!\d))/g`, that is, before every digit that is not
 the first of its run and is followed by a multiple of three digits.
 */
module Format {
  import opened Text
  import opened Numbers

  /** The digits of `d` in groups of three counted from the right, joined by
      commas. */
  function GroupThousands(d: string): (r: string)
    requires |d| > 0 && AllDigits(d)
    ensures |r| == |d| + (|d| - 1) / 3
    decreases |d|
  {
    if |d| <= 3 then d else GroupThousands(d[..|d| - 3]) + "," + d[|d| - 3..]
  }

  /** Appending a comma and a comma-free group: the stripped text grows by
      the group. */
  lemma StripStep(head: string, tail: string)
    requires AllDigits(tail)
    ensures StripCommas(head + "," + tail) == StripCommas(head) + tail
  {
    RemoveCharsAppend(head + ",", tail, {','});
    RemoveCharsAppend(head, ",", {','});
    RemoveCharsNoop(tail, {','});
    assert StripCommas(",") == [];
  }

  /** Removing the commas from the grouped digits gives the digits back. */
  lemma {:induction false} GroupThousandsStrip(d: string)
    requires |d| > 0 && AllDigits(d)
    ensures StripCommas(GroupThousands(d)) == d
    decreases |d|
  {
    if |d| <= 3 {
      RemoveCharsNoop(d, {','});
    } else {
      var init := d[..|d| - 3];
      var tail := d[|d| - 3..];
      GroupThousandsStrip(init);
      StripStep(GroupThousands(init), tail);
      assert d == init + tail;
    }
  }

  /** A comma stands exactly at the positions that are a multiple of four
      from the end, and the length is not such a multiple. */
  ghost predicate CommasEveryFourth(r: string) {
    |r| % 4 != 0 && forall i :: 0 <= i < |r| ==> (r[i] == ',' <==> (|r| - i) % 4 == 0)
  }

  lemma ModFour(x: int)
    ensures (x + 4) % 4 == x % 4
  {
  }

  /** Appending a comma and a group of three digits keeps the commas at
      every fourth position. */
  lemma CommaStep(head: string, tail: string)
    requires CommasEveryFourth(head)
    requires |tail| == 3 && AllDigits(tail)
    ensures CommasEveryFourth(head + "," + tail)
  {
    var r := head + "," + tail;
    assert |r| == |head| + 4;
    ModFour(|head|);
    forall i | 0 <= i < |r|
      ensures r[i] == ',' <==> (|r| - i) % 4 == 0
    {
      if i < |head| {
        assert r[i] == head[i];
        ModFour(|head| - i);
      } else if i > |head| {
        assert r[i] == tail[i - |head| - 1];
        assert 0 < |r| - i < 4;
      }
    }
  }

  /** The first group has one to three digits and every later group exactly
      three, so the commas stand at every fourth position from the end. */
  lemma {:induction false} GroupThousandsCommas(d: string)
    requires |d| > 0 && AllDigits(d)
    ensures CommasEveryFourth(GroupThousands(d))
    decreases |d|
  {
    var r := GroupThousands(d);
    if |d| <= 3 {
      assert forall i :: 0 <= i < |r| ==> r[i] != ',' && 0 < |r| - i < 4;
    } else {
      var init := d[..|d| - 3];
      GroupThousandsCommas(init);
      CommaStep(GroupThousands(init), d[|d| - 3..]);
    }
  }

  /** The grouped spelling holds only digits and commas. */
  lemma {:induction false} GroupThousandsChars(d: string)
    requires |d| > 0 && AllDigits(d)
    ensures forall i :: 0 <= i < |GroupThousands(d)| ==> IsDigit(GroupThousands(d)[i]) || GroupThousands(d)[i] == ','
    decreases |d|
  {
    if |d| > 3 {
      var init := d[..|d| - 3];
      GroupThousandsChars(init);
      var head := GroupThousands(init);
      var r := GroupThousands(d);
      forall i | 0 <= i < |r| ensures IsDigit(r[i]) || r[i] == ',' {
        if i < |head| {
          assert r[i] == head[i];
        } else if i > |head| {
          assert r[i] == d[|d| - 3 + (i - |head| - 1)];
        }
      }
    }
  }

  /** `formatNumber(num)` for `undefined`, NaN and integers. */
  function FormatNumber(n: Num): (r: string)
    requires n.Val? ==> n.v == n.v.Floor as real
    ensures r == "-" <==> !n.Val?
    ensures n.Val? ==> StripCommas(r) == IntToString(n.v.Floor)
  {
    if !n.Val? then "-"
    else
      var i := n.v.Floor;
      if i < 0 then
        var g := GroupThousands(NatToString(-i));
        GroupThousandsStrip(NatToString(-i));
        RemoveCharsAppend("-", g, {','});
        RemoveCharsNoop("-", {','});
        "-" + g
      else
        GroupThousandsStrip(NatToString(i));
        GroupThousands(NatToString(i))
  }

  /** For a natural number the output is the grouped spelling: digits only,
      with a comma before every later group of three. */
  lemma FormatNatural(n: nat)
    ensures var r := FormatNumber(Val(n as real));
            && StripCommas(r) == NatToString(n)
            && |r| % 4 != 0
            && forall i :: 0 <= i < |r| ==> (r[i] == ',' <==> (|r| - i) % 4 == 0)
  {
    assert (n as real).Floor == n;
    GroupThousandsCommas(NatToString(n));
    assert CommasEveryFourth(GroupThousands(NatToString(n)));
  }
}
