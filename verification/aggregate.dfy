/**
 The option lists and chart data the dashboard derives once, right after
 loading (dashboard.js, lines 124-195): the distinct property types and
 configurations offered by the filters, the per-type size and price averages,
 and the points of the BUA-against-price scatter chart.
 */
module Aggregate {
  import opened Text
  import opened Numbers
  import opened Options
  import opened Normalize
  import opened Seqs

  /** The filter value that stands for "no filter". */
  const ALL := "All"

  predicate Distinct<T(==)>(xs: seq<T>) {
    forall i, j :: 0 <= i < j < |xs| ==> xs[i] != xs[j]
  }

  /* ---------------- distinct values in first-seen order ---------------- */

  /** `[...new Set(xs)]`: every value once, in the order it first appears. */
  function Dedup(xs: seq<string>): (r: seq<string>)
    ensures forall x :: x in r <==> x in xs
    ensures Distinct(r)
  {
    if xs == [] then []
    else
      var init := xs[..|xs| - 1];
      var x := xs[|xs| - 1];
      assert xs == init + [x];
      var d := Dedup(init);
      if x in d then d else d + [x]
  }

  /** Adding a value at the end adds it to the distinct list unless seen. */
  lemma DedupSnoc(xs: seq<string>, x: string)
    ensures Dedup(xs + [x]) == if x in Dedup(xs) then Dedup(xs) else Dedup(xs) + [x]
  {
    assert (xs + [x])[..|xs|] == xs;
  }

  /** The position of the first occurrence of `x`. */
  function FirstIndex(xs: seq<string>, x: string): (i: nat)
    requires x in xs
    ensures i < |xs| && xs[i] == x && x !in xs[..i]
  {
    if xs[0] == x then 0
    else
      var j := FirstIndex(xs[1..], x);
      assert xs[..j + 1] == [xs[0]] + xs[1..][..j];
      j + 1
  }

  /** An occurrence with no earlier occurrence is the first one. */
  lemma FirstIndexUnique(xs: seq<string>, x: string, i: nat)
    requires i < |xs| && xs[i] == x && x !in xs[..i]
    ensures FirstIndex(xs, x) == i
  {
    var k := FirstIndex(xs, x);
    forall m | 0 <= m < i ensures xs[m] != x {
      assert xs[..i][m] == xs[m];
    }
    forall m | 0 <= m < k ensures xs[m] != x {
      assert xs[..k][m] == xs[m];
    }
  }

  /** The distinct list is ordered by first appearance in the input. */
  lemma {:induction false} DedupOrder(xs: seq<string>, i: nat, j: nat)
    requires i < j < |Dedup(xs)|
    ensures FirstIndex(xs, Dedup(xs)[i]) < FirstIndex(xs, Dedup(xs)[j])
    decreases |xs|
  {
    var init := xs[..|xs| - 1];
    var x := xs[|xs| - 1];
    assert xs == init + [x];
    var d := Dedup(init);
    var a := Dedup(xs)[i];
    var b := Dedup(xs)[j];
    assert a in init by {
      assert a == d[i];
    }
    var ka := FirstIndex(init, a);
    assert xs[..ka] == init[..ka];
    FirstIndexUnique(xs, a, ka);
    if j < |d| {
      assert b == d[j];
      DedupOrder(init, i, j);
      var kb := FirstIndex(init, b);
      assert xs[..kb] == init[..kb];
      FirstIndexUnique(xs, b, kb);
    } else {
      assert b == x && x !in init;
      assert xs[..|init|] == init;
      FirstIndexUnique(xs, b, |init|);
    }
  }

  /* ---------------- option lists ---------------- */

  /** `p['Type']`. Every ingested record has one, so `undefined` does not arise. */
  function TypeOf(r: CleanRecord): string {
    Field(r.raw, TYPE_COLUMN)
  }

  function ConfigOf(r: CleanRecord): string {
    Field(r.raw, CONFIG_COLUMN)
  }

  /** The types of the records, in order. */
  function Types(rs: seq<CleanRecord>): (r: seq<string>)
    ensures |r| == |rs| && forall k :: 0 <= k < |rs| ==> r[k] == TypeOf(rs[k])
  {
    if rs == [] then [] else [TypeOf(rs[0])] + Types(rs[1..])
  }

  /** The type filter's options: "All", then every type once, first seen first. */
  function PropertyTypes(rs: seq<CleanRecord>): (r: seq<string>)
    ensures |r| >= 1 && r[0] == ALL
    ensures forall t :: t in r[1..] <==> exists k :: 0 <= k < |rs| && TypeOf(rs[k]) == t
    ensures Distinct(r[1..])
    ensures forall i :: 1 <= i < |r| ==> r[i] in Types(rs)
    ensures forall i, j :: 1 <= i < j < |r| ==> FirstIndex(Types(rs), r[i]) < FirstIndex(Types(rs), r[j])
  {
    var d := Dedup(Types(rs));
    assert ([ALL] + d)[1..] == d;
    forall i, j | 0 <= i < j < |d| ensures FirstIndex(Types(rs), d[i]) < FirstIndex(Types(rs), d[j]) {
      DedupOrder(Types(rs), i, j);
    }
    [ALL] + d
  }

  /** `p['Config']` is truthy. */
  predicate HasConfig(p: CleanRecord) {
    ConfigOf(p) != ""
  }

  /** `p['Config'].trim()`. */
  function TrimmedConfig(p: CleanRecord): string {
    Trim(ConfigOf(p))
  }

  /** `rs.filter(p => p['Config']).map(p => p['Config'].trim())`: the trimmed
      `Config` of every record whose `Config` is not empty, in order. */
  function Configs(rs: seq<CleanRecord>): (r: seq<string>)
    ensures |r| <= |rs|
    ensures forall c :: c in r <==> exists p :: p in rs && ConfigOf(p) != "" && Trim(ConfigOf(p)) == c
  {
    KeepMapSound(rs, HasConfig, TrimmedConfig);
    KeepMapComplete(rs, HasConfig, TrimmedConfig);
    KeepMap(rs, HasConfig, TrimmedConfig)
  }

  /** The configurations are read record by record, so the list of `a + b`
      is the list of `a` followed by that of `b`. */
  lemma ConfigsAppend(a: seq<CleanRecord>, b: seq<CleanRecord>)
    ensures Configs(a + b) == Configs(a) + Configs(b)
  {
    KeepMapAppend(a, b, HasConfig, TrimmedConfig);
  }

  /** The configuration filter's options: "All", then every trimmed non-empty
      `Config` once, first seen first. A `Config` of white space alone is not
      empty, so it contributes the empty option. */
  function ConfigTypes(rs: seq<CleanRecord>): (r: seq<string>)
    ensures |r| >= 1 && r[0] == ALL
    ensures forall c :: c in r[1..] <==> c in Configs(rs)
    ensures forall c :: c in r[1..] <==> exists p :: p in rs && ConfigOf(p) != "" && Trim(ConfigOf(p)) == c
    ensures Distinct(r[1..])
    ensures forall i, j :: 1 <= i < j < |r| ==> FirstIndex(Configs(rs), r[i]) < FirstIndex(Configs(rs), r[j])
  {
    var d := Dedup(Configs(rs));
    assert ([ALL] + d)[1..] == d;
    forall i, j | 0 <= i < j < |d| ensures FirstIndex(Configs(rs), d[i]) < FirstIndex(Configs(rs), d[j]) {
      DedupOrder(Configs(rs), i, j);
    }
    [ALL] + d
  }

  /* ---------------- per-type tallies ---------------- */

  /** The record takes part in the tally of `f` for type `t` behind the guard
      `gate`: it has a type, the type is `t`, and both fields are truthy. */
  predicate Counts(r: CleanRecord, t: string, gate: NumField, f: NumField) {
    TypeOf(r) != "" && TypeOf(r) == t && Truthy(Get(r, gate)) && Truthy(Get(r, f))
  }

  /** A total and a count, as the tally objects hold them. */
  datatype Tally = Tally(total: real, count: nat)

  /** What one record adds to the tally of `f` for type `t`. */
  function Bump(a: Tally, p: CleanRecord, t: string, gate: NumField, f: NumField): Tally {
    if Counts(p, t, gate, f) then Tally(a.total + Get(p, f).v, a.count + 1) else a
  }

  /** Reference tally of `f` for type `t`: the sum and number of the values of
      the records counted for `t`. */
  function TallyOf(rs: seq<CleanRecord>, t: string, gate: NumField, f: NumField): Tally {
    if rs == [] then Tally(0.0, 0)
    else Bump(TallyOf(rs[..|rs| - 1], t, gate, f), rs[|rs| - 1], t, gate, f)
  }

  /** The types of the records that pass `gate`, in order. */
  function GateTypes(rs: seq<CleanRecord>, gate: NumField): seq<string> {
    if rs == [] then []
    else
      var last := rs[|rs| - 1];
      GateTypes(rs[..|rs| - 1], gate) + if TypeOf(last) != "" && Truthy(Get(last, gate)) then [TypeOf(last)] else []
  }

  /** The keys of a tally object (`Object.keys`): the types that pass the
      guard, in the order the tally first met them. */
  function Grouped(rs: seq<CleanRecord>, gate: NumField): seq<string> {
    Dedup(GateTypes(rs, gate))
  }

  /** A type is a key of the tally exactly when some record of it passes the
      guard, i.e. when its guard count is positive. */
  lemma {:induction false} GroupedIffCounted(rs: seq<CleanRecord>, t: string, gate: NumField)
    ensures t in Grouped(rs, gate) <==> TallyOf(rs, t, gate, gate).count > 0
  {
    GateTypesCount(rs, t, gate);
  }

  lemma {:induction false} GateTypesCount(rs: seq<CleanRecord>, t: string, gate: NumField)
    ensures t in GateTypes(rs, gate) <==> TallyOf(rs, t, gate, gate).count > 0
  {
    if rs != [] {
      GateTypesCount(rs[..|rs| - 1], t, gate);
    }
  }

  /** A type that is not a key has an empty tally for every field behind the
      same guard. */
  lemma {:induction false} UngroupedEmpty(rs: seq<CleanRecord>, t: string, gate: NumField, f: NumField)
    requires t !in GateTypes(rs, gate)
    ensures TallyOf(rs, t, gate, f) == Tally(0.0, 0)
  {
    if rs != [] {
      UngroupedEmpty(rs[..|rs| - 1], t, gate, f);
    }
  }

  /** What one record does to the tallies: a record that passes the guard
      opens a tally for its type if there is none yet, and adds `f` to it
      when `f` is truthy. */
  function AddRecord(names: seq<string>, acc: map<string, Tally>, p: CleanRecord, gate: NumField, f: NumField)
    : (seq<string>, map<string, Tally>)
  {
    var t := TypeOf(p);
    if t != "" && Truthy(Get(p, gate)) then
      var a := if t in acc then acc[t] else Tally(0.0, 0);
      (if t in acc then names else names + [t], acc[t := Bump(a, p, t, gate, f)])
    else (names, acc)
  }

  /** The tallies hold the reference tallies of the records `xs`. */
  ghost predicate Tallied(xs: seq<CleanRecord>, gate: NumField, f: NumField,
                          names: seq<string>, acc: map<string, Tally>)
  {
    && names == Grouped(xs, gate)
    && (forall t :: t in acc <==> t in names)
    && (forall t :: t in acc ==> acc[t] == TallyOf(xs, t, gate, f))
  }

  /** The reference tallies of one more record. */
  lemma TallySnoc(xs: seq<CleanRecord>, p: CleanRecord, gate: NumField, f: NumField)
    ensures forall u :: TallyOf(xs + [p], u, gate, f) == Bump(TallyOf(xs, u, gate, f), p, u, gate, f)
    ensures GateTypes(xs + [p], gate) == GateTypes(xs, gate) + if TypeOf(p) != "" && Truthy(Get(p, gate)) then [TypeOf(p)] else []
  {
    assert (xs + [p])[..|xs|] == xs;
  }

  /** Adding one record to the tallies of `xs` gives the tallies of `xs + [p]`. */
  lemma TallyStep(xs: seq<CleanRecord>, p: CleanRecord, gate: NumField, f: NumField,
                  names: seq<string>, acc: map<string, Tally>)
    requires Tallied(xs, gate, f, names, acc)
    ensures Tallied(xs + [p], gate, f, AddRecord(names, acc, p, gate, f).0, AddRecord(names, acc, p, gate, f).1)
  {
    TallyStepKeys(xs, p, gate, f, names, acc);
    TallyStepValues(xs, p, gate, f, names, acc);
  }

  /** The keys after one more record. */
  lemma TallyStepKeys(xs: seq<CleanRecord>, p: CleanRecord, gate: NumField, f: NumField,
                      names: seq<string>, acc: map<string, Tally>)
    requires names == Grouped(xs, gate)
    requires forall t :: t in acc <==> t in names
    ensures AddRecord(names, acc, p, gate, f).0 == Grouped(xs + [p], gate)
    ensures forall t :: t in AddRecord(names, acc, p, gate, f).1 <==> t in AddRecord(names, acc, p, gate, f).0
  {
    TallySnoc(xs, p, gate, f);
    var t := TypeOf(p);
    if t != "" && Truthy(Get(p, gate)) {
      DedupSnoc(GateTypes(xs, gate), t);
    } else {
      assert GateTypes(xs + [p], gate) == GateTypes(xs, gate) + [];
      assert GateTypes(xs, gate) + [] == GateTypes(xs, gate);
    }
  }

  /** The tallies after one more record. */
  lemma TallyStepValues(xs: seq<CleanRecord>, p: CleanRecord, gate: NumField, f: NumField,
                        names: seq<string>, acc: map<string, Tally>)
    requires names == Grouped(xs, gate)
    requires forall t :: t in acc <==> t in names
    requires forall t :: t in acc ==> acc[t] == TallyOf(xs, t, gate, f)
    ensures forall t :: t in AddRecord(names, acc, p, gate, f).1 ==> AddRecord(names, acc, p, gate, f).1[t] == TallyOf(xs + [p], t, gate, f)
  {
    TallySnoc(xs, p, gate, f);
    var t := TypeOf(p);
    if t != "" && Truthy(Get(p, gate)) {
      if t !in acc {
        UngroupedEmpty(xs, t, gate, f);
      }
      var a := if t in acc then acc[t] else Tally(0.0, 0);
      assert AddRecord(names, acc, p, gate, f).1 == acc[t := Bump(a, p, t, gate, f)];
      TallyUpdate(xs, p, gate, f, acc, t, a);
    } else {
      forall u ensures !Counts(p, u, gate, f) {
      }
    }
  }

  /** Updating the tally of the record's own type keeps every tally right. */
  lemma TallyUpdate(xs: seq<CleanRecord>, p: CleanRecord, gate: NumField, f: NumField,
                    acc: map<string, Tally>, t: string, a: Tally)
    requires t == TypeOf(p)
    requires a == TallyOf(xs, t, gate, f)
    requires forall u :: u in acc ==> acc[u] == TallyOf(xs, u, gate, f)
    requires forall u :: TallyOf(xs + [p], u, gate, f) == Bump(TallyOf(xs, u, gate, f), p, u, gate, f)
    ensures forall u :: u in acc[t := Bump(a, p, t, gate, f)] ==> acc[t := Bump(a, p, t, gate, f)][u] == TallyOf(xs + [p], u, gate, f)
  {
    forall u | u in acc && u != t
      ensures acc[u] == TallyOf(xs + [p], u, gate, f)
    {
      assert !Counts(p, u, gate, f);
    }
  }

  /** One pass over the records, as the `forEach` loops do it: a tally per type
      of the records that pass `gate`, adding `f` when it is truthy. */
  method TallyBy(rs: seq<CleanRecord>, gate: NumField, f: NumField) returns (names: seq<string>, acc: map<string, Tally>)
    ensures names == Grouped(rs, gate)
    ensures forall t :: t in acc <==> t in names
    ensures forall t :: t in acc ==> acc[t] == TallyOf(rs, t, gate, f)
  {
    names := [];
    acc := map[];
    var i := 0;
    assert Tallied(rs[..i], gate, f, names, acc) by { assert rs[..i] == []; }
    hide AddRecord, Grouped, TallyOf;
    while i < |rs|
      invariant 0 <= i <= |rs|
      invariant Tallied(rs[..i], gate, f, names, acc)
    {
      TallyStep(rs[..i], rs[i], gate, f, names, acc);
      assert rs[..i + 1] == rs[..i] + [rs[i]];
      names, acc := AddRecord(names, acc, rs[i], gate, f).0, AddRecord(names, acc, rs[i], gate, f).1;
      i := i + 1;
    }
    assert rs[..i] == rs;
  }

  /* ---------------- size comparison ---------------- */

  /** One bar of the size chart. */
  datatype SizeRow = SizeRow(name: string, avgBua: int, avgPlot: int)

  /** The bar of type `t`: mean BUA rounded, mean plot rounded or 0 when no
      plot value was counted. */
  function SizeRowOf(t: string, bua: Tally, plot: Tally): (r: SizeRow)
    requires bua.count > 0
    ensures r.name == t
    ensures r.avgBua as real - 0.5 <= bua.total / bua.count as real < r.avgBua as real + 0.5
    ensures plot.count == 0 ==> r.avgPlot == 0
    ensures plot.count > 0 ==> r.avgPlot as real - 0.5 <= plot.total / plot.count as real < r.avgPlot as real + 0.5
  {
    SizeRow(t, Round(bua.total / bua.count as real),
      if plot.count > 0 then Round(plot.total / plot.count as real) else 0)
  }

  /** The size chart: one bar per type with a truthy BUA, first seen first.
      The plot tally runs behind the same BUA guard, so records without a
      truthy BUA do not count towards the plot mean either. */
  method SizeComparison(rs: seq<CleanRecord>) returns (rows: seq<SizeRow>)
    ensures |rows| == |Grouped(rs, Bua)|
    ensures forall k :: 0 <= k < |rows| ==>
              && TallyOf(rs, rows[k].name, Bua, Bua).count > 0
              && rows[k] == SizeRowOf(Grouped(rs, Bua)[k],
                                      TallyOf(rs, rows[k].name, Bua, Bua),
                                      TallyOf(rs, rows[k].name, Bua, Plot))
  {
    var names, bua := TallyBy(rs, Bua, Bua);
    var names', plot := TallyBy(rs, Bua, Plot);
    forall t | t in names ensures bua[t].count > 0 {
      GroupedIffCounted(rs, t, Bua);
    }
    rows := seq(|names|, k requires 0 <= k < |names| => SizeRowOf(names[k], bua[names[k]], plot[names[k]]));
  }

  /* ---------------- price comparison ---------------- */

  /** One bar of the price chart. */
  datatype PriceRow = PriceRow(name: string, price: real)

  /** The mean price rounded to one decimal place: a whole number of tenths
      within half a tenth of the mean. */
  function PriceRowOf(t: string, price: Tally): (r: PriceRow)
    requires price.count > 0
    ensures r.name == t
    ensures r.price - 0.05 <= price.total / price.count as real < r.price + 0.05
    ensures (r.price * 10.0).Floor as real == r.price * 10.0
  {
    var mean := price.total / price.count as real;
    var tenths := Round(mean * 10.0);
    PriceRow(t, tenths as real / 10.0)
  }

  /** The price chart: one bar per type with a truthy price, first seen first. */
  method PriceComparison(rs: seq<CleanRecord>) returns (rows: seq<PriceRow>)
    ensures |rows| == |Grouped(rs, Price)|
    ensures forall k :: 0 <= k < |rows| ==>
              && TallyOf(rs, rows[k].name, Price, Price).count > 0
              && rows[k] == PriceRowOf(Grouped(rs, Price)[k],
                                       TallyOf(rs, rows[k].name, Price, Price))
  {
    var names, price := TallyBy(rs, Price, Price);
    forall t | t in names ensures price[t].count > 0 {
      GroupedIffCounted(rs, t, Price);
    }
    rows := seq(|names|, k requires 0 <= k < |names| => PriceRowOf(names[k], price[names[k]]));
  }

  /* ---------------- scatter chart ---------------- */

  /** One point of the scatter chart. */
  datatype ScatterPoint = ScatterPoint(name: Option<string>, bua: real, price: real, propertyType: Option<string>)

  /** The record has both a truthy BUA and a truthy price. */
  predicate Plotted(r: CleanRecord) {
    Truthy(r.bua) && Truthy(r.price)
  }

  /** The point of a record: its layout name, BUA, price and type. The BUA
      and price are read through `OrZero`, which gives the stored numbers
      for the plotted records, the only ones that become points. */
  function PointOf(r: CleanRecord): (p: ScatterPoint)
    ensures Plotted(r) ==> p.bua == r.bua.v && p.price == r.price.v
    ensures p.name == Lookup(r.raw, LAYOUT_COLUMN) && p.propertyType == Lookup(r.raw, TYPE_COLUMN)
  {
    ScatterPoint(Lookup(r.raw, LAYOUT_COLUMN), OrZero(r.bua), OrZero(r.price), Lookup(r.raw, TYPE_COLUMN))
  }

  /** The scatter points: the records with a truthy BUA and price, in order. */
  function Scatter(rs: seq<CleanRecord>): (ps: seq<ScatterPoint>)
    ensures |ps| <= |rs|
  {
    KeepMap(rs, Plotted, PointOf)
  }

  /** Every point is the point of a plotted record, and every plotted
      record has its point. */
  lemma ScatterPoints(rs: seq<CleanRecord>)
    ensures forall p :: p in Scatter(rs) ==> exists r :: r in rs && Plotted(r) && p == PointOf(r)
    ensures forall r :: r in rs && Plotted(r) ==> PointOf(r) in Scatter(rs)
  {
    KeepMapSound(rs, Plotted, PointOf);
    KeepMapComplete(rs, Plotted, PointOf);
  }

  /** Points are made record by record, so the input order is kept. */
  lemma ScatterAppend(a: seq<CleanRecord>, b: seq<CleanRecord>)
    ensures Scatter(a + b) == Scatter(a) + Scatter(b)
  {
    KeepMapAppend(a, b, Plotted, PointOf);
  }
}
