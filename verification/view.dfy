/**
 The table view of the dashboard (dashboard.js, lines 209-255): the records
 that pass the type and configuration filters, sorted by the chosen column in
 the chosen direction, and the header click that picks or flips the sort.
 */
module View {
  import opened Numbers
  import opened Options
  import opened Normalize
  import opened Aggregate

  datatype Direction = Ascending | Descending

  /** `sortConfig`: the property to sort on and the direction. An empty key
      switches sorting off. */
  datatype SortConfig = SortConfig(key: string, direction: Direction)

  /** The three inputs of the view besides the records. */
  datatype Criteria = Criteria(typeFilter: string, configFilter: string, sort: SortConfig)

  /* ---------------- filtering ---------------- */

  /** The record passes both filters: `All` lets everything through, any other
      value must equal the record's own cell exactly. A missing cell equals
      no filter value, and `Config` is compared untrimmed. */
  predicate Matches(r: CleanRecord, typeFilter: string, configFilter: string) {
    && (typeFilter == ALL || Lookup(r.raw, TYPE_COLUMN) == Some(typeFilter))
    && (configFilter == ALL || Lookup(r.raw, CONFIG_COLUMN) == Some(configFilter))
  }

  /** `rs.filter(p => p[column] === value)`. */
  function Select(rs: seq<CleanRecord>, column: string, value: string): (r: seq<CleanRecord>)
    ensures |r| <= |rs|
  {
    if rs == [] then []
    else
      var rest := Select(rs[1..], column, value);
      if Lookup(rs[0].raw, column) == Some(value) then [rs[0]] + rest else rest
  }

  /** The filter keeps exactly the records whose cell equals the value, each
      as often as it occurs. */
  lemma {:induction false} SelectCounts(rs: seq<CleanRecord>, column: string, value: string)
    ensures forall x :: multiset(Select(rs, column, value))[x] == if Lookup(x.raw, column) == Some(value) then multiset(rs)[x] else 0
  {
    if rs != [] {
      SelectCounts(rs[1..], column, value);
      assert rs == [rs[0]] + rs[1..];
    }
  }

  /** `filter` decides record by record: the records kept from `a + b` are
      those kept from `a` followed by those kept from `b`, so the kept
      records stay in input order. */
  lemma {:induction false} SelectAppend(a: seq<CleanRecord>, b: seq<CleanRecord>, column: string, value: string)
    ensures Select(a + b, column, value) == Select(a, column, value) + Select(b, column, value)
  {
    if a == [] {
      assert a + b == b;
    } else {
      var ab := a + b;
      assert ab[1..] == a[1..] + b;
      assert ab[0] == a[0];
      SelectAppend(a[1..], b, column, value);
      var ra := Select(a[1..], column, value);
      var rb := Select(b, column, value);
      if Lookup(a[0].raw, column) == Some(value) {
        assert Select(ab, column, value) == [a[0]] + (ra + rb);
        assert Select(a, column, value) == [a[0]] + ra;
        assert [a[0]] + (ra + rb) == ([a[0]] + ra) + rb;
      } else {
        assert Select(ab, column, value) == ra + rb;
      }
    }
  }

  /** A single record is kept exactly when its cell equals the value. */
  lemma SelectOne(x: CleanRecord, column: string, value: string)
    ensures Select([x], column, value) == if Lookup(x.raw, column) == Some(value) then [x] else []
  {
    assert [x][1..] == [];
  }

  /** The type filter, then the configuration filter, on a copy of the records. */
  function FilterView(rs: seq<CleanRecord>, typeFilter: string, configFilter: string): (r: seq<CleanRecord>)
    ensures forall x :: multiset(r)[x] == if Matches(x, typeFilter, configFilter) then multiset(rs)[x] else 0
  {
    SelectCounts(rs, TYPE_COLUMN, typeFilter);
    var byType := if typeFilter != ALL then Select(rs, TYPE_COLUMN, typeFilter) else rs;
    SelectCounts(byType, CONFIG_COLUMN, configFilter);
    if configFilter != ALL then Select(byType, CONFIG_COLUMN, configFilter) else byType
  }

  /** Both filters decide record by record, so the filtered copy of `a + b`
      is the filtered copy of `a` followed by that of `b`. */
  lemma FilterViewAppend(a: seq<CleanRecord>, b: seq<CleanRecord>, typeFilter: string, configFilter: string)
    ensures FilterView(a + b, typeFilter, configFilter) == FilterView(a, typeFilter, configFilter) + FilterView(b, typeFilter, configFilter)
  {
    var ta := if typeFilter != ALL then Select(a, TYPE_COLUMN, typeFilter) else a;
    var tb := if typeFilter != ALL then Select(b, TYPE_COLUMN, typeFilter) else b;
    if typeFilter != ALL {
      SelectAppend(a, b, TYPE_COLUMN, typeFilter);
    }
    if configFilter != ALL {
      SelectAppend(ta, tb, CONFIG_COLUMN, configFilter);
    }
  }

  /** A single record passes the filters exactly when it matches them. */
  lemma FilterViewOne(x: CleanRecord, typeFilter: string, configFilter: string)
    ensures FilterView([x], typeFilter, configFilter) == if Matches(x, typeFilter, configFilter) then [x] else []
  {
    SelectOne(x, TYPE_COLUMN, typeFilter);
    if Matches(x, typeFilter, configFilter) || typeFilter == ALL || Lookup(x.raw, TYPE_COLUMN) == Some(typeFilter) {
      SelectOne(x, CONFIG_COLUMN, configFilter);
    } else {
      assert Select([], CONFIG_COLUMN, configFilter) == [];
    }
  }

  /* ---------------- comparing ---------------- */

  /** The sort keys that compare numerically: the five derived fields. */
  function NumericKey(key: string): (r: Option<NumField>)
    ensures r.Some? ==> FieldName(r.value) == key
    ensures r.None? ==> forall f :: FieldName(f) != key
  {
    if key == FieldName(Bua) then Some(Bua)
    else if key == FieldName(Plot) then Some(Plot)
    else if key == FieldName(Price) then Some(Price)
    else if key == FieldName(BuaPsf) then Some(BuaPsf)
    else if key == FieldName(PlotPsf) then Some(PlotPsf)
    else None
  }

  /** The sign of a difference, which is all `sort` looks at: the comparator
      result is at most 0 exactly when the difference is, and at least 0
      exactly when the difference is. */
  function Sign(x: real): (r: int)
    ensures -1 <= r <= 1
    ensures r <= 0 <==> x <= 0.0
    ensures r >= 0 <==> x >= 0.0
  {
    if x < 0.0 then -1 else if x == 0.0 then 0 else 1
  }

  /** `a - b` and `b - a` have opposite signs, and `a - b` is not positive
      exactly when `a` is at most `b`. */
  lemma SignOfDifference(a: real, b: real)
    ensures Sign(a - b) == -Sign(b - a)
    ensures Sign(a - b) <= 0 <==> a <= b
  {
  }

  /** String comparison, character code by character code; a proper prefix
      comes first. */
  function LexCmp(a: string, b: string): (r: int)
    ensures -1 <= r <= 1
    ensures a < b ==> r == -1
    ensures b < a ==> r == 1
  {
    if a == [] && b == [] then 0
    else if a == [] then -1
    else if b == [] then 1
    else if a[0] < b[0] then -1
    else if a[0] > b[0] then 1
    else LexCmp(a[1..], b[1..])
  }

  /** Two strings compare equal exactly when they are the same string. */
  lemma {:induction false} LexCmpZero(a: string, b: string)
    ensures LexCmp(a, b) == 0 <==> a == b
  {
    if a != [] && b != [] && a[0] == b[0] {
      LexCmpZero(a[1..], b[1..]);
      assert a == [a[0]] + a[1..] && b == [b[0]] + b[1..];
    }
  }

  /** Swapping the arguments flips the comparison. */
  lemma {:induction false} LexCmpFlip(a: string, b: string)
    ensures LexCmp(a, b) == -LexCmp(b, a)
  {
    if a != [] && b != [] && a[0] == b[0] {
      LexCmpFlip(a[1..], b[1..]);
    }
  }

  /** "Not after" is transitive. */
  lemma {:induction false} LexCmpTrans(a: string, b: string, c: string)
    requires LexCmp(a, b) <= 0 && LexCmp(b, c) <= 0
    ensures LexCmp(a, c) <= 0
  {
    if a != [] && b != [] && c != [] && a[0] == b[0] && b[0] == c[0] {
      LexCmpTrans(a[1..], b[1..], c[1..]);
    }
  }

  /** The comparator of the view: negative when `a` goes first, positive when
      `b` does, 0 for a tie. Numeric keys compare `value || 0`, so a missing,
      NaN or zero field counts as 0; other keys compare the cell text, a missing
      cell counting as "". Descending order swaps the operands. */
  function Compare(cfg: SortConfig, a: CleanRecord, b: CleanRecord): (r: int)
    ensures -1 <= r <= 1
    ensures NumericKey(cfg.key).Some? ==>
              var f := NumericKey(cfg.key).value;
              (r <= 0 <==> if cfg.direction == Ascending then OrZero(Get(a, f)) <= OrZero(Get(b, f))
                           else OrZero(Get(a, f)) >= OrZero(Get(b, f)))
    ensures NumericKey(cfg.key).None? ==>
              var x, y := Field(a.raw, cfg.key), Field(b.raw, cfg.key);
              (r <= 0 <==> if cfg.direction == Ascending then LexCmp(x, y) <= 0 else LexCmp(y, x) <= 0)
    ensures NumericKey(cfg.key).None? ==> (r == 0 <==> Field(a.raw, cfg.key) == Field(b.raw, cfg.key))
  {
    match NumericKey(cfg.key)
    case Some(f) =>
      var x := OrZero(Get(a, f));
      var y := OrZero(Get(b, f));
      if cfg.direction == Ascending then Sign(x - y) else Sign(y - x)
    case None =>
      var x := Field(a.raw, cfg.key);
      var y := Field(b.raw, cfg.key);
      LexCmpZero(x, y);
      LexCmpZero(y, x);
      if cfg.direction == Ascending then LexCmp(x, y) else LexCmp(y, x)
  }

  /** Descending order is ascending order with the operands swapped, for both
      kinds of key. */
  lemma CompareReverse(key: string, a: CleanRecord, b: CleanRecord)
    ensures Compare(SortConfig(key, Descending), a, b) == Compare(SortConfig(key, Ascending), b, a)
  {
  }

  lemma CompareFlip(cfg: SortConfig, a: CleanRecord, b: CleanRecord)
    ensures Compare(cfg, a, b) == -Compare(cfg, b, a)
  {
    if NumericKey(cfg.key).None? {
      LexCmpFlip(Field(a.raw, cfg.key), Field(b.raw, cfg.key));
    }
  }

  lemma CompareTrans(cfg: SortConfig, a: CleanRecord, b: CleanRecord, c: CleanRecord)
    requires Compare(cfg, a, b) <= 0 && Compare(cfg, b, c) <= 0
    ensures Compare(cfg, a, c) <= 0
  {
    if NumericKey(cfg.key).None? {
      var x := Field(a.raw, cfg.key);
      var y := Field(b.raw, cfg.key);
      var z := Field(c.raw, cfg.key);
      if cfg.direction == Ascending {
        LexCmpTrans(x, y, z);
      } else {
        LexCmpTrans(z, y, x);
      }
    }
  }

  /* ---------------- a stable sort ---------------- */

  /** The sequence is in comparator order. */
  ghost predicate Sorted(cfg: SortConfig, s: seq<CleanRecord>) {
    forall i, j :: 0 <= i < j < |s| ==> Compare(cfg, s[i], s[j]) <= 0
  }

  /** `x` placed before the first element it does not come after. */
  function Insert(cfg: SortConfig, x: CleanRecord, s: seq<CleanRecord>): (r: seq<CleanRecord>)
    ensures multiset(r) == multiset(s) + multiset{x}
  {
    if s == [] then [x]
    else if Compare(cfg, x, s[0]) <= 0 then [x] + s
    else
      assert s == [s[0]] + s[1..];
      [s[0]] + Insert(cfg, x, s[1..])
  }

  /** `Array.prototype.sort` with the view's comparator. The sort is stable,
      so any stable algorithm gives the same result; insertion is used here. */
  function Sort(cfg: SortConfig, s: seq<CleanRecord>): (r: seq<CleanRecord>)
    ensures multiset(r) == multiset(s)
  {
    if s == [] then []
    else
      assert s == [s[0]] + s[1..];
      Insert(cfg, s[0], Sort(cfg, s[1..]))
  }

  lemma {:induction false} InsertSorted(cfg: SortConfig, x: CleanRecord, s: seq<CleanRecord>)
    requires Sorted(cfg, s)
    ensures Sorted(cfg, Insert(cfg, x, s))
  {
    hide Compare;
    if s != [] {
      var r := Insert(cfg, x, s);
      if Compare(cfg, x, s[0]) <= 0 {
        forall j | 0 <= j < |s| ensures Compare(cfg, x, s[j]) <= 0 {
          if j > 0 {
            CompareTrans(cfg, x, s[0], s[j]);
          }
        }
      } else {
        var t := Insert(cfg, x, s[1..]);
        InsertSorted(cfg, x, s[1..]);
        CompareFlip(cfg, x, s[0]);
        forall j | 0 <= j < |t| ensures Compare(cfg, s[0], t[j]) <= 0 {
          assert t[j] in multiset(t);
          if t[j] != x {
            assert t[j] in s[1..];
          }
        }
      }
    }
  }

  /** The sort's result is in comparator order. */
  lemma {:induction false} SortSorted(cfg: SortConfig, s: seq<CleanRecord>)
    ensures Sorted(cfg, Sort(cfg, s))
  {
    hide Compare;
    if s != [] {
      SortSorted(cfg, s[1..]);
      InsertSorted(cfg, s[0], Sort(cfg, s[1..]));
    }
  }

  /** The elements of `s` that tie with `x`, in order. */
  function Ties(cfg: SortConfig, s: seq<CleanRecord>, x: CleanRecord): seq<CleanRecord> {
    if s == [] then []
    else (if Compare(cfg, s[0], x) == 0 then [s[0]] else []) + Ties(cfg, s[1..], x)
  }

  lemma TiesCons(cfg: SortConfig, y: CleanRecord, s: seq<CleanRecord>, x: CleanRecord)
    ensures Ties(cfg, [y] + s, x) == (if Compare(cfg, y, x) == 0 then [y] else []) + Ties(cfg, s, x)
  {
    assert ([y] + s)[1..] == s;
  }

  /** Inserting `y` keeps it ahead of every element it ties with. */
  lemma {:induction false} InsertTies(cfg: SortConfig, y: CleanRecord, s: seq<CleanRecord>, x: CleanRecord)
    ensures Ties(cfg, Insert(cfg, y, s), x) == Ties(cfg, [y] + s, x)
  {
    hide Compare;
    if s != [] && Compare(cfg, y, s[0]) > 0 {
      var h := s[0];
      var t := s[1..];
      assert [h] + t == s;
      var rest := Ties(cfg, t, x);
      var ty := if Compare(cfg, y, x) == 0 then [y] else [];
      var th := if Compare(cfg, h, x) == 0 then [h] else [];
      InsertTies(cfg, y, t, x);
      TiesCons(cfg, h, Insert(cfg, y, t), x);
      TiesCons(cfg, y, t, x);
      assert Ties(cfg, Insert(cfg, y, s), x) == th + (ty + rest);
      TiesCons(cfg, y, s, x);
      TiesCons(cfg, h, t, x);
      assert Ties(cfg, [y] + s, x) == ty + (th + rest);
      TiesApart(cfg, y, h, x);
      SwapFront(th, ty, rest);
    }
  }

  /** Two prefixes of which one is empty can be swapped. */
  lemma SwapFront<T>(p: seq<T>, q: seq<T>, rest: seq<T>)
    requires p == [] || q == []
    ensures p + (q + rest) == q + (p + rest)
  {
    if p == [] {
      assert p + (q + rest) == q + rest;
      assert p + rest == rest;
    } else {
      assert q + (p + rest) == p + rest;
      assert q + rest == rest;
    }
  }

  /** An element that strictly follows another cannot tie with the same `x`. */
  lemma TiesApart(cfg: SortConfig, y: CleanRecord, h: CleanRecord, x: CleanRecord)
    requires Compare(cfg, y, h) > 0
    ensures Compare(cfg, y, x) != 0 || Compare(cfg, h, x) != 0
  {
    hide Compare;
    if Compare(cfg, y, x) == 0 && Compare(cfg, h, x) == 0 {
      CompareFlip(cfg, h, x);
      CompareTrans(cfg, y, x, h);
    }
  }

  /** The sort is stable: records that tie keep their input order. */
  lemma {:induction false} SortStable(cfg: SortConfig, s: seq<CleanRecord>, x: CleanRecord)
    ensures Ties(cfg, Sort(cfg, s), x) == Ties(cfg, s, x)
  {
    hide Compare;
    if s != [] {
      SortStable(cfg, s[1..], x);
      InsertTies(cfg, s[0], Sort(cfg, s[1..]), x);
      TiesCons(cfg, s[0], Sort(cfg, s[1..]), x);
      TiesCons(cfg, s[0], s[1..], x);
      assert [s[0]] + s[1..] == s;
    }
  }

  /* ---------------- the view ---------------- */

  /** `filteredProperties`: the filtered copy, sorted when a key is set. */
  function ComputeView(rs: seq<CleanRecord>, c: Criteria): (r: seq<CleanRecord>)
    ensures forall x :: multiset(r)[x] == if Matches(x, c.typeFilter, c.configFilter) then multiset(rs)[x] else 0
    ensures c.sort.key != "" ==> Sorted(c.sort, r)
    ensures c.sort.key != "" ==> forall x :: Ties(c.sort, r, x) == Ties(c.sort, FilterView(rs, c.typeFilter, c.configFilter), x)
    ensures c.sort.key == "" ==> r == FilterView(rs, c.typeFilter, c.configFilter)
  {
    var filtered := FilterView(rs, c.typeFilter, c.configFilter);
    if c.sort.key != "" then
      SortSorted(c.sort, filtered);
      forall x ensures Ties(c.sort, Sort(c.sort, filtered), x) == Ties(c.sort, filtered, x) {
        SortStable(c.sort, filtered, x);
      }
      Sort(c.sort, filtered)
    else filtered
  }

  /** On a numeric key the view is ordered by `value || 0`: non-decreasing
      when ascending, non-increasing when descending. */
  lemma NumericOrder(rs: seq<CleanRecord>, c: Criteria, f: NumField, i: nat, j: nat)
    requires NumericKey(c.sort.key) == Some(f)
    requires i < j < |ComputeView(rs, c)|
    ensures var v := ComputeView(rs, c);
            if c.sort.direction == Ascending then OrZero(Get(v[i], f)) <= OrZero(Get(v[j], f))
            else OrZero(Get(v[i], f)) >= OrZero(Get(v[j], f))
  {
    var v := ComputeView(rs, c);
    assert Compare(c.sort, v[i], v[j]) <= 0;
  }

  /** On a text key the view is ordered by the cell text: non-decreasing when
      ascending, non-increasing when descending. */
  lemma TextOrder(rs: seq<CleanRecord>, c: Criteria, i: nat, j: nat)
    requires NumericKey(c.sort.key).None? && c.sort.key != ""
    requires i < j < |ComputeView(rs, c)|
    ensures var v := ComputeView(rs, c);
            var x, y := Field(v[i].raw, c.sort.key), Field(v[j].raw, c.sort.key);
            if c.sort.direction == Ascending then LexCmp(x, y) <= 0 else LexCmp(y, x) <= 0
  {
    var v := ComputeView(rs, c);
    assert Compare(c.sort, v[i], v[j]) <= 0;
  }

  /* ---------------- the sort toggle ---------------- */

  /** `requestSort(key)`: a click on the column already sorted ascending sorts
      it descending; any other click sorts its column ascending. */
  function RequestSort(current: SortConfig, key: string): (r: SortConfig)
    ensures r.key == key
    ensures r.direction == Descending <==> current.key == key && current.direction == Ascending
  {
    if current.key == key && current.direction == Ascending then SortConfig(key, Descending)
    else SortConfig(key, Ascending)
  }

  /** Clicking the same column again always flips the direction. */
  lemma RequestSortFlips(current: SortConfig, key: string)
    ensures RequestSort(RequestSort(current, key), key).direction != RequestSort(current, key).direction
  {
  }
}
