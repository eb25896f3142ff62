/**
 The field normaliser of the dashboard (`loadData` in dashboard.js, lines
 46-119): rows with a blank `Type` are dropped, every other row is copied and
 gains derived numeric fields parsed from its text columns. The raw columns
 are kept unchanged.
 */
module Normalize {
  import opened Text
  import opened Numbers
  import opened Options
  import opened Seqs

  /** One decoded CSV row: column header to cell text. */
  type RawRecord = map<string, string>

  const TYPE_COLUMN := "Type"
  const CONFIG_COLUMN := "Config"
  const LAYOUT_COLUMN := "Layout Name"
  const BUA_COLUMN := "BUA (in sqft)"
  const PLOT_COLUMN := "Plot Size (in sqft)"
  const PRICE_COLUMN := "Launched Price (in AED)"
  const BUA_PSF_COLUMN := "BUA PSF (in AED Per sqft)"
  const PLOT_PSF_COLUMN := "Plot PSF (in AED Per sqft)"

  /** `row[column]` where only its text matters: a missing cell reads as "". */
  function Field(row: RawRecord, column: string): string {
    if column in row then row[column] else ""
  }

  /** `row[column]` where `undefined` and "" must stay apart (equality filters). */
  function Lookup(row: RawRecord, column: string): Option<string> {
    if column in row then Some(row[column]) else None
  }

  /** A cleaned record: the row's own columns, untouched, plus the derived
      `BUA_Numeric`, `Plot_Numeric`, `Launch_Price_M`, `BUA_PSF_Numeric`,
      `Plot_PSF_Numeric` and `Bedrooms` properties. */
  datatype CleanRecord = CleanRecord(
    raw: RawRecord,
    bua: Num,
    plot: Num,
    price: Num,
    buaPsf: Num,
    plotPsf: Num,
    bedrooms: Option<nat>)

  /** The five derived numeric properties, by the names the view sorts on. */
  datatype NumField = Bua | Plot | Price | BuaPsf | PlotPsf

  /** `record[field]` for a derived numeric property. */
  function Get(r: CleanRecord, f: NumField): Num {
    match f
    case Bua => r.bua
    case Plot => r.plot
    case Price => r.price
    case BuaPsf => r.buaPsf
    case PlotPsf => r.plotPsf
  }

  /** The property name of a derived numeric field. */
  function FieldName(f: NumField): string {
    match f
    case Bua => "BUA_Numeric"
    case Plot => "Plot_Numeric"
    case Price => "Launch_Price_M"
    case BuaPsf => "BUA_PSF_Numeric"
    case PlotPsf => "Plot_PSF_Numeric"
  }

  /* ---------------- BUA and plot size ---------------- */

  /** `BUA_Numeric`: commas removed, then `parseFloat`. */
  function CleanBua(text: string): (r: Num)
    ensures r.Absent? <==> text == ""
  {
    if text == "" then Absent else ParseFloat(StripCommas(text))
  }

  /** A range `A-B`: the mean of the first two `-`-separated parts, each with
      commas removed and trimmed. Further parts are ignored. */
  function RangeMean(text: string): (r: Num)
    requires '-' in text
    ensures !r.Absent?
  {
    var parts := Split(text, '-');
    Mean(ParseFloat(Trim(StripCommas(parts[0]))), ParseFloat(Trim(StripCommas(parts[1]))))
  }

  /** `Plot_Numeric`: `~` removed and the text trimmed (only when a `~` is
      present), then a range gives its mean and anything else is parsed with
      commas removed. Re-parsing the mean (`parseFloat` of a number) returns it
      unchanged, so it is not written out. */
  function CleanPlot(text: string): (r: Num)
    ensures r.Absent? <==> text == ""
  {
    if text == "" then Absent
    else
      var t := if '~' in text then Trim(RemoveChars(text, {'~'})) else text;
      if '-' in t then RangeMean(t) else ParseFloat(StripCommas(t))
  }

  /* ---------------- launch price ---------------- */

  /** End of the run of digits that starts at `i`. */
  function DigitRunEnd(s: string, i: nat): (j: nat)
    requires i <= |s|
    ensures i <= j <= |s|
    ensures forall k :: i <= k < j ==> IsDigit(s[k])
    ensures j == |s| || !IsDigit(s[j])
    decreases |s| - i
  {
    if i < |s| && IsDigit(s[i]) then DigitRunEnd(s, i + 1) else i
  }

  /** Where the greedy `\d+\.?\d*` that starts at the digit `s[i]` ends. */
  function NumeralEnd(s: string, i: nat): (j: nat)
    requires i < |s| && IsDigit(s[i])
    ensures i < j <= |s|
  {
    var k := DigitRunEnd(s, i);
    if k < |s| && s[k] == '.' then DigitRunEnd(s, k + 1) else k
  }

  /** `/(\d+\.?\d*)M/` matches at position `i`. Backtracking cannot rescue a
      failed greedy attempt: every shorter numeral ends just before a digit or
      a dot, never before an `M`. */
  predicate MillionsAt(s: string, i: nat) {
    && i < |s|
    && IsDigit(s[i])
    && NumeralEnd(s, i) < |s|
    && s[NumeralEnd(s, i)] == 'M'
  }

  /** The capture group of the first match of `/(\d+\.?\d*)M/` at or after
      `from`: the numeral of the leftmost position that starts a match. */
  function MillionsMatch(s: string, from: nat): (r: Option<string>)
    requires from <= |s|
    ensures r.None? <==> forall i :: from <= i < |s| ==> !MillionsAt(s, i)
    ensures r.Some? ==> exists i :: && from <= i < |s| && MillionsAt(s, i)
                                    && (forall j :: from <= j < i ==> !MillionsAt(s, j))
                                    && r.value == s[i..NumeralEnd(s, i)]
    decreases |s| - from
  {
    hide MillionsAt;
    if from == |s| then None
    else if MillionsAt(s, from) then Some(s[from..NumeralEnd(s, from)])
    else
      var r := MillionsMatch(s, from + 1);
      assert r.Some? ==> exists i :: && from <= i < |s| && MillionsAt(s, i)
                                     && (forall j :: from <= j < i ==> !MillionsAt(s, j))
                                     && r.value == s[i..NumeralEnd(s, i)] by {
        if r.Some? {
          var i :| && from + 1 <= i < |s| && MillionsAt(s, i)
                   && (forall j :: from + 1 <= j < i ==> !MillionsAt(s, j))
                   && r.value == s[i..NumeralEnd(s, i)];
          assert forall j :: from <= j < i ==> !MillionsAt(s, j);
        }
      }
      r
  }

  /** The numeral a match captures always parses to a number. */
  lemma MatchedNumeralParses(s: string, i: nat)
    requires MillionsAt(s, i)
    ensures ParseFloat(s[i..NumeralEnd(s, i)]).Val?
  {
    var m := s[i..NumeralEnd(s, i)];
    assert m[0] == s[i];
    ParsePlain(m);
    ParseUnsignedNaN(m);
  }

  /** `Launch_Price_M`: a numeral directly followed by `M` is the price in
      millions; otherwise a number (commas removed) is a price in dirhams and
      is divided by a million; otherwise the field is not set. */
  function CleanPrice(text: string): (r: Num)
    ensures r.Absent? <==> text == "" || (MillionsMatch(text, 0).None? && ParseFloat(StripCommas(text)).NaN?)
    ensures !r.NaN?
  {
    if text == "" then Absent
    else
      match MillionsMatch(text, 0)
      case Some(m) =>
        var i :| 0 <= i < |text| && MillionsAt(text, i) && m == text[i..NumeralEnd(text, i)];
        MatchedNumeralParses(text, i);
        ParseFloat(m)
      case None =>
        var n := ParseFloat(StripCommas(text));
        if n.NaN? then Absent else Val(n.v / 1000000.0)
  }

  /* ---------------- price per square foot ---------------- */

  const AVG_NOTE := "(avg)"

  /** `s.replace(/\s+\(avg\)/g, '')`, scanning left to right and resuming after
      each removed match. The match is case-sensitive. */
  function RemoveAvg(s: string): (r: string)
    ensures |r| <= |s|
    decreases |s|
  {
    if s == [] then []
    else
      var n := SpaceRun(s);
      if n > 0 && AVG_NOTE <= s[n..] then RemoveAvg(s[n + |AVG_NOTE|..])
      else [s[0]] + RemoveAvg(s[1..])
  }

  /** `BUA_PSF_Numeric` and `Plot_PSF_Numeric`: a range gives its mean (with no
      `~` removal, so `~` before a range leaves NaN); otherwise `~` and `,` are
      removed, then any white space followed by `(avg)`, and the rest parsed. */
  function CleanPsf(text: string): (r: Num)
    ensures r.Absent? <==> text == ""
  {
    if text == "" then Absent
    else if '-' in text then RangeMean(text)
    else ParseFloat(RemoveAvg(RemoveChars(text, {'~', ','})))
  }

  /* ---------------- bedrooms ---------------- */

  /** The first match of `/(\d+)/`: the leftmost maximal run of digits. */
  function FirstDigitRun(s: string): (r: Option<string>)
    ensures r.None? <==> NoDigits(s)
    ensures r.Some? ==> |r.value| > 0 && AllDigits(r.value)
  {
    if s == [] then None
    else if IsDigit(s[0]) then Some(DigitPrefix(s))
    else
      var r := FirstDigitRun(s[1..]);
      assert NoDigits(s[1..]) ==> NoDigits(s) by {
        if NoDigits(s[1..]) {
          forall k | 1 <= k < |s| ensures !IsDigit(s[k]) {
            assert s[k] == s[1..][k - 1];
          }
        }
      }
      r
  }

  /** `Bedrooms`: `parseInt` of the first digit run of `Config`. */
  function CleanBedrooms(config: string): (r: Option<nat>)
    ensures r.None? <==> NoDigits(config)
  {
    if config == "" then None
    else
      match FirstDigitRun(config)
      case None => None
      case Some(d) => Some(DigitsValue(d))
  }

  /* ---------------- whole rows ---------------- */

  /** The copy of `row` with its derived fields. */
  function Normalize(row: RawRecord): (r: CleanRecord)
    ensures r.raw == row
    ensures r.bua.Absent? <==> Field(row, BUA_COLUMN) == ""
    ensures r.plot.Absent? <==> Field(row, PLOT_COLUMN) == ""
    ensures var price := Field(row, PRICE_COLUMN);
            r.price.Absent? <==> price == "" || (MillionsMatch(price, 0).None? && ParseFloat(StripCommas(price)).NaN?)
    ensures !r.price.NaN?
    ensures r.buaPsf.Absent? <==> Field(row, BUA_PSF_COLUMN) == ""
    ensures r.plotPsf.Absent? <==> Field(row, PLOT_PSF_COLUMN) == ""
    ensures r.bedrooms.None? <==> NoDigits(Field(row, CONFIG_COLUMN))
  {
    CleanRecord(
      row,
      CleanBua(Field(row, BUA_COLUMN)),
      CleanPlot(Field(row, PLOT_COLUMN)),
      CleanPrice(Field(row, PRICE_COLUMN)),
      CleanPsf(Field(row, BUA_PSF_COLUMN)),
      CleanPsf(Field(row, PLOT_PSF_COLUMN)),
      CleanBedrooms(Field(row, CONFIG_COLUMN)))
  }

  /** `row['Type'] && row['Type'].trim() !== ''`: the row has a `Type` cell
      holding something other than white space. */
  function Kept(row: RawRecord): (b: bool)
    ensures b ==> TYPE_COLUMN in row && row[TYPE_COLUMN] != ""
    ensures b <==> !AllSpaces(Field(row, TYPE_COLUMN))
  {
    TrimBlank(Field(row, TYPE_COLUMN));
    Trim(Field(row, TYPE_COLUMN)) != ""
  }

  /** The cleaned collection: rows with a blank `Type` dropped, the rest
      normalised, in input order. */
  function Ingest(rows: seq<RawRecord>): (r: seq<CleanRecord>)
    ensures |r| <= |rows|
  {
    KeepMap(rows, Kept, Normalize)
  }

  /** Every cleaned record is the normalisation of a kept input row. */
  lemma IngestSound(rows: seq<RawRecord>)
    ensures forall c :: c in Ingest(rows) ==> exists row :: row in rows && Kept(row) && c == Normalize(row)
  {
    KeepMapSound(rows, Kept, Normalize);
  }

  /** Every kept row's normalisation is among the cleaned records. */
  lemma IngestComplete(rows: seq<RawRecord>)
    ensures forall row :: row in rows && Kept(row) ==> Normalize(row) in Ingest(rows)
  {
    KeepMapComplete(rows, Kept, Normalize);
  }

  /** Ingestion works row by row: the cleaned rows of two batches are the
      cleaned rows of their concatenation. */
  lemma IngestAppend(a: seq<RawRecord>, b: seq<RawRecord>)
    ensures Ingest(a + b) == Ingest(a) + Ingest(b)
  {
    KeepMapAppend(a, b, Kept, Normalize);
  }

  /** A single row is dropped exactly when its `Type` is blank. */
  lemma IngestOne(row: RawRecord)
    ensures Ingest([row]) == if Kept(row) then [Normalize(row)] else []
  {
    KeepMapOne(row, Kept, Normalize);
  }
}
