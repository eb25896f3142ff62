# Palm Jebel Ali property dashboard — a Dafny model of its data core

`dashboard.js` is a React component. It loads a CSV of property layouts and
cleans each row into numeric fields. From the cleaned rows it derives filter
options and chart data, and it shows a filtered, sortable table. This project
models that data core as pure Dafny functions and methods over immutable
datatypes, and proves what the code does with them.

The model covers five parts of the component:

- **The field normaliser** (`normalize.dfy`, module `Normalize`). Rows with a
  blank `Type` are dropped. Every other row is kept unchanged and gains
  `BUA_Numeric`, `Plot_Numeric`, `Launch_Price_M`, `BUA_PSF_Numeric`,
  `Plot_PSF_Numeric` and `Bedrooms`. BUA, plot and the two PSF fields have
  three states (`Numbers.Num`):
  - absent, when its cell was empty;
  - NaN, when the cell did not parse;
  - a number.

  The other two fields have only two states each:
  - `Launch_Price_M` is a number, or absent when the cell is empty or does
    not parse;
  - `Bedrooms` is a whole number, or absent when `Config` has no digit,
    including for a non-empty `Config` such as "Studio".
- **The JavaScript primitives the cleaning relies on.** `text.dfy` (`Text`)
  holds `\d`, `\s`, `trim`, `split`, `replace(/…/g, '')` and
  `Number.prototype.toString` for integers. `numbers.dfy` (`Numbers`) holds
  `parseFloat`, `Math.round` and `x || 0`. `parsing.dfy` (`Parsing`) shows
  that `parseFloat` reads back the integers the dashboard spells out and
  scales digits by a written exponent, and
  `seqs.dfy` (`Seqs`) holds the laws of `filter` followed by `map`, which
  ingestion and the scatter chart share. `field_laws.dfy` (`FieldLaws`)
  states what each cleaner makes of well-formed cells, including round trips
  through the dashboard's own number formatter.
- **The option lists and charts** (`aggregate.dfy`, `Aggregate`):
  - the distinct `Type` and trimmed `Config` values, each list headed by `All`;
  - the per-type mean BUA and mean plot, rounded to an integer;
  - the per-type mean price, rounded to one decimal;
  - the scatter points.

  Each tally loop is a method proved against a recursive reference
  definition (`TallyOf`). `scenario.dfy` (`Scenario`) walks the two-villa
  example through the tallies.
- **The table view and the sort toggle** (`view.dfy`, `View`). The type and
  configuration filters are followed by a stable sort with the component's
  comparator. The sort is modelled as insertion sort, with lemmas for
  permutation, order and stability. `requestSort` is modelled as well.
- **`formatNumber`** (`format.dfy`, `Format`) and the component's state
  transitions (`dashboard.dfy`, `Dashboard`).

In these places the code behaves as follows, and so does the model:

- A range with more than two `-`-separated parts takes the mean of the first
  two parts. An unparseable part gives NaN, not an absent field.
- A non-empty cell that does not parse stores NaN, and only an empty cell
  leaves a field absent. There are two exceptions:
  - The price is never NaN; an unparseable price cell leaves the field absent.
  - `Bedrooms` is never NaN; it is absent whenever `Config` has no digit,
    even when `Config` is not empty.
- The `(avg)` annotation is removed only in exactly that spelling, and only
  after at least one white-space character; the match is case-sensitive.
- The configuration filter compares the record's raw, untrimmed `Config`.
  The option list, however, offers trimmed values. A `Config` with
  surrounding white space therefore matches none of the offered options.
- Plot text is trimmed only when it contains `~`. PSF ranges never have
  their `~` removed, so `"~1,000-1,200"` gives NaN.
- A type enters the size chart only when one of its records has a truthy
  BUA. The same holds for the price chart with a truthy price. A type
  without such a record has no bar at all.

## Model

| member | source | states |
|---|---|---|
| Text.RemoveCharsCounts | dashboard.js:53 | deleting the commas removes every comma and keeps every other character as often as it occurred |
| Text.RemoveCharsTwice | dashboard.js:53 | removing the commas a second time changes nothing |
| Text.RemoveCharsAppend | dashboard.js:92 | character removal works piecewise over a concatenation, so the remaining characters keep their order |
| Text.JoinSplit | dashboard.js:65 | `split('-')` loses nothing: joining the parts with `-` gives the text back |
| Text.SplitPair | dashboard.js:65 | a text with exactly one `-` splits into the two sides of that `-` |
| Text.Split | dashboard.js:65 | `split` yields at least one part, no part contains the separator, and there are two or more parts exactly when the separator occurs |
| Text.DigitsValueOfNatToString | dashboard.js:260 | reading back the decimal spelling of a natural number gives the number |
| Text.NatToStringOfDigitsValue | dashboard.js:260 | spelling the value of a digit string without a leading zero gives the string back |
| Text.NatToString | dashboard.js:260 | `toString()` of a natural number is a non-empty digit string that starts with `0` only for 0; DigitsValueOfNatToString and NatToStringOfDigitsValue make it the inverse of reading digits |
| Text.IsSpace | dashboard.js:47 | the characters `trim()` and `parseFloat` treat as white space: the ECMAScript white-space and line-terminator characters. A definition, without a contract of its own |
| Text.DigitsValue | dashboard.js:112-114 | the number a digit string spells, as `parseInt(bedroomMatch[1])` reads it, and the digit value `parseFloat` uses. A definition; DigitsValueOfNatToString and NatToStringOfDigitsValue make it the inverse of `toString()` |
| Text.IntToString | dashboard.js:260 | `num.toString()` of an integer is non-empty and starts with `-` exactly for a negative number; Parsing.IntParses reads every such spelling back |
| Text.RemoveChars | dashboard.js:53 | `replace(/[…]/g, '')` never lengthens the text; RemoveCharsCounts and RemoveCharsAppend state which characters remain and in what order |
| Text.StripCommas | dashboard.js:53 | `replace(/,/g, '')`, also used at dashboard.js:65, 68, 79-80 and 89. A definition; RemoveCharsCounts, RemoveCharsTwice and StripCommasDigits state what it leaves |
| Text.SpaceRun | dashboard.js:92 | the leading white-space run of the text: every character before it is white space, and the character after it is not |
| Text.TrimStart | dashboard.js:54 | the leading white space `parseFloat` skips: the result is a suffix of the text, everything before it is white space, and it does not start with white space |
| Text.TrimStartSpace | dashboard.js:54 | a leading white-space character is skipped |
| Text.TrimEnd | dashboard.js:47 | the result is a prefix of the text, everything after it is white space, and it does not end with white space |
| Text.Trim | dashboard.js:47 | `trim()` never lengthens the text; TrimMiddle, TrimBlank and TrimEnds state what it keeps and what it removes |
| Text.TrimMiddle | dashboard.js:47 | `trim()` keeps exactly the middle of the text: the trimmed text starts right after the leading white-space run, and only white space follows it |
| Text.TrimBlank | dashboard.js:47 | trimming leaves the empty string exactly when the text is all white space |
| Text.TrimEnds | dashboard.js:61 | neither end of a trimmed text is white space |
| Numbers.OrZero | dashboard.js:227-228 | `x \|\| 0` reads a stored number as itself and a missing field or NaN as 0, so the result is non-zero exactly when the field is truthy |
| Numbers.Truthy | dashboard.js:136 | the JavaScript truth test on a stored field: false for a missing field, NaN and 0. A definition; OrZero states its link to `\|\| 0` |
| Numbers.ParseUnsignedNaN | dashboard.js:54 | `parseFloat` finds no number exactly when the text after the sign starts with neither a digit nor a dot followed by a digit |
| Numbers.ParseDigits | dashboard.js:54 | a digit string followed by a character that cannot continue a number parses to the digits' value |
| Numbers.ParseDecimal | dashboard.js:78 | `ip.fp` followed by a character that cannot continue a number parses to its decimal value |
| Numbers.FractionValue | dashboard.js:78 | the digits after a decimal point are worth at least 0 and less than 1 |
| Numbers.DecimalValue | dashboard.js:78 | `ip.fp` lies between the integer `ip` and the next integer, and is `ip` when there are no fraction digits |
| Numbers.ParseSigned | dashboard.js:54 | after a sign, `parseFloat` reads the unsigned literal and negates it for `-` |
| Numbers.ParseNegative | dashboard.js:54 | a leading minus negates whatever the unsigned literal after it denotes, and NaN stays NaN |
| Numbers.ParseJunk | dashboard.js:54 | text whose first non-space character cannot start a number parses to NaN |
| Numbers.ParseUnsigned | dashboard.js:54 | the unsigned literal after an optional sign is never absent, only a number or NaN; ParseUnsignedNaN says exactly when it is NaN |
| Numbers.LiteralValue | dashboard.js:54 | the value of `ip.fp` with exponent `e` is never negative and is the decimal value when `e` is 0; Parsing.LiteralScaleUp and LiteralScaleDown give it for every exponent |
| Numbers.DigitPrefix | dashboard.js:54 | the digit run `parseFloat` reads: the longest prefix made only of digits, ending at the first non-digit |
| Numbers.ExponentPart | dashboard.js:54 | the exponent `parseFloat` reads after the digits: `e` or `E`, an optional sign and at least one digit, else 0. A definition; Parsing.ExponentOfNat states what it reads |
| Numbers.ParseFloat | dashboard.js:54 | `parseFloat` never leaves a field absent: it gives a number or NaN. ParseSkipsSpace, ParseSigned, ParseUnsignedNaN, the Parsing lemmas and Parsing.ParseExponent state what it reads, exponents included |
| Numbers.ParseSkipsSpace | dashboard.js:54 | leading white space does not change what `parseFloat` reads |
| Numbers.Round | dashboard.js:158 | `Math.round(x)` is the integer within half a unit of `x`, with halves rounded up |
| Numbers.RoundUnique | dashboard.js:158 | any integer within that half-open interval around `x` is `Math.round(x)` |
| Numbers.Mean | dashboard.js:65-66 | `(min + max) / 2` is NaN when either side is NaN, and otherwise lies midway between them |
| Normalize.CleanBua | dashboard.js:52-55 | `BUA_Numeric` is absent exactly when the BUA cell is empty |
| Normalize.RangeMean | dashboard.js:65-66 | a range always produces a value: the mean or NaN, never an absent field |
| Normalize.CleanPlot | dashboard.js:58-71 | `Plot_Numeric` is absent exactly when the plot cell is empty |
| Normalize.DigitRunEnd | dashboard.js:76 | the digit run that starts at `i` ends at the first non-digit after `i` |
| Normalize.NumeralEnd | dashboard.js:76 | the numeral `\d+\.?\d*` that starts at a digit is non-empty and ends within the text |
| Normalize.MillionsAt | dashboard.js:76 | a match of the price regex starts at position `i`: a digit there, and `M` right after the numeral. A definition; MillionsMatch and FieldLaws.MillionsMatchIff state its use |
| Normalize.MillionsMatch | dashboard.js:76 | the price regex finds nothing exactly when no position starts a numeral followed by `M`; otherwise it captures the numeral at the leftmost such position, as `match` returns the first match |
| Normalize.MatchedNumeralParses | dashboard.js:76-78 | the numeral captured by the price regex always parses to a number |
| Normalize.CleanPrice | dashboard.js:74-82 | `Launch_Price_M` is never NaN. It is absent exactly when the cell is empty, or when it has no `M` numeral and its comma-free text does not parse |
| Normalize.CleanPsf | dashboard.js:85-108 | a PSF field is absent exactly when its cell is empty |
| Normalize.RemoveAvg | dashboard.js:92 | removing the `(avg)` note never lengthens the text; RemoveAvgKeepsHead and AverageNoteRemoved state what it removes |
| Normalize.FirstDigitRun | dashboard.js:112 | `/(\d+)/` fails exactly when the text has no digit; otherwise it captures a non-empty run of digits |
| Normalize.CleanBedrooms | dashboard.js:111-116 | `Bedrooms` is absent exactly when `Config` has no digit |
| Normalize.Normalize | dashboard.js:48-119 | the cleaned record keeps the raw row unchanged. BUA, plot and both PSF fields are absent exactly when their cell is empty. The price is never NaN, and it is absent exactly when its cell is empty or has neither an `M` numeral nor a parseable comma-free number. Bedrooms are absent exactly when `Config` has no digit |
| Seqs.KeepMapSound | dashboard.js:46-119 | everything `filter` then `map` produces is the image of a kept element |
| Seqs.KeepMapComplete | dashboard.js:46-119 | the image of every kept element is produced |
| Seqs.KeepMapAppend | dashboard.js:46-119 | `filter` then `map` works element by element, so it distributes over concatenation and keeps the input order |
| Seqs.KeepMapOne | dashboard.js:46-119 | a single element is kept, transformed, exactly when it passes the test |
| Seqs.KeepMap | dashboard.js:46-48 | `filter` then `map` produces at most one value per element; KeepMapSound, KeepMapComplete and KeepMapAppend state which values and in what order |
| Normalize.Kept | dashboard.js:47 | a row is kept exactly when its `Type` cell is not all white space, and then the cell exists and is not empty |
| Normalize.Field | dashboard.js:233-234 | `(row[column] \|\| '').toString()` on a text cell: a missing cell reads as the empty text. A definition, used by the text comparator and the cleaners |
| Normalize.Lookup | dashboard.js:214 | `property[column]` where a missing cell (`undefined`) must stay apart from the empty text, as `===` keeps them apart. A definition; View.SelectOne states its use |
| Normalize.Get | dashboard.js:227-228 | `record[field]` for a derived numeric field: each field name reads its own stored `Num`. A definition |
| Normalize.Ingest | dashboard.js:46-119 | cleaning yields at most one record per row |
| Normalize.IngestSound | dashboard.js:46-119 | every cleaned record is the normalisation of a kept input row |
| Normalize.IngestComplete | dashboard.js:46-119 | every kept row's normalisation is among the cleaned records |
| Normalize.IngestAppend | dashboard.js:46-119 | cleaning works row by row: cleaning two batches one after the other gives the same records as cleaning them together |
| Normalize.IngestOne | dashboard.js:47 | a single row is dropped exactly when its `Type` is blank after trimming |
| Format.GroupThousands | dashboard.js:260 | the grouped spelling of `n` digits has `n + (n - 1) / 3` characters: one comma per complete group of three after the first group |
| Format.GroupThousandsStrip | dashboard.js:260 | removing the commas that `formatNumber` inserts gives back the digits |
| Format.StripStep | dashboard.js:260 | appending a comma and a comma-free group of digits adds exactly that group to the stripped text |
| Format.CommaStep | dashboard.js:260 | appending a comma and three digits keeps a comma at every fourth position from the end |
| Format.GroupThousandsCommas | dashboard.js:260 | commas stand exactly at every fourth position counted from the right. The first group has one to three digits and every later group has three |
| Format.GroupThousandsChars | dashboard.js:260 | the grouped spelling holds only digits and commas |
| Format.FormatNumber | dashboard.js:258-261 | the result is `-` exactly for a missing or NaN value. For an integer, removing the commas gives its decimal spelling |
| Format.FormatNatural | dashboard.js:258-261 | for a natural number, the commas are removable and stand exactly between groups of three digits counted from the right |
| FieldLaws.Shown | dashboard.js:258-261 | a displayed natural number is non-empty, made of digits and commas, starts and ends with a digit, and loses only its commas when stripped |
| Parsing.DigitsParse | dashboard.js:54 | `parseFloat` reads a digit string as the number it spells |
| Parsing.NatParses | dashboard.js:54 | `parseFloat` reads back the decimal spelling of every natural number |
| Parsing.NegativeParses | dashboard.js:54 | `parseFloat` reads a minus sign followed by a natural number's spelling as its negation |
| Parsing.IntParses | dashboard.js:54 | `parseFloat` reads back the decimal spelling of every integer |
| Parsing.GroupedParse | dashboard.js:53-54 | digits with thousands separators parse to the value their digits spell |
| Parsing.LiteralScaleUp | dashboard.js:54 | an exponent `k` multiplies the literal's value by ten to the `k` |
| Parsing.LiteralScaleDown | dashboard.js:54 | an exponent `-k` divides the literal's value by ten to the `k` |
| Parsing.ExponentOfNat | dashboard.js:54 | `e` followed by a natural number's spelling, with or without a minus sign, is read as that exponent |
| Parsing.ParseExponent | dashboard.js:54 | `parseFloat` reads digits followed by `e` and a natural number `k` as the digits' value times ten to the `k`, and with `e-` as that value divided by ten to the `k` |
| FieldLaws.BuaReadsFormatted | dashboard.js:52-55 | the BUA cleaner reads back every integer that `formatNumber` writes |
| FieldLaws.BuaGrouped | dashboard.js:52-55 | BUA text made of digits and commas is the value of its digits ("12,500" is 12500) |
| FieldLaws.BuaIgnoresCommas | dashboard.js:53 | cleaning the comma-free BUA text gives the same field as cleaning the original |
| FieldLaws.RangeOfShown | dashboard.js:65-66 | a range of two displayed numbers has their midpoint as its mean |
| FieldLaws.PlotRange | dashboard.js:63-66 | plot text "A-B" is the midpoint ("4,000-6,000" is 5000) |
| FieldLaws.DropTilde | dashboard.js:60-61 | removing `~` from "~r" and trimming leaves a clean cell `r` |
| FieldLaws.TildeRange | dashboard.js:60-66 | for plot text, the `~` is removed before the range is split |
| FieldLaws.PlotApproxRange | dashboard.js:60-66 | plot text "~A-B" is the midpoint too |
| FieldLaws.PlotApprox | dashboard.js:60-70 | plot text "~A" is A |
| FieldLaws.PriceMillionsDecimal | dashboard.js:76-78 | price text "ip.fpM" is ip.fp million ("2.5M" is 2.5) |
| FieldLaws.PriceMillionsWhole | dashboard.js:76-78 | price text "NM" is N million |
| FieldLaws.PriceDirhams | dashboard.js:79-80 | price text of digits and commas with no `M` is that amount in dirhams, stored in millions ("2500000" is 2.5) |
| FieldLaws.MatchIsMarked | dashboard.js:76 | every match of the price regex ends at an `M` directly after a digit, or after a digit and a dot |
| FieldLaws.MarkedIsMatch | dashboard.js:76 | every such `M` ends a match that starts one or two characters before it |
| FieldLaws.MillionsMatchIff | dashboard.js:76-77 | the price regex matches exactly when the text has an `M` directly after a digit, or after a digit and a dot |
| FieldLaws.RemoveAvgKeepsHead | dashboard.js:92 | `(avg)` removal leaves a leading part without white space untouched |
| FieldLaws.AverageNoteRemoved | dashboard.js:92 | a trailing " (avg)" is removed from text without white space |
| FieldLaws.StripApproxAverage | dashboard.js:92 | removing `~` and `,` from "~A (avg)" leaves A's digits and the note |
| FieldLaws.PsfApproxAverage | dashboard.js:91-93 | PSF text "~A (avg)" is A ("~1,200 (avg)" is 1200) |
| FieldLaws.PsfRange | dashboard.js:87-90 | PSF text "A-B" is the midpoint |
| FieldLaws.PsfApproxRangeIsNaN | dashboard.js:87-90 | PSF text "~x-y" is NaN, because the range path keeps the `~` |
| FieldLaws.FirstDigitRunOf | dashboard.js:112 | the first digit run of text that has no digit before `d` and none right after it is `d` |
| FieldLaws.BedroomsOf | dashboard.js:111-116 | bedrooms are the first number in `Config` ("4 Bed + Maid" has 4) |
| Aggregate.Dedup | dashboard.js:125 | `[...new Set(xs)]` holds exactly the values of `xs`, each once |
| Aggregate.DedupSnoc | dashboard.js:125 | a value added at the end joins the distinct list unless it was already there |
| Aggregate.FirstIndexUnique | dashboard.js:125 | an occurrence with no earlier occurrence is the first one |
| Aggregate.DedupOrder | dashboard.js:125 | the distinct values are ordered by their first appearance |
| Aggregate.Types | dashboard.js:125 | `map(p => p['Type'])` has one entry per record, each the type of the record at the same position |
| Aggregate.PropertyTypes | dashboard.js:125 | the type options are `All`, then every record's `Type` exactly once, ordered by where each type first occurs among the records |
| Aggregate.Configs | dashboard.js:128-130 | at most one entry per record, and the entries are exactly the trimmed `Config` values of the records whose `Config` is not empty |
| Aggregate.HasConfig | dashboard.js:129 | `filter(p => p['Config'])`: the record's `Config` is not empty. A definition; Configs states its use |
| Aggregate.TrimmedConfig | dashboard.js:130 | `map(p => p['Config'].trim())`: the trimmed `Config`. A definition; Configs states its use |
| Aggregate.ConfigsAppend | dashboard.js:128-130 | configurations are read record by record, so the list keeps the record order |
| Aggregate.ConfigTypes | dashboard.js:128-130 | the configuration options are `All`, then every trimmed non-empty `Config` exactly once, ordered by where each first occurs in the list of trimmed configurations |
| Aggregate.GateTypes | dashboard.js:136 | the types of the records that pass the guard, in record order, one entry per passing record. A definition; GateTypesCount states when a type occurs |
| Aggregate.Grouped | dashboard.js:134-156 | `Object.keys(sizeByType)`: the distinct types that pass the guard, in first-seen order. A definition; GroupedIffCounted and TallyStepKeys state its laws |
| Aggregate.GroupedIffCounted | dashboard.js:136-137 | a type gets a tally exactly when one of its records passes the guard |
| Aggregate.GateTypesCount | dashboard.js:136 | a type is among the types that pass the guard exactly when its guard count is positive |
| Aggregate.UngroupedEmpty | dashboard.js:136-153 | a type without a tally has an empty reference tally for every field behind that guard |
| Aggregate.Counts | dashboard.js:136-151 | a record adds to the tally of field `f` for type `t` when it has that non-empty type, passes the guard and has a truthy `f`. A definition; TallyOf and TallySnoc use it |
| Aggregate.Bump | dashboard.js:146-151 | the `+=` and `++` of one record: the value is added and the count incremented exactly when the record counts. A definition; TallySnoc states its use |
| Aggregate.TallyOf | dashboard.js:146-151 | the reference tally: the sum and the number of the values of the records of one type that pass the guard and have a truthy value. It has no contract of its own; TallySnoc, UngroupedEmpty and GroupedIffCounted state its laws |
| Aggregate.TallySnoc | dashboard.js:146-151 | the reference tally of one more record is the old tally plus that record's contribution |
| Aggregate.AddRecord | dashboard.js:136-152 | one `forEach` step: a record that passes the guard creates its type's tally if missing and adds its value when truthy. A definition; TallyStepKeys and TallyStepValues state its effect |
| Aggregate.TallyStepKeys | dashboard.js:137-144 | after one more record, the tally keys are the guarded types in first-seen order |
| Aggregate.TallyUpdate | dashboard.js:146-151 | updating the tally of the record's own type keeps every tally equal to the reference |
| Aggregate.TallyStepValues | dashboard.js:146-151 | after one more record, every tally equals the reference tally |
| Aggregate.TallyStep | dashboard.js:135-154 | one more record turns the tallies of a prefix into the tallies of the longer prefix |
| Aggregate.TallyBy | dashboard.js:134-154 | the `forEach` loop gives one tally per guarded type, in first-seen order, each equal to the reference sum and count |
| Aggregate.SizeRowOf | dashboard.js:156-160 | `avgBUA` is within half a unit of the mean BUA. `avgPlot` is 0 when no plot was counted, and otherwise within half a unit of the mean plot |
| Aggregate.SizeComparison | dashboard.js:133-161 | one size bar per type with a truthy BUA, in first-seen order. Its count is positive and its means come from the reference tallies |
| Aggregate.PriceRowOf | dashboard.js:180-183 | the bar price is a whole number of tenths, within half a tenth of the mean price |
| Aggregate.PriceComparison | dashboard.js:164-183 | one price bar per type with a truthy price, in first-seen order. Its mean is rounded to one decimal |
| Aggregate.PointOf | dashboard.js:189-194 | a point carries its record's layout name and type, and for a plotted record its BUA and price |
| Aggregate.Plotted | dashboard.js:188 | `filter(p => p['BUA_Numeric'] && p['Launch_Price_M'])`: both fields are truthy. A definition; ScatterPoints states its use |
| Aggregate.Scatter | dashboard.js:186-194 | at most one point per record; ScatterPoints and ScatterAppend state which points and in what order |
| Aggregate.ScatterPoints | dashboard.js:186-194 | the scatter points are exactly the points of the records with truthy BUA and price |
| Aggregate.ScatterAppend | dashboard.js:186-194 | points are made record by record, so they keep the input order |
| View.Select | dashboard.js:214 | the equality filter returns at most as many records as it is given |
| View.SelectCounts | dashboard.js:214 | the equality filter keeps exactly the records whose cell equals the value, each as often as it occurs |
| View.SelectAppend | dashboard.js:214 | `filter` decides record by record, so the filter of `a + b` is the filter of `a` followed by that of `b` and the kept records keep their input order |
| View.SelectOne | dashboard.js:214 | a single record is kept exactly when its cell equals the value |
| View.FilterView | dashboard.js:210-220 | the filtered copy holds exactly the records that match both filters, with their multiplicities |
| View.FilterViewAppend | dashboard.js:210-220 | both filters decide record by record, so the filtered copy keeps the input order |
| View.FilterViewOne | dashboard.js:210-220 | a single record passes exactly when it matches both filters |
| View.Matches | dashboard.js:213-220 | a record passes when each filter is `All` or equals the record's cell. A definition; FilterViewOne and SelectOne state its use |
| View.NumericKey | dashboard.js:226 | the five derived-field names sort numerically, and every other key sorts as text |
| View.Sign | dashboard.js:230-232 | the comparator value is between -1 and 1, at most 0 exactly when the difference is, and at least 0 exactly when the difference is |
| View.SignOfDifference | dashboard.js:230-232 | `a - b` and `b - a` have opposite signs, and `a - b` is at most 0 exactly when `a` is at most `b` |
| View.LexCmp | dashboard.js:239-240 | the string comparison is between -1 and 1, and a proper prefix comes before the longer string |
| View.LexCmpZero | dashboard.js:239-240 | two strings compare equal exactly when they are the same string |
| View.LexCmpFlip | dashboard.js:239-240 | swapping the strings flips the comparison |
| View.LexCmpTrans | dashboard.js:239-240 | string order is transitive |
| View.CompareFlip | dashboard.js:224-242 | the comparator is antisymmetric in both directions and for both kinds of key |
| View.Compare | dashboard.js:224-242 | on a numeric key, `a` does not come after `b` exactly when its `value \|\| 0` is at most `b`'s (at least, when descending). On a text key, `a` does not come after `b` exactly when its cell is at most `b`'s in string order when ascending, and at least when descending; two records tie exactly when their cells are the same text |
| View.CompareReverse | dashboard.js:230-240 | for both kinds of key, sorting descending compares the operands as ascending does with the operands swapped |
| View.CompareTrans | dashboard.js:224-242 | the comparator is transitive, so it is a total preorder |
| View.Insert | dashboard.js:224 | inserting adds exactly the one record |
| View.Sort | dashboard.js:224-242 | sorting is a permutation |
| View.InsertSorted | dashboard.js:224-242 | inserting into a sorted sequence keeps it sorted |
| View.Sorted | dashboard.js:224-242 | a sequence is in comparator order: no record comes after a later one. A definition; SortSorted and NumericOrder state its use |
| View.SortSorted | dashboard.js:224-242 | the sorted sequence is in comparator order |
| View.TiesCons | dashboard.js:224-242 | the ties of a record prepended to a sequence start with that record if it ties |
| View.TiesApart | dashboard.js:224-242 | two records in strict order cannot both tie with a third |
| View.InsertTies | dashboard.js:224-242 | inserting a record keeps it ahead of the records it ties with |
| View.SortStable | dashboard.js:224-242 | the sort is stable: records that tie keep their input order |
| View.ComputeView | dashboard.js:209-246 | the view holds exactly the matching records with their multiplicities. With a key set, it is in comparator order and records that tie keep their order in the filtered copy, which keeps the input order (FilterViewAppend); with an empty key, it is the filtered copy |
| View.NumericOrder | dashboard.js:223-232 | on a numeric key, the view is non-decreasing in `value \|\| 0` when ascending and non-increasing when descending |
| View.TextOrder | dashboard.js:233-240 | on a text key, the view is non-decreasing in the cell text when ascending and non-increasing when descending |
| View.RequestSort | dashboard.js:249-255 | the new sort is on the clicked key, and it is descending exactly when the current sort is that key ascending |
| View.RequestSortFlips | dashboard.js:249-255 | clicking the same column twice always flips the direction |
| Dashboard.Initial | dashboard.js:13-26 | before loading there are no records, the table is empty, both option lists hold only `All`, both filters are `All`, the sort is by `Layout Name` ascending, and all three charts are empty |
| Dashboard.Consistent | dashboard.js:209-246 | what the filter and sort effect maintains: the table is the view of the records under the current filters and sort. A definition; every transition ensures it |
| Dashboard.Load | dashboard.js:46-195 | loading ingests the rows; the option lists, the scatter points and the table come from the cleaned records, and each size and price bar is the bar of its type's reference tallies, one per guarded type in first-seen order |
| Dashboard.SetTypeFilter | dashboard.js:209-220 | a new type filter recomputes the table and changes nothing else |
| Dashboard.SetConfigFilter | dashboard.js:209-220 | a new configuration filter recomputes the table and changes nothing else |
| Dashboard.RequestSortOn | dashboard.js:249-255 | a header click toggles the sort, recomputes the table and changes nothing else |
| Scenario.VillaGroups | dashboard.js:136-137 | both villas pass the BUA and price guards, so each chart gets the single bar `Villa` |
| Scenario.VillaTallies | dashboard.js:146-151 | the villa tallies are BUA 3000 over 2, plot 3000 over 1 and price 3.0 over 2 |
| Scenario.VillaScenario | dashboard.js:133-183 | the two villas give a size bar of 1500 and 3000 and a price bar of 1.5 |

## Left out

- Fetching the CSV and decoding it with Papa Parse (dashboard.js:36-43) are I/O and a foreign library. The model starts from the decoded rows, as maps from column name to cell text.
- React plumbing is left out: hooks, the loading flag, the error state after a failed load, and all rendering (dashboard.js:263-829). The state transitions in `Dashboard` replace the hooks.
- `Load` recomputes the table directly. The intermediate `setFilteredProperties(cleanedData)` is overwritten by the filter effect, so it is not modelled.
- Numbers are exact reals, not IEEE-754 doubles. Rounding errors of `/ 1000000`, of the means and of `Math.round` are not modelled, nor are infinities or overflow.
- `Numbers.ParseFloat` does not recognise `Infinity`. No cell of a property sheet spells it.
- `View.LexCmp`: compares strings character code by character code, not with `localeCompare`'s locale-dependent collation, which is not available here. The two can order distinct strings differently, and `localeCompare` can report a tie between distinct strings, so the sorted order and the tie classes of a text key can differ from a browser's.
- `Object.keys` lists integer-like keys first. The model keeps first-seen order for every type name. Type names such as `__proto__`, which plain objects treat specially, are not modelled either.
- A text sort key reads the raw column. A derived property name other than the five numeric ones, such as `Bedrooms`, would read as an empty text; the page never sorts on one.
- A CSV column named like a derived field (for example `BUA_Numeric`) would be overwritten in the cleaned record. The model keeps raw cells and derived fields apart.
- `Aggregate.TypeOf` reads a missing `Type` cell as "". Ingested records always have a non-blank `Type`, so this cannot arise after `Normalize.Ingest`.
- `Format.FormatNumber`: covers integers only. On a fractional number, `formatNumber`'s regex also puts commas into the digits after the point. Values of 10^21 or more, which `toString` writes in exponent form, are not modelled either.
- `Normalize.CleanPrice`: does not characterise the value beyond "never NaN" and the absent case. `FieldLaws.PriceMillionsDecimal`, `FieldLaws.PriceMillionsWhole` and `FieldLaws.PriceDirhams` state the value for the well-formed forms.
- `Normalize.RemoveAvg`: its own contract states only that the text does not grow. `FieldLaws.RemoveAvgKeepsHead` and `FieldLaws.AverageNoteRemoved` state what it removes.
- `Scenario.VillaScenario`: starts from cleaned records with the villas' values. The cell-level parsing of "1,000", "2,000-4,000" and "1.2M" is covered by `FieldLaws.BuaGrouped`, `FieldLaws.PlotRange` and `FieldLaws.PriceMillionsDecimal`, not by this lemma.
