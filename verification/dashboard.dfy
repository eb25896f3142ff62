/**
 The dashboard's state and the events that change it (dashboard.js, lines
 13-26, 30-206 and 209-255), with the React hooks replaced by explicit
 transitions: loading the rows, choosing a filter, clicking a column header.
 After every transition the table holds exactly the view of the current
 records under the current criteria, which is what the filter effect
 re-establishes whenever one of its inputs changes.
 */
module Dashboard {
  import opened Normalize
  import opened Aggregate
  import opened View

  datatype State = State(
    properties: seq<CleanRecord>,
    filteredProperties: seq<CleanRecord>,
    criteria: Criteria,
    propertyTypes: seq<string>,
    configTypes: seq<string>,
    sizeComparisonData: seq<SizeRow>,
    priceComparisonData: seq<PriceRow>,
    scatterPlotData: seq<ScatterPoint>)

  /** The sort the table starts with: by layout name, ascending. */
  const INITIAL_SORT := SortConfig(LAYOUT_COLUMN, Ascending)

  /** The table shows the view of the records under the criteria. */
  ghost predicate Consistent(s: State) {
    s.filteredProperties == ComputeView(s.properties, s.criteria)
  }

  /** The state before any data has arrived. */
  function Initial(): (s: State)
    ensures Consistent(s)
    ensures s.properties == [] && s.filteredProperties == []
    ensures s.propertyTypes == [ALL] && s.configTypes == [ALL]
    ensures s.criteria.typeFilter == ALL && s.criteria.configFilter == ALL
    ensures s.criteria.sort == SortConfig(LAYOUT_COLUMN, Ascending)
    ensures s.sizeComparisonData == [] && s.priceComparisonData == [] && s.scatterPlotData == []
  {
    State([], [], Criteria(ALL, ALL, INITIAL_SORT), [ALL], [ALL], [], [], [])
  }

  /** `loadData` on the decoded rows, followed by the filter effect: the
      records are ingested, the option lists and charts derived from them,
      and the table computed under the criteria in force. */
  method Load(s: State, rows: seq<RawRecord>) returns (r: State)
    ensures r.properties == Ingest(rows)
    ensures r.criteria == s.criteria
    ensures Consistent(r)
    ensures r.propertyTypes == PropertyTypes(r.properties)
    ensures r.configTypes == ConfigTypes(r.properties)
    ensures r.scatterPlotData == Scatter(r.properties)
    ensures |r.sizeComparisonData| == |Grouped(r.properties, Bua)|
    ensures forall k :: 0 <= k < |r.sizeComparisonData| ==>
              && TallyOf(r.properties, r.sizeComparisonData[k].name, Bua, Bua).count > 0
              && r.sizeComparisonData[k] == SizeRowOf(Grouped(r.properties, Bua)[k],
                                                      TallyOf(r.properties, r.sizeComparisonData[k].name, Bua, Bua),
                                                      TallyOf(r.properties, r.sizeComparisonData[k].name, Bua, Plot))
    ensures |r.priceComparisonData| == |Grouped(r.properties, Price)|
    ensures forall k :: 0 <= k < |r.priceComparisonData| ==>
              && TallyOf(r.properties, r.priceComparisonData[k].name, Price, Price).count > 0
              && r.priceComparisonData[k] == PriceRowOf(Grouped(r.properties, Price)[k],
                                                        TallyOf(r.properties, r.priceComparisonData[k].name, Price, Price))
  {
    var cleaned := Ingest(rows);
    var size := SizeComparison(cleaned);
    var price := PriceComparison(cleaned);
    r := State(cleaned, ComputeView(cleaned, s.criteria), s.criteria,
               PropertyTypes(cleaned), ConfigTypes(cleaned), size, price, Scatter(cleaned));
  }

  /** The type filter changes; only the table follows. */
  function SetTypeFilter(s: State, value: string): (r: State)
    ensures Consistent(r)
    ensures r.criteria == s.criteria.(typeFilter := value)
    ensures r.properties == s.properties
    ensures r == s.(criteria := r.criteria, filteredProperties := r.filteredProperties)
  {
    var c := s.criteria.(typeFilter := value);
    s.(criteria := c, filteredProperties := ComputeView(s.properties, c))
  }

  /** The configuration filter changes; only the table follows. */
  function SetConfigFilter(s: State, value: string): (r: State)
    ensures Consistent(r)
    ensures r.criteria == s.criteria.(configFilter := value)
    ensures r.properties == s.properties
    ensures r == s.(criteria := r.criteria, filteredProperties := r.filteredProperties)
  {
    var c := s.criteria.(configFilter := value);
    s.(criteria := c, filteredProperties := ComputeView(s.properties, c))
  }

  /** A column header is clicked; the sort toggles and the table follows. */
  function RequestSortOn(s: State, key: string): (r: State)
    ensures Consistent(r)
    ensures r.criteria.sort.key == key
    ensures r.criteria.sort.direction == Descending <==> s.criteria.sort == SortConfig(key, Ascending)
    ensures r.criteria.typeFilter == s.criteria.typeFilter && r.criteria.configFilter == s.criteria.configFilter
    ensures r == s.(criteria := r.criteria, filteredProperties := r.filteredProperties)
  {
    var c := s.criteria.(sort := RequestSort(s.criteria.sort, key));
    s.(criteria := c, filteredProperties := ComputeView(s.properties, c))
  }
}
