/** The data derived on the dashboard page: the record filter driven by the make, year and
    search controls, the option lists of the two drop-downs, the "Top 10 Cities" chart
    series and the text of the CSV export. */
module Dashboard {
  import opened Wrappers
  import opened JsArray
  import opened JsObject
  import JsString
  import JsonString
  import opened DataProcessing

  // ---------------------------------------------------------------------------
  // The record filter

  /** The three controls above the charts: `selectedMake`, `selectedYear`, `searchTerm`. */
  datatype Selection = Selection(make: string, year: string, searchTerm: string)

  /** `selectedMake ? item["Make"] === selectedMake : true` */
  predicate MatchesMake(r: Record, selectedMake: string) {
    selectedMake != "" ==> Get(r, MakeField) == Some(selectedMake)
  }

  /** `selectedYear ? item["Model Year"] === selectedYear : true` */
  predicate MatchesYear(r: Record, selectedYear: string) {
    selectedYear != "" ==> Get(r, ModelYearField) == Some(selectedYear)
  }

  /** `item[field]?.toLowerCase().includes(term.toLowerCase())`, false for a missing field. */
  predicate FieldContains(r: Record, field: string, term: string) {
    match Get(r, field)
    case None => false
    case Some(v) => JsString.Includes(JsString.ToLowerCase(v), JsString.ToLowerCase(term))
  }

  /** The search matches the Make or the Model. */
  predicate MatchesSearch(r: Record, term: string) {
    FieldContains(r, MakeField, term) || FieldContains(r, ModelField, term)
  }

  function MakeFilter(sel: Selection): Record -> bool {
    (r: Record) => MatchesMake(r, sel.make)
  }

  function YearFilter(sel: Selection): Record -> bool {
    (r: Record) => MatchesYear(r, sel.year)
  }

  function SearchFilter(sel: Selection): Record -> bool {
    (r: Record) => MatchesSearch(r, sel.searchTerm)
  }

  /** `matchesMake && matchesYear && matchesSearch` */
  function Matches(sel: Selection): Record -> bool {
    (r: Record) => MatchesMake(r, sel.make) && MatchesYear(r, sel.year) && MatchesSearch(r, sel.searchTerm)
  }

  /** `filteredData` */
  function FilteredData(data: seq<Record>, sel: Selection): seq<Record> {
    Filter(data, Matches(sel))
  }

  /** `filteredData` keeps, in their order, exactly the records that pass all three tests. */
  lemma FilteredDataSpec(data: seq<Record>, sel: Selection)
    ensures IsSubsequence(FilteredData(data, sel), data)
    ensures forall r :: r in FilteredData(data, sel) <==>
              r in data && MatchesMake(r, sel.make) && MatchesYear(r, sel.year) && MatchesSearch(r, sel.searchTerm)
  {
    FilterIsSubsequence(data, Matches(sel));
    forall r ensures r in FilteredData(data, sel) <==>
      r in data && MatchesMake(r, sel.make) && MatchesYear(r, sel.year) && MatchesSearch(r, sel.searchTerm)
    {
      FilterContains(data, Matches(sel), r);
    }
  }

  /** The make (0), year (1) and search (2) tests as separate filters. */
  function Stage(sel: Selection, i: nat): Record -> bool
    requires i < 3
  {
    if i == 0 then MakeFilter(sel) else if i == 1 then YearFilter(sel) else SearchFilter(sel)
  }

  /** Applying the three tests one after another, in any order, gives `filteredData`. */
  lemma FilteredDataInAnyOrder(data: seq<Record>, sel: Selection, a: nat, b: nat, c: nat)
    requires a < 3 && b < 3 && c < 3 && a != b && b != c && a != c
    ensures Filter(Filter(Filter(data, Stage(sel, a)), Stage(sel, b)), Stage(sel, c)) == FilteredData(data, sel)
  {
    var pa, pb, pc := Stage(sel, a), Stage(sel, b), Stage(sel, c);
    FilterFilter(data, pb, pa);
    FilterFilter(data, pc, And(pb, pa));
    forall r | r in data ensures And(pc, And(pb, pa))(r) == Matches(sel)(r) {
      assert {pa(r), pb(r), pc(r)} == {MatchesMake(r, sel.make), MatchesYear(r, sel.year), MatchesSearch(r, sel.searchTerm)};
    }
    FilterExtensional(data, And(pc, And(pb, pa)), Matches(sel));
  }

  /** Empty drop-down selections constrain nothing: only the search filters. */
  lemma EmptySelectionsMatchAll(data: seq<Record>, term: string)
    ensures FilteredData(data, Selection("", "", term)) == Filter(data, SearchFilter(Selection("", "", term)))
  {
    FilterExtensional(data, Matches(Selection("", "", term)), SearchFilter(Selection("", "", term)));
  }

  /** A chosen make or year is matched exactly and case-sensitively. */
  lemma SelectionIsExact(data: seq<Record>, sel: Selection, r: Record)
    requires r in FilteredData(data, sel)
    ensures sel.make != "" ==> Get(r, MakeField) == Some(sel.make)
    ensures sel.year != "" ==> Get(r, ModelYearField) == Some(sel.year)
  {
    FilterContains(data, Matches(sel), r);
  }

  /** With an empty search term a record passes the search exactly when it has a Make or a
      Model: a record with neither is dropped. */
  lemma EmptySearchTerm(r: Record)
    ensures MatchesSearch(r, "") <==> MakeField in r.props || ModelField in r.props
  {
    assert JsString.ToLowerCase("") == "";
    if MakeField in r.props {
      JsString.IncludesEmptyAndSelf(JsString.ToLowerCase(r.props[MakeField]));
    }
    if ModelField in r.props {
      JsString.IncludesEmptyAndSelf(JsString.ToLowerCase(r.props[ModelField]));
    }
  }

  /** The search ignores the case of the term, and a record is found by its own Make. */
  lemma SearchIgnoresCase(r: Record, term: string)
    ensures MatchesSearch(r, term) <==> MatchesSearch(r, JsString.ToLowerCase(term))
    ensures Get(r, MakeField) == Some(term) ==> MatchesSearch(r, term)
  {
    JsString.ToLowerCaseIdempotent(term);
    JsString.IncludesEmptyAndSelf(JsString.ToLowerCase(term));
  }

  // ---------------------------------------------------------------------------
  // The drop-down options

  /** `uniqueMakes = getUniqueValues(data, "Make")` */
  function UniqueMakes(data: seq<Record>): seq<Option<string>> {
    GetUniqueValues(Some(data), MakeField)
  }

  /** `uniqueYears = getUniqueValues(data, "Model Year")` */
  function UniqueYears(data: seq<Record>): seq<Option<string>> {
    GetUniqueValues(Some(data), ModelYearField)
  }

  /** The options come from the unfiltered records, so whatever the selection, the Make and
      Model Year of each record still shown are options. */
  lemma OptionsCoverFilteredData(data: seq<Record>, sel: Selection, r: Record)
    requires r in FilteredData(data, sel)
    ensures Get(r, MakeField) in UniqueMakes(data)
    ensures Get(r, ModelYearField) in UniqueYears(data)
  {
    FilterContains(data, Matches(sel), r);
    UniqueFieldValuesMembers(data, MakeField, Get(r, MakeField));
    UniqueFieldValuesMembers(data, ModelYearField, Get(r, ModelYearField));
  }

  // ---------------------------------------------------------------------------
  // Chart series

  /** A chart's `labels` and `datasets[0].data`. */
  datatype Series = Series(labels: seq<string>, values: seq<nat>)

  /** `topCitiesData` as written: the first ten keys of `cityCount` and their counts. */
  function TopCitiesAsWritten(cityCount: Object<nat>): Series {
    Series(Slice(Keys(cityCount), 10), Slice(Values(cityCount), 10))
  }

  /** Labels and values have the same length, `min(10, number of cities)`, and pair each of
      the first ten keys of `cityCount` with its count. */
  lemma TopCitiesAsWrittenSpec(o: Object<nat>)
    ensures var n := |o.props|;
            |TopCitiesAsWritten(o).labels| == |TopCitiesAsWritten(o).values| == if n < 10 then n else 10
    ensures forall i :: 0 <= i < |TopCitiesAsWritten(o).labels| ==>
              && TopCitiesAsWritten(o).labels[i] == Keys(o)[i]
              && TopCitiesAsWritten(o).labels[i] in o.props
              && TopCitiesAsWritten(o).values[i] == o.props[TopCitiesAsWritten(o).labels[i]]
  {
    KeysPermutation(o);
  }

  /** Eleven cities in first-seen order. */
  const Cities: seq<string> :=
    ["Seattle", "Bellevue", "Redmond", "Kirkland", "Bothell", "Renton",
     "Sammamish", "Olympia", "Tacoma", "Everett", "Vancouver"]

  lemma VancouverIsLast()
    ensures |Cities| == 11 && Cities[10] == "Vancouver"
    ensures forall i :: 0 <= i < 10 ==> Cities[i] != "Vancouver"
    ensures forall i :: 0 <= i < |Cities| ==> !IsArrayIndex(Cities[i])
  {
    forall i | 0 <= i < |Cities| ensures !IsArrayIndex(Cities[i]) {
      assert !JsString.IsDecimalDigit(Cities[i][0]);
    }
  }

  /** The counts of `Cities`: the last one has by far the most vehicles. */
  function ElevenCities(): (o: Object<nat>)
    ensures o.insertion == Cities
    ensures forall c :: c in o.props ==> o.props[c] == if c == "Vancouver" then 50 else 1
  {
    assert Distinct(Cities);
    RawObject(Cities, map c | c in Cities :: if c == "Vancouver" then 50 else 1)
  }

  /** Without array-index keys the series as written is the first ten cities in creation
      order, each with its own count, so no city met after the tenth is shown, however
      many vehicles it has. */
  lemma TopCitiesAsWrittenFirstMet(o: Object<nat>)
    requires forall i :: 0 <= i < |o.insertion| ==> !IsArrayIndex(o.insertion[i])
    ensures TopCitiesAsWritten(o).labels == Slice(o.insertion, 10)
    ensures forall i :: 0 <= i < |TopCitiesAsWritten(o).labels| ==>
              TopCitiesAsWritten(o).values[i] == o.props[o.insertion[i]]
    ensures forall i :: 10 <= i < |o.insertion| ==> o.insertion[i] !in TopCitiesAsWritten(o).labels
  {
    KeysWithoutArrayIndices(o);
    TopCitiesAsWrittenSpec(o);
    var labels := TopCitiesAsWritten(o).labels;
    forall i | 10 <= i < |o.insertion| ensures o.insertion[i] !in labels {
      forall j | 0 <= j < |labels| ensures labels[j] != o.insertion[i] {
        assert labels[j] == o.insertion[j];
      }
    }
  }

  /** The chart titled "Top 10 Cities with EVs" leaves out the city with the most vehicles:
      it shows the first ten cities met, whatever their counts. */
  lemma TopCitiesAsWrittenMissesLargest()
    ensures "Vancouver" in ElevenCities().props
    ensures "Vancouver" !in TopCitiesAsWritten(ElevenCities()).labels
    ensures forall i :: 0 <= i < |TopCitiesAsWritten(ElevenCities()).values| ==>
              TopCitiesAsWritten(ElevenCities()).values[i] < ElevenCities().props["Vancouver"]
  {
    var o := ElevenCities();
    VancouverIsLast();
    assert o.insertion[10] == "Vancouver";
    TopCitiesAsWrittenFirstMet(o);
    forall i | 0 <= i < |TopCitiesAsWritten(o).values|
      ensures TopCitiesAsWritten(o).values[i] < o.props["Vancouver"]
    {
      assert o.insertion[i] != "Vancouver";
    }
  }

  /** Sorting by this key ascending puts the cities with the most vehicles first. */
  function ByCountDescending(e: (string, nat)): real {
    -(e.1 as real)
  }

  /** Every city with its count, most vehicles first; ties keep `Object.entries` order. */
  function RankedCities(o: Object<nat>): seq<(string, nat)> {
    SortBy(Entries(o), ByCountDescending)
  }

  /** The intended "Top 10 Cities" series: the ten cities with the most vehicles. */
  function TopCities(cityCount: Object<nat>): Series {
    var top := Slice(RankedCities(cityCount), 10);
    Series(seq(|top|, i requires 0 <= i < |top| => top[i].0), seq(|top|, i requires 0 <= i < |top| => top[i].1))
  }

  /** The ranking is a permutation of the entries: each city once, with its count. */
  lemma RankedCitiesSpec(o: Object<nat>)
    ensures |RankedCities(o)| == |o.props|
    ensures forall i :: 0 <= i < |RankedCities(o)| ==>
              RankedCities(o)[i].0 in o.props && RankedCities(o)[i].1 == o.props[RankedCities(o)[i].0]
    ensures forall i, j :: 0 <= i < j < |RankedCities(o)| ==>
              RankedCities(o)[i].0 != RankedCities(o)[j].0 && RankedCities(o)[i].1 >= RankedCities(o)[j].1
  {
    var es := Entries(o);
    var ranked := RankedCities(o);
    KeysPermutation(o);
    SortByPermutation(es, ByCountDescending);
    SortBySorted(es, ByCountDescending);
    assert |multiset(ranked)| == |multiset(es)|;
    forall i | 0 <= i < |ranked| ensures ranked[i].0 in o.props && ranked[i].1 == o.props[ranked[i].0] {
      assert ranked[i] in multiset(es);
    }
    PermutationKeepsImagesDistinct(es, ranked, (e: (string, nat)) => e.0);
  }

  /** Every city appears in the ranking. */
  lemma RankedCitiesComplete(o: Object<nat>, k: string)
    requires k in o.props
    ensures exists i :: 0 <= i < |RankedCities(o)| && RankedCities(o)[i].0 == k
  {
    var es := Entries(o);
    KeysPermutation(o);
    SortByPermutation(es, ByCountDescending);
    var j :| 0 <= j < |Keys(o)| && Keys(o)[j] == k;
    PermutationKeepsImage(es, RankedCities(o), (e: (string, nat)) => e.0, j);
  }

  /** The corrected series: `min(10, number of cities)` distinct cities, each with its count,
      most vehicles first. */
  lemma TopCitiesSpec(o: Object<nat>)
    ensures var n := |o.props|;
            |TopCities(o).labels| == |TopCities(o).values| == if n < 10 then n else 10
    ensures forall i :: 0 <= i < |TopCities(o).labels| ==>
              TopCities(o).labels[i] in o.props && TopCities(o).values[i] == o.props[TopCities(o).labels[i]]
    ensures forall i, j :: 0 <= i < j < |TopCities(o).labels| ==>
              TopCities(o).labels[i] != TopCities(o).labels[j] && TopCities(o).values[i] >= TopCities(o).values[j]
  {
    RankedCitiesSpec(o);
  }

  /** No city left out of the corrected series has more vehicles than one in it. */
  lemma TopCitiesIsTop(o: Object<nat>, k: string)
    requires k in o.props && k !in TopCities(o).labels
    ensures forall i :: 0 <= i < |TopCities(o).values| ==> o.props[k] <= TopCities(o).values[i]
  {
    RankedCitiesSpec(o);
    RankedCitiesComplete(o, k);
    var ranked := RankedCities(o);
    var j :| 0 <= j < |ranked| && ranked[j].0 == k;
    assert forall i :: 0 <= i < |TopCities(o).labels| ==> TopCities(o).labels[i] == ranked[i].0;
  }

  /** A city with strictly more vehicles than every other heads the corrected series. */
  lemma TopCitiesLeadsWithMaximum(o: Object<nat>, k: string)
    requires k in o.props
    requires forall c :: c in o.props && c != k ==> o.props[c] < o.props[k]
    ensures |TopCities(o).labels| > 0 && TopCities(o).labels[0] == k
  {
    TopCitiesSpec(o);
    var top := TopCities(o);
    if k !in top.labels {
      TopCitiesIsTop(o, k);
      assert o.props[k] <= top.values[0] == o.props[top.labels[0]];
    } else {
      var i :| 0 <= i < |top.labels| && top.labels[i] == k;
    }
  }

  /** The corrected series shows the city the series as written leaves out, first. */
  lemma TopCitiesFindsLargest()
    ensures TopCities(ElevenCities()).labels[0] == "Vancouver"
  {
    TopCitiesLeadsWithMaximum(ElevenCities(), "Vancouver");
  }

  // ---------------------------------------------------------------------------
  // What the page renders from the records and the controls

  /** The drop-down options, the chart summaries of the filtered records and the city series. */
  datatype View = View(
    uniqueMakes: seq<Option<string>>,
    uniqueYears: seq<Option<string>>,
    charts: ChartData,
    topCities: Series)

  /** What the page shows: the drop-down options from all the data, the charts from the
      filtered data, and the city chart as the page builds it. */
  function Render(data: seq<Record>, sel: Selection): View {
    var charts := ChartSummary(FilteredData(data, sel));
    View(UniqueMakes(data), UniqueYears(data), charts, TopCitiesAsWritten(charts.cityCount))
  }

  /** The same view with the city chart ranked by count. */
  function RenderCorrected(data: seq<Record>, sel: Selection): View {
    var charts := ChartSummary(FilteredData(data, sel));
    View(UniqueMakes(data), UniqueYears(data), charts, TopCities(charts.cityCount))
  }

  /** Every make a chart counts, under any selection, is the text of an option of the make
      drop-down, which does not depend on the selection. */
  lemma ChartMakesAreOptions(data: seq<Record>, sel: Selection, k: string)
    requires k in Render(data, sel).charts.makeCount.props
    ensures exists v :: v in Render(data, sel).uniqueMakes && JsString.ToJsString(v) == k
  {
    var clean := CleanData(FilteredData(data, sel));
    CountByExact(clean, MakeField);
    assert k in set r | r in clean :: CategoryKey(r, MakeField);
    var r :| r in clean && CategoryKey(r, MakeField) == k;
    FilterContains(FilteredData(data, sel), HasVin, r);
    FilterContains(data, Matches(sel), r);
    UniqueFieldValuesMembers(data, MakeField, Get(r, MakeField));
  }

  // ---------------------------------------------------------------------------
  // The CSV text of exportToCSV

  /** `row[fieldName] ?? ""` for each header, in header order. */
  function RowValues(row: Record, headers: seq<string>): (vs: seq<string>)
    ensures |vs| == |headers|
    ensures forall i :: 0 <= i < |headers| ==> vs[i] == Get(row, headers[i]).GetOr("")
  {
    seq(|headers|, i requires 0 <= i < |headers| => Get(row, headers[i]).GetOr(""))
  }

  /** `JSON.stringify` of each value. */
  function QuoteAll(vs: seq<string>): (qs: seq<string>)
    ensures |qs| == |vs|
    ensures forall i :: 0 <= i < |vs| ==> qs[i] == JsonString.Quote(vs[i])
  {
    seq(|vs|, i requires 0 <= i < |vs| => JsonString.Quote(vs[i]))
  }

  /** One data line: the quoted fields joined by `","`. */
  function CsvRow(row: Record, headers: seq<string>): string {
    JsString.Join(QuoteAll(RowValues(row, headers)), ",")
  }

  /** The header line followed by one line per record. */
  function CsvLines(filtered: seq<Record>, headers: seq<string>): (lines: seq<string>)
    ensures |lines| == |filtered| + 1
  {
    [JsString.Join(headers, ",")] + seq(|filtered|, i requires 0 <= i < |filtered| => CsvRow(filtered[i], headers))
  }

  /** `Object.keys(filteredData[0])` on an empty table reads `Object.keys(undefined)`. */
  const KeysOfUndefined := "TypeError: Cannot convert undefined or null to object"

  /** `csvContent`; an empty `filteredData` throws before any text is built. */
  function CsvContent(filtered: seq<Record>): (r: Result<string>)
    ensures r.Err? <==> filtered == []
  {
    if filtered == [] then Err(KeysOfUndefined)
    else Ok(JsString.Join(CsvLines(filtered, Keys(filtered[0])), "\n"))
  }

  /** A quoted value never holds a line feed, so a data line never does either. */
  lemma CsvRowHasNoNewline(row: Record, headers: seq<string>)
    ensures '\n' !in CsvRow(row, headers)
  {
    var vs := RowValues(row, headers);
    var qs := QuoteAll(vs);
    forall i | 0 <= i < |qs| ensures '\n' !in qs[i] {
      JsonString.QuoteHasNoControl(vs[i]);
    }
    JsString.JoinWithout(qs, ',', '\n');
  }

  /** No line holds a line feed when no column name does. */
  lemma CsvLinesHaveNoNewline(filtered: seq<Record>, headers: seq<string>)
    requires forall h :: h in headers ==> '\n' !in h
    ensures forall i :: 0 <= i < |CsvLines(filtered, headers)| ==> '\n' !in CsvLines(filtered, headers)[i]
  {
    var lines := CsvLines(filtered, headers);
    JsString.JoinWithout(headers, ',', '\n');
    forall i | 0 <= i < |lines| ensures '\n' !in lines[i] {
      if i > 0 {
        CsvRowHasNoNewline(filtered[i - 1], headers);
      }
    }
  }

  /** When no column name holds a line feed, the CSV text has `filteredData.length + 1`
      lines: the column names of the first record joined by `","`, then one line per record. */
  lemma CsvLinesSpec(filtered: seq<Record>)
    requires filtered != []
    requires forall h :: h in Keys(filtered[0]) ==> '\n' !in h
    ensures CsvContent(filtered).Ok?
    ensures JsString.Split(CsvContent(filtered).value, '\n') == CsvLines(filtered, Keys(filtered[0]))
    ensures |JsString.Split(CsvContent(filtered).value, '\n')| == |filtered| + 1
    ensures JsString.Split(CsvContent(filtered).value, '\n')[0] == JsString.Join(Keys(filtered[0]), ",")
  {
    var lines := CsvLines(filtered, Keys(filtered[0]));
    CsvLinesHaveNoNewline(filtered, Keys(filtered[0]));
    JsString.SplitJoin(lines, '\n');
  }

  /** When no column name holds a comma, the header line splits back into the column names
      of the first record, in `Object.keys` order. */
  lemma CsvHeaderLine(filtered: seq<Record>)
    requires filtered != [] && |filtered[0].props| > 0
    requires forall h :: h in Keys(filtered[0]) ==> ',' !in h
    ensures JsString.Split(CsvLines(filtered, Keys(filtered[0]))[0], ',') == Keys(filtered[0])
  {
    KeysPermutation(filtered[0]);
    JsString.SplitJoin(Keys(filtered[0]), ',');
  }

  /** Reads `n` JSON string literals separated by commas that make up all of `s`. */
  function ReadRow(s: string, n: nat): Option<seq<string>>
    decreases n
  {
    if n == 0 then (if s == [] then Some([]) else None)
    else
      match JsonString.ReadString(s)
      case None => None
      case Some((t, rest)) =>
        if n == 1 then (if rest == [] then Some([t]) else None)
        else if rest != [] && rest[0] == ',' then
          match ReadRow(rest[1..], n - 1)
          case None => None
          case Some(ts) => Some([t] + ts)
        else None
  }

  /** A literal holding `vs[0]` followed by a comma and the other `n - 1` values is read
      as `vs`. */
  lemma ReadRowCons(s: string, tail: string, vs: seq<string>)
    requires |vs| >= 2
    requires JsonString.ReadString(s) == Some((vs[0], "," + tail))
    requires ReadRow(tail, |vs| - 1) == Some(vs[1..])
    ensures ReadRow(s, |vs|) == Some(vs)
  {
    assert ("," + tail)[1..] == tail;
    assert [vs[0]] + vs[1..] == vs;
  }

  /** The quoted values separated by commas, built front to back. */
  function QuotedRow(vs: seq<string>): string {
    if |vs| == 0 then ""
    else if |vs| == 1 then JsonString.Quote(vs[0])
    else JsonString.Quote(vs[0]) + ("," + QuotedRow(vs[1..]))
  }

  lemma {:induction false} JoinQuoteAll(vs: seq<string>)
    ensures JsString.Join(QuoteAll(vs), ",") == QuotedRow(vs)
  {
    if |vs| >= 2 {
      assert QuoteAll(vs[1..]) == QuoteAll(vs)[1..];
      JoinQuoteAll(vs[1..]);
    }
  }

  /** One more quoted value in front of a row that reads back. */
  lemma ReadQuotedStep(vs: seq<string>, tail: string)
    requires |vs| >= 2
    requires ReadRow(tail, |vs| - 1) == Some(vs[1..])
    ensures ReadRow(JsonString.Quote(vs[0]) + ("," + tail), |vs|) == Some(vs)
  {
    JsonString.ReadQuoted(vs[0], "," + tail);
    ReadRowCons(JsonString.Quote(vs[0]) + ("," + tail), tail, vs);
  }

  lemma ReadQuotedShort(vs: seq<string>)
    requires |vs| <= 1
    ensures ReadRow(QuotedRow(vs), |vs|) == Some(vs)
  {
    if |vs| == 1 {
      JsonString.ReadQuoted(vs[0], "");
      assert JsonString.Quote(vs[0]) + "" == JsonString.Quote(vs[0]);
      assert [vs[0]] == vs;
    }
  }

  lemma {:induction false} ReadQuotedRow(vs: seq<string>)
    ensures ReadRow(QuotedRow(vs), |vs|) == Some(vs)
  {
    if |vs| <= 1 {
      ReadQuotedShort(vs);
    } else {
      ReadQuotedRow(vs[1..]);
      assert |vs[1..]| == |vs| - 1;
      ReadQuotedStep(vs, QuotedRow(vs[1..]));
    }
  }

  /** Each data line holds one quoted field per column, in column order, with the record's
      value or, for a field it lacks, the empty string: reading the line back gives them. */
  lemma CsvRowRoundTrip(row: Record, headers: seq<string>)
    ensures ReadRow(CsvRow(row, headers), |headers|) == Some(RowValues(row, headers))
  {
    JoinQuoteAll(RowValues(row, headers));
    ReadQuotedRow(RowValues(row, headers));
  }
}
