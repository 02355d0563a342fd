# EV analytics dashboard: the record pipeline, in Dafny

This project models the client-side data pipeline of an electric-vehicle analytics dashboard:

- **Input.** A table of vehicle records, each a JavaScript object from field name to text.
- **Clean records.** `processChartData` keeps only the records with a VIN.
- **Counts.** It counts the clean records by Make, Electric Vehicle Type, City, Model Year and CAFV eligibility.
- **Ranking.** It ranks the makes by average electric range.
- **`getUniqueValues`.** Lists the distinct values of a field in the order they first occur.
- **The dashboard page:**
  - filters the records by the make and year drop-downs and a search box;
  - feeds the drop-downs with the unique makes and years;
  - builds the "Top 10 Cities" series;
  - assembles the text of the CSV export.

## Modules

- `Wrappers`: `Option` and `Result`.
- `JsArray`: the array built-ins the pipeline uses. These are:
  - `filter`, `slice(0, n)` and `[...new Set(xs)]`;
  - a stable sort by a key;
  - lemmas about order, distinctness and permutations.
- `JsString`:
  - `String(v)`;
  - `parseInt`, the whole ECMAScript algorithm: white space, sign, `0x`, longest digit prefix;
  - `toLowerCase`, limited to ASCII;
  - `includes`, `join` and `split`.
- `JsonString`: `JSON.stringify` of a string, following QuoteJSONString in section 25.5.2.3 of ECMA-262. It comes with a reader for such literals.
- `JsObject`: an ordered JavaScript object.
  - It holds its own properties and their creation order.
  - `Object.keys`, `Object.values` and `Object.entries` list the array-index keys ("2020") first, in ascending numeric order. The other keys follow in creation order.
  - Assigning `o[k] = v` keeps an existing key's place and creates a new key last.
- `DataProcessing`: `processChartData` and `getUniqueValues`.
  - Each `reduce` is a fold, which serves as its specification, together with a `while` loop proved equal to the fold.
  - The ranking is entries, then map, then a stable sort, then `slice(0, 10)`.
- `Dashboard`: the filter, the option lists, the chart series and the CSV text.

## Modelling choices

- **Missing fields.** An absent field reads as `None`. A count dictionary files it under the property name "undefined", as `acc[undefined]` does.
- **Averages** are exact `real`s.
- **Sorting.** The comparator `(a, b) => b.avgRange - a.avgRange` is a stable sort ascending by `-avgRange`.
- **Left to their callers.** Nothing here reads the network or the clock. The record table and the three control values are parameters.

## Model

| member | source | states |
|---|---|---|
| DataProcessing.HasVin | app/utils/dataProcessing.js:2 | definition: `item["VIN (1-10)"]` is truthy, that is present and not ""; used by `RecordWithoutVinIgnored` |
| DataProcessing.CleanData | app/utils/dataProcessing.js:2 | definition: the records with a VIN, in table order; `ChartSummaryCountsVinRecords` and `JsArray.FilterContains` state which records it keeps |
| DataProcessing.CategoryKeys | app/utils/dataProcessing.js:5 | definition: one key per record, in table order: the field's value, or "undefined" when it is missing |
| DataProcessing.Increment | app/utils/dataProcessing.js:6 | definition: the count of `k`, 0 when absent, plus 1; `IncrementGet` and `IncrementTotal` state its effect |
| DataProcessing.IncrementGet | app/utils/dataProcessing.js:6 | one counting step adds 1 to the count of its own key and leaves every other count as it was |
| DataProcessing.Tally | app/utils/dataProcessing.js:4-8 | definition: the counting `reduce` over a list of keys, from `{}`; `TallyCounts`, `TallyOrder` and `TallyTotal` state its properties |
| DataProcessing.CountBy | app/utils/dataProcessing.js:4-26 | definition: the count dictionary of one field; `CountByExact`, `CountByTotal` and `CountByLoop` state its properties |
| DataProcessing.CountByLoop | app/utils/dataProcessing.js:4-8 | the counting `reduce`, as a loop over the records, yields exactly the fold `CountBy` |
| DataProcessing.CountByExact | app/utils/dataProcessing.js:4-26 | the count under every key `k` is the number of records filed under `k` (0 and absent when none); the key set is exactly the set of values that occur; keys are created in first-seen order |
| DataProcessing.MissingFieldCountedAsUndefined | app/utils/dataProcessing.js:5-6 | a record lacking the field is counted under "undefined", not skipped |
| DataProcessing.TallyCounts | app/utils/dataProcessing.js:6 | each key is counted as often as it occurs, and only keys that occur are present |
| DataProcessing.TallyOrder | app/utils/dataProcessing.js:6 | the dictionary creates its keys in first-occurrence order |
| DataProcessing.KeysMultisetCount | app/utils/dataProcessing.js:4-8 | the occurrences of a key equal the number of records with that key |
| DataProcessing.IncrementTotal | app/utils/dataProcessing.js:6 | one counting step adds exactly 1 to the sum of the counts |
| DataProcessing.TallyTotal | app/utils/dataProcessing.js:4-8 | the counts add up to the number of keys counted |
| DataProcessing.CountByTotal | app/utils/dataProcessing.js:4-26 | every count dictionary's values add up to the number of records counted |
| DataProcessing.RangeValue | app/utils/dataProcessing.js:30 | definition: `parseInt` of the Electric Range, with `NaN` read as 0; `NonNumericRange` and `JsString.ParseIntWithoutDigits` state the 0 case |
| DataProcessing.AddRange | app/utils/dataProcessing.js:31-35 | definition: one per-make step; `AddRangeCurrent` and `AddRangeStep` state its effect |
| DataProcessing.RangeByMake | app/utils/dataProcessing.js:28-37 | the per-make accumulator has a positive count for every make it holds |
| DataProcessing.AddRangeStep | app/utils/dataProcessing.js:29-35 | one reduce step: a new make is created as `{ total: 0, count: 0 }`, then the range is added to its total and 1 to its count |
| DataProcessing.RangeByMakeLoop | app/utils/dataProcessing.js:28-37 | the per-make `reduce`, as a loop, yields exactly the fold `RangeByMake` |
| DataProcessing.AddRangeCurrent | app/utils/dataProcessing.js:34-35 | one step changes only the totals of its own make: range added to the total, 1 to the count |
| DataProcessing.RangeByMakeFollowsMakeCount | app/utils/dataProcessing.js:4-37 | the accumulator creates keys in the order `makeCount` does, and each make's count equals its `makeCount` |
| DataProcessing.RangeByMakeMatchesMakeCount | app/utils/dataProcessing.js:28-37 | same keys and key order as `makeCount`; each count equals `makeCount[make]` and is at least 1 |
| DataProcessing.RangeByMakeTotals | app/utils/dataProcessing.js:30-34 | each make's total is the sum of the parsed ranges of its records |
| DataProcessing.NonNumericRange | app/utils/dataProcessing.js:30-35 | a record whose range does not parse adds 0 to its make's total and still 1 to its count |
| DataProcessing.Averages | app/utils/dataProcessing.js:39-43 | one entry per key, in `Object.entries` order, with `avgRange = total / count` |
| DataProcessing.RankedMakes | app/utils/dataProcessing.js:39-44 | definition: the entries with their averages, stably sorted highest first; `RankedMakesSpec` and `RankedTieInEntriesOrder` state its properties |
| DataProcessing.AvgRangeByMake | app/utils/dataProcessing.js:39-45 | definition: the first ten of `RankedMakes`; `AvgRangeByMakeSpec` and `AvgRangeByMakeIsTop` state its properties |
| DataProcessing.RankedMakesPermutation | app/utils/dataProcessing.js:39-44 | the sorted list is a permutation of the entries, one per make |
| DataProcessing.RankedMakesEntries | app/utils/dataProcessing.js:39-44 | every ranked entry is a make with its own average |
| DataProcessing.AveragesMakesDistinct | app/utils/dataProcessing.js:39-43 | the entries name each make once |
| DataProcessing.RankedMakesComplete | app/utils/dataProcessing.js:39-44 | every make appears in the ranking |
| DataProcessing.RankedMakesDistinctSorted | app/utils/dataProcessing.js:44 | the ranking has distinct makes, with averages non-increasing |
| DataProcessing.RankedMakesSpec | app/utils/dataProcessing.js:39-44 | the full ranking lists every make once, with its average, highest first |
| DataProcessing.AverageOfSpec | app/utils/dataProcessing.js:28-43 | a make's average is the sum of its records' parsed ranges divided by `makeCount[make]` |
| DataProcessing.AvgRangeByMakeSpec | app/utils/dataProcessing.js:39-45 | `min(10, number of makes)` entries; it is a prefix of the full ranking; each entry carries its make's average; makes are distinct; non-increasing averages |
| DataProcessing.AvgRangeByMakeIsTop | app/utils/dataProcessing.js:44-45 | no make left out has a higher average than one kept |
| DataProcessing.RankedTieInEntriesOrder | app/utils/dataProcessing.js:44 | the sort is stable: entries with equal averages keep `Object.entries` order |
| DataProcessing.KeysInFirstSeenOrder | app/utils/dataProcessing.js:28-39 | non-index makes come out of `Object.keys` in the order they are first met in the table |
| DataProcessing.EntriesBeforeKeysBefore | app/utils/dataProcessing.js:39-43 | the entries come in the order of their keys |
| DataProcessing.AvgRangeTieBreak | app/utils/dataProcessing.js:39-45 | two kept makes with equal averages (and non-index names) appear in first-seen order |
| DataProcessing.ChartSummary | app/utils/dataProcessing.js:1-62 | definition: the object `processChartData` returns, as a function of the table; `ChartSummaryCountsVinRecords` states its properties |
| DataProcessing.ProcessChartData | app/utils/dataProcessing.js:1-62 | the VIN filter, the five counting loops, the per-make loop and the ranking compute exactly `ChartSummary` |
| DataProcessing.ChartSummaryCountsVinRecords | app/utils/dataProcessing.js:2-26 | only records with a VIN count: the summary of the table equals that of its VIN records, and every count dictionary sums to their number |
| DataProcessing.RecordWithoutVinIgnored | app/utils/dataProcessing.js:2 | appending a record without a VIN changes no summary |
| DataProcessing.FieldValues | app/utils/dataProcessing.js:65 | definition: `data.map(item => item[key])`: one value per record, in order |
| DataProcessing.UniqueFieldValuesMembers | app/utils/dataProcessing.js:65 | a value is among the unique values exactly when some record has it |
| DataProcessing.GetUniqueValues | app/utils/dataProcessing.js:64-66 | definition: `[...new Set(data?.map(item => item[key]))]`, with `[]` for a missing table; `GetUniqueValuesSpec` states its properties |
| DataProcessing.GetUniqueValuesSpec | app/utils/dataProcessing.js:64-66 | no duplicates; exactly the values that occur; in first-occurrence order; empty for a missing table |
| JsString.ToJsString | app/utils/dataProcessing.js:6 | definition: the property name a value is filed under: the text itself, or "undefined" |
| JsString.ParseInt | app/utils/dataProcessing.js:30 | definition: ECMAScript `parseInt` with radix 10 or a `0x` prefix, `None` for `NaN`; `ParseIntOfDecimal`, `ParseIntSkipsWhiteSpace` and `ParseIntWithoutDigits` state its properties |
| JsString.ParseIntOrZero | app/utils/dataProcessing.js:30 | definition: `parseInt(s)`, with `NaN` read as 0; `ParseIntWithoutDigits` states that case |
| JsString.ParseIntOfDecimal | app/utils/dataProcessing.js:30 | `parseInt` reads back the decimal numeral of every integer and stops at the first non-digit |
| JsString.ParseIntSkipsWhiteSpace | app/utils/dataProcessing.js:30 | leading white space does not change what `parseInt` reads |
| JsString.ParseIntWithoutDigits | app/utils/dataProcessing.js:30 | text without digits ("", "abc", "undefined") is `NaN`, and `|| 0` makes it 0 |
| JsString.ToLowerCase | app/dashboard/page.jsx:76-77 | same length; no upper-case ASCII letter remains; every character is kept or lowered by 32 |
| JsString.ToLowerCaseIdempotent | app/dashboard/page.jsx:76-77 | lowercasing twice is lowercasing once |
| JsString.Includes | app/dashboard/page.jsx:76-77 | definition: `s.includes(t)`, some position of `s` where `t` occurs; `IncludesEmptyAndSelf` states its edge cases |
| JsString.IncludesEmptyAndSelf | app/dashboard/page.jsx:76-77 | every string includes the empty string and itself |
| JsString.Join | app/dashboard/page.jsx:93-99 | definition: `parts.join(sep)`; `SplitJoin` and `JoinWithout` state its properties |
| JsString.SplitJoin | app/dashboard/page.jsx:93-99 | `split` undoes `join` when no part holds the separator |
| JsString.JoinWithout | app/dashboard/page.jsx:93-99 | a join holds a character other than its separator only if some part does |
| JsonString.Quote | app/dashboard/page.jsx:96 | `JSON.stringify` of a string starts and ends with a double quote |
| JsonString.ReadQuoted | app/dashboard/page.jsx:96 | reading `JSON.stringify(t)` back gives `t` and what follows it |
| JsonString.QuoteHasNoControl | app/dashboard/page.jsx:96 | `JSON.stringify` of a string holds no control character, in particular no line feed |
| JsObject.Get | app/utils/dataProcessing.js:5 | definition: `o[k]` is defined exactly for own keys, with their value |
| JsObject.Put | app/utils/dataProcessing.js:6 | definition: `o[k] = v`: that value; an existing key keeps its place; a new key is created last |
| JsObject.Keys | app/dashboard/page.jsx:91 | definition: `Object.keys`, array-index keys ascending and then the rest in creation order; `KeysPermutation`, `KeysIndicesFirst`, `KeysOthersInCreationOrder` and `KeysWithoutArrayIndices` state its properties |
| JsObject.KeysWithoutArrayIndices | app/dashboard/page.jsx:129 | with no array-index key, `Object.keys` is exactly the creation order |
| JsObject.KeysPermutation | app/dashboard/page.jsx:91 | `Object.keys` lists every own key exactly once |
| JsObject.KeysIndicesFirst | app/dashboard/page.jsx:129 | array-index keys come first, in ascending numeric order |
| JsObject.KeysOthersInCreationOrder | app/dashboard/page.jsx:129 | the other keys keep their creation order |
| JsObject.Values | app/dashboard/page.jsx:133 | `Object.values`: the value of each key, in `Object.keys` order |
| JsObject.Entries | app/utils/dataProcessing.js:39 | `Object.entries`: each key with its value, in `Object.keys` order |
| JsArray.Filter | app/dashboard/page.jsx:70 | `filter` never lengthens its input |
| JsArray.FilterContains | app/dashboard/page.jsx:70-79 | an element is kept exactly when it is in the input and passes the test |
| JsArray.FilterIsSubsequence | app/dashboard/page.jsx:70-79 | `filter` keeps a subsequence, in its original order |
| JsArray.FilterFilter | app/dashboard/page.jsx:78 | filtering twice is filtering by the conjunction |
| JsArray.FilterIdempotent | app/utils/dataProcessing.js:2 | filtering twice by one test is filtering once |
| JsArray.SortBy | app/utils/dataProcessing.js:44 | the sort keeps the length; `SortByPermutation`, `SortBySorted` and `SortByStable` state the rest |
| JsArray.SortByPermutation | app/utils/dataProcessing.js:44 | the sort is a permutation |
| JsArray.SortBySorted | app/utils/dataProcessing.js:44 | the sort orders by the key |
| JsArray.SortByStable | app/utils/dataProcessing.js:44 | the sort keeps the order of elements with equal keys |
| JsArray.StableTie | app/utils/dataProcessing.js:44 | two elements with equal keys appear in the sorted list in the order they had before |
| JsArray.Slice | app/utils/dataProcessing.js:45 | `slice(0, n)` is the prefix of length `min(n, length)` |
| JsArray.Unique | app/utils/dataProcessing.js:65 | `[...new Set(xs)]` holds no duplicates, only elements of `xs` and every one of them |
| JsArray.UniqueFirstOccurrenceOrder | app/utils/dataProcessing.js:65 | `[...new Set(xs)]` lists the distinct values in first-occurrence order |
| Dashboard.MatchesMake | app/dashboard/page.jsx:71 | definition: an empty selection passes every record, otherwise the Make must equal it; `SelectionIsExact` and `EmptySelectionsMatchAll` state this |
| Dashboard.MatchesYear | app/dashboard/page.jsx:72-74 | definition: an empty selection passes every record, otherwise the Model Year must equal it; `SelectionIsExact` and `EmptySelectionsMatchAll` state this |
| Dashboard.MatchesSearch | app/dashboard/page.jsx:75-77 | definition: the lowered Make or Model includes the lowered term, a missing field never does; `EmptySearchTerm` and `SearchIgnoresCase` state its properties |
| Dashboard.Matches | app/dashboard/page.jsx:78 | definition: the conjunction of the three tests; `FilteredDataInAnyOrder` states that their order does not matter |
| Dashboard.FilteredData | app/dashboard/page.jsx:70-79 | definition: `data.filter(...)` with `Matches`; `FilteredDataSpec` states its properties |
| Dashboard.FilteredDataSpec | app/dashboard/page.jsx:70-79 | `filteredData` is an order-keeping subsequence of `data` holding exactly the records passing make, year and search |
| Dashboard.FilteredDataInAnyOrder | app/dashboard/page.jsx:78 | applying the three tests one after another, in any of the six orders, gives `filteredData` |
| Dashboard.EmptySelectionsMatchAll | app/dashboard/page.jsx:71-74 | empty make and year selections constrain nothing |
| Dashboard.SelectionIsExact | app/dashboard/page.jsx:71-74 | a chosen make or year is matched by exact, case-sensitive equality |
| Dashboard.EmptySearchTerm | app/dashboard/page.jsx:75-77 | with an empty term a record passes exactly when it has a Make or a Model |
| Dashboard.SearchIgnoresCase | app/dashboard/page.jsx:75-77 | the search ignores the case of the term, and finds a record by its own Make |
| Dashboard.UniqueMakes | app/dashboard/page.jsx:68 | definition: `getUniqueValues(data, "Make")` over the unfiltered table; `OptionsCoverFilteredData` and `ChartMakesAreOptions` state its properties |
| Dashboard.UniqueYears | app/dashboard/page.jsx:69 | definition: `getUniqueValues(data, "Model Year")` over the unfiltered table; `OptionsCoverFilteredData` states its properties |
| Dashboard.OptionsCoverFilteredData | app/dashboard/page.jsx:68-79 | the options come from the unfiltered data: every shown record's Make and Model Year are options |
| Dashboard.ChartMakesAreOptions | app/dashboard/page.jsx:68-88 | every make a chart counts, under any selection, is `String(v)` of some value `v` of the make option list |
| Dashboard.Render | app/dashboard/page.jsx:68-137 | definition: what the page shows, with the city chart as the page builds it (`TopCitiesAsWritten`); `ChartMakesAreOptions` states a property of it |
| Dashboard.RenderCorrected | app/dashboard/page.jsx:68-137 | definition: the same view with the corrected city chart (`TopCities`) |
| Dashboard.TopCitiesAsWritten | app/dashboard/page.jsx:128-137 | definition: the first ten keys and values of `cityCount`; `TopCitiesAsWrittenSpec` and `TopCitiesAsWrittenFirstMet` state its properties |
| Dashboard.TopCitiesAsWrittenSpec | app/dashboard/page.jsx:128-137 | labels and values have equal length `min(10, number of cities)` and are the first ten keys of `cityCount` with their counts |
| Dashboard.TopCitiesAsWrittenFirstMet | app/dashboard/page.jsx:129-133 | without array-index keys, for any number of cities, the labels are the first ten cities in creation order, each value is that city's count, and no city created after the tenth is shown, whatever its count |
| Dashboard.TopCitiesAsWrittenMissesLargest | app/dashboard/page.jsx:128-137 | for `ElevenCities` the series leaves out the city with 50 vehicles while every city it shows has fewer |
| Dashboard.ElevenCities | app/dashboard/page.jsx:128-137 | definition: the counterexample's cities, in first-seen order, with their counts |
| Dashboard.TopCities | app/dashboard/page.jsx:128-137 | definition: the corrected series, cities ranked by count and the first ten kept; `TopCitiesSpec` and `TopCitiesIsTop` state its properties |
| Dashboard.RankedCitiesSpec | app/dashboard/page.jsx:128-137 | the corrected ranking lists every city once with its count, counts non-increasing |
| Dashboard.RankedCitiesComplete | app/dashboard/page.jsx:128-137 | every city appears in the corrected ranking |
| Dashboard.TopCitiesSpec | app/dashboard/page.jsx:128-137 | about the corrected series: `min(10, number of cities)` distinct cities; each city with its count; counts non-increasing |
| Dashboard.TopCitiesIsTop | app/dashboard/page.jsx:128-137 | no city left out of the corrected series has more vehicles than one shown |
| Dashboard.TopCitiesLeadsWithMaximum | app/dashboard/page.jsx:128-137 | a city with strictly the most vehicles heads the corrected series |
| Dashboard.TopCitiesFindsLargest | app/dashboard/page.jsx:128-137 | the corrected series for `ElevenCities` starts with the city the as-written one omits |
| Dashboard.RowValues | app/dashboard/page.jsx:95-96 | definition: one value per header, in header order: the record's value, or "" for a missing field |
| Dashboard.QuoteAll | app/dashboard/page.jsx:96 | definition: each value passed through `JSON.stringify` |
| Dashboard.CsvRow | app/dashboard/page.jsx:94-98 | definition: one data line, the quoted values joined by ","; `CsvRowRoundTrip` and `CsvRowHasNoNewline` state its properties |
| Dashboard.CsvLines | app/dashboard/page.jsx:92-99 | one header line plus one line per record |
| Dashboard.CsvContent | app/dashboard/page.jsx:90-99 | fails exactly when `filteredData` is empty (`Object.keys(undefined)` throws) |
| Dashboard.CsvRowHasNoNewline | app/dashboard/page.jsx:94-98 | a data line never holds a line feed |
| Dashboard.CsvLinesSpec | app/dashboard/page.jsx:91-99 | when no column name holds a line feed, splitting the text at line feeds gives: `filteredData.length + 1` lines; the first line is the keys of `filteredData[0]` joined by ","; then one line per record |
| Dashboard.CsvHeaderLine | app/dashboard/page.jsx:91-93 | when no column name holds a comma, the header line splits back into the keys of `filteredData[0]`, in `Object.keys` order |
| Dashboard.ReadQuotedRow | app/dashboard/page.jsx:95-97 | a comma-joined row of quoted values reads back as exactly those values |
| Dashboard.CsvRowRoundTrip | app/dashboard/page.jsx:94-98 | each data line reads back as one field per header, in header order, with "" for a missing field |

## Left out

- `app/api/csv/route.js` is not part of this model. It covers file access, CSV parsing by an external library and HTTP responses.
  - The route returns the parsed array itself, while the page reads a `.data` property of the response (app/dashboard/page.jsx:42). The model takes the record table as a parameter and does not model this mismatch.
- The fetch and stream-reading loop of the page (app/dashboard/page.jsx:16-50) is network I/O and is left out. So are its `page` and `pageSize` query parameters, which the route ignores.
- React state, the JSX markup and the rendering of the other charts are left out. The makes, EV types, years and CAFV series are `Object.keys`/`Object.values` of the modelled dictionaries.
- The download half of `exportToCSV` is left out (app/dashboard/page.jsx:101-111). This covers the Blob, the object URL and the link click.
- `app/dashboard/components/ChartCard.jsx` and `app/dashboard/components/Card.jsx` are presentational UI over external libraries, and are left out.
- Averages are exact rationals, not IEEE doubles. Rounding in `total / count` is not modelled.
- JsString.ToLowerCase: maps only ASCII letters, because full Unicode case mapping needs tables outside this model.
- JsonString.Quote: Dafny characters are Unicode scalar values, so the lone-surrogate escape branch of QuoteJSONString cannot arise and is absent.
- JsString.ParseInt: yields the exact integer of the digit prefix. A double would round it above 2^53.
- Count dictionaries model own properties only. Keys inherited from `Object.prototype`, such as "constructor" or "__proto__", would behave differently in JavaScript.
- A missing field and a field holding the text "undefined" share one count. The model has this collision as the source does and states it in `MissingFieldCountedAsUndefined`.
- Records hold text values only, as a CSV parser without type conversion produces. Other value types are not modelled.
- DataProcessing.AvgRangeTieBreak: proved only for makes whose names are not array-index strings. `Object.keys` moves such keys to the front, so first-seen order does not hold for them.

## Findings

| source | as written | input that shows it | evidently intended | confidence | as-written member | corrected member |
|---|---|---|---|---|---|---|
| app/dashboard/page.jsx:128-137 | the chart titled "Top 10 Cities with EVs" (line 233) shows `Object.keys(cityCount).slice(0, 10)` and `Object.values(cityCount).slice(0, 10)`: the first ten cities met, whatever their counts | `cityCount` with eleven cities where the eleventh, Vancouver, has 50 vehicles and each of the others 1 (`Dashboard.ElevenCities`): Vancouver is not shown | the ten cities with the most vehicles, most first | not executed; high that the series ignores counts, medium that a ranking was intended | Dashboard.TopCitiesAsWrittenMissesLargest | Dashboard.TopCitiesIsTop |

The as-written series is `Dashboard.TopCitiesAsWritten`, with `Dashboard.TopCitiesAsWrittenSpec` stating what it does. The corrected series is `Dashboard.TopCities`. It ranks `Object.entries(cityCount)` by count, descending and stably, and keeps the first ten. `Dashboard.TopCitiesSpec`, `Dashboard.TopCitiesIsTop` and `Dashboard.TopCitiesLeadsWithMaximum` state its properties. `Dashboard.Render` is the page as written, with `TopCitiesAsWritten`. `Dashboard.RenderCorrected` is the same view with the corrected series.
