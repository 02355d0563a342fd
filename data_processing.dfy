/** The aggregation engine of the dashboard (`processChartData` and `getUniqueValues`):
    a vehicle record table becomes five category counts and a ranking of makes by
    average electric range. */
module DataProcessing {
  import opened Wrappers
  import opened JsArray
  import opened JsObject
  import JsString

  /** One row of the vehicle table: field name to text, in column order. */
  type Record = Object<string>

  const VinField := "VIN (1-10)"
  const MakeField := "Make"
  const ModelField := "Model"
  const EvTypeField := "Electric Vehicle Type"
  const CityField := "City"
  const ModelYearField := "Model Year"
  const ElectricRangeField := "Electric Range"
  const CafvField := "Clean Alternative Fuel Vehicle (CAFV) Eligibility"

  // ---------------------------------------------------------------------------
  // The VIN filter

  /** `item["VIN (1-10)"]` is truthy: the field is present and not the empty string. */
  predicate HasVin(r: Record) {
    match Get(r, VinField)
    case Some(v) => v != ""
    case None => false
  }

  /** `data.filter(item => item["VIN (1-10)"])` */
  function CleanData(data: seq<Record>): seq<Record> {
    Filter(data, HasVin)
  }

  // ---------------------------------------------------------------------------
  // Counting reductions: `acc[key] = (acc[key] || 0) + 1`

  /** The property name under which `acc[item[field]]` files a record: its value, or
      "undefined" when the field is missing. */
  function CategoryKey(r: Record, field: string): string {
    JsString.ToJsString(Get(r, field))
  }

  /** The category key of every record, in table order. */
  function CategoryKeys(d: seq<Record>, field: string): (ks: seq<string>)
    ensures |ks| == |d|
    ensures forall i :: 0 <= i < |d| ==> ks[i] == CategoryKey(d[i], field)
  {
    seq(|d|, i requires 0 <= i < |d| => CategoryKey(d[i], field))
  }

  /** `r => String(r[field]) === k` */
  function HasKey(field: string, k: string): Record -> bool {
    (r: Record) => CategoryKey(r, field) == k
  }

  /** One step of the counting reduce: `acc[k] = (acc[k] || 0) + 1`. */
  function Increment(acc: Object<nat>, k: string): Object<nat> {
    Put(acc, k, Get(acc, k).GetOr(0) + 1)
  }

  /** The counting reduce over a sequence of keys, starting from `{}`. */
  function Tally(keys: seq<string>): Object<nat> {
    if keys == [] then Empty()
    else Increment(Tally(keys[..|keys| - 1]), keys[|keys| - 1])
  }

  /** The count dictionary `cleanData.reduce(...)` builds for `field`. */
  function CountBy(d: seq<Record>, field: string): Object<nat> {
    Tally(CategoryKeys(d, field))
  }

  lemma TallySnoc(keys: seq<string>, k: string)
    ensures Tally(keys + [k]) == Increment(Tally(keys), k)
  {
    assert (keys + [k])[..|keys|] == keys;
  }

  lemma CategoryKeysSnoc(d: seq<Record>, n: nat, field: string)
    requires n < |d|
    ensures CategoryKeys(d[..n + 1], field) == CategoryKeys(d[..n], field) + [CategoryKey(d[n], field)]
  {
  }

  /** The counting reduce, as the loop that performs it. */
  method CountByLoop(data: seq<Record>, field: string) returns (acc: Object<nat>)
    ensures acc == CountBy(data, field)
  {
    acc := Empty();
    var i := 0;
    while i < |data|
      invariant 0 <= i <= |data|
      invariant acc == CountBy(data[..i], field)
    {
      var key := CategoryKey(data[i], field);
      CategoryKeysSnoc(data, i, field);
      TallySnoc(CategoryKeys(data[..i], field), key);
      acc := Increment(acc, key);
      i := i + 1;
    }
    assert data[..i] == data;
  }

  /** Each key is counted as often as it occurs, and no key that does not occur is present. */
  lemma {:induction false} TallyCounts(keys: seq<string>)
    ensures forall k :: Get(Tally(keys), k).GetOr(0) == multiset(keys)[k]
    ensures forall k :: k in Tally(keys).props <==> k in keys
  {
    if keys != [] {
      var front := keys[..|keys| - 1];
      TallyCounts(front);
      assert keys == front + [keys[|keys| - 1]];
    }
  }

  /** The count dictionary creates its keys in the order the keys first occur. */
  lemma {:induction false} TallyOrder(keys: seq<string>)
    ensures Tally(keys).insertion == Unique(keys)
  {
    if keys != [] {
      var front := keys[..|keys| - 1];
      var last := keys[|keys| - 1];
      TallyOrder(front);
      TallyCounts(front);
      assert last in Tally(front).props <==> last in Unique(front);
    }
  }

  lemma {:induction false} KeysMultisetCount(d: seq<Record>, field: string, k: string)
    ensures multiset(CategoryKeys(d, field))[k] == |Filter(d, HasKey(field, k))|
  {
    if d != [] {
      KeysMultisetCount(d[1..], field, k);
      assert CategoryKeys(d, field) == [CategoryKey(d[0], field)] + CategoryKeys(d[1..], field);
    }
  }

  /** Exact counts: the count under `k` is the number of records filed under `k`
      (0 and absent when there are none); the keys are exactly the values that occur,
      created in first-seen order. */
  lemma CountByExact(d: seq<Record>, field: string)
    ensures forall k :: Get(CountBy(d, field), k).GetOr(0) == |Filter(d, HasKey(field, k))|
    ensures CountBy(d, field).props.Keys == set r | r in d :: CategoryKey(r, field)
    ensures CountBy(d, field).insertion == Unique(CategoryKeys(d, field))
  {
    var ks := CategoryKeys(d, field);
    TallyCounts(ks);
    TallyOrder(ks);
    forall k ensures Get(CountBy(d, field), k).GetOr(0) == |Filter(d, HasKey(field, k))| {
      KeysMultisetCount(d, field, k);
    }
    forall k ensures k in CountBy(d, field).props <==> k in set r | r in d :: CategoryKey(r, field) {
      if k in ks {
        var i :| 0 <= i < |ks| && ks[i] == k;
        assert d[i] in d;
      }
    }
  }

  /** A record without the field is not skipped: it is counted under "undefined", together
      with any record whose value is the text "undefined". */
  lemma MissingFieldCountedAsUndefined(d: seq<Record>, field: string, r: Record)
    requires r in d && field !in r.props
    ensures "undefined" in CountBy(d, field).props
  {
    CountByExact(d, field);
    assert CategoryKey(r, field) == "undefined";
  }

  // ---------------------------------------------------------------------------
  // Sums of counts

  function SumOver(ks: seq<string>, m: map<string, nat>): nat
    requires forall k :: k in ks ==> k in m
  {
    if ks == [] then 0 else m[ks[0]] + SumOver(ks[1..], m)
  }

  /** The sum of all the values of a count dictionary. */
  function Total(o: Object<nat>): nat {
    SumOver(o.insertion, o.props)
  }

  lemma {:induction false} SumOverAppend(a: seq<string>, b: seq<string>, m: map<string, nat>)
    requires forall k :: k in a + b ==> k in m
    ensures SumOver(a + b, m) == SumOver(a, m) + SumOver(b, m)
  {
    if a != [] {
      assert (a + b)[1..] == a[1..] + b;
      SumOverAppend(a[1..], b, m);
    } else {
      assert a + b == b;
    }
  }

  lemma {:induction false} SumOverOther(ks: seq<string>, m: map<string, nat>, k: string, v: nat)
    requires forall x :: x in ks ==> x in m
    requires k !in ks
    ensures SumOver(ks, m[k := v]) == SumOver(ks, m)
  {
    if ks != [] {
      SumOverOther(ks[1..], m, k, v);
    }
  }

  lemma {:induction false} SumOverIncrement(ks: seq<string>, m: map<string, nat>, k: string)
    requires forall x :: x in ks ==> x in m
    requires Distinct(ks) && k in ks
    ensures SumOver(ks, m[k := m[k] + 1]) == SumOver(ks, m) + 1
  {
    assert ks == [ks[0]] + ks[1..];
    assert Distinct(ks[1..]) by {
      forall i, j | 0 <= i < j < |ks[1..]| ensures ks[1..][i] != ks[1..][j] {
        assert ks[i + 1] != ks[j + 1];
      }
    }
    if ks[0] == k {
      assert k !in ks[1..];
      SumOverOther(ks[1..], m, k, m[k] + 1);
    } else {
      SumOverIncrement(ks[1..], m, k);
    }
  }

  /** One counting step adds exactly 1 to the sum of the counts. */
  lemma IncrementTotal(acc: Object<nat>, k: string)
    ensures Total(Increment(acc, k)) == Total(acc) + 1
  {
    if k in acc.props {
      SumOverIncrement(acc.insertion, acc.props, k);
    } else {
      var m := acc.props[k := 1];
      SumOverAppend(acc.insertion, [k], m);
      SumOverOther(acc.insertion, acc.props, k, 1);
      assert [k][1..] == [];
    }
  }

  /** The values of the count dictionary add up to the number of keys counted. */
  lemma {:induction false} TallyTotal(keys: seq<string>)
    ensures Total(Tally(keys)) == |keys|
  {
    if keys != [] {
      var front := keys[..|keys| - 1];
      TallyTotal(front);
      IncrementTotal(Tally(front), keys[|keys| - 1]);
    }
  }

  /** The values of every count dictionary add up to the number of records counted. */
  lemma CountByTotal(d: seq<Record>, field: string)
    ensures Total(CountBy(d, field)) == |d|
  {
    TallyTotal(CategoryKeys(d, field));
  }

  // ---------------------------------------------------------------------------
  // Electric range per make: `acc[make].total += range; acc[make].count += 1`

  /** The running `{ total, count }` of one make. */
  datatype RangeTotal = RangeTotal(total: int, count: nat)

  /** `parseInt(item["Electric Range"]) || 0` */
  function RangeValue(r: Record): int {
    JsString.ParseIntOrZero(JsString.ToJsString(Get(r, ElectricRangeField)))
  }

  /** The running totals of `make`, `{ total: 0, count: 0 }` when it has none yet. */
  function Current(acc: Object<RangeTotal>, make: string): RangeTotal {
    Get(acc, make).GetOr(RangeTotal(0, 0))
  }

  /** One step of the per-make reduce: `range` added to the total of `make`, 1 to its count. */
  function AddRange(acc: Object<RangeTotal>, make: string, range: int): Object<RangeTotal> {
    var cur := Current(acc, make);
    Put(acc, make, RangeTotal(cur.total + range, cur.count + 1))
  }

  /** The reduce that builds `electricRangeByMake`, starting from `{}`. */
  function RangeByMake(d: seq<Record>): (acc: Object<RangeTotal>)
    ensures forall k :: k in acc.props ==> acc.props[k].count > 0
  {
    if d == [] then Empty()
    else
      var r := d[|d| - 1];
      AddRange(RangeByMake(d[..|d| - 1]), CategoryKey(r, MakeField), RangeValue(r))
  }

  lemma RangeByMakeSnoc(d: seq<Record>, n: nat)
    requires n < |d|
    ensures RangeByMake(d[..n + 1]) == AddRange(RangeByMake(d[..n]), CategoryKey(d[n], MakeField), RangeValue(d[n]))
  {
    assert d[..n + 1][..n] == d[..n];
  }

  /** The body of the per-make reduce: create `{ total: 0, count: 0 }` for a new make,
      then add the range to its total and 1 to its count. */
  method AddRangeStep(acc: Object<RangeTotal>, make: string, range: int) returns (acc': Object<RangeTotal>)
    ensures acc' == AddRange(acc, make, range)
  {
    acc' := acc;
    if make !in acc'.props {
      acc' := Put(acc', make, RangeTotal(0, 0));
      PutTwice(acc, make, RangeTotal(0, 0), RangeTotal(range, 1));
    }
    var cur := acc'.props[make];
    acc' := Put(acc', make, RangeTotal(cur.total + range, cur.count + 1));
  }

  /** The per-make reduce, as the loop that performs it. */
  method RangeByMakeLoop(data: seq<Record>) returns (acc: Object<RangeTotal>)
    ensures acc == RangeByMake(data)
  {
    acc := Empty();
    var i := 0;
    while i < |data|
      invariant 0 <= i <= |data|
      invariant acc == RangeByMake(data[..i])
    {
      var make := CategoryKey(data[i], MakeField);
      var range := RangeValue(data[i]);
      RangeByMakeSnoc(data, i);
      acc := AddRangeStep(acc, make, range);
      i := i + 1;
    }
    assert data[..i] == data;
  }

  /** What one step of the per-make reduce does to the totals of any make `k`. */
  lemma AddRangeCurrent(acc: Object<RangeTotal>, make: string, range: int, k: string)
    ensures Current(AddRange(acc, make, range), k) ==
              if k == make then RangeTotal(Current(acc, k).total + range, Current(acc, k).count + 1)
              else Current(acc, k)
  {
  }

  /** What one counting step does to the count of any key `k`. */
  lemma IncrementGet(acc: Object<nat>, make: string, k: string)
    ensures Get(Increment(acc, make), k).GetOr(0) == Get(acc, k).GetOr(0) + (if k == make then 1 else 0)
  {
  }

  /** The per-make reduce and the make count create their keys alike. */
  lemma StepInsertion(acc: Object<RangeTotal>, counts: Object<nat>, make: string, range: int)
    requires acc.insertion == counts.insertion
    ensures AddRange(acc, make, range).insertion == Increment(counts, make).insertion
  {
    assert make in acc.props <==> make in counts.props;
  }

  lemma {:induction false} RangeByMakeFollowsMakeCount(d: seq<Record>)
    ensures RangeByMake(d).insertion == CountBy(d, MakeField).insertion
    ensures forall k :: Current(RangeByMake(d), k).count == Get(CountBy(d, MakeField), k).GetOr(0)
  {
    if d != [] {
      var n := |d| - 1;
      var make := CategoryKey(d[n], MakeField);
      RangeByMakeFollowsMakeCount(d[..n]);
      CategoryKeysSnoc(d, n, MakeField);
      TallySnoc(CategoryKeys(d[..n], MakeField), make);
      RangeByMakeSnoc(d, n);
      assert d[..n + 1] == d;
      StepInsertion(RangeByMake(d[..n]), CountBy(d[..n], MakeField), make, RangeValue(d[n]));
      forall k ensures Current(RangeByMake(d), k).count == Get(CountBy(d, MakeField), k).GetOr(0) {
        AddRangeCurrent(RangeByMake(d[..n]), make, RangeValue(d[n]), k);
        IncrementGet(CountBy(d[..n], MakeField), make, k);
      }
    }
  }

  /** The per-make accumulator has exactly the keys of `makeCount`, created in the same
      order, and each count is the make's count in `makeCount`. */
  lemma RangeByMakeMatchesMakeCount(d: seq<Record>)
    ensures RangeByMake(d).insertion == CountBy(d, MakeField).insertion
    ensures RangeByMake(d).props.Keys == CountBy(d, MakeField).props.Keys
    ensures forall k :: k in RangeByMake(d).props ==>
              RangeByMake(d).props[k].count == CountBy(d, MakeField).props[k] >= 1
  {
    RangeByMakeFollowsMakeCount(d);
    forall k | k in RangeByMake(d).props
      ensures RangeByMake(d).props[k].count == CountBy(d, MakeField).props[k]
    {
      assert Current(RangeByMake(d), k).count == Get(CountBy(d, MakeField), k).GetOr(0);
    }
  }

  /** The sum of the parsed ranges of some records. */
  function SumRanges(rs: seq<Record>): int {
    if rs == [] then 0 else RangeValue(rs[0]) + SumRanges(rs[1..])
  }

  lemma {:induction false} SumRangesAppend(a: seq<Record>, b: seq<Record>)
    ensures SumRanges(a + b) == SumRanges(a) + SumRanges(b)
  {
    if a == [] {
      assert a + b == b;
    } else {
      assert (a + b)[1..] == a[1..] + b;
      SumRangesAppend(a[1..], b);
    }
  }

  lemma SumRangesOfMakeSnoc(d: seq<Record>, n: nat, k: string)
    requires n < |d|
    ensures SumRanges(Filter(d[..n + 1], HasKey(MakeField, k))) ==
              SumRanges(Filter(d[..n], HasKey(MakeField, k))) + (if CategoryKey(d[n], MakeField) == k then RangeValue(d[n]) else 0)
  {
    var p := HasKey(MakeField, k);
    var front, r := d[..n], d[n];
    assert d[..n + 1] == front + [r];
    FilterSnoc(front, r, p);
    SumRangesAppend(Filter(front, p), if p(r) then [r] else []);
    assert SumRanges([r]) == RangeValue(r) by {
      assert [r][1..] == [];
    }
  }

  /** The total of every make is the sum of the parsed ranges of its records (0 for a make
      without records). */
  lemma {:induction false} RangeByMakeTotals(d: seq<Record>, k: string)
    ensures Current(RangeByMake(d), k).total == SumRanges(Filter(d, HasKey(MakeField, k)))
  {
    if d != [] {
      var n := |d| - 1;
      assert d[..n + 1] == d;
      RangeByMakeTotals(d[..n], k);
      RangeByMakeSnoc(d, n);
      AddRangeCurrent(RangeByMake(d[..n]), CategoryKey(d[n], MakeField), RangeValue(d[n]), k);
      SumRangesOfMakeSnoc(d, n, k);
    }
  }

  /** A record whose Electric Range does not parse adds 0 to its make's total and still
      adds 1 to its count. */
  lemma NonNumericRange(d: seq<Record>, r: Record)
    requires JsString.ParseInt(JsString.ToJsString(Get(r, ElectricRangeField))) == None
    ensures var make := CategoryKey(r, MakeField);
            var before := RangeByMake(d);
            var after := RangeByMake(d + [r]);
            && make in after.props
            && after.props[make].total == (if make in before.props then before.props[make].total else 0)
            && after.props[make].count == (if make in before.props then before.props[make].count else 0) + 1
  {
    RangeByMakeSnoc(d + [r], |d|);
    assert (d + [r])[..|d|] == d;
    assert (d + [r])[..|d| + 1] == d + [r];
  }

  // ---------------------------------------------------------------------------
  // The ranking: entries -> map -> sort -> slice(0, 10)

  /** `{ make, avgRange }`, with the average as an exact rational. */
  datatype MakeRange = MakeRange(make: string, avgRange: real)

  /** `Object.entries(acc).map(([make, data]) => ({ make, avgRange: data.total / data.count }))` */
  function Averages(o: Object<RangeTotal>): (r: seq<MakeRange>)
    requires forall k :: k in o.props ==> o.props[k].count > 0
    ensures |r| == |Keys(o)|
    ensures forall i :: 0 <= i < |r| ==>
              && r[i].make == Keys(o)[i] && r[i].make in o.props
              && r[i].avgRange == o.props[r[i].make].total as real / o.props[r[i].make].count as real
  {
    var es := Entries(o);
    seq(|es|, i requires 0 <= i < |es| => MakeRange(es[i].0, es[i].1.total as real / es[i].1.count as real))
  }

  /** The comparator `(a, b) => b.avgRange - a.avgRange` orders by this key ascending. */
  function ByAverageDescending(e: MakeRange): real {
    -e.avgRange
  }

  /** Every make, ranked by average range, highest first; ties keep `Object.entries` order. */
  function RankedMakes(d: seq<Record>): seq<MakeRange> {
    SortBy(Averages(RangeByMake(d)), ByAverageDescending)
  }

  /** `avgElectricRangeByMake`: the first ten of the ranking. */
  function AvgRangeByMake(d: seq<Record>): seq<MakeRange> {
    Slice(RankedMakes(d), 10)
  }

  /** The average of a make, from its accumulator. */
  function AverageOf(d: seq<Record>, make: string): real
    requires make in RangeByMake(d).props
  {
    RangeByMake(d).props[make].total as real / RangeByMake(d).props[make].count as real
  }

  /** The ranking is a permutation of the entries. */
  lemma RankedMakesPermutation(d: seq<Record>)
    ensures multiset(RankedMakes(d)) == multiset(Averages(RangeByMake(d)))
    ensures |RankedMakes(d)| == |CountBy(d, MakeField).props|
  {
    var acc := RangeByMake(d);
    var avgs := Averages(acc);
    RangeByMakeMatchesMakeCount(d);
    KeysPermutation(acc);
    KeysPermutation(CountBy(d, MakeField));
    SortByPermutation(avgs, ByAverageDescending);
    assert |multiset(RankedMakes(d))| == |multiset(avgs)|;
  }

  /** Every entry of the ranking is a make with its own average. */
  lemma RankedMakesEntries(d: seq<Record>)
    ensures forall i :: 0 <= i < |RankedMakes(d)| ==>
              RankedMakes(d)[i].make in RangeByMake(d).props &&
              RankedMakes(d)[i].avgRange == AverageOf(d, RankedMakes(d)[i].make)
  {
    var ranked := RankedMakes(d);
    var avgs := Averages(RangeByMake(d));
    RankedMakesPermutation(d);
    forall i | 0 <= i < |ranked|
      ensures ranked[i].make in RangeByMake(d).props && ranked[i].avgRange == AverageOf(d, ranked[i].make)
    {
      assert ranked[i] in multiset(avgs);
    }
  }

  /** The entries name each key of the accumulator once. */
  lemma AveragesMakesDistinct(o: Object<RangeTotal>)
    requires forall k :: k in o.props ==> o.props[k].count > 0
    ensures forall a, b :: 0 <= a < b < |Averages(o)| ==> Averages(o)[a].make != Averages(o)[b].make
  {
    KeysPermutation(o);
  }

  /** Every make appears in the ranking. */
  lemma RankedMakesComplete(d: seq<Record>, k: string)
    requires k in RangeByMake(d).props
    ensures exists i :: 0 <= i < |RankedMakes(d)| && RankedMakes(d)[i].make == k
  {
    var acc := RangeByMake(d);
    var avgs := Averages(acc);
    RankedMakesPermutation(d);
    KeysPermutation(acc);
    var j :| 0 <= j < |Keys(acc)| && Keys(acc)[j] == k;
    PermutationKeepsImage(avgs, RankedMakes(d), (e: MakeRange) => e.make, j);
  }

  /** No two entries of the ranking name the same make, and averages never increase. */
  lemma RankedMakesDistinctSorted(d: seq<Record>)
    ensures forall i, j :: 0 <= i < j < |RankedMakes(d)| ==>
              RankedMakes(d)[i].make != RankedMakes(d)[j].make &&
              RankedMakes(d)[i].avgRange >= RankedMakes(d)[j].avgRange
  {
    var avgs := Averages(RangeByMake(d));
    SortBySorted(avgs, ByAverageDescending);
    RankedMakesPermutation(d);
    AveragesMakesDistinct(RangeByMake(d));
    PermutationKeepsImagesDistinct(avgs, RankedMakes(d), (e: MakeRange) => e.make);
  }

  /** The full ranking lists every make once, with its average, highest average first. */
  lemma RankedMakesSpec(d: seq<Record>)
    ensures |RankedMakes(d)| == |CountBy(d, MakeField).props|
    ensures forall i :: 0 <= i < |RankedMakes(d)| ==>
              RankedMakes(d)[i].make in RangeByMake(d).props &&
              RankedMakes(d)[i].avgRange == AverageOf(d, RankedMakes(d)[i].make)
    ensures forall k :: k in RangeByMake(d).props ==> exists i :: 0 <= i < |RankedMakes(d)| && RankedMakes(d)[i].make == k
    ensures forall i, j :: 0 <= i < j < |RankedMakes(d)| ==>
              RankedMakes(d)[i].make != RankedMakes(d)[j].make &&
              RankedMakes(d)[i].avgRange >= RankedMakes(d)[j].avgRange
  {
    RankedMakesPermutation(d);
    RankedMakesEntries(d);
    forall k | k in RangeByMake(d).props ensures exists i :: 0 <= i < |RankedMakes(d)| && RankedMakes(d)[i].make == k {
      RankedMakesComplete(d, k);
    }
    RankedMakesDistinctSorted(d);
  }

  /** The average of a make is the sum of the parsed ranges of its records divided by
      its `makeCount`. */
  lemma AverageOfSpec(d: seq<Record>, make: string)
    requires make in CountBy(d, MakeField).props
    ensures make in RangeByMake(d).props && CountBy(d, MakeField).props[make] > 0
    ensures AverageOf(d, make) ==
              SumRanges(Filter(d, HasKey(MakeField, make))) as real / CountBy(d, MakeField).props[make] as real
  {
    RangeByMakeMatchesMakeCount(d);
    RangeByMakeTotals(d, make);
  }

  /** `avgElectricRangeByMake` has `min(10, number of makes)` entries with distinct makes,
      each carrying its make's average, highest average first. */
  lemma AvgRangeByMakeSpec(d: seq<Record>)
    ensures var n := |CountBy(d, MakeField).props|;
            |AvgRangeByMake(d)| == if n < 10 then n else 10
    ensures forall i :: 0 <= i < |AvgRangeByMake(d)| ==> AvgRangeByMake(d)[i] == RankedMakes(d)[i]
    ensures forall i :: 0 <= i < |AvgRangeByMake(d)| ==>
              && AvgRangeByMake(d)[i].make in RangeByMake(d).props
              && AvgRangeByMake(d)[i].avgRange == AverageOf(d, AvgRangeByMake(d)[i].make)
    ensures forall i, j :: 0 <= i < j < |AvgRangeByMake(d)| ==>
              AvgRangeByMake(d)[i].make != AvgRangeByMake(d)[j].make &&
              AvgRangeByMake(d)[i].avgRange >= AvgRangeByMake(d)[j].avgRange
  {
    RankedMakesSpec(d);
  }

  /** No make left out of `avgElectricRangeByMake` has a higher average than one in it. */
  lemma AvgRangeByMakeIsTop(d: seq<Record>, k: string)
    requires k in RangeByMake(d).props
    requires forall i :: 0 <= i < |AvgRangeByMake(d)| ==> AvgRangeByMake(d)[i].make != k
    ensures forall i :: 0 <= i < |AvgRangeByMake(d)| ==> AverageOf(d, k) <= AvgRangeByMake(d)[i].avgRange
  {
    RankedMakesSpec(d);
    var ranked := RankedMakes(d);
    var j :| 0 <= j < |ranked| && ranked[j].make == k;
    assert j >= |AvgRangeByMake(d)|;
  }

  // ---------------------------------------------------------------------------
  // Tie-break order

  /** The make keys of the records, in table order. */
  function MakeKeys(d: seq<Record>): seq<string> {
    CategoryKeys(d, MakeField)
  }

  /** The sort is stable: two entries of the ranking with equal averages come in
      `Object.entries` order. */
  lemma RankedTieInEntriesOrder(d: seq<Record>, e1: MakeRange, e2: MakeRange)
    requires Before(RankedMakes(d), e1, e2) && e1.avgRange == e2.avgRange
    ensures Before(Averages(RangeByMake(d)), e1, e2)
  {
    RangeByMakeMatchesMakeCount(d);
    StableTie(Averages(RangeByMake(d)), ByAverageDescending, e1, e2);
  }

  /** Keys of the per-make accumulator that are not array indices come out of
      `Object.keys` in the order their makes are first met in the table. */
  lemma KeysInFirstSeenOrder(d: seq<Record>, m1: string, m2: string)
    requires Before(Keys(RangeByMake(d)), m1, m2)
    requires !IsArrayIndex(m1) && !IsArrayIndex(m2)
    ensures m1 in MakeKeys(d) && m2 in MakeKeys(d)
    ensures FirstIndex(MakeKeys(d), m1) < FirstIndex(MakeKeys(d), m2)
  {
    var acc := RangeByMake(d);
    RangeByMakeMatchesMakeCount(d);
    CountByExact(d, MakeField);
    BeforeInFilter(Keys(acc), Not(IsArrayIndex), m1, m2);
    KeysOthersInCreationOrder(acc);
    BeforeFromFilter(acc.insertion, Not(IsArrayIndex), m1, m2);
    var u := Unique(MakeKeys(d));
    var p, q :| 0 <= p < q < |u| && u[p] == m1 && u[q] == m2;
    UniqueFirstOccurrenceOrder(MakeKeys(d));
  }

  /** The entries come in the order of their keys. */
  lemma EntriesBeforeKeysBefore(o: Object<RangeTotal>, e1: MakeRange, e2: MakeRange)
    requires forall k :: k in o.props ==> o.props[k].count > 0
    requires Before(Averages(o), e1, e2)
    ensures Before(Keys(o), e1.make, e2.make)
  {
    var avgs := Averages(o);
    var a, b :| 0 <= a < b < |avgs| && avgs[a] == e1 && avgs[b] == e2;
    assert Keys(o)[a] == e1.make && Keys(o)[b] == e2.make;
  }

  /** For two entries of `avgElectricRangeByMake` with equal averages whose makes are not
      array-index strings, the make met first in the table comes first. */
  lemma AvgRangeTieBreak(d: seq<Record>, i: nat, j: nat)
    requires i < j < |AvgRangeByMake(d)|
    requires AvgRangeByMake(d)[i].avgRange == AvgRangeByMake(d)[j].avgRange
    requires !IsArrayIndex(AvgRangeByMake(d)[i].make) && !IsArrayIndex(AvgRangeByMake(d)[j].make)
    ensures AvgRangeByMake(d)[i].make in MakeKeys(d) && AvgRangeByMake(d)[j].make in MakeKeys(d)
    ensures FirstIndex(MakeKeys(d), AvgRangeByMake(d)[i].make) < FirstIndex(MakeKeys(d), AvgRangeByMake(d)[j].make)
  {
    var ranked := RankedMakes(d);
    var e1, e2 := ranked[i], ranked[j];
    assert AvgRangeByMake(d)[i] == e1 && AvgRangeByMake(d)[j] == e2;
    assert Before(ranked, e1, e2);
    RankedTieInEntriesOrder(d, e1, e2);
    EntriesBeforeKeysBefore(RangeByMake(d), e1, e2);
    KeysInFirstSeenOrder(d, e1.make, e2.make);
  }

  // ---------------------------------------------------------------------------
  // processChartData

  /** The object `processChartData` returns. */
  datatype ChartData = ChartData(
    makeCount: Object<nat>,
    evTypeCount: Object<nat>,
    cityCount: Object<nat>,
    yearDistribution: Object<nat>,
    avgElectricRangeByMake: seq<MakeRange>,
    cafvEligibility: Object<nat>)

  /** What `processChartData(data)` computes. */
  function ChartSummary(data: seq<Record>): ChartData {
    var clean := CleanData(data);
    ChartData(
      CountBy(clean, MakeField),
      CountBy(clean, EvTypeField),
      CountBy(clean, CityField),
      CountBy(clean, ModelYearField),
      AvgRangeByMake(clean),
      CountBy(clean, CafvField))
  }

  /** `processChartData`: the VIN filter, then each reduce as a loop, then the ranking. */
  method ProcessChartData(data: seq<Record>) returns (c: ChartData)
    ensures c == ChartSummary(data)
  {
    var clean := CleanData(data);
    var makeCount := CountByLoop(clean, MakeField);
    var evTypeCount := CountByLoop(clean, EvTypeField);
    var cityCount := CountByLoop(clean, CityField);
    var yearDistribution := CountByLoop(clean, ModelYearField);
    var electricRangeByMake := RangeByMakeLoop(clean);
    RangeByMakeMatchesMakeCount(clean);
    var avg := Slice(SortBy(Averages(electricRangeByMake), ByAverageDescending), 10);
    var cafvEligibility := CountByLoop(clean, CafvField);
    c := ChartData(makeCount, evTypeCount, cityCount, yearDistribution, avg, cafvEligibility);
  }

  /** Only records with a VIN contribute: the summary of the table is the summary of its
      records with a VIN, and in every count dictionary the values add up to their number. */
  lemma ChartSummaryCountsVinRecords(data: seq<Record>)
    ensures ChartSummary(CleanData(data)) == ChartSummary(data)
    ensures var c := ChartSummary(data);
            var n := |CleanData(data)|;
            && Total(c.makeCount) == n && Total(c.evTypeCount) == n && Total(c.cityCount) == n
            && Total(c.yearDistribution) == n && Total(c.cafvEligibility) == n
  {
    FilterIdempotent(data, HasVin);
    var clean := CleanData(data);
    CountByTotal(clean, MakeField);
    CountByTotal(clean, EvTypeField);
    CountByTotal(clean, CityField);
    CountByTotal(clean, ModelYearField);
    CountByTotal(clean, CafvField);
  }

  /** A record without a VIN changes no summary. */
  lemma RecordWithoutVinIgnored(data: seq<Record>, r: Record)
    requires !HasVin(r)
    ensures ChartSummary(data + [r]) == ChartSummary(data)
  {
    FilterAppend(data, [r], HasVin);
    assert CleanData([r]) == [];
    assert CleanData(data) + [] == CleanData(data);
  }

  // ---------------------------------------------------------------------------
  // getUniqueValues

  /** `data.map(item => item[key])`, with `None` for `undefined`. */
  function FieldValues(d: seq<Record>, key: string): (vs: seq<Option<string>>)
    ensures |vs| == |d|
    ensures forall i :: 0 <= i < |d| ==> vs[i] == Get(d[i], key)
  {
    seq(|d|, i requires 0 <= i < |d| => Get(d[i], key))
  }

  /** `[...new Set(data?.map(item => item[key]))]`; `None` is a null or undefined `data`. */
  function GetUniqueValues(data: Option<seq<Record>>, key: string): seq<Option<string>> {
    match data
    case None => []
    case Some(d) => Unique(FieldValues(d, key))
  }

  /** A value is among the unique values exactly when some record has it. */
  lemma UniqueFieldValuesMembers(d: seq<Record>, key: string, v: Option<string>)
    ensures v in Unique(FieldValues(d, key)) <==> exists r :: r in d && Get(r, key) == v
  {
    var vs := FieldValues(d, key);
    var u := Unique(vs);
    if v in u {
      var i :| 0 <= i < |u| && u[i] == v;
      var j :| 0 <= j < |vs| && vs[j] == v;
      assert d[j] in d;
    }
    if exists r :: r in d && Get(r, key) == v {
      var r :| r in d && Get(r, key) == v;
      var j :| 0 <= j < |d| && d[j] == r;
      assert vs[j] == v;
    }
  }

  /** The distinct values of the field, each once, in the order of first occurrence;
      nothing for a missing table. A missing field contributes `undefined` once. */
  lemma GetUniqueValuesSpec(data: Option<seq<Record>>, key: string)
    ensures data.None? ==> GetUniqueValues(data, key) == []
    ensures Distinct(GetUniqueValues(data, key))
    ensures data.Some? ==> forall v :: v in GetUniqueValues(data, key) <==> exists r :: r in data.value && Get(r, key) == v
    ensures data.Some? ==> forall i, j :: 0 <= i < j < |GetUniqueValues(data, key)| ==>
              FirstIndex(FieldValues(data.value, key), GetUniqueValues(data, key)[i])
              < FirstIndex(FieldValues(data.value, key), GetUniqueValues(data, key)[j])
  {
    if data.Some? {
      UniqueFirstOccurrenceOrder(FieldValues(data.value, key));
      forall v ensures v in GetUniqueValues(data, key) <==> exists r :: r in data.value && Get(r, key) == v {
        UniqueFieldValuesMembers(data.value, key, v);
      }
    }
  }
}
