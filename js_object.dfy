/** A plain JavaScript object with string keys: its own properties with their values,
    and the order in which they were created. `Object.keys`, `Object.values` and
    `Object.entries` list array-index keys ("0", "2020", ...) first in ascending numeric
    order, then the other keys in creation order. */
module JsObject {
  import opened Wrappers
  import opened JsArray
  import JsString

  datatype RawObject<V> = RawObject(insertion: seq<string>, props: map<string, V>)

  /** Every property was created exactly once. */
  ghost predicate WellFormed<V>(o: RawObject<V>) {
    && Distinct(o.insertion)
    && (forall k :: k in o.insertion <==> k in o.props)
  }

  type Object<V> = o: RawObject<V> | WellFormed(o) witness RawObject([], map[])

  /** `{}` */
  function Empty<V>(): (o: Object<V>)
    ensures o.props == map[] && o.insertion == []
  {
    RawObject([], map[])
  }

  /** `o[k]`, with `None` for `undefined`. */
  function Get<V>(o: Object<V>, k: string): (r: Option<V>)
    ensures r.Some? <==> k in o.props
    ensures r.Some? ==> r.value == o.props[k]
  {
    if k in o.props then Some(o.props[k]) else None
  }

  /** `o[k] = v`: an existing property keeps its place in the creation order, a new one
      is created last. */
  function Put<V>(o: Object<V>, k: string, v: V): (r: Object<V>)
    ensures r.props == o.props[k := v]
    ensures k in o.props ==> r.insertion == o.insertion
    ensures k !in o.props ==> r.insertion == o.insertion + [k]
  {
    if k in o.props then RawObject(o.insertion, o.props[k := v])
    else
      var ins := o.insertion + [k];
      assert Distinct(ins) by {
        forall i, j | 0 <= i < j < |ins| ensures ins[i] != ins[j] {
          if j == |ins| - 1 {
            assert ins[i] in o.insertion;
          }
        }
      }
      RawObject(ins, o.props[k := v])
  }

  /** Assigning a property twice is assigning it the second value. */
  lemma PutTwice<V>(o: Object<V>, k: string, v: V, w: V)
    ensures Put(Put(o, k, v), k, w) == Put(o, k, w)
  {
    assert o.props[k := v][k := w] == o.props[k := w];
  }

  // ---------------------------------------------------------------------------
  // Key order

  /** A canonical numeral of an integer below 2^32 - 1: "0", "7", "2020", but not "007",
      "-1" or "4294967295". */
  predicate IsArrayIndex(k: string) {
    && |k| >= 1
    && (forall i :: 0 <= i < |k| ==> JsString.IsDecimalDigit(k[i]))
    && (k[0] != '0' || |k| == 1)
    && JsString.DigitsValue(k, 10) < 0xFFFF_FFFF
  }

  /** The number an array-index key denotes (0 for other keys, which it does not order). */
  function IndexValue(k: string): real {
    if IsArrayIndex(k) then JsString.DigitsValue(k, 10) as real else 0.0
  }

  /** `Object.keys(o)`. */
  function Keys<V>(o: Object<V>): seq<string> {
    SortBy(Filter(o.insertion, IsArrayIndex), IndexValue) + Filter(o.insertion, Not(IsArrayIndex))
  }

  /** `Object.keys(o)` lists every own key exactly once. */
  lemma KeysPermutation<V>(o: Object<V>)
    ensures multiset(Keys(o)) == multiset(o.insertion)
    ensures |Keys(o)| == |o.insertion| == |o.props|
    ensures Distinct(Keys(o))
    ensures forall k :: k in Keys(o) <==> k in o.props
  {
    SortByPermutation(Filter(o.insertion, IsArrayIndex), IndexValue);
    FilterPartition(o.insertion, IsArrayIndex);
    DistinctPermutation(o.insertion, Keys(o));
    assert |multiset(Keys(o))| == |multiset(o.insertion)|;
    forall k ensures k in Keys(o) <==> k in o.props {
      assert k in Keys(o) <==> k in multiset(Keys(o));
      assert k in o.insertion <==> k in multiset(o.insertion);
    }
    DistinctCardinality(o.insertion);
    assert (set k | k in o.insertion) == o.props.Keys;
  }

  lemma SortedIndicesAreIndices<V>(o: Object<V>)
    ensures forall k :: k in SortBy(Filter(o.insertion, IsArrayIndex), IndexValue) ==> IsArrayIndex(k)
  {
    var idx := Filter(o.insertion, IsArrayIndex);
    var sorted := SortBy(idx, IndexValue);
    SortByPermutation(idx, IndexValue);
    forall k | k in sorted ensures IsArrayIndex(k) {
      assert k in multiset(sorted);
      FilterContains(o.insertion, IsArrayIndex, k);
    }
  }

  /** The first part of `Object.keys(o)`: an array-index key is preceded only by
      array-index keys, with numbers no larger than its own. */
  lemma KeysIndicesFirst<V>(o: Object<V>)
    ensures forall i, j :: 0 <= i < j < |Keys(o)| && IsArrayIndex(Keys(o)[j]) ==>
              IsArrayIndex(Keys(o)[i]) && IndexValue(Keys(o)[i]) <= IndexValue(Keys(o)[j])
  {
    var others := Filter(o.insertion, Not(IsArrayIndex));
    var sorted := SortBy(Filter(o.insertion, IsArrayIndex), IndexValue);
    SortBySorted(Filter(o.insertion, IsArrayIndex), IndexValue);
    SortedIndicesAreIndices(o);
    var ks := Keys(o);
    forall j | |sorted| <= j < |ks| ensures !IsArrayIndex(ks[j]) {
      assert ks[j] == others[j - |sorted|];
      FilterContains(o.insertion, Not(IsArrayIndex), ks[j]);
    }
    forall i, j | 0 <= i < j < |ks| && IsArrayIndex(ks[j])
      ensures IsArrayIndex(ks[i]) && IndexValue(ks[i]) <= IndexValue(ks[j])
    {
      assert ks[i] == sorted[i] && ks[j] == sorted[j];
      assert ks[i] in sorted;
    }
  }

  /** The second part of `Object.keys(o)`: the keys that are not array indices keep
      their creation order. */
  lemma KeysOthersInCreationOrder<V>(o: Object<V>)
    ensures Filter(Keys(o), Not(IsArrayIndex)) == Filter(o.insertion, Not(IsArrayIndex))
  {
    var others := Filter(o.insertion, Not(IsArrayIndex));
    var sorted := SortBy(Filter(o.insertion, IsArrayIndex), IndexValue);
    SortedIndicesAreIndices(o);
    forall k | k in others ensures Not(IsArrayIndex)(k) {
      FilterContains(o.insertion, Not(IsArrayIndex), k);
    }
    FilterAppend(sorted, others, Not(IsArrayIndex));
    FilterNoneKept(sorted, Not(IsArrayIndex));
    FilterKeepsAll(others, Not(IsArrayIndex));
    assert [] + others == others;
  }

  /** Without array-index keys, `Object.keys(o)` is the creation order. */
  lemma KeysWithoutArrayIndices<V>(o: Object<V>)
    requires forall i :: 0 <= i < |o.insertion| ==> !IsArrayIndex(o.insertion[i])
    ensures Keys(o) == o.insertion
  {
    FilterNoneKept(o.insertion, IsArrayIndex);
    FilterKeepsAll(o.insertion, Not(IsArrayIndex));
    assert [] + o.insertion == o.insertion;
  }

  /** `Object.values(o)`: the value of each key, in the order of `Object.keys(o)`. */
  function Values<V>(o: Object<V>): (r: seq<V>)
    ensures |r| == |Keys(o)| == |o.props|
    ensures forall i :: 0 <= i < |r| ==> Keys(o)[i] in o.props && r[i] == o.props[Keys(o)[i]]
  {
    var ks := Keys(o);
    KeysPermutation(o);
    seq(|ks|, i requires 0 <= i < |ks| => o.props[ks[i]])
  }

  /** `Object.entries(o)`: each key with its value, in the order of `Object.keys(o)`. */
  function Entries<V>(o: Object<V>): (r: seq<(string, V)>)
    ensures |r| == |Keys(o)| == |o.props|
    ensures forall i :: 0 <= i < |r| ==> r[i].0 == Keys(o)[i] && r[i].0 in o.props && r[i].1 == o.props[r[i].0]
  {
    var ks := Keys(o);
    KeysPermutation(o);
    seq(|ks|, i requires 0 <= i < |ks| => (ks[i], o.props[ks[i]]))
  }
}
