/** Nearest-rank percentiles, as NewLatencyMetric and ComputePercentiles index them. */
module OrderStatistics {
  import opened Common

  /** int(math.Ceil(float64(n*p)/100)) - 1, with exact division. */
  function PercentileIndex(n: nat, p: int): int {
    (n * p + 99) / 100 - 1
  }

  predicate AtMost(a: int, b: int) { a <= b }

  lemma AtMostIsPreorder()
    ensures TotalPreorder(AtMost)
  {
  }

  ghost function CountBelow(s: seq<int>, v: int): nat {
    if s == [] then 0 else (if s[0] < v then 1 else 0) + CountBelow(s[1..], v)
  }

  /**
   * v is the smallest value of s such that at least p percent of s is at or below it.
   * ("at or below v" is "below v + 1".)
   */
  ghost predicate IsPercentile(s: seq<int>, p: int, v: int) {
    && v in s
    && 100 * CountBelow(s, v + 1) >= p * |s|
    && 100 * CountBelow(s, v) < p * |s|
  }

  lemma {:induction false} CountBelowSplits(s: seq<int>, t: seq<int>, v: int)
    ensures CountBelow(s + t, v) == CountBelow(s, v) + CountBelow(t, v)
  {
    if s == [] {
      assert s + t == t;
    } else {
      assert (s + t)[1..] == s[1..] + t;
      CountBelowSplits(s[1..], t, v);
    }
  }

  lemma {:induction false} CountBelowBounds(s: seq<int>, v: int)
    ensures CountBelow(s, v) <= |s|
    ensures (forall i :: 0 <= i < |s| ==> s[i] < v) ==> CountBelow(s, v) == |s|
    ensures (forall i :: 0 <= i < |s| ==> s[i] >= v) ==> CountBelow(s, v) == 0
  {
    if s != [] {
      CountBelowBounds(s[1..], v);
      assert (forall i :: 0 <= i < |s| ==> s[i] < v) ==> s[0] < v;
    }
  }

  lemma {:induction false} CountBelowGrows(s: seq<int>, u: int, v: int)
    requires u <= v
    ensures CountBelow(s, u) <= CountBelow(s, v)
  {
    if s != [] { CountBelowGrows(s[1..], u, v); }
  }

  lemma CountBelowWithout(t: seq<int>, i: nat, v: int)
    requires i < |t|
    ensures CountBelow(t, v) == CountBelow(t[..i] + t[i + 1..], v) + (if t[i] < v then 1 else 0)
  {
    var tail := t[i..];
    assert t == t[..i] + tail && tail[1..] == t[i + 1..];
    CountBelowSplits(t[..i], tail, v);
    CountBelowSplits(t[..i], t[i + 1..], v);
  }

  /** Counting ignores order. */
  lemma {:induction false} CountBelowOfPermutation(s: seq<int>, t: seq<int>, v: int)
    requires multiset(s) == multiset(t)
    ensures CountBelow(s, v) == CountBelow(t, v)
  {
    if s == [] {
      SameElements(s, t);
    } else {
      var i := HeadInPermutation(s, t);
      CountBelowOfPermutation(s[1..], t[..i] + t[i + 1..], v);
      CountBelowWithout(t, i, v);
    }
  }

  lemma {:induction false} PrefixBelow(s: seq<int>, i: nat, v: int)
    requires i <= |s| && forall j :: 0 <= j < i ==> s[j] < v
    ensures CountBelow(s, v) >= i
  {
    if i > 0 { PrefixBelow(s[1..], i - 1, v); }
  }

  lemma {:induction false} SuffixNotBelow(s: seq<int>, i: nat, v: int)
    requires i <= |s| && forall j :: i <= j < |s| ==> s[j] >= v
    ensures CountBelow(s, v) <= i
  {
    if i > 0 { SuffixNotBelow(s[1..], i - 1, v); } else { CountBelowBounds(s, v); }
  }

  /** Exactly the positions before i hold smaller values, up to ties. */
  lemma SortedCounts(s: seq<int>, i: nat)
    requires SortedBy(AtMost, s) && i < |s|
    ensures CountBelow(s, s[i]) <= i < CountBelow(s, s[i] + 1)
  {
    forall j | 0 <= j < |s| ensures (j <= i ==> s[j] <= s[i]) && (i <= j ==> s[i] <= s[j]) {
      assert j < i ==> AtMost(s[j], s[i]);
      assert i < j ==> AtMost(s[i], s[j]);
    }
    PrefixBelow(s, i + 1, s[i] + 1);
    SuffixNotBelow(s, i, s[i]);
  }

  lemma IndexInRange(n: nat, p: int)
    requires n > 0 && 1 <= p <= 100
    ensures 0 <= PercentileIndex(n, p) < n
    ensures 100 * PercentileIndex(n, p) < p * n <= 100 * (PercentileIndex(n, p) + 1)
  {
    assert 1 <= p * n <= 100 * n;
  }

  /** The index is in range and picks the percentile of any sorted data. */
  lemma NearestRank(s: seq<int>, p: int)
    requires SortedBy(AtMost, s) && s != [] && 1 <= p <= 100
    ensures 0 <= PercentileIndex(|s|, p) < |s|
    ensures IsPercentile(s, p, s[PercentileIndex(|s|, p)])
  {
    IndexInRange(|s|, p);
    SortedCounts(s, PercentileIndex(|s|, p));
  }

  /** At most one value is the percentile; so the reported number cannot depend on the order of the data. */
  lemma PercentileMonotone(s: seq<int>, p: int, q: int, u: int, v: int)
    requires p <= q && IsPercentile(s, p, u) && IsPercentile(s, q, v)
    ensures u <= v
    ensures p == q ==> u == v
  {
    assert p * |s| <= q * |s|;
    if v < u { CountBelowGrows(s, v + 1, u); }
    if u < v { CountBelowGrows(s, u + 1, v); }
  }

  lemma PercentileOfPermutation(s: seq<int>, t: seq<int>, p: int, v: int)
    requires multiset(s) == multiset(t) && IsPercentile(s, p, v)
    ensures IsPercentile(t, p, v)
  {
    SameElements(s, t);
    CountBelowOfPermutation(s, t, v);
    CountBelowOfPermutation(s, t, v + 1);
  }

  /** The 100th percentile is the maximum. */
  lemma HundredthIsMax(s: seq<int>, v: int)
    requires IsPercentile(s, 100, v)
    ensures forall i :: 0 <= i < |s| ==> s[i] <= v
  {
    forall i | 0 <= i < |s| ensures s[i] <= v {
      if s[i] > v {
        assert s == s[..i] + ([s[i]] + s[i + 1..]);
        CountBelowSplits(s[..i], [s[i]] + s[i + 1..], v + 1);
        CountBelowBounds(s[..i], v + 1);
        CountBelowBounds(s[i + 1..], v + 1);
      }
    }
  }

  // ------------------------------------------------------- data held in a map

  ghost function KeysBelow(data: map<string, int>, v: int): set<string> {
    set k | k in data && data[k] < v
  }

  /** v is the smallest value such that at least p percent of the keys are at or below it. */
  ghost predicate IsKeyPercentile(data: map<string, int>, p: int, v: int) {
    && v in data.Values
    && 100 * |KeysBelow(data, v + 1)| >= p * |data|
    && 100 * |KeysBelow(data, v)| < p * |data|
  }

  ghost predicate Enumerates(data: map<string, int>, keys: seq<string>, values: seq<int>) {
    && Distinct(keys) && |keys| == |values|
    && (forall k :: k in keys <==> k in data)
    && (forall i :: 0 <= i < |keys| ==> values[i] == data[keys[i]])
  }

  lemma {:induction false} EnumerationCounts(data: map<string, int>, keys: seq<string>, values: seq<int>, v: int)
    requires Enumerates(data, keys, values)
    ensures |data| == |values|
    ensures CountBelow(values, v) == |KeysBelow(data, v)|
    decreases |keys|
  {
    if keys == [] {
      assert data == map[];
    } else {
      EnumerationTail(data, keys, values);
      EnumerationCounts(data - {keys[0]}, keys[1..], values[1..], v);
      KeysBelowWithout(data, keys[0], v);
    }
  }

  lemma EnumerationTail(data: map<string, int>, keys: seq<string>, values: seq<int>)
    requires Enumerates(data, keys, values) && keys != []
    ensures Enumerates(data - {keys[0]}, keys[1..], values[1..])
  {
    forall k ensures k in keys[1..] <==> k in data - {keys[0]} {
      assert keys == [keys[0]] + keys[1..];
      if k in keys[1..] {
        var i :| 0 <= i < |keys[1..]| && keys[1..][i] == k;
        assert keys[i + 1] == k;
      }
    }
  }

  lemma KeysBelowWithout(data: map<string, int>, k: string, v: int)
    requires k in data
    ensures |data| == |data - {k}| + 1
    ensures |KeysBelow(data, v)| == |KeysBelow(data - {k}, v)| + (if data[k] < v then 1 else 0)
  {
    SizeWithout(data, k);
    assert KeysBelow(data, v) == KeysBelow(data - {k}, v) + (if data[k] < v then {k} else {});
  }

  lemma SizeWithout(data: map<string, int>, k: string)
    requires k in data
    ensures |data| == |data - {k}| + 1
  {
    assert data.Keys == (data - {k}).Keys + {k};
    assert |data.Keys| == |data| && |(data - {k}).Keys| == |data - {k}|;
  }

  /** The percentile of the enumerated values is the percentile of the keyed data, whatever the order. */
  lemma KeyPercentile(data: map<string, int>, keys: seq<string>, values: seq<int>, p: int, v: int)
    requires Enumerates(data, keys, values) && IsPercentile(values, p, v)
    ensures IsKeyPercentile(data, p, v)
  {
    EnumerationCounts(data, keys, values, v);
    EnumerationCounts(data, keys, values, v + 1);
    var i :| 0 <= i < |values| && values[i] == v;
    assert keys[i] in data && data[keys[i]] == v;
  }

  lemma KeyPercentileMonotone(data: map<string, int>, p: int, q: int, u: int, v: int)
    requires p <= q && IsKeyPercentile(data, p, u) && IsKeyPercentile(data, q, v)
    ensures u <= v
    ensures p == q ==> u == v
  {
    assert p * |data| <= q * |data|;
    if v < u {
      SubsetSize(KeysBelow(data, v + 1), KeysBelow(data, u));
    }
    if u < v {
      SubsetSize(KeysBelow(data, u + 1), KeysBelow(data, v));
    }
  }
}
