/** ObjectTransitionTimes: when each object entered each phase, and the latencies between phases. */
module PhaseLatency {
  import opened Common
  import opened OrderStatistics

  type Times = map<string, map<string, int>>

  datatype Transition = Transition(from: string, to: string)

  datatype LatencyMetric = LatencyMetric(perc50: int, perc90: int, perc99: int)

  function WithTime(times: Times, key: string, phase: string, t: int): Times {
    times[key := (if key in times then times[key] else map[])[phase := t]]
  }

  function KeysWith(times: Times, phase: string): set<string> {
    set k | k in times && phase in times[k]
  }

  predicate Eligible(times: Times, tr: Transition, filter: string -> bool, key: string) {
    key in times && filter(key) && tr.from in times[key] && tr.to in times[key]
  }

  /** Latency of every eligible key, negative ones clamped to zero. */
  ghost function Latencies(times: Times, tr: Transition, filter: string -> bool): map<string, int> {
    map k | k in times && Eligible(times, tr, filter, k) ::
      if times[k][tr.to] < times[k][tr.from] then 0 else times[k][tr.to] - times[k][tr.from]
  }

  // ------------------------------------------------------- the table as a history of Set calls

  datatype SetCall = SetCall(key: string, phase: string, t: int)

  ghost function TableAfter(calls: seq<SetCall>, n: nat): Times
    requires n <= |calls|
  {
    if n == 0 then map[]
    else var c := calls[n - 1]; WithTime(TableAfter(calls, n - 1), c.key, c.phase, c.t)
  }

  /** t was set for the key and phase, and nothing was set for them since. */
  ghost predicate LastSet(calls: seq<SetCall>, n: nat, key: string, phase: string, t: int)
    requires n <= |calls|
  {
    exists i :: 0 <= i < n && calls[i] == SetCall(key, phase, t)
      && forall j :: i < j < n ==> !(calls[j].key == key && calls[j].phase == phase)
  }

  lemma LastSetStep(calls: seq<SetCall>, n: nat, key: string, phase: string, t: int)
    requires n < |calls|
    ensures LastSet(calls, n + 1, key, phase, t)
       <==> if calls[n].key == key && calls[n].phase == phase then calls[n].t == t else LastSet(calls, n, key, phase, t)
  {
    if calls[n] == SetCall(key, phase, t) {
      assert LastSet(calls, n + 1, key, phase, t);
    }
    if LastSet(calls, n, key, phase, t) && !(calls[n].key == key && calls[n].phase == phase) {
      var i :| 0 <= i < n && calls[i] == SetCall(key, phase, t)
        && forall j :: i < j < n ==> !(calls[j].key == key && calls[j].phase == phase);
      assert calls[i] == SetCall(key, phase, t);
    }
  }

  /** Reading returns what was last written for that key and phase, and nothing else. */
  lemma {:induction false} TableIsHistory(calls: seq<SetCall>, n: nat, key: string, phase: string, t: int)
    requires n <= |calls|
    ensures var times := TableAfter(calls, n);
      key in times && phase in times[key] && times[key][phase] == t <==> LastSet(calls, n, key, phase, t)
  {
    if n > 0 {
      TableIsHistory(calls, n - 1, key, phase, t);
      LastSetStep(calls, n - 1, key, phase, t);
    }
  }

  /** A latency is the time from the last entry into one phase to the last entry into the other, or zero. */
  lemma LatencyIsHistory(calls: seq<SetCall>, tr: Transition, filter: string -> bool, key: string, d: int)
    ensures var data := Latencies(TableAfter(calls, |calls|), tr, filter);
      key in data && data[key] == d <==>
        && filter(key)
        && exists a, b :: LastSet(calls, |calls|, key, tr.from, a) && LastSet(calls, |calls|, key, tr.to, b)
                          && d == if a <= b then b - a else 0
  {
    var times := TableAfter(calls, |calls|);
    forall t { TableIsHistory(calls, |calls|, key, tr.from, t); }
    forall t { TableIsHistory(calls, |calls|, key, tr.to, t); }
    if Eligible(times, tr, filter, key) {
      var a, b := times[key][tr.from], times[key][tr.to];
      assert LastSet(calls, |calls|, key, tr.from, a) && LastSet(calls, |calls|, key, tr.to, b);
    }
  }

  /** The keys that count for a phase are those for which it was ever set. */
  lemma CountedWereSet(calls: seq<SetCall>, n: nat, key: string, phase: string)
    requires n <= |calls|
    ensures key in KeysWith(TableAfter(calls, n), phase) <==> exists t :: LastSet(calls, n, key, phase, t)
  {
    forall t { TableIsHistory(calls, n, key, phase, t); }
    var times := TableAfter(calls, n);
    if key in KeysWith(times, phase) {
      assert LastSet(calls, n, key, phase, times[key][phase]);
    }
  }

  // ------------------------------------------------------- metrics

  function NewLatencyMetric(latencies: seq<int>): LatencyMetric
  {
    var n := |latencies|;
    if n == 0 then LatencyMetric(0, 0, 0)
    else
      LatencyMetric(
        latencies[PercentileIndex(n, 50)], latencies[PercentileIndex(n, 90)], latencies[PercentileIndex(n, 99)])
  }

  /** What a reported metric means: percentiles over eligible keys, or zeros when there are none. */
  ghost predicate Reports(data: map<string, int>, m: LatencyMetric) {
    if data == map[] then m == LatencyMetric(0, 0, 0)
    else
      && IsKeyPercentile(data, 50, m.perc50)
      && IsKeyPercentile(data, 90, m.perc90)
      && IsKeyPercentile(data, 99, m.perc99)
  }

  /** The metric is ordered, non-negative and a function of the data alone. */
  lemma ReportIsDeterminedAndOrdered(times: Times, tr: Transition, filter: string -> bool, m: LatencyMetric,
                                     m': LatencyMetric)
    requires Reports(Latencies(times, tr, filter), m) && Reports(Latencies(times, tr, filter), m')
    ensures m == m'
    ensures 0 <= m.perc50 <= m.perc90 <= m.perc99
  {
    var data := Latencies(times, tr, filter);
    if data != map[] {
      KeyPercentileMonotone(data, 50, 50, m.perc50, m'.perc50);
      KeyPercentileMonotone(data, 90, 90, m.perc90, m'.perc90);
      KeyPercentileMonotone(data, 99, 99, m.perc99, m'.perc99);
      KeyPercentileMonotone(data, 50, 90, m.perc50, m.perc90);
      KeyPercentileMonotone(data, 90, 99, m.perc90, m.perc99);
    }
  }

  lemma SortedLatenciesReport(data: map<string, int>, keys: seq<string>, lag: seq<int>, sorted: seq<int>)
    requires Enumerates(data, keys, lag)
    requires SortedBy(AtMost, sorted) && multiset(sorted) == multiset(lag)
    ensures Reports(data, NewLatencyMetric(sorted))
  {
    SameElements(sorted, lag);
    EnumerationCounts(data, keys, lag, 0);
    if sorted != [] {
      var m := NewLatencyMetric(sorted);
      SortedPercentile(data, keys, lag, sorted, 50);
      SortedPercentile(data, keys, lag, sorted, 90);
      SortedPercentile(data, keys, lag, sorted, 99);
    }
  }

  lemma SortedPercentile(data: map<string, int>, keys: seq<string>, lag: seq<int>, sorted: seq<int>, p: int)
    requires Enumerates(data, keys, lag) && sorted != [] && 1 <= p <= 100
    requires SortedBy(AtMost, sorted) && multiset(sorted) == multiset(lag)
    ensures 0 <= PercentileIndex(|sorted|, p) < |sorted|
    ensures IsKeyPercentile(data, p, sorted[PercentileIndex(|sorted|, p)])
  {
    NearestRank(sorted, p);
    var v := sorted[PercentileIndex(|sorted|, p)];
    PercentileOfPermutation(sorted, lag, p, v);
    KeyPercentile(data, keys, lag, p, v);
  }

  class ObjectTransitionTimes {
    var times: Times

    constructor ()
      ensures times == map[]
    {
      times := map[];
    }

    method Set(key: string, phase: string, t: int)
      modifies this
      ensures times == WithTime(old(times), key, phase, t)
    {
      if key !in times {
        times := times[key := map[]];
      }
      times := times[key := times[key][phase := t]];
    }

    method Get(key: string, phase: string) returns (r: Option<int>)
      ensures r.Some? <==> key in KeysWith(times, phase)
      ensures r.Some? ==> r.value == times[key][phase]
    {
      if key in times && phase in times[key] {
        return Some(times[key][phase]);
      }
      return None;
    }

    method Count(phase: string) returns (count: nat)
      ensures count == |KeysWith(times, phase)|
    {
      count := 0;
      var left := times.Keys;
      assert KeysWith(times, phase) - left == {};
      while left != {}
        invariant left <= times.Keys
        invariant count == |KeysWith(times, phase) - left|
        decreases left
      {
        var k :| k in left;
        VisitOne(KeysWith(times, phase), left, k);
        left := left - {k};
        if phase in times[k] {
          count := count + 1;
        }
      }
      assert KeysWith(times, phase) - {} == KeysWith(times, phase);
    }

    /** The order in which either map is iterated is arbitrary; the answer is not. */
    method CalculateTransitionsLatency(t: map<string, Transition>, filter: string -> bool)
      returns (metric: map<string, LatencyMetric>)
      ensures metric.Keys == t.Keys
      ensures forall name :: name in t ==> Reports(Latencies(times, t[name], filter), metric[name])
    {
      metric := map[];
      var names := t.Keys;
      while names != {}
        invariant names <= t.Keys && metric.Keys == t.Keys - names
        invariant forall name :: name in metric ==> Reports(Latencies(times, t[name], filter), metric[name])
        decreases names
      {
        var name :| name in names;
        names := names - {name};
        var lag := CollectLatencies(t[name], filter);
        AtMostIsPreorder();
        var sorted := Sort(lag, AtMost);
        ghost var keys :| Enumerates(Latencies(times, t[name], filter), keys, lag);
        SortedLatenciesReport(Latencies(times, t[name], filter), keys, lag, sorted);
        metric := metric[name := NewLatencyMetric(sorted)];
      }
    }

    /** The inner loop: one entry per eligible key. */
    method CollectLatencies(tr: Transition, filter: string -> bool) returns (lag: seq<int>)
      ensures exists keys :: Enumerates(Latencies(times, tr, filter), keys, lag)
    {
      lag := [];
      ghost var keys: seq<string> := [];
      ghost var data := Latencies(times, tr, filter);
      var left := times.Keys;
      while left != {}
        invariant left <= times.Keys
        invariant Distinct(keys) && |keys| == |lag|
        invariant forall k :: k in keys <==> k in data && k !in left
        invariant forall i :: 0 <= i < |keys| ==> lag[i] == data[keys[i]]
        decreases left
      {
        var k :| k in left;
        left := left - {k};
        if !filter(k) { continue; }
        if tr.from !in times[k] { continue; }
        if tr.to !in times[k] { continue; }
        var latency := times[k][tr.to] - times[k][tr.from];
        if latency < 0 {
          latency := 0;
        }
        assert k !in keys;
        lag := lag + [latency];
        keys := keys + [k];
      }
      assert Enumerates(data, keys, lag);
    }
  }
}
