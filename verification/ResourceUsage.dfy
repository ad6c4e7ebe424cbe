/** Per-container resource percentiles over a time series, and the merge of two such reports. */
module ResourceUsage {
  import opened Common
  import opened OrderStatistics

  /** Only the order of samples matters here, so CPU usage is an integer like the others. */
  datatype Usage = Usage(cpu: int, mem: int, workingSet: int)

  datatype UsageData = UsageData(cpu: seq<int>, mem: seq<int>, workingSet: seq<int>)

  function Extend(d: UsageData, u: Usage): UsageData {
    UsageData(d.cpu + [u.cpu], d.mem + [u.mem], d.workingSet + [u.workingSet])
  }

  /** A container's own samples, in the order of the time series. */
  ghost function SamplesOf(ts: seq<map<string, Usage>>, name: string): UsageData {
    if ts == [] then UsageData([], [], [])
    else
      var last := ts[|ts| - 1];
      var d := SamplesOf(ts[..|ts| - 1], name);
      if name in last then Extend(d, last[name]) else d
  }

  ghost predicate Appears(ts: seq<map<string, Usage>>, name: string) {
    exists i :: 0 <= i < |ts| && name in ts[i]
  }

  ghost predicate UsageAt(d: UsageData, p: int, u: Usage) {
    IsPercentile(d.cpu, p, u.cpu) && IsPercentile(d.mem, p, u.mem) && IsPercentile(d.workingSet, p, u.workingSet)
  }

  lemma {:induction false} SampleCounts(ts: seq<map<string, Usage>>, name: string)
    ensures var d := SamplesOf(ts, name);
      |d.cpu| == |d.mem| == |d.workingSet| && (d.cpu != [] <==> Appears(ts, name))
  {
    if ts != [] {
      var n := |ts| - 1;
      SampleCounts(ts[..n], name);
      assert Appears(ts, name) <==> name in ts[n] || Appears(ts[..n], name) by {
        if Appears(ts, name) && name !in ts[n] {
          var i :| 0 <= i < |ts| && name in ts[i];
          assert name in ts[..n][i];
        }
        if Appears(ts[..n], name) {
          var i :| 0 <= i < n && name in ts[..n][i];
          assert name in ts[i];
        }
      }
    }
  }

  // ------------------------------------------------------- samples as snapshots

  /** The values of a list of optional readings, and the positions with a value, or one below v. */
  ghost function Values(s: seq<Option<int>>): seq<int> {
    if s == [] then []
    else Values(s[..|s| - 1]) + (if s[|s| - 1].Some? then [s[|s| - 1].value] else [])
  }

  ghost function Present(s: seq<Option<int>>): set<int> {
    set i | 0 <= i < |s| && s[i].Some?
  }

  ghost function Below(s: seq<Option<int>>, v: int): set<int> {
    set i | 0 <= i < |s| && s[i].Some? && s[i].value < v
  }

  lemma PositionsStep(s: seq<Option<int>>, v: int)
    requires s != []
    ensures var n := |s| - 1;
      && |Present(s)| == |Present(s[..n])| + (if s[n].Some? then 1 else 0)
      && |Below(s, v)| == |Below(s[..n], v)| + (if s[n].Some? && s[n].value < v then 1 else 0)
  {
    var n := |s| - 1;
    assert Present(s) == Present(s[..n]) + (if s[n].Some? then {n} else {});
    assert Below(s, v) == Below(s[..n], v) + (if s[n].Some? && s[n].value < v then {n} else {});
  }

  lemma {:induction false} ValuesCount(s: seq<Option<int>>, v: int)
    ensures |Values(s)| == |Present(s)| && CountBelow(Values(s), v) == |Below(s, v)|
  {
    if s == [] {
      assert Present(s) == {} && Below(s, v) == {};
    } else {
      var n := |s| - 1;
      ValuesCount(s[..n], v);
      PositionsStep(s, v);
      var last := if s[n].Some? then [s[n].value] else [];
      CountBelowSplits(Values(s[..n]), last, v);
      assert CountBelow(last, v) == if s[n].Some? && s[n].value < v then 1 else 0 by {
        if s[n].Some? { assert last[1..] == []; }
      }
    }
  }

  lemma {:induction false} ValuesMember(s: seq<Option<int>>, v: int)
    ensures v in Values(s) <==> Some(v) in s
  {
    if s != [] {
      var n := |s| - 1;
      ValuesMember(s[..n], v);
      assert s == s[..n] + [s[n]];
    }
  }

  ghost function CpuReadings(ts: seq<map<string, Usage>>, name: string): seq<Option<int>> {
    seq(|ts|, i requires 0 <= i < |ts| => if name in ts[i] then Some(ts[i][name].cpu) else None)
  }

  ghost function MemoryReadings(ts: seq<map<string, Usage>>, name: string): seq<Option<int>> {
    seq(|ts|, i requires 0 <= i < |ts| => if name in ts[i] then Some(ts[i][name].mem) else None)
  }

  ghost function WorkingSetReadings(ts: seq<map<string, Usage>>, name: string): seq<Option<int>> {
    seq(|ts|, i requires 0 <= i < |ts| => if name in ts[i] then Some(ts[i][name].workingSet) else None)
  }

  lemma {:induction false} SamplesAreReadings(ts: seq<map<string, Usage>>, name: string)
    ensures SamplesOf(ts, name)
         == UsageData(Values(CpuReadings(ts, name)), Values(MemoryReadings(ts, name)),
                      Values(WorkingSetReadings(ts, name)))
  {
    if ts != [] {
      var n := |ts| - 1;
      SamplesAreReadings(ts[..n], name);
      assert CpuReadings(ts, name)[..n] == CpuReadings(ts[..n], name);
      assert MemoryReadings(ts, name)[..n] == MemoryReadings(ts[..n], name);
      assert WorkingSetReadings(ts, name)[..n] == WorkingSetReadings(ts[..n], name);
    }
  }

  /** A percentile of the values, counted in positions. */
  lemma PercentileCounts(s: seq<Option<int>>, p: int, v: int)
    ensures IsPercentile(Values(s), p, v) <==>
      Some(v) in s && 100 * |Below(s, v + 1)| >= p * |Present(s)| && 100 * |Below(s, v)| < p * |Present(s)|
  {
    ValuesCount(s, v);
    ValuesCount(s, v + 1);
    ValuesMember(s, v);
  }

  /** The j-th sample of each series is that reading of the j-th snapshot that lists the container. */
  lemma {:induction false} SamplesInOrder(ts: seq<map<string, Usage>>, name: string) returns (at: seq<nat>)
    ensures forall j, k :: 0 <= j < k < |at| ==> at[j] < at[k]
    ensures forall i: nat :: i in at <==> i < |ts| && name in ts[i]
    ensures var d := SamplesOf(ts, name);
      && |d.cpu| == |d.mem| == |d.workingSet| == |at|
      && forall j :: 0 <= j < |at| ==>
           && at[j] < |ts| && name in ts[at[j]]
           && d.cpu[j] == ts[at[j]][name].cpu
           && d.mem[j] == ts[at[j]][name].mem
           && d.workingSet[j] == ts[at[j]][name].workingSet
  {
    at := [];
    if ts != [] {
      var n := |ts| - 1;
      at := SamplesInOrder(ts[..n], name);
      assert forall j :: 0 <= j < |at| ==> at[j] in at;
      if name in ts[n] { at := at + [n]; }
    }
  }

  /**
   * The nearest-rank values of the container's snapshots: each is some snapshot's reading, at least
   * p percent of the snapshots that list the container read that much or less, and fewer read less.
   */
  ghost predicate NearestUsage(ts: seq<map<string, Usage>>, name: string, p: int, u: Usage) {
    var n := |set i | 0 <= i < |ts| && name in ts[i]|;
    && (exists i :: 0 <= i < |ts| && name in ts[i] && ts[i][name].cpu == u.cpu)
    && (exists i :: 0 <= i < |ts| && name in ts[i] && ts[i][name].mem == u.mem)
    && (exists i :: 0 <= i < |ts| && name in ts[i] && ts[i][name].workingSet == u.workingSet)
    && 100 * |set i | 0 <= i < |ts| && name in ts[i] && ts[i][name].cpu <= u.cpu| >= p * n
    && 100 * |set i | 0 <= i < |ts| && name in ts[i] && ts[i][name].cpu < u.cpu| < p * n
    && 100 * |set i | 0 <= i < |ts| && name in ts[i] && ts[i][name].mem <= u.mem| >= p * n
    && 100 * |set i | 0 <= i < |ts| && name in ts[i] && ts[i][name].mem < u.mem| < p * n
    && 100 * |set i | 0 <= i < |ts| && name in ts[i] && ts[i][name].workingSet <= u.workingSet| >= p * n
    && 100 * |set i | 0 <= i < |ts| && name in ts[i] && ts[i][name].workingSet < u.workingSet| < p * n
  }

  ghost function Listing(ts: seq<map<string, Usage>>, name: string): set<int> {
    set i | 0 <= i < |ts| && name in ts[i]
  }

  lemma CpuPercentile(ts: seq<map<string, Usage>>, name: string, p: int, v: int)
    ensures IsPercentile(Values(CpuReadings(ts, name)), p, v) <==>
      && (exists i :: 0 <= i < |ts| && name in ts[i] && ts[i][name].cpu == v)
      && 100 * |set i | 0 <= i < |ts| && name in ts[i] && ts[i][name].cpu <= v| >= p * |Listing(ts, name)|
      && 100 * |set i | 0 <= i < |ts| && name in ts[i] && ts[i][name].cpu < v| < p * |Listing(ts, name)|
  {
    var s := CpuReadings(ts, name);
    PercentileCounts(s, p, v);
    assert Present(s) == Listing(ts, name);
    assert Below(s, v + 1) == set i | 0 <= i < |ts| && name in ts[i] && ts[i][name].cpu <= v;
    assert Below(s, v) == set i | 0 <= i < |ts| && name in ts[i] && ts[i][name].cpu < v;
    if i :| 0 <= i < |ts| && name in ts[i] && ts[i][name].cpu == v { assert s[i] == Some(v); }
    if Some(v) in s {
      var i :| 0 <= i < |s| && s[i] == Some(v);
      assert name in ts[i];
    }
  }

  lemma MemoryPercentile(ts: seq<map<string, Usage>>, name: string, p: int, v: int)
    ensures IsPercentile(Values(MemoryReadings(ts, name)), p, v) <==>
      && (exists i :: 0 <= i < |ts| && name in ts[i] && ts[i][name].mem == v)
      && 100 * |set i | 0 <= i < |ts| && name in ts[i] && ts[i][name].mem <= v| >= p * |Listing(ts, name)|
      && 100 * |set i | 0 <= i < |ts| && name in ts[i] && ts[i][name].mem < v| < p * |Listing(ts, name)|
  {
    var s := MemoryReadings(ts, name);
    PercentileCounts(s, p, v);
    assert Present(s) == Listing(ts, name);
    assert Below(s, v + 1) == set i | 0 <= i < |ts| && name in ts[i] && ts[i][name].mem <= v;
    assert Below(s, v) == set i | 0 <= i < |ts| && name in ts[i] && ts[i][name].mem < v;
    if i :| 0 <= i < |ts| && name in ts[i] && ts[i][name].mem == v { assert s[i] == Some(v); }
    if Some(v) in s {
      var i :| 0 <= i < |s| && s[i] == Some(v);
      assert name in ts[i];
    }
  }

  lemma WorkingSetPercentile(ts: seq<map<string, Usage>>, name: string, p: int, v: int)
    ensures IsPercentile(Values(WorkingSetReadings(ts, name)), p, v) <==>
      && (exists i :: 0 <= i < |ts| && name in ts[i] && ts[i][name].workingSet == v)
      && 100 * |set i | 0 <= i < |ts| && name in ts[i] && ts[i][name].workingSet <= v| >= p * |Listing(ts, name)|
      && 100 * |set i | 0 <= i < |ts| && name in ts[i] && ts[i][name].workingSet < v| < p * |Listing(ts, name)|
  {
    var s := WorkingSetReadings(ts, name);
    PercentileCounts(s, p, v);
    assert Present(s) == Listing(ts, name);
    assert Below(s, v + 1) == set i | 0 <= i < |ts| && name in ts[i] && ts[i][name].workingSet <= v;
    assert Below(s, v) == set i | 0 <= i < |ts| && name in ts[i] && ts[i][name].workingSet < v;
    if i :| 0 <= i < |ts| && name in ts[i] && ts[i][name].workingSet == v { assert s[i] == Some(v); }
    if Some(v) in s {
      var i :| 0 <= i < |s| && s[i] == Some(v);
      assert name in ts[i];
    }
  }

  lemma UsageCounts(ts: seq<map<string, Usage>>, name: string, p: int, u: Usage)
    ensures UsageAt(SamplesOf(ts, name), p, u) <==> NearestUsage(ts, name, p, u)
  {
    SamplesAreReadings(ts, name);
    CpuPercentile(ts, name, p, u.cpu);
    MemoryPercentile(ts, name, p, u.mem);
    WorkingSetPercentile(ts, name, p, u.workingSet);
    assert Listing(ts, name) == set i | 0 <= i < |ts| && name in ts[i];
  }

  /** Reports are determined, monotone in the percentile, and the 100th bounds every snapshot. */
  lemma UsageMonotone(ts: seq<map<string, Usage>>, name: string, p: int, q: int, u: Usage, w: Usage)
    requires p <= q && NearestUsage(ts, name, p, u) && NearestUsage(ts, name, q, w)
    ensures u.cpu <= w.cpu && u.mem <= w.mem && u.workingSet <= w.workingSet
    ensures p == q ==> u == w
    ensures q == 100 ==> forall i :: 0 <= i < |ts| && name in ts[i] ==>
      ts[i][name].cpu <= w.cpu && ts[i][name].mem <= w.mem && ts[i][name].workingSet <= w.workingSet
  {
    UsageCounts(ts, name, p, u);
    UsageCounts(ts, name, q, w);
    var d := SamplesOf(ts, name);
    PercentileMonotone(d.cpu, p, q, u.cpu, w.cpu);
    PercentileMonotone(d.mem, p, q, u.mem, w.mem);
    PercentileMonotone(d.workingSet, p, q, u.workingSet, w.workingSet);
    if q == 100 {
      HundredthIsMax(d.cpu, w.cpu);
      HundredthIsMax(d.mem, w.mem);
      HundredthIsMax(d.workingSet, w.workingSet);
      var at := SamplesInOrder(ts, name);
      forall i: nat | i < |ts| && name in ts[i]
        ensures ts[i][name].cpu <= w.cpu && ts[i][name].mem <= w.mem && ts[i][name].workingSet <= w.workingSet
      {
        assert i in at;
        var j :| 0 <= j < |at| && at[j] == i;
        assert d.cpu[j] in d.cpu && d.mem[j] in d.mem && d.workingSet[j] in d.workingSet;
      }
    }
  }

  // ------------------------------------------------------- collecting, sorting, indexing

  /** Samples gathered after the first i snapshots and the visited part of snapshot i. */
  ghost predicate CollectedSoFar(ts: seq<map<string, Usage>>, i: nat, left: set<string>, data: map<string, UsageData>)
    requires i < |ts|
  {
    forall name ::
      if name in ts[i] && name !in left then name in data && data[name] == SamplesOf(ts[..i + 1], name)
      else (name in data <==> Appears(ts[..i], name)) && (name in data ==> data[name] == SamplesOf(ts[..i], name))
  }

  lemma AppearsStep(ts: seq<map<string, Usage>>, i: nat, name: string)
    requires i < |ts|
    ensures Appears(ts[..i + 1], name) <==> Appears(ts[..i], name) || name in ts[i]
  {
    assert name in ts[i] ==> name in ts[..i + 1][i];
    if Appears(ts[..i], name) {
      var j :| 0 <= j < i && name in ts[..i][j];
      assert name in ts[..i + 1][j];
    }
    if Appears(ts[..i + 1], name) && name !in ts[i] {
      var j :| 0 <= j < i + 1 && name in ts[..i + 1][j];
      assert name in ts[..i][j];
    }
  }

  /** Adds one snapshot to the samples of the containers it mentions. */
  method CollectSnapshot(ts: seq<map<string, Usage>>, i: nat, before: map<string, UsageData>)
    returns (data: map<string, UsageData>)
    requires i < |ts|
    requires forall name :: name in before <==> Appears(ts[..i], name)
    requires forall name :: name in before ==> before[name] == SamplesOf(ts[..i], name)
    ensures CollectedSoFar(ts, i, {}, data)
  {
    data := before;
    var left := ts[i].Keys;
    while left != {}
      invariant left <= ts[i].Keys
      invariant CollectedSoFar(ts, i, left, data)
      decreases left
    {
      var name :| name in left;
      left := left - {name};
      assert ts[..i + 1][..i] == ts[..i];
      SampleCounts(ts[..i], name);
      if name !in data {
        assert SamplesOf(ts[..i], name) == UsageData([], [], []);
        data := data[name := UsageData([], [], [])];
      }
      data := data[name := Extend(data[name], ts[i][name])];
    }
  }

  method CollectUsage(ts: seq<map<string, Usage>>) returns (data: map<string, UsageData>)
    ensures forall name :: name in data <==> Appears(ts, name)
    ensures forall name :: name in data ==> data[name] == SamplesOf(ts, name)
  {
    data := map[];
    for i := 0 to |ts|
      invariant forall name :: name in data <==> Appears(ts[..i], name)
      invariant forall name :: name in data ==> data[name] == SamplesOf(ts[..i], name)
    {
      data := CollectSnapshot(ts, i, data);
      assert ts[..i + 1][..i] == ts[..i];
      forall name { AppearsStep(ts, i, name); }
    }
    assert ts[..|ts|] == ts;
  }

  ghost predicate SortedData(d: UsageData, s: UsageData) {
    && SortedBy(AtMost, s.cpu) && multiset(s.cpu) == multiset(d.cpu)
    && SortedBy(AtMost, s.mem) && multiset(s.mem) == multiset(d.mem)
    && SortedBy(AtMost, s.workingSet) && multiset(s.workingSet) == multiset(d.workingSet)
  }

  method SortUsage(data: map<string, UsageData>) returns (r: map<string, UsageData>)
    ensures r.Keys == data.Keys
    ensures forall k :: k in data ==> SortedData(data[k], r[k])
  {
    AtMostIsPreorder();
    r := map[];
    var left := data.Keys;
    while left != {}
      invariant left <= data.Keys && r.Keys == data.Keys - left
      invariant forall k :: k in r ==> SortedData(data[k], r[k])
      decreases left
    {
      var k :| k in left;
      left := left - {k};
      var cpu := Sort(data[k].cpu, AtMost);
      var mem := Sort(data[k].mem, AtMost);
      var workingSet := Sort(data[k].workingSet, AtMost);
      r := r[k := UsageData(cpu, mem, workingSet)];
    }
  }

  lemma SortedUsageAt(d: UsageData, s: UsageData, p: int)
    requires SortedData(d, s) && |d.cpu| == |d.mem| == |d.workingSet| > 0 && 1 <= p <= 100
    ensures Ranked(s, p)
    ensures UsageAt(d, p, AtRank(s, p))
  {
    SameElements(s.cpu, d.cpu);
    SameElements(s.mem, d.mem);
    SameElements(s.workingSet, d.workingSet);
    var i := PercentileIndex(|s.cpu|, p);
    NearestRank(s.cpu, p);
    NearestRank(s.mem, p);
    NearestRank(s.workingSet, p);
    PercentileOfPermutation(s.cpu, d.cpu, p, s.cpu[i]);
    PercentileOfPermutation(s.mem, d.mem, p, s.mem[i]);
    PercentileOfPermutation(s.workingSet, d.workingSet, p, s.workingSet[i]);
  }

  predicate Ranked(s: UsageData, p: int) {
    |s.cpu| == |s.mem| == |s.workingSet| && 0 <= PercentileIndex(|s.cpu|, p) < |s.cpu|
  }

  /** The values at the nearest rank of three sorted lists of equal length. */
  function AtRank(s: UsageData, p: int): Usage
    requires Ranked(s, p)
  {
    var i := PercentileIndex(|s.cpu|, p);
    Usage(s.cpu[i], s.mem[i], s.workingSet[i])
  }

  /** One container of the report. */
  lemma ContainerAt(ts: seq<map<string, Usage>>, name: string, s: UsageData, p: int)
    requires Appears(ts, name) && SortedData(SamplesOf(ts, name), s) && 1 <= p <= 100
    ensures Ranked(s, p)
    ensures NearestUsage(ts, name, p, AtRank(s, p))
  {
    SampleCounts(ts, name);
    SortedUsageAt(SamplesOf(ts, name), s, p);
    UsageCounts(ts, name, p, AtRank(s, p));
  }

  /** Each container gets the nearest-rank values of its own samples; other percentiles index out of range. */
  method ComputePercentiles(ts: seq<map<string, Usage>>, percentiles: seq<int>)
    returns (result: map<int, map<string, Usage>>)
    requires forall i :: 0 <= i < |percentiles| ==> 1 <= percentiles[i] <= 100
    ensures ts == [] ==> result == map[]
    ensures ts != [] ==> forall p :: p in result <==> p in percentiles
    ensures forall p :: p in result ==> forall name :: name in result[p] <==> Appears(ts, name)
    ensures forall p :: p in result ==> forall name :: name in result[p] ==> NearestUsage(ts, name, p, result[p][name])
  {
    if ts == [] { return map[]; }
    var raw := CollectUsage(ts);
    var sorted := SortUsage(raw);
    result := map[];
    for i := 0 to |percentiles|
      invariant forall p :: p in result <==> p in percentiles[..i]
      invariant forall p :: p in result ==> result[p].Keys == raw.Keys
      invariant forall p :: p in result ==> forall name :: name in raw ==> NearestUsage(ts, name, p, result[p][name])
    {
      var perc := percentiles[i];
      var data := AtPercentile(raw, sorted, perc, ts);
      result := result[perc := data];
      assert percentiles[..i + 1] == percentiles[..i] + [perc];
    }
    assert percentiles[..|percentiles|] == percentiles;
  }

  method AtPercentile(ghost raw: map<string, UsageData>, sorted: map<string, UsageData>, perc: int,
                      ghost ts: seq<map<string, Usage>>)
    returns (data: map<string, Usage>)
    requires 1 <= perc <= 100 && sorted.Keys == raw.Keys
    requires forall k :: k in raw ==> SortedData(raw[k], sorted[k]) && raw[k] == SamplesOf(ts, k) && Appears(ts, k)
    ensures data.Keys == raw.Keys
    ensures forall k :: k in data ==> NearestUsage(ts, k, perc, data[k])
  {
    forall k | k in sorted ensures Ranked(sorted[k], perc) && NearestUsage(ts, k, perc, AtRank(sorted[k], perc)) {
      ContainerAt(ts, k, sorted[k], perc);
    }
    data := RankAll(sorted, perc);
  }

  method RankAll(sorted: map<string, UsageData>, perc: int) returns (data: map<string, Usage>)
    requires forall k :: k in sorted ==> Ranked(sorted[k], perc)
    ensures data.Keys == sorted.Keys
    ensures forall k :: k in data ==> data[k] == AtRank(sorted[k], perc)
  {
    data := map[];
    var left := sorted.Keys;
    while left != {}
      invariant left <= sorted.Keys && data.Keys == sorted.Keys - left
      invariant forall k :: k in data ==> data[k] == AtRank(sorted[k], perc)
      decreases left
    {
      var k :| k in left;
      left := left - {k};
      data := data[k := AtRank(sorted[k], perc)];
    }
  }

  /** A report's inner map, shared by reference between input and result. */
  class PerContainer {
    var usage: map<string, Usage>
  }

  /** The inner loop; `into` and `from` may be the same map. */
  method MergeInto(into: PerContainer, from: PerContainer)
    modifies into
    ensures into.usage == old(into.usage) + old(from.usage)
  {
    ghost var l, r := into.usage, from.usage;
    var keys := from.usage.Keys;
    while keys != {}
      invariant keys <= r.Keys
      invariant from.usage == r
      invariant into.usage == l + (map k | k in r && k !in keys :: r[k])
      decreases keys
    {
      var k :| k in keys;
      keys := keys - {k};
      into.usage := into.usage[k := from.usage[k]];
      assert into == from ==> into.usage == r;
    }
  }

  /**
   * `after` is `before` with the sources merged in: every key of either, and where a source has the
   * key, the value of some source that has it.
   */
  ghost predicate MergedFrom(before: map<string, Usage>, sources: set<map<string, Usage>>, after: map<string, Usage>) {
    && (forall k :: k in after <==> k in before || exists s :: s in sources && k in s)
    && (forall k :: k in after ==>
          if exists s :: s in sources && k in s then exists s :: s in sources && k in s && after[k] == s[k]
          else after[k] == before[k])
  }

  lemma MergeOneMore(before: map<string, Usage>, sources: set<map<string, Usage>>, after: map<string, Usage>,
                     s: map<string, Usage>)
    requires MergedFrom(before, sources, after)
    ensures MergedFrom(before, sources + {s}, after + s)
  {
    forall k | k in after + s
      ensures if exists t :: t in sources + {s} && k in t
              then exists t :: t in sources + {s} && k in t && (after + s)[k] == t[k]
              else (after + s)[k] == before[k]
    {
      if k in s {
        assert s in sources + {s};
      } else if t :| t in sources && k in t && after[k] == t[k] {
        assert t in sources + {s};
      }
    }
    assert s in sources + {s};
    forall k ensures k in after + s <==> k in before || exists t :: t in sources + {s} && k in t {
      if t :| t in sources && k in t { assert t in sources + {s}; }
    }
  }

  /** One source: the plain overriding merge. */
  lemma MergeOfOne(before: map<string, Usage>, s: map<string, Usage>, after: map<string, Usage>)
    requires MergedFrom(before, {s}, after)
    ensures after == before + s
  {
    assert s in {s};
  }

  /** Inner maps by percentile, and the contents inner maps had at some moment. */
  type Report = map<int, PerContainer>
  type Heap = map<PerContainer, map<string, Usage>>

  ghost function HeapOf(objects: set<PerContainer>): Heap
    reads objects
  {
    map o | o in objects :: o.usage
  }

  /** One turn of the outer loop, for percentile p, on the contents of the inner maps. */
  ghost function Visited(left: Report, right: Report, h: Heap, p: int): (h': Heap)
    requires left.Values + right.Values <= h.Keys
    ensures h'.Keys == h.Keys
  {
    if p in left && p in right then h[left[p] := h[left[p]] + h[right[p]]] else h
  }

  ghost function VisitedAll(left: Report, right: Report, h: Heap, order: seq<int>): (h': Heap)
    requires left.Values + right.Values <= h.Keys
    ensures h'.Keys == h.Keys
  {
    if order == [] then h
    else Visited(left, right, VisitedAll(left, right, h, order[..|order| - 1]), order[|order| - 1])
  }

  ghost predicate Enumerates(order: seq<int>, percentiles: set<int>) {
    Distinct(order) && forall p :: p in order <==> p in percentiles
  }

  /**
   * Left's percentiles, with right winning per container; left's inner maps are changed in place, one
   * percentile after the other in some order.  Any inner maps may be shared.
   */
  method LeftMergeData(left: Report, right: Report) returns (result: Report, ghost order: seq<int>)
    modifies left.Values
    ensures result == left && Enumerates(order, left.Keys)
    ensures var objects := left.Values + right.Values;
      HeapOf(objects) == VisitedAll(left, right, old(HeapOf(objects)), order)
  {
    ghost var objects := left.Values + right.Values;
    ghost var first := HeapOf(objects);
    result, order := map[], [];
    var todo := left.Keys;
    while todo != {}
      invariant todo <= left.Keys && result.Keys == left.Keys - todo
      invariant forall p :: p in result ==> result[p] == left[p]
      invariant Enumerates(order, left.Keys - todo)
      invariant HeapOf(objects) == VisitedAll(left, right, first, order)
      decreases todo
    {
      ghost var some := Member(todo);
      var p :| p in todo;
      result := result[p := left[p]];
      assert left[p] in left.Values;
      Visit(left, right, p);
      order := Extended(order, p, left.Keys - todo);
      todo := todo - {p};
    }
    assert result.Keys == left.Keys;
    assert forall p :: p in left ==> result[p] == left[p];
  }

  /** One percentile; every percentile of left that shares the map sees the change. */
  method Visit(left: Report, right: Report, p: int)
    requires p in left
    modifies left[p]
    ensures var objects := left.Values + right.Values;
      HeapOf(objects) == Visited(left, right, old(HeapOf(objects)), p)
  {
    if p in right {
      MergeInto(left[p], right[p]);
    }
  }

  lemma Extended(order: seq<int>, p: int, percentiles: set<int>) returns (longer: seq<int>)
    requires Enumerates(order, percentiles) && p !in percentiles
    ensures longer == order + [p] && longer[..|order|] == order && Enumerates(longer, percentiles + {p})
  {
    longer := order + [p];
    assert p !in order;
  }

  // ------------------------------------------------------- the merge does not depend on the order

  /** No map of left is right's map of another percentile. */
  ghost predicate NoCrossing(left: Report, right: Report) {
    forall p, q :: p in left && q in right && p != q ==> left[p] != right[q]
  }

  /** Contents right had for the visited percentiles at which left holds the map `o`. */
  ghost function SourcesOf(left: Report, right: Report, h: Heap, done: set<int>, o: PerContainer)
    : set<map<string, Usage>>
    requires right.Values <= h.Keys
  {
    set q | q in left && q in right && q in done && left[q] == o :: h[right[q]]
  }

  /**
   * Without crossing, whatever the order: a map of left ends with its first contents merged with
   * right's entries of all the percentiles at which left holds it.
   */
  lemma MergedInAnyOrder(left: Report, right: Report, h: Heap, order: seq<int>, p: int)
    requires left.Values + right.Values <= h.Keys && NoCrossing(left, right)
    requires Enumerates(order, left.Keys) && p in left
    ensures MergedFrom(h[left[p]], SourcesOf(left, right, h, left.Keys, left[p]),
                       VisitedAll(left, right, h, order)[left[p]])
  {
    PrefixMerged(left, right, h, order, left.Keys, left[p]);
  }

  lemma {:induction false} PrefixMerged(left: Report, right: Report, h: Heap, order: seq<int>, done: set<int>,
                                        o: PerContainer)
    requires left.Values + right.Values <= h.Keys && NoCrossing(left, right) && o in left.Values
    requires Enumerates(order, done) && done <= left.Keys
    ensures MergedFrom(h[o], SourcesOf(left, right, h, done, o), VisitedAll(left, right, h, order)[o])
    ensures forall q :: q in right && q !in done ==> VisitedAll(left, right, h, order)[right[q]] == h[right[q]]
    decreases |order|
  {
    if order == [] {
      assert SourcesOf(left, right, h, done, o) == {};
    } else {
      var n := |order| - 1;
      var p := order[n];
      assert order == order[..n] + [p];
      PrefixMerged(left, right, h, order[..n], done - {p}, o);
      MergeStep(left, right, h, done - {p}, p, o, VisitedAll(left, right, h, order[..n])[o]);
      assert done == done - {p} + {p};
    }
  }

  /** Visiting percentile p: what the map `o` holds before and after. */
  lemma MergeStep(left: Report, right: Report, h: Heap, done: set<int>, p: int, o: PerContainer,
                  now: map<string, Usage>)
    requires left.Values + right.Values <= h.Keys && p in left && o in h
    requires MergedFrom(h[o], SourcesOf(left, right, h, done, o), now)
    ensures MergedFrom(h[o], SourcesOf(left, right, h, done + {p}, o),
                       if p in right && left[p] == o then now + h[right[p]] else now)
  {
    SourcesStep(left, right, h, done, p, o);
    if p in right && left[p] == o {
      MergeOneMore(h[o], SourcesOf(left, right, h, done, o), now, h[right[p]]);
    }
  }

  lemma SourcesStep(left: Report, right: Report, h: Heap, done: set<int>, p: int, o: PerContainer)
    requires right.Values <= h.Keys && p in left
    ensures SourcesOf(left, right, h, done + {p}, o)
         == SourcesOf(left, right, h, done, o) + (if p in right && left[p] == o then {h[right[p]]} else {})
  {
    var s, t := SourcesOf(left, right, h, done + {p}, o), SourcesOf(left, right, h, done, o);
    assert p in right && left[p] == o ==> h[right[p]] in s;
    forall x | x in t ensures x in s {
      var q :| q in left && q in right && q in done && left[q] == o && h[right[q]] == x;
    }
    forall x | x in s ensures x in t || (p in right && left[p] == o && x == h[right[p]]) {
      var q :| q in left && q in right && q in done + {p} && left[q] == o && h[right[q]] == x;
      assert q != p ==> h[right[q]] in t;
    }
  }

  /** A map that no other percentile shares gets exactly the plain merge. */
  lemma UnsharedMerge(left: Report, right: Report, h: Heap, order: seq<int>, p: int)
    requires left.Values + right.Values <= h.Keys && NoCrossing(left, right)
    requires Enumerates(order, left.Keys) && p in left && forall q :: q in left && q != p ==> left[q] != left[p]
    ensures VisitedAll(left, right, h, order)[left[p]] == if p in right then h[left[p]] + h[right[p]] else h[left[p]]
  {
    MergedInAnyOrder(left, right, h, order, p);
    var after := VisitedAll(left, right, h, order)[left[p]];
    var sources := SourcesOf(left, right, h, left.Keys, left[p]);
    if p in right {
      assert sources == {h[right[p]]};
      MergeOfOne(h[left[p]], h[right[p]], after);
    } else {
      assert sources == {};
      assert after.Keys == h[left[p]].Keys;
    }
  }
}
