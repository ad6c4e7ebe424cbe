/** Histograms built from Prometheus samples, their subtraction, and the buckets a quantile is computed from. */
module Histograms {
  import opened Common

  const BUCKET_LABEL := "le"

  datatype Sample = Sample(metric: map<string, string>, value: real)

  /** Go's int(float64): truncation toward zero. */
  function Truncate(x: real): (r: int)
    ensures x >= 0.0 ==> r as real <= x < r as real + 1.0
    ensures x <= 0.0 ==> r as real - 1.0 < x <= r as real
  {
    if x >= 0.0 then x.Floor else -((-x).Floor)
  }

  function LabelsOf(s: Sample): (labels: map<string, string>)
    ensures forall k :: k in labels <==> k in s.metric && k != "le"
    ensures forall k :: k in labels ==> labels[k] == s.metric[k]
  {
    s.metric - {BUCKET_LABEL}
  }

  /** A missing bucket label reads as the empty string. */
  function BoundOf(s: Sample): (le: string)
    ensures "le" in s.metric ==> s.metric["le"] == le
    ensures "le" !in s.metric ==> le == ""
  {
    if BUCKET_LABEL in s.metric then s.metric[BUCKET_LABEL] else ""
  }

  function Count(counts: map<string, int>, le: string): int {
    if le in counts then counts[le] else 0
  }

  function Increment(counts: map<string, int>, s: Sample): map<string, int> {
    counts[BoundOf(s) := Count(counts, BoundOf(s)) + Truncate(s.value)]
  }

  // ------------------------------------------------------- vector of histograms

  /** Samples that land in the cell (labels, le). */
  ghost function CellSum(samples: seq<Sample>, labels: map<string, string>, le: string): int {
    if samples == [] then 0
    else
      var s := samples[|samples| - 1];
      CellSum(samples[..|samples| - 1], labels, le)
      + (if LabelsOf(s) == labels && BoundOf(s) == le then Truncate(s.value) else 0)
  }

  ghost predicate SampleWith(samples: seq<Sample>, labels: map<string, string>) {
    exists i :: 0 <= i < |samples| && LabelsOf(samples[i]) == labels
  }

  ghost predicate SampleIn(samples: seq<Sample>, labels: map<string, string>, le: string) {
    exists i :: 0 <= i < |samples| && LabelsOf(samples[i]) == labels && BoundOf(samples[i]) == le
  }

  /** A bucket map, held by reference: copying a histogram shares it. */
  class BucketMap {
    var counts: map<string, int>
    constructor ()
      ensures counts == map[]
    {
      counts := map[];
    }
  }

  datatype Histogram = Histogram(labels: map<string, string>, buckets: BucketMap)

  ghost predicate HasLabels(hists: seq<Histogram>, labels: map<string, string>) {
    exists i :: 0 <= i < |hists| && hists[i].labels == labels
  }

  lemma HasLabelsExtends(hists: seq<Histogram>, h: Histogram, labels: map<string, string>)
    ensures HasLabels(hists + [h], labels) <==> HasLabels(hists, labels) || h.labels == labels
  {
    var all := hists + [h];
    assert all[|hists|] == h;
    if HasLabels(hists, labels) {
      var i :| 0 <= i < |hists| && hists[i].labels == labels;
      assert all[i].labels == labels;
    }
  }

  class HistogramVec {
    var hists: seq<Histogram>

    constructor ()
      ensures hists == []
    {
      hists := [];
    }

    ghost function BucketMaps(): set<BucketMap> reads this {
      set i | 0 <= i < |hists| :: hists[i].buckets
    }

    /** Label sets and bucket maps are pairwise distinct; each cell is the sum of exactly its samples. */
    ghost predicate Holds(samples: seq<Sample>) reads this, BucketMaps() {
      && (forall i, j :: 0 <= i < j < |hists| ==>
            hists[i].labels != hists[j].labels && hists[i].buckets != hists[j].buckets)
      && (forall labels :: SampleWith(samples, labels) <==> HasLabels(hists, labels))
      && (forall i :: 0 <= i < |hists| ==> CellsHold(hists[i], samples))
    }

    static ghost predicate CellsHold(h: Histogram, samples: seq<Sample>) reads h.buckets {
      forall le ::
        && (le in h.buckets.counts <==> SampleIn(samples, h.labels, le))
        && Count(h.buckets.counts, le) == CellSum(samples, h.labels, le)
    }

    /** `past` is every sample converted so far. */
    method ConvertSampleToBucket(sample: Sample, ghost past: seq<Sample>)
      requires Holds(past)
      modifies this, BucketMaps()
      ensures Holds(past + [sample])
      ensures old(hists) <= hists
      ensures forall i :: |old(hists)| <= i < |hists| ==> fresh(hists[i].buckets)
    {
      var labels := LabelsOf(sample);
      var k := 0;
      while k < |hists| && hists[k].labels != labels
        invariant 0 <= k <= |hists|
        invariant forall i :: 0 <= i < k ==> hists[i].labels != labels
      {
        k := k + 1;
      }
      ghost var before := hists;
      var hist: Histogram;
      if k == |hists| {
        var empty := new BucketMap();
        hist := Histogram(labels, empty);
        assert !HasLabels(hists, labels);
        NoSampleNoSum(past, labels);
        hists := hists + [hist];
        assert CellsHold(hist, past);
        forall l { HasLabelsExtends(before, hist, l); }
      } else {
        hist := hists[k];
        assert HasLabels(hists, labels);
      }
      assert forall l :: HasLabels(hists, l) <==> SampleWith(past, l) || l == labels;
      assert forall i :: 0 <= i < |hists| ==> CellsHold(hists[i], past);
      Bump(hist, k, sample, past);
      forall l ensures SampleWith(past + [sample], l) <==> HasLabels(hists, l) {
        SampleWithExtends(past, sample, l);
      }
    }

    /** Adds the sample to the k-th histogram through the copy `hist` that shares its bucket map. */
    method Bump(hist: Histogram, ghost k: nat, sample: Sample, ghost past: seq<Sample>)
      requires k < |hists| && hists[k] == hist && hist.labels == LabelsOf(sample)
      requires forall i, j :: 0 <= i < j < |hists| ==>
        hists[i].labels != hists[j].labels && hists[i].buckets != hists[j].buckets
      requires forall i :: 0 <= i < |hists| ==> CellsHold(hists[i], past)
      modifies hist.buckets
      ensures forall i :: 0 <= i < |hists| ==> CellsHold(hists[i], past + [sample])
    {
      hist.buckets.counts := Increment(hist.buckets.counts, sample);
      forall i | 0 <= i < |hists| ensures CellsHold(hists[i], past + [sample]) {
        assert old(CellsHold(hists[i], past));
        CellsExtend(hists[i].labels, past, sample);
      }
    }
  }

  lemma CellsExtend(labels: map<string, string>, past: seq<Sample>, s: Sample)
    ensures forall le ::
      CellSum(past + [s], labels, le)
      == CellSum(past, labels, le) + (if LabelsOf(s) == labels && BoundOf(s) == le then Truncate(s.value) else 0)
    ensures forall le ::
      SampleIn(past + [s], labels, le) <==> SampleIn(past, labels, le) || (LabelsOf(s) == labels && BoundOf(s) == le)
  {
    var all := past + [s];
    assert all[..|past|] == past && all[|past|] == s;
    forall le
      ensures SampleIn(all, labels, le) <==> SampleIn(past, labels, le) || (LabelsOf(s) == labels && BoundOf(s) == le)
    {
      if SampleIn(past, labels, le) {
        var i :| 0 <= i < |past| && LabelsOf(past[i]) == labels && BoundOf(past[i]) == le;
        assert all[i] == past[i];
      }
    }
  }

  lemma SampleWithExtends(past: seq<Sample>, s: Sample, labels: map<string, string>)
    ensures SampleWith(past + [s], labels) <==> SampleWith(past, labels) || LabelsOf(s) == labels
  {
    var all := past + [s];
    assert all[|past|] == s;
    if SampleWith(past, labels) {
      var i :| 0 <= i < |past| && LabelsOf(past[i]) == labels;
      assert all[i] == past[i];
    }
  }

  lemma {:induction false} NoSampleNoSum(samples: seq<Sample>, labels: map<string, string>)
    requires !SampleWith(samples, labels)
    ensures forall le :: CellSum(samples, labels, le) == 0 && !SampleIn(samples, labels, le)
  {
    if samples != [] {
      var n := |samples| - 1;
      assert LabelsOf(samples[n]) != labels;
      assert !SampleWith(samples[..n], labels);
      NoSampleNoSum(samples[..n], labels);
    }
  }

  /** Folding any sample sequence. */
  method ConvertAll(samples: seq<Sample>) returns (vec: HistogramVec)
    ensures fresh(vec) && vec.Holds(samples)
  {
    vec := new HistogramVec();
    for i := 0 to |samples|
      invariant fresh(vec) && fresh(vec.BucketMaps())
      invariant vec.Holds(samples[..i])
    {
      assert samples[..i + 1] == samples[..i] + [samples[i]];
      vec.ConvertSampleToBucket(samples[i], samples[..i]);
    }
    assert samples[..|samples|] == samples;
  }

  // ------------------------------------------------------- one histogram, and subtraction

  class SingleHistogram {
    var labels: map<string, string>
    var counts: map<string, int>

    constructor ()
      ensures labels == map[] && counts == map[]
    {
      labels, counts := map[], map[];
    }

    method ConvertSampleToHistogram(sample: Sample)
      modifies this
      ensures labels == LabelsOf(sample) && counts == Increment(old(counts), sample)
      ensures counts.Keys == old(counts.Keys) + {BoundOf(sample)}
      ensures forall k :: k in counts ==>
        counts[k] == (if k in old(counts) then old(counts)[k] else 0) + (if k ==
          BoundOf(sample) then Truncate(sample.value) else 0)
    {
      labels := LabelsOf(sample);
      var le := BoundOf(sample);
      counts := counts[le := Count(counts, le) + Truncate(sample.value)];
    }

    /** Bounds only present in `initial` are ignored; `initial` may be this very histogram. */
    method HistogramSub(initial: SingleHistogram)
      modifies `counts
      ensures counts == Difference(old(counts), old(initial.counts))
      ensures counts.Keys == old(counts.Keys)
      ensures forall k :: k in counts ==>
        counts[k] == old(counts)[k] - (if k in old(initial.counts) then old(initial.counts)[k] else 0)
    {
      ghost var f, g := counts, initial.counts;
      var left := counts.Keys;
      while left != {}
        invariant left <= f.Keys && counts.Keys == f.Keys
        invariant forall k :: k in f ==> counts[k] == if k in left then f[k] else f[k] - Count(g, k)
        invariant initial != this ==> initial.counts == g
        decreases left
      {
        var k :| k in left;
        left := left - {k};
        assert Count(initial.counts, k) == Count(g, k);
        counts := counts[k := counts[k] - Count(initial.counts, k)];
      }
    }
  }

  function Difference(a: map<string, int>, b: map<string, int>): map<string, int> {
    map k | k in a :: a[k] - Count(b, k)
  }

  /** Counts after converting a whole scrape into one histogram, whatever the samples' labels. */
  ghost function Accumulated(samples: seq<Sample>): map<string, int> {
    if samples == [] then map[]
    else Increment(Accumulated(samples[..|samples| - 1]), samples[|samples| - 1])
  }

  method ConvertScrape(samples: seq<Sample>) returns (h: SingleHistogram)
    ensures fresh(h) && h.counts == Accumulated(samples)
  {
    h := new SingleHistogram();
    for i := 0 to |samples|
      invariant fresh(h) && h.counts == Accumulated(samples[..i])
    {
      assert samples[..i + 1][..i] == samples[..i];
      h.ConvertSampleToHistogram(samples[i]);
    }
    assert samples[..|samples|] == samples;
  }

  function Contribution(s: Sample, le: string): int {
    if BoundOf(s) == le then Truncate(s.value) else 0
  }

  ghost function BoundSum(samples: seq<Sample>, le: string): int {
    if samples == [] then 0 else Contribution(samples[0], le) + BoundSum(samples[1..], le)
  }

  ghost predicate HasBound(samples: seq<Sample>, le: string) {
    exists i :: 0 <= i < |samples| && BoundOf(samples[i]) == le
  }

  lemma {:induction false} BoundSumSplits(s: seq<Sample>, t: seq<Sample>, le: string)
    ensures BoundSum(s + t, le) == BoundSum(s, le) + BoundSum(t, le)
  {
    if s == [] {
      assert s + t == t;
    } else {
      assert (s + t)[1..] == s[1..] + t;
      BoundSumSplits(s[1..], t, le);
    }
  }

  lemma {:induction false} AccumulatedIsSum(samples: seq<Sample>, le: string)
    ensures Count(Accumulated(samples), le) == BoundSum(samples, le)
    ensures le in Accumulated(samples) <==> HasBound(samples, le)
  {
    if samples != [] {
      var n := |samples| - 1;
      var last := samples[n];
      AccumulatedIsSum(samples[..n], le);
      assert samples == samples[..n] + [last];
      BoundSumSplits(samples[..n], [last], le);
      assert [last][1..] == [];
      HasBoundSplits(samples[..n], [last], le);
    }
  }

  /** The order of samples in a scrape does not matter. */
  lemma {:induction false} BoundSumOfPermutation(s: seq<Sample>, t: seq<Sample>, le: string)
    requires multiset(s) == multiset(t)
    ensures BoundSum(s, le) == BoundSum(t, le)
  {
    if s == [] {
      SameElements(s, t);
    } else {
      var i := HeadInPermutation(s, t);
      BoundSumOfPermutation(s[1..], t[..i] + t[i + 1..], le);
      BoundSumWithout(t, i, le);
    }
  }

  /** Nor does it matter for the accumulated histogram. */
  lemma AccumulatedOfPermutation(s: seq<Sample>, t: seq<Sample>)
    requires multiset(s) == multiset(t)
    ensures Accumulated(s) == Accumulated(t)
  {
    forall le
      ensures le in Accumulated(s) <==> le in Accumulated(t)
      ensures Count(Accumulated(s), le) == Count(Accumulated(t), le)
    {
      AccumulatedIsSum(s, le);
      AccumulatedIsSum(t, le);
      BoundSumOfPermutation(s, t, le);
      SameBounds(s, t, le);
    }
    assert forall le :: le in Accumulated(s) ==> Accumulated(s)[le] == Count(Accumulated(s), le);
    assert forall le :: le in Accumulated(t) ==> Accumulated(t)[le] == Count(Accumulated(t), le);
  }

  lemma SameBounds(s: seq<Sample>, t: seq<Sample>, le: string)
    requires multiset(s) == multiset(t)
    ensures HasBound(s, le) <==> HasBound(t, le)
  {
    SameElements(s, t);
    if HasBound(s, le) {
      var i :| 0 <= i < |s| && BoundOf(s[i]) == le;
      assert s[i] in t;
    }
    if HasBound(t, le) {
      var i :| 0 <= i < |t| && BoundOf(t[i]) == le;
      assert t[i] in s;
    }
  }

  lemma BoundSumWithout(t: seq<Sample>, i: nat, le: string)
    requires i < |t|
    ensures BoundSum(t, le) == Contribution(t[i], le) + BoundSum(t[..i] + t[i + 1..], le)
  {
    var tail := t[i..];
    assert t == t[..i] + tail && tail[1..] == t[i + 1..];
    BoundSumSplits(t[..i], tail, le);
    BoundSumSplits(t[..i], t[i + 1..], le);
  }

  // ------------------------------------------------------- cumulative series

  /** One time series: its labels and the observations it made in each range between bounds. */
  datatype Series = Series(labels: map<string, string>, ranges: seq<nat>)

  /** Observations at or below the j-th bound. */
  ghost function UpTo(ranges: seq<nat>, j: nat): nat
    requires j <= |ranges|
  {
    if j == 0 then 0 else UpTo(ranges, j - 1) + ranges[j - 1]
  }

  ghost function SeriesSamples(s: Series, bounds: seq<string>, j: nat): seq<Sample>
    requires j <= |bounds| == |s.ranges|
  {
    if j == 0 then []
    else
      SeriesSamples(s, bounds, j - 1) + [Sample(s.labels[BUCKET_LABEL := bounds[j - 1]], UpTo(s.ranges, j) as real)]
  }

  ghost predicate Scrape(scrape: seq<Series>, bounds: seq<string>) {
    forall i :: 0 <= i < |scrape| ==> |scrape[i].ranges| == |bounds|
  }

  ghost function ScrapeSamples(scrape: seq<Series>, bounds: seq<string>): seq<Sample>
    requires Scrape(scrape, bounds)
  {
    if scrape == [] then []
    else SeriesSamples(scrape[0], bounds, |bounds|) + ScrapeSamples(scrape[1..], bounds)
  }

  /** Observations of all series at or below the j-th bound. */
  ghost function TotalUpTo(scrape: seq<Series>, bounds: seq<string>, j: nat): nat
    requires Scrape(scrape, bounds) && j <= |bounds|
  {
    if scrape == [] then 0 else UpTo(scrape[0].ranges, j) + TotalUpTo(scrape[1..], bounds, j)
  }

  lemma {:induction false} SeriesBoundSum(s: Series, bounds: seq<string>, j: nat, b: nat)
    requires j <= |bounds| == |s.ranges| && b < |bounds| && Distinct(bounds)
    ensures BoundSum(SeriesSamples(s, bounds, j), bounds[b]) == if b < j then UpTo(s.ranges, b + 1) else 0
    ensures forall i :: 0 <= i < |SeriesSamples(s, bounds, j)| ==> BoundOf(SeriesSamples(s, bounds, j)[i]) in bounds
  {
    if j > 0 {
      SeriesBoundSum(s, bounds, j - 1, b);
      var last := [Sample(s.labels[BUCKET_LABEL := bounds[j - 1]], UpTo(s.ranges, j) as real)];
      BoundSumSplits(SeriesSamples(s, bounds, j - 1), last, bounds[b]);
      assert last[1..] == [] && BoundOf(last[0]) == bounds[j - 1];
      assert Truncate(last[0].value) == UpTo(s.ranges, j);
    }
  }

  lemma {:induction false} ScrapeBoundSum(scrape: seq<Series>, bounds: seq<string>, b: nat)
    requires Scrape(scrape, bounds) && b < |bounds| && Distinct(bounds)
    ensures BoundSum(ScrapeSamples(scrape, bounds), bounds[b]) == TotalUpTo(scrape, bounds, b + 1)
  {
    if scrape != [] {
      SeriesBoundSum(scrape[0], bounds, |bounds|, b);
      ScrapeBoundSum(scrape[1..], bounds, b);
      BoundSumSplits(SeriesSamples(scrape[0], bounds, |bounds|), ScrapeSamples(scrape[1..], bounds), bounds[b]);
    }
  }

  /** A scrape's samples accumulate to the totals of its series. */
  lemma AccumulatedScrape(scrape: seq<Series>, bounds: seq<string>, b: nat)
    requires Scrape(scrape, bounds) && b < |bounds| && Distinct(bounds)
    ensures Count(Accumulated(ScrapeSamples(scrape, bounds)), bounds[b]) == TotalUpTo(scrape, bounds, b + 1)
  {
    AccumulatedIsSum(ScrapeSamples(scrape, bounds), bounds[b]);
    ScrapeBoundSum(scrape, bounds, b);
  }

  /** No series of the earlier scrape lost observations; later scrapes may have more series. */
  ghost predicate NoDecrease(initial: seq<Series>, final: seq<Series>, bounds: seq<string>) {
    && Scrape(initial, bounds) && Scrape(final, bounds) && |initial| <= |final|
    && forall i :: 0 <= i < |initial| ==> RangesAtMost(initial[i].ranges, final[i].ranges)
  }

  ghost predicate RangesAtMost(a: seq<nat>, b: seq<nat>) {
    |a| == |b| && forall r :: 0 <= r < |a| ==> a[r] <= b[r]
  }

  lemma {:induction false} UpToDifference(a: seq<nat>, b: seq<nat>, j: nat)
    requires RangesAtMost(a, b) && j + 1 <= |a|
    ensures UpTo(a, j) <= UpTo(b, j)
    ensures UpTo(b, j) - UpTo(a, j) <= UpTo(b, j + 1) - UpTo(a, j + 1)
  {
    if j > 0 { UpToDifference(a, b, j - 1); }
  }

  lemma {:induction false} TotalDifference(initial: seq<Series>, final: seq<Series>, bounds: seq<string>, j: nat)
    requires NoDecrease(initial, final, bounds) && j + 1 <= |bounds|
    ensures 0 <= TotalUpTo(final, bounds, j) - TotalUpTo(initial, bounds, j)
              <= TotalUpTo(final, bounds, j + 1) - TotalUpTo(initial, bounds, j + 1)
  {
    if final != [] {
      if initial == [] {
        TotalDifference([], final[1..], bounds, j);
      } else {
        UpToDifference(initial[0].ranges, final[0].ranges, j);
        TotalDifference(initial[1..], final[1..], bounds, j);
      }
    }
  }

  /** Bucket counts after an earlier scrape is subtracted from a later one. */
  ghost function NewCounts(initial: seq<Series>, final: seq<Series>, bounds: seq<string>): map<string, int>
    requires Scrape(initial, bounds) && Scrape(final, bounds)
  {
    Difference(Accumulated(ScrapeSamples(final, bounds)), Accumulated(ScrapeSamples(initial, bounds)))
  }

  /** The number of observations up to a bound made between the two scrapes. */
  lemma DifferenceCountsNew(initial: seq<Series>, final: seq<Series>, bounds: seq<string>, b: nat)
    requires NoDecrease(initial, final, bounds) && b < |bounds| && Distinct(bounds)
    ensures Count(NewCounts(initial, final, bounds), bounds[b])
         == TotalUpTo(final, bounds, b + 1) - TotalUpTo(initial, bounds, b + 1) >= 0
  {
    AccumulatedScrape(initial, bounds, b);
    AccumulatedScrape(final, bounds, b);
    TotalDifference(initial, final, bounds, b);
  }

  /** Several cumulative series summed into one histogram, minus an earlier scrape: still cumulative. */
  lemma DifferenceIsCumulative(initial: seq<Series>, final: seq<Series>, bounds: seq<string>, b: nat)
    requires NoDecrease(initial, final, bounds) && b + 1 < |bounds| && Distinct(bounds)
    ensures var counts := NewCounts(initial, final, bounds);
      0 <= Count(counts, bounds[b]) <= Count(counts, bounds[b + 1])
  {
    DifferenceCountsNew(initial, final, bounds, b);
    DifferenceCountsNew(initial, final, bounds, b + 1);
    TotalDifference(initial, final, bounds, b + 1);
  }

  // ------------------------------------------------------- buckets for a quantile

  /** Upper bounds as ParseFloat returns them. */
  datatype Bound = Finite(value: real) | Infinite

  datatype Bucket = Bucket(upper: Bound, cumulative: nat)

  predicate BoundAtMost(a: Bound, b: Bound) {
    b.Infinite? || (a.Finite? && a.value <= b.value)
  }

  predicate BucketAtMost(a: Bucket, b: Bucket) { BoundAtMost(a.upper, b.upper) }

  lemma BucketAtMostIsPreorder()
    ensures TotalPreorder(BucketAtMost)
  {
  }

  /** uint64(v) of a signed count: negative counts wrap. */
  function AsUnsigned(v: int): (r: nat)
    ensures 0 <= v < 0x1_0000_0000_0000_0000 ==> r == v
    ensures -0x1_0000_0000_0000_0000 <= v < 0 ==> r == v + 0x1_0000_0000_0000_0000
  {
    v % 0x1_0000_0000_0000_0000
  }

  function BucketOf(counts: map<string, int>, parse: string -> Option<Bound>, le: string): Bucket
    requires le in counts && parse(le).Some?
  {
    Bucket(parse(le).value, AsUnsigned(counts[le]))
  }

  ghost predicate AllParsed(counts: map<string, int>, parse: string -> Option<Bound>) {
    forall le :: le in counts ==> parse(le).Some?
  }

  /** The buckets of the given bounds, in that order. */
  ghost function BucketsOf(counts: map<string, int>, parse: string -> Option<Bound>, keys: seq<string>): seq<Bucket>
    requires AllParsed(counts, parse) && forall le :: le in keys ==> le in counts
  {
    seq(|keys|, i requires 0 <= i < |keys| => BucketOf(counts, parse, keys[i]))
  }

  ghost predicate PreparedFrom(counts: map<string, int>, parse: string -> Option<Bound>, keys: seq<string>,
                               sorted: seq<Bucket>)
  {
    && AllParsed(counts, parse)
    && Distinct(keys) && (forall le :: le in keys <==> le in counts)
    && multiset(sorted) == multiset(BucketsOf(counts, parse, keys))
  }

  /** A later bucket is not the lower one: infinite bounds come last, finite ones do not fall. */
  ghost predicate Rising(buckets: seq<Bucket>) {
    forall i, j :: 0 <= i < j < |buckets| && buckets[j].upper.Finite? ==>
      buckets[i].upper.Finite? && buckets[i].upper.value <= buckets[j].upper.value
  }

  /** Exactly one bucket per bound, sorted by bound; equal bounds may come in either order. */
  ghost predicate Prepared(counts: map<string, int>, parse: string -> Option<Bound>, sorted: seq<Bucket>) {
    Rising(sorted) && exists keys :: PreparedFrom(counts, parse, keys, sorted)
  }

  /** No key parses to a larger bound than le. */
  ghost predicate IsTop(counts: map<string, int>, parse: string -> Option<Bound>, le: string) {
    && le in counts && parse(le).Some?
    && (parse(le).value.Finite? ==> forall k :: k in counts ==>
          parse(k).Some? && parse(k).value.Finite? && parse(k).value.value <= parse(le).value.value)
  }

  /** One bucket per bound, in whatever order the map is iterated. */
  method CollectBuckets(counts: map<string, int>, parse: string -> Option<Bound>)
    returns (raw: Result<seq<Bucket>, string>, ghost keys: seq<string>)
    ensures raw.Err? ==> !AllParsed(counts, parse)
    ensures raw.Ok? ==> Distinct(keys) && |raw.value| == |keys| && forall le :: le in keys <==> le in counts
    ensures raw.Ok? ==> forall i :: 0 <= i < |keys| ==>
      parse(keys[i]).Some? && raw.value[i] == BucketOf(counts, parse, keys[i])
  {
    raw := Ok([]);
    keys := [];
    var left := counts.Keys;
    while left != {}
      invariant left <= counts.Keys && raw.Ok? && |raw.value| == |keys| && Distinct(keys)
      invariant forall le :: le in keys <==> le in counts && le !in left
      invariant forall i :: 0 <= i < |keys| ==> parse(keys[i]).Some? && raw.value[i] == BucketOf(counts, parse, keys[i])
      decreases left
    {
      var le :| le in left;
      left := left - {le};
      var upper := parse(le);
      if upper.None? { return Err(le), []; }
      assert le !in keys;
      raw := Ok(raw.value + [Bucket(upper.value, AsUnsigned(counts[le]))]);
      keys := keys + [le];
    }
  }

  /** The sorted buckets and the sample count taken from the last one; an error when a bound does not parse. */
  method PrepareBuckets(counts: map<string, int>, parse: string -> Option<Bound>)
    returns (r: Result<(seq<Bucket>, Option<nat>), string>)
    ensures r.Ok? <==> AllParsed(counts, parse)
    ensures r.Ok? ==>
      && Prepared(counts, parse, r.value.0)
      && (r.value.1.None? <==> counts == map[])
      && (r.value.1.Some? ==> exists le :: IsTop(counts, parse, le) && r.value.1.value == AsUnsigned(counts[le]))
      && (r.value.1.Some? ==> r.value.0 != [] && r.value.1.value == r.value.0[|r.value.0| - 1].cumulative)
  {
    var raw, keys := CollectBuckets(counts, parse);
    if raw.Err? { return Err(raw.error); }
    BucketAtMostIsPreorder();
    var sorted := Sort(raw.value, BucketAtMost);
    EnumeratedBuckets(counts, parse, keys, raw.value, sorted);
    if counts != map[] {
      ghost var le := LastBucketKey(counts, parse, keys, sorted);
    } else {
      assert keys == [];
    }
    return Ok((sorted, if sorted == [] then None else Some(sorted[|sorted| - 1].cumulative)));
  }

  lemma EnumeratedBuckets(counts: map<string, int>, parse: string -> Option<Bound>, keys: seq<string>,
                          raw: seq<Bucket>, sorted: seq<Bucket>)
    requires Distinct(keys) && |raw| == |keys| && multiset(sorted) == multiset(raw)
    requires forall le :: le in keys <==> le in counts
    requires forall i :: 0 <= i < |keys| ==> parse(keys[i]).Some? && raw[i] == BucketOf(counts, parse, keys[i])
    ensures PreparedFrom(counts, parse, keys, sorted)
  {
    forall le | le in counts ensures parse(le).Some? {
      assert le in keys;
      var i :| 0 <= i < |keys| && keys[i] == le;
    }
    assert raw == BucketsOf(counts, parse, keys);
  }

  lemma BoundHasBucket(counts: map<string, int>, parse: string -> Option<Bound>, keys: seq<string>,
                       sorted: seq<Bucket>, le: string)
    returns (i: nat)
    requires PreparedFrom(counts, parse, keys, sorted) && le in counts
    ensures i < |sorted| && sorted[i] == BucketOf(counts, parse, le)
  {
    var bs := BucketsOf(counts, parse, keys);
    assert le in keys;
    var n :| 0 <= n < |keys| && keys[n] == le;
    SameElements(sorted, bs);
    assert bs[n] in sorted;
    i :| i < |sorted| && sorted[i] == bs[n];
  }

  lemma BucketHasBound(counts: map<string, int>, parse: string -> Option<Bound>, keys: seq<string>,
                       sorted: seq<Bucket>, i: nat)
    returns (le: string)
    requires PreparedFrom(counts, parse, keys, sorted) && i < |sorted|
    ensures le in counts && sorted[i] == BucketOf(counts, parse, le)
  {
    var bs := BucketsOf(counts, parse, keys);
    SameElements(sorted, bs);
    assert sorted[i] in bs;
    var n :| 0 <= n < |bs| && bs[n] == sorted[i];
    le := keys[n];
    assert le in keys;
  }

  ghost predicate Ascending(bounds: seq<string>, parse: string -> Option<Bound>) {
    && (forall i :: 0 <= i < |bounds| ==> parse(bounds[i]).Some?)
    && forall i, j :: 0 <= i < j < |bounds| ==>
         && parse(bounds[i]).value.Finite?
         && (parse(bounds[j]).value.Finite? ==> parse(bounds[i]).value.value < parse(bounds[j]).value.value)
  }

  /** The last bucket belongs to a key whose bound no other key exceeds. */
  lemma LastBucketKey(counts: map<string, int>, parse: string -> Option<Bound>, keys: seq<string>, sorted: seq<Bucket>)
    returns (le: string)
    requires PreparedFrom(counts, parse, keys, sorted) && Rising(sorted) && counts != map[]
    ensures sorted != [] && IsTop(counts, parse, le) && sorted[|sorted| - 1] == BucketOf(counts, parse, le)
  {
    var some :| some in counts;
    var _ := BoundHasBucket(counts, parse, keys, sorted, some);
    le := BucketHasBound(counts, parse, keys, sorted, |sorted| - 1);
    forall k | k in counts && parse(le).value.Finite?
      ensures parse(k).value.Finite? && parse(k).value.value <= parse(le).value.value
    {
      var i := BoundHasBucket(counts, parse, keys, sorted, k);
      assert sorted[i].upper == parse(k).value && sorted[|sorted| - 1].upper == parse(le).value;
    }
  }

  /** The sample count is the count stored under the greatest bound. */
  lemma SampleCountIsLastBound(counts: map<string, int>, parse: string -> Option<Bound>, bounds: seq<string>,
                               sorted: seq<Bucket>)
    requires Ascending(bounds, parse) && bounds != [] && forall le :: le in counts <==> le in bounds
    requires Prepared(counts, parse, sorted)
    ensures sorted != []
    ensures sorted[|sorted| - 1].cumulative == AsUnsigned(counts[bounds[|bounds| - 1]])
  {
    var keys :| PreparedFrom(counts, parse, keys, sorted);
    var top := bounds[|bounds| - 1];
    assert top in counts;
    var le := LastBucketKey(counts, parse, keys, sorted);
    var j :| 0 <= j < |bounds| && bounds[j] == le;
  }

  lemma {:induction false} ScrapeHasEveryBound(scrape: seq<Series>, bounds: seq<string>, le: string)
    requires Scrape(scrape, bounds) && scrape != []
    ensures HasBound(ScrapeSamples(scrape, bounds), le) <==> le in bounds
  {
    var first, rest := SeriesSamples(scrape[0], bounds, |bounds|), ScrapeSamples(scrape[1..], bounds);
    SeriesBounds(scrape[0], bounds, |bounds|, le);
    assert bounds[..|bounds|] == bounds;
    if |scrape| > 1 { ScrapeHasEveryBound(scrape[1..], bounds, le); }
    HasBoundSplits(first, rest, le);
  }

  lemma HasBoundSplits(s: seq<Sample>, t: seq<Sample>, le: string)
    ensures HasBound(s + t, le) <==> HasBound(s, le) || HasBound(t, le)
  {
    var u := s + t;
    assert forall i :: 0 <= i < |s| ==> u[i] == s[i];
    assert forall i :: 0 <= i < |t| ==> u[|s| + i] == t[i];
    if HasBound(t, le) {
      var i :| 0 <= i < |t| && BoundOf(t[i]) == le;
      assert BoundOf(u[|s| + i]) == le;
    }
    if i :| 0 <= i < |u| && BoundOf(u[i]) == le {
      assert i >= |s| ==> u[i] == t[i - |s|];
    }
  }

  lemma {:induction false} SeriesBounds(s: Series, bounds: seq<string>, j: nat, le: string)
    requires j <= |bounds| == |s.ranges|
    ensures HasBound(SeriesSamples(s, bounds, j), le) <==> le in bounds[..j]
  {
    if j > 0 {
      SeriesBounds(s, bounds, j - 1, le);
      assert bounds[..j] == bounds[..j - 1] + [bounds[j - 1]];
      var last := [Sample(s.labels[BUCKET_LABEL := bounds[j - 1]], UpTo(s.ranges, j) as real)];
      assert BoundOf(last[0]) == bounds[j - 1];
      HasBoundSplits(SeriesSamples(s, bounds, j - 1), last, le);
    }
  }

  lemma ScrapeBounds(scrape: seq<Series>, bounds: seq<string>)
    requires Scrape(scrape, bounds) && scrape != []
    ensures forall le :: le in Accumulated(ScrapeSamples(scrape, bounds)) <==> le in bounds
  {
    forall le ensures le in Accumulated(ScrapeSamples(scrape, bounds)) <==> le in bounds {
      AccumulatedIsSum(ScrapeSamples(scrape, bounds), le);
      ScrapeHasEveryBound(scrape, bounds, le);
    }
  }

  /** Whatever order the samples of the two scrapes arrive in, the difference is the same. */
  lemma DifferenceIgnoresOrder(initial: seq<Series>, final: seq<Series>, bounds: seq<string>,
                               before: seq<Sample>, after: seq<Sample>)
    requires Scrape(initial, bounds) && Scrape(final, bounds)
    requires multiset(before) == multiset(ScrapeSamples(initial, bounds))
    requires multiset(after) == multiset(ScrapeSamples(final, bounds))
    ensures Difference(Accumulated(after), Accumulated(before)) == NewCounts(initial, final, bounds)
  {
    AccumulatedOfPermutation(before, ScrapeSamples(initial, bounds));
    AccumulatedOfPermutation(after, ScrapeSamples(final, bounds));
  }

  /**
   * End to end, for the samples of two scrapes in any order: the sample count a quantile is computed
   * from is the number of observations made between them.
   */
  lemma SampleCountIsNewObservations(initial: seq<Series>, final: seq<Series>, bounds: seq<string>,
                                     before: seq<Sample>, after: seq<Sample>,
                                     parse: string -> Option<Bound>, sorted: seq<Bucket>)
    requires NoDecrease(initial, final, bounds) && final != [] && bounds != []
    requires Distinct(bounds) && Ascending(bounds, parse)
    requires multiset(before) == multiset(ScrapeSamples(initial, bounds))
    requires multiset(after) == multiset(ScrapeSamples(final, bounds))
    requires TotalUpTo(final, bounds, |bounds|) < 0x1_0000_0000_0000_0000
    requires Prepared(Difference(Accumulated(after), Accumulated(before)), parse, sorted)
    ensures sorted != []
    ensures sorted[|sorted| - 1].cumulative
         == TotalUpTo(final, bounds, |bounds|) - TotalUpTo(initial, bounds, |bounds|)
  {
    DifferenceIgnoresOrder(initial, final, bounds, before, after);
    LastBucketCountsNew(initial, final, bounds, parse, sorted);
  }

  lemma LastBucketCountsNew(initial: seq<Series>, final: seq<Series>, bounds: seq<string>,
                            parse: string -> Option<Bound>, sorted: seq<Bucket>)
    requires NoDecrease(initial, final, bounds) && final != [] && bounds != []
    requires Distinct(bounds) && Ascending(bounds, parse)
    requires TotalUpTo(final, bounds, |bounds|) < 0x1_0000_0000_0000_0000
    requires Prepared(NewCounts(initial, final, bounds), parse, sorted)
    ensures sorted != []
    ensures sorted[|sorted| - 1].cumulative
         == TotalUpTo(final, bounds, |bounds|) - TotalUpTo(initial, bounds, |bounds|)
  {
    NewTotal(initial, final, bounds);
    SampleCountIsLastBound(NewCounts(initial, final, bounds), parse, bounds, sorted);
  }

  /** Under the last bound stands the number of all new observations. */
  lemma NewTotal(initial: seq<Series>, final: seq<Series>, bounds: seq<string>)
    requires NoDecrease(initial, final, bounds) && final != [] && bounds != [] && Distinct(bounds)
    ensures var d := NewCounts(initial, final, bounds);
      && (forall le :: le in d <==> le in bounds)
      && d[bounds[|bounds| - 1]] == TotalUpTo(final, bounds, |bounds|) - TotalUpTo(initial, bounds, |bounds|) >= 0
  {
    DifferenceCountsNew(initial, final, bounds, |bounds| - 1);
    ScrapeBounds(final, bounds);
  }
}
