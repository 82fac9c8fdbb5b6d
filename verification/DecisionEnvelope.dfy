// The aggregation envelope and its laws (scripts/backend-decision-observability.py, aggregate_decisions).

module DecisionEnvelope {
  import opened Sequences
  import opened Sorting
  import opened Percentiles
  import opened Decisions

  datatype LatencySummary = LatencySummary(avg: real, p50: real, p95: real, p99: real, count: nat)

  function Add(values: seq<real>): real
  {
    if values == [] then 0.0 else Add(values[..|values| - 1]) + values[|values| - 1]
  }

  function Summarize(values: seq<real>): LatencySummary
  {
    var sorted := Sort(values, Self);
    var n := |sorted|;
    LatencySummary(
      if n > 0 then Add(sorted) / n as real else 0.0,
      NearestRankPercentile(sorted, 50.0),
      NearestRankPercentile(sorted, 95.0),
      NearestRankPercentile(sorted, 99.0),
      n)
  }

  function Latencies(t: Tallies): map<string, LatencySummary>
  {
    map c | c in t.latencies :: Summarize(t.latencies[c])
  }

  function Rates(t: Tallies): map<string, real>
  {
    map c | c in t.perComponent ::
      if t.perComponent[c] > 0 then Get(t.fallbacks, c) as real / t.perComponent[c] as real else 0.0
  }

  ghost function AggregatedRate(t: Tallies): real
  {
    if Total(t.perComponent) > 0.0 then Total(t.fallbacks) / Total(t.perComponent) else 0.0
  }

  datatype Envelope = Envelope(
    sampleSize: nat,
    windowSize: int,
    tallies: Tallies,
    latency: map<string, LatencySummary>,
    rates: map<string, real>,
    aggregatedRate: real)

  ghost function EnvelopeOf(sample: seq<Decision>, windowSize: int): Envelope
  {
    var t := Tally(sample);
    Envelope(|sample|, windowSize, t, Latencies(t), Rates(t), AggregatedRate(t))
  }

  method SumValues(m: map<string, nat>) returns (n: nat)
    ensures n as real == Total(m)
  {
    n := 0;
    var left := m.Keys;
    while left != {}
      invariant left <= m.Keys
      invariant n as real + Sum(left, Values(m)) == Total(m)
      decreases |left|
    {
      var k :| k in left;
      SumPick(left, Values(m), k);
      n := n + m[k];
      left := left - {k};
    }
  }

  /** The loop body: four dictionaries updated for one record. */
  method CountDecision(before: Tallies, d: Decision) returns (after: Tallies)
    ensures after == Count(before, d)
  {
    var perBackend, perComponent := before.perBackend, before.perComponent;
    var latencies, fallbacks := before.latencies, before.fallbacks;
    var c, b := Component(d), Backend(d);
    var backends := if c in perBackend then perBackend[c] else map[];
    perBackend := perBackend[c := backends[b := Get(backends, b) + 1]];
    perComponent := perComponent[c := Get(perComponent, c) + 1];
    var latency := Latency(d);
    if latency.Some? {
      latencies := latencies[c := (if c in latencies then latencies[c] else []) + [latency.value]];
    }
    if FellBack(d) {
      fallbacks := fallbacks[c := Get(fallbacks, c) + 1];
    }
    after := Tallies(perBackend, perComponent, latencies, fallbacks);
  }

  method TallyWindow(sample: seq<Decision>) returns (t: Tallies)
    ensures t == Tally(sample)
  {
    t := Tallies(map[], map[], map[], map[]);
    for i := 0 to |sample|
      invariant t == Tally(sample[..i])
    {
      assert sample[..i + 1][..i] == sample[..i];
      t := CountDecision(t, sample[i]);
    }
    assert sample[..|sample|] == sample;
  }

  method AggregateDecisions(records: seq<Decision>, windowSize: int) returns (env: Envelope)
    ensures env == EnvelopeOf(SelectWindow(records, windowSize), windowSize)
  {
    var sample := SelectWindow(records, windowSize);
    var t := TallyWindow(sample);
    var decisions := SumValues(t.perComponent);
    var fellBack := SumValues(t.fallbacks);
    var rate := if decisions > 0 then fellBack as real / decisions as real else 0.0;
    env := Envelope(|sample|, windowSize, t, Latencies(t), Rates(t), rate);
  }

  // --------------------------------------------------------- what a summary says

  lemma {:induction false} AddInsert(xs: seq<real>, x: real)
    ensures Add(Insert(xs, x, Self)) == Add(xs) + x
  {
    if xs != [] && xs[|xs| - 1] > x {
      var rest, last := xs[..|xs| - 1], xs[|xs| - 1];
      AddInsert(rest, x);
      assert (Insert(rest, x, Self) + [last])[..|Insert(rest, x, Self)|] == Insert(rest, x, Self);
    } else {
      assert (xs + [x])[..|xs|] == xs;
    }
  }

  lemma {:induction false} AddSort(values: seq<real>)
    ensures Add(Sort(values, Self)) == Add(values)
  {
    if values != [] {
      AddSort(values[..|values| - 1]);
      AddInsert(Sort(values[..|values| - 1], Self), values[|values| - 1]);
    }
  }

  /** v is the p-th percentile of the values: a boundary is at least v iff p percent of the values are at most it. */
  ghost predicate IsPercentile(values: seq<real>, p: real, v: real)
  {
    forall bound: real :: v <= bound <==> CountLe(values, bound) as real >= p / 100.0 * |values| as real
  }

  lemma {:induction false} ReportedPercentile(values: seq<real>, p: real)
    requires values != [] && 0.0 < p <= 100.0
    ensures IsPercentile(values, p, NearestRankPercentile(Sort(values, Self), p))
  {
    PercentilesAgree(values, p);
    forall bound: real
      ensures ComputePercentile(values, p) <= bound <==> CountLe(values, bound) as real >= p / 100.0 * |values| as real
    {
      PercentileWithinBucketIff(values, p, bound);
    }
  }

  /** A summary: how many, their mean, and the three percentiles; of nothing it is all zero. */
  lemma {:induction false} SummaryMeaning(values: seq<real>)
    ensures Summarize(values).count == |values|
    ensures values != [] ==>
              var s := Summarize(values);
              && s.avg == Add(values) / |values| as real
              && IsPercentile(values, 50.0, s.p50) && IsPercentile(values, 95.0, s.p95) && IsPercentile(values, 99.0, s.p99)
    ensures values == [] ==> Summarize(values) == LatencySummary(0.0, 0.0, 0.0, 0.0, 0)
  {
    SortPermutes(values, Self);
    if values != [] {
      AddSort(values);
      ReportedPercentile(values, 50.0);
      ReportedPercentile(values, 95.0);
      ReportedPercentile(values, 99.0);
    }
  }

  /** What an envelope carries for component c. */
  lemma {:induction false} EnvelopeMeaning(sample: seq<Decision>, windowSize: int, c: string)
    ensures var env, t := EnvelopeOf(sample, windowSize), Tally(sample);
      && env.sampleSize == |sample| && env.windowSize == windowSize && env.tallies == t
      && (c in env.latency <==> c in t.latencies)
      && (c in env.latency ==> env.latency[c] == Summarize(t.latencies[c]))
      && (c in env.rates <==> c in t.perComponent)
      && (c in env.rates ==>
            t.perComponent[c] > 0 && env.rates[c] == Get(t.fallbacks, c) as real / t.perComponent[c] as real)
  {
    KeysOfTally(sample);
  }

  // ------------------------------------------------------------- conservation

  /** Component c: its backends add up to its count, and its fallbacks and latencies stay within it. */
  ghost predicate ConservedAt(t: Tallies, c: string)
  {
    && (c in t.perBackend <==> c in t.perComponent)
    && (c in t.perBackend ==> Total(t.perBackend[c]) == t.perComponent[c] as real)
    && (c in t.fallbacks ==> c in t.perComponent && t.fallbacks[c] <= t.perComponent[c])
    && (c in t.latencies ==> c in t.perComponent && |t.latencies[c]| <= t.perComponent[c])
  }

  /** Nothing is lost and nothing is counted twice, in any window. */
  lemma {:induction false} AggregationConserves(records: seq<Decision>, windowSize: int)
    ensures var env := EnvelopeOf(SelectWindow(records, windowSize), windowSize);
      var t := env.tallies;
      && env.sampleSize == (var size := if windowSize <= 0 then 500 else windowSize;
                            if |records| <= size then |records| else size)
      && Total(t.perComponent) == env.sampleSize as real
      && forall c :: ConservedAt(t, c)
  {
    var sample := SelectWindow(records, windowSize);
    ComponentsConserved(sample);
    forall c: string
      ensures ConservedAt(Tally(sample), c)
    {
      TallyMeaning(sample, c);
      PartsWithinComponent(sample, c);
      BackendsConserved(sample, c);
    }
  }

  // ----------------------------------------------------------- the weighted mean

  function Weighted(t: Tallies): string -> real
  {
    (c: string) => (if c in t.perComponent then Rates(t)[c] else 0.0) * Get(t.perComponent, c) as real
  }

  lemma {:induction false} SumOverMore(keys: set<string>, more: set<string>, f: string -> real)
    requires keys <= more && forall k :: k in more && k !in keys ==> f(k) == 0.0
    ensures Sum(more, f) == Sum(keys, f)
    decreases |more|
  {
    if keys == more {
    } else {
      var k :| k in more && k !in keys;
      SumPick(more, f, k);
      SumOverMore(keys, more - {k}, f);
    }
  }

  lemma {:induction false} RateTimesCount(n: nat, total: nat)
    requires total > 0
    ensures n as real / total as real * total as real == n as real
  {
  }

  /** Summed over the components, rate times count gives back the fallbacks. */
  lemma {:induction false} WeightedRatesAreFallbacks(t: Tallies)
    requires t.fallbacks.Keys <= t.perComponent.Keys
    requires forall c :: c in t.perComponent ==> t.perComponent[c] > 0
    ensures Sum(t.perComponent.Keys, Weighted(t)) == Total(t.fallbacks)
  {
    forall c | c in t.perComponent.Keys
      ensures Weighted(t)(c) == Values(t.fallbacks)(c)
    {
      RateTimesCount(Get(t.fallbacks, c), t.perComponent[c]);
    }
    SumAgree(t.perComponent.Keys, Weighted(t), Values(t.fallbacks));
    SumOverMore(t.fallbacks.Keys, t.perComponent.Keys, Values(t.fallbacks));
  }

  lemma {:induction false} KeysOfTally(sample: seq<Decision>)
    ensures var t := Tally(sample);
      && t.fallbacks.Keys <= t.perComponent.Keys
      && forall c :: c in t.perComponent ==> t.perComponent[c] > 0
  {
    forall c: string
      ensures c in Tally(sample).fallbacks ==> c in Tally(sample).perComponent
      ensures c in Tally(sample).perComponent ==> Tally(sample).perComponent[c] > 0
    {
      TallyMeaning(sample, c);
      PartsWithinComponent(sample, c);
    }
  }

  /** The aggregated rate is the mean of the component rates, weighted by their counts. */
  lemma {:induction false} AggregatedRateIsWeightedMean(sample: seq<Decision>)
    requires sample != []
    ensures var t := Tally(sample);
      AggregatedRate(t) == Sum(t.perComponent.Keys, Weighted(t)) / |sample| as real
  {
    KeysOfTally(sample);
    WeightedRatesAreFallbacks(Tally(sample));
    ComponentsConserved(sample);
  }

  // ---------------------------------------------------------------- permutations

  lemma {:induction false} SameLength<T>(xs: seq<T>, ys: seq<T>)
    requires multiset(xs) == multiset(ys)
    ensures |xs| == |ys|
  {
    assert |xs| == |multiset(xs)| && |ys| == |multiset(ys)|;
  }

  lemma {:induction false} CountsPermuted(a: seq<Decision>, b: seq<Decision>, f: Decision -> Option<Decision>)
    requires multiset(a) == multiset(b)
    ensures |Keep(a, f)| == |Keep(b, f)|
  {
    KeepPermuted(a, b, f);
    SameLength(Keep(a, f), Keep(b, f));
  }

  /** Only the order of a component's latency list can differ. */
  lemma {:induction false} TalliesPermuted(a: seq<Decision>, b: seq<Decision>)
    requires multiset(a) == multiset(b)
    ensures Tally(a).perComponent == Tally(b).perComponent
    ensures Tally(a).fallbacks == Tally(b).fallbacks
    ensures Tally(a).latencies.Keys == Tally(b).latencies.Keys
    ensures forall c :: c in Tally(a).latencies ==> multiset(Tally(a).latencies[c]) == multiset(Tally(b).latencies[c])
  {
    forall c: string
      ensures c in Tally(a).perComponent <==> c in Tally(b).perComponent
      ensures Get(Tally(a).perComponent, c) == Get(Tally(b).perComponent, c)
      ensures c in Tally(a).fallbacks <==> c in Tally(b).fallbacks
      ensures Get(Tally(a).fallbacks, c) == Get(Tally(b).fallbacks, c)
      ensures c in Tally(a).latencies <==> c in Tally(b).latencies
      ensures c in Tally(a).latencies ==> multiset(Tally(a).latencies[c]) == multiset(Tally(b).latencies[c])
    {
      TallyMeaning(a, c);
      TallyMeaning(b, c);
      CountsPermuted(a, b, InComponent(c));
      CountsPermuted(a, b, FallbackIn(c));
      KeepPermuted(a, b, LatencyIn(c));
      SameLength(Keep(a, LatencyIn(c)), Keep(b, LatencyIn(c)));
    }
  }

  lemma {:induction false} BackendsPermuted(a: seq<Decision>, b: seq<Decision>)
    requires multiset(a) == multiset(b)
    ensures Tally(a).perBackend == Tally(b).perBackend
  {
    TalliesPermuted(a, b);
    forall c: string
      ensures c in Tally(a).perBackend <==> c in Tally(b).perBackend
      ensures c in Tally(a).perBackend ==> Tally(a).perBackend[c] == Tally(b).perBackend[c]
    {
      TallyMeaning(a, c);
      TallyMeaning(b, c);
      if c in Tally(a).perBackend {
        var x, y := Tally(a).perBackend[c], Tally(b).perBackend[c];
        forall k: string
          ensures k in x <==> k in y
          ensures Get(x, k) == Get(y, k)
        {
          TallyBackends(a, c, k);
          TallyBackends(b, c, k);
          CountsPermuted(a, b, InBackend(c, k));
        }
      }
    }
  }

  lemma {:induction false} SummaryPermuted(xs: seq<real>, ys: seq<real>)
    requires multiset(xs) == multiset(ys)
    ensures Summarize(xs) == Summarize(ys)
  {
    SortOfPermutation(xs, ys, Self);
  }

  /** Shuffling the windowed records changes no count, no rate and no latency summary. */
  lemma {:induction false} AggregationPermuted(a: seq<Decision>, b: seq<Decision>, windowSize: int)
    requires multiset(a) == multiset(b)
    ensures var x, y := EnvelopeOf(a, windowSize), EnvelopeOf(b, windowSize);
      x.(tallies := y.tallies) == y && x.tallies.(latencies := y.tallies.latencies) == y.tallies
  {
    TalliesPermuted(a, b);
    BackendsPermuted(a, b);
    SameLength(a, b);
    forall c | c in Tally(a).latencies
      ensures Summarize(Tally(a).latencies[c]) == Summarize(Tally(b).latencies[c])
    {
      SummaryPermuted(Tally(a).latencies[c], Tally(b).latencies[c]);
    }
    assert Latencies(Tally(a)) == Latencies(Tally(b));
    assert Rates(Tally(a)) == Rates(Tally(b));
  }
}
