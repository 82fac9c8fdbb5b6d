// Nearest-rank percentiles and cumulative histograms over exact reals
// (scripts/wat-anchor-pipeline-observability.py, scripts/backend-decision-observability.py).

module Percentiles {
  import opened Numbers
  import opened Sequences
  import opened Sorting

  function Self(x: real): real
  {
    x
  }

  function Clamp(p: real): real
  {
    if p < 0.0 then 0.0 else if p > 100.0 then 100.0 else p
  }

  /** `ceil(p / 100 * n)`, before any clamping. */
  function RawRank(p: real, n: nat): int
  {
    Ceil(p / 100.0 * n as real)
  }

  /** Nearest rank, one-based: the position in sorted order whose value is reported. */
  function NearestRank(p: real, n: nat): (rank: nat)
    requires n > 0
    ensures 1 <= rank <= n
  {
    var rank := RawRank(Clamp(p), n);
    if rank < 1 then 1 else if rank > n then n else rank
  }

  /** Zero-based position of the percentile among n ordered values; zero is special-cased to the minimum. */
  function Position(p: real, n: nat): (idx: nat)
    requires n > 0
    ensures idx < n
  {
    if p == 0.0 then 0
    else
      var rank := RawRank(p, n);
      var idx := if n - 1 < rank - 1 then n - 1 else rank - 1;
      if idx < 0 then 0 else idx
  }

  function ComputePercentile(values: seq<real>, percentile: real): real
  {
    if values == [] then 0.0
    else
      var ordered := Sort(values, Self);
      SortPermutes(values, Self);
      ordered[Position(Clamp(percentile), |ordered|)]
  }

  /** The sibling tool's percentile, over values it has already sorted. */
  function NearestRankPercentile(sorted: seq<real>, percentile: real): real
  {
    if sorted == [] then 0.0 else sorted[NearestRank(percentile, |sorted|) - 1]
  }

  /** How many values are at most `bound`: one cumulative histogram bucket. */
  function CountLe(values: seq<real>, bound: real): (c: nat)
    ensures c <= |values|
  {
    if values == [] then 0
    else CountLe(values[..|values| - 1], bound) + if values[|values| - 1] <= bound then 1 else 0
  }

  // -------------------------------------------------------------- arithmetic

  lemma {:induction false} CeilBounds(x: real)
    ensures x <= Ceil(x) as real < x + 1.0
  {
  }

  lemma {:induction false} CeilMonotone(x: real, y: real)
    requires x <= y
    ensures Ceil(x) <= Ceil(y)
  {
    CeilBounds(x);
    CeilBounds(y);
  }

  lemma {:induction false} ScaleMonotone(p: real, q: real, n: nat)
    requires p <= q
    ensures p / 100.0 * n as real <= q / 100.0 * n as real
  {
    var a, b, c := p / 100.0, q / 100.0, n as real;
    assert a <= b && c >= 0.0;
    assert (b - a) * c >= 0.0;
  }

  lemma {:induction false} RawRankMonotone(p: real, q: real, n: nat)
    requires p <= q
    ensures RawRank(p, n) <= RawRank(q, n)
  {
    ScaleMonotone(p, q, n);
    CeilMonotone(p / 100.0 * n as real, q / 100.0 * n as real);
  }

  lemma {:induction false} RankMonotone(p: real, q: real, n: nat)
    requires p <= q && n > 0
    ensures NearestRank(p, n) <= NearestRank(q, n)
  {
    RawRankMonotone(Clamp(p), Clamp(q), n);
  }

  lemma {:induction false} RawRankEnds(n: nat)
    ensures RawRank(0.0, n) == 0 && RawRank(100.0, n) == n
  {
    assert 0.0 / 100.0 * n as real == 0.0;
    assert 100.0 / 100.0 * n as real == n as real;
  }

  lemma {:induction false} RawRankPositive(p: real, n: nat)
    requires 0.0 < p && n > 0
    ensures RawRank(p, n) >= 1
  {
    var a, b := p / 100.0, n as real;
    assert a > 0.0 && b > 0.0;
    assert a * b > 0.0;
    CeilBounds(a * b);
  }

  /** Inside the documented range no clamping happens: the rank is ceil(p * n / 100). */
  lemma {:induction false} RankInRange(p: real, n: nat)
    requires 0.0 < p <= 100.0 && n > 0
    ensures NearestRank(p, n) == RawRank(p, n)
  {
    RawRankPositive(p, n);
    RawRankMonotone(p, 100.0, n);
    RawRankEnds(n);
  }

  // ---------------------------------------------------------------- percentile

  lemma {:induction false} PercentileIsRanked(values: seq<real>, p: real)
    requires values != []
    ensures |Sort(values, Self)| == |values|
    ensures ComputePercentile(values, p) == Sort(values, Self)[NearestRank(p, |values|) - 1]
  {
    SortPermutes(values, Self);
    PositionIsRank(p, |values|);
  }

  lemma {:induction false} PositionIsRank(p: real, n: nat)
    requires n > 0
    ensures Position(Clamp(p), n) == NearestRank(p, n) - 1
  {
    RawRankEnds(n);
  }

  /** The two tools report the same percentile. */
  lemma {:induction false} PercentilesAgree(values: seq<real>, p: real)
    ensures ComputePercentile(values, p) == NearestRankPercentile(Sort(values, Self), p)
  {
    SortPermutes(values, Self);
    if values != [] {
      PercentileIsRanked(values, p);
    }
  }

  /** The reported percentile is a value that was observed. */
  lemma {:induction false} PercentileIsObserved(values: seq<real>, p: real)
    requires values != []
    ensures ComputePercentile(values, p) in values
  {
    PercentileIsRanked(values, p);
    SortPermutes(values, Self);
    assert ComputePercentile(values, p) in multiset(Sort(values, Self));
  }

  lemma {:induction false} PercentileMonotone(values: seq<real>, p: real, q: real)
    requires values != [] && p <= q
    ensures ComputePercentile(values, p) <= ComputePercentile(values, q)
  {
    PercentileIsRanked(values, p);
    PercentileIsRanked(values, q);
    RankMonotone(p, q, |values|);
    SortSorts(values, Self);
    var s := Sort(values, Self);
    assert Self(s[NearestRank(p, |values|) - 1]) <= Self(s[NearestRank(q, |values|) - 1]);
  }

  // ----------------------------------------------------------------- histogram

  lemma {:induction false} CountPush(values: seq<real>, v: real, bound: real)
    ensures CountLe(values + [v], bound) == CountLe(values, bound) + if v <= bound then 1 else 0
  {
    assert (values + [v])[..|values|] == values;
  }

  lemma {:induction false} CountInsert(xs: seq<real>, x: real, bound: real)
    ensures CountLe(Insert(xs, x, Self), bound) == CountLe(xs + [x], bound)
  {
    if xs != [] && xs[|xs| - 1] > x {
      var rest, last := xs[..|xs| - 1], xs[|xs| - 1];
      CountInsert(rest, x, bound);
      CountPush(Insert(rest, x, Self), last, bound);
      CountPush(rest, x, bound);
      CountPush(xs, x, bound);
    }
  }

  lemma {:induction false} CountSort(values: seq<real>, bound: real)
    ensures CountLe(Sort(values, Self), bound) == CountLe(values, bound)
  {
    if values != [] {
      var rest, last := values[..|values| - 1], values[|values| - 1];
      CountSort(rest, bound);
      CountInsert(Sort(rest, Self), last, bound);
      CountPush(Sort(rest, Self), last, bound);
    }
  }

  lemma {:induction false} CountMonotone(values: seq<real>, low: real, high: real)
    requires low <= high
    ensures CountLe(values, low) <= CountLe(values, high)
  {
    if values != [] {
      CountMonotone(values[..|values| - 1], low, high);
    }
  }

  /** In sorted order the values up to the bound are exactly the first CountLe of them. */
  lemma {:induction false} SortedCount(sorted: seq<real>, bound: real, k: nat)
    requires SortedBy(sorted, Self) && k < |sorted|
    ensures sorted[k] <= bound <==> k < CountLe(sorted, bound)
  {
    var n := |sorted| - 1;
    var rest, last := sorted[..n], sorted[n];
    assert forall i, j :: 0 <= i <= j < |sorted| ==> Self(sorted[i]) <= Self(sorted[j]);
    if k < n {
      SortedCount(rest, bound, k);
      if last <= bound {
        assert Self(sorted[k]) <= Self(last);
      }
    } else if last <= bound && n > 0 {
      assert Self(sorted[n - 1]) <= Self(last);
      SortedCount(rest, bound, n - 1);
    }
  }

  /** Percentile and histogram are two views of one distribution: p-th percentile <= b iff bucket b holds its rank. */
  lemma {:induction false} PercentileBucketAdjunction(values: seq<real>, p: real, bound: real)
    requires values != []
    ensures ComputePercentile(values, p) <= bound <==> CountLe(values, bound) >= NearestRank(p, |values|)
  {
    PercentileIsRanked(values, p);
    RankedBucket(values, bound, NearestRank(p, |values|));
  }

  /** The unclamped rank is the least integer that is at least p * n / 100. */
  lemma {:induction false} RawRankBounds(p: real, n: nat)
    ensures p / 100.0 * n as real <= RawRank(p, n) as real < p / 100.0 * n as real + 1.0
  {
    CeilBounds(p / 100.0 * n as real);
  }

  /** The same without ranks: in the documented range the percentile is at most b iff p percent of the values are. */
  lemma {:induction false} PercentileWithinBucketIff(values: seq<real>, p: real, bound: real)
    requires values != [] && 0.0 < p <= 100.0
    ensures ComputePercentile(values, p) <= bound <==> CountLe(values, bound) as real >= p / 100.0 * |values| as real
  {
    RankInRange(p, |values|);
    PercentileBucketAdjunction(values, p, bound);
    RawRankBounds(p, |values|);
    LeastInteger(CountLe(values, bound), RawRank(p, |values|), p / 100.0 * |values| as real);
  }

  lemma {:induction false} LeastInteger(count: int, rank: int, x: real)
    requires x <= rank as real < x + 1.0
    ensures count >= rank <==> count as real >= x
  {
  }

  /** Outside that range the percentile is the smallest or the largest value. */
  lemma {:induction false} PercentileExtremes(values: seq<real>, p: real)
    requires values != []
    ensures p <= 0.0 ==> forall v :: v in values ==> ComputePercentile(values, p) <= v
    ensures p >= 100.0 ==> forall v :: v in values ==> v <= ComputePercentile(values, p)
  {
    var s, n := Sort(values, Self), |values|;
    PercentileIsRanked(values, p);
    RawRankEnds(n);
    SortSorts(values, Self);
    SortPermutes(values, Self);
    forall v | v in values
      ensures Self(s[0]) <= v <= Self(s[n - 1])
    {
      assert v in multiset(s);
      var i :| 0 <= i < |s| && s[i] == v;
      assert Self(s[0]) <= Self(s[i]) <= Self(s[n - 1]);
    }
  }

  /** A cumulative count is the number of positions whose value is at most the bound. */
  lemma {:induction false} CountIsCardinality(values: seq<real>, bound: real)
    ensures CountLe(values, bound) == |PositionsUpTo(values, bound)|
  {
    if values == [] {
      assert PositionsUpTo(values, bound) == {};
    } else {
      var n := |values| - 1;
      CountIsCardinality(values[..n], bound);
      assert PositionsUpTo(values, bound) ==
             PositionsUpTo(values[..n], bound) + if values[n] <= bound then {n} else {};
    }
  }

  ghost function PositionsUpTo(values: seq<real>, bound: real): set<int>
  {
    set i | 0 <= i < |values| && values[i] <= bound
  }

  lemma {:induction false} RankedBucket(values: seq<real>, bound: real, rank: nat)
    requires 1 <= rank <= |values| == |Sort(values, Self)|
    ensures Sort(values, Self)[rank - 1] <= bound <==> CountLe(values, bound) >= rank
  {
    SortSorts(values, Self);
    CountSort(values, bound);
    SortedCount(Sort(values, Self), bound, rank - 1);
  }

  /** A bucket: a finite boundary, or the trailing infinite one. */
  datatype HistogramBucket = HistogramBucket(le: Option<real>, count: nat)

  ghost predicate Increasing(bs: seq<real>)
  {
    forall i, j :: 0 <= i < j < |bs| ==> bs[i] < bs[j]
  }

  /** `sorted(set(buckets))` */
  function Boundaries(buckets: seq<real>): seq<real>
  {
    if buckets == [] then [] else AddBoundary(Boundaries(buckets[..|buckets| - 1]), buckets[|buckets| - 1])
  }

  function AddBoundary(bs: seq<real>, b: real): seq<real>
  {
    if b in bs then bs else Insert(bs, b, Self)
  }

  lemma {:induction false} BoundariesIncrease(buckets: seq<real>)
    ensures Increasing(Boundaries(buckets))
    ensures forall b :: b in Boundaries(buckets) <==> b in buckets
  {
    if buckets != [] {
      var rest, last := buckets[..|buckets| - 1], buckets[|buckets| - 1];
      BoundariesIncrease(rest);
      assert forall b :: b in buckets <==> b in rest || b == last by {
        assert buckets == rest + [last];
      }
      if last !in Boundaries(rest) {
        InsertIncreasing(Boundaries(rest), last);
      }
    }
  }

  lemma {:induction false} InsertIncreasing(bs: seq<real>, b: real)
    requires Increasing(bs) && b !in bs
    ensures Increasing(Insert(bs, b, Self))
    ensures forall x :: x in Insert(bs, b, Self) <==> x in bs || x == b
  {
    if bs != [] && bs[|bs| - 1] > b {
      var rest, last := bs[..|bs| - 1], bs[|bs| - 1];
      InsertIncreasing(rest, b);
      assert bs == rest + [last];
      var inserted := Insert(rest, b, Self);
      forall i | 0 <= i < |inserted|
        ensures inserted[i] < last
      {
        assert inserted[i] in inserted;
      }
    }
  }

  /** Cumulative buckets in boundary order, closed by the infinite one. */
  method Bucketize(values: seq<real>, buckets: seq<real>) returns (out: seq<HistogramBucket>)
    ensures |out| == |Boundaries(buckets)| + 1
    ensures forall i :: 0 <= i < |out| - 1 ==> out[i].le == Some(Boundaries(buckets)[i])
    ensures forall i :: 0 <= i < |out| - 1 ==> out[i].count == CountLe(values, Boundaries(buckets)[i])
    ensures out[|out| - 1] == HistogramBucket(None, |values|)
    ensures forall i, j :: 0 <= i < j < |out| ==> out[i].count <= out[j].count
  {
    var bs := Boundaries(buckets);
    out := [];
    for i := 0 to |bs|
      invariant |out| == i
      invariant forall k :: 0 <= k < i ==> out[k] == HistogramBucket(Some(bs[k]), CountLe(values, bs[k]))
    {
      var count := 0;
      for j := 0 to |values|
        invariant count == CountLe(values[..j], bs[i])
      {
        assert values[..j + 1] == values[..j] + [values[j]];
        CountPush(values[..j], values[j], bs[i]);
        if values[j] <= bs[i] {
          count := count + 1;
        }
      }
      assert values[..|values|] == values;
      out := out + [HistogramBucket(Some(bs[i]), count)];
    }
    out := out + [HistogramBucket(None, |values|)];
    BoundariesIncrease(buckets);
    forall i, j | 0 <= i < j < |out|
      ensures out[i].count <= out[j].count
    {
      if j < |bs| {
        CountMonotone(values, bs[i], bs[j]);
      }
    }
  }
}
