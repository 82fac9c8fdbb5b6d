// Movement in a series of timed values: the quadratic meaning of a stall,
// and the one-pass scans that the judge runs instead.

module Series {
  import opened Findings

  datatype Point = Point(t: int, v: int)

  ghost predicate PointsSorted(p: seq<Point>)
  {
    forall i, j :: 0 <= i <= j < |p| ==> p[i].t <= p[j].t
  }

  ghost predicate Rises(p: seq<Point>, k: int)
  {
    0 < k < |p| && p[k - 1].v < p[k].v
  }

  ghost predicate Falls(p: seq<Point>, k: int)
  {
    0 < k < |p| && p[k].v < p[k - 1].v
  }

  ghost predicate SomeRise(p: seq<Point>)
  {
    exists k :: Rises(p, k)
  }

  ghost predicate SomeFall(p: seq<Point>)
  {
    exists k :: Falls(p, k)
  }

  /** Nothing rises between positions i and j. */
  ghost predicate Quiet(p: seq<Point>, i: int, j: int)
  {
    0 <= i <= j < |p| && forall k :: i < k <= j ==> !Rises(p, k)
  }

  /** Some two samples further apart than `limit` see no rise between them. */
  ghost predicate StalledBeyond(p: seq<Point>, limit: int)
  {
    exists i, j :: Quiet(p, i, j) && p[j].t - p[i].t > limit
  }

  /** `w` is the longest time between two samples with no rise between them. */
  ghost predicate IsWorstStall(p: seq<Point>, w: int)
  {
    && (exists i, j :: Quiet(p, i, j) && p[j].t - p[i].t == w)
    && (forall i, j :: Quiet(p, i, j) ==> p[j].t - p[i].t <= w)
  }

  lemma {:induction false} WorstStallDecidesLimit(p: seq<Point>, w: int, limit: int)
    requires IsWorstStall(p, w)
    ensures StalledBeyond(p, limit) <==> w > limit
  {
  }

  // ------------------------------------------- running forms of those notions

  function Max(a: int, b: int): int
  {
    if a > b then a else b
  }

  /** The last rise at or before k, or the start of the series. */
  function RiseBefore(p: seq<Point>, k: nat): (m: nat)
    requires k < |p|
    ensures m <= k
  {
    if k == 0 then 0 else if p[k - 1].v < p[k].v then k else RiseBefore(p, k - 1)
  }

  /** The longest stall seen up to k. */
  function WorstBy(p: seq<Point>, k: nat): (w: int)
    requires k < |p|
    ensures w >= 0
  {
    if k == 0 then 0 else Max(WorstBy(p, k - 1), p[k].t - p[RiseBefore(p, k)].t)
  }

  predicate FallBy(p: seq<Point>, k: nat)
    requires k < |p|
  {
    k > 0 && (p[k].v < p[k - 1].v || FallBy(p, k - 1))
  }

  function RisesBy(p: seq<Point>, k: nat): nat
    requires k < |p|
  {
    if k == 0 then 0 else RisesBy(p, k - 1) + if p[k - 1].v < p[k].v then 1 else 0
  }

  lemma {:induction false} RiseBeforeIsLast(p: seq<Point>, k: nat)
    requires k < |p|
    ensures Quiet(p, RiseBefore(p, k), k)
    ensures forall i :: Quiet(p, i, k) ==> RiseBefore(p, k) <= i
  {
    if k > 0 {
      if Rises(p, k) {
      } else {
        RiseBeforeIsLast(p, k - 1);
        forall i | Quiet(p, i, k)
          ensures RiseBefore(p, k) <= i
        {
          if i < k {
            assert Quiet(p, i, k - 1);
          }
        }
      }
    }
  }

  /** The running maximum bounds every stall ... */
  lemma {:induction false} WorstByBounds(p: seq<Point>, k: nat, i: nat, j: nat)
    requires PointsSorted(p) && k < |p| && Quiet(p, i, j) && j <= k
    ensures p[j].t - p[i].t <= WorstBy(p, k)
  {
    if j == k {
      RiseBeforeIsLast(p, k);
      assert RiseBefore(p, k) <= i;
    } else {
      WorstByBounds(p, k - 1, i, j);
    }
  }

  /** ... and is one of them. */
  lemma {:induction false} WorstByAttained(p: seq<Point>, k: nat) returns (i: nat, j: nat)
    requires k < |p|
    ensures Quiet(p, i, j) && j <= k && p[j].t - p[i].t == WorstBy(p, k)
  {
    if k == 0 {
      i, j := 0, 0;
    } else if WorstBy(p, k) == WorstBy(p, k - 1) {
      i, j := WorstByAttained(p, k - 1);
    } else {
      RiseBeforeIsLast(p, k);
      i, j := RiseBefore(p, k), k;
    }
  }

  lemma {:induction false} FallByIsSomeFall(p: seq<Point>, k: nat)
    requires k < |p|
    ensures FallBy(p, k) <==> exists q :: Falls(p, q) && q <= k
    ensures RisesBy(p, k) > 0 <==> exists q :: Rises(p, q) && q <= k
  {
    if k > 0 {
      FallByIsSomeFall(p, k - 1);
      assert Falls(p, k) <==> p[k].v < p[k - 1].v;
      assert Rises(p, k) <==> p[k - 1].v < p[k].v;
    }
  }

  lemma {:induction false} WorstIsBound(p: seq<Point>, w: int)
    requires PointsSorted(p) && p != [] && w == WorstBy(p, |p| - 1)
    ensures forall i, j :: Quiet(p, i, j) ==> p[j].t - p[i].t <= w
  {
    forall i, j | Quiet(p, i, j)
      ensures p[j].t - p[i].t <= w
    {
      WorstByBounds(p, |p| - 1, i, j);
    }
  }

  lemma {:induction false} WorstIsReached(p: seq<Point>, w: int)
    requires p != [] && w == WorstBy(p, |p| - 1)
    ensures exists i, j :: Quiet(p, i, j) && p[j].t - p[i].t == w
  {
    var i, j := WorstByAttained(p, |p| - 1);
    assert Quiet(p, i, j) && p[j].t - p[i].t == w;
  }

  /** What the running forms say at the end of the series. */
  lemma {:induction false} WorstAtEnd(p: seq<Point>)
    requires PointsSorted(p) && p != []
    ensures IsWorstStall(p, WorstBy(p, |p| - 1))
  {
    WorstIsBound(p, WorstBy(p, |p| - 1));
    WorstIsReached(p, WorstBy(p, |p| - 1));
  }

  lemma {:induction false} FallsAndRisesAtEnd(p: seq<Point>)
    requires p != []
    ensures FallBy(p, |p| - 1) <==> SomeFall(p)
    ensures RisesBy(p, |p| - 1) > 0 <==> SomeRise(p)
  {
    FallByIsSomeFall(p, |p| - 1);
  }

  lemma {:induction false} StalledAtEnd(p: seq<Point>, limit: int)
    requires PointsSorted(p) && p != []
    ensures WorstBy(p, |p| - 1) > limit <==> StalledBeyond(p, limit)
  {
    WorstAtEnd(p);
    WorstStallDecidesLimit(p, WorstBy(p, |p| - 1), limit);
  }

  // ---------------------------------------------------------------- the scans

  /** The stall scan of the anchor judgement: only a strict rise resets the clock. */
  method ScanAnchor(p: seq<Point>) returns (worst: int)
    requires p != []
    ensures worst == WorstBy(p, |p| - 1)
  {
    worst := 0;
    var lastMoveAt := p[0].t;
    for k := 1 to |p|
      invariant lastMoveAt == p[RiseBefore(p, k - 1)].t
      invariant worst == WorstBy(p, k - 1)
    {
      if p[k].v > p[k - 1].v {
        lastMoveAt := p[k].t;
      } else {
        worst := Max(worst, p[k].t - lastMoveAt);
      }
    }
    worst := Max(worst, p[|p| - 1].t - lastMoveAt);
  }

  /**
   * The expiry scan. One pass reports exactly the falls, the stalls beyond the
   * limit and the number of rises; the limit may be any integer.
   */
  method ScanExpiry(p: seq<Point>, limit: int)
    returns (violations: seq<Reason>, moves: nat, worst: int)
    requires |p| >= 2 && p[RiseBefore(p, |p| - 1)].t <= p[|p| - 1].t
    ensures violations != [] <==> FallBy(p, |p| - 1) || WorstBy(p, |p| - 1) > limit
    ensures moves == RisesBy(p, |p| - 1)
    ensures !FallBy(p, |p| - 1) ==> worst == WorstBy(p, |p| - 1)
  {
    violations, moves, worst := [], 0, 0;
    var lastMoveAt := p[0].t;
    for k := 1 to |p|
      invariant lastMoveAt == p[RiseBefore(p, k - 1)].t
      invariant moves == RisesBy(p, k - 1)
      invariant FallBy(p, k - 1) ==> violations != []
      invariant !FallBy(p, k - 1) ==> worst == WorstBy(p, k - 1)
      invariant violations != [] ==> FallBy(p, k - 1) || WorstBy(p, k - 1) > limit
      invariant violations == [] ==> worst <= limit || worst == 0
    {
      if p[k].v < p[k - 1].v {
        violations := violations + [MovedBackwards];
        continue;
      }
      if p[k].v > p[k - 1].v {
        moves := moves + 1;
        lastMoveAt := p[k].t;
      } else {
        var stall := p[k].t - lastMoveAt;
        worst := Max(worst, stall);
        if stall > limit {
          violations := violations + [Stalled];
        }
      }
    }
    var trailing := p[|p| - 1].t - lastMoveAt;
    worst := Max(worst, trailing);
    if trailing > limit {
      violations := violations + [Stalled];
    }
  }

  /** The state-file scan: it reports falls and counts rises; how long a quiet file is tolerated is decided later. */
  method ScanStateFile(p: seq<Point>) returns (violations: seq<Reason>, moves: nat, worst: int)
    requires |p| >= 2
    ensures violations != [] <==> FallBy(p, |p| - 1)
    ensures moves == RisesBy(p, |p| - 1)
    ensures !FallBy(p, |p| - 1) ==> worst == WorstBy(p, |p| - 1)
  {
    violations, moves, worst := [], 0, 0;
    var lastMoveAt := p[0].t;
    for k := 1 to |p|
      invariant lastMoveAt == p[RiseBefore(p, k - 1)].t
      invariant moves == RisesBy(p, k - 1)
      invariant violations != [] <==> FallBy(p, k - 1)
      invariant !FallBy(p, k - 1) ==> worst == WorstBy(p, k - 1)
    {
      if p[k].v < p[k - 1].v {
        violations := violations + [MovedBackwards];
      } else if p[k].v > p[k - 1].v {
        moves := moves + 1;
        lastMoveAt := p[k].t;
      } else {
        worst := Max(worst, p[k].t - lastMoveAt);
      }
    }
    worst := Max(worst, p[|p| - 1].t - lastMoveAt);
  }

  // -------------------------------------------------- series that never fall

  lemma {:induction false} MonotoneWithoutFalls(p: seq<Point>, i: int, j: int)
    requires !SomeFall(p) && 0 <= i <= j < |p|
    ensures p[i].v <= p[j].v
    decreases j - i
  {
    if i < j {
      MonotoneWithoutFalls(p, i, j - 1);
      assert !Falls(p, j);
    }
  }

  /** In a series that never falls, a quiet stretch is a constant one. */
  lemma {:induction false} QuietIsConstant(p: seq<Point>, i: int, j: int)
    requires !SomeFall(p) && 0 <= i <= j < |p|
    ensures Quiet(p, i, j) <==> p[i].v == p[j].v
  {
    MonotoneWithoutFalls(p, i, j);
    if Quiet(p, i, j) {
      QuietNeverGains(p, i, j);
    }
    forall k | i < k <= j && Rises(p, k)
      ensures p[i].v < p[j].v
    {
      MonotoneWithoutFalls(p, i, k - 1);
      MonotoneWithoutFalls(p, k, j);
    }
  }

  lemma {:induction false} QuietNeverGains(p: seq<Point>, i: int, j: int)
    requires Quiet(p, i, j)
    ensures p[j].v <= p[i].v
    decreases j - i
  {
    if i < j {
      assert !Rises(p, j);
      assert Quiet(p, i, j - 1);
      QuietNeverGains(p, i, j - 1);
    }
  }

  /**
   * What a clean expiry scan means, pair by pair: never down, strictly up across any
   * distance beyond the limit, and up from first to last. A negative limit refuses everything.
   */
  ghost predicate KeepsRising(p: seq<Point>, limit: int)
  {
    && |p| >= 2
    && (forall i, k :: 0 <= i <= k < |p| ==> p[i].v <= p[k].v)
    && (forall i, k :: 0 <= i <= k < |p| && p[k].t - p[i].t > limit ==> p[i].v < p[k].v)
    && p[0].v < p[|p| - 1].v
  }

  lemma {:induction false} KeepsRisingIff(p: seq<Point>, limit: int)
    requires |p| >= 2
    ensures KeepsRising(p, limit) <==> !SomeFall(p) && !StalledBeyond(p, limit) && SomeRise(p)
  {
    if !SomeFall(p) {
      RiseIsGain(p);
      forall i, k | 0 <= i <= k < |p|
        ensures p[i].v <= p[k].v && (Quiet(p, i, k) <==> p[i].v == p[k].v)
      {
        MonotoneWithoutFalls(p, i, k);
        QuietIsConstant(p, i, k);
      }
    } else {
      var k :| Falls(p, k);
      assert p[k].v < p[k - 1].v;
    }
  }

  lemma {:induction false} RiseIsGain(p: seq<Point>)
    requires !SomeFall(p) && p != []
    ensures SomeRise(p) <==> p[0].v < p[|p| - 1].v
  {
    QuietIsConstant(p, 0, |p| - 1);
    MonotoneWithoutFalls(p, 0, |p| - 1);
    assert SomeRise(p) <==> !Quiet(p, 0, |p| - 1);
  }
}
