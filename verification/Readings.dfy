// Movement read off the samples themselves: what it means for a value that only some samples carry to fall, to
// rise, to stand still. Nothing here knows how a judgement collects its series.

module Readings {
  import opened Sequences
  import opened Samples
  import opened Series

  /** What one sample contributes to a series, if anything. */
  type Reader = Sample -> Option<Point>

  /** Two consecutive readings, the second lower. */
  ghost predicate Fell(samples: seq<Sample>, read: Reader)
  {
    exists a, b :: Adjacent(samples, read, a, b) && read(samples[b]).value.v < read(samples[a]).value.v
  }

  /** Two consecutive readings between samples i and j, the second higher. */
  ghost predicate RoseWithin(samples: seq<Sample>, read: Reader, i: int, j: int)
  {
    exists a, b :: Adjacent(samples, read, a, b) && i <= a && b <= j && read(samples[a]).value.v < read(samples[b]).value.v
  }

  ghost predicate Rose(samples: seq<Sample>, read: Reader)
  {
    RoseWithin(samples, read, 0, |samples| - 1)
  }

  /** Two readings further apart than the limit with no rise on the way. */
  ghost predicate StoodStill(samples: seq<Sample>, read: Reader, limit: int)
  {
    exists i, j :: StillBetween(samples, read, limit, i, j)
  }

  ghost predicate StillBetween(samples: seq<Sample>, read: Reader, limit: int, i: int, j: int)
  {
    && 0 <= i <= j < |samples| && read(samples[i]).Some? && read(samples[j]).Some?
    && read(samples[j]).value.t - read(samples[i]).value.t > limit
    && !RoseWithin(samples, read, i, j)
  }

  ghost predicate ReadTwice(samples: seq<Sample>, read: Reader)
  {
    exists i, j :: 0 <= i < j < |samples| && read(samples[i]).Some? && read(samples[j]).Some?
  }

  /** Samples i and j carry the first and the last reading. */
  ghost predicate FirstAndLast<T>(samples: seq<Sample>, read: Sample -> Option<T>, i: int, j: int)
  {
    && 0 <= i <= j < |samples| && read(samples[i]).Some? && read(samples[j]).Some?
    && (forall q :: 0 <= q < i || j < q < |samples| ==> read(samples[q]).None?)
  }

  // ------------------------------------------------- against the collected series

  lemma {:induction false} FellIff(samples: seq<Sample>, read: Reader)
    ensures SomeFall(Keep(samples, read)) <==> Fell(samples, read)
  {
    var p := Keep(samples, read);
    if k :| Falls(p, k) {
      var a, b := NeighboursAreAdjacent(samples, read, k);
    }
    if a: nat, b: nat :| Adjacent(samples, read, a, b) && read(samples[b]).value.v < read(samples[a]).value.v {
      AdjacentAreNeighbours(samples, read, a, b);
      assert Falls(p, Rank(samples, read, b));
    }
  }

  /** A stretch of the series is quiet iff no rise is read between its ends. */
  lemma {:induction false} QuietIff(samples: seq<Sample>, read: Reader, i: nat, j: nat)
    requires i <= j < |samples| && read(samples[i]).Some? && read(samples[j]).Some?
    ensures Rank(samples, read, i) <= Rank(samples, read, j) < |Keep(samples, read)|
    ensures Quiet(Keep(samples, read), Rank(samples, read, i), Rank(samples, read, j)) <==> !RoseWithin(samples, read, i, j)
  {
    var p, ri, rj := Keep(samples, read), Rank(samples, read, i), Rank(samples, read, j);
    RankIsPosition(samples, read, j);
    if i < j {
      RankIncreasing(samples, read, i, j);
    }
    if RoseWithin(samples, read, i, j) {
      var a, b :| Adjacent(samples, read, a, b) && i <= a && b <= j && read(samples[a]).value.v < read(samples[b]).value.v;
      RiseInSeries(samples, read, i, j, a, b);
    }
    if k :| ri < k <= rj && Rises(p, k) {
      RiseInSamples(samples, read, i, j, k);
    }
  }

  lemma {:induction false} RiseInSeries(samples: seq<Sample>, read: Reader, i: nat, j: nat, a: nat, b: nat)
    requires Adjacent(samples, read, a, b) && i <= a && b <= j < |samples|
    requires read(samples[a]).value.v < read(samples[b]).value.v
    ensures Rank(samples, read, i) < Rank(samples, read, b) <= Rank(samples, read, j)
    ensures Rises(Keep(samples, read), Rank(samples, read, b))
  {
    AdjacentAreNeighbours(samples, read, a, b);
    if i < a {
      RankIncreasing(samples, read, i, a);
    }
    if b < j {
      RankIncreasing(samples, read, b, j);
    }
  }

  lemma {:induction false} RiseInSamples(samples: seq<Sample>, read: Reader, i: nat, j: nat, k: nat)
    requires i <= j < |samples| && read(samples[i]).Some? && read(samples[j]).Some?
    requires Rank(samples, read, i) < k <= Rank(samples, read, j) && Rises(Keep(samples, read), k)
    ensures RoseWithin(samples, read, i, j)
  {
    var a, b := NeighboursAreAdjacent(samples, read, k);
    if a < i {
      RankIncreasing(samples, read, a, i);
    }
    if j < b {
      RankIncreasing(samples, read, j, b);
    }
    assert i <= a && b <= j;
  }

  lemma {:induction false} RoseIff(samples: seq<Sample>, read: Reader)
    ensures SomeRise(Keep(samples, read)) <==> Rose(samples, read)
  {
    var p := Keep(samples, read);
    if k :| Rises(p, k) {
      var a, b := NeighboursAreAdjacent(samples, read, k);
    }
    if a: nat, b: nat :| Adjacent(samples, read, a, b) && read(samples[a]).value.v < read(samples[b]).value.v {
      AdjacentAreNeighbours(samples, read, a, b);
      assert Rises(p, Rank(samples, read, b));
    }
  }

  lemma {:induction false} StoodStillIff(samples: seq<Sample>, read: Reader, limit: int)
    ensures StalledBeyond(Keep(samples, read), limit) <==> StoodStill(samples, read, limit)
  {
    var p := Keep(samples, read);
    if StalledBeyond(p, limit) {
      var k, l :| Quiet(p, k, l) && p[l].t - p[k].t > limit;
      StillInSamples(samples, read, limit, k, l);
    }
    if i, j :| StillBetween(samples, read, limit, i, j) {
      QuietIff(samples, read, i, j);
      RankIsPosition(samples, read, i);
      RankIsPosition(samples, read, j);
    }
  }

  lemma {:induction false} StillInSamples(samples: seq<Sample>, read: Reader, limit: int, k: nat, l: nat)
    requires var p := Keep(samples, read); Quiet(p, k, l) && p[l].t - p[k].t > limit
    ensures StoodStill(samples, read, limit)
  {
    var i, j := Origin(samples, read, k), Origin(samples, read, l);
    OriginRank(samples, read, k);
    OriginRank(samples, read, l);
    if k < l {
      OriginIncreasing(samples, read, k, l);
    }
    QuietIff(samples, read, i, j);
    assert StillBetween(samples, read, limit, i, j);
  }

  lemma {:induction false} ReadTwiceIff<T>(samples: seq<Sample>, read: Sample -> Option<T>)
    ensures |Keep(samples, read)| >= 2 <==>
            exists i, j :: 0 <= i < j < |samples| && read(samples[i]).Some? && read(samples[j]).Some?
  {
    if |Keep(samples, read)| >= 2 {
      OriginIncreasing(samples, read, 0, 1);
      var i, j := Origin(samples, read, 0), Origin(samples, read, 1);
      assert read(samples[i]).Some? && read(samples[j]).Some?;
    }
    if i: nat, j: nat :| i < j < |samples| && read(samples[i]).Some? && read(samples[j]).Some? {
      RankIsPosition(samples, read, j);
      RankIncreasing(samples, read, i, j);
    }
  }

  lemma {:induction false} FirstAndLastAre<T>(samples: seq<Sample>, read: Sample -> Option<T>, i: nat, j: nat)
    requires FirstAndLast(samples, read, i, j)
    ensures var p := Keep(samples, read); p != [] && Some(p[0]) == read(samples[i]) && Some(p[|p| - 1]) == read(samples[j])
  {
    RankIsPosition(samples, read, i);
    var a := KeepFirst(samples, read);
    var b := KeepLast(samples, read);
    assert a == i && b == j;
  }

  lemma {:induction false} FirstAndLastExist<T>(samples: seq<Sample>, read: Sample -> Option<T>) returns (i: nat, j: nat)
    requires Keep(samples, read) != []
    ensures FirstAndLast(samples, read, i, j)
  {
    i := KeepFirst(samples, read);
    j := KeepLast(samples, read);
  }
}
