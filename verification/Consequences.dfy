// What the expiry assurance decides, and what a PASS verdict implies for quiet stretches
// (scripts/acceptance/substrate_acceptance_window.py).

module Consequences {
  import opened Sequences
  import opened Samples
  import opened Episodes
  import opened Series
  import opened Assurances
  import opened Falsifications
  import opened Window
  import opened ProbeMeaning
  import opened Soundness
  import opened Acceptance

  // ------------------------------------------------------- the expiry assurance

  ghost predicate ConstantRun(j: seq<Sample>, i: int, k: int)
  {
    0 <= i <= k < |j| && forall q :: i <= q <= k ==> j[q].notAfter == j[i].notAfter
  }

  /** On a fully served and measured series, Z2 is decided by adjacent falls, over-long constant runs, and movement. */
  lemma {:induction false} Z2OnMeasuredSeries(j: seq<Sample>, maxStall: int)
    requires |j| >= 2 && AllSound(j, ExpiryGrade)
    ensures Z2State(j, maxStall) == FAIL <==>
            || (exists k :: 0 < k < |j| && ValueOf(j[k].notAfter) < ValueOf(j[k - 1].notAfter))
            || (exists i, k :: ConstantRun(j, i, k) && j[k].at - j[i].at > maxStall)
    ensures Z2State(j, maxStall) == UNKNOWN <==>
            Z2State(j, maxStall) != FAIL && forall k :: 0 < k < |j| ==> j[k].notAfter == j[k - 1].notAfter
  {
    AllSoundIff(j, ExpiryGrade);
    KeepAll(j, ExpiryPoint);
    var p := Keep(j, ExpiryPoint);
    forall i | 0 <= i < |j|
      ensures p[i] == Point(j[i].at, ValueOf(j[i].notAfter)) && j[i].notAfter.Some?
    {
    }
    SeriesOfSamples(p, j, maxStall);
  }

  /** The notions of the point series, read off the samples. */
  lemma {:induction false} SeriesOfSamples(p: seq<Point>, j: seq<Sample>, maxStall: int)
    requires |p| == |j|
    requires forall i :: 0 <= i < |j| ==> p[i] == Point(j[i].at, ValueOf(j[i].notAfter)) && j[i].notAfter.Some?
    ensures SomeFall(p) <==> exists k :: 0 < k < |j| && ValueOf(j[k].notAfter) < ValueOf(j[k - 1].notAfter)
    ensures !SomeFall(p) ==>
              (StalledBeyond(p, maxStall) <==> exists i, k :: ConstantRun(j, i, k) && j[k].at - j[i].at > maxStall)
    ensures !SomeFall(p) ==>
              (SomeRise(p) <==> !forall k :: 0 < k < |j| ==> j[k].notAfter == j[k - 1].notAfter)
  {
    forall k: int
      ensures Falls(p, k) <==> 0 < k < |j| && ValueOf(j[k].notAfter) < ValueOf(j[k - 1].notAfter)
    {
    }
    if !SomeFall(p) {
      forall i, k | 0 <= i <= k < |j|
        ensures Quiet(p, i, k) <==> ConstantRun(j, i, k)
      {
        QuietRunIsConstant(p, j, i, k);
      }
      forall k | 0 < k < |j|
        ensures !Rises(p, k) <==> j[k].notAfter == j[k - 1].notAfter
      {
        assert !Falls(p, k);
      }
    }
  }

  lemma {:induction false} QuietRunIsConstant(p: seq<Point>, j: seq<Sample>, i: nat, k: nat)
    requires |p| == |j| && i <= k < |j| && !SomeFall(p)
    requires forall q :: 0 <= q < |j| ==> p[q].v == ValueOf(j[q].notAfter) && j[q].notAfter.Some?
    ensures Quiet(p, i, k) <==> ConstantRun(j, i, k)
  {
    QuietIsConstant(p, i, k);
    if Quiet(p, i, k) {
      forall q | i <= q <= k
        ensures j[q].notAfter == j[i].notAfter
      {
        QuietIsConstant(p, i, q);
        assert Quiet(p, i, q);
      }
    }
  }

  // -------------------------------------------------------------- renewal count

  /** No sample from a to b lies in a deliberate episode. */
  ghost predicate EpisodeFree(samples: seq<Sample>, a: int, b: int)
  {
    0 <= a <= b < |samples| && forall i :: a <= i <= b ==> !InAny(samples[i].at, AllEpisodes(samples))
  }

  /** How often the expiry moves forward between samples a and b. */
  function Renewals(samples: seq<Sample>, a: nat, b: nat): nat
    requires a <= b < |samples|
    decreases b
  {
    if a == b then 0
    else Renewals(samples, a, b - 1) + if ValueOf(samples[b - 1].notAfter) < ValueOf(samples[b].notAfter) then 1 else 0
  }

  /** Two samples outside every episode, in a green window: no fall, and a strict gain beyond the tolerance. */
  lemma {:induction false} JudgedPair(samples: seq<Sample>, lim: Limits, i: nat, k: nat)
    requires GreenWindow(samples, lim) && i <= k < |samples|
    requires !InAny(samples[i].at, AllEpisodes(samples)) && !InAny(samples[k].at, AllEpisodes(samples))
    ensures samples[k].at - samples[i].at > lim.maxStall ==> ValueOf(samples[i].notAfter) < ValueOf(samples[k].notAfter)
    ensures ValueOf(samples[i].notAfter) <= ValueOf(samples[k].notAfter)
  {
    var f := Outside(AllEpisodes(samples));
    RankIsPosition(samples, f, i);
    RankIsPosition(samples, f, k);
    var ri, rk := Rank(samples, f, i), Rank(samples, f, k);
    if i < k {
      RankIncreasing(samples, f, i, k);
    }
    var j := Judged(samples);
    assert ExpiryMoves(j, lim.maxStall);
    assert j[ri] == samples[i] && j[rk] == samples[k] && ri <= rk;
  }

  lemma {:induction false} LastRenewal(samples: seq<Sample>, a: nat, b: nat) returns (k: nat)
    requires a <= b < |samples| && Renewals(samples, a, b) > 0
    ensures a < k <= b && Renewals(samples, a, b) == Renewals(samples, a, k - 1) + 1
    ensures ValueOf(samples[b].notAfter) <= ValueOf(samples[k].notAfter)
    decreases b
  {
    if ValueOf(samples[b - 1].notAfter) < ValueOf(samples[b].notAfter) {
      k := b;
    } else {
      k := LastRenewal(samples, a, b - 1);
    }
  }

  lemma {:induction false} NoRenewalNoGain(samples: seq<Sample>, a: nat, b: nat)
    requires a <= b < |samples| && Renewals(samples, a, b) == 0
    ensures ValueOf(samples[b].notAfter) <= ValueOf(samples[a].notAfter)
    decreases b
  {
    if a < b {
      NoRenewalNoGain(samples, a, b - 1);
    }
  }

  ghost predicate RenewedWithin(samples: seq<Sample>, maxStall: int, a: int, b: int)
    requires 0 <= a <= b < |samples|
  {
    forall i, k :: a <= i <= k <= b && samples[k].at - samples[i].at > maxStall ==>
      ValueOf(samples[i].notAfter) < ValueOf(samples[k].notAfter)
  }

  ghost predicate SampledWithin(samples: seq<Sample>, maxGap: int, a: int, b: int)
    requires 0 <= a <= b < |samples|
  {
    forall k :: a < k <= b ==> samples[k].at - samples[k - 1].at <= maxGap
  }

  /** One stall, plus one stall and one sampling gap per renewal. */
  function Allowance(m: nat, maxStall: int, maxGap: int): int
  {
    if m == 0 then maxStall else Allowance(m - 1, maxStall, maxGap) + maxStall + maxGap
  }

  lemma {:induction false} AllowanceClosedForm(m: nat, maxStall: int, maxGap: int)
    ensures Allowance(m, maxStall, maxGap) == (m + 1) * maxStall + m * maxGap
  {
    if m > 0 {
      AllowanceClosedForm(m - 1, maxStall, maxGap);
      assert (m + 1) * maxStall == m * maxStall + maxStall;
      assert m * maxGap == (m - 1) * maxGap + maxGap;
    }
  }

  /** Cut the stretch at its last renewal: what follows is one stall, the renewal itself spans one gap. */
  lemma {:induction false} StretchBound(samples: seq<Sample>, maxStall: int, maxGap: int, a: nat, b: nat)
    requires a <= b < |samples| && RenewedWithin(samples, maxStall, a, b) && SampledWithin(samples, maxGap, a, b)
    ensures samples[b].at - samples[a].at <= Allowance(Renewals(samples, a, b), maxStall, maxGap)
    decreases b
  {
    var m := Renewals(samples, a, b);
    if m == 0 {
      NoRenewalNoGain(samples, a, b);
    } else {
      var k := LastRenewal(samples, a, b);
      StretchBound(samples, maxStall, maxGap, a, k - 1);
      assert samples[b].at - samples[k].at <= maxStall;
      assert samples[k].at - samples[k - 1].at <= maxGap;
    }
  }

  lemma {:induction false} StretchBoundClosed(samples: seq<Sample>, maxStall: int, maxGap: int, a: nat, b: nat)
    requires a <= b < |samples| && RenewedWithin(samples, maxStall, a, b) && SampledWithin(samples, maxGap, a, b)
    ensures var m := Renewals(samples, a, b);
      samples[b].at - samples[a].at <= (m + 1) * maxStall + m * maxGap
  {
    StretchBound(samples, maxStall, maxGap, a, b);
    AllowanceClosedForm(Renewals(samples, a, b), maxStall, maxGap);
  }

  /**
   * In a PASS window an uninterrupted stretch cannot be long and quiet at once: m renewals
   * account for at most (m + 1) stalls and m sampling gaps.
   */
  lemma {:induction false} RenewalBound(samples: seq<Sample>, lim: Limits, a: nat, b: nat)
    requires Verdict(samples, lim) == PASS && EpisodeFree(samples, a, b)
    ensures var m := Renewals(samples, a, b);
      samples[b].at - samples[a].at <= (m + 1) * lim.maxStall + m * lim.maxGap
  {
    PassStretch(samples, lim, a, b);
    StretchBoundClosed(samples, lim.maxStall, lim.maxGap, a, b);
  }

  lemma {:induction false} PassStretch(samples: seq<Sample>, lim: Limits, a: nat, b: nat)
    requires Verdict(samples, lim) == PASS && EpisodeFree(samples, a, b)
    ensures RenewedWithin(samples, lim.maxStall, a, b) && SampledWithin(samples, lim.maxGap, a, b)
  {
    PassIffGreen(samples, lim);
    GreenStretch(samples, lim, a, b);
  }

  lemma {:induction false} GreenStretch(samples: seq<Sample>, lim: Limits, a: nat, b: nat)
    requires GreenWindow(samples, lim) && EpisodeFree(samples, a, b)
    ensures RenewedWithin(samples, lim.maxStall, a, b) && SampledWithin(samples, lim.maxGap, a, b)
  {
    forall i: nat, k: nat | a <= i <= k <= b && samples[k].at - samples[i].at > lim.maxStall
      ensures ValueOf(samples[i].notAfter) < ValueOf(samples[k].notAfter)
    {
      JudgedPair(samples, lim, i, k);
    }
    forall k | a < k <= b
      ensures samples[k].at - samples[k - 1].at <= lim.maxGap
    {
      FreeStepIsShort(samples, lim, a, b, k);
    }
  }

  lemma {:induction false} FreeStepIsShort(samples: seq<Sample>, lim: Limits, a: nat, b: nat, k: nat)
    requires EpisodeFree(samples, a, b) && a < k <= b
    requires CoverageHolds(samples, |Judged(samples)|, AllEpisodes(samples), lim)
    ensures samples[k].at - samples[k - 1].at <= lim.maxGap
  {
    InAnyIff(samples[k - 1].at, AllEpisodes(samples));
    InAnyIff(samples[k].at, AllEpisodes(samples));
    assert !Explained(samples, AllEpisodes(samples), k);
  }
}
