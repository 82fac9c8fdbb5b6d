// What one missing measurement does to the verdict
// (scripts/acceptance/substrate_acceptance_window.py, evaluate).

module LossVerdict {
  import opened Sequences
  import opened Samples
  import opened Episodes
  import opened Series
  import opened Assurances
  import opened Falsifications
  import opened Window
  import opened ProbeMeaning
  import opened Soundness
  import opened Acceptance
  import opened Absence
  import opened ProbeLoss

  // ----------------------------------------------------- what a loss leaves alone

  lemma {:induction false} EpisodesAfterLoss(samples: seq<Sample>, i: nat, field: Field)
    requires i < |samples|
    ensures AllEpisodes(Lost(samples, i, field)) == AllEpisodes(samples)
    ensures EpisodesWellPaired(Lost(samples, i, field)) <==> EpisodesWellPaired(samples)
  {
    EpisodesReadOnlyMarkers(Lost(samples, i, field), samples);
  }

  /** Where sample i stands among the judged ones. */
  ghost function JudgedAt(samples: seq<Sample>, i: nat): nat
    requires i <= |samples|
  {
    Rank(samples, Outside(AllEpisodes(samples)), i)
  }

  lemma {:induction false} JudgedAfterLoss(samples: seq<Sample>, i: nat, field: Field)
    requires i < |samples|
    ensures var j, r, inside := Judged(samples), JudgedAt(samples, i), InAny(samples[i].at, AllEpisodes(samples));
      && (!inside ==> r < |j| && j[r] == samples[i])
      && Judged(Lost(samples, i, field)) == if inside then j else Lost(j, r, field)
  {
    EpisodesAfterLoss(samples, i, field);
    var f, x := Outside(AllEpisodes(samples)), Erase(samples[i], field);
    if InAny(samples[i].at, AllEpisodes(samples)) {
      KeepSame(samples, f, i, x);
    } else {
      KeepUpdated(samples, f, i, x);
    }
  }

  lemma {:induction false} CoverageAfterLoss(
    samples: seq<Sample>, judged: nat, episodes: seq<Episode>, lim: Limits, i: nat, field: Field)
    requires i < |samples|
    ensures CoverageState(Lost(samples, i, field), judged, episodes, lim.windowSeconds, lim.maxGap) ==
            CoverageState(samples, judged, episodes, lim.windowSeconds, lim.maxGap)
  {
    var y := Lost(samples, i, field);
    assert forall k :: 0 <= k < |y| ==> y[k].at == samples[k].at;
    forall k: int
      ensures Unobserved(y, episodes, lim.maxGap, k) <==> Unobserved(samples, episodes, lim.maxGap, k)
    {
    }
  }

  // --------------------------------------------------------- no green from absence

  /** Whatever else the series says, one required measurement missing from one judged sample is not a pass. */
  lemma {:induction false} JudgedLossIsNotGreen(samples: seq<Sample>, lim: Limits, i: nat, field: Field)
    requires i < |samples| && !InAny(samples[i].at, AllEpisodes(samples))
    ensures Verdict(Lost(samples, i, field), lim) != PASS
  {
    var y, r := Lost(samples, i, field), JudgedAt(samples, i);
    JudgedAfterLoss(samples, i, field);
    ErasedIsIncomplete(samples[i], field);
    if Verdict(y, lim) == PASS {
      GreenIsComplete(y, lim, r);
    }
  }

  lemma {:induction false} ErasedIsIncomplete(s: Sample, field: Field)
    ensures !Complete(Erase(s, field))
  {
  }

  lemma {:induction false} GreenIsComplete(samples: seq<Sample>, lim: Limits, r: nat)
    requires Verdict(samples, lim) == PASS && r < |Judged(samples)|
    ensures Complete(Judged(samples)[r])
  {
    PassIffGreen(samples, lim);
  }

  // --------------------------------------------------------- red from absence

  /** One lost field of judged sample r makes Z3, Z4 or F1 fail. */
  ghost predicate StandingLossIsAFinding(j: seq<Sample>, lim: Limits, r: nat, field: Field)
    requires r < |j|
  {
    || (FeedsZ3(field) && Z3LossIsAFinding(j, lim.minSpan, r))
    || (FeedsZ4(field) && Z4LossIsAFinding(j, lim.restageMax, r))
    || (FeedsF1(field) && F1LossIsAFinding(j, lim.minRotations, lim.rotationPeriod, r))
  }

  lemma {:induction false} StandingAfterLoss(j: seq<Sample>, lim: Limits, r: nat, field: Field)
    requires r < |j| && FAIL !in StandingStates(j, lim)
    ensures FAIL in StandingStates(Lost(j, r, field), lim) <==> StandingLossIsAFinding(j, lim, r, field)
  {
    var s := StandingStates(j, lim);
    assert s[0] in s && s[1] in s && s[2] in s && s[3] in s && s[4] in s;
    Z1AfterLoss(j, r, field);
    Z2AfterLoss(j, lim.maxStall, r, field);
    Z3AfterLoss(j, lim.minSpan, r, field);
    Z4AfterLoss(j, lim.restageMax, r, field);
    F1AfterLoss(j, lim.minRotations, lim.rotationPeriod, r, field);
    FailInFive(StandingStates(Lost(j, r, field), lim));
  }

  lemma {:induction false} FailInFive(s: seq<State>)
    requires |s| == 5
    ensures FAIL in s <==> s[0] == FAIL || s[1] == FAIL || s[2] == FAIL || s[3] == FAIL || s[4] == FAIL
  {
  }

  /** One lost field of sample i is reported as a finding somewhere. */
  ghost predicate LossIsAFinding(samples: seq<Sample>, lim: Limits, i: nat, field: Field)
    requires i < |samples|
  {
    var j, r := Judged(samples), JudgedAt(samples, i);
    || (!InAny(samples[i].at, AllEpisodes(samples)) && r < |j| && StandingLossIsAFinding(j, lim, r, field))
    || F2LossIsAFinding(samples, AllEpisodes(samples), i, field)
  }

  /** Only F2 can turn red among the probes. */
  lemma {:induction false} ProbesAfterLoss(samples: seq<Sample>, lim: Limits, i: nat, field: Field)
    requires i < |samples| && F2State(samples, AllEpisodes(samples), lim.overlap) != FAIL
    ensures var y, eps := Lost(samples, i, field), AllEpisodes(samples);
      FAIL in ProbeStates(y, |Judged(y)|, eps, lim) <==> F2LossIsAFinding(samples, eps, i, field)
  {
    var y, eps := Lost(samples, i, field), AllEpisodes(samples);
    F2AfterLoss(samples, eps, lim.overlap, i, field);
    var s := ProbeStates(y, |Judged(y)|, eps, lim);
    assert s[0] in s && s[1] != FAIL && s[2] != FAIL;
  }

  lemma {:induction false} NoFinding(samples: seq<Sample>, lim: Limits)
    requires FAIL !in States(samples, lim)
    ensures FAIL !in StandingStates(Judged(samples), lim)
    ensures F2State(samples, AllEpisodes(samples), lim.overlap) != FAIL
  {
    var s := States(samples, lim);
    assert s[5] in s && s[5] == F2State(samples, AllEpisodes(samples), lim.overlap);
  }

  /**
   * When does one missing measurement turn a window that is not red into a red one? Exactly when no episode is left
   * open and the loss is a finding for Z3, Z4 or F1 at its place among the judged samples, or for F2.
   */
  lemma {:induction false} RedFromAbsenceIff(samples: seq<Sample>, lim: Limits, i: nat, field: Field)
    requires i < |samples| && Verdict(samples, lim) != FAIL
    ensures Verdict(Lost(samples, i, field), lim) == FAIL <==>
            !SomeOpen(AllEpisodes(samples)) && LossIsAFinding(samples, lim, i, field)
  {
    var y, eps := Lost(samples, i, field), AllEpisodes(samples);
    EpisodesAfterLoss(samples, i, field);
    if !SomeOpen(eps) {
      NoFinding(samples, lim);
      JudgedAfterLoss(samples, i, field);
      ProbesAfterLoss(samples, lim, i, field);
      if !InAny(samples[i].at, eps) {
        StandingAfterLoss(Judged(samples), lim, JudgedAt(samples, i), field);
      }
      assert States(y, lim) == StandingStates(Judged(y), lim) + ProbeStates(y, |Judged(y)|, eps, lim);
    }
  }

  /** One lost field of a sample inside an episode leaves a probe unmeasured. */
  ghost predicate LossIsAGap(samples: seq<Sample>, lim: Limits, i: nat, field: Field)
    requires i < |samples|
  {
    || F2LossIsAGap(samples, AllEpisodes(samples), i, field)
    || SomeControlLossIsAGap(samples, AllEpisodes(samples), lim.minAbsent, i, field)
  }

  /** The probes of a green window stay green iff the loss is neither a finding nor a gap for them. */
  lemma {:induction false} GreenProbesAfterLoss(samples: seq<Sample>, lim: Limits, i: nat, field: Field)
    requires i < |samples| && ProbesPass(samples, lim)
    ensures ProbesPass(Lost(samples, i, field), lim) <==>
            !F2LossIsAFinding(samples, AllEpisodes(samples), i, field) && !LossIsAGap(samples, lim, i, field)
  {
    var eps := AllEpisodes(samples);
    EpisodesAfterLoss(samples, i, field);
    JudgedAfterLoss(samples, i, field);
    GreenF2AfterLoss(samples, eps, lim.overlap, i, field);
    GreenControlAfterLoss(samples, eps, lim.minAbsent, i, field);
    CoverageAfterLoss(samples, |Judged(samples)|, eps, lim, i, field);
  }

  /**
   * A green window loses one measurement: it is red exactly when the loss is a finding, otherwise unknown when the
   * sample was judged or a probe needed it, and still green only when an episode's sample loses what nobody reads.
   */
  lemma {:induction false} GreenWindowAfterLoss(samples: seq<Sample>, lim: Limits, i: nat, field: Field)
    requires i < |samples| && Verdict(samples, lim) == PASS
    ensures Verdict(Lost(samples, i, field), lim) ==
      if LossIsAFinding(samples, lim, i, field) then FAIL
      else if !InAny(samples[i].at, AllEpisodes(samples)) || LossIsAGap(samples, lim, i, field) then UNKNOWN
      else PASS
  {
    var y := Lost(samples, i, field);
    RedFromAbsenceIff(samples, lim, i, field);
    VerdictIsConjunction(samples, lim);
    OpenEpisodeIsReported(samples);
    if !InAny(samples[i].at, AllEpisodes(samples)) {
      JudgedLossIsNotGreen(samples, lim, i, field);
    } else {
      EpisodesAfterLoss(samples, i, field);
      JudgedAfterLoss(samples, i, field);
      GreenProbesAfterLoss(samples, lim, i, field);
      VerdictIsConjunction(y, lim);
    }
  }

  // --------------------------------------------------------- green from absence

  lemma {:induction false} StandingNeverRestored(j: seq<Sample>, lim: Limits, r: nat, field: Field, k: nat)
    requires r < |j| && k < 5 && StandingStates(Lost(j, r, field), lim)[k] == PASS
    ensures StandingStates(j, lim)[k] == PASS
  {
    if k == 0 {
      Z1NeverRestored(j, r, field);
    } else if k == 1 {
      Z2NeverRestored(j, lim.maxStall, r, field);
    } else if k == 2 {
      Z3NeverRestored(j, lim.minSpan, r, field);
    } else if k == 3 {
      Z4NeverRestored(j, lim.restageMax, r, field);
    } else {
      F1NeverRestored(j, lim.minRotations, lim.rotationPeriod, r, field);
    }
  }

  /** Position of F2 among the eight judgements. */
  const F2_POSITION := 5

  lemma {:induction false} StatesAt(samples: seq<Sample>, lim: Limits, k: nat)
    requires k < 8
    ensures States(samples, lim)[k] ==
            if k < 5 then StandingStates(Judged(samples), lim)[k]
            else ProbeStates(samples, |Judged(samples)|, AllEpisodes(samples), lim)[k - 5]
  {
  }

  /** Seven of the eight judgements never turn green because something was not measured. */
  lemma {:induction false} OnlyF2TurnsGreen(samples: seq<Sample>, lim: Limits, i: nat, field: Field, k: nat)
    requires i < |samples| && k < 8 && k != F2_POSITION && States(Lost(samples, i, field), lim)[k] == PASS
    ensures States(samples, lim)[k] == PASS
  {
    StatesAt(samples, lim, k);
    StatesAt(Lost(samples, i, field), lim, k);
    EpisodesAfterLoss(samples, i, field);
    JudgedAfterLoss(samples, i, field);
    if k >= 5 {
      ProbesNeverRestored(samples, lim, i, field);
    } else if !InAny(samples[i].at, AllEpisodes(samples)) {
      StandingNeverRestored(Judged(samples), lim, JudgedAt(samples, i), field, k);
    }
  }

  lemma {:induction false} ProbesNeverRestored(samples: seq<Sample>, lim: Limits, i: nat, field: Field)
    requires i < |samples|
    ensures var y, eps, judged := Lost(samples, i, field), AllEpisodes(samples), |Judged(samples)|;
      && (ControlState(y, eps, lim.minAbsent) == PASS ==> ControlState(samples, eps, lim.minAbsent) == PASS)
      && CoverageState(y, judged, eps, lim.windowSeconds, lim.maxGap) ==
         CoverageState(samples, judged, eps, lim.windowSeconds, lim.maxGap)
  {
    ControlGreenAfterLossIff(samples, AllEpisodes(samples), lim.minAbsent, i, field);
    CoverageAfterLoss(samples, |Judged(samples)|, AllEpisodes(samples), lim, i, field);
  }

  /** Everything but F2 stays green without field `field` of sample i, which lies in a deliberate episode. */
  ghost predicate RestStaysGreen(samples: seq<Sample>, lim: Limits, i: nat, field: Field)
    requires i < |samples|
  {
    var eps, judged := AllEpisodes(samples), Judged(samples);
    && InAny(samples[i].at, eps)
    && EpisodesWellPaired(samples)
    && StandingHolds(judged, lim)
    && ControlsHold(samples, eps, lim.minAbsent) && !SomeControlLossIsAGap(samples, eps, lim.minAbsent, i, field)
    && CoverageHolds(samples, |judged|, eps, lim)
  }

  /** Every cold restart is proved without field `field` of sample i, and there is one. */
  ghost predicate RestartsProvedWithout(samples: seq<Sample>, lim: Limits, i: int, field: Field)
  {
    var eps := AllEpisodes(samples);
    && (exists e :: e in eps && e.kind == ColdAgent)
    && (forall e :: e in eps && e.kind == ColdAgent ==> ProvedWithout(samples, lim.overlap, e, i, field))
  }

  lemma {:induction false} ProbesGreenAfterLossIff(samples: seq<Sample>, lim: Limits, i: nat, field: Field)
    requires i < |samples|
    ensures var eps := AllEpisodes(samples);
      ProbesPass(Lost(samples, i, field), lim) <==>
        && RestartsProvedWithout(samples, lim, i, field)
        && ControlsHold(samples, eps, lim.minAbsent) && !SomeControlLossIsAGap(samples, eps, lim.minAbsent, i, field)
        && CoverageHolds(samples, |Judged(samples)|, eps, lim)
  {
    var eps := AllEpisodes(samples);
    EpisodesAfterLoss(samples, i, field);
    JudgedAfterLoss(samples, i, field);
    F2GreenAfterLossIff(samples, eps, lim.overlap, i, field);
    ControlGreenAfterLossIff(samples, eps, lim.minAbsent, i, field);
    ControlPassIff(samples, eps, lim.minAbsent);
    CoverageAfterLoss(samples, |Judged(samples)|, eps, lim, i, field);
    CoverageFromFields(samples, |Judged(samples)|, eps, lim.windowSeconds, lim.maxGap);
  }

  /** When is a window green without one of its values? For every window, whatever its verdict was. */
  lemma {:induction false} GreenAfterLossIff(samples: seq<Sample>, lim: Limits, i: nat, field: Field)
    requires i < |samples|
    ensures Verdict(Lost(samples, i, field), lim) == PASS <==>
            RestStaysGreen(samples, lim, i, field) && RestartsProvedWithout(samples, lim, i, field)
  {
    if !InAny(samples[i].at, AllEpisodes(samples)) {
      JudgedLossIsNotGreen(samples, lim, i, field);
    } else {
      EpisodesAfterLoss(samples, i, field);
      JudgedAfterLoss(samples, i, field);
      ProbesGreenAfterLossIff(samples, lim, i, field);
      StandingIff(Judged(samples), lim);
      VerdictIsConjunction(Lost(samples, i, field), lim);
    }
  }

  /** Some cold restart was objected to, and the objection rests on the lost value alone. */
  ghost predicate SomeObjectionVanishes(samples: seq<Sample>, lim: Limits, i: int, field: Field)
  {
    exists e :: e in AllEpisodes(samples) && e.kind == ColdAgent && ObjectionVanishes(samples, lim.overlap, e, i, field)
  }

  /**
   * Absence can be bought green after all: a window that is not green becomes green without one value exactly when
   * the value lies inside a deliberate episode, everything but F2 is green without it, every cold restart is proved
   * without it, and for one of them that is because F2's objection rested on the lost value.
   */
  lemma {:induction false} GreenFromAbsenceIff(samples: seq<Sample>, lim: Limits, i: nat, field: Field)
    requires i < |samples| && Verdict(samples, lim) != PASS
    ensures Verdict(Lost(samples, i, field), lim) == PASS <==>
            && RestStaysGreen(samples, lim, i, field)
            && RestartsProvedWithout(samples, lim, i, field)
            && SomeObjectionVanishes(samples, lim, i, field)
  {
    GreenAfterLossIff(samples, lim, i, field);
    if Verdict(Lost(samples, i, field), lim) == PASS && !SomeObjectionVanishes(samples, lim, i, field) {
      assert ColdRestartsHold(samples, AllEpisodes(samples), lim.overlap);
      PassIffGreen(samples, lim);
    }
  }

  /**
   * The judge's rule, as far as it holds: a missing value never turns a window green, unless it is F2's own evidence
   * against a restart, measured inside a deliberate episode.
   */
  lemma {:induction false} NoGreenFromAbsence(samples: seq<Sample>, lim: Limits, i: nat, field: Field)
    requires i < |samples|
    ensures !InAny(samples[i].at, AllEpisodes(samples)) ==> Verdict(Lost(samples, i, field), lim) != PASS
    ensures Verdict(samples, lim) != PASS && !SomeObjectionVanishes(samples, lim, i, field) ==>
              Verdict(Lost(samples, i, field), lim) != PASS
    ensures Verdict(samples, lim) != PASS && !HidesObjections(field) ==>
              Verdict(Lost(samples, i, field), lim) != PASS
  {
    if !InAny(samples[i].at, AllEpisodes(samples)) {
      JudgedLossIsNotGreen(samples, lim, i, field);
    }
    if Verdict(samples, lim) != PASS {
      GreenFromAbsenceIff(samples, lim, i, field);
      VanishingFields(samples, lim, i, field);
    }
  }

  /** The three fields whose loss can hide an objection: the state file's mtime, the SVID's status and its expiry. */
  predicate HidesObjections(field: Field)
  {
    field == AgentDataMtime || FeedsZ2(field)
  }

  lemma {:induction false} VanishingFields(samples: seq<Sample>, lim: Limits, i: nat, field: Field)
    requires i < |samples|
    ensures SomeObjectionVanishes(samples, lim, i, field) ==> HidesObjections(field)
  {
    forall e | ObjectionVanishes(samples, lim.overlap, e, i, field)
      ensures HidesObjections(field)
    {
    }
  }
}
