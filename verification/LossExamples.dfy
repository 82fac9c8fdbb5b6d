// Concrete series in which a missing measurement is reported as a finding
// (scripts/acceptance/substrate_acceptance_window.py:139-147 says it never is).

module LossExamples {
  import opened Sequences
  import opened Samples
  import opened Episodes
  import opened Series
  import opened Assurances
  import opened Falsifications
  import opened Window
  import opened ProbeMeaning
  import opened Soundness
  import opened Acceptance
  import opened Absence
  import opened ProbeLoss
  import opened LossVerdict
  import opened Baseline

  /** A complete sample at time t. */
  function Measured(t: int, signer: AuthorityId, agentMtime: int, anchorMtime: int): Sample
  {
    Sample(t, Unmarked, Ok, Some(t), Some(ROOT), Some(signer), Ok, Some([ROOT]),
           Ok, Some(agentMtime), Ok, Some(anchorMtime), Some([ROOT]))
  }

  lemma {:induction false} MeasuredIsComplete(t: int, signer: AuthorityId, agentMtime: int, anchorMtime: int)
    ensures Complete(Measured(t, signer, agentMtime, anchorMtime))
  {
    var s := Measured(t, signer, agentMtime, anchorMtime);
    assert s.anchorIds.value[0] in s.bundleIds.value;
  }

  /** The state file written once, between the first sample and the second. */
  function WrittenOnce(): seq<Sample>
  {
    [Measured(0, ROOT, 0, 0), Measured(1, ROOT, 1, 1), Measured(9, ROOT, 1, 9)]
  }

  /** Z3: without its first mtime, this accepted series is called motionless. */
  lemma {:induction false} LostMtimeFailsZ3()
    ensures Z3State(WrittenOnce(), 6) == PASS
    ensures Z3State(Lost(WrittenOnce(), 0, AgentDataMtime), 6) == FAIL
  {
    var j := WrittenOnce();
    KeepAll(j, StateFilePoint);
    Z3PassIff(j, 6);
    Z3AfterLoss(j, 6, 0, AgentDataMtime);
    assert j[..0] == [];
  }

  /** An anchor replaced by an older one and then rewritten: mtimes 5, 3, 4. */
  function AnchorReplaced(): seq<Sample>
  {
    [Measured(0, ROOT, 0, 5), Measured(1, ROOT, 1, 3), Measured(2, ROOT, 2, 4)]
  }

  lemma {:induction false} ReplacedAnchorPasses()
    ensures Z4State(AnchorReplaced(), 1) == PASS
    ensures Keep(AnchorReplaced(), AnchorPoint) == [Point(0, 5), Point(1, 3), Point(2, 4)]
  {
    var j := AnchorReplaced();
    forall k | 0 <= k < 3
      ensures AnchorGrade(j[k]) == Sound
    {
      assert j[k].anchorIds.value[0] in j[k].bundleIds.value;
    }
    assert Restaged(j, 2);
    Z4PassIff(j, 1);
    KeepAll(j, AnchorPoint);
  }

  /** Z4: without the middle mtime the rewrite can no longer be seen, and the anchor is called stale. */
  lemma {:induction false} LostMtimeFailsZ4()
    ensures Z4State(AnchorReplaced(), 1) == PASS
    ensures Z4State(Lost(AnchorReplaced(), 1, AnchorMtime), 1) == FAIL
  {
    var j := AnchorReplaced();
    ReplacedAnchorPasses();
    KeepAll(j[..1], AnchorPoint);
    assert JoinsBeyond(Keep(j, AnchorPoint), 1, 1, 0, 2);
    Z4AfterLoss(j, 1, 1, AnchorMtime);
  }

  /** Two rotations: to a new signer and back. */
  function ThereAndBack(): seq<Sample>
  {
    [Measured(0, "g", 0, 0), Measured(1, "h", 1, 1), Measured(2, "g", 2, 2)]
  }

  lemma {:induction false} ThereAndBackPasses()
    ensures F1State(ThereAndBack(), 2, 1) == PASS
    ensures Keep(ThereAndBack(), SigningOf) == [Signing(0, "g", true), Signing(1, "h", true), Signing(2, "g", true)]
  {
    var j := ThereAndBack();
    MeasuredIsComplete(0, "g", 0, 0);
    MeasuredIsComplete(1, "h", 1, 1);
    MeasuredIsComplete(2, "g", 2, 2);
    CompleteEverywhereIff(j);
    KeepAll(j, SigningOf);
    TwoRotations(Keep(j, SigningOf));
    RotationsAreSignerChanges(j, Keep(j, SigningOf));
    F1PassIff(j, 2, 1);
  }

  /** F1: without the signer in the middle both rotations vanish, over a span in which two were due. */
  lemma {:induction false} LostSignerFailsF1()
    ensures F1State(ThereAndBack(), 2, 1) == PASS
    ensures F1State(Lost(ThereAndBack(), 1, LeafAuthority), 2, 1) == FAIL
  {
    var j := ThereAndBack();
    ThereAndBackPasses();
    KeepAll(j[..1], SigningOf);
    TwoRotations(Keep(j, SigningOf));
    assert F1LossIsAFinding(j, 2, 1, 1);
    F1AfterLoss(j, 2, 1, 1, LeafAuthority);
  }

  lemma {:induction false} TwoRotations(q: seq<Signing>)
    requires |q| == 3 && q[0].signer == "g" && q[1].signer == "h" && q[2].signer == "g"
    ensures Rotations(q) == 2 == RotationsHidden(q, 1)
  {
    assert "g"[0] != "h"[0];
    RotationsConcat([q[0]], [q[1]]);
    RotationsConcat([q[0]] + [q[1]], [q[2]]);
    assert q == ([q[0]] + [q[1]]) + [q[2]];
  }

  /** The baseline with the cold restart at its very end: one sample sees the agent return. */
  const LATE := Plan(149, 100)

  lemma {:induction false} LateReturnIsSeenOnce()
    ensures var e := ColdEpisode(LATE); ReturnLost(FullWindow(LATE), e.start, e.end.value, 175, Expiry)
  {
    RestartIsProved(LATE);
    assert LastExpiryBy(FullWindow(LATE), At(149), 149);
  }

  /** The verdict: that sample loses its expiry, and a green window is red because the agent did not come back. */
  lemma {:induction false} LostReturnFailsTheWindow()
    ensures Verdict(FullWindow(LATE), Defaults()) == PASS
    ensures Verdict(Lost(FullWindow(LATE), 175, Expiry), Defaults()) == FAIL
  {
    BaselinePasses(LATE);
    LateLossIsAFinding();
    GreenWindowAfterLoss(FullWindow(LATE), Defaults(), 175, Expiry);
  }

  lemma {:induction false} LateLossIsAFinding()
    ensures LossIsAFinding(FullWindow(LATE), Defaults(), 175, Expiry)
  {
    EpisodesFound(LATE);
    LateReturnIsSeenOnce();
    var e, eps := ColdEpisode(LATE), AllEpisodes(FullWindow(LATE));
    assert eps[0] == e;
    assert RestartLossIsAFinding(FullWindow(LATE), e, 175, Expiry);
  }

  // ------------------------------------------------------------ red made green

  /** The documented placement; hour 126 is the first sample after the cold restart. */
  const BASE := Plan(100, 150)

  lemma {:induction false} ViolatedRestartIsRed(samples: seq<Sample>, lim: Limits, e: Episode)
    requires !SomeOpen(AllEpisodes(samples)) && e in AllEpisodes(samples) && e.kind == ColdAgent
    requires RestartViolated(samples, lim.overlap, e)
    ensures Verdict(samples, lim) == FAIL
  {
    F2ByEpisode(samples, AllEpisodes(samples), lim.overlap);
    StatesAt(samples, lim, F2_POSITION);
    assert States(samples, lim)[F2_POSITION] in States(samples, lim);
  }

  ghost predicate StrictlyInTime(samples: seq<Sample>)
  {
    forall q, r :: 0 <= q < r < |samples| ==> samples[q].at < samples[r].at
  }

  /** With distinct times, the samples at an episode's ends are the ones F2 compares, if they carry what it needs. */
  lemma {:induction false} EndsAreCompared(samples: seq<Sample>, a: nat, k: nat)
    requires StrictlyInTime(samples) && a < |samples| && k < |samples| && samples[a].notAfter.Some?
    requires samples[k].svid == Ok && samples[k].notAfter.Some?
    ensures LastExpiryBy(samples, samples[a].at, a) && FirstServedFrom(samples, samples[k].at, k)
    ensures FirstAt(samples, samples[a].at, a) && FirstAt(samples, samples[k].at, k)
  {
  }

  /** A bad return or a touched volume makes the window red. */
  lemma {:induction false} BadEndsAreRed(samples: seq<Sample>, lim: Limits, a: nat, k: nat)
    requires StrictlyInTime(samples) && a < |samples| && k < |samples| && samples[a].notAfter.Some?
    requires samples[k].svid == Ok && samples[k].notAfter.Some?
    requires !SomeOpen(AllEpisodes(samples))
    requires Episode(ColdAgent, samples[a].at, Some(samples[k].at)) in AllEpisodes(samples)
    requires || BadReturn(samples[a], samples[k])
             || (samples[a].agentMtime.Some? && samples[k].agentMtime.Some? &&
                 samples[a].agentMtime != samples[k].agentMtime)
    ensures Verdict(samples, lim) == FAIL
  {
    var e := Episode(ColdAgent, samples[a].at, Some(samples[k].at));
    EndsAreCompared(samples, a, k);
    TouchedIff(samples, e.start, e.end.value);
    RestartByPosition(samples, lim.overlap, e);
    ViolatedRestartIsRed(samples, lim, e);
  }

  /** The baseline with another return sample, taken at the same time under the same marker. */
  function WithReturn(x: Sample): seq<Sample>
  {
    FullWindow(BASE)[126 := x]
  }

  lemma {:induction false} WithReturnInTime(x: Sample)
    requires x.at == At(126)
    ensures StrictlyInTime(WithReturn(x))
  {
    var w := WithReturn(x);
    forall q | 0 <= q < |w|
      ensures w[q].at == At(q)
    {
    }
  }

  lemma {:induction false} WithReturnEpisodes(x: Sample)
    requires x.at == At(126) && x.marker == Closes(ColdAgent)
    ensures AllEpisodes(WithReturn(x)) == [ColdEpisode(BASE), ControlEpisode(BASE)]
  {
    EpisodesFound(BASE);
    EpisodesReadOnlyMarkers(WithReturn(x), FullWindow(BASE));
  }

  lemma {:induction false} BadReturnIsRed(x: Sample)
    requires x.at == At(126) && x.marker == Closes(ColdAgent) && x.svid == Ok && x.notAfter.Some?
    requires BadReturn(Hourly(100), x) || (x.agentMtime.Some? && x.agentMtime.value != At(100) - 120)
    ensures Verdict(WithReturn(x), Defaults()) == FAIL
  {
    var w := WithReturn(x);
    WithReturnInTime(x);
    WithReturnEpisodes(x);
    assert w[100] == Hourly(100).(marker := Opens(ColdAgent)) && w[126] == x;
    assert AllEpisodes(w)[0] == Episode(ColdAgent, w[100].at, Some(w[126].at));
    BadEndsAreRed(w, Defaults(), 100, 126);
  }

  /** The return sample of the baseline, in full. */
  function Return(): Sample
  {
    Hourly(126).(marker := Closes(ColdAgent), agentMtime := Some(At(100) - 120))
  }

  lemma {:induction false} ReturnFacts()
    ensures FullWindow(BASE)[126] == Return() && InAny(At(126), AllEpisodes(FullWindow(BASE)))
  {
    EpisodesFound(BASE);
    assert AllEpisodes(FullWindow(BASE))[0].Contains(At(126));
  }

  /** Nothing but F2's test for a touched volume reads a state-file mtime inside an episode. */
  lemma {:induction false} MtimeLossIsHarmless(samples: seq<Sample>, lim: Limits, i: nat)
    requires i < |samples| && InAny(samples[i].at, AllEpisodes(samples))
    ensures !LossIsAFinding(samples, lim, i, AgentDataMtime) && !LossIsAGap(samples, lim, i, AgentDataMtime)
  {
    var eps := AllEpisodes(samples);
    forall e: Episode
      ensures !RestartLossIsAFinding(samples, e, i, AgentDataMtime)
      ensures e.end.Some? ==> !RestartLossIsAGap(samples, e, i, AgentDataMtime)
      ensures !ControlLossIsAGap(samples, lim.minAbsent, e, i, AgentDataMtime)
    {
    }
  }

  /** The state file changed while the agent was stopped. */
  const TOUCHED_RETURN := Return().(agentMtime := Some(0))

  /** The window is red because the volume was touched; without that mtime it is green. */
  lemma {:induction false} LostMtimeHidesTouch()
    ensures Verdict(WithReturn(TOUCHED_RETURN), Defaults()) == FAIL
    ensures Verdict(Lost(WithReturn(TOUCHED_RETURN), 126, AgentDataMtime), Defaults()) == PASS
  {
    var w := FullWindow(BASE);
    BadReturnIsRed(TOUCHED_RETURN);
    ReturnFacts();
    assert Lost(WithReturn(TOUCHED_RETURN), 126, AgentDataMtime) == Lost(w, 126, AgentDataMtime);
    BaselinePasses(BASE);
    MtimeLossIsHarmless(w, Defaults(), 126);
    GreenWindowAfterLoss(w, Defaults(), 126, AgentDataMtime);
  }

  /** Where the sample after the return is a good return as well, nothing is noticed when the first one is lost. */
  lemma {:induction false} SecondReturnIsEnough(samples: seq<Sample>, eps: seq<Episode>, a: nat, k: nat)
    requires StrictlyInTime(samples) && a < k < |samples| - 1 && samples[a].notAfter.Some?
    requires samples[k].svid == Ok && samples[k].notAfter.Some?
    requires samples[k + 1].svid == Ok && GoodReturn(samples[a], samples[k + 1])
    requires forall e :: e in eps && e.kind == ColdAgent ==>
               e == Episode(ColdAgent, samples[a].at, Some(samples[k].at))
    ensures !F2LossIsAFinding(samples, eps, k, Expiry) && !F2LossIsAGap(samples, eps, k, Expiry)
  {
    var start, end := samples[a].at, samples[k].at;
    EndsAreCompared(samples, a, k);
    assert NextServed(samples, end, k, k + 1);
    assert forall q :: NextServed(samples, end, k, q) ==> q == k + 1;
    assert forall q :: LastExpiryBy(samples, start, q) ==> q == a;
    assert !ReturnLost(samples, start, end, k, Expiry);
    assert !LaterExpiryExposed(samples, start, end, k, Expiry);
  }

  lemma {:induction false} LosingReturnIsHarmless()
    ensures var w := FullWindow(BASE);
      !F2LossIsAFinding(w, AllEpisodes(w), 126, Expiry) && !F2LossIsAGap(w, AllEpisodes(w), 126, Expiry)
  {
    var w := FullWindow(BASE);
    EpisodesFound(BASE);
    ReturnFacts();
    WithReturnInTime(Return());
    assert WithReturn(Return()) == w;
    assert w[100] == Hourly(100).(marker := Opens(ColdAgent)) && w[127] == Hourly(127);
    HourlyIsComplete(127);
    CompleteIff(Hourly(127));
    SecondReturnIsEnough(w, AllEpisodes(w), 100, 126);
  }

  /** What is served after the restart expires long before it. */
  const OLD_RETURN := Return().(notAfter := Some(0))

  /** The window is red because an old credential was served; without that expiry it is green. */
  lemma {:induction false} LostExpiryHidesOldCredential()
    ensures Verdict(WithReturn(OLD_RETURN), Defaults()) == FAIL
    ensures Verdict(Lost(WithReturn(OLD_RETURN), 126, Expiry), Defaults()) == PASS
  {
    var w := FullWindow(BASE);
    BadReturnIsRed(OLD_RETURN);
    ReturnFacts();
    assert Lost(WithReturn(OLD_RETURN), 126, Expiry) == Lost(w, 126, Expiry);
    BaselinePasses(BASE);
    LosingReturnIsHarmless();
    ControlsIgnoreExpiry(w, Defaults(), 126);
    GreenWindowAfterLoss(w, Defaults(), 126, Expiry);
  }

  lemma {:induction false} ControlsIgnoreExpiry(samples: seq<Sample>, lim: Limits, i: nat)
    requires i < |samples|
    ensures !SomeControlLossIsAGap(samples, AllEpisodes(samples), lim.minAbsent, i, Expiry)
  {
  }
}
