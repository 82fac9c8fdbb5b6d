// The cold-agent counter-probe F2, the negative control, and window coverage
// (scripts/acceptance/substrate_acceptance_window.py).

module Falsifications {
  import opened Findings
  import opened Sequences
  import opened Samples
  import opened Episodes
  import opened Series
  import opened Assurances

  function OfKind(kind: Kind): Episode -> Option<Episode>
  {
    (e: Episode) => if e.kind == kind then Some(e) else None
  }

  // ----------------------------------------------------------------------- F2

  function MeasuredUpTo(start: int): Sample -> Option<Sample>
  {
    (s: Sample) => if s.at <= start && s.notAfter.Some? then Some(s) else None
  }

  function ServedFrom(end: int): Sample -> Option<Sample>
  {
    (s: Sample) => if s.at >= end && s.svid == Ok && s.notAfter.Some? then Some(s) else None
  }

  function ObservedAt(t: int): Sample -> Option<Sample>
  {
    (s: Sample) => if s.at == t then Some(s) else None
  }

  predicate ReservedOldCredential(pre: Sample, post: Sample)
  {
    pre.notAfter.Some? && post.notAfter.Some? && post.notAfter.value <= pre.notAfter.value
  }

  /** The state file's mtime was measured at both ends of the episode and differs. */
  predicate Touched(samples: seq<Sample>, start: int, end: int)
  {
    var stop, go := Keep(samples, ObservedAt(start)), Keep(samples, ObservedAt(end));
    && stop != [] && go != []
    && stop[0].agentMtime.Some? && go[0].agentMtime.Some?
    && stop[0].agentMtime != go[0].agentMtime
  }

  /** Something was measured about this restart and is bad. */
  predicate RestartViolated(samples: seq<Sample>, overlap: int, e: Episode)
  {
    e.end.Some? && (
      var before, after := Keep(samples, MeasuredUpTo(e.start)), Keep(samples, ServedFrom(e.end.value));
      || e.end.value - e.start < overlap
      || (before != [] && after == [])
      || (before != [] && after != [] && (
          || ReservedOldCredential(before[|before| - 1], after[0])
          || Z1Grade(after[0]) == Violated
          || Touched(samples, e.start, e.end.value))))
  }

  /** Something this restart needs was not measured. */
  predicate RestartUnmeasured(samples: seq<Sample>, e: Episode)
  {
    e.end.None? || (
      var before, after := Keep(samples, MeasuredUpTo(e.start)), Keep(samples, ServedFrom(e.end.value));
      before == [] || (after != [] && Z1Grade(after[0]) == Gap))
  }

  ghost function F2State(samples: seq<Sample>, episodes: seq<Episode>, overlap: int): State
  {
    var cold := Keep(episodes, OfKind(ColdAgent));
    Settled(
      exists i :: 0 <= i < |cold| && RestartViolated(samples, overlap, cold[i]),
      cold == [] || exists i :: 0 <= i < |cold| && RestartUnmeasured(samples, cold[i]))
  }

  /** The first credential served after the restart against the last one measured before it. */
  method JudgeReturn(pre: Sample, post: Sample) returns (violations: seq<Reason>, gaps: seq<Reason>)
    requires post.svid == Ok
    ensures violations != [] <==> ReservedOldCredential(pre, post) || Z1Grade(post) == Violated
    ensures gaps != [] <==> Z1Grade(post) == Gap
  {
    violations, gaps := [], [];
    if ReservedOldCredential(pre, post) {
      violations := [OldCredentialServed];
    }
    var bundle := SourcePresent(post.bundle);
    if bundle == Bad {
      violations := violations + [NoAuthoritySet];
    } else if bundle == NotMeasured || post.chainAuthority.None? || post.bundleIds.None? {
      gaps := [AuthorityUnmeasured];
    } else if post.chainAuthority.value !in post.bundleIds.value {
      violations := violations + [ChainOutsideBundle];
    }
  }

  /** One cold-agent episode: stop the agent, outlast the CA overlap, and come back with a new credential. */
  method JudgeRestart(samples: seq<Sample>, overlap: int, e: Episode)
    returns (violations: seq<Reason>, gaps: seq<Reason>)
    ensures violations != [] <==> RestartViolated(samples, overlap, e)
    ensures gaps != [] <==> RestartUnmeasured(samples, e)
  {
    violations, gaps := [], [];
    if e.end.None? {
      gaps := [NeverClosed];
      return;
    }
    if e.end.value - e.start < overlap {
      violations := [RestartInsideOverlap];
    }
    var before := Keep(samples, MeasuredUpTo(e.start));
    var after := Keep(samples, ServedFrom(e.end.value));
    if before == [] {
      gaps := [NothingBeforeRestart];
      return;
    }
    if after == [] {
      violations := violations + [DidNotComeBack];
      return;
    }
    ServedFromIsServed(samples, e.end.value, 0);
    var v, g := JudgeReturn(before[|before| - 1], after[0]);
    violations, gaps := violations + v, g;
    if Touched(samples, e.start, e.end.value) {
      violations := violations + [VolumeTouched];
    }
  }

  lemma {:induction false} ServedFromIsServed(samples: seq<Sample>, end: int, k: nat)
    requires k < |Keep(samples, ServedFrom(end))|
    ensures var s := Keep(samples, ServedFrom(end))[k]; s.svid == Ok && s.notAfter.Some? && s.at >= end
  {
    var i := Origin(samples, ServedFrom(end), k);
  }

  method JudgeF2(samples: seq<Sample>, episodes: seq<Episode>, overlap: int) returns (j: Judgement)
    ensures j.state == F2State(samples, episodes, overlap)
  {
    var cold := Keep(episodes, OfKind(ColdAgent));
    if cold == [] {
      return Judgement(UNKNOWN, [], [NotPerformed]);
    }
    var violations, gaps: seq<Reason> := [], [];
    for i := 0 to |cold|
      invariant violations != [] <==> exists k :: 0 <= k < i && RestartViolated(samples, overlap, cold[k])
      invariant gaps != [] <==> exists k :: 0 <= k < i && RestartUnmeasured(samples, cold[k])
    {
      var v, g := JudgeRestart(samples, overlap, cold[i]);
      violations, gaps := violations + v, gaps + g;
    }
    j := Settle(violations, gaps, false);
  }

  // --------------------------------------------------------- negative control

  function Within(e: Episode): Sample -> Option<Sample>
  {
    (s: Sample) => if e.Contains(s.at) then Some(s) else None
  }

  /** A sample in which the other sources were still answering. */
  function OthersMeasured(s: Sample): Option<Sample>
  {
    if StillAnswers(s.svid) && s.bundle == Ok then Some(s) else None
  }

  function AnchorGone(s: Sample): Option<Sample>
  {
    if s.anchor == TargetBad then Some(s) else None
  }

  /** The control was closed, outlasted the restore cadence, and its red is attributable to the emptied volume. */
  predicate ControlCarriedOut(samples: seq<Sample>, minAbsent: int, e: Episode)
  {
    && e.end.Some?
    && var slice := Keep(samples, Within(e));
       && Keep(slice, OthersMeasured) != []
       && |Keep(slice, AnchorGone)| >= Max(1, minAbsent)
  }

  ghost function ControlState(samples: seq<Sample>, episodes: seq<Episode>, minAbsent: int): State
  {
    var controls := Keep(episodes, OfKind(NegativeControl));
    Settled(false, controls == [] || exists i :: 0 <= i < |controls| && !ControlCarriedOut(samples, minAbsent, controls[i]))
  }

  /** A single sample with a target-bad anchor makes Z4 fail, whatever surrounds it. */
  lemma {:induction false} AbsentAnchorFailsZ4(slice: seq<Sample>, restageMax: int)
    requires Keep(slice, AnchorGone) != []
    ensures Z4State(slice, restageMax) == FAIL
  {
    var i := Origin(slice, AnchorGone, 0);
    AnyMeaning(slice, AnchorGrade, Violated);
    assert AnchorGrade(slice[i]) == Violated;
  }

  lemma {:induction false} KeepTimeSorted(samples: seq<Sample>, f: Sample -> Option<Sample>)
    requires TimeSorted(samples)
    requires forall s :: f(s).Some? ==> f(s).value == s
    ensures TimeSorted(Keep(samples, f))
  {
    var kept := Keep(samples, f);
    forall i, j | 0 <= i < j < |kept|
      ensures kept[i].at <= kept[j].at
    {
      OriginIncreasing(samples, f, i, j);
    }
  }

  /** One control: no gap iff it was carried out; Z4 over its slice then always fails. */
  method JudgeControl(samples: seq<Sample>, restageMax: int, minAbsent: int, e: Episode)
    returns (violations: seq<Reason>, gaps: seq<Reason>)
    requires TimeSorted(samples)
    ensures violations == []
    ensures gaps == [] <==> ControlCarriedOut(samples, minAbsent, e)
  {
    violations, gaps := [], [];
    if e.end.None? {
      gaps := [NeverClosed];
      return;
    }
    var slice := Keep(samples, Within(e));
    if slice == [] {
      gaps := [EmptyControl];
      return;
    }
    if Keep(slice, OthersMeasured) == [] {
      gaps := [OthersNotMeasured];
      return;
    }
    var absent := Keep(slice, AnchorGone);
    if absent == [] {
      gaps := [AnchorNeverMissing];
      return;
    }
    if |absent| < minAbsent {
      gaps := [ControlTooShort];
      return;
    }
    KeepTimeSorted(samples, Within(e));
    var inner, _ := JudgeZ4(slice, restageMax);
    AbsentAnchorFailsZ4(slice, restageMax);
    if inner.state != FAIL {
      violations := [ControlNotRed];
    }
  }

  /** Every control goes red, so this judgement is never FAIL. */
  method JudgeNegativeControl(samples: seq<Sample>, episodes: seq<Episode>, restageMax: int, minAbsent: int)
    returns (j: Judgement)
    requires TimeSorted(samples)
    ensures j.state == ControlState(samples, episodes, minAbsent)
    ensures j.state != FAIL && j.violations == []
  {
    var controls := Keep(episodes, OfKind(NegativeControl));
    if controls == [] {
      return Judgement(UNKNOWN, [], [NotPerformed]);
    }
    var violations, gaps: seq<Reason> := [], [];
    for i := 0 to |controls|
      invariant violations == []
      invariant gaps != [] <==> exists k :: 0 <= k < i && !ControlCarriedOut(samples, minAbsent, controls[k])
    {
      var v, g := JudgeControl(samples, restageMax, minAbsent, controls[i]);
      violations, gaps := violations + v, gaps + g;
    }
    j := Settle(violations, gaps, false);
  }

  // ----------------------------------------------------------------- coverage

  /** An over-long silence before sample k that no deliberate episode explains. */
  predicate Unobserved(samples: seq<Sample>, episodes: seq<Episode>, maxGap: int, k: int)
  {
    && 0 < k < |samples|
    && samples[k].at - samples[k - 1].at > maxGap
    && !InAny(samples[k - 1].at, episodes)
    && !InAny(samples[k].at, episodes)
  }

  ghost function CoverageState(
    samples: seq<Sample>, judged: nat, episodes: seq<Episode>, windowSeconds: int, maxGap: int): State
  {
    Settled(false,
      || |samples| < 2
      || samples[|samples| - 1].at - samples[0].at < windowSeconds
      || (exists k :: Unobserved(samples, episodes, maxGap, k))
      || judged * 2 < |samples|)
  }

  method JudgeCoverage(
    samples: seq<Sample>, judged: nat, episodes: seq<Episode>, windowSeconds: int, maxGap: int)
    returns (j: Judgement)
    ensures j.state == CoverageState(samples, judged, episodes, windowSeconds, maxGap)
  {
    if |samples| < 2 {
      return Judgement(UNKNOWN, [], [TooFewPoints]);
    }
    var gaps: seq<Reason> := [];
    var span := samples[|samples| - 1].at - samples[0].at;
    var short := span < windowSeconds;
    if short {
      gaps := [WindowNotOver];
    }
    for k := 1 to |samples|
      invariant gaps != [] <==> short || exists i :: i < k && Unobserved(samples, episodes, maxGap, i)
    {
      var gap := samples[k].at - samples[k - 1].at;
      if gap <= maxGap {
        continue;
      }
      if InAny(samples[k - 1].at, episodes) || InAny(samples[k].at, episodes) {
        continue;
      }
      assert Unobserved(samples, episodes, maxGap, k);
      gaps := gaps + [UnobservedStretch];
    }
    if judged * 2 < |samples| {
      gaps := gaps + [MostlyExcluded];
    }
    j := Settle([], gaps, false);
  }
}
