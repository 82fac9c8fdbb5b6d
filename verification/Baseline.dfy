// The seven-day baseline window of the acceptance tests, judged with the default limits
// (tests/infra/test_substrate_acceptance_window.py), so that nothing proved about PASS is about nothing.

module Baseline {
  import opened Sequences
  import opened Samples
  import opened Episodes
  import opened Series
  import opened Assurances
  import opened Falsifications
  import opened Window
  import opened ProbeMeaning
  import opened Soundness
  import opened Acceptance
  import opened ProbeLoss

  const HOUR := 3600
  const EPOCH := 1_790_000_000
  const HOURS := 176
  const ROOT: AuthorityId := "EE7185A994C1FDE23C85B8E8D10D70451EBEE92A"

  function At(i: int): int
  {
    EPOCH + i * HOUR
  }

  /** The signing intermediate of one generation: its number, zero-padded. */
  function SignerId(n: nat): AuthorityId
    requires n < 10
  {
    seq(39, k => '0') + ['0' + n as char]
  }

  /** The sample taken i hours into the window; the signer turns over once a day. */
  function Hourly(i: nat): Sample
    requires i < HOURS
  {
    Sample(At(i), Unmarked, Ok, Some(At(i) + HOUR), Some(ROOT), Some(SignerId(i / 24)), Ok, Some([ROOT]),
           Ok, Some(At(i) - 120), Ok, Some(At(i) - 300), Some([ROOT]))
  }

  /** When the agent is stopped, for 26 hours, and when the anchor is taken away, for two. */
  datatype Plan = Plan(stop: nat, control: nat)

  predicate Cold(plan: Plan, i: int)
  {
    plan.stop <= i <= plan.stop + 26
  }

  predicate Emptied(plan: Plan, i: int)
  {
    plan.control <= i <= plan.control + 2
  }

  /** The agent is down, its state file frozen. */
  function ColdHour(plan: Plan, i: nat): Sample
    requires i < HOURS
  {
    var frozen := Some(At(plan.stop) - 120);
    if i == plan.stop then Hourly(i).(marker := Opens(ColdAgent))
    else if i == plan.stop + 26 then Hourly(i).(marker := Closes(ColdAgent), agentMtime := frozen)
    else Hourly(i).(svid := TargetBad, notAfter := None, chainAuthority := None, leafAuthority := None,
                    agentMtime := frozen)
  }

  function ControlHour(plan: Plan, i: nat): Sample
    requires i < HOURS
  {
    Hourly(i).(marker := if i == plan.control then Opens(NegativeControl)
                         else if i == plan.control + 2 then Closes(NegativeControl)
                         else Unmarked,
               anchor := TargetBad, anchorMtime := None, anchorIds := None)
  }

  function SampleAt(plan: Plan, i: nat): Sample
    requires i < HOURS
  {
    if Cold(plan, i) then ColdHour(plan, i) else if Emptied(plan, i) then ControlHour(plan, i) else Hourly(i)
  }

  function FullWindow(plan: Plan): seq<Sample>
  {
    seq(HOURS, i requires 0 <= i < HOURS => SampleAt(plan, i))
  }

  /** Both episodes lie after the first hundred hours, apart from one another and from two hours of later days. */
  predicate Sane(plan: Plan)
  {
    && 100 <= plan.stop && plan.stop + 26 < HOURS && 100 <= plan.control && plan.control + 2 < HOURS
    && (plan.stop + 26 < plan.control || plan.control + 2 < plan.stop)
    && forall i | i in {127, 147} :: !Cold(plan, i) && !Emptied(plan, i)
  }

  function Defaults(): Limits
  {
    Limits(2 * HOUR, 6 * HOUR, 2 * HOUR, 6, 24 * HOUR, 24 * HOUR, 2, 7 * 24 * HOUR, 3 * HOUR)
  }

  // ------------------------------------------------------------------- episodes

  function ColdEpisode(plan: Plan): Episode
  {
    Episode(ColdAgent, At(plan.stop), Some(At(plan.stop + 26)))
  }

  function ControlEpisode(plan: Plan): Episode
  {
    Episode(NegativeControl, At(plan.control), Some(At(plan.control + 2)))
  }

  lemma {:induction false} OnePair(s: int, e: int, kind: Kind)
    ensures var m := [Mark(true, s), Mark(false, e)];
      WellPaired(m) && EpisodesOf(m, kind) == [Episode(kind, s, Some(e))]
  {
    var m := [Mark(true, s), Mark(false, e)];
    WellPairedIsOpenCloseStar(m);
    assert ClosedEpisodes(m[..1], kind) == [];
    assert ClosedEpisodes(m, kind) == [] + [Episode(kind, s, Some(e))];
  }

  lemma {:induction false} ColdMarks(plan: Plan)
    requires Sane(plan)
    ensures Marks(FullWindow(plan), ColdAgent) == [Mark(true, At(plan.stop)), Mark(false, At(plan.stop + 26))]
  {
    KeepTwo(FullWindow(plan), MarkOf(ColdAgent), plan.stop, plan.stop + 26);
  }

  lemma {:induction false} ControlMarks(plan: Plan)
    requires Sane(plan)
    ensures Marks(FullWindow(plan), NegativeControl) ==
            [Mark(true, At(plan.control)), Mark(false, At(plan.control + 2))]
  {
    KeepTwo(FullWindow(plan), MarkOf(NegativeControl), plan.control, plan.control + 2);
  }

  lemma {:induction false} EpisodesFound(plan: Plan)
    requires Sane(plan)
    ensures EpisodesWellPaired(FullWindow(plan))
    ensures AllEpisodes(FullWindow(plan)) == [ColdEpisode(plan), ControlEpisode(plan)]
  {
    ColdMarks(plan);
    ControlMarks(plan);
    OnePair(At(plan.stop), At(plan.stop + 26), ColdAgent);
    OnePair(At(plan.control), At(plan.control + 2), NegativeControl);
  }

  ghost function Selector(plan: Plan): Sample -> Option<Sample>
  {
    Outside(AllEpisodes(FullWindow(plan)))
  }

  /** Exactly the hours outside both episodes are judged. */
  lemma {:induction false} OutsideIff(plan: Plan, i: nat)
    requires Sane(plan) && i < HOURS
    ensures Selector(plan)(FullWindow(plan)[i]).Some? <==> !Cold(plan, i) && !Emptied(plan, i)
    ensures !Cold(plan, i) && !Emptied(plan, i) ==> Selector(plan)(FullWindow(plan)[i]) == Some(Hourly(i))
  {
    EpisodesFound(plan);
    var eps := [ColdEpisode(plan), ControlEpisode(plan)];
    assert eps[0].Contains(At(i)) <==> Cold(plan, i);
    assert eps[1].Contains(At(i)) <==> Emptied(plan, i);
  }

  // ---------------------------------------------------------- the standing part

  /** The hours of the judged samples, in order. */
  ghost function JudgedHours(plan: Plan): seq<nat>
  {
    var w, f := FullWindow(plan), Selector(plan);
    seq(|Keep(w, f)|, k requires 0 <= k < |Keep(w, f)| => Origin(w, f, k))
  }

  /** Judged sample by sample: the hourly samples of strictly increasing hours. */
  ghost predicate AreHourly(j: seq<Sample>, hours: seq<nat>)
  {
    && |j| == |hours|
    && (forall k :: 0 <= k < |j| ==> hours[k] < HOURS && j[k] == Hourly(hours[k]))
    && (forall k, l :: 0 <= k < l < |j| ==> hours[k] < hours[l])
  }

  lemma {:induction false} JudgedAreHourly(plan: Plan)
    requires Sane(plan)
    ensures AreHourly(Judged(FullWindow(plan)), JudgedHours(plan))
  {
    var w, f, hours := FullWindow(plan), Selector(plan), JudgedHours(plan);
    forall k | 0 <= k < |hours|
      ensures hours[k] < HOURS && Keep(w, f)[k] == Hourly(hours[k])
    {
      OutsideIff(plan, Origin(w, f, k));
    }
    forall k, l | 0 <= k < l < |hours|
      ensures hours[k] < hours[l]
    {
      OriginIncreasing(w, f, k, l);
    }
  }

  lemma {:induction false} HourlyIsComplete(i: nat)
    requires i < HOURS
    ensures Complete(Hourly(i))
  {
    var s := Hourly(i);
    assert s.anchorIds.value[0] in s.bundleIds.value;
  }

  /** Hourly samples are complete, and their three clocks move from each to the next. */
  lemma {:induction false} HourlyIsGreen(j: seq<Sample>, hours: seq<nat>)
    requires AreHourly(j, hours) && |j| >= 2 && SignerChanges(j) >= 6
    ensures StandingHolds(j, Defaults())
  {
    forall k | 0 <= k < |j|
      ensures Complete(j[k])
    {
      HourlyIsComplete(hours[k]);
    }
    HourlyMoves(j, hours);
  }

  lemma {:induction false} HourlyMoves(j: seq<Sample>, hours: seq<nat>)
    requires AreHourly(j, hours) && |j| >= 2
    ensures ExpiryMoves(j, 2 * HOUR) && StateFileMoves(j) && AnchorStaysFresh(j, 2 * HOUR)
  {
    forall i, k | 0 <= i < k < |j|
      ensures ValueOf(j[i].notAfter) < ValueOf(j[k].notAfter)
      ensures ValueOf(j[i].agentMtime) < ValueOf(j[k].agentMtime)
      ensures ValueOf(j[i].anchorMtime) < ValueOf(j[k].anchorMtime)
    {
      assert hours[i] < hours[k];
    }
    forall i, k | 0 <= i <= k < |j| && j[k].at - j[i].at > 2 * HOUR
      ensures exists q :: i < q <= k && Restaged(j, q)
    {
      assert Restaged(j, k);
    }
  }

  /** A signer differing between positions a and b has changed at least once on the way. */
  lemma {:induction false} ChangedBetween(j: seq<Sample>, a: nat, b: nat)
    requires a <= b < |j|
    ensures SignerChanges(j[..a + 1]) + (if j[a].leafAuthority != j[b].leafAuthority then 1 else 0) <=
            SignerChanges(j[..b + 1])
    decreases b
  {
    if a < b {
      ChangedBetween(j, a, b - 1);
      assert j[..b + 1][..b] == j[..b];
    }
  }

  /** Positions at which the signer differs from one to the next: at least that many changes. */
  lemma {:induction false} ChangesAlong(j: seq<Sample>, at: seq<nat>)
    requires at != [] && at[|at| - 1] < |j|
    requires forall m :: 0 < m < |at| ==>
               at[m - 1] < at[m] < |j| && j[at[m - 1]].leafAuthority != j[at[m]].leafAuthority
    ensures SignerChanges(j[..at[|at| - 1] + 1]) >= |at| - 1
  {
    var n := |at| - 1;
    if n > 0 {
      ChangesAlong(j, at[..n]);
      assert at[n - 1] < at[n];
      ChangedBetween(j, at[n - 1], at[n]);
    }
  }

  /** An hour of day m that no sane plan touches. */
  function QuietHour(m: nat): nat
  {
    if m < 5 then 24 * m else if m == 5 then 127 else 147
  }

  /** Where it stands among the judged samples. */
  ghost function QuietPosition(plan: Plan, m: nat): nat
    requires m < 7
  {
    Rank(FullWindow(plan), Selector(plan), QuietHour(m))
  }

  lemma {:induction false} SignersDiffer(m: nat, n: nat)
    requires m < n < 10
    ensures SignerId(m) != SignerId(n)
  {
    assert SignerId(m)[39] != SignerId(n)[39];
  }

  lemma {:induction false} QuietHourIsJudged(plan: Plan, m: nat)
    requires Sane(plan) && m < 7
    ensures var j, r := Judged(FullWindow(plan)), QuietPosition(plan, m);
      r < |j| && j[r].leafAuthority == Some(SignerId(m)) && (m > 0 ==> QuietPosition(plan, m - 1) < r)
  {
    var w, f := FullWindow(plan), Selector(plan);
    OutsideIff(plan, QuietHour(m));
    RankIsPosition(w, f, QuietHour(m));
    if m > 0 {
      OutsideIff(plan, QuietHour(m - 1));
      RankIncreasing(w, f, QuietHour(m - 1), QuietHour(m));
    }
  }

  /** One judged sample of each of seven days in turn, signed by that day's intermediate. */
  ghost predicate SevenSigners(j: seq<Sample>, at: seq<nat>)
  {
    && |at| == 7
    && (forall m :: 0 <= m < 7 ==> at[m] < |j| && j[at[m]].leafAuthority == Some(SignerId(m)))
    && (forall m :: 0 < m < 7 ==> at[m - 1] < at[m])
  }

  lemma {:induction false} SevenSignersRotateSixTimes(j: seq<Sample>, at: seq<nat>)
    requires SevenSigners(j, at)
    ensures SignerChanges(j) >= 6
  {
    forall m | 0 < m < 7
      ensures j[at[m - 1]].leafAuthority != j[at[m]].leafAuthority
    {
      SignersDiffer(m - 1, m);
    }
    ChangesAlong(j, at);
    ChangedBetween(j, at[6], |j| - 1);
    assert j[..|j|] == j;
  }

  lemma {:induction false} SixRotations(plan: Plan)
    requires Sane(plan)
    ensures SignerChanges(Judged(FullWindow(plan))) >= 6
  {
    var j, at := Judged(FullWindow(plan)), seq(7, m requires 0 <= m < 7 => QuietPosition(plan, m));
    forall m | 0 <= m < 7
      ensures at[m] < |j| && j[at[m]].leafAuthority == Some(SignerId(m)) && (m > 0 ==> at[m - 1] < at[m])
    {
      QuietHourIsJudged(plan, m);
    }
    SevenSignersRotateSixTimes(j, at);
  }

  /** The first hundred hours alone are more than half of the window. */
  lemma {:induction false} MostIsJudged(plan: Plan)
    requires Sane(plan)
    ensures |Judged(FullWindow(plan))| >= 100
  {
    var w, f := FullWindow(plan), Selector(plan);
    forall i | 0 <= i < 100
      ensures f(w[..100][i]).Some?
    {
      OutsideIff(plan, i);
    }
    KeepAll(w[..100], f);
    assert w == w[..100] + w[100..];
    KeepConcat(w[..100], w[100..], f);
  }

  // ------------------------------------------------------------------ the probes

  lemma {:induction false} RestartIsProved(plan: Plan)
    requires Sane(plan)
    ensures LastExpiryBy(FullWindow(plan), At(plan.stop), plan.stop)
    ensures FirstServedFrom(FullWindow(plan), At(plan.stop + 26), plan.stop + 26)
    ensures ColdRestartProved(FullWindow(plan), Defaults().overlap, ColdEpisode(plan))
  {
    var w, i, k := FullWindow(plan), plan.stop, plan.stop + 26;
    assert forall q :: 0 <= q < |w| ==> w[q].at == At(q);
    assert LastExpiryBy(w, At(i), i) && FirstServedFrom(w, At(k), k);
    assert w[i].agentMtime == w[k].agentMtime;
    assert w[k].chainAuthority.value == w[k].bundleIds.value[0];
  }

  lemma {:induction false} AnchorSeenMissing(plan: Plan)
    requires Sane(plan)
    ensures |Keep(Keep(FullWindow(plan), Within(ControlEpisode(plan))), AnchorGone)| >= 2
  {
    var w, c, gone := FullWindow(plan), plan.control, Then(Within(ControlEpisode(plan)), AnchorGone);
    KeepThen(w, Within(ControlEpisode(plan)), AnchorGone);
    assert gone(w[c]).Some? && gone(w[c + 1]).Some?;
    RankIsPosition(w, gone, c + 1);
    RankIncreasing(w, gone, c, c + 1);
  }

  lemma {:induction false} OthersStillAnswer(plan: Plan)
    requires Sane(plan)
    ensures Keep(Keep(FullWindow(plan), Within(ControlEpisode(plan))), OthersMeasured) != []
  {
    var w, c, others := FullWindow(plan), plan.control, Then(Within(ControlEpisode(plan)), OthersMeasured);
    KeepThen(w, Within(ControlEpisode(plan)), OthersMeasured);
    assert others(w[c]).Some?;
    RankIsPosition(w, others, c);
  }

  lemma {:induction false} ControlIsCarriedOut(plan: Plan)
    requires Sane(plan)
    ensures ControlShown(FullWindow(plan), Defaults().minAbsent, ControlEpisode(plan))
  {
    AnchorSeenMissing(plan);
    OthersStillAnswer(plan);
    ControlShownIff(FullWindow(plan), Defaults().minAbsent, ControlEpisode(plan));
  }

  lemma {:induction false} ProbesAreGreen(plan: Plan)
    requires Sane(plan)
    ensures var w := FullWindow(plan);
      && ColdRestartsHold(w, AllEpisodes(w), Defaults().overlap)
      && ControlsHold(w, AllEpisodes(w), Defaults().minAbsent)
  {
    EpisodesFound(plan);
    RestartIsProved(plan);
    ControlIsCarriedOut(plan);
    var eps := AllEpisodes(FullWindow(plan));
    assert forall e :: e in eps <==> e == ColdEpisode(plan) || e == ControlEpisode(plan);
    assert ColdEpisode(plan) in eps && ControlEpisode(plan) in eps;
  }

  lemma {:induction false} WindowIsCovered(plan: Plan)
    requires Sane(plan)
    ensures TimeSorted(FullWindow(plan))
    ensures CoverageHolds(FullWindow(plan), |Judged(FullWindow(plan))|, AllEpisodes(FullWindow(plan)), Defaults())
  {
    var w := FullWindow(plan);
    assert forall q :: 0 <= q < |w| ==> w[q].at == At(q);
    MostIsJudged(plan);
  }

  /** With the default limits, the baseline passes wherever its two episodes are placed. */
  lemma {:induction false} BaselinePasses(plan: Plan)
    requires Sane(plan)
    ensures TimeSorted(FullWindow(plan))
    ensures Verdict(FullWindow(plan), Defaults()) == PASS
  {
    var w := FullWindow(plan);
    EpisodesFound(plan);
    MostIsJudged(plan);
    SixRotations(plan);
    JudgedAreHourly(plan);
    HourlyIsGreen(Judged(w), JudgedHours(plan));
    ProbesAreGreen(plan);
    WindowIsCovered(plan);
    PassIffGreen(w, Defaults());
  }

  /** The documented placement: the agent is stopped at hour 100, the anchor removed at hour 150. */
  lemma {:induction false} SomeWindowPasses()
    ensures TimeSorted(FullWindow(Plan(100, 150)))
    ensures Verdict(FullWindow(Plan(100, 150)), Defaults()) == PASS
  {
    BaselinePasses(Plan(100, 150));
  }
}
