// The verdict over a whole window, and what it means
// (scripts/acceptance/substrate_acceptance_window.py, evaluate).

module Window {
  import opened Findings
  import opened Sequences
  import opened Samples
  import opened Episodes
  import opened Series
  import opened Assurances
  import opened Falsifications

  datatype Limits = Limits(
    maxStall: int,
    minSpan: int,
    restageMax: int,
    minRotations: int,
    rotationPeriod: int,
    overlap: int,
    minAbsent: int,
    windowSeconds: int,
    maxGap: int)

  function Outside(episodes: seq<Episode>): Sample -> Option<Sample>
  {
    (s: Sample) => if InAny(s.at, episodes) then None else Some(s)
  }

  /** The samples outside every deliberate episode. */
  function Judged(samples: seq<Sample>): seq<Sample>
  {
    Keep(samples, Outside(AllEpisodes(samples)))
  }

  /** Z1, Z2, Z3, Z4 and F1, over the judged samples. */
  ghost function StandingStates(judged: seq<Sample>, lim: Limits): seq<State>
  {
    [ Z1State(judged),
      Z2State(judged, lim.maxStall),
      Z3State(judged, lim.minSpan),
      Z4State(judged, lim.restageMax),
      F1State(judged, lim.minRotations, lim.rotationPeriod) ]
  }

  /** F2, the negative control and coverage, over the whole window. */
  ghost function ProbeStates(samples: seq<Sample>, judged: nat, episodes: seq<Episode>, lim: Limits): seq<State>
  {
    [ F2State(samples, episodes, lim.overlap),
      ControlState(samples, episodes, lim.minAbsent),
      CoverageState(samples, judged, episodes, lim.windowSeconds, lim.maxGap) ]
  }

  ghost function States(samples: seq<Sample>, lim: Limits): seq<State>
  {
    StandingStates(Judged(samples), lim) + ProbeStates(samples, |Judged(samples)|, AllEpisodes(samples), lim)
  }

  predicate SomeOpen(episodes: seq<Episode>)
  {
    exists i :: 0 <= i < |episodes| && episodes[i].end.None?
  }

  ghost function Verdict(samples: seq<Sample>, lim: Limits): State
  {
    if SomeOpen(AllEpisodes(samples)) then UNKNOWN
    else if FAIL in States(samples, lim) then FAIL
    else if !EpisodesWellPaired(samples) || UNKNOWN in States(samples, lim) then UNKNOWN
    else PASS
  }

  ghost predicate HaveStates(judgements: seq<Judgement>, states: seq<State>)
  {
    |judgements| == |states| && forall i :: 0 <= i < |states| ==> judgements[i].state == states[i]
  }

  method JudgeStanding(judged: seq<Sample>, lim: Limits) returns (judgements: seq<Judgement>)
    requires TimeSorted(judged)
    ensures HaveStates(judgements, StandingStates(judged, lim))
  {
    var z1, f1 := JudgeAuthorities(judged, lim);
    var z2, z3, z4 := JudgeMovement(judged, lim);
    judgements := [z1, z2, z3, z4, f1];
    HaveFive(judgements, StandingStates(judged, lim));
  }

  lemma {:induction false} HaveFive(judgements: seq<Judgement>, states: seq<State>)
    requires |judgements| == |states| == 5
    requires judgements[0].state == states[0] && judgements[1].state == states[1] && judgements[2].state == states[2]
    requires judgements[3].state == states[3] && judgements[4].state == states[4]
    ensures HaveStates(judgements, states)
  {
  }

  method JudgeAuthorities(judged: seq<Sample>, lim: Limits) returns (z1: Judgement, f1: Judgement)
    ensures z1.state == Z1State(judged)
    ensures f1.state == F1State(judged, lim.minRotations, lim.rotationPeriod)
  {
    z1 := JudgeZ1(judged);
    var f1', _, _ := JudgeF1(judged, lim.minRotations, lim.rotationPeriod);
    f1 := f1';
  }

  method JudgeMovement(judged: seq<Sample>, lim: Limits) returns (z2: Judgement, z3: Judgement, z4: Judgement)
    requires TimeSorted(judged)
    ensures z2.state == Z2State(judged, lim.maxStall)
    ensures z3.state == Z3State(judged, lim.minSpan)
    ensures z4.state == Z4State(judged, lim.restageMax)
  {
    var z2', _, _ := JudgeZ2(judged, lim.maxStall);
    var z3', _, _ := JudgeZ3(judged, lim.minSpan);
    var z4', _ := JudgeZ4(judged, lim.restageMax);
    z2, z3, z4 := z2', z3', z4';
  }

  method JudgeProbes(samples: seq<Sample>, judged: nat, episodes: seq<Episode>, lim: Limits)
    returns (judgements: seq<Judgement>)
    requires TimeSorted(samples)
    ensures HaveStates(judgements, ProbeStates(samples, judged, episodes, lim))
  {
    var f2 := JudgeF2(samples, episodes, lim.overlap);
    var nc := JudgeNegativeControl(samples, episodes, lim.restageMax, lim.minAbsent);
    var c := JudgeCoverage(samples, judged, episodes, lim.windowSeconds, lim.maxGap);
    judgements := [f2, nc, c];
  }

  method Evaluate(samples: seq<Sample>, lim: Limits)
    returns (verdict: State, judgements: seq<Judgement>, problems: seq<Reason>)
    requires TimeSorted(samples)
    ensures verdict == Verdict(samples, lim)
    ensures HaveStates(judgements, States(samples, lim))
    ensures problems == [] <==> EpisodesWellPaired(samples)
  {
    var episodes;
    episodes, problems := FindEpisodes(samples);
    var judged := Keep(samples, Outside(episodes));
    KeepTimeSorted(samples, Outside(episodes));
    var standing := JudgeStanding(judged, lim);
    var probes := JudgeProbes(samples, |judged|, episodes, lim);
    judgements := standing + probes;
    verdict := Combine(SomeOpen(episodes), judgements, problems, States(samples, lim));
  }

  /** The priority order: an open episode, then a finding, then anything missing. */
  method Combine(open: bool, judgements: seq<Judgement>, problems: seq<Reason>, ghost states: seq<State>)
    returns (verdict: State)
    requires HaveStates(judgements, states)
    ensures verdict ==
      if open then UNKNOWN
      else if FAIL in states then FAIL
      else if problems != [] || UNKNOWN in states then UNKNOWN
      else PASS
  {
    if open {
      verdict := UNKNOWN;
    } else if exists i :: 0 <= i < |judgements| && judgements[i].state == FAIL {
      verdict := FAIL;
    } else if problems != [] || exists i :: 0 <= i < |judgements| && judgements[i].state == UNKNOWN {
      verdict := UNKNOWN;
    } else {
      verdict := PASS;
    }
  }

  /** An episode left open outranks everything the judgements say. */
  lemma {:induction false} OpenEpisodeForcesUnknown(samples: seq<Sample>, lim: Limits)
    ensures LeftOpen(Marks(samples, ColdAgent)) || LeftOpen(Marks(samples, NegativeControl)) ==>
              Verdict(samples, lim) == UNKNOWN
  {
    OpenEpisodeIsReported(samples);
  }

  lemma {:induction false} PassIffAllPass(samples: seq<Sample>, lim: Limits)
    ensures Verdict(samples, lim) == PASS <==>
            EpisodesWellPaired(samples) && forall i :: 0 <= i < 8 ==> States(samples, lim)[i] == PASS
  {
    OpenEpisodeIsReported(samples);
    var states := States(samples, lim);
    if EpisodesWellPaired(samples) && !SomeOpen(AllEpisodes(samples)) {
      if FAIL !in states && UNKNOWN !in states {
        forall i | 0 <= i < 8
          ensures states[i] == PASS
        {
          assert states[i] in states;
        }
      }
    }
  }
}
