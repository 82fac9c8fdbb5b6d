// One probe record and the two readers every judgement goes through
// (scripts/acceptance/substrate_acceptance_window.py).

module Samples {
  import opened Findings
  import opened Sequences

  type AuthorityId = string

  /** The closed status vocabulary of a source. `Other` keeps only what the negative control asks of it. */
  datatype Status = Absent | Ok | TargetBad | Unmeasured | Other(unmeasuredPrefix: bool)

  datatype Kind = ColdAgent | NegativeControl

  datatype Marker = Unmarked | Opens(kind: Kind) | Closes(kind: Kind)

  datatype Sample = Sample(
    at: int,
    marker: Marker,
    svid: Status,
    notAfter: Option<int>,
    chainAuthority: Option<AuthorityId>,
    leafAuthority: Option<AuthorityId>,
    bundle: Status,
    bundleIds: Option<seq<AuthorityId>>,
    agentData: Status,
    agentMtime: Option<int>,
    anchor: Status,
    anchorMtime: Option<int>,
    anchorIds: Option<seq<AuthorityId>>)

  ghost predicate TimeSorted(samples: seq<Sample>)
  {
    forall i, j :: 0 <= i < j < |samples| ==> samples[i].at <= samples[j].at
  }

  // ---------------------------------------------------------------- statuses

  const STATUS_OK := "ok"
  const STATUS_UNMEASURED := "unmeasured"
  const TARGET_BAD_PREFIX := "target_bad_"

  function Classify(raw: Option<string>): Status
  {
    match raw
    case None => Absent
    case Some(s) =>
      if s == STATUS_OK then Ok
      else if TARGET_BAD_PREFIX <= s then TargetBad
      else if s == STATUS_UNMEASURED then Unmeasured
      else Other(STATUS_UNMEASURED <= s)
  }

  /** The three things a source status can say: the value is usable, the target is bad, nobody measured. */
  datatype Reading = Present | Bad | NotMeasured

  function SourcePresent(status: Status): Reading
  {
    match status
    case Ok => Present
    case TargetBad => Bad
    case _ => NotMeasured
  }

  /** The negative control's own test of a status: something was written, and it does not begin with `unmeasured`. */
  predicate StillAnswers(status: Status)
  {
    match status
    case Absent => false
    case Unmeasured => false
    case Other(unmeasuredPrefix) => !unmeasuredPrefix
    case _ => true
  }

  /** Classification loses nothing that any judgement asks of the raw string. */
  lemma {:induction false} ClassifyAnswersEveryTest(raw: Option<string>)
    ensures SourcePresent(Classify(raw)) == Present <==> raw == Some(STATUS_OK)
    ensures SourcePresent(Classify(raw)) == Bad <==> raw.Some? && TARGET_BAD_PREFIX <= raw.value
    ensures Classify(raw) == TargetBad <==> raw.Some? && TARGET_BAD_PREFIX <= raw.value
    ensures StillAnswers(Classify(raw)) <==> raw.Some? && !(STATUS_UNMEASURED <= raw.value)
  {
    if raw.Some? && TARGET_BAD_PREFIX <= raw.value {
      assert raw.value[0] == 't' && STATUS_OK[0] == 'o' && STATUS_UNMEASURED[0] == 'u';
    }
    if raw.Some? && STATUS_UNMEASURED <= raw.value {
      assert raw.value[0] == 'u' && STATUS_OK[0] == 'o';
    }
  }

  // -------------------------------------------------------------- judgements

  datatype State = PASS | FAIL | UNKNOWN

  /** One settled assurance. A violation outranks a gap. */
  datatype Judgement = Judgement(state: State, violations: seq<Reason>, gaps: seq<Reason>)

  function Settle(violations: seq<Reason>, gaps: seq<Reason>, emptyIsUnknown: bool): (j: Judgement)
    ensures j.state == FAIL <==> violations != []
    ensures j.state == PASS <==> violations == [] && gaps == [] && !emptyIsUnknown
    ensures j.state == UNKNOWN ==> j.gaps != []
  {
    if violations != [] then Judgement(FAIL, violations, gaps)
    else if gaps != [] then Judgement(UNKNOWN, violations, gaps)
    else if emptyIsUnknown then Judgement(UNKNOWN, violations, [NothingJudged])
    else Judgement(PASS, violations, gaps)
  }

  /** What one sample contributes to an assurance. */
  datatype Grade = Sound | Violated | Gap

  /** Some sample has this grade. */
  ghost predicate Any(samples: seq<Sample>, grade: Sample -> Grade, g: Grade)
  {
    samples != [] && (grade(samples[|samples| - 1]) == g || Any(samples[..|samples| - 1], grade, g))
  }

  lemma {:induction false} AnyMeaning(samples: seq<Sample>, grade: Sample -> Grade, g: Grade)
    ensures Any(samples, grade, g) <==> exists i :: 0 <= i < |samples| && grade(samples[i]) == g
  {
    if samples != [] {
      var rest := samples[..|samples| - 1];
      AnyMeaning(rest, grade, g);
      assert forall i :: 0 <= i < |rest| ==> rest[i] == samples[i];
    }
  }

  lemma {:induction false} AnyNext(samples: seq<Sample>, grade: Sample -> Grade, g: Grade, i: nat)
    requires i < |samples|
    ensures Any(samples[..i + 1], grade, g) <==> Any(samples[..i], grade, g) || grade(samples[i]) == g
  {
    assert samples[..i + 1][..i] == samples[..i];
  }

  /** The state an assurance settles in, given what is violated and what is missing. */
  function Settled(violated: bool, missing: bool): State
  {
    if violated then FAIL else if missing then UNKNOWN else PASS
  }
}
