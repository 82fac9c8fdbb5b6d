// The hard-fail validator of demo-proof reports (scripts/ci/validate_demo_proof_report.py), and what it
// accepts of a report that was assembled from emitted steps (scripts/demo_proof_helpers.py).

module ReportValidator {
  import opened Sequences
  import opened PythonText
  import opened ProofReport

  /** Boolean true, or the text the shell driver writes for it. */
  predicate IsTrue(d: Detail)
  {
    match d
    case Flag(b) => b
    case Text(s) => Lower(Strip(s)) == "true"
    case OtherDetail => false
  }

  function RequiredTrue(k: StepName): seq<DetailKey>
  {
    match k
    case InclusionProof => [Verified]
    case ExternalVerify => [ManifestConsistent, RootMatch, LeafPresent, ProofVerified]
    case _ => []
  }

  function RequiredFalse(k: StepName): seq<DetailKey>
  {
    if k == MerkleManifest then [EnvelopeProjectionUsed] else []
  }

  /** A successful step's details bear out its status: its own flags are true, no repaired input, no injected fault. */
  predicate DetailsBearOut(k: StepName, details: Option<Details>)
  {
    && details.Some?
    && var d := details.value;
       && (forall i :: 0 <= i < |RequiredTrue(k)| ==> RequiredTrue(k)[i] in d && IsTrue(d[RequiredTrue(k)[i]]))
       && (k == RuntimeBridge ==> BridgeStatus in d && d[BridgeStatus] == Text("ok"))
       && (forall i :: 0 <= i < |RequiredFalse(k)| ==> RequiredFalse(k)[i] in d && !IsTrue(d[RequiredFalse(k)[i]]))
       && (FaultInjected in d ==> !IsTrue(d[FaultInjected]))
  }

  datatype Violation =
    | NotAReportObject | WrongSchema | StepsMissing | WrongStepCount | NamesOrOrder | StepNotAnObject
    | StatusNotAccepted | ExitCodeMissing | ExitCodeContradicts | DetailsMissing | DetailMissing | DetailContradicts
    | CommitsMissing | WrongCommit | NonZeroExit

  method CheckDetails(k: StepName, details: Option<Details>) returns (violations: seq<Violation>)
    ensures violations == [] <==> DetailsBearOut(k, details)
  {
    violations := [];
    if details.None? {
      return [DetailsMissing];
    }
    var d := details.value;
    var keys := RequiredTrue(k);
    for i := 0 to |keys|
      invariant violations == [] <==> forall j :: 0 <= j < i ==> keys[j] in d && IsTrue(d[keys[j]])
    {
      if keys[i] !in d {
        violations := violations + [DetailMissing];
      } else if !IsTrue(d[keys[i]]) {
        violations := violations + [DetailContradicts];
      }
    }
    if k == RuntimeBridge {
      if BridgeStatus !in d {
        violations := violations + [DetailMissing];
      } else if d[BridgeStatus] != Text("ok") {
        violations := violations + [DetailContradicts];
      }
    }
    ghost var soFar := violations == [];
    var falseKeys := RequiredFalse(k);
    for i := 0 to |falseKeys|
      invariant violations == [] <==> soFar && forall j :: 0 <= j < i ==> falseKeys[j] in d && !IsTrue(d[falseKeys[j]])
    {
      if falseKeys[i] !in d {
        violations := violations + [DetailMissing];
      } else if IsTrue(d[falseKeys[i]]) {
        violations := violations + [DetailContradicts];
      }
    }
    if FaultInjected in d && IsTrue(d[FaultInjected]) {
      violations := violations + [DetailContradicts];
    }
  }

  /** The allow-list of statuses; only the external check may be skipped, and only when that is allowed. */
  predicate StatusAllowed(name: Name, status: Status, allowSkipped: bool)
  {
    status == Ok || (status == Skipped && allowSkipped && name == Named(ExternalVerify))
  }

  predicate StepAccepted(e: StepEntry, allowSkipped: bool)
  {
    && e.Entry?
    && StatusAllowed(e.record.name, e.record.status, allowSkipped)
    && e.record.exitCode.Some?
    && e.record.exitCode == ExitCodeOf(e.record.status)
    && (e.record.status == Ok && e.record.name == OtherName ==> e.record.details.Some?)
    && (e.record.status == Ok && e.record.name.Named? ==> DetailsBearOut(e.record.name.step, e.record.details))
  }

  method ValidateStep(e: StepEntry, allowSkipped: bool) returns (violations: seq<Violation>)
    ensures violations == [] <==> StepAccepted(e, allowSkipped)
  {
    violations := [];
    if e.NotAnObject? {
      return [StepNotAnObject];
    }
    var r := e.record;
    var statusOk := StatusAllowed(r.name, r.status, allowSkipped);
    if !statusOk {
      violations := [StatusNotAccepted];
    }
    if r.exitCode.None? {
      violations := violations + [ExitCodeMissing];
    } else if statusOk && r.exitCode != ExitCodeOf(r.status) {
      violations := violations + [ExitCodeContradicts];
    }
    if statusOk && r.status == Ok && r.name.Named? {
      var found := CheckDetails(r.name.step, r.details);
      violations := violations + found;
    }
    if statusOk && r.status == Ok && r.name == OtherName && r.details.None? {
      violations := violations + [DetailsMissing];
    }
  }

  predicate NamesCanonical(steps: seq<StepEntry>)
  {
    |steps| == |STEP_NAMES| &&
    forall i :: 0 <= i < |steps| ==> steps[i].Entry? && steps[i].record.name == Named(STEP_NAMES[i])
  }

  /** What an accepted report looks like. An empty expected commit is no expectation. */
  predicate Accepted(report: Report, allowSkipped: bool, expected: Option<string>)
  {
    && report.Report?
    && report.schemaMatches
    && report.steps.Some?
    && NamesCanonical(report.steps.value)
    && (forall i :: 0 <= i < |report.steps.value| ==> StepAccepted(report.steps.value[i], allowSkipped))
    && report.commit.Some?
    && (expected.Some? && expected.value != [] ==> report.commit.value == expected)
    && report.exitCode == Some(0)
  }

  method ValidateSteps(steps: seq<StepEntry>, allowSkipped: bool) returns (violations: seq<Violation>)
    ensures violations == [] <==>
            NamesCanonical(steps) && forall i :: 0 <= i < |steps| ==> StepAccepted(steps[i], allowSkipped)
  {
    violations := [];
    if |steps| != |STEP_NAMES| {
      violations := [WrongStepCount];
    }
    if !NamesCanonical(steps) {
      violations := violations + [NamesOrOrder];
    }
    for i := 0 to |steps|
      invariant violations == [] <==> NamesCanonical(steps) && forall j :: 0 <= j < i ==> StepAccepted(steps[j], allowSkipped)
    {
      var found := ValidateStep(steps[i], allowSkipped);
      violations := violations + found;
    }
  }

  /** Requiring the external check cancels the one relaxation. */
  method ValidateReport(report: Report, allowSkipped: bool, expected: Option<string>, requireExternal: bool)
    returns (violations: seq<Violation>)
    ensures violations == [] <==> Accepted(report, allowSkipped && !requireExternal, expected)
  {
    if report.NotAReport? {
      return [NotAReportObject];
    }
    var allow := allowSkipped && !requireExternal;
    violations := if report.schemaMatches then [] else [WrongSchema];
    if report.steps.None? {
      violations := violations + [StepsMissing];
    }
    var found := ValidateSteps(if report.steps.Some? then report.steps.value else [], allow);
    violations := violations + found;
    if report.commit.None? {
      violations := violations + [CommitsMissing];
    }
    if expected.Some? && expected.value != [] {
      if report.commit.None? || report.commit.value != expected {
        violations := violations + [WrongCommit];
      }
    }
    if report.exitCode != Some(0) {
      violations := violations + [NonZeroExit];
    }
  }

  // ------------------------------------------------------- the pipeline, end to end

  /** Step k was emitted green and its details bear it out. */
  predicate GreenRecord(r: StepRecord, k: StepName)
  {
    r.name == Named(k) && r.status == Ok && r.exitCode == Some(EXIT_OK) && DetailsBearOut(k, r.details)
  }

  /** Step k is good enough for the profile: green, or the external check skipped where that is allowed. */
  predicate GoodRecord(r: StepRecord, k: StepName, allowSkipped: bool)
  {
    || GreenRecord(r, k)
    || (allowSkipped && k == ExternalVerify && r.name == Named(k) && r.status == Skipped && r.exitCode == Some(EXIT_SKIPPED))
  }

  predicate HasGoodRecord(lines: seq<StepRecord>, k: StepName, allowSkipped: bool)
  {
    exists i :: 0 <= i < |lines| && GoodRecord(lines[i], k, allowSkipped)
  }

  /** Step k was emitted as ok with details that bear it out. */
  predicate EmittedGreen(lines: seq<StepRecord>, k: StepName)
  {
    exists i :: 0 <= i < |lines| && lines[i].name == Named(k) && lines[i].status == Ok && DetailsBearOut(k, lines[i].details)
  }

  lemma {:induction false} LoadedRecord(lines: seq<StepRecord>, k: StepName)
    requires Load(lines).Some?
    ensures k in Load(lines).value <==> exists i :: 0 <= i < |lines| && lines[i].name == Named(k)
    ensures k in Load(lines).value ==> Load(lines).value[k] in lines && Load(lines).value[k].name == Named(k)
    ensures forall r :: r in lines && r.name == Named(k) ==> k in Load(lines).value && Load(lines).value[k] == r
  {
    LoadMeaning(lines);
    var kept := Keep(lines, RecordOf(k));
    KeepEmpty(lines, RecordOf(k));
    if kept != [] {
      var i := Origin(lines, RecordOf(k), 0);
    }
    forall r | r in lines && r.name == Named(k)
      ensures k in Load(lines).value && Load(lines).value[k] == r
    {
      var i :| 0 <= i < |lines| && lines[i] == r;
      RankIsPosition(lines, RecordOf(k), i);
    }
  }

  /** A filled-in step is never accepted, under any profile. */
  lemma {:induction false} NotRunNeverAccepted(k: StepName, allowSkipped: bool)
    ensures !StepAccepted(Entry(NotRunRecord(k)), allowSkipped)
  {
  }

  lemma {:induction false} AcceptedIffGood(r: StepRecord, k: StepName, allowSkipped: bool)
    requires r.name == Named(k)
    ensures StepAccepted(Entry(r), allowSkipped) <==> GoodRecord(r, k, allowSkipped)
  {
  }

  lemma {:induction false} CanonicalStepAccepted(lines: seq<StepRecord>, k: StepName, allowSkipped: bool)
    requires Load(lines).Some?
    ensures StepAccepted(Entry(StepOf(Load(lines).value, k)), allowSkipped) <==> HasGoodRecord(lines, k, allowSkipped)
  {
    LoadedRecord(lines, k);
    var records := Load(lines).value;
    if k in records {
      var i :| 0 <= i < |lines| && lines[i] == records[k];
      AcceptedIffGood(records[k], k, allowSkipped);
    } else {
      NotRunNeverAccepted(k, allowSkipped);
    }
  }

  lemma {:induction false} CanonicalNames(lines: seq<StepRecord>)
    requires Load(lines).Some?
    ensures NamesCanonical(CanonicalSteps(Load(lines).value))
  {
    forall i | 0 <= i < |STEP_NAMES|
      ensures StepOf(Load(lines).value, STEP_NAMES[i]).name == Named(STEP_NAMES[i])
    {
      LoadedRecord(lines, STEP_NAMES[i]);
    }
  }

  /**
   * An assembled report is accepted exactly when each of the five steps left a good record in the file. In the strict
   * profile that means green with details that bear it out; a step that never ran cannot pass, whatever the profile.
   */
  lemma {:induction false} AcceptedIffEveryStepGood(lines: seq<StepRecord>, commit: string, allowSkipped: bool)
    requires Load(lines).Some?
    ensures Accepted(Assemble(lines, commit).value, allowSkipped, None) <==>
            forall k :: HasGoodRecord(lines, k, allowSkipped)
  {
    var steps := CanonicalSteps(Load(lines).value);
    CanonicalNames(lines);
    AllStepsAccepted(lines, allowSkipped);
    if forall i :: 0 <= i < |steps| ==> StepAccepted(steps[i], allowSkipped) {
      assert !AnyFailed(steps);
    }
  }

  lemma {:induction false} AllStepsAccepted(lines: seq<StepRecord>, allowSkipped: bool)
    requires Load(lines).Some?
    ensures var steps := CanonicalSteps(Load(lines).value);
      (forall i :: 0 <= i < |steps| ==> StepAccepted(steps[i], allowSkipped)) <==>
      (forall k :: HasGoodRecord(lines, k, allowSkipped))
  {
    var steps := CanonicalSteps(Load(lines).value);
    forall i | 0 <= i < |steps|
      ensures StepAccepted(steps[i], allowSkipped) <==> HasGoodRecord(lines, STEP_NAMES[i], allowSkipped)
    {
      CanonicalStepAccepted(lines, STEP_NAMES[i], allowSkipped);
    }
    if forall i :: 0 <= i < |steps| ==> StepAccepted(steps[i], allowSkipped) {
      forall k: StepName
        ensures HasGoodRecord(lines, k, allowSkipped)
      {
        var i := PlaceOf(k);
        assert StepAccepted(steps[i], allowSkipped);
      }
    }
  }

  /** For a file written by `Emit`, green status alone fixes the exit code: strict acceptance needs five green steps. */
  lemma {:induction false} StrictAcceptanceOfEmittedSteps(lines: seq<StepRecord>, commit: string)
    requires Load(lines).Some? && forall i :: 0 <= i < |lines| ==> WellEmitted(lines[i])
    ensures Accepted(Assemble(lines, commit).value, false, None) <==> forall k :: EmittedGreen(lines, k)
  {
    AcceptedIffEveryStepGood(lines, commit, false);
    forall k: StepName
      ensures HasGoodRecord(lines, k, false) <==> EmittedGreen(lines, k)
    {
      assert forall i :: 0 <= i < |lines| ==> WellEmitted(lines[i]);
    }
  }

  // ------------------------------------------------- the rules, written out per step

  /** Boolean true, or text that reads `true` without regard to case and surrounding white space. */
  predicate Affirms(d: Detail)
  {
    d == Flag(true) || (d.Text? && Lower(Strip(d.s)) == "true")
  }

  predicate Affirmed(d: Details, key: DetailKey)
  {
    key in d && Affirms(d[key])
  }

  /** What the details of a successful step must say, step by step. */
  predicate DetailsSay(k: StepName, d: Details)
  {
    && !Affirmed(d, FaultInjected)
    && match k
       case ProtocolEvent => true
       case RuntimeBridge => BridgeStatus in d && d[BridgeStatus] == Text("ok")
       case MerkleManifest => EnvelopeProjectionUsed in d && !Affirms(d[EnvelopeProjectionUsed])
       case InclusionProof => Affirmed(d, Verified)
       case ExternalVerify =>
         Affirmed(d, ManifestConsistent) && Affirmed(d, RootMatch) && Affirmed(d, LeafPresent) && Affirmed(d, ProofVerified)
  }

  lemma {:induction false} DetailsByStep(k: StepName, details: Option<Details>)
    ensures DetailsBearOut(k, details) <==> details.Some? && DetailsSay(k, details.value)
  {
    if details.Some? {
      forall key | key in details.value
        ensures IsTrue(details.value[key]) <==> Affirms(details.value[key])
      {
      }
      if k == ExternalVerify {
        var keys := RequiredTrue(k);
        assert keys[0] == ManifestConsistent && keys[1] == RootMatch && keys[2] == LeafPresent && keys[3] == ProofVerified;
      } else if k == InclusionProof {
        assert RequiredTrue(k)[0] == Verified;
      } else if k == MerkleManifest {
        assert RequiredFalse(k)[0] == EnvelopeProjectionUsed;
      }
    }
  }

  /** One step of an accepted report: ok with code 0 and details that say so, or the external check skipped with code 20. */
  predicate StepStands(e: StepEntry, k: StepName, allowSkipped: bool)
  {
    && e.Entry? && e.record.name == Named(k)
    && (|| (e.record.status == Ok && e.record.exitCode == Some(0) && e.record.details.Some? &&
            DetailsSay(k, e.record.details.value))
        || (allowSkipped && k == ExternalVerify && e.record.status == Skipped && e.record.exitCode == Some(20)))
  }

  lemma {:induction false} StepStandsIff(e: StepEntry, k: StepName, allowSkipped: bool)
    requires e.Entry? && e.record.name == Named(k)
    ensures StepAccepted(e, allowSkipped) <==> StepStands(e, k, allowSkipped)
  {
    DetailsByStep(k, e.record.details);
    AcceptedIffGood(e.record, k, allowSkipped);
  }

  /** Exactly these reports are accepted, whatever their origin. */
  lemma {:induction false} AcceptedMeaning(report: Report, allowSkipped: bool, expected: Option<string>)
    ensures Accepted(report, allowSkipped, expected) <==>
            && report.Report? && report.schemaMatches && report.exitCode == Some(0)
            && report.commit.Some? && (expected.None? || |expected.value| == 0 || report.commit.value == expected)
            && report.steps.Some? && |report.steps.value| == 5
            && StepStands(report.steps.value[0], ProtocolEvent, allowSkipped)
            && StepStands(report.steps.value[1], RuntimeBridge, allowSkipped)
            && StepStands(report.steps.value[2], MerkleManifest, allowSkipped)
            && StepStands(report.steps.value[3], InclusionProof, allowSkipped)
            && StepStands(report.steps.value[4], ExternalVerify, allowSkipped)
  {
    if report.Report? && report.steps.Some? && |report.steps.value| == 5 {
      var steps := report.steps.value;
      forall i | 0 <= i < 5
        ensures steps[i].Entry? && steps[i].record.name == Named(STEP_NAMES[i]) ==>
                  (StepAccepted(steps[i], allowSkipped) <==> StepStands(steps[i], STEP_NAMES[i], allowSkipped))
      {
        if steps[i].Entry? && steps[i].record.name == Named(STEP_NAMES[i]) {
          StepStandsIff(steps[i], STEP_NAMES[i], allowSkipped);
        }
      }
      StepsStandIff(steps, allowSkipped);
    }
  }

  lemma {:induction false} StepsStandIff(steps: seq<StepEntry>, allowSkipped: bool)
    requires |steps| == 5
    requires forall i :: 0 <= i < 5 && steps[i].Entry? && steps[i].record.name == Named(STEP_NAMES[i]) ==>
               (StepAccepted(steps[i], allowSkipped) <==> StepStands(steps[i], STEP_NAMES[i], allowSkipped))
    ensures NamesCanonical(steps) && (forall i :: 0 <= i < 5 ==> StepAccepted(steps[i], allowSkipped)) <==>
            && StepStands(steps[0], ProtocolEvent, allowSkipped) && StepStands(steps[1], RuntimeBridge, allowSkipped)
            && StepStands(steps[2], MerkleManifest, allowSkipped) && StepStands(steps[3], InclusionProof, allowSkipped)
            && StepStands(steps[4], ExternalVerify, allowSkipped)
  {
    assert STEP_NAMES[0] == ProtocolEvent && STEP_NAMES[1] == RuntimeBridge && STEP_NAMES[2] == MerkleManifest;
    assert STEP_NAMES[3] == InclusionProof && STEP_NAMES[4] == ExternalVerify;
  }
}
