// The demo-proof report: emitting step records and folding them into a report
// (scripts/demo_proof_helpers.py).

module ProofReport {
  import opened Sequences

  datatype StepName = ProtocolEvent | RuntimeBridge | MerkleManifest | InclusionProof | ExternalVerify

  const STEP_NAMES: seq<StepName> :=
    [ProtocolEvent, RuntimeBridge, MerkleManifest, InclusionProof, ExternalVerify]

  /** What stands under `name`: one of the five, other text, or no text at all. */
  datatype Name = Named(step: StepName) | OtherName | NoName

  /** What stands under `status`: one of the four, or anything else. */
  datatype Status = Ok | Failed | Skipped | NotRun | OtherStatus

  const EXIT_OK := 0
  const EXIT_FAILED := 10
  const EXIT_SKIPPED := 20
  const EXIT_NOT_RUN := 30

  function ExitCodeOf(s: Status): Option<int>
  {
    match s
    case Ok => Some(EXIT_OK)
    case Failed => Some(EXIT_FAILED)
    case Skipped => Some(EXIT_SKIPPED)
    case NotRun => Some(EXIT_NOT_RUN)
    case OtherStatus => None
  }

  datatype DetailKey =
    | Verified | ManifestConsistent | RootMatch | LeafPresent | ProofVerified
    | BridgeStatus | EnvelopeProjectionUsed | FaultInjected | Reason | Extra(key: string)

  datatype Detail = Flag(b: bool) | Text(s: string) | OtherDetail

  type Details = map<DetailKey, Detail>

  /** A step record. No exit code: missing or not an integer. No details: missing or not an object. */
  datatype StepRecord = StepRecord(name: Name, status: Status, exitCode: Option<int>, details: Option<Details>)

  // ------------------------------------------------------------------ emitting

  predicate Emittable(name: Name, status: Status, code: int)
  {
    name.Named? && ExitCodeOf(status) == Some(code)
  }

  /** The append-only steps file of one run. */
  class StepsFile {
    var lines: seq<StepRecord>

    ghost predicate Valid()
      reads this
    {
      forall i :: 0 <= i < |lines| ==> WellEmitted(lines[i])
    }

    constructor ()
      ensures Valid() && lines == []
    {
      lines := [];
    }

    /** Append one validated record, or refuse and write nothing. */
    method Emit(name: Name, status: Status, code: int, details: Details) returns (written: bool)
      requires Valid()
      modifies this
      ensures Valid()
      ensures written <==>
              && name.Named?
              && (|| (status == Ok && code == 0) || (status == Failed && code == 10)
                  || (status == Skipped && code == 20) || (status == NotRun && code == 30))
      ensures lines == old(lines) + if written then [StepRecord(name, status, Some(code), Some(details))] else []
    {
      written := false;
      if !name.Named? || status == OtherStatus {
        return;
      }
      if ExitCodeOf(status) != Some(code) {
        return;
      }
      lines := lines + [StepRecord(name, status, Some(code), Some(details))];
      written := true;
    }
  }

  /** What every line of a file written by `Emit` satisfies. */
  predicate WellEmitted(r: StepRecord)
  {
    r.exitCode.Some? && Emittable(r.name, r.status, r.exitCode.value) && r.details.Some?
  }

  // ------------------------------------------------------------------- loading

  type Records = map<StepName, StepRecord>

  predicate LoadableLine(r: StepRecord)
  {
    r.name.Named? && r.status != OtherStatus && r.details.Some?
  }

  /** Read the file back: an unknown name, a second record for a step, a bad status or bad details refuse it. */
  function Load(lines: seq<StepRecord>): Option<Records>
  {
    if lines == [] then Some(map[])
    else
      var rest, r := Load(lines[..|lines| - 1]), lines[|lines| - 1];
      if rest.None? || !LoadableLine(r) || r.name.step in rest.value then None
      else Some(rest.value[r.name.step := r])
  }

  method LoadStepRecords(lines: seq<StepRecord>) returns (records: Option<Records>)
    ensures records == Load(lines)
  {
    var found: Records := map[];
    for i := 0 to |lines|
      invariant Load(lines[..i]) == Some(found)
    {
      assert lines[..i + 1][..i] == lines[..i];
      var r := lines[i];
      if !r.name.Named? || r.name.step in found || r.status == OtherStatus || r.details.None? {
        LoadFails(lines, i + 1);
        return None;
      }
      found := found[r.name.step := r];
    }
    assert lines[..|lines|] == lines;
    records := Some(found);
  }

  lemma {:induction false} LoadFails(lines: seq<StepRecord>, i: nat)
    requires i <= |lines| && Load(lines[..i]).None?
    ensures Load(lines).None?
    decreases |lines| - i
  {
    if i < |lines| {
      assert lines[..i + 1][..i] == lines[..i];
      LoadFails(lines, i + 1);
    } else {
      assert lines[..i] == lines;
    }
  }

  function RecordOf(k: StepName): StepRecord -> Option<StepRecord>
  {
    (r: StepRecord) => if r.name == Named(k) then Some(r) else None
  }

  lemma {:induction false} RecordPush(lines: seq<StepRecord>, k: StepName)
    requires lines != []
    ensures var rest, r := lines[..|lines| - 1], lines[|lines| - 1];
      Keep(lines, RecordOf(k)) == Keep(rest, RecordOf(k)) + if r.name == Named(k) then [r] else []
  {
  }

  /** A file that loads: every line is loadable, no step occurs twice, and the table holds each step's record. */
  lemma {:induction false} LoadedTable(lines: seq<StepRecord>, k: StepName)
    requires Load(lines).Some?
    ensures |Keep(lines, RecordOf(k))| <= 1
    ensures k in Load(lines).value <==> Keep(lines, RecordOf(k)) != []
    ensures k in Load(lines).value ==> Load(lines).value[k] == Keep(lines, RecordOf(k))[0]
  {
    if lines != [] {
      LoadedTable(lines[..|lines| - 1], k);
      RecordPush(lines, k);
    }
  }

  ghost predicate AllLoadable(lines: seq<StepRecord>)
  {
    forall i :: 0 <= i < |lines| ==> LoadableLine(lines[i])
  }

  ghost predicate NoStepTwice(lines: seq<StepRecord>)
  {
    forall k :: |Keep(lines, RecordOf(k))| <= 1
  }

  lemma {:induction false} LoadedIsLoadable(lines: seq<StepRecord>)
    requires Load(lines).Some?
    ensures AllLoadable(lines)
  {
    if lines != [] {
      LoadedIsLoadable(lines[..|lines| - 1]);
      assert forall i :: 0 <= i < |lines| - 1 ==> lines[..|lines| - 1][i] == lines[i];
    }
  }

  lemma {:induction false} LoadableIsLoaded(lines: seq<StepRecord>)
    requires AllLoadable(lines) && NoStepTwice(lines)
    ensures Load(lines).Some?
  {
    if lines != [] {
      var rest, r := lines[..|lines| - 1], lines[|lines| - 1];
      forall k: StepName
        ensures |Keep(rest, RecordOf(k))| <= 1
      {
        RecordPush(lines, k);
      }
      LoadableIsLoaded(rest);
      LoadedTable(rest, r.name.step);
      RecordPush(lines, r.name.step);
    }
  }

  /** Loading succeeds iff every line is loadable and no step occurs twice; the result is the records by step. */
  lemma {:induction false} LoadMeaning(lines: seq<StepRecord>)
    ensures Load(lines).Some? <==> AllLoadable(lines) && NoStepTwice(lines)
    ensures Load(lines).Some? ==> forall k ::
              && (k in Load(lines).value <==> Keep(lines, RecordOf(k)) != [])
              && (k in Load(lines).value ==> Load(lines).value[k] == Keep(lines, RecordOf(k))[0])
  {
    if Load(lines).Some? {
      LoadedIsLoadable(lines);
      forall k: StepName
        ensures |Keep(lines, RecordOf(k))| <= 1
        ensures k in Load(lines).value <==> Keep(lines, RecordOf(k)) != []
        ensures k in Load(lines).value ==> Load(lines).value[k] == Keep(lines, RecordOf(k))[0]
      {
        LoadedTable(lines, k);
      }
    } else if AllLoadable(lines) && NoStepTwice(lines) {
      LoadableIsLoaded(lines);
    }
  }

  // ------------------------------------------------------------------ assembling

  datatype StepEntry = NotAnObject | Entry(record: StepRecord)

  /** A report as the validator meets it. `commit` is None when the commits are not an object. */
  datatype Report = NotAReport | Report(
    schemaMatches: bool,
    steps: Option<seq<StepEntry>>,
    commit: Option<Option<string>>,
    exitCode: Option<int>)

  function NotRunRecord(k: StepName): StepRecord
  {
    StepRecord(Named(k), NotRun, Some(EXIT_NOT_RUN), Some(map[Reason := OtherDetail]))
  }

  function StepOf(records: Records, k: StepName): StepRecord
  {
    if k in records then records[k] else NotRunRecord(k)
  }

  /** The five steps once each, in canonical order; what never ran is filled in as `not_run`. */
  function CanonicalSteps(records: Records): seq<StepEntry>
  {
    seq(|STEP_NAMES|, i requires 0 <= i < |STEP_NAMES| => Entry(StepOf(records, STEP_NAMES[i])))
  }

  predicate AnyFailed(steps: seq<StepEntry>)
  {
    exists i :: 0 <= i < |steps| && steps[i].Entry? && steps[i].record.status == Failed
  }

  function Assemble(lines: seq<StepRecord>, commit: string): Option<Report>
  {
    var records := Load(lines);
    if records.None? then None
    else
      var steps := CanonicalSteps(records.value);
      Some(Report(true, Some(steps), Some(Some(commit)), Some(if AnyFailed(steps) then EXIT_FAILED else EXIT_OK)))
  }

  method AssembleReport(lines: seq<StepRecord>, commit: string) returns (report: Option<Report>)
    ensures report == Assemble(lines, commit)
  {
    var records := LoadStepRecords(lines);
    if records.None? {
      return None;
    }
    var steps: seq<StepEntry> := [];
    for i := 0 to |STEP_NAMES|
      invariant steps == CanonicalSteps(records.value)[..i]
    {
      var k := STEP_NAMES[i];
      if k in records.value {
        steps := steps + [Entry(records.value[k])];
      } else {
        steps := steps + [Entry(NotRunRecord(k))];
      }
    }
    assert steps == CanonicalSteps(records.value);
    var code := if AnyFailed(steps) then EXIT_FAILED else EXIT_OK;
    report := Some(Report(true, Some(steps), Some(Some(commit)), Some(code)));
  }

  // ------------------------------------------------------------------ properties

  lemma {:induction false} AtMostOnePermuted(xs: seq<StepRecord>, ys: seq<StepRecord>)
    requires multiset(xs) == multiset(ys)
    ensures |xs| == |ys|
    ensures |xs| <= 1 ==> xs == ys
  {
    assert |xs| == |multiset(xs)| && |ys| == |multiset(ys)|;
    if |xs| == 1 {
      assert xs[0] in multiset(xs);
      assert xs[0] in multiset(ys);
    }
  }

  lemma {:induction false} RecordPermuted(lines: seq<StepRecord>, other: seq<StepRecord>, k: StepName)
    requires multiset(lines) == multiset(other)
    ensures |Keep(lines, RecordOf(k))| == |Keep(other, RecordOf(k))|
    ensures |Keep(lines, RecordOf(k))| <= 1 ==> Keep(lines, RecordOf(k)) == Keep(other, RecordOf(k))
  {
    KeepPermuted(lines, other, RecordOf(k));
    AtMostOnePermuted(Keep(lines, RecordOf(k)), Keep(other, RecordOf(k)));
  }

  /** A shuffle of a file that loads also loads, to the same table. */
  lemma {:induction false} LoadedPermuted(lines: seq<StepRecord>, other: seq<StepRecord>)
    requires multiset(lines) == multiset(other) && Load(lines).Some?
    ensures Load(other) == Load(lines)
  {
    LoadedIsLoadable(lines);
    LoadableLinesPermuted(lines, other);
    forall k: StepName
      ensures |Keep(other, RecordOf(k))| <= 1
    {
      LoadedTable(lines, k);
      RecordPermuted(lines, other, k);
    }
    LoadableIsLoaded(other);
    forall k: StepName
      ensures k in Load(lines).value <==> k in Load(other).value
      ensures k in Load(lines).value ==> Load(lines).value[k] == Load(other).value[k]
    {
      LoadedTable(lines, k);
      LoadedTable(other, k);
      RecordPermuted(lines, other, k);
    }
    assert Load(other).value == Load(lines).value;
  }

  lemma {:induction false} LoadPermuted(lines: seq<StepRecord>, other: seq<StepRecord>)
    requires multiset(lines) == multiset(other)
    ensures Load(lines) == Load(other)
  {
    if Load(lines).Some? {
      LoadedPermuted(lines, other);
    } else if Load(other).Some? {
      LoadedPermuted(other, lines);
    }
  }

  lemma {:induction false} LoadableLinesPermuted(lines: seq<StepRecord>, other: seq<StepRecord>)
    requires multiset(lines) == multiset(other) && AllLoadable(lines)
    ensures AllLoadable(other)
  {
    forall i | 0 <= i < |other|
      ensures LoadableLine(other[i])
    {
      assert other[i] in multiset(other);
      assert other[i] in lines;
    }
  }

  /** The order in which the steps were emitted never shows in the report. */
  lemma {:induction false} AssembleIgnoresOrder(lines: seq<StepRecord>, other: seq<StepRecord>, commit: string)
    requires multiset(lines) == multiset(other)
    ensures Assemble(lines, commit) == Assemble(other, commit)
  {
    LoadPermuted(lines, other);
  }

  // ------------------------------------------------------- read off the lines

  /** A file loads iff every line names a step, has a known status and has details, and no step is named twice. */
  lemma {:induction false} LoadIff(lines: seq<StepRecord>)
    ensures Load(lines).Some? <==>
            && (forall i :: 0 <= i < |lines| ==>
                  lines[i].name.Named? && lines[i].status != OtherStatus && lines[i].details.Some?)
            && (forall i, j :: 0 <= i < j < |lines| ==> lines[i].name != lines[j].name)
  {
    if Load(lines).Some? {
      LoadedIsLoadable(lines);
      forall i, j | 0 <= i < j < |lines|
        ensures lines[i].name != lines[j].name
      {
        if lines[i].name == lines[j].name {
          TwiceNamed(lines, lines[i].name.step, i, j);
          LoadedTable(lines, lines[i].name.step);
        }
      }
    } else if forall i :: 0 <= i < |lines| ==> LoadableLine(lines[i]) {
      if k :| |Keep(lines, RecordOf(k))| > 1 {
        OriginIncreasing(lines, RecordOf(k), 0, 1);
        assert lines[Origin(lines, RecordOf(k), 0)].name == lines[Origin(lines, RecordOf(k), 1)].name;
      } else {
        LoadableIsLoaded(lines);
      }
    }
  }

  lemma {:induction false} TwiceNamed(lines: seq<StepRecord>, k: StepName, i: nat, j: nat)
    requires i < j < |lines| && lines[i].name == Named(k) && lines[j].name == Named(k)
    ensures |Keep(lines, RecordOf(k))| >= 2
  {
    RankIsPosition(lines, RecordOf(k), j);
    RankIncreasing(lines, RecordOf(k), i, j);
  }

  /** The table of a file that loads: step k is there iff a line names it, and that line is its record. */
  lemma {:induction false} LoadedLine(lines: seq<StepRecord>, k: StepName)
    requires Load(lines).Some?
    ensures k in Load(lines).value <==> exists i :: 0 <= i < |lines| && lines[i].name == Named(k)
    ensures forall i :: 0 <= i < |lines| && lines[i].name == Named(k) ==>
              k in Load(lines).value && Load(lines).value[k] == lines[i]
  {
    var f := RecordOf(k);
    LoadedTable(lines, k);
    KeepEmpty(lines, f);
    forall i | 0 <= i < |lines| && lines[i].name == Named(k)
      ensures k in Load(lines).value && Load(lines).value[k] == lines[i]
    {
      RankIsPosition(lines, f, i);
    }
  }

  /** The record a report carries for step k: the emitted line, or a `not_run` with code 30. */
  ghost predicate Carries(e: StepEntry, lines: seq<StepRecord>, k: StepName)
  {
    && e.Entry?
    && (forall i :: 0 <= i < |lines| && lines[i].name == Named(k) ==> e.record == lines[i])
    && ((forall i :: 0 <= i < |lines| ==> lines[i].name != Named(k)) ==>
          e.record.name == Named(k) && e.record.status == NotRun && e.record.exitCode == Some(30))
  }

  lemma {:induction false} StepIsCarried(lines: seq<StepRecord>, k: StepName)
    requires Load(lines).Some?
    ensures Carries(Entry(StepOf(Load(lines).value, k)), lines, k)
  {
    LoadedLine(lines, k);
  }

  /** An assembled report: the five steps in order, the commit, and code 10 iff a failed step was emitted, else 0. */
  lemma {:induction false} AssembleMeaning(lines: seq<StepRecord>, commit: string)
    ensures Assemble(lines, commit).Some? <==> Load(lines).Some?
    ensures Assemble(lines, commit).Some? ==>
              var r := Assemble(lines, commit).value;
              && r.Report? && r.schemaMatches && r.commit == Some(Some(commit))
              && r.steps.Some? && |r.steps.value| == 5
              && Carries(r.steps.value[0], lines, ProtocolEvent) && Carries(r.steps.value[1], lines, RuntimeBridge)
              && Carries(r.steps.value[2], lines, MerkleManifest) && Carries(r.steps.value[3], lines, InclusionProof)
              && Carries(r.steps.value[4], lines, ExternalVerify)
              && r.exitCode == Some(if exists i :: 0 <= i < |lines| && lines[i].status == Failed then 10 else 0)
  {
    if Load(lines).Some? {
      forall k: StepName
        ensures Carries(Entry(StepOf(Load(lines).value, k)), lines, k)
      {
        StepIsCarried(lines, k);
      }
      FailedIff(lines);
    }
  }

  lemma {:induction false} FailedIff(lines: seq<StepRecord>)
    requires Load(lines).Some?
    ensures AnyFailed(CanonicalSteps(Load(lines).value)) <==> exists i :: 0 <= i < |lines| && lines[i].status == Failed
  {
    var records := Load(lines).value;
    var steps := CanonicalSteps(records);
    if j :| 0 <= j < |steps| && steps[j].record.status == Failed {
      LoadedLine(lines, STEP_NAMES[j]);
    }
    if i :| 0 <= i < |lines| && lines[i].status == Failed {
      LoadedIsLoadable(lines);
      assert LoadableLine(lines[i]);
      var k := lines[i].name.step;
      LoadedLine(lines, k);
      var j := PlaceOf(k);
      assert steps[j].record == lines[i];
    }
  }

  lemma {:induction false} PlaceOf(k: StepName) returns (j: nat)
    ensures j < |STEP_NAMES| && STEP_NAMES[j] == k
  {
    match k
    case ProtocolEvent => j := 0;
    case RuntimeBridge => j := 1;
    case MerkleManifest => j := 2;
    case InclusionProof => j := 3;
    case ExternalVerify => j := 4;
  }
}
