// The standing assurances Z1..Z4 and the rotation falsification F1
// (scripts/acceptance/substrate_acceptance_window.py).

module Assurances {
  import opened Findings
  import opened Sequences
  import opened Samples
  import opened Series

  /** The points of a time-sorted sample series are time-sorted. */
  lemma {:induction false} PointsOfSorted(samples: seq<Sample>, f: Sample -> Option<Point>)
    requires TimeSorted(samples)
    requires forall s :: f(s).Some? ==> f(s).value.t == s.at
    ensures PointsSorted(Keep(samples, f))
  {
    var p := Keep(samples, f);
    forall i, j | 0 <= i <= j < |p|
      ensures p[i].t <= p[j].t
    {
      if i < j {
        OriginIncreasing(samples, f, i, j);
      }
    }
  }

  // ----------------------------------------------------------------------- Z1

  function Z1Grade(s: Sample): Grade
  {
    match SourcePresent(s.svid)
    case Bad => Violated
    case NotMeasured => Gap
    case Present =>
      match SourcePresent(s.bundle)
      case Bad => Violated
      case NotMeasured => Gap
      case Present =>
        if s.chainAuthority.None? || s.bundleIds.None? then Gap
        else if s.chainAuthority.value in s.bundleIds.value then Sound
        else Violated
  }

  ghost function Z1State(samples: seq<Sample>): State
  {
    Settled(Any(samples, Z1Grade, Violated), Any(samples, Z1Grade, Gap) || samples == [])
  }

  /** Z1, sample by sample: both sources answer and the top of the chain is among the bundle's authorities. */
  method JudgeZ1(samples: seq<Sample>) returns (j: Judgement)
    ensures j.state == Z1State(samples)
  {
    var violations, gaps: seq<Reason>, seen := [], [], 0;
    for i := 0 to |samples|
      invariant violations != [] <==> Any(samples[..i], Z1Grade, Violated)
      invariant gaps != [] <==> Any(samples[..i], Z1Grade, Gap)
      invariant violations == [] && gaps == [] ==> seen == i
      invariant seen <= i
    {
      AnyNext(samples, Z1Grade, Violated, i);
      AnyNext(samples, Z1Grade, Gap, i);
      var s := samples[i];
      var svid := SourcePresent(s.svid);
      if svid == NotMeasured {
        gaps := gaps + [SvidUnmeasured];
        continue;
      }
      if svid == Bad {
        violations := violations + [NoSvidServed];
        continue;
      }
      var bundle := SourcePresent(s.bundle);
      if bundle == NotMeasured {
        gaps := gaps + [BundleUnmeasured];
        continue;
      }
      if bundle == Bad {
        violations := violations + [NoAuthoritySet];
        continue;
      }
      if s.chainAuthority.None? || s.bundleIds.None? {
        gaps := gaps + [AuthorityUnmeasured];
        continue;
      }
      seen := seen + 1;
      if s.chainAuthority.value !in s.bundleIds.value {
        violations := violations + [ChainOutsideBundle];
      }
    }
    assert samples[..|samples|] == samples;
    j := Settle(violations, gaps, seen == 0);
  }

  // ----------------------------------------------------------------------- Z2

  function ExpiryGrade(s: Sample): Grade
  {
    match SourcePresent(s.svid)
    case Bad => Violated
    case NotMeasured => Gap
    case Present => if s.notAfter.None? then Gap else Sound
  }

  function ExpiryPoint(s: Sample): Option<Point>
  {
    if s.svid == Ok && s.notAfter.Some? then Some(Point(s.at, s.notAfter.value)) else None
  }

  ghost function Z2State(samples: seq<Sample>, maxStall: int): State
  {
    var p := Keep(samples, ExpiryPoint);
    Settled(
      Any(samples, ExpiryGrade, Violated) || (|p| >= 2 && (SomeFall(p) || StalledBeyond(p, maxStall))),
      Any(samples, ExpiryGrade, Gap) || |p| < 2 || !SomeRise(p))
  }

  method CollectExpiries(samples: seq<Sample>) returns (violations: seq<Reason>, gaps: seq<Reason>, series: seq<Point>)
    ensures series == Keep(samples, ExpiryPoint)
    ensures violations != [] <==> Any(samples, ExpiryGrade, Violated)
    ensures gaps != [] <==> Any(samples, ExpiryGrade, Gap)
  {
    violations, gaps, series := [], [], [];
    for i := 0 to |samples|
      invariant series == Keep(samples[..i], ExpiryPoint)
      invariant violations != [] <==> Any(samples[..i], ExpiryGrade, Violated)
      invariant gaps != [] <==> Any(samples[..i], ExpiryGrade, Gap)
    {
      AnyNext(samples, ExpiryGrade, Violated, i);
      AnyNext(samples, ExpiryGrade, Gap, i);
      KeepNext(samples, ExpiryPoint, i);
      var s := samples[i];
      var svid := SourcePresent(s.svid);
      if svid == Bad {
        violations := violations + [NoSvidServed];
      } else if svid == NotMeasured || s.notAfter.None? {
        gaps := gaps + [ExpiryUnmeasured];
      } else {
        series := series + [Point(s.at, s.notAfter.value)];
      }
    }
    assert samples[..|samples|] == samples;
  }

  /** Z2: collect the measured expiries, then scan them for falls and over-long stalls. */
  method JudgeZ2(samples: seq<Sample>, maxStall: int) returns (j: Judgement, moves: nat, worst: int)
    requires TimeSorted(samples)
    ensures j.state == Z2State(samples, maxStall)
    ensures var p := Keep(samples, ExpiryPoint); |p| >= 2 ==>
      moves == RisesBy(p, |p| - 1) && (!SomeFall(p) ==> IsWorstStall(p, worst))
  {
    var violations, gaps, series := CollectExpiries(samples);
    moves, worst := 0, 0;
    if |series| < 2 {
      gaps := gaps + [TooFewPoints];
      j := Settle(violations, gaps, false);
      return;
    }
    PointsOfSorted(samples, ExpiryPoint);
    var found, short;
    found, short, moves, worst := JudgeExpiries(series, maxStall);
    violations := violations + found;
    if short {
      gaps := gaps + [SpanTooShort];
    }
    j := Settle(violations, gaps, false);
  }

  /** The scan of the collected expiries, and whether the series is too short for its stillness to mean anything. */
  method JudgeExpiries(p: seq<Point>, maxStall: int) returns (found: seq<Reason>, short: bool, moves: nat, worst: int)
    requires |p| >= 2 && PointsSorted(p)
    ensures found != [] <==> SomeFall(p) || StalledBeyond(p, maxStall)
    ensures found == [] ==> (short <==> !SomeRise(p))
    ensures moves == RisesBy(p, |p| - 1)
    ensures !SomeFall(p) ==> IsWorstStall(p, worst)
  {
    found, moves, worst := ScanExpiry(p, maxStall);
    FallsAndRisesAtEnd(p);
    StalledAtEnd(p, maxStall);
    WorstAtEnd(p);
    var span := p[|p| - 1].t - p[0].t;
    NoRiseMeansStall(p, maxStall);
    short := moves == 0 && span <= maxStall;
  }

  /** A series longer than the tolerance in which nothing rises has stalled. */
  lemma {:induction false} NoRiseMeansStall(p: seq<Point>, limit: int)
    requires p != []
    ensures !SomeRise(p) && p[|p| - 1].t - p[0].t > limit ==> StalledBeyond(p, limit)
  {
    if !SomeRise(p) {
      assert Quiet(p, 0, |p| - 1);
    }
  }

  // ----------------------------------------------------------------------- Z3

  function StateFileGrade(s: Sample): Grade
  {
    match SourcePresent(s.agentData)
    case Bad => Violated
    case NotMeasured => Gap
    case Present => if s.agentMtime.None? then Gap else Sound
  }

  function StateFilePoint(s: Sample): Option<Point>
  {
    if s.agentData == Ok && s.agentMtime.Some? then Some(Point(s.at, s.agentMtime.value)) else None
  }

  ghost function Z3State(samples: seq<Sample>, minSpan: int): State
  {
    var p := Keep(samples, StateFilePoint);
    Settled(
      Any(samples, StateFileGrade, Violated) ||
      (|p| >= 2 && (SomeFall(p) || (!SomeRise(p) && p[|p| - 1].t - p[0].t > minSpan))),
      Any(samples, StateFileGrade, Gap) || |p| < 2 || !SomeRise(p))
  }

  method CollectStateFiles(samples: seq<Sample>) returns (violations: seq<Reason>, gaps: seq<Reason>, series: seq<Point>)
    ensures series == Keep(samples, StateFilePoint)
    ensures violations != [] <==> Any(samples, StateFileGrade, Violated)
    ensures gaps != [] <==> Any(samples, StateFileGrade, Gap)
  {
    violations, gaps, series := [], [], [];
    for i := 0 to |samples|
      invariant series == Keep(samples[..i], StateFilePoint)
      invariant violations != [] <==> Any(samples[..i], StateFileGrade, Violated)
      invariant gaps != [] <==> Any(samples[..i], StateFileGrade, Gap)
    {
      AnyNext(samples, StateFileGrade, Violated, i);
      AnyNext(samples, StateFileGrade, Gap, i);
      KeepNext(samples, StateFilePoint, i);
      var s := samples[i];
      var agentData := SourcePresent(s.agentData);
      if agentData == Bad {
        violations := violations + [StateFileMissing];
      } else if agentData == NotMeasured || s.agentMtime.None? {
        gaps := gaps + [StateFileUnmeasured];
      } else {
        series := series + [Point(s.at, s.agentMtime.value)];
      }
    }
    assert samples[..|samples|] == samples;
  }

  /** Z3: collect the measured mtimes, then ask for a write once the series outlasts the floor. */
  method JudgeZ3(samples: seq<Sample>, minSpan: int) returns (j: Judgement, moves: nat, worst: int)
    requires TimeSorted(samples)
    ensures j.state == Z3State(samples, minSpan)
    ensures var p := Keep(samples, StateFilePoint); |p| >= 2 ==>
      moves == RisesBy(p, |p| - 1) && (!SomeFall(p) ==> IsWorstStall(p, worst))
  {
    var violations, gaps, series := CollectStateFiles(samples);
    moves, worst := 0, 0;
    if |series| < 2 {
      gaps := gaps + [TooFewPoints];
      j := Settle(violations, gaps, false);
      return;
    }
    PointsOfSorted(samples, StateFilePoint);
    var found;
    found, moves, worst := ScanStateFile(series);
    FallsAndRisesAtEnd(series);
    WorstAtEnd(series);
    violations := violations + found;
    var span := series[|series| - 1].t - series[0].t;
    if moves == 0 {
      if span > minSpan {
        violations := violations + [NeverMoved];
      } else {
        gaps := gaps + [SpanTooShort];
      }
    }
    j := Settle(violations, gaps, false);
  }

  // ----------------------------------------------------------------------- Z4

  predicate Meet(a: seq<AuthorityId>, b: seq<AuthorityId>)
  {
    exists i :: 0 <= i < |a| && a[i] in b
  }

  function AnchorGrade(s: Sample): Grade
  {
    match SourcePresent(s.anchor)
    case Bad => Violated
    case NotMeasured => Gap
    case Present =>
      if s.anchorIds.None? || s.anchorMtime.None? then Gap
      else
        match SourcePresent(s.bundle)
        case Bad => Violated
        case NotMeasured => Gap
        case Present =>
          if s.bundleIds.None? then Gap
          else if Meet(s.anchorIds.value, s.bundleIds.value) then Sound
          else Violated
  }

  function AnchorPoint(s: Sample): Option<Point>
  {
    if s.anchor == Ok && s.bundle == Ok && s.anchorIds.Some? && s.anchorMtime.Some? && s.bundleIds.Some?
    then Some(Point(s.at, s.anchorMtime.value))
    else None
  }

  ghost function Z4State(samples: seq<Sample>, restageMax: int): State
  {
    var p := Keep(samples, AnchorPoint);
    Settled(
      Any(samples, AnchorGrade, Violated) || (|p| >= 2 && StalledBeyond(p, restageMax)),
      Any(samples, AnchorGrade, Gap) || |p| < 2)
  }

  method CollectAnchors(samples: seq<Sample>) returns (violations: seq<Reason>, gaps: seq<Reason>, mtimes: seq<Point>)
    ensures mtimes == Keep(samples, AnchorPoint)
    ensures violations != [] <==> Any(samples, AnchorGrade, Violated)
    ensures gaps != [] <==> Any(samples, AnchorGrade, Gap)
  {
    violations, gaps, mtimes := [], [], [];
    for i := 0 to |samples|
      invariant mtimes == Keep(samples[..i], AnchorPoint)
      invariant violations != [] <==> Any(samples[..i], AnchorGrade, Violated)
      invariant gaps != [] <==> Any(samples[..i], AnchorGrade, Gap)
    {
      AnyNext(samples, AnchorGrade, Violated, i);
      AnyNext(samples, AnchorGrade, Gap, i);
      KeepNext(samples, AnchorPoint, i);
      var s := samples[i];
      var anchor := SourcePresent(s.anchor);
      if anchor == NotMeasured {
        gaps := gaps + [AnchorUnmeasured];
        continue;
      }
      if anchor == Bad {
        violations := violations + [AnchorUnusable];
        continue;
      }
      if s.anchorIds.None? || s.anchorMtime.None? {
        gaps := gaps + [AnchorUnmeasured];
        continue;
      }
      var bundle := SourcePresent(s.bundle);
      if bundle == Bad {
        violations := violations + [NoAuthoritySet];
        continue;
      }
      if bundle == NotMeasured || s.bundleIds.None? {
        gaps := gaps + [BundleUnmeasured];
        continue;
      }
      if !Meet(s.anchorIds.value, s.bundleIds.value) {
        violations := violations + [AnchorSharesNothing];
      }
      mtimes := mtimes + [Point(s.at, s.anchorMtime.value)];
    }
    assert samples[..|samples|] == samples;
  }

  /** Z4: every anchor is usable and shares an authority with its bundle, and rewrites come often enough. */
  method JudgeZ4(samples: seq<Sample>, restageMax: int) returns (j: Judgement, worst: int)
    requires TimeSorted(samples)
    ensures j.state == Z4State(samples, restageMax)
    ensures var p := Keep(samples, AnchorPoint); |p| >= 2 ==> IsWorstStall(p, worst)
  {
    var violations, gaps, mtimes := CollectAnchors(samples);
    var seen := |mtimes|;
    worst := 0;
    PointsOfSorted(samples, AnchorPoint);
    if |mtimes| >= 2 {
      worst := ScanAnchor(mtimes);
      WorstAtEnd(mtimes);
      StalledAtEnd(mtimes, restageMax);
      if worst > restageMax {
        violations := violations + [Stalled];
      }
    } else if mtimes != [] {
      gaps := gaps + [TooFewPoints];
    }
    j := Settle(violations, gaps, seen == 0 && violations == []);
  }

  // ----------------------------------------------------------------------- F1

  /** A sample F1 can count: who signed the leaf, and whether the chain still ends inside the bundle. */
  datatype Signing = Signing(t: int, signer: AuthorityId, survived: bool)

  function SigningGrade(s: Sample): Grade
  {
    match SourcePresent(s.svid)
    case Bad => Sound
    case NotMeasured => Gap
    case Present =>
      if s.leafAuthority.None? then Gap
      else
        match SourcePresent(s.bundle)
        case Bad => Sound
        case NotMeasured => Gap
        case Present => if s.chainAuthority.None? || s.bundleIds.None? then Gap else Sound
  }

  function SigningOf(s: Sample): Option<Signing>
  {
    if s.svid == Ok && s.bundle == Ok && s.leafAuthority.Some? && s.chainAuthority.Some? && s.bundleIds.Some?
    then Some(Signing(s.at, s.leafAuthority.value, s.chainAuthority.value in s.bundleIds.value))
    else None
  }

  ghost predicate Rotates(q: seq<Signing>, k: int)
  {
    0 < k < |q| && q[k - 1].signer != q[k].signer
  }

  /** How many positions see a signer other than their predecessor's. */
  function Rotations(q: seq<Signing>): nat
  {
    if |q| < 2 then 0
    else Rotations(q[..|q| - 1]) + if q[|q| - 2].signer != q[|q| - 1].signer then 1 else 0
  }

  /** How many of those changes were survived. */
  function SurvivedRotations(q: seq<Signing>): nat
  {
    if |q| < 2 then 0
    else
      SurvivedRotations(q[..|q| - 1]) +
      if q[|q| - 2].signer != q[|q| - 1].signer && q[|q| - 1].survived then 1 else 0
  }

  ghost predicate SomeRotationLost(q: seq<Signing>)
  {
    exists k :: Rotates(q, k) && !q[k].survived
  }

  ghost function F1State(samples: seq<Sample>, minRotations: int, rotationPeriod: int): State
  {
    var q := Keep(samples, SigningOf);
    Settled(
      |q| >= 2 && (SomeRotationLost(q) ||
                   (Rotations(q) < minRotations && q[|q| - 1].t - q[0].t >= minRotations * rotationPeriod)),
      Any(samples, SigningGrade, Gap) || |q| < 2 || Rotations(q) < minRotations)
  }

  method CollectSignings(samples: seq<Sample>) returns (gaps: seq<Reason>, q: seq<Signing>)
    ensures q == Keep(samples, SigningOf)
    ensures gaps != [] <==> Any(samples, SigningGrade, Gap)
  {
    gaps, q := [], [];
    for i := 0 to |samples|
      invariant q == Keep(samples[..i], SigningOf)
      invariant gaps != [] <==> Any(samples[..i], SigningGrade, Gap)
    {
      AnyNext(samples, SigningGrade, Gap, i);
      KeepNext(samples, SigningOf, i);
      var s := samples[i];
      var svid := SourcePresent(s.svid);
      if svid == Bad {
        continue;
      }
      if svid == NotMeasured || s.leafAuthority.None? {
        gaps := gaps + [SignerUnmeasured];
        continue;
      }
      var bundle := SourcePresent(s.bundle);
      if bundle == Bad {
        continue;
      }
      if bundle == NotMeasured || s.chainAuthority.None? || s.bundleIds.None? {
        gaps := gaps + [AuthorityUnmeasured];
        continue;
      }
      q := q + [Signing(s.at, s.leafAuthority.value, s.chainAuthority.value in s.bundleIds.value)];
    }
    assert samples[..|samples|] == samples;
  }

  /** Count the rotations of one signing sequence and how many of them were survived. */
  method CountRotations(q: seq<Signing>) returns (violations: seq<Reason>, transitions: nat, survived: nat)
    requires |q| >= 2
    ensures transitions == Rotations(q)
    ensures violations != [] <==> SomeRotationLost(q)
    ensures survived == SurvivedRotations(q)
    ensures violations == [] <==> survived == transitions
  {
    violations, transitions, survived := [], 0, 0;
    for k := 1 to |q|
      invariant transitions == Rotations(q[..k]) && survived == SurvivedRotations(q[..k])
      invariant violations != [] <==> exists i :: Rotates(q, i) && i < k && !q[i].survived
      invariant survived + |violations| == transitions
    {
      assert q[..k + 1][..k] == q[..k];
      if q[k].signer == q[k - 1].signer {
        continue;
      }
      assert Rotates(q, k);
      transitions := transitions + 1;
      if q[k].survived {
        survived := survived + 1;
      } else {
        violations := violations + [RotationLost];
      }
    }
    assert q[..|q|] == q;
  }

  /** F1: count the changes of signer and require each to land inside the bundle. */
  method JudgeF1(samples: seq<Sample>, minRotations: int, rotationPeriod: int)
    returns (j: Judgement, transitions: nat, survived: nat)
    ensures j.state == F1State(samples, minRotations, rotationPeriod)
    ensures var q := Keep(samples, SigningOf); |q| >= 2 ==>
      transitions == Rotations(q) && survived == SurvivedRotations(q) && (survived == transitions <==> !SomeRotationLost(q))
  {
    var gaps, q := CollectSignings(samples);
    transitions, survived := 0, 0;
    if |q| < 2 {
      gaps := gaps + [TooFewPoints];
      j := Settle([], gaps, false);
      return;
    }
    var violations;
    violations, transitions, survived := CountRotations(q);
    var span := q[|q| - 1].t - q[0].t;
    var requiredSpan := minRotations * rotationPeriod;
    if transitions < minRotations {
      if span >= requiredSpan {
        violations := violations + [TooFewRotations];
      } else {
        gaps := gaps + [SpanTooShort];
      }
    }
    j := Settle(violations, gaps, false);
  }
}
