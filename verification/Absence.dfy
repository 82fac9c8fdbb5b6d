// What one missing measurement does to each standing judgement
// (scripts/acceptance/substrate_acceptance_window.py).
//
// The design promises that an unmeasured value is never converted into a FAIL. Each lemma below takes any
// series the judgement does not already fail, erases one status or value from one sample, and says exactly
// which state results. Z1 and Z2 keep the promise; Z3, Z4 and F1 break it, each under one stated condition.

module Absence {
  import opened Sequences
  import opened Samples
  import opened Series
  import opened Assurances

  datatype Field =
    | SvidStatus | Expiry | ChainAuthority | LeafAuthority
    | BundleStatus | BundleIds
    | AgentDataStatus | AgentDataMtime
    | AnchorStatus | AnchorMtime | AnchorIds

  function Erase(s: Sample, field: Field): Sample
  {
    match field
    case SvidStatus => s.(svid := Absent)
    case Expiry => s.(notAfter := None)
    case ChainAuthority => s.(chainAuthority := None)
    case LeafAuthority => s.(leafAuthority := None)
    case BundleStatus => s.(bundle := Absent)
    case BundleIds => s.(bundleIds := None)
    case AgentDataStatus => s.(agentData := Absent)
    case AgentDataMtime => s.(agentMtime := None)
    case AnchorStatus => s.(anchor := Absent)
    case AnchorMtime => s.(anchorMtime := None)
    case AnchorIds => s.(anchorIds := None)
  }

  /** The series with one field of sample i erased. */
  function Lost(j: seq<Sample>, i: nat, field: Field): seq<Sample>
    requires i < |j|
  {
    j[i := Erase(j[i], field)]
  }

  predicate FeedsZ1(field: Field)
  {
    field == SvidStatus || field == ChainAuthority || field == BundleStatus || field == BundleIds
  }

  predicate FeedsZ2(field: Field)
  {
    field == SvidStatus || field == Expiry
  }

  predicate FeedsZ3(field: Field)
  {
    field == AgentDataStatus || field == AgentDataMtime
  }

  predicate FeedsZ4(field: Field)
  {
    field == AnchorStatus || field == AnchorMtime || field == AnchorIds || field == BundleStatus || field == BundleIds
  }

  predicate FeedsF1(field: Field)
  {
    FeedsZ1(field) || field == LeafAuthority
  }

  // ------------------------------------------------------- grades after a loss

  /** Replacing one sample by one that violates nothing adds no violation. */
  lemma {:induction false} NoNewViolation(j: seq<Sample>, grade: Sample -> Grade, i: nat, x: Sample)
    requires i < |j| && grade(x) != Violated && !Any(j, grade, Violated)
    ensures !Any(j[i := x], grade, Violated)
    ensures grade(x) == Gap ==> Any(j[i := x], grade, Gap)
  {
    var y := j[i := x];
    AnyMeaning(j, grade, Violated);
    AnyMeaning(y, grade, Violated);
    AnyMeaning(y, grade, Gap);
    assert y[i] == x && forall k :: 0 <= k < |j| && k != i ==> y[k] == j[k];
  }

  lemma {:induction false} SameGrade(j: seq<Sample>, grade: Sample -> Grade, i: nat, x: Sample, g: Grade)
    requires i < |j| && grade(x) == grade(j[i])
    ensures Any(j[i := x], grade, g) == Any(j, grade, g)
  {
    var y := j[i := x];
    AnyMeaning(j, grade, g);
    AnyMeaning(y, grade, g);
    assert forall k :: 0 <= k < |j| ==> grade(y[k]) == grade(j[k]);
  }

  /** A judgement that never reads the erased field sees the same grades. */
  lemma {:induction false} SameGrades(j: seq<Sample>, grade: Sample -> Grade, i: nat, x: Sample)
    requires i < |j| && grade(x) == grade(j[i])
    ensures forall g :: Any(j[i := x], grade, g) == Any(j, grade, g)
  {
    forall g: Grade
      ensures Any(j[i := x], grade, g) == Any(j, grade, g)
    {
      SameGrade(j, grade, i, x, g);
    }
  }

  lemma {:induction false} GapAt(j: seq<Sample>, grade: Sample -> Grade, i: nat, x: Sample)
    requires i < |j| && grade(x) == Gap
    ensures Any(j[i := x], grade, Gap)
  {
    AnyMeaning(j[i := x], grade, Gap);
    assert j[i := x][i] == x;
  }

  lemma {:induction false} NotViolatedAt(j: seq<Sample>, grade: Sample -> Grade, i: nat)
    requires i < |j| && !Any(j, grade, Violated)
    ensures grade(j[i]) != Violated
  {
    AnyMeaning(j, grade, Violated);
  }

  // ----------------------------------------------------------------------- Z1

  /** Z1 keeps the promise: a missing measurement leaves it unknown. */
  lemma {:induction false} Z1AfterLoss(j: seq<Sample>, i: nat, field: Field)
    requires i < |j| && Z1State(j) != FAIL
    ensures Z1State(Lost(j, i, field)) == if FeedsZ1(field) then UNKNOWN else Z1State(j)
  {
    var x := Erase(j[i], field);
    NotViolatedAt(j, Z1Grade, i);
    if FeedsZ1(field) {
      NoNewViolation(j, Z1Grade, i, x);
    } else {
      SameGrades(j, Z1Grade, i, x);
    }
  }

  // ----------------------------------------------------------------------- Z2

  /** Where an element of a shortened series stood before. */
  function Shifted(k: int, r: int): int
  {
    if k < r then k else k + 1
  }

  /** A series that never falls still never falls without one of its points. */
  lemma {:induction false} WithoutNeverFalls(p: seq<Point>, r: nat)
    requires r < |p| && !SomeFall(p)
    ensures !SomeFall(Without(p, r))
  {
    var q := Without(p, r);
    forall k | Falls(q, k)
      ensures false
    {
      assert q[k - 1] == p[Shifted(k - 1, r)] && q[k] == p[Shifted(k, r)];
      MonotoneWithoutFalls(p, Shifted(k - 1, r), Shifted(k, r));
    }
  }

  /** ... and it stalls nowhere that it did not stall before. */
  lemma {:induction false} WithoutNeverStalls(p: seq<Point>, limit: int, r: nat)
    requires r < |p| && !SomeFall(p) && !StalledBeyond(p, limit)
    ensures !StalledBeyond(Without(p, r), limit)
  {
    var q := Without(p, r);
    WithoutNeverFalls(p, r);
    forall a, b | Quiet(q, a, b)
      ensures q[b].t - q[a].t <= limit
    {
      QuietIsConstant(q, a, b);
      var a', b' := Shifted(a, r), Shifted(b, r);
      assert q[a] == p[a'] && q[b] == p[b'];
      QuietIsConstant(p, a', b');
    }
  }

  /** Z2 keeps the promise too, for every tolerance and every series it does not already fail. */
  lemma {:induction false} Z2AfterLoss(j: seq<Sample>, maxStall: int, i: nat, field: Field)
    requires i < |j| && Z2State(j, maxStall) != FAIL
    ensures Z2State(Lost(j, i, field), maxStall) == if FeedsZ2(field) then UNKNOWN else Z2State(j, maxStall)
  {
    var x := Erase(j[i], field);
    NotViolatedAt(j, ExpiryGrade, i);
    if FeedsZ2(field) {
      NoNewViolation(j, ExpiryGrade, i, x);
      KeepLost(j, ExpiryPoint, i, x);
      var p, r := Keep(j, ExpiryPoint), Rank(j, ExpiryPoint, i);
      if ExpiryPoint(j[i]).Some? && |p| >= 2 {
        WithoutNeverFalls(p, r);
        WithoutNeverStalls(p, maxStall, r);
      }
    } else {
      SameGrades(j, ExpiryGrade, i, x);
      KeepSame(j, ExpiryPoint, i, x);
    }
  }

  // ----------------------------------------------------------------------- Z3

  /** From point a to point b the value is the same, over more than the floor. */
  predicate StandsStill(p: seq<Point>, a: int, b: int, minSpan: int)
  {
    0 <= a < b < |p| && p[a].v == p[b].v && p[b].t - p[a].t > minSpan
  }

  /** Point r is the first or the last one, and everything else stands still. */
  predicate RestStandsStill(p: seq<Point>, r: int, minSpan: int)
  {
    (r == 0 && StandsStill(p, 1, |p| - 1, minSpan)) || (r == |p| - 1 && StandsStill(p, 0, |p| - 2, minSpan))
  }

  /** The violation Z3 reports of a series of mtimes. */
  ghost predicate MtimesFail(p: seq<Point>, minSpan: int)
  {
    |p| >= 2 && (SomeFall(p) || (!SomeRise(p) && p[|p| - 1].t - p[0].t > minSpan))
  }

  lemma {:induction false} StateFileLost(p: seq<Point>, r: nat, minSpan: int)
    requires r < |p| && !MtimesFail(p, minSpan)
    ensures MtimesFail(Without(p, r), minSpan) <==> RestStandsStill(p, r, minSpan)
  {
    if |p| >= 2 {
      StillWithoutIff(p, r, minSpan);
      WithoutNeverFalls(p, r);
    }
  }

  lemma {:induction false} StillWithoutIff(p: seq<Point>, r: nat, minSpan: int)
    requires r < |p| && !SomeFall(p)
    requires |p| >= 2 ==> SomeRise(p) || p[|p| - 1].t - p[0].t <= minSpan
    ensures var q := Without(p, r);
      |q| >= 2 && !SomeRise(q) && q[|q| - 1].t - q[0].t > minSpan <==> RestStandsStill(p, r, minSpan)
  {
    var q := Without(p, r);
    WithoutNeverFalls(p, r);
    if |q| >= 2 {
      RiseIsGain(p);
      RiseIsGain(q);
      var first, last := Shifted(0, r), Shifted(|q| - 1, r);
      assert q[0] == p[first] && q[|q| - 1] == p[last];
      MonotoneWithoutFalls(p, first, last);
      MonotoneWithoutFalls(p, 0, |p| - 1);
    }
  }

  /**
   * Z3 breaks the promise. A lost state-file measurement is reported as a finding exactly when it was the first or
   * the last one of the series and the others all show one mtime over more than the floor.
   */
  lemma {:induction false} Z3AfterLoss(j: seq<Sample>, minSpan: int, i: nat, field: Field)
    requires i < |j| && Z3State(j, minSpan) != FAIL
    ensures Z3State(Lost(j, i, field), minSpan) ==
      if !FeedsZ3(field) then Z3State(j, minSpan)
      else if Z3LossIsAFinding(j, minSpan, i) then FAIL
      else UNKNOWN
  {
    var x := Erase(j[i], field);
    StateFileErased(j[i], field);
    Z3StateIs(j, minSpan);
    Z3StateIs(j[i := x], minSpan);
    NotViolatedAt(j, StateFileGrade, i);
    if FeedsZ3(field) {
      NoNewViolation(j, StateFileGrade, i, x);
      KeepLost(j, StateFilePoint, i, x);
      if StateFilePoint(j[i]).Some? {
        StateFileLost(Keep(j, StateFilePoint), Rank(j, StateFilePoint, i), minSpan);
      }
    } else {
      SameGrades(j, StateFileGrade, i, x);
      KeepSame(j, StateFilePoint, i, x);
    }
  }

  lemma {:induction false} Z3StateIs(j: seq<Sample>, minSpan: int)
    ensures var p := Keep(j, StateFilePoint);
      Z3State(j, minSpan) ==
        Settled(Any(j, StateFileGrade, Violated) || MtimesFail(p, minSpan),
                Any(j, StateFileGrade, Gap) || |p| < 2 || !SomeRise(p))
  {
  }

  lemma {:induction false} StateFileErased(s: Sample, field: Field)
    ensures var x := Erase(s, field);
      && (FeedsZ3(field) ==> StateFilePoint(x).None?)
      && (FeedsZ3(field) && StateFileGrade(s) != Violated ==> StateFileGrade(x) == Gap)
      && (!FeedsZ3(field) ==> StateFilePoint(x) == StateFilePoint(s) && StateFileGrade(x) == StateFileGrade(s))
  {
  }

  ghost predicate Z3LossIsAFinding(j: seq<Sample>, minSpan: int, i: nat)
    requires i < |j|
  {
    StateFilePoint(j[i]).Some? && RestStandsStill(Keep(j, StateFilePoint), Rank(j, StateFilePoint, i), minSpan)
  }

  // ----------------------------------------------------------------------- Z4

  /** The quiet stretches on both sides of point r join into one longer than the limit once r is gone. */
  ghost predicate StallsJoin(p: seq<Point>, r: int, limit: int)
  {
    exists a, b :: JoinsBeyond(p, r, limit, a, b)
  }

  /** Nothing is gained from a up to r, across r, or from r on up to b, and b is further from a than the limit. */
  ghost predicate JoinsBeyond(p: seq<Point>, r: int, limit: int, a: int, b: int)
  {
    && 0 <= a < r < b < |p|
    && Quiet(p, a, r - 1) && p[r + 1].v <= p[r - 1].v && Quiet(p, r + 1, b)
    && p[b].t - p[a].t > limit
  }

  lemma {:induction false} RisesWithout(p: seq<Point>, r: nat, k: int)
    requires r < |p|
    ensures Rises(Without(p, r), k) <==>
            if k < r then Rises(p, k)
            else if k == r then 0 < r < |p| - 1 && p[r - 1].v < p[r + 1].v
            else Rises(p, k + 1)
  {
    var q := Without(p, r);
    if 0 < k < |q| {
      assert q[k - 1] == p[Shifted(k - 1, r)] && q[k] == p[Shifted(k, r)];
    }
  }

  /** A stretch on one side of the lost point is quiet iff it was quiet before. */
  lemma {:induction false} QuietBeside(p: seq<Point>, r: nat, a: int, b: int)
    requires r < |p| && (b < r || r <= a)
    ensures Quiet(Without(p, r), a, b) <==> Quiet(p, Shifted(a, r), Shifted(b, r))
  {
    var q := Without(p, r);
    if 0 <= a <= b < |q| {
      forall k | a < k <= b
        ensures Rises(q, k) <==> Rises(p, Shifted(k, r))
      {
        RisesWithout(p, r, k);
      }
      if Quiet(q, a, b) {
        forall k | Shifted(a, r) < k <= Shifted(b, r)
          ensures !Rises(p, k)
        {
          assert !Rises(q, if b < r then k else k - 1);
        }
      }
    }
  }

  /** A stretch across the lost point is quiet iff both its parts are and nothing is gained across the point. */
  lemma {:induction false} QuietAcross(p: seq<Point>, r: nat, a: int, b: int)
    requires 0 <= a < r <= b < |p| - 1
    ensures Quiet(Without(p, r), a, b) <==>
            Quiet(p, a, r - 1) && p[r + 1].v <= p[r - 1].v && Quiet(p, r + 1, b + 1)
  {
    var q := Without(p, r);
    QuietBeside(p, r, a, r - 1);
    QuietBeside(p, r, r, b);
    RisesWithout(p, r, r);
    assert Quiet(q, a, b) <==> Quiet(q, a, r - 1) && !Rises(q, r) && Quiet(q, r, b);
  }

  lemma {:induction false} StalledWithoutIff(p: seq<Point>, r: nat, limit: int)
    requires r < |p| && !StalledBeyond(p, limit)
    ensures StalledBeyond(Without(p, r), limit) <==> StallsJoin(p, r, limit)
  {
    var q := Without(p, r);
    if StalledBeyond(q, limit) {
      var a, b :| Quiet(q, a, b) && q[b].t - q[a].t > limit;
      if a < r <= b {
        AcrossIsJoined(p, r, limit, a, b);
      } else {
        BesideIsOld(p, r, limit, a, b);
      }
    }
    if StallsJoin(p, r, limit) {
      var a, b :| JoinsBeyond(p, r, limit, a, b);
      AcrossIsJoined(p, r, limit, a, b - 1);
    }
  }

  lemma {:induction false} BesideIsOld(p: seq<Point>, r: nat, limit: int, a: int, b: int)
    requires r < |p| && (b < r || r <= a)
    requires Quiet(Without(p, r), a, b) && Without(p, r)[b].t - Without(p, r)[a].t > limit
    ensures StalledBeyond(p, limit)
  {
    QuietBeside(p, r, a, b);
    var a', b' := Shifted(a, r), Shifted(b, r);
    assert Without(p, r)[a] == p[a'] && Without(p, r)[b] == p[b'];
    assert Quiet(p, a', b') && p[b'].t - p[a'].t > limit;
  }

  lemma {:induction false} AcrossIsJoined(p: seq<Point>, r: nat, limit: int, a: int, b: int)
    requires 0 <= a < r <= b < |p| - 1
    ensures Quiet(Without(p, r), a, b) && Without(p, r)[b].t - Without(p, r)[a].t > limit <==>
            JoinsBeyond(p, r, limit, a, b + 1)
  {
    QuietAcross(p, r, a, b);
    assert Without(p, r)[a] == p[a] && Without(p, r)[b] == p[b + 1];
  }

  ghost predicate Z4LossIsAFinding(j: seq<Sample>, restageMax: int, i: nat)
    requires i < |j|
  {
    AnchorPoint(j[i]).Some? && StallsJoin(Keep(j, AnchorPoint), Rank(j, AnchorPoint, i), restageMax)
  }

  /**
   * Z4 breaks the promise: a lost anchor or bundle measurement is reported as a finding exactly when the mtime did
   * not grow across the lost point and the quiet stretches on either side of it join beyond the limit.
   */
  lemma {:induction false} Z4AfterLoss(j: seq<Sample>, restageMax: int, i: nat, field: Field)
    requires i < |j| && Z4State(j, restageMax) != FAIL
    ensures Z4State(Lost(j, i, field), restageMax) ==
      if !FeedsZ4(field) then Z4State(j, restageMax)
      else if Z4LossIsAFinding(j, restageMax, i) then FAIL
      else UNKNOWN
  {
    var x := Erase(j[i], field);
    AnchorErased(j[i], field);
    Z4StateIs(j, restageMax);
    Z4StateIs(j[i := x], restageMax);
    NotViolatedAt(j, AnchorGrade, i);
    if FeedsZ4(field) {
      NoNewViolation(j, AnchorGrade, i, x);
      KeepLost(j, AnchorPoint, i, x);
      if AnchorPoint(j[i]).Some? {
        AnchorLost(Keep(j, AnchorPoint), Rank(j, AnchorPoint, i), restageMax);
      }
    } else {
      SameGrades(j, AnchorGrade, i, x);
      KeepSame(j, AnchorPoint, i, x);
    }
  }

  /** The stall Z4 reports of a series of mtimes. */
  ghost predicate AnchorsFail(p: seq<Point>, restageMax: int)
  {
    |p| >= 2 && StalledBeyond(p, restageMax)
  }

  lemma {:induction false} Z4StateIs(j: seq<Sample>, restageMax: int)
    ensures var p := Keep(j, AnchorPoint);
      Z4State(j, restageMax) ==
        Settled(Any(j, AnchorGrade, Violated) || AnchorsFail(p, restageMax), Any(j, AnchorGrade, Gap) || |p| < 2)
  {
  }

  lemma {:induction false} AnchorErased(s: Sample, field: Field)
    ensures var x := Erase(s, field);
      && (FeedsZ4(field) ==> AnchorPoint(x).None?)
      && (FeedsZ4(field) && AnchorGrade(s) != Violated ==> AnchorGrade(x) == Gap)
      && (!FeedsZ4(field) ==> AnchorPoint(x) == AnchorPoint(s) && AnchorGrade(x) == AnchorGrade(s))
  {
  }

  lemma {:induction false} AnchorLost(p: seq<Point>, r: nat, restageMax: int)
    requires r < |p| && !AnchorsFail(p, restageMax)
    ensures AnchorsFail(Without(p, r), restageMax) <==> StallsJoin(p, r, restageMax)
  {
    if |p| >= 2 {
      StalledWithoutIff(p, r, restageMax);
    }
  }

  /** Where the anchor's mtime never goes backwards, no lost measurement makes Z4 fail. */
  lemma {:induction false} GrowingAnchorLossIsNoFinding(j: seq<Sample>, restageMax: int, i: nat, field: Field)
    requires i < |j| && Z4State(j, restageMax) != FAIL && !SomeFall(Keep(j, AnchorPoint))
    ensures Z4State(Lost(j, i, field), restageMax) != FAIL
  {
    Z4AfterLoss(j, restageMax, i, field);
    var p, r := Keep(j, AnchorPoint), Rank(j, AnchorPoint, i);
    if Z4LossIsAFinding(j, restageMax, i) {
      KeepLost(j, AnchorPoint, i, Erase(j[i], AnchorStatus));
      WithoutNeverStalls(p, restageMax, r);
      StalledWithoutIff(p, r, restageMax);
      assert false;
    }
  }

  // ----------------------------------------------------------------------- F1

  function Change(a: Signing, b: Signing): nat
  {
    if a.signer != b.signer then 1 else 0
  }

  /** How many rotations can no longer be seen once signing r is gone. */
  function RotationsHidden(q: seq<Signing>, r: nat): int
    requires r < |q|
  {
    (if r > 0 then Change(q[r - 1], q[r]) else 0) +
    (if r < |q| - 1 then Change(q[r], q[r + 1]) else 0) -
    (if 0 < r < |q| - 1 then Change(q[r - 1], q[r + 1]) else 0)
  }

  lemma {:induction false} RotationsConcat(xs: seq<Signing>, ys: seq<Signing>)
    ensures Rotations(xs + ys) ==
            Rotations(xs) + Rotations(ys) + if xs != [] && ys != [] then Change(xs[|xs| - 1], ys[0]) else 0
  {
    if ys == [] {
      assert xs + ys == xs;
    } else {
      var all, rest := xs + ys, ys[..|ys| - 1];
      RotationsConcat(xs, rest);
      assert all[..|all| - 1] == xs + rest;
      if |ys| >= 2 {
        assert all[|all| - 2] == ys[|ys| - 2];
      } else {
        assert xs != [] ==> all[|all| - 2] == xs[|xs| - 1];
      }
    }
  }

  lemma {:induction false} RotationsWithout(q: seq<Signing>, r: nat)
    requires r < |q|
    ensures Rotations(Without(q, r)) == Rotations(q) - RotationsHidden(q, r)
  {
    var before, after := q[..r], q[r + 1..];
    assert q == (before + [q[r]]) + after;
    RotationsConcat(before + [q[r]], after);
    RotationsConcat(before, [q[r]]);
    RotationsConcat(before, after);
  }

  /** The change of signer across the lost signing was not survived, and the loss brings it to light. */
  predicate LostRotationExposed(q: seq<Signing>, r: int)
  {
    0 < r < |q| - 1 && q[r - 1].signer != q[r + 1].signer && !q[r + 1].survived
  }

  /** The rotations that remain visible are too few for the span that remains. */
  predicate TooFewRemain(q: seq<Signing>, r: int, minRotations: int, requiredSpan: int)
  {
    && 0 <= r < |q| && |q| >= 3
    && Rotations(q) - RotationsHidden(q, r) < minRotations
    && q[if r == |q| - 1 then |q| - 2 else |q| - 1].t - q[if r == 0 then 1 else 0].t >= requiredSpan
  }

  /** Two neighbours of the shortened sequence were neighbours before, unless the lost signing stood between them. */
  lemma {:induction false} RotatesWithout(q: seq<Signing>, r: nat, k: int)
    requires r < |q| && 0 < k < |q| - 1
    ensures var w := Without(q, r);
      && w[k] == q[Shifted(k, r)]
      && (k != r ==> (Rotates(w, k) <==> Rotates(q, Shifted(k, r))))
      && (k == r ==> (Rotates(w, k) <==> q[r - 1].signer != q[r + 1].signer))
  {
    var w := Without(q, r);
    assert w[k - 1] == q[Shifted(k - 1, r)] && w[k] == q[Shifted(k, r)];
  }

  lemma {:induction false} RotationLostWithoutIff(q: seq<Signing>, r: nat)
    requires r < |q| && !SomeRotationLost(q)
    ensures SomeRotationLost(Without(q, r)) <==> LostRotationExposed(q, r)
  {
    var w := Without(q, r);
    if SomeRotationLost(w) {
      var k :| Rotates(w, k) && !w[k].survived;
      RotatesWithout(q, r, k);
    }
    if LostRotationExposed(q, r) {
      RotatesWithout(q, r, r);
      assert Rotates(w, r) && !w[r].survived;
    }
  }

  ghost predicate F1LossIsAFinding(j: seq<Sample>, minRotations: int, rotationPeriod: int, i: nat)
    requires i < |j|
  {
    var q, r := Keep(j, SigningOf), Rank(j, SigningOf, i);
    SigningOf(j[i]).Some? && (LostRotationExposed(q, r) || TooFewRemain(q, r, minRotations, minRotations * rotationPeriod))
  }

  /** The violation F1 reports of a signing sequence. */
  ghost predicate RotationsFail(q: seq<Signing>, minRotations: int, requiredSpan: int)
  {
    |q| >= 2 && (SomeRotationLost(q) || (Rotations(q) < minRotations && q[|q| - 1].t - q[0].t >= requiredSpan))
  }

  /** The violation F1 reports, read off the signings. */
  lemma {:induction false} F1StateIs(j: seq<Sample>, minRotations: int, rotationPeriod: int)
    ensures var q := Keep(j, SigningOf);
      F1State(j, minRotations, rotationPeriod) ==
        Settled(RotationsFail(q, minRotations, minRotations * rotationPeriod),
                Any(j, SigningGrade, Gap) || |q| < 2 || Rotations(q) < minRotations)
  {
  }

  /** Erasing what F1 reads either leaves a gap or touches a sample F1 passes over anyway. */
  lemma {:induction false} SigningErased(s: Sample, field: Field)
    ensures var x := Erase(s, field);
      && (FeedsF1(field) ==> SigningOf(x).None?)
      && (FeedsF1(field) && SigningOf(s).Some? ==> SigningGrade(x) == Gap)
      && (SigningGrade(x) == Gap || SigningGrade(x) == Sound == SigningGrade(s))
      && (!FeedsF1(field) ==> SigningOf(x) == SigningOf(s) && SigningGrade(x) == SigningGrade(s))
  {
  }

  /**
   * F1 breaks the promise: a lost signing is reported as a finding exactly when its loss exposes a rotation that was
   * not survived, or leaves fewer rotations visible than the remaining span demands.
   */
  lemma {:induction false} F1AfterLoss(j: seq<Sample>, minRotations: int, rotationPeriod: int, i: nat, field: Field)
    requires i < |j| && F1State(j, minRotations, rotationPeriod) != FAIL
    ensures F1State(Lost(j, i, field), minRotations, rotationPeriod) ==
      if !FeedsF1(field) then F1State(j, minRotations, rotationPeriod)
      else if F1LossIsAFinding(j, minRotations, rotationPeriod, i) then FAIL
      else if SigningGrade(Erase(j[i], field)) == Gap then UNKNOWN
      else F1State(j, minRotations, rotationPeriod)
  {
    var x := Erase(j[i], field);
    SigningErased(j[i], field);
    F1StateIs(j, minRotations, rotationPeriod);
    F1StateIs(j[i := x], minRotations, rotationPeriod);
    if SigningGrade(x) == Gap {
      GapAt(j, SigningGrade, i, x);
    } else {
      SameGrade(j, SigningGrade, i, x, Gap);
    }
    if FeedsF1(field) {
      KeepLost(j, SigningOf, i, x);
      if SigningOf(j[i]).Some? {
        SigningLost(Keep(j, SigningOf), Rank(j, SigningOf, i), minRotations, minRotations * rotationPeriod);
      }
    } else {
      SameGrade(j, SigningGrade, i, x, Gap);
      KeepSame(j, SigningOf, i, x);
    }
  }

  lemma {:induction false} SigningLost(q: seq<Signing>, r: nat, minRotations: int, requiredSpan: int)
    requires r < |q| && !RotationsFail(q, minRotations, requiredSpan)
    ensures RotationsFail(Without(q, r), minRotations, requiredSpan) <==>
            LostRotationExposed(q, r) || TooFewRemain(q, r, minRotations, requiredSpan)
  {
    if |q| >= 2 {
      RotationLostWithoutIff(q, r);
    }
    TooFewWithoutIff(q, r, minRotations, requiredSpan);
  }

  lemma {:induction false} TooFewWithoutIff(q: seq<Signing>, r: nat, minRotations: int, requiredSpan: int)
    requires r < |q|
    ensures var w := Without(q, r);
      |w| >= 2 && Rotations(w) < minRotations && w[|w| - 1].t - w[0].t >= requiredSpan <==>
        TooFewRemain(q, r, minRotations, requiredSpan)
  {
    var w := Without(q, r);
    RotationsWithout(q, r);
    if |w| >= 2 {
      assert w[0] == q[if r == 0 then 1 else 0];
      assert w[|w| - 1] == q[if r == |q| - 1 then |q| - 2 else |q| - 1];
    }
  }

  // ------------------------------------------------- no standing judgement turns green

  lemma {:induction false} UnsoundIsNotGreen(j: seq<Sample>, grade: Sample -> Grade, i: nat, x: Sample)
    requires i < |j| && grade(x) != Sound
    ensures Any(j[i := x], grade, Violated) || Any(j[i := x], grade, Gap)
  {
    AnyMeaning(j[i := x], grade, Violated);
    AnyMeaning(j[i := x], grade, Gap);
    assert j[i := x][i] == x;
  }

  /** Whatever the series was, a loss that Z1 reads leaves it short of green; any other loss is not noticed. */
  lemma {:induction false} Z1NeverRestored(j: seq<Sample>, i: nat, field: Field)
    requires i < |j|
    ensures Z1State(Lost(j, i, field)) == PASS ==> !FeedsZ1(field) && Z1State(j) == PASS
  {
    var x := Erase(j[i], field);
    if FeedsZ1(field) {
      UnsoundIsNotGreen(j, Z1Grade, i, x);
    } else {
      SameGrades(j, Z1Grade, i, x);
    }
  }

  /** The same for Z2, ... */
  lemma {:induction false} Z2NeverRestored(j: seq<Sample>, maxStall: int, i: nat, field: Field)
    requires i < |j|
    ensures Z2State(Lost(j, i, field), maxStall) == PASS ==> !FeedsZ2(field) && Z2State(j, maxStall) == PASS
  {
    var x := Erase(j[i], field);
    if FeedsZ2(field) {
      UnsoundIsNotGreen(j, ExpiryGrade, i, x);
    } else {
      SameGrades(j, ExpiryGrade, i, x);
      KeepSame(j, ExpiryPoint, i, x);
    }
  }

  /** ... Z3, ... */
  lemma {:induction false} Z3NeverRestored(j: seq<Sample>, minSpan: int, i: nat, field: Field)
    requires i < |j|
    ensures Z3State(Lost(j, i, field), minSpan) == PASS ==> !FeedsZ3(field) && Z3State(j, minSpan) == PASS
  {
    var x := Erase(j[i], field);
    if FeedsZ3(field) {
      UnsoundIsNotGreen(j, StateFileGrade, i, x);
    } else {
      SameGrades(j, StateFileGrade, i, x);
      KeepSame(j, StateFilePoint, i, x);
    }
  }

  /** ... and Z4. */
  lemma {:induction false} Z4NeverRestored(j: seq<Sample>, restageMax: int, i: nat, field: Field)
    requires i < |j|
    ensures Z4State(Lost(j, i, field), restageMax) == PASS ==> !FeedsZ4(field) && Z4State(j, restageMax) == PASS
  {
    var x := Erase(j[i], field);
    if FeedsZ4(field) {
      UnsoundIsNotGreen(j, AnchorGrade, i, x);
    } else {
      SameGrades(j, AnchorGrade, i, x);
      KeepSame(j, AnchorPoint, i, x);
    }
  }

  /** F1 is green after a loss only if it was green and never counted the sample on account of that field. */
  lemma {:induction false} F1NeverRestored(j: seq<Sample>, minRotations: int, rotationPeriod: int, i: nat, field: Field)
    requires i < |j| && F1State(Lost(j, i, field), minRotations, rotationPeriod) == PASS
    ensures F1State(j, minRotations, rotationPeriod) == PASS
  {
    var x := Erase(j[i], field);
    SigningErased(j[i], field);
    F1StateIs(j, minRotations, rotationPeriod);
    F1StateIs(j[i := x], minRotations, rotationPeriod);
    if SigningGrade(x) == Gap {
      GapAt(j, SigningGrade, i, x);
    } else {
      SameGrade(j, SigningGrade, i, x, Gap);
      KeepSame(j, SigningOf, i, x);
    }
  }

  // ------------------------------------------------------------- any number of losses

  datatype Loss = Loss(at: nat, field: Field)

  /** Every loss names a sample of the series. */
  predicate InSeries(j: seq<Sample>, losses: seq<Loss>)
  {
    forall k :: 0 <= k < |losses| ==> losses[k].at < |j|
  }

  /** The series with all these fields erased. */
  function LostAll(j: seq<Sample>, losses: seq<Loss>): (y: seq<Sample>)
    requires InSeries(j, losses)
    ensures |y| == |j|
  {
    if losses == [] then j
    else
      var last := losses[|losses| - 1];
      Lost(LostAll(j, losses[..|losses| - 1]), last.at, last.field)
  }

  ghost predicate SomeFeeds(losses: seq<Loss>, feeds: Field -> bool)
  {
    exists k :: 0 <= k < |losses| && feeds(losses[k].field)
  }

  lemma {:induction false} SomeFeedsPush(losses: seq<Loss>, feeds: Field -> bool)
    requires losses != []
    ensures SomeFeeds(losses, feeds) <==>
            SomeFeeds(losses[..|losses| - 1], feeds) || feeds(losses[|losses| - 1].field)
  {
    var rest := losses[..|losses| - 1];
    if SomeFeeds(rest, feeds) {
      var k :| 0 <= k < |rest| && feeds(rest[k].field);
      assert feeds(losses[k].field);
    }
    if SomeFeeds(losses, feeds) && !feeds(losses[|losses| - 1].field) {
      var k :| 0 <= k < |losses| && feeds(losses[k].field);
      assert feeds(rest[k].field);
    }
  }

  /** Whatever is lost, Z1 and Z2 never become findings: they are unknown as soon as anything they read is gone. */
  lemma {:induction false} Z1Z2AfterLosses(j: seq<Sample>, maxStall: int, losses: seq<Loss>)
    requires InSeries(j, losses) && Z1State(j) != FAIL && Z2State(j, maxStall) != FAIL
    ensures Z1State(LostAll(j, losses)) == if SomeFeeds(losses, FeedsZ1) then UNKNOWN else Z1State(j)
    ensures Z2State(LostAll(j, losses), maxStall) ==
            if SomeFeeds(losses, FeedsZ2) then UNKNOWN else Z2State(j, maxStall)
  {
    if losses != [] {
      var rest, last := losses[..|losses| - 1], losses[|losses| - 1];
      Z1Z2AfterLosses(j, maxStall, rest);
      SomeFeedsPush(losses, FeedsZ1);
      SomeFeedsPush(losses, FeedsZ2);
      Z1AfterLoss(LostAll(j, rest), last.at, last.field);
      Z2AfterLoss(LostAll(j, rest), maxStall, last.at, last.field);
    }
  }

  lemma {:induction false} AnchorStillGrows(j: seq<Sample>, i: nat, field: Field)
    requires i < |j| && !SomeFall(Keep(j, AnchorPoint))
    ensures !SomeFall(Keep(Lost(j, i, field), AnchorPoint))
  {
    var x := Erase(j[i], field);
    if FeedsZ4(field) {
      KeepLost(j, AnchorPoint, i, x);
      if AnchorPoint(j[i]).Some? {
        WithoutNeverFalls(Keep(j, AnchorPoint), Rank(j, AnchorPoint, i));
      }
    } else {
      KeepSame(j, AnchorPoint, i, x);
    }
  }

  /** Nor does Z4 over an anchor whose mtime never goes backwards. */
  lemma {:induction false} GrowingAnchorAfterLosses(j: seq<Sample>, restageMax: int, losses: seq<Loss>)
    requires InSeries(j, losses) && Z4State(j, restageMax) != FAIL && !SomeFall(Keep(j, AnchorPoint))
    ensures Z4State(LostAll(j, losses), restageMax) ==
            if SomeFeeds(losses, FeedsZ4) then UNKNOWN else Z4State(j, restageMax)
    ensures !SomeFall(Keep(LostAll(j, losses), AnchorPoint))
  {
    if losses != [] {
      var rest, last := losses[..|losses| - 1], losses[|losses| - 1];
      GrowingAnchorAfterLosses(j, restageMax, rest);
      SomeFeedsPush(losses, FeedsZ4);
      AnchorStillGrows(LostAll(j, rest), last.at, last.field);
      GrowingAnchorLossIsNoFinding(LostAll(j, rest), restageMax, last.at, last.field);
      Z4AfterLoss(LostAll(j, rest), restageMax, last.at, last.field);
    }
  }
}
