// The standing judgements and F1, decided from the recorded fields alone
// (scripts/acceptance/substrate_acceptance_window.py). No statement below mentions how a judgement grades a sample
// or collects its series.

module FieldLaws {
  import opened Sequences
  import opened Samples
  import opened Series
  import opened Readings
  import opened Assurances

  /** The status is neither `ok` nor a statement that the target is bad. */
  predicate Unanswered(status: Status)
  {
    status != Ok && status != TargetBad
  }

  // ----------------------------------------------------------------------- Z1

  /** Measured, and bad: nothing served, no authority set, or a chain that ends outside the bundle. */
  predicate ChainBad(s: Sample)
  {
    || s.svid == TargetBad
    || (s.svid == Ok && s.bundle == TargetBad)
    || (s.svid == Ok && s.bundle == Ok && s.chainAuthority.Some? && s.bundleIds.Some? &&
        s.chainAuthority.value !in s.bundleIds.value)
  }

  /** Not measured: a source that did not answer, or an answer without its value. */
  predicate ChainUnknown(s: Sample)
  {
    || Unanswered(s.svid)
    || (s.svid == Ok && Unanswered(s.bundle))
    || (s.svid == Ok && s.bundle == Ok && (s.chainAuthority.None? || s.bundleIds.None?))
  }

  lemma {:induction false} ChainGrades(s: Sample)
    ensures Z1Grade(s) == Violated <==> ChainBad(s)
    ensures Z1Grade(s) == Gap <==> ChainUnknown(s)
  {
  }

  /** Z1: a finding iff some sample is bad, unknown iff none is and something was not measured. */
  lemma {:induction false} Z1FromFields(samples: seq<Sample>)
    ensures Z1State(samples) == FAIL <==> exists i :: 0 <= i < |samples| && ChainBad(samples[i])
    ensures Z1State(samples) == UNKNOWN <==>
            && (forall i :: 0 <= i < |samples| ==> !ChainBad(samples[i]))
            && (samples == [] || exists i :: 0 <= i < |samples| && ChainUnknown(samples[i]))
  {
    AnyMeaning(samples, Z1Grade, Violated);
    AnyMeaning(samples, Z1Grade, Gap);
    forall i | 0 <= i < |samples|
      ensures Z1Grade(samples[i]) == Violated <==> ChainBad(samples[i])
      ensures Z1Grade(samples[i]) == Gap <==> ChainUnknown(samples[i])
    {
      ChainGrades(samples[i]);
    }
  }

  // ----------------------------------------------------------------------- Z2

  /** The expiry a sample shows: an SVID was served and its expiry measured. */
  function ShownExpiry(s: Sample): Option<Point>
  {
    if s.svid == Ok && s.notAfter.Some? then Some(Point(s.at, s.notAfter.value)) else None
  }

  /** Z2: nothing served, a fall between consecutive expiries, or a stretch beyond the tolerance without a rise. */
  lemma {:induction false} Z2FromFields(samples: seq<Sample>, maxStall: int)
    ensures Z2State(samples, maxStall) == FAIL <==>
            || (exists i :: 0 <= i < |samples| && samples[i].svid == TargetBad)
            || (ReadTwice(samples, ShownExpiry) &&
                (Fell(samples, ShownExpiry) || StoodStill(samples, ShownExpiry, maxStall)))
    ensures Z2State(samples, maxStall) == UNKNOWN <==>
            && Z2State(samples, maxStall) != FAIL
            && (|| (exists i :: 0 <= i < |samples| &&
                      (Unanswered(samples[i].svid) || (samples[i].svid == Ok && samples[i].notAfter.None?)))
                || !ReadTwice(samples, ShownExpiry)
                || !Rose(samples, ShownExpiry))
  {
    AnyMeaning(samples, ExpiryGrade, Violated);
    AnyMeaning(samples, ExpiryGrade, Gap);
    KeepCongruent(samples, ExpiryPoint, samples, ShownExpiry);
    FellIff(samples, ShownExpiry);
    RoseIff(samples, ShownExpiry);
    StoodStillIff(samples, ShownExpiry, maxStall);
    ReadTwiceIff(samples, ShownExpiry);
  }

  // ----------------------------------------------------------------------- Z3

  function ShownWrite(s: Sample): Option<Point>
  {
    if s.agentData == Ok && s.agentMtime.Some? then Some(Point(s.at, s.agentMtime.value)) else None
  }

  /** From the first reading of the state file to the last there is more time than the floor. */
  ghost predicate WatchedBeyond(samples: seq<Sample>, minSpan: int)
  {
    exists i, j :: FirstAndLast(samples, ShownWrite, i, j) && samples[j].at - samples[i].at > minSpan
  }

  lemma {:induction false} WatchedBeyondIff(samples: seq<Sample>, minSpan: int)
    ensures var p := Keep(samples, ShownWrite);
      WatchedBeyond(samples, minSpan) <==> p != [] && p[|p| - 1].t - p[0].t > minSpan
  {
    if i, j :| FirstAndLast(samples, ShownWrite, i, j) && samples[j].at - samples[i].at > minSpan {
      FirstAndLastAre(samples, ShownWrite, i, j);
    }
    if Keep(samples, ShownWrite) != [] {
      var i, j := FirstAndLastExist(samples, ShownWrite);
      FirstAndLastAre(samples, ShownWrite, i, j);
    }
  }

  /** Z3: no state file, a fall, or no write between a first and a last reading further apart than the floor. */
  lemma {:induction false} Z3FromFields(samples: seq<Sample>, minSpan: int)
    ensures Z3State(samples, minSpan) == FAIL <==>
            || (exists i :: 0 <= i < |samples| && samples[i].agentData == TargetBad)
            || (ReadTwice(samples, ShownWrite) &&
                (Fell(samples, ShownWrite) || (!Rose(samples, ShownWrite) && WatchedBeyond(samples, minSpan))))
    ensures Z3State(samples, minSpan) == UNKNOWN <==>
            && Z3State(samples, minSpan) != FAIL
            && (|| (exists i :: 0 <= i < |samples| &&
                      (Unanswered(samples[i].agentData) || (samples[i].agentData == Ok && samples[i].agentMtime.None?)))
                || !ReadTwice(samples, ShownWrite)
                || !Rose(samples, ShownWrite))
  {
    WritesFailIff(samples, minSpan);
    WritesMoveIff(samples);
    AnyMeaning(samples, StateFileGrade, Violated);
    AnyMeaning(samples, StateFileGrade, Gap);
    Z3StateFrom(samples, minSpan);
  }

  /** What Z3 holds against a series of mtimes. */
  ghost predicate WritesFail(p: seq<Point>, minSpan: int)
  {
    |p| >= 2 && (SomeFall(p) || (!SomeRise(p) && p[|p| - 1].t - p[0].t > minSpan))
  }

  lemma {:induction false} Z3StateFrom(samples: seq<Sample>, minSpan: int)
    ensures var p, bad := Keep(samples, StateFilePoint), Any(samples, StateFileGrade, Violated);
      && (Z3State(samples, minSpan) == FAIL <==> bad || WritesFail(p, minSpan))
      && (Z3State(samples, minSpan) == UNKNOWN <==>
            && !bad && !WritesFail(p, minSpan)
            && (Any(samples, StateFileGrade, Gap) || |p| < 2 || !SomeRise(p)))
  {
  }

  lemma {:induction false} WritesMoveIff(samples: seq<Sample>)
    ensures var p := Keep(samples, StateFilePoint);
      (|p| >= 2 <==> ReadTwice(samples, ShownWrite)) && (SomeRise(p) <==> Rose(samples, ShownWrite))
  {
    KeepCongruent(samples, StateFilePoint, samples, ShownWrite);
    RoseIff(samples, ShownWrite);
    ReadTwiceIff(samples, ShownWrite);
  }

  lemma {:induction false} WritesFailIff(samples: seq<Sample>, minSpan: int)
    ensures WritesFail(Keep(samples, StateFilePoint), minSpan) <==>
            ReadTwice(samples, ShownWrite) &&
            (Fell(samples, ShownWrite) || (!Rose(samples, ShownWrite) && WatchedBeyond(samples, minSpan)))
  {
    WritesMoveIff(samples);
    KeepCongruent(samples, StateFilePoint, samples, ShownWrite);
    FellIff(samples, ShownWrite);
    WatchedBeyondIff(samples, minSpan);
  }

  // ----------------------------------------------------------------------- Z4

  /** The anchor itself was read completely. */
  predicate AnchorRead(s: Sample)
  {
    s.anchor == Ok && s.anchorIds.Some? && s.anchorMtime.Some?
  }

  /** The anchor is unusable, or was read beside no authority set or beside one it shares nothing with. */
  predicate AnchorBad(s: Sample)
  {
    || s.anchor == TargetBad
    || (AnchorRead(s) && s.bundle == TargetBad)
    || (AnchorRead(s) && s.bundle == Ok && s.bundleIds.Some? &&
        forall k :: 0 <= k < |s.anchorIds.value| ==> s.anchorIds.value[k] !in s.bundleIds.value)
  }

  predicate AnchorUnknown(s: Sample)
  {
    || Unanswered(s.anchor)
    || (s.anchor == Ok && (s.anchorIds.None? || s.anchorMtime.None?))
    || (AnchorRead(s) && (Unanswered(s.bundle) || (s.bundle == Ok && s.bundleIds.None?)))
  }

  function ShownAnchor(s: Sample): Option<Point>
  {
    if AnchorRead(s) && s.bundle == Ok && s.bundleIds.Some? then Some(Point(s.at, s.anchorMtime.value)) else None
  }

  lemma {:induction false} AnchorGrades(s: Sample)
    ensures AnchorGrade(s) == Violated <==> AnchorBad(s)
    ensures AnchorGrade(s) == Gap <==> AnchorUnknown(s)
    ensures AnchorPoint(s) == ShownAnchor(s)
  {
  }

  /** Z4: a bad anchor, or a stretch beyond the limit without a rewrite. */
  lemma {:induction false} Z4FromFields(samples: seq<Sample>, restageMax: int)
    ensures Z4State(samples, restageMax) == FAIL <==>
            || (exists i :: 0 <= i < |samples| && AnchorBad(samples[i]))
            || (ReadTwice(samples, ShownAnchor) && StoodStill(samples, ShownAnchor, restageMax))
    ensures Z4State(samples, restageMax) == UNKNOWN <==>
            && Z4State(samples, restageMax) != FAIL
            && ((exists i :: 0 <= i < |samples| && AnchorUnknown(samples[i])) || !ReadTwice(samples, ShownAnchor))
  {
    AnyMeaning(samples, AnchorGrade, Violated);
    AnyMeaning(samples, AnchorGrade, Gap);
    forall i | 0 <= i < |samples|
      ensures AnchorGrade(samples[i]) == Violated <==> AnchorBad(samples[i])
      ensures AnchorGrade(samples[i]) == Gap <==> AnchorUnknown(samples[i])
      ensures AnchorPoint(samples[i]) == ShownAnchor(samples[i])
    {
      AnchorGrades(samples[i]);
    }
    KeepCongruent(samples, AnchorPoint, samples, ShownAnchor);
    StoodStillIff(samples, ShownAnchor, restageMax);
    ReadTwiceIff(samples, ShownAnchor);
  }

  // ----------------------------------------------------------------------- F1

  /** A sample in which everything F1 compares was read. */
  function Shown(s: Sample): Option<Sample>
  {
    if s.svid == Ok && s.bundle == Ok && s.leafAuthority.Some? && s.chainAuthority.Some? && s.bundleIds.Some?
    then Some(s) else None
  }

  /** Between a and b, consecutive in that sense, the signer of the leaf changed. */
  ghost predicate SignerChanged(samples: seq<Sample>, a: int, b: int)
  {
    Adjacent(samples, Shown, a, b) && samples[a].leafAuthority != samples[b].leafAuthority
  }

  /** The chain of sample b ends inside its bundle. */
  predicate ChainHolds(s: Sample)
  {
    s.chainAuthority.Some? && s.bundleIds.Some? && s.chainAuthority.value in s.bundleIds.value
  }

  ghost predicate ChangedAt(samples: seq<Sample>, b: int)
  {
    exists a :: SignerChanged(samples, a, b)
  }

  ghost predicate SurvivedAt(samples: seq<Sample>, b: int)
  {
    0 <= b < |samples| && ChangedAt(samples, b) && ChainHolds(samples[b])
  }

  /** The samples at which a new signer is seen, and those of them at which the chain still holds. */
  ghost function ChangesBy(samples: seq<Sample>, n: nat): set<int>
  {
    Passing(n, b => ChangedAt(samples, b))
  }

  ghost function SurvivedBy(samples: seq<Sample>, n: nat): set<int>
  {
    Passing(n, b => SurvivedAt(samples, b))
  }

  lemma {:induction false} ShownIsSigning(s: Sample)
    ensures SigningOf(s).Some? <==> Shown(s).Some?
    ensures Shown(s).Some? ==>
              && SigningOf(s).value.t == s.at && Some(SigningOf(s).value.signer) == s.leafAuthority
              && (SigningOf(s).value.survived <==> ChainHolds(s))
  {
  }

  lemma {:induction false} AdjacentSignings(samples: seq<Sample>, a: int, b: int)
    ensures Adjacent(samples, Shown, a, b) <==> Adjacent(samples, SigningOf, a, b)
  {
    forall q | 0 <= q < |samples|
      ensures SigningOf(samples[q]).Some? <==> Shown(samples[q]).Some?
    {
      ShownIsSigning(samples[q]);
    }
  }

  /** Sample n shows a change iff it is read and differs from the last signing before it. */
  lemma {:induction false} ChangedAtIff(samples: seq<Sample>, n: nat)
    requires n < |samples|
    ensures var q := Keep(samples[..n], SigningOf);
      ChangedAt(samples, n) <==>
        q != [] && SigningOf(samples[n]).Some? && q[|q| - 1].signer != SigningOf(samples[n]).value.signer
  {
    var before := samples[..n];
    var q := Keep(before, SigningOf);
    ShownIsSigning(samples[n]);
    if q == [] {
      KeepEmpty(before, SigningOf);
    } else {
      var l := KeepLast(before, SigningOf);
      ShownIsSigning(samples[l]);
      if SigningOf(samples[n]).Some? {
        assert forall k :: l < k < n ==> before[k] == samples[k];
        assert Adjacent(samples, SigningOf, l, n);
        AdjacentSignings(samples, l, n);
        assert SignerChanged(samples, l, n) <==> q[|q| - 1].signer != SigningOf(samples[n]).value.signer;
      }
    }
    forall a | SignerChanged(samples, a, n)
      ensures q != [] && SigningOf(samples[n]).Some? && q[|q| - 1].signer != SigningOf(samples[n]).value.signer
    {
      ChangeIsFromLast(samples, a, n);
    }
  }

  lemma {:induction false} ChangeIsFromLast(samples: seq<Sample>, a: nat, n: nat)
    requires SignerChanged(samples, a, n)
    ensures var q := Keep(samples[..n], SigningOf);
      q != [] && SigningOf(samples[n]).Some? && q[|q| - 1].signer != SigningOf(samples[n]).value.signer
  {
    var before := samples[..n];
    AdjacentSignings(samples, a, n);
    ShownIsSigning(samples[a]);
    ShownIsSigning(samples[n]);
    RankIsPosition(before, SigningOf, a);
    var l := KeepLast(before, SigningOf);
    assert before[a] == samples[a] && before[l] == samples[l];
    assert l == a;
  }

  lemma {:induction false} RotationsPush(q: seq<Signing>, x: Signing)
    ensures Rotations(q + [x]) == Rotations(q) + if q != [] && q[|q| - 1].signer != x.signer then 1 else 0
    ensures SurvivedRotations(q + [x]) ==
            SurvivedRotations(q) + if q != [] && q[|q| - 1].signer != x.signer && x.survived then 1 else 0
  {
    assert (q + [x])[..|q|] == q;
  }

  /** The same sets counted one sample at a time. */
  ghost function ChangeCount(samples: seq<Sample>, n: nat): nat
    requires n <= |samples|
  {
    if n == 0 then 0 else ChangeCount(samples, n - 1) + if ChangedAt(samples, n - 1) then 1 else 0
  }

  ghost function SurvivedCount(samples: seq<Sample>, n: nat): nat
    requires n <= |samples|
  {
    if n == 0 then 0
    else SurvivedCount(samples, n - 1) + if ChangedAt(samples, n - 1) && ChainHolds(samples[n - 1]) then 1 else 0
  }

  lemma {:induction false} ChangesCounted(samples: seq<Sample>, n: nat)
    requires n <= |samples|
    ensures |ChangesBy(samples, n)| == ChangeCount(samples, n)
  {
    var test := b => ChangedAt(samples, b);
    if n == 0 {
      assert Passing(0, test) == {};
    } else {
      ChangesCounted(samples, n - 1);
      PassingNext(n - 1, test);
    }
  }

  lemma {:induction false} SurvivorsCounted(samples: seq<Sample>, n: nat)
    requires n <= |samples|
    ensures |SurvivedBy(samples, n)| == SurvivedCount(samples, n)
  {
    var test := b => SurvivedAt(samples, b);
    if n == 0 {
      assert Passing(0, test) == {};
    } else {
      SurvivorsCounted(samples, n - 1);
      PassingNext(n - 1, test);
    }
  }

  lemma {:induction false} CountsNext(samples: seq<Sample>, m: nat)
    requires m < |samples|
    ensures var q, q' := Keep(samples[..m], SigningOf), Keep(samples[..m + 1], SigningOf);
      && Rotations(q') == Rotations(q) + (if ChangedAt(samples, m) then 1 else 0)
      && SurvivedRotations(q') ==
         SurvivedRotations(q) + if ChangedAt(samples, m) && ChainHolds(samples[m]) then 1 else 0
  {
    var q := Keep(samples[..m], SigningOf);
    ChangedAtIff(samples, m);
    KeepNext(samples, SigningOf, m);
    ShownIsSigning(samples[m]);
    if SigningOf(samples[m]).Some? {
      RotationsPush(q, SigningOf(samples[m]).value);
    } else {
      assert Keep(samples[..m + 1], SigningOf) == q;
    }
  }

  lemma {:induction false} CountsAreCounted(samples: seq<Sample>, n: nat)
    requires n <= |samples|
    ensures Rotations(Keep(samples[..n], SigningOf)) == ChangeCount(samples, n)
    ensures SurvivedRotations(Keep(samples[..n], SigningOf)) == SurvivedCount(samples, n)
  {
    if n > 0 {
      CountsAreCounted(samples, n - 1);
      CountsNext(samples, n - 1);
    }
  }

  /** F1's two counts are the numbers of those samples. */
  lemma {:induction false} CountsAreChanges(samples: seq<Sample>, n: nat)
    requires n <= |samples|
    ensures var q := Keep(samples[..n], SigningOf);
      Rotations(q) == |ChangesBy(samples, n)| && SurvivedRotations(q) == |SurvivedBy(samples, n)|
  {
    CountsAreCounted(samples, n);
    ChangesCounted(samples, n);
    SurvivorsCounted(samples, n);
  }

  /** A rotation is lost iff the signer changed at a sample whose chain does not hold. */
  lemma {:induction false} RotationLostIff(samples: seq<Sample>)
    ensures SomeRotationLost(Keep(samples, SigningOf)) <==>
            exists a, b :: SignerChanged(samples, a, b) && !ChainHolds(samples[b])
  {
    var q := Keep(samples, SigningOf);
    if k :| Rotates(q, k) && !q[k].survived {
      var a, b := NeighboursAreAdjacent(samples, SigningOf, k);
      AdjacentSignings(samples, a, b);
      ShownIsSigning(samples[a]);
      ShownIsSigning(samples[b]);
      assert SignerChanged(samples, a, b);
    }
    if a: nat, b: nat :| SignerChanged(samples, a, b) && !ChainHolds(samples[b]) {
      AdjacentSignings(samples, a, b);
      AdjacentAreNeighbours(samples, SigningOf, a, b);
      ShownIsSigning(samples[a]);
      ShownIsSigning(samples[b]);
      assert Rotates(q, Rank(samples, SigningOf, b));
    }
  }

  /** What F1 needs of a sample that serves an SVID and was not read. */
  predicate SigningUnknown(s: Sample)
  {
    || Unanswered(s.svid)
    || (s.svid == Ok && s.leafAuthority.None?)
    || (s.svid == Ok && s.leafAuthority.Some? && Unanswered(s.bundle))
    || (s.svid == Ok && s.leafAuthority.Some? && s.bundle == Ok && (s.chainAuthority.None? || s.bundleIds.None?))
  }

  /** Fewer signers were seen to change than required, over a span in which they were due. */
  ghost predicate TooFewChanges(samples: seq<Sample>, minRotations: int, span: int)
  {
    && |ChangesBy(samples, |samples|)| < minRotations
    && exists i, j :: FirstAndLast(samples, Shown, i, j) && samples[j].at - samples[i].at >= span
  }

  lemma {:induction false} SpanOfSignings(samples: seq<Sample>, span: int)
    ensures var q := Keep(samples, SigningOf);
      (exists i, j :: FirstAndLast(samples, Shown, i, j) && samples[j].at - samples[i].at >= span) <==>
        q != [] && q[|q| - 1].t - q[0].t >= span
  {
    forall s: Sample
      ensures SigningOf(s).Some? <==> Shown(s).Some?
      ensures Shown(s).Some? ==> SigningOf(s).value.t == s.at
    {
      ShownIsSigning(s);
    }
    if i, j :| FirstAndLast(samples, Shown, i, j) && samples[j].at - samples[i].at >= span {
      FirstAndLastAre(samples, SigningOf, i, j);
    }
    if Keep(samples, SigningOf) != [] {
      var i, j := FirstAndLastExist(samples, SigningOf);
      FirstAndLastAre(samples, SigningOf, i, j);
      assert FirstAndLast(samples, Shown, i, j);
    }
  }

  ghost predicate ShownTwice(samples: seq<Sample>)
  {
    exists i, j :: 0 <= i < j < |samples| && Shown(samples[i]).Some? && Shown(samples[j]).Some?
  }

  lemma {:induction false} ShownTwiceIff(samples: seq<Sample>)
    ensures |Keep(samples, SigningOf)| >= 2 <==> ShownTwice(samples)
  {
    ReadTwiceIff(samples, SigningOf);
    forall s: Sample
      ensures SigningOf(s).Some? <==> Shown(s).Some?
    {
      ShownIsSigning(s);
    }
  }

  /** F1's counts: the samples at which the signer changed, and those of them at which the chain still held. */
  lemma {:induction false} F1CountsFromFields(samples: seq<Sample>)
    ensures var q := Keep(samples, SigningOf);
      && Rotations(q) == |ChangesBy(samples, |samples|)|
      && SurvivedRotations(q) == |SurvivedBy(samples, |samples|)|
  {
    CountsAreChanges(samples, |samples|);
    assert samples[..|samples|] == samples;
  }

  /** F1: a change of signer at which the chain does not hold, or too few changes for the span. */
  lemma {:induction false} F1FromFields(samples: seq<Sample>, minRotations: int, rotationPeriod: int)
    ensures F1State(samples, minRotations, rotationPeriod) == FAIL <==>
            && ShownTwice(samples)
            && (|| (exists a, b :: SignerChanged(samples, a, b) && !ChainHolds(samples[b]))
                || TooFewChanges(samples, minRotations, minRotations * rotationPeriod))
    ensures F1State(samples, minRotations, rotationPeriod) == UNKNOWN <==>
            && F1State(samples, minRotations, rotationPeriod) != FAIL
            && (|| (exists i :: 0 <= i < |samples| && SigningUnknown(samples[i]))
                || !ShownTwice(samples)
                || |ChangesBy(samples, |samples|)| < minRotations)
  {
    var q := Keep(samples, SigningOf);
    SigningsFailIff(samples, minRotations, minRotations * rotationPeriod);
    SigningsUnknownIff(samples);
    ShownTwiceIff(samples);
    CountsAreChanges(samples, |samples|);
    assert samples[..|samples|] == samples;
    F1StateFrom(samples, minRotations, rotationPeriod, minRotations * rotationPeriod);
  }

  /** What F1 holds against a series of signings. */
  ghost predicate SigningsFail(q: seq<Signing>, minRotations: int, span: int)
  {
    |q| >= 2 && (SomeRotationLost(q) || (Rotations(q) < minRotations && q[|q| - 1].t - q[0].t >= span))
  }

  lemma {:induction false} F1StateFrom(samples: seq<Sample>, minRotations: int, rotationPeriod: int, span: int)
    requires span == minRotations * rotationPeriod
    ensures var q := Keep(samples, SigningOf);
      && (F1State(samples, minRotations, rotationPeriod) == FAIL <==> SigningsFail(q, minRotations, span))
      && (F1State(samples, minRotations, rotationPeriod) == UNKNOWN <==>
            && !SigningsFail(q, minRotations, span)
            && (Any(samples, SigningGrade, Gap) || |q| < 2 || Rotations(q) < minRotations))
  {
  }

  lemma {:induction false} SigningsUnknownIff(samples: seq<Sample>)
    ensures Any(samples, SigningGrade, Gap) <==> exists i :: 0 <= i < |samples| && SigningUnknown(samples[i])
  {
    AnyMeaning(samples, SigningGrade, Gap);
    forall i | 0 <= i < |samples|
      ensures SigningGrade(samples[i]) == Gap <==> SigningUnknown(samples[i])
    {
    }
  }

  lemma {:induction false} SigningsFailIff(samples: seq<Sample>, minRotations: int, span: int)
    ensures SigningsFail(Keep(samples, SigningOf), minRotations, span) <==>
            && ShownTwice(samples)
            && (|| (exists a, b :: SignerChanged(samples, a, b) && !ChainHolds(samples[b]))
                || TooFewChanges(samples, minRotations, span))
  {
    RotationLostIff(samples);
    ShownTwiceIff(samples);
    SpanOfSignings(samples, span);
    CountsAreChanges(samples, |samples|);
    assert samples[..|samples|] == samples;
  }
}
