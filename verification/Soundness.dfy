// What a PASS window establishes, stated sample by sample and pair by pair
// (scripts/acceptance/substrate_acceptance_window.py, evaluate and every judge_* it calls).

module Soundness {
  import opened Sequences
  import opened Samples
  import opened Episodes
  import opened Series
  import opened Assurances
  import opened Falsifications
  import opened Window

  // ------------------------------------------------ the meaning of a green window

  /** Every source answered, every value was measured, and the authorities match. */
  predicate Complete(s: Sample)
  {
    && s.svid == Ok && s.bundle == Ok && s.agentData == Ok && s.anchor == Ok
    && s.notAfter.Some? && s.chainAuthority.Some? && s.leafAuthority.Some? && s.bundleIds.Some?
    && s.agentMtime.Some? && s.anchorMtime.Some? && s.anchorIds.Some?
    && s.chainAuthority.value in s.bundleIds.value
    && (exists k :: 0 <= k < |s.anchorIds.value| && s.anchorIds.value[k] in s.bundleIds.value)
  }

  function ValueOf(v: Option<int>): int
  {
    if v.Some? then v.value else 0
  }

  /** The expiry never falls, and is strictly later across any distance beyond the tolerance. */
  ghost predicate ExpiryMoves(j: seq<Sample>, maxStall: int)
    requires j != []
  {
    && (forall i, k :: 0 <= i <= k < |j| ==> ValueOf(j[i].notAfter) <= ValueOf(j[k].notAfter))
    && (forall i, k :: 0 <= i <= k < |j| && j[k].at - j[i].at > maxStall ==>
          ValueOf(j[i].notAfter) < ValueOf(j[k].notAfter))
    && ValueOf(j[0].notAfter) < ValueOf(j[|j| - 1].notAfter)
  }

  /** The state file's mtime never falls and is later at the end than at the start. */
  ghost predicate StateFileMoves(j: seq<Sample>)
    requires j != []
  {
    && (forall i, k :: 0 <= i <= k < |j| ==> ValueOf(j[i].agentMtime) <= ValueOf(j[k].agentMtime))
    && ValueOf(j[0].agentMtime) < ValueOf(j[|j| - 1].agentMtime)
  }

  /** The anchor was rewritten at sample k. */
  ghost predicate Restaged(j: seq<Sample>, k: int)
  {
    0 < k < |j| && ValueOf(j[k - 1].anchorMtime) < ValueOf(j[k].anchorMtime)
  }

  /** Between any two judged samples further apart than the limit, the anchor was rewritten. */
  ghost predicate AnchorStaysFresh(j: seq<Sample>, restageMax: int)
  {
    forall i, k :: 0 <= i <= k < |j| && j[k].at - j[i].at > restageMax ==>
      exists q :: i < q <= k && Restaged(j, q)
  }

  /** How many judged samples carry a signer other than their predecessor's. */
  function SignerChanges(j: seq<Sample>): nat
  {
    if |j| < 2 then 0
    else SignerChanges(j[..|j| - 1]) + if j[|j| - 2].leafAuthority != j[|j| - 1].leafAuthority then 1 else 0
  }

  ghost predicate StandingHolds(j: seq<Sample>, lim: Limits)
  {
    && |j| >= 2
    && (forall i :: 0 <= i < |j| ==> Complete(j[i]))
    && ExpiryMoves(j, lim.maxStall)
    && StateFileMoves(j)
    && AnchorStaysFresh(j, lim.restageMax)
    && SignerChanges(j) >= lim.minRotations
  }

  // ------------------------------------------------------------ per judgement

  ghost predicate AllSound(j: seq<Sample>, grade: Sample -> Grade)
  {
    forall i :: 0 <= i < |j| ==> grade(j[i]) == Sound
  }

  lemma {:induction false} AllSoundIff(j: seq<Sample>, grade: Sample -> Grade)
    ensures AllSound(j, grade) <==> !Any(j, grade, Violated) && !Any(j, grade, Gap)
  {
    AnyMeaning(j, grade, Violated);
    AnyMeaning(j, grade, Gap);
  }

  lemma {:induction false} RisingIffExpiryMoves(p: seq<Point>, j: seq<Sample>, maxStall: int)
    requires |p| == |j| >= 2 && forall i :: 0 <= i < |j| ==> p[i] == Point(j[i].at, ValueOf(j[i].notAfter))
    ensures KeepsRising(p, maxStall) <==> ExpiryMoves(j, maxStall)
  {
  }

  lemma {:induction false} Z2PassIff(j: seq<Sample>, maxStall: int)
    ensures Z2State(j, maxStall) == PASS <==> |j| >= 2 && AllSound(j, ExpiryGrade) && ExpiryMoves(j, maxStall)
  {
    AllSoundIff(j, ExpiryGrade);
    if AllSound(j, ExpiryGrade) {
      KeepAll(j, ExpiryPoint);
      var p := Keep(j, ExpiryPoint);
      if |j| >= 2 {
        KeepsRisingIff(p, maxStall);
        RisingIffExpiryMoves(p, j, maxStall);
      }
    }
  }

  lemma {:induction false} Z3PassIff(j: seq<Sample>, minSpan: int)
    ensures Z3State(j, minSpan) == PASS <==> |j| >= 2 && AllSound(j, StateFileGrade) && StateFileMoves(j)
  {
    AllSoundIff(j, StateFileGrade);
    if AllSound(j, StateFileGrade) {
      KeepAll(j, StateFilePoint);
      var p := Keep(j, StateFilePoint);
      assert forall i :: 0 <= i < |j| ==> p[i] == Point(j[i].at, ValueOf(j[i].agentMtime));
      if |j| >= 2 {
        if SomeFall(p) {
          var k :| Falls(p, k);
          assert ValueOf(j[k].agentMtime) < ValueOf(j[k - 1].agentMtime);
        } else {
          RiseIsGain(p);
          forall i, k | 0 <= i <= k < |j|
            ensures ValueOf(j[i].agentMtime) <= ValueOf(j[k].agentMtime)
          {
            MonotoneWithoutFalls(p, i, k);
          }
        }
      }
    }
  }

  lemma {:induction false} Z4PassIff(j: seq<Sample>, restageMax: int)
    ensures Z4State(j, restageMax) == PASS <==>
            |j| >= 2 && AllSound(j, AnchorGrade) && AnchorStaysFresh(j, restageMax)
  {
    AllSoundIff(j, AnchorGrade);
    if AllSound(j, AnchorGrade) {
      KeepAll(j, AnchorPoint);
      var p := Keep(j, AnchorPoint);
      StalledIffNotFresh(p, j, restageMax);
    }
  }

  lemma {:induction false} StalledIffNotFresh(p: seq<Point>, j: seq<Sample>, restageMax: int)
    requires |p| == |j| && forall i :: 0 <= i < |j| ==> p[i] == Point(j[i].at, ValueOf(j[i].anchorMtime))
    ensures StalledBeyond(p, restageMax) <==> !AnchorStaysFresh(j, restageMax)
  {
    forall k: int
      ensures Rises(p, k) <==> Restaged(j, k)
    {
    }
    forall i, k | 0 <= i <= k < |j|
      ensures Quiet(p, i, k) <==> !exists q :: i < q <= k && Restaged(j, q)
    {
    }
  }

  /** F1's own count, where every judged sample is complete. A rotation it counts is then always survived. */
  lemma {:induction false} F1PassIff(j: seq<Sample>, minRotations: int, rotationPeriod: int)
    requires forall i :: 0 <= i < |j| ==> SigningGrade(j[i]) == Gap || Complete(j[i])
    ensures F1State(j, minRotations, rotationPeriod) == PASS <==>
            |j| >= 2 && AllSound(j, SigningGrade) && SignerChanges(j) >= minRotations
  {
    AllSoundIff(j, SigningGrade);
    AnyMeaning(j, SigningGrade, Violated);
    if AllSound(j, SigningGrade) {
      KeepAll(j, SigningOf);
      var q := Keep(j, SigningOf);
      forall i | 0 <= i < |j|
        ensures q[i].survived && Some(q[i].signer) == j[i].leafAuthority
      {
        assert SigningOf(j[i]).Some?;
      }
      RotationsAreSignerChanges(j, q);
    }
  }

  lemma {:induction false} RotationsAreSignerChanges(j: seq<Sample>, q: seq<Signing>)
    requires |q| == |j| && forall i :: 0 <= i < |j| ==> Some(q[i].signer) == j[i].leafAuthority
    ensures Rotations(q) == SignerChanges(j)
  {
    if |j| >= 2 {
      RotationsAreSignerChanges(j[..|j| - 1], q[..|j| - 1]);
    }
  }

  /** A sample is complete exactly when no standing judgement objects to it. */
  lemma {:induction false} CompleteIff(s: Sample)
    ensures Complete(s) <==>
            && Z1Grade(s) == Sound && ExpiryGrade(s) == Sound && StateFileGrade(s) == Sound
            && AnchorGrade(s) == Sound && SigningGrade(s) == Sound
  {
  }

  lemma {:induction false} Z1PassIff(j: seq<Sample>)
    ensures Z1State(j) == PASS <==> j != [] && AllSound(j, Z1Grade)
  {
    AllSoundIff(j, Z1Grade);
  }

  ghost predicate StandingPass(j: seq<Sample>, lim: Limits)
  {
    && Z1State(j) == PASS
    && Z2State(j, lim.maxStall) == PASS
    && Z3State(j, lim.minSpan) == PASS
    && Z4State(j, lim.restageMax) == PASS
    && F1State(j, lim.minRotations, lim.rotationPeriod) == PASS
  }

  /** The five standing judgements are green exactly when the standing assurances hold of every judged sample. */
  lemma {:induction false} StandingIff(j: seq<Sample>, lim: Limits)
    ensures StandingPass(j, lim) <==> StandingHolds(j, lim)
  {
    Z1PassIff(j);
    Z2PassIff(j, lim.maxStall);
    Z3PassIff(j, lim.minSpan);
    Z4PassIff(j, lim.restageMax);
    CompleteEverywhereIff(j);
    if |j| >= 2 && AllSound(j, Z1Grade) && AllSound(j, ExpiryGrade) && AllSound(j, StateFileGrade) && AllSound(j, AnchorGrade) {
      GapOrComplete(j);
      F1PassIff(j, lim.minRotations, lim.rotationPeriod);
    }
  }

  lemma {:induction false} CompleteEverywhereIff(j: seq<Sample>)
    ensures (forall i :: 0 <= i < |j| ==> Complete(j[i])) <==>
            && AllSound(j, Z1Grade) && AllSound(j, ExpiryGrade) && AllSound(j, StateFileGrade)
            && AllSound(j, AnchorGrade) && AllSound(j, SigningGrade)
  {
    forall i | 0 <= i < |j|
      ensures Complete(j[i]) <==>
              && Z1Grade(j[i]) == Sound && ExpiryGrade(j[i]) == Sound && StateFileGrade(j[i]) == Sound
              && AnchorGrade(j[i]) == Sound && SigningGrade(j[i]) == Sound
    {
      CompleteIff(j[i]);
    }
  }

  /** Once Z1..Z4 have nothing to object to, all F1 can still miss is the leaf's signer. */
  lemma {:induction false} GapOrComplete(j: seq<Sample>)
    requires AllSound(j, Z1Grade) && AllSound(j, ExpiryGrade) && AllSound(j, StateFileGrade) && AllSound(j, AnchorGrade)
    ensures forall i :: 0 <= i < |j| ==> SigningGrade(j[i]) == Gap || Complete(j[i])
  {
    forall i | 0 <= i < |j|
      ensures SigningGrade(j[i]) == Gap || Complete(j[i])
    {
      CompleteIff(j[i]);
      assert Z1Grade(j[i]) == Sound;
      assert ExpiryGrade(j[i]) == StateFileGrade(j[i]) == AnchorGrade(j[i]) == Sound;
    }
  }
}
