// Theorems about the acceptance verdict as a whole
// (scripts/acceptance/substrate_acceptance_window.py).

module Acceptance {
  import opened Sequences
  import opened Samples
  import opened Episodes
  import opened Series
  import opened Assurances
  import opened Falsifications
  import opened Window
  import opened ProbeMeaning
  import opened Soundness

  // ------------------------------------------------------ PASS, characterised

  /** Sample i is the last one at or before `t` that carries an expiry. */
  ghost predicate LastExpiryBy(samples: seq<Sample>, t: int, i: int)
  {
    && 0 <= i < |samples| && samples[i].at <= t && samples[i].notAfter.Some?
    && forall q :: i < q < |samples| ==> !(samples[q].at <= t && samples[q].notAfter.Some?)
  }

  /** Sample k is the first one at or after `t` in which an SVID with an expiry is served. */
  ghost predicate FirstServedFrom(samples: seq<Sample>, t: int, k: int)
  {
    && 0 <= k < |samples| && samples[k].at >= t && samples[k].svid == Ok && samples[k].notAfter.Some?
    && forall q :: 0 <= q < k ==> !(samples[q].at >= t && samples[q].svid == Ok && samples[q].notAfter.Some?)
  }

  /**
   * The agent was down at least as long as the CA overlap, its volume was not seen to be touched, and it came back with
   * a strictly newer credential. An mtime that was not measured at one end shows no touch.
   */
  ghost predicate ColdRestartProved(samples: seq<Sample>, overlap: int, e: Episode)
  {
    && e.end.Some?
    && e.end.value - e.start >= overlap
    && !SeenTouched(samples, e.start, e.end.value)
    && exists i, k ::
         && LastExpiryBy(samples, e.start, i)
         && FirstServedFrom(samples, e.end.value, k)
         && samples[i].notAfter.value < samples[k].notAfter.value
         && ChainsToBundle(samples[k])
  }

  lemma {:induction false} ColdRestartIff(samples: seq<Sample>, overlap: int, e: Episode)
    ensures ColdRestartProved(samples, overlap, e) <==>
            !RestartViolated(samples, overlap, e) && !RestartUnmeasured(samples, e)
  {
    if e.end.Some? {
      var f, g := MeasuredUpTo(e.start), ServedFrom(e.end.value);
      var before, after := Keep(samples, f), Keep(samples, g);
      KeepEmpty(samples, f);
      KeepEmpty(samples, g);
      TouchedIff(samples, e.start, e.end.value);
      if before != [] && after != [] {
        var i := KeepLast(samples, f);
        var k := KeepFirst(samples, g);
        assert LastExpiryBy(samples, e.start, i) && samples[i] == before[|before| - 1];
        assert FirstServedFrom(samples, e.end.value, k) && samples[k] == after[0];
        ChainsIff(samples[k]);
        forall i' | LastExpiryBy(samples, e.start, i')
          ensures i' == i
        {
        }
        forall k' | FirstServedFrom(samples, e.end.value, k')
          ensures k' == k
        {
        }
      }
    }
  }

  ghost predicate ColdRestartsHold(samples: seq<Sample>, episodes: seq<Episode>, overlap: int)
  {
    && (exists e :: e in episodes && e.kind == ColdAgent)
    && (forall e :: e in episodes && e.kind == ColdAgent ==> ColdRestartProved(samples, overlap, e))
  }

  ghost predicate ControlsHold(samples: seq<Sample>, episodes: seq<Episode>, minAbsent: int)
  {
    && (exists e :: e in episodes && e.kind == NegativeControl)
    && (forall e :: e in episodes && e.kind == NegativeControl ==> ControlShown(samples, minAbsent, e))
  }

  ghost predicate CoverageHolds(samples: seq<Sample>, judged: nat, episodes: seq<Episode>, lim: Limits)
  {
    Covered(samples, judged, episodes, lim.windowSeconds, lim.maxGap)
  }

  /**
   * Everything a green window claims, over samples, pairs of samples and episodes, in terms of the recorded fields.
   */
  ghost predicate GreenWindow(samples: seq<Sample>, lim: Limits)
  {
    var episodes, judged := AllEpisodes(samples), Judged(samples);
    && EpisodesWellPaired(samples)
    && StandingHolds(judged, lim)
    && ColdRestartsHold(samples, episodes, lim.overlap)
    && ControlsHold(samples, episodes, lim.minAbsent)
    && CoverageHolds(samples, |judged|, episodes, lim)
  }

  lemma {:induction false} KindMembership(episodes: seq<Episode>, kind: Kind)
    ensures forall e :: e in Keep(episodes, OfKind(kind)) <==> e in episodes && e.kind == kind
  {
    var kept := Keep(episodes, OfKind(kind));
    forall e | e in kept
      ensures e in episodes && e.kind == kind
    {
      var k :| 0 <= k < |kept| && kept[k] == e;
      var i := Origin(episodes, OfKind(kind), k);
    }
    forall e | e in episodes && e.kind == kind
      ensures e in kept
    {
      var i :| 0 <= i < |episodes| && episodes[i] == e;
      RankIsPosition(episodes, OfKind(kind), i);
    }
  }

  lemma {:induction false} ColdEpisodesIff(samples: seq<Sample>, cold: seq<Episode>, overlap: int)
    ensures (forall i :: 0 <= i < |cold| ==> ColdRestartProved(samples, overlap, cold[i])) <==>
            (forall i :: 0 <= i < |cold| ==>
               !RestartViolated(samples, overlap, cold[i]) && !RestartUnmeasured(samples, cold[i]))
  {
    forall i | 0 <= i < |cold|
      ensures ColdRestartProved(samples, overlap, cold[i]) <==>
              !RestartViolated(samples, overlap, cold[i]) && !RestartUnmeasured(samples, cold[i])
    {
      ColdRestartIff(samples, overlap, cold[i]);
    }
  }

  lemma {:induction false} F2PassIff(samples: seq<Sample>, episodes: seq<Episode>, overlap: int)
    ensures F2State(samples, episodes, overlap) == PASS <==> ColdRestartsHold(samples, episodes, overlap)
  {
    var cold := Keep(episodes, OfKind(ColdAgent));
    KindMembership(episodes, ColdAgent);
    ColdEpisodesIff(samples, cold, overlap);
    assert forall i :: 0 <= i < |cold| ==> cold[i] in cold;
    if cold != [] {
      assert cold[0] in cold;
    }
  }

  /** The negative control is green exactly when every control was carried out, and it is never a finding. */
  lemma {:induction false} ControlPassIff(samples: seq<Sample>, episodes: seq<Episode>, minAbsent: int)
    ensures ControlState(samples, episodes, minAbsent) == PASS <==> ControlsHold(samples, episodes, minAbsent)
    ensures ControlState(samples, episodes, minAbsent) != FAIL
  {
    KindMembership(episodes, NegativeControl);
    var controls := Keep(episodes, OfKind(NegativeControl));
    forall i | 0 <= i < |controls|
      ensures ControlCarriedOut(samples, minAbsent, controls[i]) <==> ControlShown(samples, minAbsent, controls[i])
    {
      ControlShownIff(samples, minAbsent, controls[i]);
    }
    assert forall i :: 0 <= i < |controls| ==> controls[i] in controls;
    if controls != [] {
      assert controls[0] in controls;
    }
  }

  ghost predicate ProbesPass(samples: seq<Sample>, lim: Limits)
  {
    var episodes := AllEpisodes(samples);
    && F2State(samples, episodes, lim.overlap) == PASS
    && ControlState(samples, episodes, lim.minAbsent) == PASS
    && CoverageState(samples, |Judged(samples)|, episodes, lim.windowSeconds, lim.maxGap) == PASS
  }

  lemma {:induction false} VerdictIsConjunction(samples: seq<Sample>, lim: Limits)
    ensures Verdict(samples, lim) == PASS <==>
            EpisodesWellPaired(samples) && StandingPass(Judged(samples), lim) && ProbesPass(samples, lim)
  {
    PassIffAllPass(samples, lim);
    AllPassIff(
      StandingStates(Judged(samples), lim), ProbeStates(samples, |Judged(samples)|, AllEpisodes(samples), lim));
  }

  lemma {:induction false} AllPassIff(s: seq<State>, p: seq<State>)
    requires |s| == 5 && |p| == 3
    ensures (forall i :: 0 <= i < 8 ==> (s + p)[i] == PASS) <==>
            && s[0] == PASS && s[1] == PASS && s[2] == PASS && s[3] == PASS && s[4] == PASS
            && p[0] == PASS && p[1] == PASS && p[2] == PASS
  {
    var all := s + p;
    assert all[0] == s[0] && all[1] == s[1] && all[2] == s[2] && all[3] == s[3] && all[4] == s[4];
    assert all[5] == p[0] && all[6] == p[1] && all[7] == p[2];
  }

  lemma {:induction false} ProbesIff(samples: seq<Sample>, lim: Limits)
    ensures var episodes := AllEpisodes(samples);
      ProbesPass(samples, lim) <==>
        && ColdRestartsHold(samples, episodes, lim.overlap)
        && ControlsHold(samples, episodes, lim.minAbsent)
        && CoverageHolds(samples, |Judged(samples)|, episodes, lim)
  {
    F2PassIff(samples, AllEpisodes(samples), lim.overlap);
    ControlPassIff(samples, AllEpisodes(samples), lim.minAbsent);
    CoverageFromFields(samples, |Judged(samples)|, AllEpisodes(samples), lim.windowSeconds, lim.maxGap);
  }

  /** The verdict is PASS exactly when the window is green: nothing weaker passes, and nothing green is refused. */
  lemma {:induction false} PassIffGreen(samples: seq<Sample>, lim: Limits)
    ensures Verdict(samples, lim) == PASS <==> GreenWindow(samples, lim)
  {
    VerdictIsConjunction(samples, lim);
    StandingIff(Judged(samples), lim);
    ProbesIff(samples, lim);
  }
}
