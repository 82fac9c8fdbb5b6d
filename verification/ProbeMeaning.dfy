// What the episodes, the judged part, the negative control and coverage say of the recorded fields
// (scripts/acceptance/substrate_acceptance_window.py), sample by sample and without the judge's own vocabulary.

module ProbeMeaning {
  import opened Sequences
  import opened Samples
  import opened Episodes
  import opened Series
  import opened Assurances
  import opened Falsifications
  import opened Window

  // ------------------------------------------------------------------- episodes

  /** Sample i carries a marker of this kind. */
  predicate Marked(s: Sample, kind: Kind)
  {
    s.marker == Opens(kind) || s.marker == Closes(kind)
  }

  /** Samples i and j carry consecutive markers of this kind, the first opening and the second closing. */
  ghost predicate OpensThenCloses(samples: seq<Sample>, kind: Kind, i: int, j: int)
  {
    && 0 <= i < j < |samples| && samples[i].marker == Opens(kind) && samples[j].marker == Closes(kind)
    && forall q :: i < q < j ==> !Marked(samples[q], kind)
  }

  /** Sample i opens an episode of this kind, and no marker of this kind follows. */
  ghost predicate OpensForGood(samples: seq<Sample>, kind: Kind, i: int)
  {
    && 0 <= i < |samples| && samples[i].marker == Opens(kind)
    && forall q :: i < q < |samples| ==> !Marked(samples[q], kind)
  }

  /** The episodes are exactly the consecutive pairs of an opening and a closing marker, and a last opening one. */
  lemma {:induction false} EpisodesFromMarkers(samples: seq<Sample>, e: Episode)
    ensures e in AllEpisodes(samples) <==>
            if e.end.Some?
            then exists i, j ::
              OpensThenCloses(samples, e.kind, i, j) && samples[i].at == e.start && samples[j].at == e.end.value
            else exists i :: OpensForGood(samples, e.kind, i) && samples[i].at == e.start
  {
    var cold, control := Marks(samples, ColdAgent), Marks(samples, NegativeControl);
    EpisodeIffAdjacentPair(cold, ColdAgent, e);
    EpisodeIffAdjacentPair(control, NegativeControl, e);
    assert e in AllEpisodes(samples) <==>
           e in EpisodesOf(cold, ColdAgent) || e in EpisodesOf(control, NegativeControl);
    if e.end.Some? {
      PairFromMarkers(samples, e);
    } else {
      OpenFromMarkers(samples, e.kind, e.start);
    }
  }

  lemma {:induction false} PairFromMarkers(samples: seq<Sample>, e: Episode)
    requires e.end.Some?
    ensures (exists k :: SpansPair(Marks(samples, e.kind), e, k)) <==>
            exists i, j ::
              OpensThenCloses(samples, e.kind, i, j) && samples[i].at == e.start && samples[j].at == e.end.value
  {
    var f, m := MarkOf(e.kind), Marks(samples, e.kind);
    if k :| SpansPair(m, e, k) {
      var i, j := NeighboursAreAdjacent(samples, f, k);
      assert OpensThenCloses(samples, e.kind, i, j);
    }
    if i: nat, j: nat :|
      OpensThenCloses(samples, e.kind, i, j) && samples[i].at == e.start && samples[j].at == e.end.value {
      assert Adjacent(samples, f, i, j);
      AdjacentAreNeighbours(samples, f, i, j);
      assert SpansPair(m, e, Rank(samples, f, j));
    }
  }

  lemma {:induction false} OpenFromMarkers(samples: seq<Sample>, kind: Kind, start: int)
    ensures var m := Marks(samples, kind);
      LeftOpen(m) && m[|m| - 1].at == start <==> exists i :: OpensForGood(samples, kind, i) && samples[i].at == start
  {
    var f, m := MarkOf(kind), Marks(samples, kind);
    if LeftOpen(m) {
      var i := KeepLast(samples, f);
      assert OpensForGood(samples, kind, i);
    }
    if i :| OpensForGood(samples, kind, i) && samples[i].at == start {
      RankIsPosition(samples, f, i);
      var l := KeepLast(samples, f);
      assert l == i;
    }
  }

  /** Every closing marker answers an opening one, and every opening marker is answered. */
  ghost predicate Answered(samples: seq<Sample>, kind: Kind)
  {
    && (forall j :: 0 <= j < |samples| && samples[j].marker == Closes(kind) ==>
          exists i :: OpensThenCloses(samples, kind, i, j))
    && (forall i :: 0 <= i < |samples| && samples[i].marker == Opens(kind) ==>
          exists j :: OpensThenCloses(samples, kind, i, j))
  }

  /** Mark k closes what mark k - 1 opened, in the list of marks and among the samples. */
  lemma {:induction false} PairAtPosition(samples: seq<Sample>, kind: Kind, i: nat, j: nat)
    requires OpensThenCloses(samples, kind, i, j)
    ensures var m, k := Marks(samples, kind), Rank(samples, MarkOf(kind), j);
      && Rank(samples, MarkOf(kind), i) == k - 1 && 0 < k < |m| && m[k - 1].opens && !m[k].opens
  {
    assert Adjacent(samples, MarkOf(kind), i, j);
    AdjacentAreNeighbours(samples, MarkOf(kind), i, j);
  }

  lemma {:induction false} PairFromPosition(samples: seq<Sample>, kind: Kind, k: nat)
    requires var m := Marks(samples, kind); 0 < k < |m| && m[k - 1].opens && !m[k].opens
    ensures OpensThenCloses(samples, kind, Origin(samples, MarkOf(kind), k - 1), Origin(samples, MarkOf(kind), k))
  {
    var f := MarkOf(kind);
    var a, b := NeighboursAreAdjacent(samples, f, k);
    RankedOrigin(samples, f, a);
    RankedOrigin(samples, f, b);
  }

  /** Well-paired markers answer one another ... */
  lemma {:induction false} PairedIsAnswered(samples: seq<Sample>, kind: Kind)
    requires WellPaired(Marks(samples, kind))
    ensures Answered(samples, kind)
  {
    var f, m := MarkOf(kind), Marks(samples, kind);
    WellPairedIsOpenCloseStar(m);
    forall i | 0 <= i < |samples| && Marked(samples[i], kind)
      ensures samples[i].marker == Closes(kind) ==> exists h :: OpensThenCloses(samples, kind, h, i)
      ensures samples[i].marker == Opens(kind) ==> exists j :: OpensThenCloses(samples, kind, i, j)
    {
      var k := Rank(samples, f, i);
      RankIsPosition(samples, f, i);
      RankedOrigin(samples, f, i);
      assert m[k].opens <==> k % 2 == 0;
      if m[k].opens {
        assert !m[k + 1].opens;
        PairFromPosition(samples, kind, k + 1);
      } else {
        assert m[k - 1].opens;
        PairFromPosition(samples, kind, k);
      }
    }
  }

  /** Each mark has its partner next to it. */
  ghost predicate Partnered(m: seq<Mark>)
  {
    forall k :: 0 <= k < |m| ==> PartnerAt(m, k)
  }

  predicate PartnerAt(m: seq<Mark>, k: nat)
    requires k < |m|
  {
    if m[k].opens then k + 1 < |m| && !m[k + 1].opens else k > 0 && m[k - 1].opens
  }

  lemma {:induction false} PartneredAlternates(m: seq<Mark>, k: nat)
    requires Partnered(m) && k < |m|
    ensures m[k].opens <==> k % 2 == 0
  {
    assert PartnerAt(m, k);
    if k > 0 {
      assert PartnerAt(m, k - 1);
      PartneredAlternates(m, k - 1);
    }
  }

  lemma {:induction false} PartneredIsPaired(m: seq<Mark>)
    requires Partnered(m)
    ensures WellPaired(m)
  {
    forall k: nat | k < |m|
      ensures m[k].opens <==> k % 2 == 0
    {
      PartneredAlternates(m, k);
    }
    if m != [] {
      assert PartnerAt(m, |m| - 1);
    }
    WellPairedIsOpenCloseStar(m);
  }

  /** ... and markers that answer one another are well paired. */
  lemma {:induction false} AnsweredIsPaired(samples: seq<Sample>, kind: Kind)
    requires Answered(samples, kind)
    ensures WellPaired(Marks(samples, kind))
  {
    var m := Marks(samples, kind);
    forall k: nat | k < |m|
      ensures PartnerAt(m, k)
    {
      AnsweredAt(samples, kind, k);
    }
    PartneredIsPaired(m);
  }

  lemma {:induction false} AnsweredAt(samples: seq<Sample>, kind: Kind, k: nat)
    requires Answered(samples, kind) && k < |Marks(samples, kind)|
    ensures var m := Marks(samples, kind);
      && (m[k].opens ==> k + 1 < |m| && !m[k + 1].opens)
      && (!m[k].opens ==> k > 0 && m[k - 1].opens)
  {
    var f, m := MarkOf(kind), Marks(samples, kind);
    var i := Origin(samples, f, k);
    OriginRank(samples, f, k);
    if m[k].opens {
      var j :| OpensThenCloses(samples, kind, i, j);
      PairAtPosition(samples, kind, i, j);
    } else {
      var h :| OpensThenCloses(samples, kind, h, i);
      PairAtPosition(samples, kind, h, i);
    }
  }

  /** The episodes are well paired exactly when every marker has its answer. */
  lemma {:induction false} WellPairedFromMarkers(samples: seq<Sample>)
    ensures EpisodesWellPaired(samples) <==> Answered(samples, ColdAgent) && Answered(samples, NegativeControl)
  {
    forall kind: Kind
      ensures WellPaired(Marks(samples, kind)) <==> Answered(samples, kind)
    {
      if WellPaired(Marks(samples, kind)) {
        PairedIsAnswered(samples, kind);
      }
      if Answered(samples, kind) {
        AnsweredIsPaired(samples, kind);
      }
    }
  }

  // ---------------------------------------------------------------- judged samples

  /** Time t lies in a deliberate episode. */
  ghost predicate Deliberate(episodes: seq<Episode>, t: int)
  {
    exists e :: e in episodes && e.start <= t && (e.end.None? || t <= e.end.value)
  }

  lemma {:induction false} InAnyIff(t: int, episodes: seq<Episode>)
    ensures InAny(t, episodes) <==> Deliberate(episodes, t)
  {
    if i :| 0 <= i < |episodes| && episodes[i].Contains(t) {
      assert episodes[i] in episodes;
    }
    if e :| e in episodes && e.start <= t && (e.end.None? || t <= e.end.value) {
      var i :| 0 <= i < |episodes| && episodes[i] == e;
      assert episodes[i].Contains(t);
    }
  }

  /** The judged samples are those outside every deliberate episode, in order; `at` says where each of them stands. */
  lemma {:induction false} JudgedMeaning(samples: seq<Sample>) returns (at: seq<nat>)
    ensures |at| == |Judged(samples)|
    ensures forall k :: 0 <= k < |at| ==> at[k] < |samples| && Judged(samples)[k] == samples[at[k]]
    ensures forall k, l :: 0 <= k < l < |at| ==> at[k] < at[l]
    ensures forall i :: 0 <= i < |samples| ==> (i in at <==> !Deliberate(AllEpisodes(samples), samples[i].at))
  {
    var f, judged := Outside(AllEpisodes(samples)), Judged(samples);
    at := seq(|judged|, k requires 0 <= k < |judged| => Origin(samples, f, k));
    forall k, l | 0 <= k < l < |at|
      ensures at[k] < at[l]
    {
      OriginIncreasing(samples, f, k, l);
    }
    forall i | 0 <= i < |samples|
      ensures i in at <==> !Deliberate(AllEpisodes(samples), samples[i].at)
    {
      InAnyIff(samples[i].at, AllEpisodes(samples));
      if f(samples[i]).Some? {
        RankedOrigin(samples, f, i);
        assert at[Rank(samples, f, i)] == i;
      }
    }
  }

  // ------------------------------------------------------------- negative control

  /** The samples of a closed control in which the anchor was measured as missing. */
  function AnchorMissingAt(samples: seq<Sample>, start: int, end: int): set<int>
  {
    set i | 0 <= i < |samples| && start <= samples[i].at <= end && samples[i].anchor == TargetBad
  }

  /** In some sample of it the SVID source said something else than `unmeasured` and the bundle was read. */
  ghost predicate OthersAnswered(samples: seq<Sample>, start: int, end: int)
  {
    exists i :: 0 <= i < |samples| && start <= samples[i].at <= end && samples[i].bundle == Ok &&
      samples[i].svid != Absent && samples[i].svid != Unmeasured && samples[i].svid != Other(true)
  }

  /** The control was closed, the anchor was seen missing often enough, and something else was still answering. */
  ghost predicate ControlShown(samples: seq<Sample>, minAbsent: int, e: Episode)
  {
    && e.end.Some?
    && OthersAnswered(samples, e.start, e.end.value)
    && var missing := |AnchorMissingAt(samples, e.start, e.end.value)|; missing >= 1 && missing >= minAbsent
  }

  lemma {:induction false} MissingCount(samples: seq<Sample>, e: Episode)
    requires e.end.Some?
    ensures |Keep(Keep(samples, Within(e)), AnchorGone)| == |AnchorMissingAt(samples, e.start, e.end.value)|
  {
    KeepThen(samples, Within(e), AnchorGone);
    KeepCountsIndices(samples, Then(Within(e), AnchorGone));
    assert AnchorMissingAt(samples, e.start, e.end.value) == Selected(samples, Then(Within(e), AnchorGone));
  }

  lemma {:induction false} OthersIff(samples: seq<Sample>, e: Episode)
    requires e.end.Some?
    ensures Keep(Keep(samples, Within(e)), OthersMeasured) != [] <==> OthersAnswered(samples, e.start, e.end.value)
  {
    KeepThen(samples, Within(e), OthersMeasured);
    KeepEmpty(samples, Then(Within(e), OthersMeasured));
    forall i | 0 <= i < |samples|
      ensures Then(Within(e), OthersMeasured)(samples[i]).Some? <==>
              && e.start <= samples[i].at <= e.end.value && samples[i].bundle == Ok
              && samples[i].svid != Absent && samples[i].svid != Unmeasured && samples[i].svid != Other(true)
    {
    }
  }

  /** A control counts as carried out exactly when the recorded fields show it. */
  lemma {:induction false} ControlShownIff(samples: seq<Sample>, minAbsent: int, e: Episode)
    ensures ControlCarriedOut(samples, minAbsent, e) <==> ControlShown(samples, minAbsent, e)
  {
    if e.end.Some? {
      MissingCount(samples, e);
      OthersIff(samples, e);
    }
  }

  // ------------------------------------------------------------------- coverage

  /** An over-long silence before sample k is explained by a deliberate episode at one of its ends. */
  ghost predicate Explained(samples: seq<Sample>, episodes: seq<Episode>, k: int)
    requires 0 < k < |samples|
  {
    Deliberate(episodes, samples[k - 1].at) || Deliberate(episodes, samples[k].at)
  }

  /** Long enough, observed without unexplained silences, and mostly outside the episodes. */
  ghost predicate Covered(samples: seq<Sample>, judged: nat, episodes: seq<Episode>, windowSeconds: int, maxGap: int)
  {
    && |samples| >= 2
    && samples[|samples| - 1].at - samples[0].at >= windowSeconds
    && (forall k :: 0 < k < |samples| && samples[k].at - samples[k - 1].at > maxGap ==> Explained(samples, episodes, k))
    && judged * 2 >= |samples|
  }

  lemma {:induction false} UnobservedIff(samples: seq<Sample>, episodes: seq<Episode>, maxGap: int, k: int)
    ensures Unobserved(samples, episodes, maxGap, k) <==>
            0 < k < |samples| && samples[k].at - samples[k - 1].at > maxGap && !Explained(samples, episodes, k)
  {
    if 0 < k < |samples| {
      InAnyIff(samples[k - 1].at, episodes);
      InAnyIff(samples[k].at, episodes);
    }
  }

  /** Coverage is green exactly when the window is covered, and never a finding. */
  lemma {:induction false} CoverageFromFields(
    samples: seq<Sample>, judged: nat, episodes: seq<Episode>, windowSeconds: int, maxGap: int)
    ensures CoverageState(samples, judged, episodes, windowSeconds, maxGap) ==
            if Covered(samples, judged, episodes, windowSeconds, maxGap) then PASS else UNKNOWN
  {
    forall k: int
      ensures Unobserved(samples, episodes, maxGap, k) <==>
              0 < k < |samples| && samples[k].at - samples[k - 1].at > maxGap && !Explained(samples, episodes, k)
    {
      UnobservedIff(samples, episodes, maxGap, k);
    }
  }

  // ---------------------------------------------------------------- a cold restart

  /** Sample a is the first one observed at t. */
  ghost predicate FirstAt(samples: seq<Sample>, t: int, a: int)
  {
    0 <= a < |samples| && samples[a].at == t && forall q :: 0 <= q < a ==> samples[q].at != t
  }

  /** The state file's mtime was read at the first sample of either end, and differs. */
  ghost predicate SeenTouched(samples: seq<Sample>, start: int, end: int)
  {
    exists a, b ::
      && FirstAt(samples, start, a) && FirstAt(samples, end, b)
      && samples[a].agentMtime.Some? && samples[b].agentMtime.Some?
      && samples[a].agentMtime != samples[b].agentMtime
  }

  lemma {:induction false} TouchedIff(samples: seq<Sample>, start: int, end: int)
    ensures Touched(samples, start, end) <==> SeenTouched(samples, start, end)
  {
    var f, g := ObservedAt(start), ObservedAt(end);
    KeepEmpty(samples, f);
    KeepEmpty(samples, g);
    if Keep(samples, f) != [] && Keep(samples, g) != [] {
      var a := KeepFirst(samples, f);
      var b := KeepFirst(samples, g);
      assert FirstAt(samples, start, a) && FirstAt(samples, end, b);
      assert forall a' :: FirstAt(samples, start, a') ==> a' == a;
      assert forall b' :: FirstAt(samples, end, b') ==> b' == b;
    }
  }

  /** An SVID was served and its chain ends inside the bundle that was read with it. */
  predicate ChainsToBundle(s: Sample)
  {
    && s.svid == Ok && s.bundle == Ok && s.chainAuthority.Some? && s.bundleIds.Some?
    && s.chainAuthority.value in s.bundleIds.value
  }

  lemma {:induction false} ChainsIff(s: Sample)
    ensures Z1Grade(s) == Sound <==> ChainsToBundle(s)
  {
  }
}
