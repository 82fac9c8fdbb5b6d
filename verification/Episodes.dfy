// Pairing the episode markers (scripts/acceptance/substrate_acceptance_window.py, find_episodes).

module Episodes {
  import opened Findings
  import opened Sequences
  import opened Samples

  datatype Episode = Episode(kind: Kind, start: int, end: Option<int>) {
    predicate Contains(epoch: int)
    {
      start <= epoch && (end.None? || epoch <= end.value)
    }
  }

  predicate InAny(epoch: int, episodes: seq<Episode>)
  {
    exists i :: 0 <= i < |episodes| && episodes[i].Contains(epoch)
  }

  // ----------------------------------------------------------- specification

  /** A marker of one kind, with the time it was observed. */
  datatype Mark = Mark(opens: bool, at: int)

  function MarkOf(kind: Kind): Sample -> Option<Mark>
  {
    (s: Sample) =>
      match s.marker
      case Opens(k) => if k == kind then Some(Mark(true, s.at)) else None
      case Closes(k) => if k == kind then Some(Mark(false, s.at)) else None
      case Unmarked => None
  }

  function Marks(samples: seq<Sample>, kind: Kind): seq<Mark>
  {
    Keep(samples, MarkOf(kind))
  }

  /** A closed episode stands at every close marker whose predecessor of the same kind is an open marker. */
  function ClosedEpisodes(m: seq<Mark>, kind: Kind): seq<Episode>
  {
    if |m| < 2 then []
    else
      ClosedEpisodes(m[..|m| - 1], kind) +
      if m[|m| - 2].opens && !m[|m| - 1].opens
      then [Episode(kind, m[|m| - 2].at, Some(m[|m| - 1].at))]
      else []
  }

  predicate LeftOpen(m: seq<Mark>)
  {
    m != [] && m[|m| - 1].opens
  }

  function EpisodesOf(m: seq<Mark>, kind: Kind): seq<Episode>
  {
    ClosedEpisodes(m, kind) + if LeftOpen(m) then [Episode(kind, m[|m| - 1].at, None)] else []
  }

  function AllEpisodes(samples: seq<Sample>): seq<Episode>
  {
    EpisodesOf(Marks(samples, ColdAgent), ColdAgent) +
    EpisodesOf(Marks(samples, NegativeControl), NegativeControl)
  }

  /** open, close, open, close, ... so far */
  ghost predicate Alternates(m: seq<Mark>)
  {
    m == [] || (Alternates(m[..|m| - 1]) && (m[|m| - 1].opens <==> !LeftOpen(m[..|m| - 1])))
  }

  /** The language (open close)*. */
  ghost predicate WellPaired(m: seq<Mark>)
  {
    Alternates(m) && !LeftOpen(m)
  }

  ghost predicate EpisodesWellPaired(samples: seq<Sample>)
  {
    WellPaired(Marks(samples, ColdAgent)) && WellPaired(Marks(samples, NegativeControl))
  }

  // ---------------------------------------------------------- the automaton

  /** What the automaton remembers after reading the markers m. */
  ghost predicate Tracks(m: seq<Mark>, kind: Kind, episodes: seq<Episode>, openAt: Option<int>, problems: seq<Reason>)
  {
    && episodes == ClosedEpisodes(m, kind)
    && openAt == (if LeftOpen(m) then Some(m[|m| - 1].at) else None)
    && (problems == [] <==> Alternates(m))
  }

  method ReadMark(kind: Kind, mark: Mark, episodes: seq<Episode>, openAt: Option<int>, problems: seq<Reason>,
                  ghost m: seq<Mark>)
    returns (episodes': seq<Episode>, openAt': Option<int>, problems': seq<Reason>)
    requires Tracks(m, kind, episodes, openAt, problems)
    ensures Tracks(m + [mark], kind, episodes', openAt', problems')
  {
    episodes', openAt', problems' := episodes, openAt, problems;
    MarkNext(m, mark, kind);
    if mark.opens {
      if openAt.Some? {
        problems' := problems + [SecondOpening];
      }
      openAt' := Some(mark.at);
    } else if openAt.None? {
      problems' := problems + [CloseWithoutOpen];
    } else {
      episodes' := episodes + [Episode(kind, openAt.value, Some(mark.at))];
      openAt' := None;
    }
  }

  /** One pass over the samples with a single remembered start, for one kind of episode. */
  method PairKind(samples: seq<Sample>, kind: Kind) returns (episodes: seq<Episode>, problems: seq<Reason>)
    ensures episodes == EpisodesOf(Marks(samples, kind), kind)
    ensures problems == [] <==> WellPaired(Marks(samples, kind))
  {
    episodes, problems := [], [];
    var openAt: Option<int> := None;
    ghost var m: seq<Mark> := [];
    for i := 0 to |samples|
      invariant m == Marks(samples[..i], kind)
      invariant Tracks(m, kind, episodes, openAt, problems)
    {
      MarksNext(samples, kind, i);
      var s := samples[i];
      if s.marker == Opens(kind) || s.marker == Closes(kind) {
        var mark := Mark(s.marker == Opens(kind), s.at);
        episodes, openAt, problems := ReadMark(kind, mark, episodes, openAt, problems, m);
        m := m + [mark];
      }
    }
    assert samples[..|samples|] == samples;
    if openAt.Some? {
      episodes := episodes + [Episode(kind, openAt.value, None)];
      problems := problems + [NeverClosed];
    }
  }

  lemma {:induction false} MarksNext(samples: seq<Sample>, kind: Kind, i: nat)
    requires i < |samples|
    ensures Marks(samples[..i + 1], kind) ==
            Marks(samples[..i], kind) +
            if samples[i].marker == Opens(kind) then [Mark(true, samples[i].at)]
            else if samples[i].marker == Closes(kind) then [Mark(false, samples[i].at)]
            else []
  {
    KeepNext(samples, MarkOf(kind), i);
  }

  lemma {:induction false} MarkNext(m: seq<Mark>, x: Mark, kind: Kind)
    ensures ClosedEpisodes(m + [x], kind) ==
            ClosedEpisodes(m, kind) +
            if LeftOpen(m) && !x.opens then [Episode(kind, m[|m| - 1].at, Some(x.at))] else []
    ensures Alternates(m + [x]) <==> Alternates(m) && (x.opens <==> !LeftOpen(m))
  {
    assert (m + [x])[..|m|] == m;
  }

  /** Well-paired markers are exactly the words of (open close)*. */
  lemma {:induction false} WellPairedIsOpenCloseStar(m: seq<Mark>)
    ensures WellPaired(m) <==> |m| % 2 == 0 && forall i :: 0 <= i < |m| ==> (m[i].opens <==> i % 2 == 0)
  {
    AlternatesByPosition(m);
  }

  lemma {:induction false} AlternatesByPosition(m: seq<Mark>)
    ensures Alternates(m) <==> forall i :: 0 <= i < |m| ==> (m[i].opens <==> i % 2 == 0)
  {
    if m != [] {
      var rest, n := m[..|m| - 1], |m| - 1;
      AlternatesByPosition(rest);
      assert forall i :: 0 <= i < n ==> rest[i] == m[i];
      assert n > 0 ==> (LeftOpen(rest) <==> rest[n - 1].opens);
    }
  }

  method FindEpisodes(samples: seq<Sample>) returns (episodes: seq<Episode>, problems: seq<Reason>)
    ensures episodes == AllEpisodes(samples)
    ensures problems == [] <==> EpisodesWellPaired(samples)
  {
    var cold, coldProblems := PairKind(samples, ColdAgent);
    var control, controlProblems := PairKind(samples, NegativeControl);
    episodes, problems := cold + control, coldProblems + controlProblems;
  }

  // -------------------------------------------------------------- properties

  /** Mark i closes what mark i - 1 opened, and the episode e runs from one to the other. */
  ghost predicate SpansPair(m: seq<Mark>, e: Episode, i: int)
  {
    0 < i < |m| && e.end.Some? && m[i - 1] == Mark(true, e.start) && m[i] == Mark(false, e.end.value)
  }

  /** An episode is reported exactly for an adjacent (open, close) pair, or for a final open marker. */
  lemma {:induction false} EpisodeIffAdjacentPair(m: seq<Mark>, kind: Kind, e: Episode)
    ensures e in EpisodesOf(m, kind) <==>
            && e.kind == kind
            && if e.end.Some? then exists i :: SpansPair(m, e, i) else LeftOpen(m) && m[|m| - 1].at == e.start
  {
    if e.end.Some? {
      ClosedIffAdjacentPair(m, kind, e);
    } else {
      ClosedAreClosed(m, kind);
    }
  }

  lemma {:induction false} ClosedIffAdjacentPair(m: seq<Mark>, kind: Kind, e: Episode)
    requires e.end.Some?
    ensures e in ClosedEpisodes(m, kind) <==> e.kind == kind && exists i :: SpansPair(m, e, i)
  {
    if |m| >= 2 {
      var rest, n := m[..|m| - 1], |m| - 1;
      ClosedIffAdjacentPair(rest, kind, e);
      forall i: int
        ensures SpansPair(m, e, i) <==> SpansPair(rest, e, i) || (i == n && SpansPair(m, e, n))
      {
      }
      assert e in ClosedEpisodes(m, kind) <==>
             e in ClosedEpisodes(rest, kind) || (e.kind == kind && SpansPair(m, e, n));
    }
  }

  lemma {:induction false} ClosedAreClosed(m: seq<Mark>, kind: Kind)
    ensures forall i :: 0 <= i < |ClosedEpisodes(m, kind)| ==>
              ClosedEpisodes(m, kind)[i].end.Some? && ClosedEpisodes(m, kind)[i].kind == kind
  {
    if |m| >= 2 {
      ClosedAreClosed(m[..|m| - 1], kind);
    }
  }

  ghost predicate MarksSorted(m: seq<Mark>)
  {
    forall i, j :: 0 <= i < j < |m| ==> m[i].at <= m[j].at
  }

  lemma {:induction false} MarksOfSorted(samples: seq<Sample>, kind: Kind)
    requires TimeSorted(samples)
    ensures MarksSorted(Marks(samples, kind))
  {
    var m := Marks(samples, kind);
    forall i, j | 0 <= i < j < |m|
      ensures m[i].at <= m[j].at
    {
      OriginIncreasing(samples, MarkOf(kind), i, j);
    }
  }

  /** Each episode is closed, runs forward, and is over when the next one starts. */
  ghost predicate InSequence(eps: seq<Episode>)
  {
    && (forall i :: 0 <= i < |eps| && eps[i].end.Some? ==> eps[i].start <= eps[i].end.value)
    && (forall i, j :: 0 <= i < j < |eps| ==> eps[i].end.Some? && eps[i].end.value <= eps[j].start)
  }

  ghost predicate AllEndBy(eps: seq<Episode>, t: int)
  {
    forall i :: 0 <= i < |eps| ==> eps[i].end.Some? && eps[i].end.value <= t
  }

  lemma {:induction false} InSequenceNext(eps: seq<Episode>, e: Episode)
    requires InSequence(eps) && AllEndBy(eps, e.start)
    requires e.end.Some? ==> e.start <= e.end.value
    ensures InSequence(eps + [e])
    ensures e.end.Some? ==> AllEndBy(eps + [e], e.end.value)
  {
    var all := eps + [e];
    forall i | 0 <= i < |all|
      ensures all[i].end.Some? ==> all[i].start <= all[i].end.value
      ensures i < |eps| ==> all[i].end.Some? && all[i].end.value <= e.start
    {
      if i < |eps| {
        assert all[i] == eps[i];
      }
    }
  }

  /** Episodes of one kind follow one another; two of them share at most an endpoint, and only the last can be open. */
  lemma {:induction false} EpisodesOrdered(samples: seq<Sample>, kind: Kind)
    requires TimeSorted(samples)
    ensures InSequence(EpisodesOf(Marks(samples, kind), kind))
  {
    var m := Marks(samples, kind);
    MarksOfSorted(samples, kind);
    ClosedOrdered(m, kind);
    if LeftOpen(m) {
      InSequenceNext(ClosedEpisodes(m, kind), Episode(kind, m[|m| - 1].at, None));
    }
  }

  lemma {:induction false} ClosedOrdered(m: seq<Mark>, kind: Kind)
    requires MarksSorted(m)
    ensures InSequence(ClosedEpisodes(m, kind))
    ensures m != [] ==> AllEndBy(ClosedEpisodes(m, kind), m[|m| - 1].at)
  {
    if |m| >= 2 {
      var rest, n := m[..|m| - 1], |m| - 1;
      ClosedOrdered(rest, kind);
      assert rest[|rest| - 1] == m[n - 1] && m[n - 1].at <= m[n].at;
      if m[n - 1].opens && !m[n].opens {
        InSequenceNext(ClosedEpisodes(rest, kind), Episode(kind, m[n - 1].at, Some(m[n].at)));
      }
    }
  }

  /** A kind has at most one open episode, and an open episode is never without a reported problem. */
  lemma {:induction false} OpenEpisodeIsReported(samples: seq<Sample>)
    ensures (exists i :: 0 <= i < |AllEpisodes(samples)| && AllEpisodes(samples)[i].end.None?) <==>
            LeftOpen(Marks(samples, ColdAgent)) || LeftOpen(Marks(samples, NegativeControl))
    ensures (exists i :: 0 <= i < |AllEpisodes(samples)| && AllEpisodes(samples)[i].end.None?) ==>
              !EpisodesWellPaired(samples)
    ensures forall i, j | 0 <= i < j < |AllEpisodes(samples)| ::
              AllEpisodes(samples)[i].end.None? && AllEpisodes(samples)[j].end.None? ==>
                AllEpisodes(samples)[i].kind != AllEpisodes(samples)[j].kind
  {
    var c, n := Marks(samples, ColdAgent), Marks(samples, NegativeControl);
    ClosedAreClosed(c, ColdAgent);
    ClosedAreClosed(n, NegativeControl);
    var all := AllEpisodes(samples);
    var ec, en := EpisodesOf(c, ColdAgent), EpisodesOf(n, NegativeControl);
    if LeftOpen(c) {
      assert all[|ec| - 1] == ec[|ec| - 1];
    }
    if LeftOpen(n) {
      assert all[|all| - 1] == en[|en| - 1];
    }
  }

  /** Episodes depend on nothing but each sample's time and marker. */
  lemma {:induction false} EpisodesReadOnlyMarkers(xs: seq<Sample>, ys: seq<Sample>)
    requires |xs| == |ys|
    requires forall i :: 0 <= i < |xs| ==> xs[i].at == ys[i].at && xs[i].marker == ys[i].marker
    ensures AllEpisodes(xs) == AllEpisodes(ys)
    ensures EpisodesWellPaired(xs) <==> EpisodesWellPaired(ys)
  {
    KeepCongruent(xs, MarkOf(ColdAgent), ys, MarkOf(ColdAgent));
    KeepCongruent(xs, MarkOf(NegativeControl), ys, MarkOf(NegativeControl));
  }
}
