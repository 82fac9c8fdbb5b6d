// Reading the sample log: the samples are sorted by time before anything is judged
// (scripts/acceptance/substrate_acceptance_window.py, load_samples).

module LogOrder {
  import opened Findings
  import opened Sequences
  import opened Sorting
  import opened Samples
  import opened Episodes
  import opened Window

  function TimeOf(s: Sample): real
  {
    s.at as real
  }

  function Load(lines: seq<Sample>): seq<Sample>
  {
    Sort(lines, TimeOf)
  }

  /** Whatever the order of the log, the judge sees a time-sorted permutation of it. */
  lemma {:induction false} LoadSortsTheLog(lines: seq<Sample>)
    ensures TimeSorted(Load(lines))
    ensures multiset(Load(lines)) == multiset(lines)
  {
    SortSorts(lines, TimeOf);
    SortPermutes(lines, TimeOf);
    var s := Load(lines);
    forall i, j | 0 <= i < j < |s|
      ensures s[i].at <= s[j].at
    {
      assert TimeOf(s[i]) <= TimeOf(s[j]);
    }
  }

  ghost predicate DistinctTimes(lines: seq<Sample>)
  {
    forall i, j :: 0 <= i < j < |lines| ==> lines[i].at != lines[j].at
  }

  /** With distinct timestamps, shuffling the log lines changes neither the series nor any judgement nor the verdict. */
  lemma {:induction false} LogOrderIndependence(lines: seq<Sample>, shuffled: seq<Sample>, lim: Limits)
    requires multiset(lines) == multiset(shuffled) && DistinctTimes(lines)
    ensures Load(lines) == Load(shuffled)
    ensures States(Load(lines), lim) == States(Load(shuffled), lim)
    ensures Verdict(Load(lines), lim) == Verdict(Load(shuffled), lim)
  {
    forall x, y | x in lines && y in lines && TimeOf(x) == TimeOf(y)
      ensures x == y
    {
      var i :| 0 <= i < |lines| && lines[i] == x;
      var j :| 0 <= j < |lines| && lines[j] == y;
      assert i == j;
    }
    SortOfPermutation(lines, shuffled, TimeOf);
  }

  /** Without that assumption, two logs load alike exactly when they agree on the order within each timestamp. */
  lemma {:induction false} LogOrderMattersOnlyWithinTies(lines: seq<Sample>, other: seq<Sample>)
    ensures Load(lines) == Load(other) <==>
            forall t: real :: Keep(lines, HasKey(TimeOf, t)) == Keep(other, HasKey(TimeOf, t))
  {
    SortEqualIffSameTies(lines, other, TimeOf);
  }

  // ------------------------------------------------------------- one side at a time

  /** A log line: which side of the deployment it describes, and what was measured there. */
  datatype Line = Line(side: string, sample: Sample)

  function TimeOfLine(l: Line): real
  {
    TimeOf(l.sample)
  }

  /** The lines of one side; no name means all of them. */
  function OnSide(side: string): Line -> Option<Line>
  {
    (l: Line) => if side == "" || l.side == side then Some(l) else None
  }

  function SampleOn(side: string): Line -> Option<Sample>
  {
    (l: Line) => if side == "" || l.side == side then Some(l.sample) else None
  }

  /** Two chosen lines describe different sides. */
  predicate SidesMixed(lines: seq<Line>, side: string)
  {
    side == "" && exists i, j :: 0 <= i < |lines| && 0 <= j < |lines| && lines[i].side != lines[j].side
  }

  predicate HasSide(lines: seq<Line>, s: string)
  {
    exists i :: 0 <= i < |lines| && lines[i].side == s
  }

  datatype Outcome = Refused | Judged(verdict: State, judgements: seq<Judgement>, problems: seq<Reason>)

  method CollectSamples(lines: seq<Line>) returns (samples: seq<Sample>, sides: set<string>)
    ensures samples == Keep(lines, SampleOn(""))
    ensures forall s :: s in sides <==> HasSide(lines, s)
  {
    samples, sides := [], {};
    for i := 0 to |lines|
      invariant samples == Keep(lines[..i], SampleOn(""))
      invariant forall s :: s in sides <==> exists k :: 0 <= k < i && lines[k].side == s
    {
      KeepNext(lines, SampleOn(""), i);
      samples := samples + [lines[i].sample];
      sides := sides + {lines[i].side};
    }
    assert lines[..|lines|] == lines;
  }

  /** The lines chosen after sorting carry the samples chosen before it. */
  lemma {:induction false} ChosenSamples(lines: seq<Line>, side: string)
    ensures Keep(Keep(Sort(lines, TimeOfLine), OnSide(side)), SampleOn("")) == Load(Keep(lines, SampleOn(side)))
  {
    var sorted := Sort(lines, TimeOfLine);
    KeepThen(sorted, OnSide(side), SampleOn(""));
    KeepCongruent(sorted, Then(OnSide(side), SampleOn("")), sorted, SampleOn(side));
    SortThenKeep(lines, SampleOn(side), TimeOfLine, TimeOf);
  }

  lemma {:induction false} SideIsPermuted(xs: seq<Line>, ys: seq<Line>, s: string)
    requires multiset(xs) == multiset(ys) && HasSide(xs, s)
    ensures HasSide(ys, s)
  {
    var i :| 0 <= i < |xs| && xs[i].side == s;
    assert xs[i] in multiset(ys);
    var k :| 0 <= k < |ys| && ys[k] == xs[i];
  }

  lemma {:induction false} SideIsKept(lines: seq<Line>, side: string, s: string)
    ensures HasSide(Keep(lines, OnSide(side)), s) <==> HasSide(lines, s) && (side == "" || s == side)
  {
    var chosen := Keep(lines, OnSide(side));
    if HasSide(chosen, s) {
      var i :| 0 <= i < |chosen| && chosen[i].side == s;
      var k := Origin(lines, OnSide(side), i);
    }
    if HasSide(lines, s) && (side == "" || s == side) {
      var i :| 0 <= i < |lines| && lines[i].side == s;
      RankIsPosition(lines, OnSide(side), i);
    }
  }

  lemma {:induction false} ChosenSides(lines: seq<Line>, side: string, s: string)
    ensures HasSide(Keep(Sort(lines, TimeOfLine), OnSide(side)), s) <==> HasSide(lines, s) && (side == "" || s == side)
  {
    var sorted := Sort(lines, TimeOfLine);
    SideIsKept(sorted, side, s);
    SortPermutes(lines, TimeOfLine);
    if HasSide(lines, s) {
      SideIsPermuted(lines, sorted, s);
    }
    if HasSide(sorted, s) {
      SideIsPermuted(sorted, lines, s);
    }
  }

  /**
   * Judge a log: sort it, keep one side, refuse a log of several, evaluate. The outcome is that of the chosen side's
   * own lines: lines of other sides change nothing.
   */
  method JudgeLog(lines: seq<Line>, side: string, lim: Limits) returns (o: Outcome, code: int)
    ensures o == Refused <==> SidesMixed(lines, side)
    ensures o.Judged? ==>
              var series := Load(Keep(lines, SampleOn(side)));
              && o.verdict == Verdict(series, lim)
              && HaveStates(o.judgements, States(series, lim))
              && (o.problems == [] <==> EpisodesWellPaired(series))
    ensures code == 0 <==> o.Judged? && o.verdict == PASS
    ensures code == 1 <==> o.Judged? && o.verdict == FAIL
    ensures code == 2 <==> o == Refused || o.verdict == UNKNOWN
  {
    var loaded := Sort(lines, TimeOfLine);
    var chosen := Keep(loaded, OnSide(side));
    var samples, sides := CollectSamples(chosen);
    ChosenSamples(lines, side);
    SidesCounted(lines, side, sides);
    if |sides| > 1 {
      o, code := Refused, 2;
      return;
    }
    LoadSortsTheLog(Keep(lines, SampleOn(side)));
    var verdict, judgements, problems := Evaluate(samples, lim);
    o := Judged(verdict, judgements, problems);
    code := if verdict == PASS then 0 else if verdict == FAIL then 1 else 2;
  }

  lemma {:induction false} SidesCounted(lines: seq<Line>, side: string, sides: set<string>)
    requires forall s :: s in sides <==> HasSide(Keep(Sort(lines, TimeOfLine), OnSide(side)), s)
    ensures |sides| > 1 <==> SidesMixed(lines, side)
  {
    forall s: string
      ensures s in sides <==> HasSide(lines, s) && (side == "" || s == side)
    {
      ChosenSides(lines, side, s);
    }
    SeveralIff(sides);
    if SidesMixed(lines, side) {
      var i, j :| 0 <= i < |lines| && 0 <= j < |lines| && lines[i].side != lines[j].side;
      assert HasSide(lines, lines[i].side) && HasSide(lines, lines[j].side);
      assert lines[i].side in sides && lines[j].side in sides;
    }
  }

  lemma {:induction false} SeveralIff(sides: set<string>)
    ensures |sides| > 1 <==> exists s, t :: s in sides && t in sides && s != t
  {
    if s, t :| s in sides && t in sides && s != t {
      assert t in sides - {s};
      assert sides == {s} + (sides - {s});
    }
    if |sides| > 1 {
      var s :| s in sides;
      assert sides == {s} + (sides - {s});
      var t :| t in sides - {s};
    }
  }
}
