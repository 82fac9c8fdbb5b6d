// What one missing measurement does to the cold-agent probe and the negative control
// (scripts/acceptance/substrate_acceptance_window.py, judge_f2 and judge_negative_control).

module ProbeLoss {
  import opened Sequences
  import opened Samples
  import opened Episodes
  import opened Series
  import opened Assurances
  import opened Falsifications
  import opened ProbeMeaning
  import opened Acceptance
  import opened FieldLaws
  import opened Absence

  // ------------------------------------------- the two samples a restart turns on

  /** Sample a is the last one before i, at or before t, that carries an expiry. */
  ghost predicate PriorExpiry(samples: seq<Sample>, t: int, i: int, a: int)
  {
    && 0 <= a < i < |samples| && samples[a].at <= t && samples[a].notAfter.Some?
    && forall q :: a < q < i ==> !(samples[q].at <= t && samples[q].notAfter.Some?)
  }

  /** Sample k is the first one after i, at or after t, in which an SVID with an expiry is served. */
  ghost predicate NextServed(samples: seq<Sample>, t: int, i: int, k: int)
  {
    && 0 <= i < k < |samples| && samples[k].at >= t && samples[k].svid == Ok && samples[k].notAfter.Some?
    && forall q :: i < q < k ==> !(samples[q].at >= t && samples[q].svid == Ok && samples[q].notAfter.Some?)
  }

  /** Something is measured before the restart, and sample a is the last such. */
  lemma {:induction false} LastBefore(samples: seq<Sample>, t: int)
    returns (a: nat)
    requires Keep(samples, MeasuredUpTo(t)) != []
    ensures LastExpiryBy(samples, t, a)
    ensures var before := Keep(samples, MeasuredUpTo(t)); before[|before| - 1] == samples[a]
  {
    a := KeepLast(samples, MeasuredUpTo(t));
  }

  lemma {:induction false} FirstAfter(samples: seq<Sample>, t: int)
    returns (k: nat)
    requires Keep(samples, ServedFrom(t)) != []
    ensures FirstServedFrom(samples, t, k)
    ensures Keep(samples, ServedFrom(t))[0] == samples[k]
  {
    k := KeepFirst(samples, ServedFrom(t));
  }

  lemma {:induction false} NothingBefore(samples: seq<Sample>, t: int)
    ensures Keep(samples, MeasuredUpTo(t)) == [] <==> forall a :: !LastExpiryBy(samples, t, a)
  {
    KeepEmpty(samples, MeasuredUpTo(t));
    if Keep(samples, MeasuredUpTo(t)) != [] {
      var a := LastBefore(samples, t);
    }
  }

  lemma {:induction false} NothingAfter(samples: seq<Sample>, t: int)
    ensures Keep(samples, ServedFrom(t)) == [] <==> forall k :: !FirstServedFrom(samples, t, k)
  {
    KeepEmpty(samples, ServedFrom(t));
    if Keep(samples, ServedFrom(t)) != [] {
      var k := FirstAfter(samples, t);
    }
  }

  /** What F2 has against the return from a restart whose two samples are pre and post. */
  predicate BadReturn(pre: Sample, post: Sample)
  {
    ReservedOldCredential(pre, post) || Z1Grade(post) == Violated
  }

  /** F2's complaints about one closed episode, by the positions of the two samples instead of by lists. */
  ghost predicate ViolatedAt(samples: seq<Sample>, overlap: int, start: int, end: int)
  {
    || end - start < overlap
    || exists a ::
         && LastExpiryBy(samples, start, a)
         && ((forall k :: !FirstServedFrom(samples, end, k)) ||
             exists k :: FirstServedFrom(samples, end, k) &&
                         (BadReturn(samples[a], samples[k]) || Touched(samples, start, end)))
  }

  ghost predicate UnmeasuredAt(samples: seq<Sample>, start: int, end: int)
  {
    || (forall a :: !LastExpiryBy(samples, start, a))
    || exists k :: FirstServedFrom(samples, end, k) && Z1Grade(samples[k]) == Gap
  }

  lemma {:induction false} RestartByPosition(samples: seq<Sample>, overlap: int, e: Episode)
    requires e.end.Some?
    ensures RestartViolated(samples, overlap, e) <==> ViolatedAt(samples, overlap, e.start, e.end.value)
  {
    var start, end := e.start, e.end.value;
    NothingBefore(samples, start);
    NothingAfter(samples, end);
    if Keep(samples, MeasuredUpTo(start)) != [] {
      var a := LastBefore(samples, start);
      assert forall a' :: LastExpiryBy(samples, start, a') ==> a' == a;
      if Keep(samples, ServedFrom(end)) != [] {
        var k := FirstAfter(samples, end);
        assert forall k' :: FirstServedFrom(samples, end, k') ==> k' == k;
      }
    }
  }

  lemma {:induction false} RestartGapByPosition(samples: seq<Sample>, e: Episode)
    requires e.end.Some?
    ensures RestartUnmeasured(samples, e) <==> UnmeasuredAt(samples, e.start, e.end.value)
  {
    NothingBefore(samples, e.start);
    NothingAfter(samples, e.end.value);
    if Keep(samples, ServedFrom(e.end.value)) != [] {
      var k := FirstAfter(samples, e.end.value);
      assert forall k' :: FirstServedFrom(samples, e.end.value, k') ==> k' == k;
    }
  }

  // ------------------------------------------------------------ after the loss

  lemma {:induction false} PreAfterLoss(samples: seq<Sample>, t: int, i: nat, field: Field, a: int)
    requires i < |samples|
    ensures LastExpiryBy(Lost(samples, i, field), t, a) <==>
            if field == Expiry && LastExpiryBy(samples, t, i) then PriorExpiry(samples, t, i, a)
            else LastExpiryBy(samples, t, a)
  {
    var y := Lost(samples, i, field);
    assert forall q :: 0 <= q < |y| && q != i ==> y[q] == samples[q];
    assert y[i] == Erase(samples[i], field);
  }

  lemma {:induction false} PostAfterLoss(samples: seq<Sample>, t: int, i: nat, field: Field, k: int)
    requires i < |samples|
    ensures FirstServedFrom(Lost(samples, i, field), t, k) <==>
            if FeedsZ2(field) && FirstServedFrom(samples, t, i) then NextServed(samples, t, i, k)
            else FirstServedFrom(samples, t, k)
  {
    var y := Lost(samples, i, field);
    assert forall q :: 0 <= q < |y| && q != i ==> y[q] == samples[q];
    assert y[i] == Erase(samples[i], field);
  }

  /** A missing mtime hides a touched volume; it never makes an untouched one look touched. */
  lemma {:induction false} TouchedAfterLoss(samples: seq<Sample>, start: int, end: int, i: nat, field: Field)
    requires i < |samples|
    ensures Touched(Lost(samples, i, field), start, end) ==> Touched(samples, start, end)
  {
    var y := Lost(samples, i, field);
    TouchedIff(samples, start, end);
    TouchedIff(y, start, end);
    if Touched(y, start, end) {
      var a, b :| FirstAt(y, start, a) && FirstAt(y, end, b) && y[a].agentMtime.Some? && y[b].agentMtime.Some? &&
                  y[a].agentMtime != y[b].agentMtime;
      FirstAtAfterLoss(samples, start, i, field, a);
      FirstAtAfterLoss(samples, end, i, field, b);
    }
  }

  lemma {:induction false} FirstAtAfterLoss(samples: seq<Sample>, t: int, i: nat, field: Field, a: int)
    requires i < |samples| && FirstAt(Lost(samples, i, field), t, a)
    ensures FirstAt(samples, t, a)
    ensures var y := Lost(samples, i, field);
      y[a].agentMtime.Some? ==> y[a].agentMtime == samples[a].agentMtime
  {
    var y := Lost(samples, i, field);
    assert forall q :: 0 <= q < |y| ==> y[q].at == samples[q].at;
  }

  /**
   * The first sample served after the restart loses its status or its expiry, and nothing is served later, or the
   * next credential served is an old one or chains outside its bundle.
   */
  ghost predicate ReturnLost(samples: seq<Sample>, start: int, end: int, i: int, field: Field)
  {
    && FeedsZ2(field) && FirstServedFrom(samples, end, i)
    && exists a ::
         && LastExpiryBy(samples, start, a)
         && forall k :: NextServed(samples, end, i, k) ==> BadReturn(samples[a], samples[k])
  }

  /** The last expiry before the restart is lost, and the one before it is no earlier than what was served afterwards. */
  ghost predicate LaterExpiryExposed(samples: seq<Sample>, start: int, end: int, i: int, field: Field)
  {
    && field == Expiry && LastExpiryBy(samples, start, i)
    && exists a, k ::
         && PriorExpiry(samples, start, i, a)
         && FirstServedFrom(samples, end, k)
         && samples[k].notAfter.value <= samples[a].notAfter.value
  }

  ghost predicate RestartLossIsAFinding(samples: seq<Sample>, e: Episode, i: int, field: Field)
  {
    && e.end.Some?
    && (ReturnLost(samples, e.start, e.end.value, i, field) ||
        LaterExpiryExposed(samples, e.start, e.end.value, i, field))
  }

  lemma {:induction false} RestartAfterLoss(samples: seq<Sample>, overlap: int, e: Episode, i: nat, field: Field)
    requires i < |samples| && !RestartViolated(samples, overlap, e)
    ensures RestartViolated(Lost(samples, i, field), overlap, e) <==> RestartLossIsAFinding(samples, e, i, field)
  {
    if e.end.Some? {
      RestartByPosition(samples, overlap, e);
      RestartByPosition(Lost(samples, i, field), overlap, e);
      ViolatedAfterLoss(samples, overlap, e.start, e.end.value, i, field);
    }
  }

  lemma {:induction false} ViolatedAfterLoss(
    samples: seq<Sample>, overlap: int, start: int, end: int, i: nat, field: Field)
    requires i < |samples| && !ViolatedAt(samples, overlap, start, end)
    ensures ViolatedAt(Lost(samples, i, field), overlap, start, end) <==>
            ReturnLost(samples, start, end, i, field) || LaterExpiryExposed(samples, start, end, i, field)
  {
    NothingBefore(samples, start);
    if Keep(samples, MeasuredUpTo(start)) == [] {
      forall a: int
        ensures !LastExpiryBy(Lost(samples, i, field), start, a)
      {
        PreAfterLoss(samples, start, i, field, a);
      }
    } else {
      var a := LastBefore(samples, start);
      NothingAfter(samples, end);
      assert exists k :: FirstServedFrom(samples, end, k);
      var k :| FirstServedFrom(samples, end, k);
      TouchedAfterLoss(samples, start, end, i, field);
      ComparedAfterLoss(samples, overlap, start, end, i, field, a, k);
    }
  }

  /** Sample a is the last expiry before the restart, sample k the first served after it, and they compare well. */
  ghost predicate Compared(samples: seq<Sample>, start: int, end: int, a: int, k: int)
  {
    LastExpiryBy(samples, start, a) && FirstServedFrom(samples, end, k) && !BadReturn(samples[a], samples[k])
  }

  /** The two samples after the loss. */
  lemma {:induction false} EndsAfterLoss(
    samples: seq<Sample>, start: int, end: int, i: nat, field: Field, a: nat, k: nat, q: int)
    requires i < |samples| && Compared(samples, start, end, a, k)
    ensures LastExpiryBy(Lost(samples, i, field), start, q) <==>
            if field == Expiry && i == a then PriorExpiry(samples, start, i, q) else q == a
    ensures FirstServedFrom(Lost(samples, i, field), end, q) <==>
            if FeedsZ2(field) && i == k then NextServed(samples, end, i, q) else q == k
  {
    PreAfterLoss(samples, start, i, field, q);
    PostAfterLoss(samples, end, i, field, q);
    assert LastExpiryBy(samples, start, i) <==> i == a;
    assert FirstServedFrom(samples, end, i) <==> i == k;
    assert LastExpiryBy(samples, start, q) <==> q == a;
    assert FirstServedFrom(samples, end, q) <==> q == k;
  }

  lemma {:induction false} ComparedAfterLoss(
    samples: seq<Sample>, overlap: int, start: int, end: int, i: nat, field: Field, a: nat, k: nat)
    requires i < |samples| && end - start >= overlap
    requires Compared(samples, start, end, a, k) && !Touched(Lost(samples, i, field), start, end)
    ensures ViolatedAt(Lost(samples, i, field), overlap, start, end) <==>
            ReturnLost(samples, start, end, i, field) || LaterExpiryExposed(samples, start, end, i, field)
  {
    var y := Lost(samples, i, field);
    forall q: int
      ensures LastExpiryBy(y, start, q) <==>
              if field == Expiry && i == a then PriorExpiry(samples, start, i, q) else q == a
      ensures FirstServedFrom(y, end, q) <==>
              if FeedsZ2(field) && i == k then NextServed(samples, end, i, q) else q == k
    {
      EndsAfterLoss(samples, start, end, i, field, a, k, q);
    }
    if FeedsZ2(field) && i == k {
      ReturnAfterLoss(samples, y, overlap, start, end, field, a, k);
    } else if field == Expiry && i == a {
      PreviousAfterLoss(samples, y, overlap, start, end, a, k);
    } else {
      assert y[a].notAfter == samples[a].notAfter && y[k].notAfter == samples[k].notAfter;
      assert Z1Grade(y[k]) != Violated;
      assert !BadReturn(y[a], y[k]);
      assert LastExpiryBy(samples, start, i) ==> i == a;
      assert FirstServedFrom(samples, end, i) ==> i == k;
    }
  }

  /** The first sample served is lost. */
  lemma {:induction false} ReturnAfterLoss(
    samples: seq<Sample>, y: seq<Sample>, overlap: int, start: int, end: int, field: Field, a: nat, k: nat)
    requires end - start >= overlap && FeedsZ2(field)
    requires Compared(samples, start, end, a, k) && y == Lost(samples, k, field) && !Touched(y, start, end)
    requires forall q :: LastExpiryBy(y, start, q) <==> q == a
    requires forall q :: FirstServedFrom(y, end, q) <==> NextServed(samples, end, k, q)
    ensures ViolatedAt(y, overlap, start, end) <==>
            ReturnLost(samples, start, end, k, field) || LaterExpiryExposed(samples, start, end, k, field)
  {
    assert LastExpiryBy(samples, start, k) ==> k == a;
    assert a != k && y[a] == samples[a];
    forall q | NextServed(samples, end, k, q)
      ensures FirstServedFrom(y, end, q) && y[q] == samples[q]
      ensures forall q' :: NextServed(samples, end, k, q') ==> q' == q
    {
    }
    assert forall a' :: LastExpiryBy(samples, start, a') ==> a' == a;
  }

  /** The last expiry before the restart is lost. */
  lemma {:induction false} PreviousAfterLoss(
    samples: seq<Sample>, y: seq<Sample>, overlap: int, start: int, end: int, a: nat, k: nat)
    requires end - start >= overlap && a != k
    requires Compared(samples, start, end, a, k) && y == Lost(samples, a, Expiry) && !Touched(y, start, end)
    requires forall q :: LastExpiryBy(y, start, q) <==> PriorExpiry(samples, start, a, q)
    requires forall q :: FirstServedFrom(y, end, q) <==> q == k
    ensures ViolatedAt(y, overlap, start, end) <==>
            ReturnLost(samples, start, end, a, Expiry) || LaterExpiryExposed(samples, start, end, a, Expiry)
  {
    assert FirstServedFrom(samples, end, a) ==> a == k;
    assert FirstServedFrom(y, end, k) && y[k] == samples[k];
    forall q | PriorExpiry(samples, start, a, q)
      ensures LastExpiryBy(y, start, q) && y[q] == samples[q]
    {
    }
    assert forall k' :: FirstServedFrom(samples, end, k') ==> k' == k;
  }

  /**
   * What leaves a proved restart unmeasured: the first sample served loses its authority or gives way to one whose
   * authority is missing, or the only expiry before the restart is lost.
   */
  ghost predicate RestartLossIsAGap(samples: seq<Sample>, e: Episode, i: int, field: Field)
    requires e.end.Some?
  {
    || (FirstServedFrom(samples, e.end.value, i) && FeedsZ1(field) && field != SvidStatus)
    || (field == Expiry && LastExpiryBy(samples, e.start, i) && forall a :: !PriorExpiry(samples, e.start, i, a))
    || (FirstServedFrom(samples, e.end.value, i) && FeedsZ2(field) &&
        exists k :: NextServed(samples, e.end.value, i, k) && Z1Grade(samples[k]) == Gap)
  }

  lemma {:induction false} RestartGapAfterLoss(samples: seq<Sample>, overlap: int, e: Episode, i: nat, field: Field)
    requires i < |samples| && ColdRestartProved(samples, overlap, e)
    ensures RestartUnmeasured(Lost(samples, i, field), e) <==> RestartLossIsAGap(samples, e, i, field)
  {
    var a, k :| LastExpiryBy(samples, e.start, a) && FirstServedFrom(samples, e.end.value, k) &&
                samples[a].notAfter.value < samples[k].notAfter.value && ChainsToBundle(samples[k]);
    ChainsIff(samples[k]);
    RestartGapByPosition(Lost(samples, i, field), e);
    assert LastExpiryBy(samples, e.start, i) <==> i == a;
    assert FirstServedFrom(samples, e.end.value, i) <==> i == k;
    PreGapAfterLoss(samples, e.start, e.end.value, i, field, a, k);
    PostGapAfterLoss(samples, e.start, e.end.value, i, field, a, k);
  }

  lemma {:induction false} PreGapAfterLoss(
    samples: seq<Sample>, start: int, end: int, i: nat, field: Field, a: nat, k: nat)
    requires i < |samples| && Compared(samples, start, end, a, k)
    ensures (forall q :: !LastExpiryBy(Lost(samples, i, field), start, q)) <==>
            field == Expiry && i == a && forall q :: !PriorExpiry(samples, start, i, q)
  {
    forall q: int
      ensures LastExpiryBy(Lost(samples, i, field), start, q) <==>
              if field == Expiry && i == a then PriorExpiry(samples, start, i, q) else q == a
    {
      EndsAfterLoss(samples, start, end, i, field, a, k, q);
    }
    if field == Expiry && i == a {
      forall q | PriorExpiry(samples, start, i, q)
        ensures LastExpiryBy(Lost(samples, i, field), start, q)
      {
      }
    } else {
      assert LastExpiryBy(Lost(samples, i, field), start, a);
    }
  }

  lemma {:induction false} PostGapAfterLoss(
    samples: seq<Sample>, start: int, end: int, i: nat, field: Field, a: nat, k: nat)
    requires i < |samples| && Compared(samples, start, end, a, k) && Z1Grade(samples[k]) == Sound
    ensures var y := Lost(samples, i, field);
      (exists q :: FirstServedFrom(y, end, q) && Z1Grade(y[q]) == Gap) <==>
        i == k && if FeedsZ2(field) then exists q :: NextServed(samples, end, i, q) && Z1Grade(samples[q]) == Gap
                  else FeedsZ1(field)
  {
    var y := Lost(samples, i, field);
    forall q: int
      ensures FirstServedFrom(y, end, q) <==>
              if FeedsZ2(field) && i == k then NextServed(samples, end, i, q) else q == k
    {
      EndsAfterLoss(samples, start, end, i, field, a, k, q);
    }
    if FeedsZ2(field) && i == k {
      assert forall q :: NextServed(samples, end, i, q) ==> y[q] == samples[q];
    } else {
      assert FirstServedFrom(y, end, k);
      assert Z1Grade(y[k]) == Gap <==> i == k && FeedsZ1(field);
    }
  }

  // -------------------------------------------------- an objection that vanishes

  /** The credential served afterwards is strictly newer and chains to the bundle. */
  predicate GoodReturn(pre: Sample, post: Sample)
  {
    && pre.notAfter.Some? && post.notAfter.Some? && pre.notAfter.value < post.notAfter.value
    && ChainsToBundle(post)
  }

  /** What is left to compare after the loss, read off the series before it. */
  ghost predicate PairAfterLoss(samples: seq<Sample>, start: int, end: int, i: int, field: Field, a: int, k: int)
  {
    && (if field == Expiry && LastExpiryBy(samples, start, i) then PriorExpiry(samples, start, i, a)
        else LastExpiryBy(samples, start, a))
    && (if FeedsZ2(field) && FirstServedFrom(samples, end, i) then NextServed(samples, end, i, k)
        else FirstServedFrom(samples, end, k))
  }

  /** The loss takes one of the two mtimes that show whether the volume was touched. */
  ghost predicate TouchUnseen(samples: seq<Sample>, start: int, end: int, i: int, field: Field)
  {
    field == AgentDataMtime && (FirstAt(samples, start, i) || FirstAt(samples, end, i))
  }

  lemma {:induction false} TouchedAfterLossIff(samples: seq<Sample>, start: int, end: int, i: nat, field: Field)
    requires i < |samples|
    ensures Touched(Lost(samples, i, field), start, end) <==>
            Touched(samples, start, end) && !TouchUnseen(samples, start, end, i, field)
  {
    var y := Lost(samples, i, field);
    TouchedAfterLoss(samples, start, end, i, field);
    TouchedIff(samples, start, end);
    TouchedIff(y, start, end);
    if Touched(samples, start, end) {
      var a, b :| FirstAt(samples, start, a) && FirstAt(samples, end, b) && samples[a].agentMtime.Some? &&
                  samples[b].agentMtime.Some? && samples[a].agentMtime != samples[b].agentMtime;
      FirstAtBeforeLoss(samples, start, i, field, a);
      FirstAtBeforeLoss(samples, end, i, field, b);
      assert forall q :: FirstAt(y, start, q) ==> q == a;
      assert forall q :: FirstAt(y, end, q) ==> q == b;
      assert forall q :: FirstAt(samples, start, q) ==> q == a;
      assert forall q :: FirstAt(samples, end, q) ==> q == b;
    }
  }

  lemma {:induction false} FirstAtBeforeLoss(samples: seq<Sample>, t: int, i: nat, field: Field, a: int)
    requires i < |samples| && FirstAt(samples, t, a)
    ensures var y := Lost(samples, i, field);
      && FirstAt(y, t, a)
      && y[a].agentMtime == if a == i && field == AgentDataMtime then None else samples[a].agentMtime
  {
    var y := Lost(samples, i, field);
    assert forall q :: 0 <= q < |y| ==> y[q].at == samples[q].at;
  }

  /** A restart is proved after the loss iff what is left to compare compares well and no touch is seen. */
  lemma {:induction false} ProvedAfterLossIff(samples: seq<Sample>, overlap: int, e: Episode, i: nat, field: Field)
    requires i < |samples| && e.end.Some?
    ensures ColdRestartProved(Lost(samples, i, field), overlap, e) <==>
            && e.end.value - e.start >= overlap
            && (Touched(samples, e.start, e.end.value) ==> TouchUnseen(samples, e.start, e.end.value, i, field))
            && exists a, k ::
                 && PairAfterLoss(samples, e.start, e.end.value, i, field, a, k)
                 && GoodReturn(samples[a], samples[k]) && !(k == i && FeedsZ1(field))
  {
    var start, end, y := e.start, e.end.value, Lost(samples, i, field);
    TouchedAfterLossIff(samples, start, end, i, field);
    forall a: int, k: int
      ensures LastExpiryBy(y, start, a) && FirstServedFrom(y, end, k) <==> PairAfterLoss(samples, start, end, i, field, a, k)
      ensures PairAfterLoss(samples, start, end, i, field, a, k) ==>
                (GoodReturn(y[a], y[k]) <==> GoodReturn(samples[a], samples[k]) && !(k == i && FeedsZ1(field)))
    {
      PreAfterLoss(samples, start, i, field, a);
      PostAfterLoss(samples, end, i, field, k);
      if PairAfterLoss(samples, start, end, i, field, a, k) {
        ReturnAfterLossIff(samples, start, end, i, field, a, k);
      }
    }
    ProvedIff(y, overlap, e);
  }

  lemma {:induction false} ProvedIff(samples: seq<Sample>, overlap: int, e: Episode)
    requires e.end.Some?
    ensures ColdRestartProved(samples, overlap, e) <==>
            && e.end.value - e.start >= overlap && !Touched(samples, e.start, e.end.value)
            && exists a, k ::
                 && LastExpiryBy(samples, e.start, a) && FirstServedFrom(samples, e.end.value, k)
                 && GoodReturn(samples[a], samples[k])
  {
    TouchedIff(samples, e.start, e.end.value);
  }

  lemma {:induction false} ReturnAfterLossIff(
    samples: seq<Sample>, start: int, end: int, i: nat, field: Field, a: int, k: int)
    requires i < |samples|
    requires LastExpiryBy(Lost(samples, i, field), start, a) && FirstServedFrom(Lost(samples, i, field), end, k)
    ensures var y := Lost(samples, i, field);
      GoodReturn(y[a], y[k]) <==> GoodReturn(samples[a], samples[k]) && !(k == i && FeedsZ1(field))
  {
    var y := Lost(samples, i, field);
    assert y[a].notAfter == samples[a].notAfter && y[k].notAfter == samples[k].notAfter;
    assert k != i ==> y[k] == samples[k];
    assert k == i ==> (ChainsToBundle(y[k]) <==> ChainsToBundle(samples[k]) && !FeedsZ1(field));
  }

  /** The volume was seen to be touched, the loss takes one of the two mtimes, and all else is well. */
  ghost predicate TouchHidden(samples: seq<Sample>, start: int, end: int, i: int, field: Field)
  {
    && Touched(samples, start, end) && TouchUnseen(samples, start, end, i, field)
    && exists a, k ::
         LastExpiryBy(samples, start, a) && FirstServedFrom(samples, end, k) && GoodReturn(samples[a], samples[k])
  }

  /** The last expiry before the stop was not beaten, it is lost, and the one before it is beaten. */
  ghost predicate UnbeatenExpiryHidden(samples: seq<Sample>, start: int, end: int, i: int, field: Field)
  {
    && !Touched(samples, start, end)
    && field == Expiry && LastExpiryBy(samples, start, i) && !FirstServedFrom(samples, end, i)
    && exists a, k ::
         && PriorExpiry(samples, start, i, a) && FirstServedFrom(samples, end, k) && GoodReturn(samples[a], samples[k])
         && samples[k].notAfter.value <= samples[i].notAfter.value
  }

  /** The first sample served was bad or not measured well enough, it is lost, and the next one is good. */
  ghost predicate BadReturnHidden(samples: seq<Sample>, start: int, end: int, i: int, field: Field)
  {
    && !Touched(samples, start, end)
    && FeedsZ2(field) && FirstServedFrom(samples, end, i) && !(field == Expiry && LastExpiryBy(samples, start, i))
    && exists a, k ::
         && LastExpiryBy(samples, start, a) && NextServed(samples, end, i, k) && GoodReturn(samples[a], samples[k])
         && !GoodReturn(samples[a], samples[i])
  }

  /** One sample was both, so that it was compared with itself; without it the comparison is a real one and good. */
  ghost predicate SelfComparisonHidden(samples: seq<Sample>, start: int, end: int, i: int, field: Field)
  {
    && !Touched(samples, start, end)
    && field == Expiry && LastExpiryBy(samples, start, i) && FirstServedFrom(samples, end, i)
    && exists a, k ::
         PriorExpiry(samples, start, i, a) && NextServed(samples, end, i, k) && GoodReturn(samples[a], samples[k])
  }

  ghost predicate ObjectionHidden(samples: seq<Sample>, start: int, end: int, i: int, field: Field)
  {
    || TouchHidden(samples, start, end, i, field)
    || UnbeatenExpiryHidden(samples, start, end, i, field)
    || BadReturnHidden(samples, start, end, i, field)
    || SelfComparisonHidden(samples, start, end, i, field)
  }

  /** F2's objection to this restart rests on the lost value alone. */
  ghost predicate ObjectionVanishes(samples: seq<Sample>, overlap: int, e: Episode, i: int, field: Field)
  {
    && e.end.Some? && e.end.value - e.start >= overlap
    && ObjectionHidden(samples, e.start, e.end.value, i, field)
  }

  lemma {:induction false} VanishingMeansObjection(samples: seq<Sample>, overlap: int, e: Episode, i: nat, field: Field)
    requires i < |samples| && ObjectionVanishes(samples, overlap, e, i, field)
    ensures !ColdRestartProved(samples, overlap, e)
  {
    ProvedIff(samples, overlap, e);
    var start, end := e.start, e.end.value;
    assert forall a, b :: LastExpiryBy(samples, start, a) && LastExpiryBy(samples, start, b) ==> a == b;
    assert forall a, b :: FirstServedFrom(samples, end, a) && FirstServedFrom(samples, end, b) ==> a == b;
  }

  /** A restart that was not proved is proved after the loss exactly when the objection vanishes. */
  lemma {:induction false} VanishesIff(samples: seq<Sample>, overlap: int, e: Episode, i: nat, field: Field)
    requires i < |samples| && e.end.Some? && !ColdRestartProved(samples, overlap, e)
    ensures ColdRestartProved(Lost(samples, i, field), overlap, e) <==>
            ObjectionVanishes(samples, overlap, e, i, field)
  {
    ProvedAfterLossIff(samples, overlap, e, i, field);
    if ColdRestartProved(Lost(samples, i, field), overlap, e) {
      NowProved(samples, overlap, e, i, field);
    }
    if ObjectionVanishes(samples, overlap, e, i, field) {
      var a, k := VanishedPair(samples, e.start, e.end.value, i, field);
    }
  }

  lemma {:induction false} NowProved(samples: seq<Sample>, overlap: int, e: Episode, i: nat, field: Field)
    requires i < |samples| && e.end.Some? && !ColdRestartProved(samples, overlap, e)
    requires ColdRestartProved(Lost(samples, i, field), overlap, e)
    ensures ObjectionVanishes(samples, overlap, e, i, field)
  {
    var start, end := e.start, e.end.value;
    ProvedIff(samples, overlap, e);
    ProvedAfterLossIff(samples, overlap, e, i, field);
    var a, k :| PairAfterLoss(samples, start, end, i, field, a, k) && GoodReturn(samples[a], samples[k]) &&
                !(k == i && FeedsZ1(field));
    ProvedHasVanished(samples, start, end, i, field, a, k);
  }

  /** Forwards: which of the four objections it was. */
  lemma {:induction false} ProvedHasVanished(
    samples: seq<Sample>, start: int, end: int, i: nat, field: Field, a: int, k: int)
    requires i < |samples| && PairAfterLoss(samples, start, end, i, field, a, k) && GoodReturn(samples[a], samples[k])
    requires Touched(samples, start, end) ==> TouchUnseen(samples, start, end, i, field)
    requires !Touched(samples, start, end) ==> forall a', k' ::
               LastExpiryBy(samples, start, a') && FirstServedFrom(samples, end, k') ==>
                 !GoodReturn(samples[a'], samples[k'])
    ensures ObjectionHidden(samples, start, end, i, field)
  {
    if Touched(samples, start, end) {
      assert LastExpiryBy(samples, start, a) && FirstServedFrom(samples, end, k);
    } else if field == Expiry && LastExpiryBy(samples, start, i) {
      assert !FirstServedFrom(samples, end, i) ==> FirstServedFrom(samples, end, k) && !GoodReturn(samples[i], samples[k]);
    } else {
      assert LastExpiryBy(samples, start, a);
      assert FeedsZ2(field) && FirstServedFrom(samples, end, i);
    }
  }

  /** Backwards: the good pair each of them leaves. */
  lemma {:induction false} VanishedPair(samples: seq<Sample>, start: int, end: int, i: nat, field: Field)
    returns (a: int, k: int)
    requires i < |samples| && ObjectionHidden(samples, start, end, i, field)
    ensures PairAfterLoss(samples, start, end, i, field, a, k) && GoodReturn(samples[a], samples[k])
    ensures !(k == i && FeedsZ1(field))
    ensures Touched(samples, start, end) ==> TouchUnseen(samples, start, end, i, field)
  {
    if TouchHidden(samples, start, end, i, field) {
      a, k :| LastExpiryBy(samples, start, a) && FirstServedFrom(samples, end, k) && GoodReturn(samples[a], samples[k]);
    } else if UnbeatenExpiryHidden(samples, start, end, i, field) {
      a, k :| PriorExpiry(samples, start, i, a) && FirstServedFrom(samples, end, k) && GoodReturn(samples[a], samples[k]);
    } else if BadReturnHidden(samples, start, end, i, field) {
      a, k :| LastExpiryBy(samples, start, a) && NextServed(samples, end, i, k) && GoodReturn(samples[a], samples[k]);
    } else {
      a, k :| PriorExpiry(samples, start, i, a) && NextServed(samples, end, i, k) && GoodReturn(samples[a], samples[k]);
    }
  }

  /** A restart is proved after the loss: it was, and the loss is neither a finding nor a gap, or the objection vanishes. */
  ghost predicate ProvedWithout(samples: seq<Sample>, overlap: int, e: Episode, i: int, field: Field)
  {
    || (ColdRestartProved(samples, overlap, e) && !RestartLossIsAFinding(samples, e, i, field) &&
        !RestartLossIsAGap(samples, e, i, field))
    || ObjectionVanishes(samples, overlap, e, i, field)
  }

  lemma {:induction false} ProvedWithoutIff(samples: seq<Sample>, overlap: int, e: Episode, i: nat, field: Field)
    requires i < |samples|
    ensures ColdRestartProved(Lost(samples, i, field), overlap, e) <==> ProvedWithout(samples, overlap, e, i, field)
  {
    if ColdRestartProved(samples, overlap, e) {
      ColdRestartIff(samples, overlap, e);
      ColdRestartIff(Lost(samples, i, field), overlap, e);
      RestartAfterLoss(samples, overlap, e, i, field);
      RestartGapAfterLoss(samples, overlap, e, i, field);
      if ObjectionVanishes(samples, overlap, e, i, field) {
        VanishingMeansObjection(samples, overlap, e, i, field);
      }
    } else if e.end.Some? {
      VanishesIff(samples, overlap, e, i, field);
    }
  }

  // ---------------------------------------------------------------- F2 as a whole

  /** F2 over the cold episodes, as a set rather than a list. */
  lemma {:induction false} F2ByEpisode(samples: seq<Sample>, episodes: seq<Episode>, overlap: int)
    ensures F2State(samples, episodes, overlap) == FAIL <==>
            exists e :: e in episodes && e.kind == ColdAgent && RestartViolated(samples, overlap, e)
    ensures F2State(samples, episodes, overlap) == PASS <==> ColdRestartsHold(samples, episodes, overlap)
  {
    var cold := Keep(episodes, OfKind(ColdAgent));
    KindMembership(episodes, ColdAgent);
    F2PassIff(samples, episodes, overlap);
    assert forall i :: 0 <= i < |cold| ==> cold[i] in cold;
  }

  /** Down too shortly, not back, back with an old credential or outside the bundle, or seen to be touched. */
  ghost predicate RestartBad(samples: seq<Sample>, overlap: int, start: int, end: int)
  {
    || end - start < overlap
    || exists a ::
         && LastExpiryBy(samples, start, a)
         && ((forall k :: !FirstServedFrom(samples, end, k)) ||
             exists k :: FirstServedFrom(samples, end, k) &&
               (samples[k].notAfter.value <= samples[a].notAfter.value || ChainBad(samples[k]) ||
                SeenTouched(samples, start, end)))
  }

  /** Nothing to compare with, or a return whose authority was not measured. */
  ghost predicate RestartUnknown(samples: seq<Sample>, start: int, end: int)
  {
    || (forall a :: !LastExpiryBy(samples, start, a))
    || exists k :: FirstServedFrom(samples, end, k) && ChainUnknown(samples[k])
  }

  lemma {:induction false} RestartFromFields(samples: seq<Sample>, overlap: int, e: Episode)
    requires e.end.Some?
    ensures RestartViolated(samples, overlap, e) <==> RestartBad(samples, overlap, e.start, e.end.value)
    ensures RestartUnmeasured(samples, e) <==> RestartUnknown(samples, e.start, e.end.value)
  {
    RestartByPosition(samples, overlap, e);
    RestartGapByPosition(samples, e);
    TouchedIff(samples, e.start, e.end.value);
    forall s: Sample
      ensures Z1Grade(s) == Violated <==> ChainBad(s)
      ensures Z1Grade(s) == Gap <==> ChainUnknown(s)
    {
      ChainGrades(s);
    }
  }

  /** F2 decided from the recorded fields of the samples around each cold restart. */
  lemma {:induction false} F2FromFields(samples: seq<Sample>, episodes: seq<Episode>, overlap: int)
    ensures F2State(samples, episodes, overlap) == FAIL <==>
            exists e :: e in episodes && e.kind == ColdAgent && e.end.Some? &&
              RestartBad(samples, overlap, e.start, e.end.value)
    ensures F2State(samples, episodes, overlap) == UNKNOWN <==>
            && F2State(samples, episodes, overlap) != FAIL
            && (|| (forall e :: e in episodes ==> e.kind != ColdAgent)
                || exists e :: e in episodes && e.kind == ColdAgent &&
                     (e.end.None? || RestartUnknown(samples, e.start, e.end.value)))
  {
    F2ByEpisode(samples, episodes, overlap);
    forall e | e in episodes && e.kind == ColdAgent
      ensures RestartViolated(samples, overlap, e) <==>
              e.end.Some? && RestartBad(samples, overlap, e.start, e.end.value)
      ensures RestartUnmeasured(samples, e) <==>
              e.end.None? || RestartUnknown(samples, e.start, e.end.value)
      ensures ColdRestartProved(samples, overlap, e) <==>
              !RestartViolated(samples, overlap, e) && !RestartUnmeasured(samples, e)
    {
      ColdRestartIff(samples, overlap, e);
      if e.end.Some? {
        RestartFromFields(samples, overlap, e);
      }
    }
  }

  ghost predicate F2LossIsAFinding(samples: seq<Sample>, episodes: seq<Episode>, i: int, field: Field)
  {
    exists e :: e in episodes && e.kind == ColdAgent && RestartLossIsAFinding(samples, e, i, field)
  }

  /**
   * F2 breaks the promise: a lost status or expiry is reported as a finding exactly when, for some cold restart, it
   * hides the return of the agent behind nothing or behind a worse sample, or exposes a later expiry before the stop.
   */
  lemma {:induction false} F2AfterLoss(samples: seq<Sample>, episodes: seq<Episode>, overlap: int, i: nat, field: Field)
    requires i < |samples| && F2State(samples, episodes, overlap) != FAIL
    ensures F2State(Lost(samples, i, field), episodes, overlap) == FAIL <==>
            F2LossIsAFinding(samples, episodes, i, field)
  {
    F2ByEpisode(samples, episodes, overlap);
    F2ByEpisode(Lost(samples, i, field), episodes, overlap);
    forall e | e in episodes && e.kind == ColdAgent
      ensures RestartViolated(Lost(samples, i, field), overlap, e) <==> RestartLossIsAFinding(samples, e, i, field)
    {
      RestartAfterLoss(samples, overlap, e, i, field);
    }
  }

  ghost predicate F2LossIsAGap(samples: seq<Sample>, episodes: seq<Episode>, i: int, field: Field)
  {
    exists e :: e in episodes && e.kind == ColdAgent && e.end.Some? && RestartLossIsAGap(samples, e, i, field)
  }

  /** Where F2 was green, all three outcomes of a loss. */
  lemma {:induction false} GreenF2AfterLoss(
    samples: seq<Sample>, episodes: seq<Episode>, overlap: int, i: nat, field: Field)
    requires i < |samples| && F2State(samples, episodes, overlap) == PASS
    ensures F2State(Lost(samples, i, field), episodes, overlap) ==
      if F2LossIsAFinding(samples, episodes, i, field) then FAIL
      else if F2LossIsAGap(samples, episodes, i, field) then UNKNOWN
      else PASS
  {
    var y := Lost(samples, i, field);
    F2AfterLoss(samples, episodes, overlap, i, field);
    F2ByEpisode(samples, episodes, overlap);
    F2ByEpisode(y, episodes, overlap);
    forall e | e in episodes && e.kind == ColdAgent
      ensures ColdRestartProved(y, overlap, e) <==> !RestartViolated(y, overlap, e) && !RestartUnmeasured(y, e)
      ensures e.end.Some? && (RestartUnmeasured(y, e) <==> RestartLossIsAGap(samples, e, i, field))
    {
      ColdRestartIff(y, overlap, e);
      RestartGapAfterLoss(samples, overlap, e, i, field);
    }
  }

  /** F2 is green after the loss iff there is a cold restart and every one of them is proved without the lost value. */
  lemma {:induction false} F2GreenAfterLossIff(
    samples: seq<Sample>, episodes: seq<Episode>, overlap: int, i: nat, field: Field)
    requires i < |samples|
    ensures F2State(Lost(samples, i, field), episodes, overlap) == PASS <==>
            && (exists e :: e in episodes && e.kind == ColdAgent)
            && (forall e :: e in episodes && e.kind == ColdAgent ==> ProvedWithout(samples, overlap, e, i, field))
  {
    F2ByEpisode(Lost(samples, i, field), episodes, overlap);
    forall e | e in episodes && e.kind == ColdAgent
      ensures ColdRestartProved(Lost(samples, i, field), overlap, e) <==> ProvedWithout(samples, overlap, e, i, field)
    {
      ProvedWithoutIff(samples, overlap, e, i, field);
    }
  }

  /**
   * The plainest case: if no sample from the restart on is both served and measured, F2 says that the agent did not
   * come back, even when nobody looked.
   */
  lemma {:induction false} UnmeasuredReturnIsAFinding(
    samples: seq<Sample>, episodes: seq<Episode>, overlap: int, e: Episode, a: nat)
    requires e in episodes && e.kind == ColdAgent && e.end.Some?
    requires a < |samples| && samples[a].at <= e.start && samples[a].notAfter.Some?
    requires forall k :: 0 <= k < |samples| && samples[k].at >= e.end.value ==>
               SourcePresent(samples[k].svid) == NotMeasured || samples[k].notAfter.None?
    ensures F2State(samples, episodes, overlap) == FAIL
  {
    F2ByEpisode(samples, episodes, overlap);
    KeepEmpty(samples, MeasuredUpTo(e.start));
    KeepEmpty(samples, ServedFrom(e.end.value));
  }

  // ------------------------------------------------------------- negative control

  /** Sample i is in the control and either one of the absent anchors it needs, or the only one still answering. */
  ghost predicate ControlLossIsAGap(samples: seq<Sample>, minAbsent: int, e: Episode, i: nat, field: Field)
    requires i < |samples|
  {
    && e.Contains(samples[i].at)
    && (|| (field == AnchorStatus && samples[i].anchor == TargetBad &&
            |Keep(Keep(samples, Within(e)), AnchorGone)| <= Max(1, minAbsent))
        || ((field == SvidStatus || field == BundleStatus) && OthersMeasured(samples[i]).Some? &&
            |Keep(Keep(samples, Within(e)), OthersMeasured)| <= 1))
  }

  /** A selection inside the control shrinks by one iff the erased sample was in it and no longer qualifies. */
  lemma {:induction false} SliceAfterLoss(
    samples: seq<Sample>, e: Episode, select: Sample -> Option<Sample>, i: nat, field: Field)
    requires i < |samples| && (select(Erase(samples[i], field)).Some? ==> select(samples[i]).Some?)
    ensures |Keep(Keep(Lost(samples, i, field), Within(e)), select)| ==
            |Keep(Keep(samples, Within(e)), select)| -
            if e.Contains(samples[i].at) && select(samples[i]).Some? && select(Erase(samples[i], field)).None?
            then 1 else 0
  {
    var x, both := Erase(samples[i], field), Then(Within(e), select);
    KeepThen(samples, Within(e), select);
    KeepThen(samples[i := x], Within(e), select);
    KeepCount(samples, both, i, x);
    assert both(x).Some? <==> e.Contains(samples[i].at) && select(x).Some?;
    assert both(samples[i]).Some? <==> e.Contains(samples[i].at) && select(samples[i]).Some?;
  }

  lemma {:induction false} ControlAfterLoss(samples: seq<Sample>, minAbsent: int, e: Episode, i: nat, field: Field)
    requires i < |samples| && ControlCarriedOut(samples, minAbsent, e)
    ensures ControlCarriedOut(Lost(samples, i, field), minAbsent, e) <==>
            !ControlLossIsAGap(samples, minAbsent, e, i, field)
  {
    AbsentAfterLoss(samples, e, i, field);
    OthersAfterLoss(samples, e, i, field);
  }

  lemma {:induction false} AbsentAfterLoss(samples: seq<Sample>, e: Episode, i: nat, field: Field)
    requires i < |samples|
    ensures |Keep(Keep(Lost(samples, i, field), Within(e)), AnchorGone)| ==
            |Keep(Keep(samples, Within(e)), AnchorGone)| -
            if e.Contains(samples[i].at) && field == AnchorStatus && samples[i].anchor == TargetBad then 1 else 0
  {
    SliceAfterLoss(samples, e, AnchorGone, i, field);
  }

  lemma {:induction false} OthersAfterLoss(samples: seq<Sample>, e: Episode, i: nat, field: Field)
    requires i < |samples|
    ensures |Keep(Keep(Lost(samples, i, field), Within(e)), OthersMeasured)| ==
            |Keep(Keep(samples, Within(e)), OthersMeasured)| -
            if e.Contains(samples[i].at) && (field == SvidStatus || field == BundleStatus) &&
               OthersMeasured(samples[i]).Some? then 1 else 0
  {
    SliceAfterLoss(samples, e, OthersMeasured, i, field);
  }

  ghost predicate SomeControlLossIsAGap(samples: seq<Sample>, episodes: seq<Episode>, minAbsent: int, i: nat, field: Field)
    requires i < |samples|
  {
    exists e :: e in episodes && e.kind == NegativeControl && ControlLossIsAGap(samples, minAbsent, e, i, field)
  }

  /** The negative control keeps the promise: a lost measurement can only leave it unknown. */
  lemma {:induction false} GreenControlAfterLoss(
    samples: seq<Sample>, episodes: seq<Episode>, minAbsent: int, i: nat, field: Field)
    requires i < |samples| && ControlState(samples, episodes, minAbsent) == PASS
    ensures ControlState(Lost(samples, i, field), episodes, minAbsent) ==
      if SomeControlLossIsAGap(samples, episodes, minAbsent, i, field) then UNKNOWN else PASS
  {
    var y := Lost(samples, i, field);
    ControlPassIff(samples, episodes, minAbsent);
    ControlPassIff(y, episodes, minAbsent);
    forall e | e in episodes && e.kind == NegativeControl
      ensures ControlShown(y, minAbsent, e) <==> !ControlLossIsAGap(samples, minAbsent, e, i, field)
    {
      ControlShownIff(samples, minAbsent, e);
      ControlShownIff(y, minAbsent, e);
      ControlAfterLoss(samples, minAbsent, e, i, field);
    }
  }

  /** A control that a loss leaves carried out was carried out before. */
  lemma {:induction false} ControlNeverRestored(samples: seq<Sample>, minAbsent: int, e: Episode, i: nat, field: Field)
    requires i < |samples| && ControlCarriedOut(Lost(samples, i, field), minAbsent, e)
    ensures ControlCarriedOut(samples, minAbsent, e)
  {
    AbsentAfterLoss(samples, e, i, field);
    OthersAfterLoss(samples, e, i, field);
  }

  /** The negative control does not turn green by a loss. */
  lemma {:induction false} ControlGreenAfterLossIff(
    samples: seq<Sample>, episodes: seq<Episode>, minAbsent: int, i: nat, field: Field)
    requires i < |samples|
    ensures ControlState(Lost(samples, i, field), episodes, minAbsent) == PASS <==>
            && ControlState(samples, episodes, minAbsent) == PASS
            && !SomeControlLossIsAGap(samples, episodes, minAbsent, i, field)
  {
    ControlPassIff(samples, episodes, minAbsent);
    ControlPassIff(Lost(samples, i, field), episodes, minAbsent);
    if ControlState(samples, episodes, minAbsent) == PASS {
      GreenControlAfterLoss(samples, episodes, minAbsent, i, field);
    } else if ControlsHold(Lost(samples, i, field), episodes, minAbsent) {
      forall e | e in episodes && e.kind == NegativeControl
        ensures ControlShown(samples, minAbsent, e)
      {
        ControlShownIff(samples, minAbsent, e);
        ControlShownIff(Lost(samples, i, field), minAbsent, e);
        ControlNeverRestored(samples, minAbsent, e, i, field);
      }
    }
  }
}
