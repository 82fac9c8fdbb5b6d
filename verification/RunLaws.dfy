// What any run of the bucket tools keeps, under every pattern of API failures,
// and how two runs relate when nothing fails
// (bin/nats_kv_bucket_provision.py, scripts/init-nats-buckets.py).

module RunLaws {
  import opened Sequences
  import opened KvCluster

  ghost predicate Extends(before: map<string, Bucket>, after: map<string, Bucket>)
  {
    forall n :: n in before ==> n in after && after[n] == before[n]
  }

  /** The state in front of item i. */
  function Before(w: World, faults: Faults, items: seq<Item>, dryRun: bool, i: nat): World
    requires i <= |items|
  {
    Run(w, faults, items[..i], dryRun).world
  }

  lemma {:induction false} RunAt(w: World, faults: Faults, items: seq<Item>, dryRun: bool, i: nat)
    requires i < |items|
    ensures var s := Ensure(Before(w, faults, items, dryRun, i), faults, items[i], dryRun);
      && Run(w, faults, items, dryRun).outcomes[i] == s.outcome
      && Before(w, faults, items, dryRun, i + 1) == s.world
    decreases |items|
  {
    var n := |items| - 1;
    if i < n {
      RunAt(w, faults, items[..n], dryRun, i);
      assert items[..n][..i] == items[..i] && items[..n][..i + 1] == items[..i + 1];
    } else {
      assert items[..i + 1] == items;
    }
  }

  /** Nothing that exists is ever changed or removed, from any point of a run to any later one. */
  lemma {:induction false} StoreOnlyGrows(w: World, faults: Faults, items: seq<Item>, dryRun: bool, i: nat, j: nat)
    requires i <= j <= |items|
    ensures Extends(Before(w, faults, items, dryRun, i).store, Before(w, faults, items, dryRun, j).store)
    decreases j
  {
    if i < j {
      StoreOnlyGrows(w, faults, items, dryRun, i, j - 1);
      RunAt(w, faults, items, dryRun, j - 1);
    }
  }

  lemma {:induction false} Ends(w: World, faults: Faults, items: seq<Item>, dryRun: bool)
    ensures Before(w, faults, items, dryRun, 0) == w
    ensures Before(w, faults, items, dryRun, |items|) == Run(w, faults, items, dryRun).world
  {
    assert items[..|items|] == items;
  }

  // ------------------------------------------------------------------ the frame

  /** A bucket the run itself brought into being, exactly as documented. */
  ghost predicate CreatedHere(items: seq<Item>, outcomes: seq<Outcome>, name: string, bucket: Bucket, i: int)
  {
    0 <= i < |items| == |outcomes| && items[i].name == Some(name) && outcomes[i] == Created && bucket == Echo(items[i].config)
  }

  /**
   * The frame of a run, whatever fails: pre-existing buckets stay, every new bucket was created by an item that
   * names it and carries exactly that item's configuration, and a dry run creates nothing.
   */
  lemma {:induction false} RunFrame(w: World, faults: Faults, items: seq<Item>, dryRun: bool)
    ensures var t := Run(w, faults, items, dryRun);
      && Extends(w.store, t.world.store)
      && (forall n :: n in t.world.store && n !in w.store ==>
            exists i :: CreatedHere(items, t.outcomes, n, t.world.store[n], i))
      && (dryRun ==> t.world.store == w.store && Created !in t.outcomes)
      && (!dryRun ==> WouldCreate !in t.outcomes)
  {
    StoreOnlyGrows(w, faults, items, dryRun, 0, |items|);
    Ends(w, faults, items, dryRun);
    NewBucketsAreCreated(w, faults, items, dryRun);
    RunCreates(w, faults, items, dryRun);
  }

  lemma {:induction false} RunCreates(w: World, faults: Faults, items: seq<Item>, dryRun: bool)
    ensures var t := Run(w, faults, items, dryRun);
      && (dryRun ==> t.world.store == w.store && Created !in t.outcomes)
      && (!dryRun ==> WouldCreate !in t.outcomes)
  {
    if items != [] {
      RunCreates(w, faults, items[..|items| - 1], dryRun);
    }
  }

  lemma {:induction false} NewBucketsAreCreated(w: World, faults: Faults, items: seq<Item>, dryRun: bool)
    ensures var t := Run(w, faults, items, dryRun);
      forall n :: n in t.world.store && n !in w.store ==>
        exists i :: CreatedHere(items, t.outcomes, n, t.world.store[n], i)
  {
    if items != [] {
      var rest := items[..|items| - 1];
      NewBucketsAreCreated(w, faults, rest, dryRun);
      var t, t' := Run(w, faults, rest, dryRun), Run(w, faults, items, dryRun);
      forall n | n in t'.world.store && n !in w.store
        ensures exists i :: CreatedHere(items, t'.outcomes, n, t'.world.store[n], i)
      {
        if n in t.world.store {
          var i :| CreatedHere(rest, t.outcomes, n, t.world.store[n], i);
          assert CreatedHere(items, t'.outcomes, n, t'.world.store[n], i);
        } else {
          assert CreatedHere(items, t'.outcomes, n, t'.world.store[n], |items| - 1);
        }
      }
    }
  }

  /** Outcome by outcome: an item without a name fails; `created` and `unchanged` leave the bucket in place. */
  lemma {:induction false} OutcomeMeaning(w: World, faults: Faults, items: seq<Item>, i: nat)
    requires i < |items|
    ensures var t := Run(w, faults, items, false);
      && (items[i].name.None? ==> t.outcomes[i] == Error)
      && (t.outcomes[i] != Error ==>
            && items[i].name.Some? && items[i].name.value in t.world.store
            && var diff := Drift(items[i].config, t.world.store[items[i].name.value].status);
               && (t.outcomes[i] == Created || t.outcomes[i] == Unchanged <==> diff == map[])
               && (t.outcomes[i].Drifted? ==> t.outcomes[i].diff == diff))
  {
    RunAt(w, faults, items, false, i);
    StoreOnlyGrows(w, faults, items, false, i + 1, |items|);
    Ends(w, faults, items, false);
    EchoHasNoDrift(items[i].config);
  }

  // ----------------------------------------------------------------- idempotence

  function NoFaults(): Faults
  {
    (c: Call, name: string, k: nat) => false
  }

  function Settled(o: Outcome): Outcome
  {
    if o == Created then Unchanged else o
  }

  function SettledAll(outcomes: seq<Outcome>): seq<Outcome>
  {
    seq(|outcomes|, i requires 0 <= i < |outcomes| => Settled(outcomes[i]))
  }

  /** On a store that already holds what the first run left, item i only observes, and says what the first run said. */
  lemma {:induction false} RevisitAt(w: World, items: seq<Item>, again: World, i: nat)
    requires i < |items| && again.store == Run(w, NoFaults(), items, false).world.store
    ensures var s := Ensure(again, NoFaults(), items[i], false);
      && s.world.store == again.store
      && s.outcome == Settled(Run(w, NoFaults(), items, false).outcomes[i])
  {
    RunAt(w, NoFaults(), items, false, i);
    StoreOnlyGrows(w, NoFaults(), items, false, i, |items|);
    StoreOnlyGrows(w, NoFaults(), items, false, i + 1, |items|);
    Ends(w, NoFaults(), items, false);
    EchoHasNoDrift(items[i].config);
  }

  lemma {:induction false} RevisitPrefix(w: World, items: seq<Item>, calls: nat, i: nat)
    requires i <= |items|
    ensures var first := Run(w, NoFaults(), items, false);
      var second := Run(first.world.(calls := calls), NoFaults(), items[..i], false);
      && second.world.store == first.world.store
      && forall k :: 0 <= k < i ==> second.outcomes[k] == Settled(first.outcomes[k])
  {
    if i > 0 {
      RevisitPrefix(w, items, calls, i - 1);
      var first := Run(w, NoFaults(), items, false);
      var start := first.world.(calls := calls);
      RevisitAt(w, items, Run(start, NoFaults(), items[..i - 1], false).world, i - 1);
      assert items[..i] == items[..i - 1] + [items[i - 1]];
      RunPush(start, NoFaults(), items[..i - 1], items[i - 1], false);
    }
  }

  /**
   * Run it again and nothing happens: the store is unchanged and the report is the first one with `created` read
   * as `unchanged`. No assumption on the names is needed, not even that they are distinct.
   */
  lemma {:induction false} RunIdempotent(w: World, items: seq<Item>, calls: nat)
    ensures var first := Run(w, NoFaults(), items, false);
      var second := Run(first.world.(calls := calls), NoFaults(), items, false);
      && second.world.store == first.world.store
      && second.outcomes == SettledAll(first.outcomes)
      && Created !in second.outcomes
  {
    RevisitPrefix(w, items, calls, |items|);
    assert items[..|items|] == items;
  }

  // ------------------------------------------------------------ dry-run fidelity

  function Announced(o: Outcome): Outcome
  {
    if o == Created then WouldCreate else o
  }

  function AnnouncedAll(outcomes: seq<Outcome>): seq<Outcome>
  {
    seq(|outcomes|, i requires 0 <= i < |outcomes| => Announced(outcomes[i]))
  }

  /** No missing bucket is asked for twice. */
  ghost predicate MissingAskedOnce(store: map<string, Bucket>, items: seq<Item>)
  {
    forall i, j :: 0 <= i < j < |items| && items[i].name.Some? && items[i].name == items[j].name ==>
      items[i].name.value in store
  }

  /** Without failures, a name is present in front of item i iff it was there from the start or an earlier item named it. */
  lemma {:induction false} PresentIff(w: World, items: seq<Item>, i: nat, name: string)
    requires i <= |items|
    ensures name in Before(w, NoFaults(), items, false, i).store <==>
            name in w.store || exists k :: 0 <= k < i && items[k].name == Some(name)
  {
    if i > 0 {
      PresentIff(w, items, i - 1, name);
      RunAt(w, NoFaults(), items, false, i - 1);
      assert items[i - 1].name == Some(name) ==> name in Before(w, NoFaults(), items, false, i).store;
    }
  }

  lemma {:induction false} DryAt(w: World, items: seq<Item>, i: nat)
    requires i < |items|
    ensures Run(w, NoFaults(), items, true).outcomes[i] == Ensure(w, NoFaults(), items[i], true).outcome
  {
    RunAt(w, NoFaults(), items, true, i);
    RunFrame(w, NoFaults(), items[..i], true);
  }

  /** Item by item, the plan and the deed agree unless an earlier item already created the bucket. */
  lemma {:induction false} DryAgreesAt(w: World, items: seq<Item>, i: nat)
    requires i < |items|
    ensures var wet, dry := Run(w, NoFaults(), items, false), Run(w, NoFaults(), items, true);
      dry.outcomes[i] == Announced(wet.outcomes[i]) <==>
        !(items[i].name.Some? && items[i].name.value !in w.store &&
          exists k :: 0 <= k < i && items[k].name == items[i].name)
  {
    DryAt(w, items, i);
    RunAt(w, NoFaults(), items, false, i);
    if items[i].name.Some? {
      PresentIff(w, items, i, items[i].name.value);
      StoreOnlyGrows(w, NoFaults(), items, false, 0, i);
      Ends(w, NoFaults(), items, false);
    }
  }

  /** A dry run touches nothing, and it announces exactly what the wet run does iff no missing bucket is asked for twice. */
  lemma {:induction false} DryRunFaithfulIff(w: World, items: seq<Item>)
    ensures var wet, dry := Run(w, NoFaults(), items, false), Run(w, NoFaults(), items, true);
      && dry.world.store == w.store
      && (dry.outcomes == AnnouncedAll(wet.outcomes) <==> MissingAskedOnce(w.store, items))
  {
    RunFrame(w, NoFaults(), items, true);
    var wet, dry := Run(w, NoFaults(), items, false), Run(w, NoFaults(), items, true);
    forall i | 0 <= i < |items|
      ensures dry.outcomes[i] == Announced(wet.outcomes[i]) <==>
                !(items[i].name.Some? && items[i].name.value !in w.store &&
                  exists k :: 0 <= k < i && items[k].name == items[i].name)
    {
      DryAgreesAt(w, items, i);
    }
    if dry.outcomes == AnnouncedAll(wet.outcomes) {
      assert forall i :: 0 <= i < |items| ==> dry.outcomes[i] == Announced(wet.outcomes[i]);
    }
  }

  // ----------------------------------------------------------------- convergence

  /** Items that ask for the same missing bucket ask for the same one. */
  ghost predicate MissingAskedAlike(store: map<string, Bucket>, items: seq<Item>)
  {
    forall i, j :: 0 <= i < |items| && 0 <= j < |items| ==>
      items[i].name.Some? && items[i].name == items[j].name && items[i].name.value !in store ==>
        Echo(items[i].config) == Echo(items[j].config)
  }

  /** A run that anything may have disturbed, then one that nothing disturbs. */
  function Retried(w: World, faults: Faults, items: seq<Item>, calls: nat): World
  {
    Run(Run(w, faults, items, false).world.(calls := calls), NoFaults(), items, false).world
  }

  ghost predicate Recovers(w: World, faults: Faults, items: seq<Item>, calls: nat)
  {
    Retried(w, faults, items, calls).store == Run(w, NoFaults(), items, false).world.store
  }

  /** What an undisturbed run leaves: everything asked for, and what was there. */
  lemma {:induction false} CleanKeys(w: World, items: seq<Item>, name: string)
    ensures name in Run(w, NoFaults(), items, false).world.store <==>
            name in w.store || exists k :: 0 <= k < |items| && items[k].name == Some(name)
  {
    PresentIff(w, items, |items|, name);
    Ends(w, NoFaults(), items, false);
  }

  /** A bucket that was not there before carries the configuration of an item that asks for it. */
  lemma {:induction false} NewBucketOrigin(w: World, faults: Faults, items: seq<Item>, name: string) returns (i: nat)
    requires name !in w.store && name in Run(w, faults, items, false).world.store
    ensures i < |items| && items[i].name == Some(name)
    ensures Run(w, faults, items, false).world.store[name] == Echo(items[i].config)
  {
    RunFrame(w, faults, items, false);
    var t := Run(w, faults, items, false);
    i :| CreatedHere(items, t.outcomes, name, t.world.store[name], i);
  }

  lemma {:induction false} RetriedAt(w: World, faults: Faults, items: seq<Item>, calls: nat, name: string)
    requires MissingAskedAlike(w.store, items)
    ensures var retried, clean := Retried(w, faults, items, calls).store, Run(w, NoFaults(), items, false).world.store;
      && (name in retried <==> name in clean)
      && (name in retried ==> retried[name] == clean[name])
  {
    var middle := Run(w, faults, items, false).world.(calls := calls);
    RunFrame(w, faults, items, false);
    RunFrame(middle, NoFaults(), items, false);
    RunFrame(w, NoFaults(), items, false);
    CleanKeys(w, items, name);
    CleanKeys(middle, items, name);
    if name !in w.store {
      if name in middle.store {
        var a := NewBucketOrigin(w, faults, items, name);
        var b := NewBucketOrigin(w, NoFaults(), items, name);
      } else if name in Run(w, NoFaults(), items, false).world.store {
        var a := NewBucketOrigin(middle, NoFaults(), items, name);
        var b := NewBucketOrigin(w, NoFaults(), items, name);
      }
    }
  }

  lemma {:induction false} AlikeRecovers(w: World, faults: Faults, items: seq<Item>, calls: nat)
    requires MissingAskedAlike(w.store, items)
    ensures Recovers(w, faults, items, calls)
  {
    forall name: string
      ensures var retried, clean := Retried(w, faults, items, calls).store, Run(w, NoFaults(), items, false).world.store;
        && (name in retried <==> name in clean)
        && (name in retried ==> retried[name] == clean[name])
    {
      RetriedAt(w, faults, items, calls, name);
    }
  }

  /** Every creation of this bucket fails, as long as fewer than `until` calls were made. */
  function CreateFails(name: string, until: nat): Faults
  {
    (c: Call, n: string, k: nat) => c == Create && n == name && k < until
  }

  lemma {:induction false} CallsGrow(w: World, faults: Faults, items: seq<Item>, i: nat, j: nat)
    requires i <= j <= |items|
    ensures Before(w, faults, items, false, i).calls <= Before(w, faults, items, false, j).calls
    decreases j
  {
    if i < j {
      CallsGrow(w, faults, items, i, j - 1);
      RunAt(w, faults, items, false, j - 1);
    }
  }

  /** While every call made so far counts as failing, the bucket stays missing. */
  lemma {:induction false} StaysMissing(w: World, items: seq<Item>, name: string, until: nat, m: nat)
    requires m <= |items| && name !in w.store
    requires Before(w, CreateFails(name, until), items, false, m).calls <= until
    ensures name !in Before(w, CreateFails(name, until), items, false, m).store
  {
    if m > 0 {
      CallsGrow(w, CreateFails(name, until), items, m - 1, m);
      StaysMissing(w, items, name, until, m - 1);
      RunAt(w, CreateFails(name, until), items, false, m - 1);
    }
  }

  /** The calls made before item m do not depend on failures that only come later. */
  lemma {:induction false} LaterFailuresDoNotMatter(w: World, items: seq<Item>, name: string, until: nat, more: nat, m: nat)
    requires m <= |items| && until <= more
    requires Before(w, CreateFails(name, more), items, false, m).calls <= until
    ensures Before(w, CreateFails(name, until), items, false, m) == Before(w, CreateFails(name, more), items, false, m)
  {
    if m > 0 {
      CallsGrow(w, CreateFails(name, more), items, m - 1, m);
      LaterFailuresDoNotMatter(w, items, name, until, more, m - 1);
      RunAt(w, CreateFails(name, more), items, false, m - 1);
      RunAt(w, CreateFails(name, until), items, false, m - 1);
      EnsureAgrees(Before(w, CreateFails(name, more), items, false, m - 1), name, until, more, items[m - 1]);
    }
  }

  lemma {:induction false} EnsureAgrees(v: World, name: string, until: nat, more: nat, item: Item)
    requires until <= more && Ensure(v, CreateFails(name, more), item, false).world.calls <= until
    ensures Ensure(v, CreateFails(name, until), item, false) == Ensure(v, CreateFails(name, more), item, false)
  {
  }

  /** At most two calls are made per item. */
  lemma {:induction false} CallsBound(w: World, faults: Faults, items: seq<Item>, m: nat)
    requires m <= |items|
    ensures Before(w, faults, items, false, m).calls <= w.calls + 2 * m
  {
    if m > 0 {
      CallsBound(w, faults, items, m - 1);
      RunAt(w, faults, items, false, m - 1);
    }
  }

  /** A failure pattern under which a missing bucket is created by item m and by none before it. */
  lemma {:induction false} CreatedOnlyBy(w: World, items: seq<Item>, m: nat) returns (faults: Faults)
    requires m < |items| && items[m].name.Some? && items[m].name.value !in w.store
    ensures var name := items[m].name.value;
      && name in Run(w, faults, items, false).world.store
      && Run(w, faults, items, false).world.store[name] == Echo(items[m].config)
  {
    var name, more := items[m].name.value, w.calls + 2 * m + 1;
    CallsBound(w, CreateFails(name, more), items, m);
    var until := Before(w, CreateFails(name, more), items, false, m).calls + 1;
    faults := CreateFails(name, until);
    LaterFailuresDoNotMatter(w, items, name, until, more, m);
    StaysMissing(w, items, name, until, m);
    RunAt(w, faults, items, false, m);
    StoreOnlyGrows(w, faults, items, false, m + 1, |items|);
    Ends(w, faults, items, false);
  }

  /** An undisturbed run creates a missing bucket as the first item asking for it says. */
  lemma {:induction false} CreatedByFirst(w: World, items: seq<Item>, m: nat)
    requires m < |items| && items[m].name.Some? && items[m].name.value !in w.store
    requires forall k :: 0 <= k < m ==> items[k].name != items[m].name
    ensures var name := items[m].name.value;
      && name in Run(w, NoFaults(), items, false).world.store
      && Run(w, NoFaults(), items, false).world.store[name] == Echo(items[m].config)
  {
    PresentIff(w, items, m, items[m].name.value);
    RunAt(w, NoFaults(), items, false, m);
    StoreOnlyGrows(w, NoFaults(), items, false, m + 1, |items|);
    Ends(w, NoFaults(), items, false);
  }

  lemma {:induction false} FirstAsking(items: seq<Item>, i: nat) returns (m: nat)
    requires i < |items|
    ensures m <= i && items[m].name == items[i].name && forall k :: 0 <= k < m ==> items[k].name != items[m].name
  {
    m := 0;
    while items[m].name != items[i].name
      invariant m <= i && forall k :: 0 <= k < m ==> items[k].name != items[i].name
      decreases i - m
    {
      m := m + 1;
    }
  }

  lemma {:induction false} UnlikeDoesNotRecover(w: World, items: seq<Item>, calls: nat) returns (faults: Faults)
    requires !MissingAskedAlike(w.store, items)
    ensures !Recovers(w, faults, items, calls)
  {
    var i, j :| 0 <= i < |items| && 0 <= j < |items| && items[i].name.Some? && items[i].name == items[j].name &&
                items[i].name.value !in w.store && Echo(items[i].config) != Echo(items[j].config);
    var first := FirstAsking(items, i);
    var other := if Echo(items[i].config) != Echo(items[first].config) then i else j;
    faults := CreatedOnlyBy(w, items, other);
    CreatedByFirst(w, items, first);
    RunFrame(Run(w, faults, items, false).world.(calls := calls), NoFaults(), items, false);
  }

  /**
   * What idempotence is for: whatever disturbed a run, running it again undisturbed leaves the store that one
   * undisturbed run would have left. This holds for every failure pattern iff items asking for the same missing
   * bucket ask for it alike; in particular it holds when each is asked for once.
   */
  lemma {:induction false} RecoversIff(w: World, items: seq<Item>, calls: nat)
    ensures (forall faults: Faults :: Recovers(w, faults, items, calls)) <==> MissingAskedAlike(w.store, items)
    ensures MissingAskedOnce(w.store, items) ==> MissingAskedAlike(w.store, items)
  {
    if MissingAskedAlike(w.store, items) {
      forall faults: Faults
        ensures Recovers(w, faults, items, calls)
      {
        AlikeRecovers(w, faults, items, calls);
      }
    } else {
      var faults := UnlikeDoesNotRecover(w, items, calls);
    }
  }
}
