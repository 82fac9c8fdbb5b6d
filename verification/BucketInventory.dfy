// The inventory initialiser and the health check that observes its work
// (scripts/init-nats-buckets.py, scripts/check-nats-kv-health.py).

module BucketInventory {
  import opened Sequences
  import opened KvCluster
  import opened RunLaws

  datatype BucketSpec = BucketSpec(name: string, config: Config)

  datatype InitAction = InitAction(name: string, outcome: Outcome)

  function SpecItems(specs: seq<BucketSpec>): seq<Item>
  {
    if specs == [] then []
    else SpecItems(specs[..|specs| - 1]) + [Item(Some(specs[|specs| - 1].name), specs[|specs| - 1].config)]
  }

  lemma {:induction false} SpecItemsAt(specs: seq<BucketSpec>)
    ensures |SpecItems(specs)| == |specs|
    ensures forall i :: 0 <= i < |specs| ==> SpecItems(specs)[i] == Item(Some(specs[i].name), specs[i].config)
  {
    if specs != [] {
      SpecItemsAt(specs[..|specs| - 1]);
    }
  }

  lemma {:induction false} SpecItemsNext(specs: seq<BucketSpec>, i: nat)
    requires i < |specs|
    ensures SpecItems(specs[..i + 1]) == SpecItems(specs[..i]) + [Item(Some(specs[i].name), specs[i].config)]
  {
    assert specs[..i + 1][..i] == specs[..i];
  }

  // ------------------------------------------------------------- the initialiser

  ghost predicate InitReports(specs: seq<BucketSpec>, outcomes: seq<Outcome>, actions: seq<InitAction>)
  {
    |actions| == |specs| == |outcomes| && forall i :: 0 <= i < |specs| ==> actions[i] == InitAction(specs[i].name, outcomes[i])
  }

  method PlanAndApply(js: Cluster, specs: seq<BucketSpec>, dryRun: bool) returns (actions: seq<InitAction>)
    modifies js
    ensures var t := Run(old(js.Now()), js.faults, SpecItems(specs), dryRun);
      js.Now() == t.world && InitReports(specs, t.outcomes, actions)
  {
    actions := [];
    ghost var w := js.Now();
    ghost var items: seq<Item> := [];
    ghost var outcomes: seq<Outcome> := [];
    for i := 0 to |specs|
      invariant items == SpecItems(specs[..i])
      invariant Trace(outcomes, js.Now()) == Run(w, js.faults, items, dryRun)
      invariant InitReports(specs[..i], outcomes, actions)
    {
      var item := Item(Some(specs[i].name), specs[i].config);
      SpecItemsNext(specs, i);
      RunPush(w, js.faults, items, item, dryRun);
      var outcome := EnsureBucket(js, item, dryRun);
      actions := actions + [InitAction(specs[i].name, outcome)];
      items, outcomes := items + [item], outcomes + [outcome];
    }
    assert specs[..|specs|] == specs;
  }

  // ------------------------------------------------------------- the health check

  datatype Check = Healthy | Missing | Diverged(diff: Diff) | Failed

  datatype Look = Look(check: Check, calls: nat)

  /** Observe one bucket. Nothing is ever written. */
  function Observe(w: World, faults: Faults, spec: BucketSpec): Look
  {
    if faults(Get, spec.name, w.calls) then Look(Failed, w.calls + 1)
    else if spec.name !in w.store then Look(Missing, w.calls + 1)
    else if faults(ReadStatus, spec.name, w.calls + 1) then Look(Failed, w.calls + 2)
    else
      var diff := Drift(spec.config, w.store[spec.name].status);
      Look(if diff != map[] then Diverged(diff) else Healthy, w.calls + 2)
  }

  /** What a check says: it fails only when a call does, and then judges presence and the raw values. */
  lemma {:induction false} CheckIff(w: World, faults: Faults, spec: BucketSpec)
    ensures var c := Observe(w, faults, spec).check;
      && (c == Failed <==>
            faults(Get, spec.name, w.calls) || (spec.name in w.store && faults(ReadStatus, spec.name, w.calls + 1)))
      && (c == Missing <==> !faults(Get, spec.name, w.calls) && spec.name !in w.store)
      && (c != Failed && c != Missing ==>
            && spec.name in w.store
            && var status := w.store[spec.name].status;
               && (c.Diverged? <==> exists f :: f in status && Differs(spec.config, f, status[f]))
               && (c == Healthy <==> forall f :: f in status ==> !Differs(spec.config, f, status[f])))
  {
    if spec.name in w.store {
      var status := w.store[spec.name].status;
      forall f: Field
        ensures f in Drift(spec.config, status) <==> f in status && Differs(spec.config, f, status[f])
      {
        DriftByField(spec.config, status, f);
      }
    }
  }

  datatype Survey = Survey(checks: seq<Check>, calls: nat)

  function Inspect(w: World, faults: Faults, specs: seq<BucketSpec>): (r: Survey)
    ensures |r.checks| == |specs|
  {
    if specs == [] then Survey([], w.calls)
    else
      var r := Inspect(w, faults, specs[..|specs| - 1]);
      var o := Observe(w.(calls := r.calls), faults, specs[|specs| - 1]);
      Survey(r.checks + [o.check], o.calls)
  }

  method ObserveBucket(js: Cluster, spec: BucketSpec) returns (check: Check)
    modifies js`calls
    ensures Look(check, js.calls) == Observe(old(js.Now()), js.faults, spec)
  {
    var existing := js.KeyValue(spec.name);
    if existing == LookupFailed {
      return Failed;
    }
    if existing == NotFound {
      return Missing;
    }
    var status := js.StatusOf(spec.name);
    if status.None? {
      return Failed;
    }
    var diffs := DriftDiff(spec.config, status.value);
    check := if diffs != map[] then Diverged(diffs) else Healthy;
  }

  /** Read-only inspection: only the call counter moves. */
  method InspectBuckets(js: Cluster, specs: seq<BucketSpec>) returns (checks: seq<Check>)
    modifies js`calls
    ensures Survey(checks, js.calls) == Inspect(old(js.Now()), js.faults, specs)
  {
    checks := [];
    ghost var w := js.Now();
    for i := 0 to |specs|
      invariant js.store == w.store
      invariant Survey(checks, js.calls) == Inspect(w, js.faults, specs[..i])
    {
      assert specs[..i + 1][..i] == specs[..i];
      assert js.Now() == w.(calls := js.calls);
      var check := ObserveBucket(js, specs[i]);
      checks := checks + [check];
    }
    assert specs[..|specs|] == specs;
  }

  lemma {:induction false} InspectAt(w: World, faults: Faults, specs: seq<BucketSpec>, i: nat)
    requires i < |specs|
    ensures exists calls: nat :: Inspect(w, faults, specs).checks[i] == Observe(w.(calls := calls), faults, specs[i]).check
    decreases |specs|
  {
    var n := |specs| - 1;
    var r := Inspect(w, faults, specs[..n]);
    if i < n {
      InspectAt(w, faults, specs[..n], i);
      assert Inspect(w, faults, specs).checks[i] == r.checks[i];
    } else {
      assert Inspect(w, faults, specs).checks[i] == Observe(w.(calls := r.calls), faults, specs[i]).check;
    }
  }

  // ------------------------------------------------------------- they agree

  /** The verdict a check has to reach about an initialiser's outcome. */
  function Expected(o: Outcome): Check
    requires o == Created || o == Unchanged || o.Drifted?
  {
    if o.Drifted? then Diverged(o.diff) else Healthy
  }

  /**
   * After a wet run under any failures, the check of spec i, itself under any failures, either fails to look or says
   * exactly what the initialiser said: healthy for created and unchanged, the same diff for a drift, never missing.
   * Only a spec the initialiser reported as an error is left open.
   */
  lemma {:induction false} CheckerAgreesAt(
    specs: seq<BucketSpec>, w: World, initFaults: Faults, calls: nat, checkFaults: Faults, i: nat)
    requires i < |specs|
    ensures var run := Run(w, initFaults, SpecItems(specs), false);
      var survey := Inspect(run.world.(calls := calls), checkFaults, specs);
      |run.outcomes| == |specs| &&
      (run.outcomes[i] != Error && survey.checks[i] != Failed ==>
         run.outcomes[i] != WouldCreate && survey.checks[i] == Expected(run.outcomes[i]))
  {
    SpecItemsAt(specs);
    var items := SpecItems(specs);
    var run := Run(w, initFaults, items, false);
    var after := run.world.(calls := calls);
    OutcomeMeaning(w, initFaults, items, i);
    RunFrame(w, initFaults, items, false);
    InspectAt(after, checkFaults, specs, i);
    assert run.outcomes[i] in run.outcomes;
    assert items[i] == Item(Some(specs[i].name), specs[i].config);
    if run.outcomes[i] != Error {
      var seen: nat :| Inspect(after, checkFaults, specs).checks[i] ==
                       Observe(after.(calls := seen), checkFaults, specs[i]).check;
      CheckMatches(after.(calls := seen), checkFaults, specs[i], run.outcomes[i]);
    }
  }

  /** A check of a bucket about which the initialiser was right says the same. */
  lemma {:induction false} CheckMatches(w: World, faults: Faults, spec: BucketSpec, o: Outcome)
    requires spec.name in w.store && (o == Created || o == Unchanged || o.Drifted?)
    requires var diff := Drift(spec.config, w.store[spec.name].status);
      (o == Created || o == Unchanged <==> diff == map[]) && (o.Drifted? ==> o.diff == diff)
    ensures Observe(w, faults, spec).check == Failed || Observe(w, faults, spec).check == Expected(o)
  {
  }

  /** The health check's exit code: an unreadable bucket or an unreachable server outranks any drift. */
  function HealthExitCode(checks: seq<Check>, unreachable: bool): int
  {
    if Failed in checks || unreachable then 1
    else if exists i :: 0 <= i < |checks| && (checks[i] == Missing || checks[i].Diverged?) then 2
    else 0
  }

  lemma {:induction false} HealthExitCodeMeaning(checks: seq<Check>, unreachable: bool)
    ensures HealthExitCode(checks, unreachable) == 1 <==>
            unreachable || exists i :: 0 <= i < |checks| && checks[i] == Failed
    ensures HealthExitCode(checks, unreachable) == 0 <==>
            !unreachable && forall i :: 0 <= i < |checks| ==> checks[i] == Healthy
    ensures HealthExitCode(checks, unreachable) in {0, 1, 2}
  {
    if HealthExitCode(checks, unreachable) == 0 {
      forall i | 0 <= i < |checks|
        ensures checks[i] == Healthy
      {
        assert checks[i] in checks;
      }
    }
  }

  /** When neither tool met an error, the two exit codes are the same. */
  lemma {:induction false} ExitCodesAgree(
    specs: seq<BucketSpec>, w: World, initFaults: Faults, calls: nat, checkFaults: Faults)
    ensures var run := Run(w, initFaults, SpecItems(specs), false);
      var survey := Inspect(run.world.(calls := calls), checkFaults, specs);
      ExitCode(run.outcomes) != 1 && Failed !in survey.checks ==>
        HealthExitCode(survey.checks, false) == ExitCode(run.outcomes)
  {
    SpecItemsAt(specs);
    var run := Run(w, initFaults, SpecItems(specs), false);
    var survey := Inspect(run.world.(calls := calls), checkFaults, specs);
    if ExitCode(run.outcomes) != 1 && Failed !in survey.checks {
      forall i | 0 <= i < |specs|
        ensures run.outcomes[i] != Error && run.outcomes[i] != WouldCreate
        ensures survey.checks[i] == Expected(run.outcomes[i])
      {
        assert run.outcomes[i] in run.outcomes && survey.checks[i] in survey.checks;
        CheckerAgreesAt(specs, w, initFaults, calls, checkFaults, i);
      }
    }
  }
}
