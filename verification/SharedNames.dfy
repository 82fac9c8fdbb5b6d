// Planner calls in which two caller-supplied families name the same bucket
// (bin/nats_kv_bucket_provision.py, plan_and_apply with its `families` argument).

module SharedNames {
  import opened Sequences
  import opened KvCluster
  import opened RunLaws
  import opened Provisioner
  import opened ProvisionerLaws

  /** Two per-organisation families give this identifier the same bucket. */
  predicate Share(f: Family, g: Family, id: string)
  {
    f.id != PERSONA_STATE && g.id != PERSONA_STATE && f.nameFor(id).Some? && f.nameFor(id) == g.nameFor(id)
  }

  lemma {:induction false} TwoTargets(f: Family, g: Family, id: string)
    requires Share(f, g, id)
    ensures Targets([id], [f, g], None) == [TargetFor(id, f), TargetFor(id, g)]
  {
    var fams := [f, g];
    KeepAll(fams, PerOrg);
    assert Keep(fams, PerOrg) == fams;
    assert Distinct([id]) == [id];
    FamilyTargetsAt(id, fams);
    assert FanOut([id], fams) == FanOut([], fams) + TargetsFor(id, fams);
  }

  /** Where the shared bucket is missing, the dry run announces two creations and the wet run makes one. */
  lemma {:induction false} DryRunMisleads(f: Family, g: Family, id: string, w: World)
    requires Share(f, g, id) && f.nameFor(id).value !in w.store
    ensures var ts := Targets([id], [f, g], None);
      var wet, dry := Report(ts, w, NoFaults(), false), Report(ts, w, NoFaults(), true);
      && !MissingAskedOnce(w.store, Items(ts))
      && |wet.actions| == |dry.actions| == 2
      && exists i :: 0 <= i < 2 && dry.actions[i] != wet.actions[i].(outcome := Announced(wet.actions[i].outcome))
  {
    var ts := Targets([id], [f, g], None);
    TwoTargets(f, g, id);
    assert Items(ts)[0].name == Items(ts)[1].name;
    ProvisionDryRunFaithfulIff([id], [f, g], None, w);
    ReportIsRun(ts, w, NoFaults(), false);
  }

  /** Where they also disagree on the configuration, some failures cannot be repaired by running again. */
  lemma {:induction false} RerunMisleads(f: Family, g: Family, id: string, w: World, calls: nat) returns (faults: Faults)
    requires Share(f, g, id) && f.nameFor(id).value !in w.store && Echo(f.config) != Echo(g.config)
    ensures var ts := Targets([id], [f, g], None);
      var disturbed := Report(ts, w, faults, false).world.(calls := calls);
      Report(ts, disturbed, NoFaults(), false).world.store != Report(ts, w, NoFaults(), false).world.store
  {
    var ts := Targets([id], [f, g], None);
    TwoTargets(f, g, id);
    assert Items(ts)[0] == TargetFor(id, f).item && Items(ts)[1] == TargetFor(id, g).item;
    assert !MissingAskedAlike(w.store, Items(ts));
    faults := UnlikeDoesNotRecover(w, Items(ts), calls);
    ReportIsRun(ts, w, faults, false);
    ReportIsRun(ts, w, NoFaults(), false);
    ReportIsRun(ts, Report(ts, w, faults, false).world.(calls := calls), NoFaults(), false);
  }

  /** A family that gives every identifier the bucket of that name. */
  function Plain(id: string, maxValueSize: int): Family
  {
    Family(id, (x: string) => Some(x), Config("", 1, 0, maxValueSize, "file", 1))
  }

  /** Both, on an empty cluster, for one organisation and two families that differ in one limit. */
  lemma {:induction false} SharedNameWitness() returns (faults: Faults)
    ensures var ts, w := Targets(["o"], [Plain("a", 1), Plain("b", 2)], None), World(map[], 0);
      var wet, dry := Report(ts, w, NoFaults(), false), Report(ts, w, NoFaults(), true);
      && |wet.actions| == |dry.actions| == 2
      && (exists i :: 0 <= i < 2 && dry.actions[i] != wet.actions[i].(outcome := Announced(wet.actions[i].outcome)))
      && Report(ts, Report(ts, w, faults, false).world.(calls := 0), NoFaults(), false).world.store != wet.world.store
  {
    var f, g, w := Plain("a", 1), Plain("b", 2), World(map[], 0);
    assert |f.id| == |g.id| == 1 && |PERSONA_STATE| == 13;
    assert Echo(f.config).status[MaxValueSize] == IntV(1) && Echo(g.config).status[MaxValueSize] == IntV(2);
    DryRunMisleads(f, g, "o", w);
    faults := RerunMisleads(f, g, "o", w, 0);
  }
}
