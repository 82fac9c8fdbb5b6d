// Properties of whole provisioning runs (bin/nats_kv_bucket_provision.py), and the registered
// bucket families (wirelang/federation/marker_stack_kv.py, wirelang/federation/sequence_number_ledger_kv.py,
// wirelang/persona/persona_state_kv_constants.py).

module ProvisionerLaws {
  import opened Sequences
  import opened KvCluster
  import opened RunLaws
  import opened Provisioner

  // ------------------------------------------------------------- two runs compared

  /** The second of two undisturbed runs changes nothing, creates nothing, and repeats the first report. */
  lemma {:induction false} ProvisionIdempotent(
    orgs: seq<string>, fams: seq<Family>, pairs: Option<seq<string>>, w: World, calls: nat)
    ensures var ts := Targets(orgs, fams, pairs);
      var first := Report(ts, w, NoFaults(), false);
      var second := Report(ts, first.world.(calls := calls), NoFaults(), false);
      && second.world.store == first.world.store
      && |second.actions| == |first.actions|
      && forall i :: 0 <= i < |first.actions| ==>
           second.actions[i] == first.actions[i].(outcome := Settled(first.actions[i].outcome))
  {
    var ts := Targets(orgs, fams, pairs);
    var first := Report(ts, w, NoFaults(), false);
    ReportIsRun(ts, w, NoFaults(), false);
    ReportIsRun(ts, first.world.(calls := calls), NoFaults(), false);
    RunIdempotent(w, Items(ts), calls);
  }

  /** The plan is the deed with `would_create` for `created`, iff no missing bucket is a target twice. */
  lemma {:induction false} ProvisionDryRunFaithfulIff(
    orgs: seq<string>, fams: seq<Family>, pairs: Option<seq<string>>, w: World)
    ensures var ts := Targets(orgs, fams, pairs);
      var wet, dry := Report(ts, w, NoFaults(), false), Report(ts, w, NoFaults(), true);
      && dry.world.store == w.store
      && |wet.actions| == |dry.actions|
      && ((forall i :: 0 <= i < |wet.actions| ==>
             dry.actions[i] == wet.actions[i].(outcome := Announced(wet.actions[i].outcome)))
          <==> MissingAskedOnce(w.store, Items(ts)))
  {
    var ts := Targets(orgs, fams, pairs);
    ReportIsRun(ts, w, NoFaults(), false);
    ReportIsRun(ts, w, NoFaults(), true);
    DryRunFaithfulIff(w, Items(ts));
    var wet, dry := Run(w, NoFaults(), Items(ts), false), Run(w, NoFaults(), Items(ts), true);
    assert dry.outcomes == AnnouncedAll(wet.outcomes) <==>
           forall i :: 0 <= i < |ts| ==> dry.outcomes[i] == Announced(wet.outcomes[i]);
  }

  // ---------------------------------------------------------- the frame of one run

  /** Whatever fails: what existed stays, and every new bucket is some target's bucket with exactly that family's spec. */
  lemma {:induction false} ProvisionFrame(
    orgs: seq<string>, fams: seq<Family>, pairs: Option<seq<string>>, w: World, faults: Faults, dryRun: bool)
    ensures var ts := Targets(orgs, fams, pairs);
      var r := Report(ts, w, faults, dryRun);
      && Extends(w.store, r.world.store)
      && (dryRun ==> r.world.store == w.store)
      && |r.actions| == |ts|
      && (forall i :: 0 <= i < |ts| ==> r.actions[i].orgId == ts[i].orgId && r.actions[i].family == ts[i].family)
      && (forall i :: 0 <= i < |ts| && ts[i].item.name.None? ==> r.actions[i].outcome == Error)
      && (forall n :: n in r.world.store && n !in w.store ==>
            exists i :: 0 <= i < |ts| && ts[i].item.name == Some(n) && r.world.store[n] == Echo(ts[i].item.config))
  {
    var ts := Targets(orgs, fams, pairs);
    var r, t := Report(ts, w, faults, dryRun), Run(w, faults, Items(ts), dryRun);
    ReportIsRun(ts, w, faults, dryRun);
    RunFrame(w, faults, Items(ts), dryRun);
    forall i | 0 <= i < |ts| && ts[i].item.name.None?
      ensures r.actions[i].outcome == Error
    {
      RunAt(w, faults, Items(ts), dryRun, i);
    }
    forall n | n in r.world.store && n !in w.store
      ensures exists i :: 0 <= i < |ts| && ts[i].item.name == Some(n) && r.world.store[n] == Echo(ts[i].item.config)
    {
      var i :| CreatedHere(Items(ts), t.outcomes, n, t.world.store[n], i);
      assert Items(ts)[i] == ts[i].item;
    }
  }

  function OwnedBy(orgId: string): Target -> Option<Target>
  {
    (t: Target) => if t.orgId == orgId then Some(t) else None
  }

  lemma {:induction false} TargetsForOwner(id: string, fams: seq<Family>, orgId: string)
    ensures Keep(TargetsFor(id, fams), OwnedBy(orgId)) == if id == orgId then TargetsFor(id, fams) else []
  {
    var ts := TargetsFor(id, fams);
    FamilyTargetsAt(id, fams);
    if id == orgId {
      KeepAll(ts, OwnedBy(orgId));
    } else {
      KeepEmpty(ts, OwnedBy(orgId));
    }
  }

  /** Each requested organisation gets its targets once: one per family in order, or a single refusal; nobody else gets any. */
  lemma {:induction false} OrgGetsItsTargetsOnce(orgs: seq<string>, fams: seq<Family>, orgId: string)
    ensures Keep(FanOut(Distinct(orgs), fams), OwnedBy(orgId)) ==
            if orgId in orgs then TargetsFor(orgId, fams) else []
  {
    if orgs != [] {
      var rest, last := orgs[..|orgs| - 1], orgs[|orgs| - 1];
      assert orgs == rest + [last];
      OrgGetsItsTargetsOnce(rest, fams, orgId);
      assert orgId in orgs <==> orgId in rest || orgId == last;
      if last in rest {
        assert Distinct(orgs) == Distinct(rest);
      } else {
        FanOutPush(Distinct(rest), last, fams);
        KeepConcat(FanOut(Distinct(rest), fams), TargetsFor(last, fams), OwnedBy(orgId));
        TargetsForOwner(last, fams, orgId);
      }
    }
  }

  /** A target with a bucket is some family's, named by that family for the identifier it is labelled with. */
  ghost predicate FromFamily(t: Target, fams: seq<Family>)
  {
    t.item.name.Some? ==>
      exists f :: f in fams && f.nameFor(t.orgId) == t.item.name && t.item.config == f.config && t.family == f.id
  }

  lemma {:induction false} TargetsForFromFamily(id: string, fams: seq<Family>)
    ensures forall i :: 0 <= i < |TargetsFor(id, fams)| ==> FromFamily(TargetsFor(id, fams)[i], fams)
  {
    FamilyTargetsAt(id, fams);
    forall i | 0 <= i < |TargetsFor(id, fams)|
      ensures FromFamily(TargetsFor(id, fams)[i], fams)
    {
      if TargetsFor(id, fams)[i].item.name.Some? {
        assert fams[i] in fams;
      }
    }
  }

  lemma {:induction false} FanOutFromFamily(ids: seq<string>, fams: seq<Family>)
    ensures forall i :: 0 <= i < |FanOut(ids, fams)| ==> FromFamily(FanOut(ids, fams)[i], fams)
  {
    if ids != [] {
      FanOutFromFamily(ids[..|ids| - 1], fams);
      TargetsForFromFamily(ids[|ids| - 1], fams);
    }
  }

  lemma {:induction false} FromMoreFamilies(t: Target, some: seq<Family>, all: seq<Family>)
    requires FromFamily(t, some) && forall f :: f in some ==> f in all
    ensures FromFamily(t, all)
  {
  }

  lemma {:induction false} SelectedAreFamilies(fams: seq<Family>, select: Family -> Option<Family>)
    requires forall f :: select(f).Some? ==> select(f).value == f
    ensures forall f :: f in Keep(fams, select) ==> f in fams
  {
    var some := Keep(fams, select);
    forall f | f in some
      ensures f in fams
    {
      var k :| 0 <= k < |some| && some[k] == f;
      assert fams[Origin(fams, select, k)] == f;
    }
  }

  lemma {:induction false} TargetsFromFamilies(orgs: seq<string>, fams: seq<Family>, pairs: Option<seq<string>>)
    ensures forall i :: 0 <= i < |Targets(orgs, fams, pairs)| ==> FromFamily(Targets(orgs, fams, pairs)[i], fams)
  {
    var fan, tail := FanOut(Distinct(orgs), Keep(fams, PerOrg)), PersonaTargets(fams, pairs);
    assert Targets(orgs, fams, pairs) == fan + tail;
    FanOutFromFamily(Distinct(orgs), Keep(fams, PerOrg));
    SelectedAreFamilies(fams, PerOrg);
    forall i | 0 <= i < |fan|
      ensures FromFamily(fan[i], fams)
    {
      FromMoreFamilies(fan[i], Keep(fams, PerOrg), fams);
    }
    if tail != [] {
      SelectedAreFamilies(fams, PerPersona);
      PersonaFamilyId(fams);
      PairFamily(Distinct(pairs.value), Keep(fams, PerPersona)[0]);
      assert Keep(fams, PerPersona)[0] in fams;
    }
  }

  /** Whatever fails, a new bucket is one that some family names, and it carries exactly that family's configuration. */
  lemma {:induction false} NewBucketsFollowFamilies(
    orgs: seq<string>, fams: seq<Family>, pairs: Option<seq<string>>, w: World, faults: Faults, dryRun: bool, name: string)
    requires var r := Report(Targets(orgs, fams, pairs), w, faults, dryRun); name in r.world.store && name !in w.store
    ensures var r := Report(Targets(orgs, fams, pairs), w, faults, dryRun);
      exists f, id :: f in fams && f.nameFor(id) == Some(name) && r.world.store[name] == Echo(f.config)
  {
    var ts := Targets(orgs, fams, pairs);
    ProvisionFrame(orgs, fams, pairs, w, faults, dryRun);
    TargetsFromFamilies(orgs, fams, pairs);
    var i :| 0 <= i < |ts| && ts[i].item.name == Some(name) &&
             Report(ts, w, faults, dryRun).world.store[name] == Echo(ts[i].item.config);
    assert FromFamily(ts[i], fams);
  }

  // ------------------------------------------------------ the actions of one owner

  /** A question asked of an action's or a target's owner and family. */
  type Label = (string, string) -> bool

  function ActionsWith(wanted: Label): BucketAction -> Option<BucketAction>
  {
    (a: BucketAction) => if wanted(a.orgId, a.family) then Some(a) else None
  }

  function TargetsWith(wanted: Label): Target -> Option<Target>
  {
    (t: Target) => if wanted(t.orgId, t.family) then Some(t) else None
  }

  /** Owned by this organisation, outside the persona family. */
  function OrgLabel(orgId: string): Label
  {
    (id: string, family: string) => id == orgId && family != PERSONA_STATE
  }

  function PersonaLabel(): Label
  {
    (id: string, family: string) => family == PERSONA_STATE
  }

  /** Action k reports on target k, and a refused identifier is an error. */
  ghost predicate ReportsOn(actions: seq<BucketAction>, ts: seq<Target>)
  {
    && |actions| == |ts|
    && forall k :: 0 <= k < |ts| ==>
         && actions[k] == ActionFor(ts[k], actions[k].outcome)
         && (ts[k].item.name.None? ==> actions[k].outcome == Error)
  }

  /** Picking actions by their labels is picking the actions of the targets with those labels. */
  lemma {:induction false} ActionsOfTargets(ts: seq<Target>, w: World, faults: Faults, dryRun: bool, wanted: Label)
    ensures ReportsOn(Keep(Report(ts, w, faults, dryRun).actions, ActionsWith(wanted)), Keep(ts, TargetsWith(wanted)))
  {
    if ts != [] {
      var rest, last := ts[..|ts| - 1], ts[|ts| - 1];
      ActionsOfTargets(rest, w, faults, dryRun, wanted);
      var r := Report(rest, w, faults, dryRun);
      var action := ActionFor(last, Ensure(r.world, faults, last.item, dryRun).outcome);
      KeepPush(r.actions, action, ActionsWith(wanted));
    }
  }

  lemma {:induction false} PairFamily(pairs: seq<string>, fam: Family)
    requires fam.id == PERSONA_STATE
    ensures var ts := PairTargets(pairs, fam);
      |ts| == |pairs| && forall i :: 0 <= i < |ts| ==> ts[i] == TargetFor(pairs[i], fam) && ts[i].family == PERSONA_STATE
  {
    if pairs != [] {
      PairFamily(pairs[..|pairs| - 1], fam);
    }
  }

  lemma {:induction false} PersonaFamilyId(fams: seq<Family>)
    ensures Keep(fams, PerPersona) != [] ==> Keep(fams, PerPersona)[0].id == PERSONA_STATE
    ensures forall i :: 0 <= i < |Keep(fams, PerOrg)| ==> Keep(fams, PerOrg)[i].id != PERSONA_STATE
  {
    if Keep(fams, PerPersona) != [] {
      var i := Origin(fams, PerPersona, 0);
    }
    forall i | 0 <= i < |Keep(fams, PerOrg)|
      ensures Keep(fams, PerOrg)[i].id != PERSONA_STATE
    {
      var k := Origin(fams, PerOrg, i);
    }
  }

  /** The targets after the fan-out: the persona pairs. */
  function PersonaTargets(fams: seq<Family>, pairs: Option<seq<string>>): seq<Target>
  {
    if pairs.Some? && Keep(fams, PerPersona) != []
    then PairTargets(Distinct(pairs.value), Keep(fams, PerPersona)[0]) else []
  }

  lemma {:induction false} TailByLabel(fams: seq<Family>, pairs: Option<seq<string>>, orgId: string)
    ensures Keep(PersonaTargets(fams, pairs), TargetsWith(OrgLabel(orgId))) == []
    ensures Keep(PersonaTargets(fams, pairs), TargetsWith(PersonaLabel())) == PersonaTargets(fams, pairs)
  {
    var tail := PersonaTargets(fams, pairs);
    if pairs.Some? && Keep(fams, PerPersona) != [] {
      PersonaFamilyId(fams);
      PairFamily(Distinct(pairs.value), Keep(fams, PerPersona)[0]);
    }
    assert forall i :: 0 <= i < |tail| ==> tail[i].family == PERSONA_STATE;
    KeepEmpty(tail, TargetsWith(OrgLabel(orgId)));
    KeepAll(tail, TargetsWith(PersonaLabel()));
  }

  /** Targets split by label: the fan-out carries the organisations, the tail the persona pairs. */
  lemma {:induction false} TargetsByLabel(orgs: seq<string>, fams: seq<Family>, pairs: Option<seq<string>>, orgId: string)
    ensures Keep(Targets(orgs, fams, pairs), TargetsWith(OrgLabel(orgId))) ==
            if orgId in orgs then TargetsFor(orgId, Keep(fams, PerOrg)) else []
    ensures Keep(Targets(orgs, fams, pairs), TargetsWith(PersonaLabel())) == PersonaTargets(fams, pairs)
  {
    var fan, tail := FanOut(Distinct(orgs), Keep(fams, PerOrg)), PersonaTargets(fams, pairs);
    assert Targets(orgs, fams, pairs) == fan + tail;
    KeepConcat(fan, tail, TargetsWith(OrgLabel(orgId)));
    KeepConcat(fan, tail, TargetsWith(PersonaLabel()));
    FanByLabel(orgs, fams, orgId);
    TailByLabel(fams, pairs, orgId);
  }

  lemma {:induction false} FanByLabel(orgs: seq<string>, fams: seq<Family>, orgId: string)
    ensures var fan := FanOut(Distinct(orgs), Keep(fams, PerOrg));
      && Keep(fan, TargetsWith(OrgLabel(orgId))) == (if orgId in orgs then TargetsFor(orgId, Keep(fams, PerOrg)) else [])
      && Keep(fan, TargetsWith(PersonaLabel())) == []
  {
    var fan := FanOut(Distinct(orgs), Keep(fams, PerOrg));
    PersonaFamilyId(fams);
    FanOutFamilies(Distinct(orgs), Keep(fams, PerOrg));
    OrgGetsItsTargetsOnce(orgs, Keep(fams, PerOrg), orgId);
    KeepCongruent(fan, TargetsWith(OrgLabel(orgId)), fan, OwnedBy(orgId));
    KeepEmpty(fan, TargetsWith(PersonaLabel()));
  }

  /** One action per family in registry order, naming the family's bucket; where the family refuses, an error. */
  ghost predicate OnePerFamily(actions: seq<BucketAction>, orgId: string, fams: seq<Family>)
  {
    && |actions| == |fams|
    && forall k :: 0 <= k < |fams| ==>
         && actions[k].orgId == orgId && actions[k].family == fams[k].id
         && (if fams[k].nameFor(orgId).Some? then actions[k].bucket == fams[k].nameFor(orgId).value
             else actions[k].bucket == "" && actions[k].outcome == Error)
  }

  /**
   * Whatever fails, each requested organisation is reported once: one action per family, or a single error when its
   * identifier is malformed. Nobody else is reported at all.
   */
  lemma {:induction false} OrgIsReportedOnce(
    orgs: seq<string>, fams: seq<Family>, pairs: Option<seq<string>>, w: World, faults: Faults, dryRun: bool,
    orgId: string)
    ensures var orgFams := Keep(fams, PerOrg);
      var actions := Keep(Report(Targets(orgs, fams, pairs), w, faults, dryRun).actions, ActionsWith(OrgLabel(orgId)));
      if orgId !in orgs || orgFams == [] then actions == []
      else if orgFams[0].nameFor(orgId).None? then actions == [BucketAction(orgId, "", "", Error)]
      else OnePerFamily(actions, orgId, orgFams)
  {
    var orgFams := Keep(fams, PerOrg);
    ActionsOfTargets(Targets(orgs, fams, pairs), w, faults, dryRun, OrgLabel(orgId));
    TargetsByLabel(orgs, fams, pairs, orgId);
    if orgId in orgs && orgFams != [] {
      ReportOfOrg(
        Keep(Report(Targets(orgs, fams, pairs), w, faults, dryRun).actions, ActionsWith(OrgLabel(orgId))), orgId, orgFams);
    }
  }

  lemma {:induction false} ReportOfOrg(actions: seq<BucketAction>, orgId: string, orgFams: seq<Family>)
    requires orgFams != [] && ReportsOn(actions, TargetsFor(orgId, orgFams))
    ensures if orgFams[0].nameFor(orgId).None? then actions == [BucketAction(orgId, "", "", Error)]
            else OnePerFamily(actions, orgId, orgFams)
  {
    FamilyTargetsAt(orgId, orgFams);
  }

  /** Each distinct persona token is reported once, after the organisations and in input order. */
  lemma {:induction false} PairIsReportedOnce(
    orgs: seq<string>, fams: seq<Family>, pairs: seq<string>, w: World, faults: Faults, dryRun: bool)
    requires Keep(fams, PerPersona) != []
    ensures var fam, ids := Keep(fams, PerPersona)[0], Distinct(pairs);
      var actions := Keep(Report(Targets(orgs, fams, Some(pairs)), w, faults, dryRun).actions, ActionsWith(PersonaLabel()));
      && |actions| == |ids|
      && forall k :: 0 <= k < |ids| ==>
           && actions[k].orgId == ids[k] && actions[k].family == PERSONA_STATE
           && (if fam.nameFor(ids[k]).Some? then actions[k].bucket == fam.nameFor(ids[k]).value
               else actions[k].bucket == "" && actions[k].outcome == Error)
  {
    ActionsOfTargets(Targets(orgs, fams, Some(pairs)), w, faults, dryRun, PersonaLabel());
    TargetsByLabel(orgs, fams, Some(pairs), "");
    PersonaFamilyId(fams);
    PairFamily(Distinct(pairs), Keep(fams, PerPersona)[0]);
  }

  // ------------------------------------------------------------- injective names

  ghost predicate DistinctIds(fams: seq<Family>)
  {
    forall i, j :: 0 <= i < j < |fams| ==> fams[i].id != fams[j].id
  }

  /** A bucket name tells its family and its identifier. */
  ghost predicate InjectiveNames(fams: seq<Family>)
  {
    forall i, j, a, b | 0 <= i < |fams| && 0 <= j < |fams| && fams[i].nameFor(a).Some? ::
      fams[i].nameFor(a) == fams[j].nameFor(b) ==> i == j && a == b
  }

  /** Target t is a refusal, or family f's bucket for the identifier it is labelled with. */
  ghost predicate Labelled(t: Target, fams: seq<Family>)
  {
    t.item.name.None? || exists f :: 0 <= f < |fams| && t == TargetFor(t.orgId, fams[f])
  }

  ghost predicate AllLabelled(ts: seq<Target>, fams: seq<Family>)
  {
    forall i :: 0 <= i < |ts| ==> Labelled(ts[i], fams)
  }

  ghost predicate LabelsDistinct(ts: seq<Target>)
  {
    forall i, j :: 0 <= i < j < |ts| ==> ts[i].orgId != ts[j].orgId || ts[i].family != ts[j].family
  }

  lemma {:induction false} TargetsForLabels(id: string, fams: seq<Family>)
    requires DistinctIds(fams)
    ensures var ts := TargetsFor(id, fams);
      && AllLabelled(ts, fams) && LabelsDistinct(ts) && forall i :: 0 <= i < |ts| ==> ts[i].orgId == id
  {
    var ts := TargetsFor(id, fams);
    FamilyTargetsAt(id, fams);
    forall i | 0 <= i < |ts|
      ensures Labelled(ts[i], fams)
    {
      if ts[i].item.name.Some? {
        assert ts[i] == TargetFor(ts[i].orgId, fams[i]);
      }
    }
  }

  lemma {:induction false} FanOutLabels(ids: seq<string>, fams: seq<Family>)
    requires DistinctIds(fams) && forall i, j :: 0 <= i < j < |ids| ==> ids[i] != ids[j]
    ensures var ts := FanOut(ids, fams);
      && AllLabelled(ts, fams) && LabelsDistinct(ts) && forall i :: 0 <= i < |ts| ==> ts[i].orgId in ids
  {
    if ids != [] {
      var rest, last := ids[..|ids| - 1], ids[|ids| - 1];
      FanOutLabels(rest, fams);
      TargetsForLabels(last, fams);
      assert last !in rest;
      LabelsConcat(FanOut(rest, fams), TargetsFor(last, fams), fams);
      assert forall x :: x in rest ==> x in ids;
    }
  }

  lemma {:induction false} LabelsConcat(xs: seq<Target>, ys: seq<Target>, fams: seq<Family>)
    requires AllLabelled(xs, fams) && AllLabelled(ys, fams) && LabelsDistinct(xs) && LabelsDistinct(ys)
    requires forall i, j :: 0 <= i < |xs| && 0 <= j < |ys| ==> xs[i].orgId != ys[j].orgId || xs[i].family != ys[j].family
    ensures AllLabelled(xs + ys, fams) && LabelsDistinct(xs + ys)
  {
  }

  /** Distinctly labelled targets of injectively named families never share a bucket. */
  lemma {:induction false} LabelsNameDistinctBuckets(ts: seq<Target>, fams: seq<Family>, store: map<string, Bucket>)
    requires AllLabelled(ts, fams) && LabelsDistinct(ts) && InjectiveNames(fams)
    ensures MissingAskedOnce(store, Items(ts))
  {
    forall i, j | 0 <= i < j < |ts| && ts[i].item.name.Some? && ts[j].item.name.Some?
      ensures ts[i].item.name != ts[j].item.name
    {
      var f :| 0 <= f < |fams| && ts[i] == TargetFor(ts[i].orgId, fams[f]);
      var g :| 0 <= g < |fams| && ts[j] == TargetFor(ts[j].orgId, fams[g]);
      assert !(f == g && ts[i].orgId == ts[j].orgId);
      assert fams[f].nameFor(ts[i].orgId) == ts[i].item.name && fams[g].nameFor(ts[j].orgId) == ts[j].item.name;
    }
  }

  lemma {:induction false} PairLabels(pairs: seq<string>, fam: Family)
    requires forall i, j :: 0 <= i < j < |pairs| ==> pairs[i] != pairs[j]
    ensures var ts := PairTargets(pairs, fam);
      && |ts| == |pairs|
      && (forall i :: 0 <= i < |ts| ==> ts[i] == TargetFor(pairs[i], fam))
      && LabelsDistinct(ts)
  {
    if pairs != [] {
      PairLabels(pairs[..|pairs| - 1], fam);
    }
  }

  lemma {:induction false} SelectedFamilies(fams: seq<Family>, select: Family -> Option<Family>)
    requires DistinctIds(fams) && forall f :: select(f).Some? ==> select(f).value == f
    ensures var some := Keep(fams, select);
      && DistinctIds(some)
      && forall i :: 0 <= i < |some| ==> select(some[i]).Some? && exists k :: 0 <= k < |fams| && fams[k] == some[i]
  {
    var some := Keep(fams, select);
    forall i | 0 <= i < |some|
      ensures select(some[i]).Some? && exists k :: 0 <= k < |fams| && fams[k] == some[i]
    {
      assert fams[Origin(fams, select, i)] == some[i];
    }
    forall i, j | 0 <= i < j < |some|
      ensures some[i].id != some[j].id
    {
      OriginIncreasing(fams, select, i, j);
    }
  }

  lemma {:induction false} LabelledInMore(ts: seq<Target>, some: seq<Family>, all: seq<Family>)
    requires AllLabelled(ts, some)
    requires forall i :: 0 <= i < |some| ==> exists k :: 0 <= k < |all| && all[k] == some[i]
    ensures AllLabelled(ts, all)
  {
    forall i | 0 <= i < |ts|
      ensures Labelled(ts[i], all)
    {
      if ts[i].item.name.Some? {
        var f :| 0 <= f < |some| && ts[i] == TargetFor(ts[i].orgId, some[f]);
        var k :| 0 <= k < |all| && all[k] == some[f];
        assert ts[i] == TargetFor(ts[i].orgId, all[k]);
      }
    }
  }

  ghost predicate NeverPersona(ts: seq<Target>)
  {
    forall i :: 0 <= i < |ts| ==> ts[i].family != PERSONA_STATE
  }

  /** A fanned-out target never carries the persona family. */
  lemma {:induction false} FanOutFamilies(ids: seq<string>, fams: seq<Family>)
    requires forall i :: 0 <= i < |fams| ==> fams[i].id != PERSONA_STATE
    ensures NeverPersona(FanOut(ids, fams))
  {
    if ids != [] {
      FanOutFamilies(ids[..|ids| - 1], fams);
      TargetsForFamilies(ids[|ids| - 1], fams);
    }
  }

  lemma {:induction false} TargetsForFamilies(id: string, fams: seq<Family>)
    requires forall i :: 0 <= i < |fams| ==> fams[i].id != PERSONA_STATE
    ensures NeverPersona(TargetsFor(id, fams))
  {
    assert |""| != |PERSONA_STATE|;
    FamilyTargetsAt(id, fams);
  }

  lemma {:induction false} OrgTargetsLabelled(orgs: seq<string>, fams: seq<Family>)
    requires DistinctIds(fams)
    ensures var ts := FanOut(Distinct(orgs), Keep(fams, PerOrg));
      AllLabelled(ts, fams) && LabelsDistinct(ts) && NeverPersona(ts)
  {
    var orgFams := Keep(fams, PerOrg);
    SelectedFamilies(fams, PerOrg);
    DistinctHasNoRepeats(orgs);
    FanOutLabels(Distinct(orgs), orgFams);
    LabelledInMore(FanOut(Distinct(orgs), orgFams), orgFams, fams);
    FanOutFamilies(Distinct(orgs), orgFams);
  }

  lemma {:induction false} PairTargetsLabelled(pairs: seq<string>, fams: seq<Family>)
    requires DistinctIds(fams) && Keep(fams, PerPersona) != []
    ensures var ts := PairTargets(Distinct(pairs), Keep(fams, PerPersona)[0]);
      && AllLabelled(ts, fams) && LabelsDistinct(ts)
      && forall i :: 0 <= i < |ts| ==> ts[i].family == PERSONA_STATE
  {
    var fam, k := Keep(fams, PerPersona)[0], Origin(fams, PerPersona, 0);
    assert fams[k] == fam && fam.id == PERSONA_STATE;
    DistinctHasNoRepeats(pairs);
    PairLabels(Distinct(pairs), fam);
    var ts := PairTargets(Distinct(pairs), fam);
    forall i | 0 <= i < |ts|
      ensures Labelled(ts[i], fams) && ts[i].family == PERSONA_STATE
    {
      assert ts[i] == TargetFor(ts[i].orgId, fams[k]);
    }
  }

  lemma {:induction false} TargetsLabelled(orgs: seq<string>, fams: seq<Family>, pairs: Option<seq<string>>)
    requires DistinctIds(fams)
    ensures AllLabelled(Targets(orgs, fams, pairs), fams) && LabelsDistinct(Targets(orgs, fams, pairs))
  {
    OrgTargetsLabelled(orgs, fams);
    var xs := FanOut(Distinct(orgs), Keep(fams, PerOrg));
    if pairs.Some? && Keep(fams, PerPersona) != [] {
      PairTargetsLabelled(pairs.value, fams);
      LabelsConcat(xs, PairTargets(Distinct(pairs.value), Keep(fams, PerPersona)[0]), fams);
    } else {
      assert Targets(orgs, fams, pairs) == xs;
    }
  }

  /** With injective names, every dry run announces exactly what the wet run then does, on every cluster. */
  lemma {:induction false} InjectiveDryRunFaithful(
    orgs: seq<string>, fams: seq<Family>, pairs: Option<seq<string>>, w: World)
    requires DistinctIds(fams) && InjectiveNames(fams)
    ensures var ts := Targets(orgs, fams, pairs);
      var wet, dry := Report(ts, w, NoFaults(), false), Report(ts, w, NoFaults(), true);
      && dry.world.store == w.store
      && |wet.actions| == |dry.actions|
      && forall i :: 0 <= i < |wet.actions| ==>
           dry.actions[i] == wet.actions[i].(outcome := Announced(wet.actions[i].outcome))
  {
    TargetsLabelled(orgs, fams, pairs);
    LabelsNameDistinctBuckets(Targets(orgs, fams, pairs), fams, w.store);
    ProvisionDryRunFaithfulIff(orgs, fams, pairs, w);
  }

  /** A provisioning run that was disturbed is repaired by running it again. */
  lemma {:induction false} ProvisionRecovers(
    orgs: seq<string>, fams: seq<Family>, pairs: Option<seq<string>>, w: World, faults: Faults, calls: nat)
    requires DistinctIds(fams) && InjectiveNames(fams)
    ensures var ts := Targets(orgs, fams, pairs);
      var disturbed := Report(ts, w, faults, false).world.(calls := calls);
      Report(ts, disturbed, NoFaults(), false).world.store == Report(ts, w, NoFaults(), false).world.store
  {
    var ts := Targets(orgs, fams, pairs);
    TargetsLabelled(orgs, fams, pairs);
    LabelsNameDistinctBuckets(ts, fams, w.store);
    RecoversIff(w, Items(ts), calls);
    AlikeRecovers(w, faults, Items(ts), calls);
    ReportIsRun(ts, w, faults, false);
    ReportIsRun(ts, w, NoFaults(), false);
    ReportIsRun(ts, Report(ts, w, faults, false).world.(calls := calls), NoFaults(), false);
  }

  // ------------------------------------------------------- the registered families

  predicate IsAlphanumeric(c: char)
  {
    'a' <= c <= 'z' || 'A' <= c <= 'Z' || '0' <= c <= '9'
  }

  predicate IsIdentifierText(s: string)
  {
    && s != []
    && IsAlphanumeric(s[0])
    && forall i :: 0 <= i < |s| ==> IsAlphanumeric(s[i]) || s[i] == '_' || s[i] == '.' || s[i] == ':' || s[i] == '-'
  }

  /** What the permitted-character pattern accepts: `$` also matches just before one final newline. */
  predicate IsIdentifier(s: string)
  {
    IsIdentifierText(s) || (s != [] && s[|s| - 1] == '\n' && IsIdentifierText(s[..|s| - 1]))
  }

  function Prefixed(prefix: string): string -> Option<string>
  {
    (id: string) => if IsIdentifier(id) then Some(prefix + id) else None
  }

  /** A persona token must also contain the separator between organisation and persona. */
  function PrefixedPair(prefix: string): string -> Option<string>
  {
    (id: string) => if IsIdentifier(id) && '-' in id then Some(prefix + id) else None
  }

  const MARKER_STACK_PREFIX := "wakir-marker-stack-"
  const SEQUENCE_LEDGER_PREFIX := "wakir-caveat-override-export-sequence-"
  const PERSONA_STATE_PREFIX := "wakir-persona-state-"

  function MarkerStack(): Family
  {
    Family("marker-stack", Prefixed(MARKER_STACK_PREFIX),
           Config("Wirelang persistent marker-stack event log (Phase-2)", 1, 0, 32_768, "file", 1))
  }

  function SequenceLedger(): Family
  {
    Family("sequence-ledger", Prefixed(SEQUENCE_LEDGER_PREFIX),
           Config("Wirelang durable caveat-override-export sequence-number ledger (Phase-2)", 1, 0, 4_096, "file", 1))
  }

  function PersonaState(): Family
  {
    Family(PERSONA_STATE, PrefixedPair(PERSONA_STATE_PREFIX),
           Config("Wakir persona-engine state log (Phase-2 Pengine-7)", 1, 0, 65_536, "file", 1))
  }

  function RegisteredFamilies(): seq<Family>
  {
    [MarkerStack(), SequenceLedger(), PersonaState()]
  }

  /** The registered families meet the assumption. */
  lemma {:induction false} RegisteredNames()
    ensures DistinctIds(RegisteredFamilies()) && InjectiveNames(RegisteredFamilies())
  {
    var fams := RegisteredFamilies();
    assert |fams[0].id| == 12 && |fams[1].id| == 15 && |fams[2].id| == 13;
    forall i, j, a, b | 0 <= i < |fams| && 0 <= j < |fams| && fams[i].nameFor(a).Some? &&
      fams[i].nameFor(a) == fams[j].nameFor(b)
      ensures i == j && a == b
    {
      PrefixTellsFamily(i, a);
      PrefixTellsFamily(j, b);
      assert a == fams[i].nameFor(a).value[PrefixLength(i)..];
      assert b == fams[j].nameFor(b).value[PrefixLength(j)..];
    }
  }

  function PrefixLength(i: nat): nat
  {
    if i == 0 then |MARKER_STACK_PREFIX| else if i == 1 then |SEQUENCE_LEDGER_PREFIX| else |PERSONA_STATE_PREFIX|
  }

  /** The three prefixes already differ in their seventh character. */
  lemma {:induction false} PrefixTellsFamily(i: nat, id: string)
    requires i < 3 && RegisteredFamilies()[i].nameFor(id).Some?
    ensures var name := RegisteredFamilies()[i].nameFor(id).value;
      && |name| == PrefixLength(i) + |id|
      && name[PrefixLength(i)..] == id
      && name[6] == if i == 0 then 'm' else if i == 1 then 'c' else 'p'
  {
    var name := RegisteredFamilies()[i].nameFor(id).value;
    if i == 0 {
      assert name == MARKER_STACK_PREFIX + id;
    } else if i == 1 {
      assert name == SEQUENCE_LEDGER_PREFIX + id;
    } else {
      assert name == PERSONA_STATE_PREFIX + id;
    }
  }
}
