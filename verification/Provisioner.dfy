// The per-organisation bucket provisioner (bin/nats_kv_bucket_provision.py).

module Provisioner {
  import opened Sequences
  import opened KvCluster

  /** A bucket family: how it names an identifier's bucket (None: the identifier is malformed), and its configuration. */
  datatype Family = Family(id: string, nameFor: string -> Option<string>, config: Config)

  const PERSONA_STATE := "persona-state"

  datatype BucketAction = BucketAction(orgId: string, family: string, bucket: string, outcome: Outcome)

  // ------------------------------------------------------ first-occurrence dedupe

  function Distinct(xs: seq<string>): seq<string>
  {
    if xs == [] then []
    else
      var rest, last := xs[..|xs| - 1], xs[|xs| - 1];
      if last in rest then Distinct(rest) else Distinct(rest) + [last]
  }

  lemma {:induction false} DistinctPush(xs: seq<string>, x: string)
    ensures Distinct(xs + [x]) == if x in xs then Distinct(xs) else Distinct(xs) + [x]
  {
    assert (xs + [x])[..|xs|] == xs;
  }

  /** The set of identifiers read so far. */
  ghost function Elements(xs: seq<string>): set<string>
  {
    if xs == [] then {} else Elements(xs[..|xs| - 1]) + {xs[|xs| - 1]}
  }

  lemma {:induction false} ElementsPush(xs: seq<string>, x: string)
    ensures Elements(xs + [x]) == Elements(xs) + {x}
  {
    assert (xs + [x])[..|xs|] == xs;
  }

  lemma {:induction false} ElementsMember(xs: seq<string>, x: string)
    ensures x in Elements(xs) <==> x in xs
  {
    if xs != [] {
      ElementsMember(xs[..|xs| - 1], x);
      assert xs == xs[..|xs| - 1] + [xs[|xs| - 1]];
    }
  }

  lemma {:induction false} DistinctMembers(xs: seq<string>)
    ensures forall x :: x in Distinct(xs) <==> x in xs
  {
    if xs != [] {
      DistinctMembers(xs[..|xs| - 1]);
      assert xs == xs[..|xs| - 1] + [xs[|xs| - 1]];
    }
  }

  lemma {:induction false} DistinctHasNoRepeats(xs: seq<string>)
    ensures forall i, j :: 0 <= i < j < |Distinct(xs)| ==> Distinct(xs)[i] != Distinct(xs)[j]
  {
    if xs != [] {
      var rest := xs[..|xs| - 1];
      DistinctHasNoRepeats(rest);
      DistinctMembers(rest);
      assert forall i :: 0 <= i < |Distinct(rest)| ==> Distinct(rest)[i] in Distinct(rest);
    }
  }

  /** Position i is where x occurs first. */
  ghost predicate FirstOccurs(xs: seq<string>, x: string, i: int)
  {
    0 <= i < |xs| && xs[i] == x && x !in xs[..i]
  }

  /** The deduplicated list is in order of first occurrence: of two entries, the earlier one occurred first earlier. */
  lemma {:induction false} DistinctKeepsFirstOccurrences(xs: seq<string>, k: nat, l: nat, i: int, j: int)
    requires k < l < |Distinct(xs)|
    requires FirstOccurs(xs, Distinct(xs)[k], i) && FirstOccurs(xs, Distinct(xs)[l], j)
    ensures i < j
  {
    var n := |xs| - 1;
    var rest, last := xs[..n], xs[n];
    DistinctMembers(rest);
    if last in rest || l < |Distinct(xs)| - 1 {
      EarlierIn(xs, Distinct(rest)[k], i);
      EarlierIn(xs, Distinct(rest)[l], j);
      DistinctKeepsFirstOccurrences(rest, k, l, i, j);
    } else {
      assert Distinct(xs)[k] in Distinct(rest);
      EarlierIn(xs, Distinct(xs)[k], i);
      assert j == n;
    }
  }

  /** A string that occurs before the last position occurs first there. */
  lemma {:induction false} EarlierIn(xs: seq<string>, x: string, i: int)
    requires xs != [] && x in xs[..|xs| - 1] && FirstOccurs(xs, x, i)
    ensures i < |xs| - 1 && FirstOccurs(xs[..|xs| - 1], x, i)
  {
    assert xs[..|xs| - 1][..i] == xs[..i];
  }

  /** Removing repeats early changes nothing: the planner's own dedupe agrees with the command line's. */
  lemma {:induction false} DistinctAbsorbs(xs: seq<string>, ys: seq<string>)
    ensures Distinct(Distinct(xs) + ys) == Distinct(xs + ys)
    decreases |xs| + |ys|
  {
    if ys != [] {
      var rest, last := ys[..|ys| - 1], ys[|ys| - 1];
      DistinctAbsorbs(xs, rest);
      assert xs + ys == (xs + rest) + [last] && Distinct(xs) + ys == (Distinct(xs) + rest) + [last];
      DistinctPush(xs + rest, last);
      DistinctPush(Distinct(xs) + rest, last);
      DistinctMembers(xs);
    } else if xs != [] {
      var rest, last := xs[..|xs| - 1], xs[|xs| - 1];
      DistinctAbsorbs(rest, []);
      DistinctMembers(rest);
      assert xs + [] == xs && rest + [] == rest && Distinct(xs) + [] == Distinct(xs) && Distinct(rest) + [] == Distinct(rest);
      if last !in rest {
        DistinctPush(Distinct(rest), last);
      }
    }
  }

  /** Append the entries not seen before. */
  method AddUnseen(entries: seq<string>, out: seq<string>, seen: set<string>, ghost prior: seq<string>)
    returns (out': seq<string>, seen': set<string>)
    requires out == Distinct(prior) && seen == Elements(prior)
    ensures out' == Distinct(prior + entries) && seen' == Elements(prior + entries)
  {
    out', seen' := out, seen;
    ghost var all := prior;
    for i := 0 to |entries|
      invariant all == prior + entries[..i]
      invariant out' == Distinct(all) && seen' == Elements(all)
    {
      var x := entries[i];
      DistinctPush(all, x);
      ElementsPush(all, x);
      ElementsMember(all, x);
      all := all + [x];
      if x !in seen' {
        seen' := seen' + {x};
        out' := out' + [x];
      }
    }
    assert all == prior + entries;
  }

  /** Merge a roster with command-line flags: roster first, first occurrence wins, nothing at all is an error. */
  method CollectOrgIds(roster: Option<seq<string>>, flags: seq<string>, allowEmpty: bool)
    returns (orgs: Option<seq<string>>)
    ensures var all := Distinct((if roster.Some? then roster.value else []) + flags);
      orgs == if all == [] && !allowEmpty then None else Some(all)
  {
    var entries := if roster.Some? then roster.value else [];
    var out, seen := AddUnseen(entries, [], {}, []);
    assert [] + entries == entries;
    out, seen := AddUnseen(flags, out, seen, entries);
    orgs := if out == [] && !allowEmpty then None else Some(out);
  }

  // --------------------------------------------------------------- what to ensure

  datatype Target = Target(orgId: string, family: string, item: Item)

  function PerOrg(f: Family): Option<Family>
  {
    if f.id != PERSONA_STATE then Some(f) else None
  }

  function PerPersona(f: Family): Option<Family>
  {
    if f.id == PERSONA_STATE then Some(f) else None
  }

  function TargetFor(id: string, f: Family): Target
  {
    Target(id, f.id, Item(f.nameFor(id), f.config))
  }

  function FamilyTargets(id: string, fams: seq<Family>): seq<Target>
  {
    if fams == [] then []
    else FamilyTargets(id, fams[..|fams| - 1]) + [TargetFor(id, fams[|fams| - 1])]
  }

  lemma {:induction false} FamilyTargetsAt(id: string, fams: seq<Family>)
    ensures |FamilyTargets(id, fams)| == |fams|
    ensures forall i :: 0 <= i < |fams| ==> FamilyTargets(id, fams)[i] == TargetFor(id, fams[i])
  {
    if fams != [] {
      FamilyTargetsAt(id, fams[..|fams| - 1]);
    }
  }

  lemma {:induction false} FamilyTargetsNext(id: string, fams: seq<Family>, i: nat)
    requires i < |fams|
    ensures FamilyTargets(id, fams[..i + 1]) == FamilyTargets(id, fams[..i]) + [TargetFor(id, fams[i])]
  {
    assert fams[..i + 1][..i] == fams[..i];
  }

  /** One target per family, or a single refusal when the first family's validator rejects the identifier. */
  function TargetsFor(id: string, fams: seq<Family>): seq<Target>
  {
    if fams == [] then []
    else if fams[0].nameFor(id).None? then [Target(id, "", Item(None, fams[0].config))]
    else FamilyTargets(id, fams)
  }

  function FanOut(ids: seq<string>, fams: seq<Family>): seq<Target>
  {
    if ids == [] then []
    else FanOut(ids[..|ids| - 1], fams) + TargetsFor(ids[|ids| - 1], fams)
  }

  function PairTargets(pairs: seq<string>, fam: Family): seq<Target>
  {
    if pairs == [] then []
    else PairTargets(pairs[..|pairs| - 1], fam) + [TargetFor(pairs[|pairs| - 1], fam)]
  }

  /** Organisations first, family-minor; then the persona pairs, under the persona family only. */
  function Targets(orgs: seq<string>, fams: seq<Family>, pairs: Option<seq<string>>): seq<Target>
  {
    var personaFams := Keep(fams, PerPersona);
    FanOut(Distinct(orgs), Keep(fams, PerOrg)) +
    if pairs.Some? && personaFams != [] then PairTargets(Distinct(pairs.value), personaFams[0]) else []
  }

  function Items(ts: seq<Target>): seq<Item>
  {
    seq(|ts|, i requires 0 <= i < |ts| => ts[i].item)
  }

  function ActionFor(t: Target, o: Outcome): BucketAction
  {
    BucketAction(t.orgId, t.family, if t.item.name.Some? then t.item.name.value else "", o)
  }

  datatype Provision = Provision(actions: seq<BucketAction>, world: World)

  /** One action per target, in target order. */
  function Report(ts: seq<Target>, w: World, faults: Faults, dryRun: bool): Provision
  {
    if ts == [] then Provision([], w)
    else
      var r := Report(ts[..|ts| - 1], w, faults, dryRun);
      var s := Ensure(r.world, faults, ts[|ts| - 1].item, dryRun);
      Provision(r.actions + [ActionFor(ts[|ts| - 1], s.outcome)], s.world)
  }

  /** The same, taken up where an earlier part of the run left off. */
  function Continue(p: Provision, ts: seq<Target>, faults: Faults, dryRun: bool): Provision
  {
    if ts == [] then p
    else
      var r := Continue(p, ts[..|ts| - 1], faults, dryRun);
      var s := Ensure(r.world, faults, ts[|ts| - 1].item, dryRun);
      Provision(r.actions + [ActionFor(ts[|ts| - 1], s.outcome)], s.world)
  }

  lemma {:induction false} ContinuePush(p: Provision, ts: seq<Target>, t: Target, faults: Faults, dryRun: bool)
    ensures var r := Continue(p, ts, faults, dryRun);
      var s := Ensure(r.world, faults, t.item, dryRun);
      Continue(p, ts + [t], faults, dryRun) == Provision(r.actions + [ActionFor(t, s.outcome)], s.world)
  {
    assert (ts + [t])[..|ts|] == ts;
  }

  lemma {:induction false} ReportConcat(ts: seq<Target>, us: seq<Target>, w: World, faults: Faults, dryRun: bool)
    ensures Report(ts + us, w, faults, dryRun) == Continue(Report(ts, w, faults, dryRun), us, faults, dryRun)
  {
    if us == [] {
      assert ts + us == ts;
    } else {
      var rest, last := us[..|us| - 1], us[|us| - 1];
      ReportConcat(ts, rest, w, faults, dryRun);
      ReportPush(ts + rest, last, w, faults, dryRun);
      assert ts + us == (ts + rest) + [last];
    }
  }

  lemma {:induction false} ReportPush(ts: seq<Target>, t: Target, w: World, faults: Faults, dryRun: bool)
    ensures var r := Report(ts, w, faults, dryRun);
      var s := Ensure(r.world, faults, t.item, dryRun);
      Report(ts + [t], w, faults, dryRun) == Provision(r.actions + [ActionFor(t, s.outcome)], s.world)
  {
    assert (ts + [t])[..|ts|] == ts;
  }

  /** The report labels a plain run over the targets' items. */
  lemma {:induction false} ReportIsRun(ts: seq<Target>, w: World, faults: Faults, dryRun: bool)
    ensures var r, t := Report(ts, w, faults, dryRun), Run(w, faults, Items(ts), dryRun);
      && r.world == t.world
      && |r.actions| == |ts| == |t.outcomes|
      && forall i :: 0 <= i < |ts| ==> r.actions[i] == ActionFor(ts[i], t.outcomes[i])
  {
    if ts != [] {
      ReportIsRun(ts[..|ts| - 1], w, faults, dryRun);
      assert Items(ts)[..|ts| - 1] == Items(ts[..|ts| - 1]);
    }
  }

  // ------------------------------------------------------------------ the planner

  method EnsureTarget(js: Cluster, t: Target, dryRun: bool, actions: seq<BucketAction>)
    returns (actions': seq<BucketAction>)
    modifies js
    ensures var s := Ensure(old(js.Now()), js.faults, t.item, dryRun);
      actions' == actions + [ActionFor(t, s.outcome)] && js.Now() == s.world
  {
    var outcome := EnsureBucket(js, t.item, dryRun);
    actions' := actions + [ActionFor(t, outcome)];
  }

  /** Fan one identifier out over the families, refusing it once when the first family does. */
  method EnsureOrg(js: Cluster, orgId: string, orgFams: seq<Family>, dryRun: bool, actions: seq<BucketAction>)
    returns (actions': seq<BucketAction>)
    requires orgFams != []
    modifies js
    ensures Provision(actions', js.Now()) ==
            Continue(Provision(actions, old(js.Now())), TargetsFor(orgId, orgFams), js.faults, dryRun)
  {
    ghost var p := Provision(actions, js.Now());
    if orgFams[0].nameFor(orgId).None? {
      var refusal := Target(orgId, "", Item(None, orgFams[0].config));
      ContinuePush(p, [], refusal, js.faults, dryRun);
      assert [] + [refusal] == [refusal];
      actions' := EnsureTarget(js, refusal, dryRun, actions);
      return;
    }
    actions' := actions;
    for i := 0 to |orgFams|
      invariant Provision(actions', js.Now()) ==
                Continue(p, FamilyTargets(orgId, orgFams[..i]), js.faults, dryRun)
    {
      var t := TargetFor(orgId, orgFams[i]);
      FamilyTargetsNext(orgId, orgFams, i);
      ContinuePush(p, FamilyTargets(orgId, orgFams[..i]), t, js.faults, dryRun);
      actions' := EnsureTarget(js, t, dryRun, actions');
    }
    assert orgFams[..|orgFams|] == orgFams;
  }

  /** One persona token, unless it was seen before. */
  method EnsurePair(js: Cluster, pair: string, seen: set<string>, fam: Family, dryRun: bool, actions: seq<BucketAction>,
                    ghost read: seq<string>, ghost p: Provision)
    returns (actions': seq<BucketAction>, seen': set<string>)
    requires seen == Elements(read)
    requires Provision(actions, js.Now()) == Continue(p, PairTargets(Distinct(read), fam), js.faults, dryRun)
    modifies js
    ensures seen' == Elements(read + [pair])
    ensures Provision(actions', js.Now()) ==
            Continue(p, PairTargets(Distinct(read + [pair]), fam), js.faults, dryRun)
  {
    DistinctPush(read, pair);
    ElementsPush(read, pair);
    ElementsMember(read, pair);
    actions', seen' := actions, seen + {pair};
    if pair !in seen {
      var t := TargetFor(pair, fam);
      PairTargetsPush(Distinct(read), pair, fam);
      ContinuePush(p, PairTargets(Distinct(read), fam), t, js.faults, dryRun);
      actions' := EnsureTarget(js, t, dryRun, actions);
    }
  }

  method EnsurePairs(js: Cluster, pairs: seq<string>, fam: Family, dryRun: bool, actions: seq<BucketAction>)
    returns (actions': seq<BucketAction>)
    modifies js
    ensures Provision(actions', js.Now()) ==
            Continue(Provision(actions, old(js.Now())), PairTargets(Distinct(pairs), fam), js.faults, dryRun)
  {
    actions' := actions;
    var seenPairs: set<string> := {};
    ghost var read: seq<string>, p := [], Provision(actions, js.Now());
    for i := 0 to |pairs|
      invariant read == pairs[..i] && seenPairs == Elements(read)
      invariant Provision(actions', js.Now()) == Continue(p, PairTargets(Distinct(read), fam), js.faults, dryRun)
    {
      actions', seenPairs := EnsurePair(js, pairs[i], seenPairs, fam, dryRun, actions', read, p);
      read := read + [pairs[i]];
    }
    assert read == pairs;
  }

  lemma {:induction false} PairTargetsPush(pairs: seq<string>, pair: string, fam: Family)
    ensures PairTargets(pairs + [pair], fam) == PairTargets(pairs, fam) + [TargetFor(pair, fam)]
  {
    assert (pairs + [pair])[..|pairs|] == pairs;
  }

  /** One organisation, unless it was seen before. */
  method EnsureNewOrg(js: Cluster, orgId: string, seen: set<string>, orgFams: seq<Family>, dryRun: bool,
                      actions: seq<BucketAction>, ghost read: seq<string>, ghost w: World)
    returns (actions': seq<BucketAction>, seen': set<string>)
    requires orgFams != [] && seen == Elements(read)
    requires Provision(actions, js.Now()) == Report(FanOut(Distinct(read), orgFams), w, js.faults, dryRun)
    modifies js
    ensures seen' == Elements(read + [orgId])
    ensures Provision(actions', js.Now()) == Report(FanOut(Distinct(read + [orgId]), orgFams), w, js.faults, dryRun)
  {
    DistinctPush(read, orgId);
    ElementsPush(read, orgId);
    ElementsMember(read, orgId);
    actions', seen' := actions, seen + {orgId};
    if orgId !in seen {
      FanOutPush(Distinct(read), orgId, orgFams);
      ReportConcat(FanOut(Distinct(read), orgFams), TargetsFor(orgId, orgFams), w, js.faults, dryRun);
      actions' := EnsureOrg(js, orgId, orgFams, dryRun, actions);
    }
  }

  method EnsureOrgs(js: Cluster, orgs: seq<string>, orgFams: seq<Family>, dryRun: bool, ghost w: World)
    returns (actions: seq<BucketAction>)
    requires w == js.Now()
    modifies js
    ensures Provision(actions, js.Now()) == Report(FanOut(Distinct(orgs), orgFams), w, js.faults, dryRun)
  {
    actions := [];
    if orgFams == [] {
      FanOutOverNothing(Distinct(orgs));
      return;
    }
    var seenOrgs: set<string> := {};
    ghost var read: seq<string> := [];
    for i := 0 to |orgs|
      invariant read == orgs[..i] && seenOrgs == Elements(read)
      invariant Provision(actions, js.Now()) == Report(FanOut(Distinct(read), orgFams), w, js.faults, dryRun)
    {
      actions, seenOrgs := EnsureNewOrg(js, orgs[i], seenOrgs, orgFams, dryRun, actions, read, w);
      read := read + [orgs[i]];
    }
    assert read == orgs;
  }

  /** Ensure every family's bucket for every identifier, and report one action per target in target order. */
  method PlanAndApply(js: Cluster, orgs: seq<string>, fams: seq<Family>, pairs: Option<seq<string>>, dryRun: bool)
    returns (actions: seq<BucketAction>)
    modifies js
    ensures Provision(actions, js.Now()) == Report(Targets(orgs, fams, pairs), old(js.Now()), js.faults, dryRun)
  {
    var orgFams, personaFams := Keep(fams, PerOrg), Keep(fams, PerPersona);
    ghost var w := js.Now();
    actions := EnsureOrgs(js, orgs, orgFams, dryRun, w);
    ghost var done := FanOut(Distinct(orgs), orgFams);
    if pairs.Some? && personaFams != [] {
      ReportConcat(done, PairTargets(Distinct(pairs.value), personaFams[0]), w, js.faults, dryRun);
      actions := EnsurePairs(js, pairs.value, personaFams[0], dryRun, actions);
    } else {
      assert Targets(orgs, fams, pairs) == done;
    }
  }

  lemma {:induction false} FanOutPush(ids: seq<string>, id: string, fams: seq<Family>)
    ensures FanOut(ids + [id], fams) == FanOut(ids, fams) + TargetsFor(id, fams)
  {
    assert (ids + [id])[..|ids|] == ids;
  }

  lemma {:induction false} FanOutOverNothing(ids: seq<string>)
    ensures FanOut(ids, []) == []
  {
    if ids != [] {
      FanOutOverNothing(ids[..|ids| - 1]);
    }
  }
}
