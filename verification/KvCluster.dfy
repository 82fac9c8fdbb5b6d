// The JetStream key-value surface the bucket tools work against, and drift
// (bin/nats_kv_bucket_provision.py, scripts/init-nats-buckets.py, scripts/check-nats-kv-health.py).

module KvCluster {
  import opened Numbers
  import opened Sequences

  // ------------------------------------------------------------------- drift

  /** A status payload value. Python compares an int and a float by number. */
  datatype Value = IntV(n: int) | FloatV(x: real) | StrV(s: string)

  datatype Field = History | Ttl | MaxValueSize | Storage | Replicas

  /** What `status()` lets one observe; a field that is missing or null is not in the map. */
  type Status = map<Field, Value>

  /** The documented configuration of a bucket. The description is written but never compared. */
  datatype Config = Config(
    description: string,
    history: int,
    ttl: int,
    maxValueSize: int,
    storage: string,
    replicas: int)

  function Want(c: Config, f: Field): Value
  {
    match f
    case History => IntV(c.history)
    case Ttl => IntV(c.ttl)
    case MaxValueSize => IntV(c.maxValueSize)
    case Storage => StrV(c.storage)
    case Replicas => IntV(c.replicas)
  }

  /** A ttl that arrives as float seconds is read as whole seconds. */
  function Observed(f: Field, v: Value): Value
  {
    if f == Ttl && v.FloatV? then IntV(Truncate(v.x)) else v
  }

  predicate SameValue(a: Value, b: Value)
  {
    match (a, b)
    case (IntV(n), FloatV(x)) => n as real == x
    case (FloatV(x), IntV(n)) => n as real == x
    case _ => a == b
  }

  datatype Difference = Difference(want: Value, got: Value)

  type Diff = map<Field, Difference>

  /** Field f is observable and diverges from the documented value. */
  predicate Diverges(c: Config, status: Status, f: Field)
  {
    f in status && !SameValue(Observed(f, status[f]), Want(c, f))
  }

  const COMPARED: seq<Field> := [History, Ttl, MaxValueSize, Storage, Replicas]

  /** The divergences among the given fields. */
  function DriftIn(fields: seq<Field>, c: Config, status: Status): Diff
  {
    if fields == [] then map[]
    else
      var n := |fields| - 1;
      var rest, f := DriftIn(fields[..n], c, status), fields[n];
      if Diverges(c, status, f) then rest[f := Difference(Want(c, f), Observed(f, status[f]))] else rest
  }

  function Drift(c: Config, status: Status): Diff
  {
    DriftIn(COMPARED, c, status)
  }

  lemma {:induction false} DriftInMeaning(fields: seq<Field>, c: Config, status: Status)
    ensures var d := DriftIn(fields, c, status);
      && (forall f :: f in d <==> f in fields && Diverges(c, status, f))
      && (forall f :: f in d ==> d[f] == Difference(Want(c, f), Observed(f, status[f])))
  {
    if fields != [] {
      DriftInMeaning(fields[..|fields| - 1], c, status);
    }
  }

  lemma {:induction false} AllFieldsCompared(f: Field)
    ensures f in COMPARED
  {
    match f
    case History => assert COMPARED[0] == f;
    case Ttl => assert COMPARED[1] == f;
    case MaxValueSize => assert COMPARED[2] == f;
    case Storage => assert COMPARED[3] == f;
    case Replicas => assert COMPARED[4] == f;
  }

  /** A drift report names exactly the observable fields that diverge, with what was wanted and what was seen. */
  lemma {:induction false} DriftMeaning(c: Config, status: Status)
    ensures var d := Drift(c, status);
      && (forall f :: f in d <==> Diverges(c, status, f))
      && (forall f :: f in d ==> d[f] == Difference(Want(c, f), Observed(f, status[f])))
  {
    DriftInMeaning(COMPARED, c, status);
    forall f: Field
      ensures f in COMPARED
    {
      AllFieldsCompared(f);
    }
  }

  /** The comparison loop that all three tools carry. */
  method DriftDiff(c: Config, status: Status) returns (diffs: Diff)
    ensures diffs == Drift(c, status)
  {
    diffs := map[];
    for i := 0 to |COMPARED|
      invariant diffs == DriftIn(COMPARED[..i], c, status)
    {
      assert COMPARED[..i + 1][..i] == COMPARED[..i];
      var key := COMPARED[i];
      if key in status {
        var got := Observed(key, status[key]);
        if !SameValue(got, Want(c, key)) {
          diffs := diffs[key := Difference(Want(c, key), got)];
        }
      }
    }
    assert COMPARED[..|COMPARED|] == COMPARED;
  }

  /** x is `n` once its fraction is dropped, towards zero. */
  predicate DropsTo(x: real, n: int)
  {
    if x >= 0.0 then n as real <= x < n as real + 1.0 else n as real - 1.0 < x <= n as real
  }

  /** What stands under field f of a status is not what the configuration says, value by value. */
  predicate Differs(c: Config, f: Field, v: Value)
  {
    match f
    case History => NumberDiffers(v, c.history)
    case Ttl => if v.FloatV? then !DropsTo(v.x, c.ttl) else v != IntV(c.ttl)
    case MaxValueSize => NumberDiffers(v, c.maxValueSize)
    case Storage => v != StrV(c.storage)
    case Replicas => NumberDiffers(v, c.replicas)
  }

  /** Not this number: another integer, a float of another value, or text. */
  predicate NumberDiffers(v: Value, n: int)
  {
    match v
    case IntV(m) => m != n
    case FloatV(x) => x != n as real
    case StrV(_) => true
  }

  lemma {:induction false} TruncateDrops(x: real, n: int)
    ensures Truncate(x) == n <==> DropsTo(x, n)
  {
  }

  lemma {:induction false} DivergesIff(c: Config, status: Status, f: Field)
    ensures Diverges(c, status, f) <==> f in status && Differs(c, f, status[f])
  {
    if f == Ttl && f in status && status[f].FloatV? {
      TruncateDrops(status[f].x, c.ttl);
    }
  }

  /**
   * Drift, field by field from the raw values: a field is reported iff it is observable and differs, with the
   * documented value beside the observed one; only a ttl in float seconds is shown without its fraction.
   */
  lemma {:induction false} DriftByField(c: Config, status: Status, f: Field)
    ensures f in Drift(c, status) <==> f in status && Differs(c, f, status[f])
    ensures f in Drift(c, status) ==>
              var d := Drift(c, status)[f];
              && (f == History ==> d.want == IntV(c.history)) && (f == Ttl ==> d.want == IntV(c.ttl))
              && (f == MaxValueSize ==> d.want == IntV(c.maxValueSize)) && (f == Storage ==> d.want == StrV(c.storage))
              && (f == Replicas ==> d.want == IntV(c.replicas))
              && (if f == Ttl && status[f].FloatV? then d.got.IntV? && DropsTo(status[f].x, d.got.n)
                  else d.got == status[f])
  {
    DriftMeaning(c, status);
    DivergesIff(c, status, f);
    if f == Ttl && f in status && status[f].FloatV? {
      TruncateDrops(status[f].x, Truncate(status[f].x));
    }
  }

  // ----------------------------------------------------------------- cluster

  datatype Bucket = Bucket(description: string, status: Status)

  /** A bucket just created from `c` reports exactly what it was created with. */
  function Echo(c: Config): Bucket
  {
    Bucket(c.description, map[
      History := IntV(c.history),
      Ttl := IntV(c.ttl),
      MaxValueSize := IntV(c.maxValueSize),
      Storage := StrV(c.storage),
      Replicas := IntV(c.replicas)])
  }

  lemma {:induction false} EchoHasNoDrift(c: Config)
    ensures Drift(c, Echo(c).status) == map[]
  {
    DriftMeaning(c, Echo(c).status);
  }

  datatype Call = Get | ReadStatus | Create

  /** Which API calls fail: any pattern over the kind of call, the bucket, and the number of calls made before it. */
  type Faults = (Call, string, nat) -> bool

  datatype World = World(store: map<string, Bucket>, calls: nat)

  datatype Lookup = Found | NotFound | LookupFailed

  class Cluster {
    var store: map<string, Bucket>
    var calls: nat
    const faults: Faults

    constructor (store: map<string, Bucket>, faults: Faults)
      ensures this.store == store && calls == 0 && this.faults == faults
    {
      this.store, this.calls, this.faults := store, 0, faults;
    }

    ghost function Now(): World
      reads this
    {
      World(store, calls)
    }

    method KeyValue(name: string) returns (r: Lookup)
      modifies this`calls
      ensures calls == old(calls) + 1
      ensures r == if faults(Get, name, old(calls)) then LookupFailed else if name in store then Found else NotFound
    {
      calls := calls + 1;
      if faults(Get, name, calls - 1) {
        r := LookupFailed;
      } else {
        r := if name in store then Found else NotFound;
      }
    }

    method StatusOf(name: string) returns (r: Option<Status>)
      requires name in store
      modifies this`calls
      ensures calls == old(calls) + 1
      ensures r == if faults(ReadStatus, name, old(calls)) then None else Some(store[name].status)
    {
      calls := calls + 1;
      r := if faults(ReadStatus, name, calls - 1) then None else Some(store[name].status);
    }

    /** A failed create leaves the store as it was. */
    method CreateKeyValue(name: string, config: Config) returns (ok: bool)
      modifies this
      ensures calls == old(calls) + 1
      ensures ok == !faults(Create, name, old(calls))
      ensures store == if ok then old(store)[name := Echo(config)] else old(store)
    {
      calls := calls + 1;
      ok := !faults(Create, name, calls - 1);
      if ok {
        store := store[name := Echo(config)];
      }
    }
  }

  // ------------------------------------------------------- one bucket ensured

  /** A bucket to bring into being. No name means the identifier was refused. */
  datatype Item = Item(name: Option<string>, config: Config)

  datatype Outcome = Created | Unchanged | Drifted(diff: Diff) | WouldCreate | Error

  datatype Step = Step(outcome: Outcome, world: World)

  /** Look the bucket up; create it when it is missing; report, and never correct, a drift. */
  function Ensure(w: World, faults: Faults, item: Item, dryRun: bool): Step
  {
    if item.name.None? then Step(Error, w)
    else
      var name := item.name.value;
      var w1, w2 := w.(calls := w.calls + 1), w.(calls := w.calls + 2);
      if faults(Get, name, w.calls) then Step(Error, w1)
      else if name !in w.store then
        if dryRun then Step(WouldCreate, w1)
        else if faults(Create, name, w1.calls) then Step(Error, w2)
        else Step(Created, w2.(store := w.store[name := Echo(item.config)]))
      else if faults(ReadStatus, name, w1.calls) then Step(Error, w2)
      else
        var diff := Drift(item.config, w.store[name].status);
        Step(if diff != map[] then Drifted(diff) else Unchanged, w2)
  }

  /** Which outcome a named bucket gets: the first call that fails is an error, and nothing else is. */
  lemma {:induction false} OutcomeIff(w: World, faults: Faults, item: Item, dryRun: bool)
    requires item.name.Some?
    ensures var name, o := item.name.value, Ensure(w, faults, item, dryRun).outcome;
      && (o == Error <==>
            || faults(Get, name, w.calls)
            || (name in w.store && faults(ReadStatus, name, w.calls + 1))
            || (name !in w.store && !dryRun && faults(Create, name, w.calls + 1)))
      && (o == WouldCreate ==> dryRun && name !in w.store)
      && (o == Created ==> !dryRun && name !in w.store)
      && (o == Unchanged || o.Drifted? ==> name in w.store)
  {
  }

  /** A bucket that can be looked at is reported as drifting exactly when one of its observable values differs. */
  lemma {:induction false} DriftIsReported(w: World, faults: Faults, item: Item, dryRun: bool)
    requires item.name.Some? && item.name.value in w.store
    requires !faults(Get, item.name.value, w.calls) && !faults(ReadStatus, item.name.value, w.calls + 1)
    ensures var status, o := w.store[item.name.value].status, Ensure(w, faults, item, dryRun).outcome;
      && (o.Drifted? <==> exists f :: f in status && Differs(item.config, f, status[f]))
      && (o == Unchanged <==> forall f :: f in status ==> !Differs(item.config, f, status[f]))
  {
    var status := w.store[item.name.value].status;
    forall f: Field
      ensures f in Drift(item.config, status) <==> f in status && Differs(item.config, f, status[f])
    {
      DriftByField(item.config, status, f);
    }
  }

  /** A bucket just created shows every documented value, and its description. */
  lemma {:induction false} EchoShowsConfig(c: Config)
    ensures Echo(c).description == c.description
    ensures forall f: Field :: f in Echo(c).status && !Differs(c, f, Echo(c).status[f])
    ensures forall f: Field :: !Echo(c).status[f].FloatV?
  {
    forall f: Field
      ensures f in Echo(c).status && !Differs(c, f, Echo(c).status[f]) && !Echo(c).status[f].FloatV?
    {
      match f
      case History => assert Echo(c).status[f] == IntV(c.history);
      case Ttl => assert Echo(c).status[f] == IntV(c.ttl);
      case MaxValueSize => assert Echo(c).status[f] == IntV(c.maxValueSize);
      case Storage => assert Echo(c).status[f] == StrV(c.storage);
      case Replicas => assert Echo(c).status[f] == IntV(c.replicas);
    }
  }

  method EnsureBucket(js: Cluster, item: Item, dryRun: bool) returns (outcome: Outcome)
    modifies js
    ensures Step(outcome, js.Now()) == Ensure(old(js.Now()), js.faults, item, dryRun)
  {
    if item.name.None? {
      return Error;
    }
    var name := item.name.value;
    var existing := js.KeyValue(name);
    if existing == LookupFailed {
      return Error;
    }
    if existing == NotFound {
      if dryRun {
        return WouldCreate;
      }
      var ok := js.CreateKeyValue(name, item.config);
      return if ok then Created else Error;
    }
    var status := js.StatusOf(name);
    if status.None? {
      return Error;
    }
    var diffs := DriftDiff(item.config, status.value);
    outcome := if diffs != map[] then Drifted(diffs) else Unchanged;
  }

  // -------------------------------------------------------------- a whole run

  datatype Trace = Trace(outcomes: seq<Outcome>, world: World)

  /** One pass over the items, in order. */
  function Run(w: World, faults: Faults, items: seq<Item>, dryRun: bool): (t: Trace)
    ensures |t.outcomes| == |items|
  {
    if items == [] then Trace([], w)
    else
      var t := Run(w, faults, items[..|items| - 1], dryRun);
      var s := Ensure(t.world, faults, items[|items| - 1], dryRun);
      Trace(t.outcomes + [s.outcome], s.world)
  }

  lemma {:induction false} RunPush(w: World, faults: Faults, items: seq<Item>, item: Item, dryRun: bool)
    ensures var t := Run(w, faults, items, dryRun);
      var s := Ensure(t.world, faults, item, dryRun);
      Run(w, faults, items + [item], dryRun) == Trace(t.outcomes + [s.outcome], s.world)
  {
    assert (items + [item])[..|items|] == items;
  }

  /** The process exit code of the two writing tools: an error outranks a drift. */
  function ExitCode(outcomes: seq<Outcome>): int
  {
    if Error in outcomes then 1
    else if exists i :: 0 <= i < |outcomes| && outcomes[i].Drifted? then 2
    else 0
  }

  /** 0: all is as documented or will be; 1: something failed; 2: nothing failed and something drifts. */
  lemma {:induction false} ExitCodeMeaning(outcomes: seq<Outcome>)
    ensures ExitCode(outcomes) == 1 <==> exists i :: 0 <= i < |outcomes| && outcomes[i] == Error
    ensures ExitCode(outcomes) == 0 <==> forall i :: 0 <= i < |outcomes| ==>
              outcomes[i] == Created || outcomes[i] == Unchanged || outcomes[i] == WouldCreate
    ensures ExitCode(outcomes) == 2 <==>
            ExitCode(outcomes) != 1 && exists i :: 0 <= i < |outcomes| && outcomes[i].Drifted?
  {
    if ExitCode(outcomes) == 0 {
      forall i | 0 <= i < |outcomes|
        ensures outcomes[i] != Error && !outcomes[i].Drifted?
      {
        assert outcomes[i] in outcomes;
      }
    }
  }
}
