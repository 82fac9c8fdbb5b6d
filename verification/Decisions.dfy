// Windowed aggregation of backend decisions (scripts/backend-decision-observability.py).

module Decisions {
  import opened Numbers
  import opened Sequences
  import opened Sorting
  import opened Percentiles

  /** A latency as it arrives: a number, or something that is not one (a bool, NaN, infinity, text, nothing). */
  datatype RawLatency = IntLatency(n: int) | FloatLatency(x: real) | NoLatency

  datatype Decision = Decision(
    domain: Option<string>,
    backend: Option<string>,
    latency: RawLatency,
    fallbackReason: Option<string>)

  const KNOWN_COMPONENTS: set<string> := {"recovery", "state_backing", "fsm", "v907_verify", "bridge_diff"}
  const COMPONENT_UNKNOWN := "component_unknown"
  const BACKEND_UNKNOWN := "backend_unknown"
  const DEFAULT_WINDOW_SIZE := 500

  function Component(d: Decision): string
  {
    if d.domain.Some? && d.domain.value in KNOWN_COMPONENTS then d.domain.value else COMPONENT_UNKNOWN
  }

  function Backend(d: Decision): string
  {
    if d.backend.Some? && d.backend.value != [] then d.backend.value else BACKEND_UNKNOWN
  }

  /** Whole, non-negative microseconds. */
  function Latency(d: Decision): Option<real>
  {
    match d.latency
    case IntLatency(n) => if n >= 0 then Some(n as real) else None
    case FloatLatency(x) => if Truncate(x) >= 0 then Some(Truncate(x) as real) else None
    case NoLatency => None
  }

  predicate FellBack(d: Decision)
  {
    d.fallbackReason.Some? && d.fallbackReason.value != []
  }

  // ------------------------------------------------------------------- window

  function EffectiveWindow(windowSize: int): nat
  {
    if windowSize <= 0 then DEFAULT_WINDOW_SIZE else windowSize
  }

  /** The trailing records; a non-positive size means the default, never no window. */
  function SelectWindow(records: seq<Decision>, windowSize: int): (sample: seq<Decision>)
    ensures windowSize > 0 ==> |sample| == if |records| <= windowSize then |records| else windowSize
    ensures windowSize <= 0 ==> |sample| == if |records| <= 500 then |records| else 500
    ensures |sample| <= |records| && sample == records[|records| - |sample|..]
  {
    var size := EffectiveWindow(windowSize);
    if |records| <= size then records else records[|records| - size..]
  }

  // ------------------------------------------------------------------- tallies

  function Get(m: map<string, nat>, k: string): nat
  {
    if k in m then m[k] else 0
  }

  datatype Tallies = Tallies(
    perBackend: map<string, map<string, nat>>,
    perComponent: map<string, nat>,
    latencies: map<string, seq<real>>,
    fallbacks: map<string, nat>)

  /** One record counted. */
  function Count(t: Tallies, d: Decision): Tallies
  {
    var c, b := Component(d), Backend(d);
    var backends := if c in t.perBackend then t.perBackend[c] else map[];
    Tallies(
      t.perBackend[c := backends[b := Get(backends, b) + 1]],
      t.perComponent[c := Get(t.perComponent, c) + 1],
      if Latency(d).None? then t.latencies
      else t.latencies[c := (if c in t.latencies then t.latencies[c] else []) + [Latency(d).value]],
      if FellBack(d) then t.fallbacks[c := Get(t.fallbacks, c) + 1] else t.fallbacks)
  }

  function Tally(sample: seq<Decision>): Tallies
  {
    if sample == [] then Tallies(map[], map[], map[], map[])
    else Count(Tally(sample[..|sample| - 1]), sample[|sample| - 1])
  }

  function InComponent(c: string): Decision -> Option<Decision>
  {
    (d: Decision) => if Component(d) == c then Some(d) else None
  }

  function InBackend(c: string, b: string): Decision -> Option<Decision>
  {
    (d: Decision) => if Component(d) == c && Backend(d) == b then Some(d) else None
  }

  function FallbackIn(c: string): Decision -> Option<Decision>
  {
    (d: Decision) => if Component(d) == c && FellBack(d) then Some(d) else None
  }

  function LatencyIn(c: string): Decision -> Option<real>
  {
    (d: Decision) => if Component(d) == c then Latency(d) else None
  }

  /** The running dictionaries are exactly the counts one would take by hand; a key appears only when it was seen. */
  lemma {:induction false} TallyMeaning(sample: seq<Decision>, c: string)
    ensures var t := Tally(sample);
      && Get(t.perComponent, c) == |Keep(sample, InComponent(c))|
      && (c in t.perComponent <==> Keep(sample, InComponent(c)) != [])
      && Get(t.fallbacks, c) == |Keep(sample, FallbackIn(c))|
      && (c in t.fallbacks <==> Keep(sample, FallbackIn(c)) != [])
      && (c in t.latencies <==> Keep(sample, LatencyIn(c)) != [])
      && (c in t.latencies ==> t.latencies[c] == Keep(sample, LatencyIn(c)))
      && (c in t.perBackend <==> c in t.perComponent)
  {
    if sample != [] {
      TallyMeaning(sample[..|sample| - 1], c);
    }
  }

  lemma {:induction false} TallyBackends(sample: seq<Decision>, c: string, b: string)
    ensures var t := Tally(sample);
      && (c in t.perBackend ==> Get(t.perBackend[c], b) == |Keep(sample, InBackend(c, b))|)
      && (c !in t.perBackend ==> Keep(sample, InBackend(c, b)) == [])
      && (c in t.perBackend && b in t.perBackend[c] <==> Keep(sample, InBackend(c, b)) != [])
  {
    if sample != [] {
      TallyBackends(sample[..|sample| - 1], c, b);
    }
  }

  // ------------------------------------------------- the same, from the raw record

  /** Record d belongs to component c: its own domain if that is one of the five, otherwise the unknown one. */
  predicate BelongsTo(d: Decision, c: string)
  {
    if d.domain.Some? && d.domain.value in {"recovery", "state_backing", "fsm", "v907_verify", "bridge_diff"}
    then c == d.domain.value else c == "component_unknown"
  }

  /** Record d was decided by backend b: its own name unless that is missing or empty. */
  predicate DecidedBy(d: Decision, b: string)
  {
    if d.backend.Some? && |d.backend.value| > 0 then b == d.backend.value else b == "backend_unknown"
  }

  predicate GaveReason(d: Decision)
  {
    d.fallbackReason.Some? && |d.fallbackReason.value| > 0
  }

  /** The latency that counts: a non-negative integer, or a float above -1 without its fraction. */
  predicate HasLatency(d: Decision, v: real)
  {
    match d.latency
    case IntLatency(n) => n >= 0 && v == n as real
    case FloatLatency(x) => if x >= 0.0 then v == x.Floor as real else x > -1.0 && v == 0.0
    case NoLatency => false
  }

  lemma {:induction false} LatencyMeaning(d: Decision, v: real)
    ensures Latency(d) == Some(v) <==> HasLatency(d, v)
  {
  }

  ghost function Where(sample: seq<Decision>, test: Decision -> bool): set<int>
  {
    set i | 0 <= i < |sample| && test(sample[i])
  }

  lemma {:induction false} CountWhere<T>(sample: seq<Decision>, f: Decision -> Option<T>, test: Decision -> bool)
    requires forall d :: f(d).Some? <==> test(d)
    ensures |Keep(sample, f)| == |Where(sample, test)|
  {
    KeepCountsIndices(sample, f);
    assert Selected(sample, f) == Where(sample, test);
  }

  function Belonging(c: string): Decision -> bool
  {
    (d: Decision) => BelongsTo(d, c)
  }

  function FallingBack(c: string): Decision -> bool
  {
    (d: Decision) => BelongsTo(d, c) && GaveReason(d)
  }

  function DecidedIn(c: string, b: string): Decision -> bool
  {
    (d: Decision) => BelongsTo(d, c) && DecidedBy(d, b)
  }

  /** The component and fallback dictionaries count records by their raw fields ... */
  lemma {:induction false} TallyFromRecords(sample: seq<Decision>, c: string)
    ensures Get(Tally(sample).perComponent, c) == |Where(sample, Belonging(c))|
    ensures Get(Tally(sample).fallbacks, c) == |Where(sample, FallingBack(c))|
  {
    TallyMeaning(sample, c);
    forall d: Decision
      ensures InComponent(c)(d).Some? <==> Belonging(c)(d)
      ensures FallbackIn(c)(d).Some? <==> FallingBack(c)(d)
    {
      BelongsIff(d, c);
    }
    CountWhere(sample, InComponent(c), Belonging(c));
    CountWhere(sample, FallbackIn(c), FallingBack(c));
  }

  lemma {:induction false} BelongsIff(d: Decision, c: string)
    ensures Component(d) == c <==> BelongsTo(d, c)
  {
  }

  /** ... so does the backend dictionary ... */
  lemma {:induction false} BackendsFromRecords(sample: seq<Decision>, c: string, b: string)
    ensures var t := Tally(sample).perBackend;
      (if c in t then Get(t[c], b) else 0) == |Where(sample, DecidedIn(c, b))|
  {
    TallyBackends(sample, c, b);
    CountWhere(sample, InBackend(c, b), DecidedIn(c, b));
  }

  /** The latencies listed for c, in record order: one for each of its records that has one. */
  ghost predicate ListsLatencies(sample: seq<Decision>, c: string, values: seq<real>)
  {
    if sample == [] then values == []
    else
      var rest, d := sample[..|sample| - 1], sample[|sample| - 1];
      if BelongsTo(d, c) && exists v :: HasLatency(d, v)
      then values != [] && HasLatency(d, values[|values| - 1]) && ListsLatencies(rest, c, values[..|values| - 1])
      else ListsLatencies(rest, c, values)
  }

  lemma {:induction false} LatencyListed(d: Decision, c: string)
    ensures LatencyIn(c)(d).Some? <==> BelongsTo(d, c) && exists v :: HasLatency(d, v)
    ensures LatencyIn(c)(d).Some? ==> HasLatency(d, LatencyIn(c)(d).value)
  {
    if Latency(d).Some? {
      LatencyMeaning(d, Latency(d).value);
    }
    if v :| HasLatency(d, v) {
      LatencyMeaning(d, v);
    }
  }

  lemma {:induction false} KeptLatencies(sample: seq<Decision>, c: string)
    ensures ListsLatencies(sample, c, Keep(sample, LatencyIn(c)))
  {
    if sample != [] {
      KeptLatencies(sample[..|sample| - 1], c);
      LatencyListed(sample[|sample| - 1], c);
    }
  }

  /** ... and the latency lists hold exactly the latencies that count. */
  lemma {:induction false} LatenciesFromRecords(sample: seq<Decision>, c: string)
    ensures var t := Tally(sample).latencies; ListsLatencies(sample, c, if c in t then t[c] else [])
  {
    TallyMeaning(sample, c);
    KeptLatencies(sample, c);
  }

  // ---------------------------------------------------------------------- sums

  /** The sum of f over a finite set of keys. */
  ghost function Sum(keys: set<string>, f: string -> real): real
  {
    if keys == {} then 0.0 else var k :| k in keys; f(k) + Sum(keys - {k}, f)
  }

  lemma {:induction false} SumPick(keys: set<string>, f: string -> real, k: string)
    requires k in keys
    ensures Sum(keys, f) == f(k) + Sum(keys - {k}, f)
    decreases |keys|
  {
    var j :| j in keys && Sum(keys, f) == f(j) + Sum(keys - {j}, f);
    if j != k {
      SumPick(keys - {j}, f, k);
      SumPick(keys - {k}, f, j);
      assert keys - {j} - {k} == keys - {k} - {j};
    }
  }

  lemma {:induction false} SumAgree(keys: set<string>, f: string -> real, g: string -> real)
    requires forall k :: k in keys ==> f(k) == g(k)
    ensures Sum(keys, f) == Sum(keys, g)
    decreases |keys|
  {
    if keys != {} {
      var k :| k in keys;
      SumPick(keys, f, k);
      SumPick(keys, g, k);
      SumAgree(keys - {k}, f, g);
    }
  }

  function Values(m: map<string, nat>): string -> real
  {
    (k: string) => Get(m, k) as real
  }

  ghost function Total(m: map<string, nat>): real
  {
    Sum(m.Keys, Values(m))
  }

  /** Raising one entry by one raises the total by one. */
  lemma {:induction false} TotalBump(m: map<string, nat>, k: string)
    ensures Total(m[k := Get(m, k) + 1]) == Total(m) + 1.0
  {
    var m' := m[k := Get(m, k) + 1];
    SumPick(m'.Keys, Values(m'), k);
    assert m'.Keys - {k} == m.Keys - {k};
    SumAgree(m.Keys - {k}, Values(m), Values(m'));
    if k in m {
      SumPick(m.Keys, Values(m), k);
    } else {
      assert m.Keys - {k} == m.Keys;
    }
  }

  /** Every record is counted once, under its component. */
  lemma {:induction false} ComponentsConserved(sample: seq<Decision>)
    ensures Total(Tally(sample).perComponent) == |sample| as real
  {
    if sample != [] {
      var rest, d := sample[..|sample| - 1], sample[|sample| - 1];
      ComponentsConserved(rest);
      ComponentsBump(Tally(rest), d);
    }
  }

  lemma {:induction false} ComponentsBump(t: Tallies, d: Decision)
    ensures Total(Count(t, d).perComponent) == Total(t.perComponent) + 1.0
  {
    TotalBump(t.perComponent, Component(d));
  }

  /** A component's backend counts add up to its own count. */
  lemma {:induction false} BackendsConserved(sample: seq<Decision>, c: string)
    ensures var t := Tally(sample);
      c in t.perBackend ==> Total(t.perBackend[c]) == Get(t.perComponent, c) as real
  {
    if sample != [] {
      var rest, d := sample[..|sample| - 1], sample[|sample| - 1];
      BackendsConserved(rest, c);
      TallyMeaning(rest, c);
      if c == Component(d) {
        BackendsBump(Tally(rest), d);
      }
    }
  }

  lemma {:induction false} BackendsBump(t: Tallies, d: Decision)
    requires var c := Component(d);
      && (c in t.perBackend <==> c in t.perComponent)
      && (c in t.perBackend ==> Total(t.perBackend[c]) == Get(t.perComponent, c) as real)
    ensures var c := Component(d); Total(Count(t, d).perBackend[c]) == Get(Count(t, d).perComponent, c) as real
  {
    var c := Component(d);
    if c in t.perBackend {
      TotalBump(t.perBackend[c], Backend(d));
    } else {
      FirstBackend(Backend(d));
    }
  }

  lemma {:induction false} FirstBackend(b: string)
    ensures Total(map[b := 1]) == 1.0
  {
    var none: map<string, nat> := map[];
    TotalBump(none, b);
    assert none[b := 1] == map[b := 1];
    assert Total(none) == 0.0;
  }

  /** A component's fallbacks and latencies are among its records. */
  lemma {:induction false} PartsWithinComponent(sample: seq<Decision>, c: string)
    ensures |Keep(sample, FallbackIn(c))| <= |Keep(sample, InComponent(c))|
    ensures |Keep(sample, LatencyIn(c))| <= |Keep(sample, InComponent(c))|
  {
    if sample != [] {
      PartsWithinComponent(sample[..|sample| - 1], c);
    }
  }
}
