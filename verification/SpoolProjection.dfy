// Projecting bridge spool records into aggregator events, strictly or with repairs
// (scripts/demo_proof_helpers.py, _spool_jsonl_to_aggregator_events).

module SpoolProjection {
  import opened Sequences
  import opened PythonText

  /** A JSON value as far as these readers look at it. An absent key reads as null. */
  datatype Json = Null | Text(s: string) | Other

  datatype B1Field = EventId | Time | PayloadHash | CapabilityTokenHash

  const B1_FIELDS: seq<B1Field> := [EventId, Time, PayloadHash, CapabilityTokenHash]

  /** A key of a record: a hash-input field spelled canonically, the older spelling of `time`, or anything else. */
  datatype Key = Canonical(field: B1Field) | EventTime | Extra(name: string)

  type Object = map<Key, Json>

  function Read(o: Object, key: Key): Json
  {
    if key in o then o[key] else Null
  }

  /** The one other spelling that repairs tolerate. */
  function AliasOf(f: B1Field): Option<Key>
  {
    if f == Time then Some(EventTime) else None
  }

  /** Text, and non-empty after stripping; only the capability hash may be empty. */
  predicate Usable(f: B1Field, v: Json)
  {
    v.Text? && (f == CapabilityTokenHash || !IsBlank(v.s))
  }

  datatype Source = SpoolAlias | Envelope | NoSource

  datatype Repair = Repair(source: Source, value: Json)

  /** A replacement for one unusable field: the other spelling in the same record, then the intended event. */
  function ProjectField(f: B1Field, record: Object, envelope: Option<Object>): Repair
  {
    if AliasOf(f).Some? && Usable(f, Read(record, AliasOf(f).value)) then
      Repair(SpoolAlias, Read(record, AliasOf(f).value))
    else if envelope.Some? && Usable(f, Read(envelope.value, Canonical(f))) then
      Repair(Envelope, Read(envelope.value, Canonical(f)))
    else
      Repair(NoSource, Null)
  }

  datatype Line = Blank | NotJson | NotObject | Record(fields: Object)

  datatype Projected = Projected(line: nat, field: B1Field, source: Source)

  type Event = map<B1Field, string>

  datatype Outcome = Rejected | Events(events: seq<Event>, projected: seq<Projected>)

  // ------------------------------------------------------------- specification

  predicate OwnUsable(record: Object, f: B1Field)
  {
    Usable(f, Read(record, Canonical(f)))
  }

  /** The value field f ends up with, if any. */
  function FieldValue(f: B1Field, record: Object, envelope: Option<Object>, lenient: bool): Option<string>
  {
    if OwnUsable(record, f) then Some(Read(record, Canonical(f)).s)
    else if !lenient then None
    else
      var repair := ProjectField(f, record, envelope).value;
      if Usable(f, repair) then Some(repair.s) else None
  }

  /** The event made of the given fields, if every one of them has a value. */
  function Gather(fields: seq<B1Field>, record: Object, envelope: Option<Object>, lenient: bool): Option<Event>
  {
    if fields == [] then Some(map[])
    else
      var n := |fields| - 1;
      var rest := Gather(fields[..n], record, envelope, lenient);
      var value := FieldValue(fields[n], record, envelope, lenient);
      if rest.None? || value.None? then None else Some(rest.value[fields[n] := value.value])
  }

  function EventOf(record: Object, envelope: Option<Object>, lenient: bool): Option<Event>
  {
    Gather(B1_FIELDS, record, envelope, lenient)
  }

  /** The repairs one record needs, in field order. */
  function RepairIn(line: nat, record: Object, envelope: Option<Object>): B1Field -> Option<Projected>
  {
    (f: B1Field) =>
      if OwnUsable(record, f) then None else Some(Projected(line, f, ProjectField(f, record, envelope).source))
  }

  function Repairs(line: nat, record: Object, envelope: Option<Object>): seq<Projected>
  {
    Keep(B1_FIELDS, RepairIn(line, record, envelope))
  }

  /** The whole spool: every non-blank line must be a readable record. */
  function ReadSpool(lines: seq<Line>, envelope: Option<Object>, lenient: bool): Outcome
  {
    if lines == [] then Events([], [])
    else
      var n := |lines|;
      match ReadSpool(lines[..n - 1], envelope, lenient)
      case Rejected => Rejected
      case Events(events, projected) =>
        match lines[n - 1]
        case Blank => Events(events, projected)
        case NotJson => Rejected
        case NotObject => Rejected
        case Record(fields) =>
          var event := EventOf(fields, envelope, lenient);
          if event.None? then Rejected
          else Events(events + [event.value], projected + Repairs(n, fields, envelope))
  }

  // ---------------------------------------------------------------- the reader

  /** One field: its own value, or under repairs a replacement that is reported with its source. */
  method ReadField(f: B1Field, line: nat, record: Object, envelope: Option<Object>, lenient: bool)
    returns (value: Option<string>, repaired: Option<Projected>)
    ensures value == FieldValue(f, record, envelope, lenient)
    ensures value.Some? ==> repaired == RepairIn(line, record, envelope)(f)
  {
    var own := Read(record, Canonical(f));
    if Usable(f, own) {
      return Some(own.s), None;
    }
    if !lenient {
      return None, None;
    }
    var repair := ProjectField(f, record, envelope);
    if !Usable(f, repair.value) {
      return None, None;
    }
    return Some(repair.value.s), Some(Projected(line, f, repair.source));
  }

  /** One record, field by field; the first field without a value refuses it. */
  method ReadRecord(line: nat, record: Object, envelope: Option<Object>, lenient: bool)
    returns (event: Option<Event>, projected: seq<Projected>)
    ensures event == EventOf(record, envelope, lenient)
    ensures event.Some? ==> projected == Repairs(line, record, envelope)
  {
    var tuple: Event := map[];
    projected := [];
    for i := 0 to |B1_FIELDS|
      invariant Gather(B1_FIELDS[..i], record, envelope, lenient) == Some(tuple)
      invariant projected == Keep(B1_FIELDS[..i], RepairIn(line, record, envelope))
    {
      var field := B1_FIELDS[i];
      KeepNext(B1_FIELDS, RepairIn(line, record, envelope), i);
      assert B1_FIELDS[..i + 1][..i] == B1_FIELDS[..i];
      var value, repaired := ReadField(field, line, record, envelope, lenient);
      if value.None? {
        GatherFails(B1_FIELDS, record, envelope, lenient, i + 1);
        return None, [];
      }
      tuple := tuple[field := value.value];
      if repaired.Some? {
        projected := projected + [repaired.value];
      }
    }
    assert B1_FIELDS[..|B1_FIELDS|] == B1_FIELDS;
    event := Some(tuple);
  }

  lemma {:induction false} GatherFails(
    fields: seq<B1Field>, record: Object, envelope: Option<Object>, lenient: bool, i: nat)
    requires i <= |fields| && Gather(fields[..i], record, envelope, lenient).None?
    ensures Gather(fields, record, envelope, lenient).None?
    decreases |fields| - i
  {
    if i < |fields| {
      assert fields[..i + 1][..i] == fields[..i];
      GatherFails(fields, record, envelope, lenient, i + 1);
    } else {
      assert fields[..i] == fields;
    }
  }

  /** The loop over the lines; the first line that cannot be read refuses the spool. */
  method ReadLines(lines: seq<Line>, envelope: Option<Object>, lenient: bool) returns (r: Outcome)
    ensures r == ReadSpool(lines, envelope, lenient)
  {
    var events: seq<Event>, projected: seq<Projected> := [], [];
    for i := 0 to |lines|
      invariant Events(events, projected) == ReadSpool(lines[..i], envelope, lenient)
    {
      assert lines[..i + 1][..i] == lines[..i];
      if lines[i] == Blank {
        continue;
      }
      if lines[i] == NotJson || lines[i] == NotObject {
        RejectionSticks(lines, envelope, lenient, i + 1);
        return Rejected;
      }
      var event, repairs := ReadRecord(i + 1, lines[i].fields, envelope, lenient);
      if event.None? {
        RejectionSticks(lines, envelope, lenient, i + 1);
        return Rejected;
      }
      events, projected := events + [event.value], projected + repairs;
    }
    assert lines[..|lines|] == lines;
    r := Events(events, projected);
  }

  /**
   * Read the whole spool. It is accepted iff every line is blank or a record in which all four fields have a value,
   * and then there is one event per record, in line order, holding exactly those values.
   */
  method SpoolToEvents(lines: seq<Line>, envelope: Option<Object>, lenient: bool) returns (r: Outcome)
    ensures r == ReadSpool(lines, envelope, lenient)
    ensures r.Events? <==> forall k :: 0 <= k < |lines| ==> LineReadable(lines[k], envelope, lenient)
    ensures r.Events? ==> r.events == Keep(lines, EventIn(envelope, lenient))
  {
    r := ReadLines(lines, envelope, lenient);
    ReadSpoolMeaning(lines, envelope, lenient);
  }

  lemma {:induction false} RejectionSticks(lines: seq<Line>, envelope: Option<Object>, lenient: bool, i: nat)
    requires i <= |lines| && ReadSpool(lines[..i], envelope, lenient) == Rejected
    ensures ReadSpool(lines, envelope, lenient) == Rejected
    decreases |lines| - i
  {
    if i < |lines| {
      assert lines[..i + 1][..i] == lines[..i];
      RejectionSticks(lines, envelope, lenient, i + 1);
    } else {
      assert lines[..i] == lines;
    }
  }

  // ---------------------------------------------------------------- properties

  lemma {:induction false} FieldsListed(f: B1Field)
    ensures f in B1_FIELDS
  {
    match f
    case EventId => assert B1_FIELDS[0] == f;
    case Time => assert B1_FIELDS[1] == f;
    case PayloadHash => assert B1_FIELDS[2] == f;
    case CapabilityTokenHash => assert B1_FIELDS[3] == f;
  }

  /** A record is strictly readable iff it needs no repair; then both profiles read the same event from it. */
  lemma {:induction false} StrictIffNoRepairs(fields: seq<B1Field>, line: nat, record: Object, envelope: Option<Object>)
    ensures var strict := Gather(fields, record, envelope, false);
      && (strict.Some? <==> Keep(fields, RepairIn(line, record, envelope)) == [])
      && (strict.Some? ==> Gather(fields, record, envelope, true) == strict)
  {
    if fields != [] {
      StrictIffNoRepairs(fields[..|fields| - 1], line, record, envelope);
    }
  }

  /** Which values each field accepts: text that is not all white space, and for the capability hash any text. */
  lemma {:induction false} AcceptedTexts(f: B1Field, v: Json)
    ensures Usable(f, v) <==>
            && v.Text?
            && match f
               case CapabilityTokenHash => true
               case _ => Strip(v.s) != []
  {
    if v.Text? {
      BlankIffStripsToNothing(v.s);
    }
  }

  /** Where a repair comes from: `event_time` in the same record for `time`, else the envelope, else nowhere. */
  lemma {:induction false} RepairSource(f: B1Field, record: Object, envelope: Option<Object>)
    ensures var r := ProjectField(f, record, envelope);
      && (r.source == SpoolAlias <==>
            f == Time && EventTime in record && record[EventTime].Text? && Strip(record[EventTime].s) != [])
      && (r.source == SpoolAlias ==> r.value == record[EventTime])
      && (r.source == Envelope ==> envelope.Some? && Canonical(f) in envelope.value && r.value == envelope.value[Canonical(f)])
      && (r.source == NoSource <==> !Usable(f, r.value))
      && (r.source == NoSource && envelope.Some? && Canonical(f) in envelope.value ==>
            !Usable(f, envelope.value[Canonical(f)]))
  {
    AcceptedTexts(f, Read(record, EventTime));
  }

  /** What a field may be read from, in order of preference. */
  function Candidates(f: B1Field, record: Object, envelope: Option<Object>, lenient: bool): seq<Json>
  {
    [Read(record, Canonical(f))] +
    (if lenient && AliasOf(f).Some? then [Read(record, AliasOf(f).value)] else []) +
    (if lenient && envelope.Some? then [Read(envelope.value, Canonical(f))] else [])
  }

  function UsableText(f: B1Field): Json -> Option<string>
  {
    (v: Json) => if Usable(f, v) then Some(v.s) else None
  }

  /** A field's value is the first usable candidate: its own, then the other spelling, then the intended event's. */
  lemma {:induction false} FieldValueIsFirstUsable(f: B1Field, record: Object, envelope: Option<Object>, lenient: bool)
    ensures var usable := Keep(Candidates(f, record, envelope, lenient), UsableText(f));
      FieldValue(f, record, envelope, lenient) == if usable == [] then None else Some(usable[0])
  {
    var own, g := Read(record, Canonical(f)), UsableText(f);
    var alias := if lenient && AliasOf(f).Some? then [Read(record, AliasOf(f).value)] else [];
    var intended := if lenient && envelope.Some? then [Read(envelope.value, Canonical(f))] else [];
    KeepConcat([own] + alias, intended, g);
    KeepConcat([own], alias, g);
    KeepOne(own, g);
    if alias != [] {
      KeepOne(alias[0], g);
    }
    if intended != [] {
      KeepOne(intended[0], g);
    }
  }

  lemma {:induction false} KeepOne(v: Json, g: Json -> Option<string>)
    ensures Keep([v], g) == Optionally(g(v))
  {
    assert [v][..0] == [];
  }

  /** A record yields an event iff all four fields have a value; the event then has exactly those four keys and values. */
  lemma {:induction false} EventMeaning(record: Object, envelope: Option<Object>, lenient: bool)
    ensures var event := EventOf(record, envelope, lenient);
      && (event.Some? <==> forall f: B1Field :: FieldValue(f, record, envelope, lenient).Some?)
      && (event.Some? ==> forall f: B1Field ::
            f in event.value && FieldValue(f, record, envelope, lenient) == Some(event.value[f]))
  {
    GatherMeaning(B1_FIELDS, record, envelope, lenient);
    forall f: B1Field
      ensures f in B1_FIELDS
    {
      FieldsListed(f);
    }
  }

  lemma {:induction false} GatherMeaning(fields: seq<B1Field>, record: Object, envelope: Option<Object>, lenient: bool)
    ensures var event := Gather(fields, record, envelope, lenient);
      && (event.Some? <==> forall f :: f in fields ==> FieldValue(f, record, envelope, lenient).Some?)
      && (event.Some? ==> forall f :: f in fields ==>
            f in event.value && FieldValue(f, record, envelope, lenient) == Some(event.value[f]))
  {
    if fields != [] {
      GatherMeaning(fields[..|fields| - 1], record, envelope, lenient);
      assert fields == fields[..|fields| - 1] + [fields[|fields| - 1]];
    }
  }

  ghost predicate LineReadable(line: Line, envelope: Option<Object>, lenient: bool)
  {
    line.Blank? || (line.Record? && forall f: B1Field :: FieldValue(f, line.fields, envelope, lenient).Some?)
  }

  /** The event one line contributes, if any. */
  function EventIn(envelope: Option<Object>, lenient: bool): Line -> Option<Event>
  {
    (line: Line) => if line.Record? then EventOf(line.fields, envelope, lenient) else None
  }

  /** What the reader accepts and what it returns, without reference to how it reads. */
  lemma {:induction false} ReadSpoolMeaning(lines: seq<Line>, envelope: Option<Object>, lenient: bool)
    ensures var r := ReadSpool(lines, envelope, lenient);
      && (r.Events? <==> forall k :: 0 <= k < |lines| ==> LineReadable(lines[k], envelope, lenient))
      && (r.Events? ==> r.events == Keep(lines, EventIn(envelope, lenient)))
  {
    if lines != [] {
      var n := |lines| - 1;
      ReadSpoolMeaning(lines[..n], envelope, lenient);
      assert forall k :: 0 <= k < n ==> lines[..n][k] == lines[k];
      if lines[n].Record? {
        EventMeaning(lines[n].fields, envelope, lenient);
      }
    }
  }

  /** Every record of an accepted spool has its event, and the event has the four fields' values. */
  lemma {:induction false} RecordBecomesEvent(lines: seq<Line>, envelope: Option<Object>, lenient: bool, k: nat)
    requires k < |lines| && lines[k].Record? && ReadSpool(lines, envelope, lenient).Events?
    ensures var events, pos := ReadSpool(lines, envelope, lenient).events, Rank(lines, EventIn(envelope, lenient), k);
      && pos < |events|
      && forall f: B1Field :: f in events[pos] && FieldValue(f, lines[k].fields, envelope, lenient) == Some(events[pos][f])
  {
    ReadSpoolMeaning(lines, envelope, lenient);
    EventMeaning(lines[k].fields, envelope, lenient);
    assert LineReadable(lines[k], envelope, lenient);
    RankIsPosition(lines, EventIn(envelope, lenient), k);
  }

  /**
   * The strict profile accepts a spool exactly when the lenient one accepts it without repairing anything, and then
   * they produce the same events.
   */
  lemma {:induction false} StrictAndLenientAgree(lines: seq<Line>, envelope: Option<Object>)
    ensures var strict, lenient := ReadSpool(lines, envelope, false), ReadSpool(lines, envelope, true);
      && (strict.Events? <==> lenient.Events? && lenient.projected == [])
      && (strict.Events? ==> lenient == strict)
  {
    if lines != [] {
      var n := |lines|;
      StrictAndLenientAgree(lines[..n - 1], envelope);
      if lines[n - 1].Record? {
        StrictIffNoRepairs(B1_FIELDS, n, lines[n - 1].fields, envelope);
      }
    }
  }

  /** Strict reading never consults the envelope. */
  lemma {:induction false} StrictIgnoresEnvelope(lines: seq<Line>, envelope: Option<Object>)
    ensures ReadSpool(lines, envelope, false) == ReadSpool(lines, None, false)
  {
    if lines != [] {
      var n := |lines|;
      StrictIgnoresEnvelope(lines[..n - 1], envelope);
      if lines[n - 1].Record? {
        var record := lines[n - 1].fields;
        GatherIgnoresEnvelope(B1_FIELDS, record, envelope);
        StrictIffNoRepairs(B1_FIELDS, n, record, envelope);
        StrictIffNoRepairs(B1_FIELDS, n, record, None);
      }
    }
  }

  lemma {:induction false} GatherIgnoresEnvelope(fields: seq<B1Field>, record: Object, envelope: Option<Object>)
    ensures Gather(fields, record, envelope, false) == Gather(fields, record, None, false)
  {
    if fields != [] {
      GatherIgnoresEnvelope(fields[..|fields| - 1], record, envelope);
    }
  }

  /** The repair p is one that the record of line p.line calls for. */
  predicate CalledFor(p: Projected, record: Object, envelope: Option<Object>)
  {
    !OwnUsable(record, p.field) && p.source == ProjectField(p.field, record, envelope).source
  }

  lemma {:induction false} RepairsMember(line: nat, record: Object, envelope: Option<Object>, p: Projected)
    ensures p in Repairs(line, record, envelope) <==> p.line == line && CalledFor(p, record, envelope)
  {
    var g, repairs := RepairIn(line, record, envelope), Repairs(line, record, envelope);
    if p in repairs {
      var k :| 0 <= k < |repairs| && repairs[k] == p;
      var i := Origin(B1_FIELDS, g, k);
    }
    if p.line == line && CalledFor(p, record, envelope) {
      FieldsListed(p.field);
      var i :| 0 <= i < |B1_FIELDS| && B1_FIELDS[i] == p.field;
      RankIsPosition(B1_FIELDS, g, i);
    }
  }

  /** The repairs of a spool that is accepted are those of its lines, one after the other. */
  lemma {:induction false} ProjectedPush(lines: seq<Line>, envelope: Option<Object>)
    requires lines != [] && ReadSpool(lines, envelope, true).Events?
    ensures var n := |lines|;
      && ReadSpool(lines[..n - 1], envelope, true).Events?
      && ReadSpool(lines, envelope, true).projected ==
         ReadSpool(lines[..n - 1], envelope, true).projected +
         if lines[n - 1].Record? then Repairs(n, lines[n - 1].fields, envelope) else []
  {
  }

  /**
   * Repairs are never silent, and nothing else is listed: the list holds exactly the fields whose own value is
   * unusable, each with its line and with where the replacement came from.
   */
  lemma {:induction false} EveryRepairIsListed(lines: seq<Line>, envelope: Option<Object>, p: Projected)
    requires ReadSpool(lines, envelope, true).Events?
    ensures p in ReadSpool(lines, envelope, true).projected <==>
            && 1 <= p.line <= |lines| && lines[p.line - 1].Record?
            && CalledFor(p, lines[p.line - 1].fields, envelope)
  {
    if lines != [] {
      var n := |lines|;
      ProjectedPush(lines, envelope);
      EveryRepairIsListed(lines[..n - 1], envelope, p);
      if lines[n - 1].Record? {
        RepairsMember(n, lines[n - 1].fields, envelope, p);
      }
    }
  }

  function FieldIndex(f: B1Field): nat
  {
    match f
    case EventId => 0
    case Time => 1
    case PayloadHash => 2
    case CapabilityTokenHash => 3
  }

  predicate Precedes(p: Projected, q: Projected)
  {
    p.line < q.line || (p.line == q.line && FieldIndex(p.field) < FieldIndex(q.field))
  }

  ghost predicate InOrder(ps: seq<Projected>)
  {
    forall i, j :: 0 <= i < j < |ps| ==> Precedes(ps[i], ps[j])
  }

  lemma {:induction false} RepairsInOrder(line: nat, record: Object, envelope: Option<Object>)
    ensures InOrder(Repairs(line, record, envelope))
    ensures forall i :: 0 <= i < |Repairs(line, record, envelope)| ==> Repairs(line, record, envelope)[i].line == line
  {
    var g, repairs := RepairIn(line, record, envelope), Repairs(line, record, envelope);
    assert forall i :: 0 <= i < |B1_FIELDS| ==> FieldIndex(B1_FIELDS[i]) == i;
    forall i, j | 0 <= i < j < |repairs|
      ensures Precedes(repairs[i], repairs[j])
    {
      OriginIncreasing(B1_FIELDS, g, i, j);
    }
    forall i | 0 <= i < |repairs|
      ensures repairs[i].line == line
    {
      var k := Origin(B1_FIELDS, g, i);
    }
  }

  /** Line by line and, within a line, field by field: with membership, this fixes the list of repairs. */
  lemma {:induction false} RepairsAreListedInOrder(lines: seq<Line>, envelope: Option<Object>)
    requires ReadSpool(lines, envelope, true).Events?
    ensures var ps := ReadSpool(lines, envelope, true).projected;
      InOrder(ps) && forall i :: 0 <= i < |ps| ==> ps[i].line <= |lines|
  {
    if lines != [] {
      var n := |lines|;
      ProjectedPush(lines, envelope);
      RepairsAreListedInOrder(lines[..n - 1], envelope);
      if lines[n - 1].Record? {
        RepairsInOrder(n, lines[n - 1].fields, envelope);
      }
    }
  }
}
