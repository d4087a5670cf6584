/**
 internal/conformance/session.go, Session: measurement values are judged against the unit the
 same feature declared for them, possibly in an earlier message.
 */
module Session {
  import opened Options
  import opened Json
  import opened Conformance

  type Entry = map<string, Json>

  datatype UnitKey = UnitKey(feature: string, id: real)

  datatype Declaration = Declaration(id: real, unit: string)

  datatype Reading = Reading(id: real, value: real)

  /** A value-magnitude finding. */
  datatype Implausible = Implausible(id: real, value: real, unit: string)

  const UNIT_BOUNDS: map<string, real> := map["A" := 1000.0, "V" := 1000.0, "W" := 1000000.0, "Hz" := 1000.0]

  function Dig(v: Json, path: seq<string>): Json
    decreases |path|
  {
    if path == [] then v
    else if v.Obj? && path[0] in v.members then Dig(v.members[path[0]], path[1..])
    else Null
  }

  function Declared(e: Entry): Option<Declaration> {
    if "measurementId" in e && e["measurementId"].Num? && "unit" in e && e["unit"].Str?
    then Some(Declaration(e["measurementId"].n, e["unit"].s))
    else None
  }

  function ReadingOf(e: Entry): Option<Reading> {
    var value := if "value" in e then ScaledNumber(e["value"]) else None;
    if "measurementId" in e && e["measurementId"].Num? && value.Some?
    then Some(Reading(e["measurementId"].n, value.value))
    else None
  }

  // ----------------------------------------------------------- one command

  function Learn(units: map<UnitKey, string>, entries: seq<Entry>, source: string): map<UnitKey, string> {
    if entries == [] then units
    else
      var before := Learn(units, entries[..|entries| - 1], source);
      match Declared(entries[|entries| - 1])
      case Some(d) => before[UnitKey(source, d.id) := d.unit]
      case None => before
  }

  function Verdict(units: map<UnitKey, string>, source: string, e: Entry): seq<Implausible> {
    match ReadingOf(e)
    case None => []
    case Some(r) =>
      var key := UnitKey(source, r.id);
      if key in units && units[key] in UNIT_BOUNDS &&
         (r.value > UNIT_BOUNDS[units[key]] || r.value < -UNIT_BOUNDS[units[key]])
      then [Implausible(r.id, r.value, units[key])]
      else []
  }

  predicate Measures(e: Entry) {
    && "measurementId" in e && e["measurementId"].Num?
    && "value" in e && e["value"].Obj?
    && "number" in e["value"].members && e["value"].members["number"].Num?
  }

  function ScaleOf(e: Entry): real
    requires Measures(e)
  {
    var members := e["value"].members;
    if "scale" in members && members["scale"].Num? then members["scale"].n else 0.0
  }

  /** An entry is a reading exactly with an id and a number, and then of that number at its scale. */
  lemma ReadExactly(e: Entry)
    ensures ReadingOf(e).Some? <==> Measures(e)
    ensures
      Measures(e) ==>
        && ReadingOf(e).value.id == e["measurementId"].n
        && Scales(e["value"].members["number"].n, ScaleOf(e), ReadingOf(e).value.value)
  {
    if Measures(e) {
      ScalesExactly(e["value"].members["number"].n, ScaleOf(e));
    }
  }

  /** The unit is one whose values are known to be bounded, and the value lies beyond the bound. */
  predicate Absurd(unit: string, value: real) {
    && unit in {"A", "V", "W", "Hz"}
    && (if value < 0.0 then -value else value) > if unit == "W" then 1_000_000.0 else 1000.0
  }

  /** A value is flagged, once and as it is, exactly when the feature's unit for it is known and it is absurd. */
  lemma FlaggedExactly(units: map<UnitKey, string>, source: string, e: Entry)
    ensures
      Verdict(units, source, e) ==
      match ReadingOf(e)
      case Some(Reading(id, value)) =>
        var key := UnitKey(source, id);
        if key in units && Absurd(units[key], value) then [Implausible(id, value, units[key])] else []
      case None => []
  {
  }

  function Judge(units: map<UnitKey, string>, entries: seq<Entry>, source: string): seq<Implausible> {
    if entries == [] then []
    else Judge(units, entries[..|entries| - 1], source) + Verdict(units, source, entries[|entries| - 1])
  }

  /** A list is judged entry by entry, in order. */
  lemma {:induction false} JudgedOneByOne(units: map<UnitKey, string>, a: seq<Entry>, b: seq<Entry>, source: string)
    ensures Judge(units, a + b, source) == Judge(units, a, source) + Judge(units, b, source)
  {
    if b == [] {
      assert a + b == a;
    } else {
      assert (a + b)[..|a + b| - 1] == a + b[..|b| - 1];
      JudgedOneByOne(units, a, b[..|b| - 1], source);
    }
  }

  lemma {:induction false} JudgedAlone(units: map<UnitKey, string>, e: Entry, source: string)
    ensures Judge(units, [e], source) == Verdict(units, source, e)
  {
    assert [e][..0] == [];
  }

  /** An entry declares a unit exactly if it has an id, a number, and a unit, a text. */
  lemma DeclaredExactly(e: Entry)
    ensures
      Declared(e).Some? <==>
      "measurementId" in e && e["measurementId"].Num? && "unit" in e && e["unit"].Str?
    ensures
      Declared(e).Some? ==> e["measurementId"] == Num(Declared(e).value.id) && e["unit"] == Str(Declared(e).value.unit)
  {
  }

  function Descriptions(cmd: Entry): seq<Entry> {
    ElementList(Dig(Obj(cmd), ["measurementDescriptionListData", "measurementDescriptionData"]))
  }

  function Measurements(cmd: Entry): seq<Entry> {
    ElementList(Dig(Obj(cmd), ["measurementListData", "measurementData"]))
  }

  const DATAGRAM: seq<string> := ["data", "payload", "datagram"]
  const COMMAND_PATH: seq<string> := DATAGRAM + ["payload", "cmd"]
  const SOURCE_PATH: seq<string> := DATAGRAM + ["header", "addressSource"]

  /** The commands of a raw frame; a frame without a datagram has none. */
  function Commands(frame: Json): seq<Entry> {
    ElementList(Dig(Normalize(frame), COMMAND_PATH))
  }

  function Source(frame: Json, render: Json -> string): string {
    render(Dig(Normalize(frame), SOURCE_PATH))
  }

  /** The units known after these commands of one feature. */
  function UnitsAfter(units: map<UnitKey, string>, cmds: seq<Entry>, source: string): map<UnitKey, string> {
    if cmds == [] then units
    else Learn(UnitsAfter(units, cmds[..|cmds| - 1], source), Descriptions(cmds[|cmds| - 1]), source)
  }

  /** Each command's values, judged against the units known once it is learnt from. */
  function Findings(units: map<UnitKey, string>, cmds: seq<Entry>, source: string): seq<Implausible> {
    if cmds == [] then []
    else
      Findings(units, cmds[..|cmds| - 1], source) +
      Judge(UnitsAfter(units, cmds, source), Measurements(cmds[|cmds| - 1]), source)
  }

  class Session {
    var units: map<UnitKey, string>

    constructor ()
      ensures units == map[]
    {
      units := map[];
    }

    method LearnUnits(cmd: Entry, source: string)
      modifies this
      ensures units == Learn(old(units), Descriptions(cmd), source)
    {
      var entries := ReadElementList(Dig(Obj(cmd), ["measurementDescriptionListData", "measurementDescriptionData"]));
      for k := 0 to |entries|
        invariant units == Learn(old(units), entries[..k], source)
      {
        assert entries[..k + 1][..k] == entries[..k];
        var e := entries[k];
        if "measurementId" in e && e["measurementId"].Num? && "unit" in e && e["unit"].Str? {
          units := units[UnitKey(source, e["measurementId"].n) := e["unit"].s];
        }
      }
      assert entries[..|entries|] == entries;
    }

    method CheckMeasurements(cmd: Entry, source: string) returns (findings: seq<Implausible>)
      ensures findings == Judge(units, Measurements(cmd), source)
    {
      findings := [];
      var entries := ReadElementList(Dig(Obj(cmd), ["measurementListData", "measurementData"]));
      for k := 0 to |entries|
        invariant findings == Judge(units, entries[..k], source)
      {
        assert entries[..k + 1][..k] == entries[..k];
        var reading := ReadingOf(entries[k]);
        if reading.None? {
          continue;
        }
        var Reading(id, value) := reading.value;
        if UnitKey(source, id) !in units {
          continue;
        }
        var unit := units[UnitKey(source, id)];
        if unit !in UNIT_BOUNDS {
          continue;
        }
        var bound := UNIT_BOUNDS[unit];
        if value > bound || value < -bound {
          findings := findings + [Implausible(id, value, unit)];
        }
      }
      assert entries[..|entries|] == entries;
    }

    /** One command: units first, so that a declaration also covers values in the same command. */
    method CheckCommand(cmd: Entry, source: string) returns (findings: seq<Implausible>)
      modifies this
      ensures units == Learn(old(units), Descriptions(cmd), source)
      ensures findings == Judge(units, Measurements(cmd), source)
    {
      LearnUnits(cmd, source);
      findings := CheckMeasurements(cmd, source);
    }

    /** One frame: its commands one after the other, on behalf of the feature that sent it. */
    method Check(frame: Json, render: Json -> string) returns (findings: seq<Implausible>)
      modifies this
      ensures units == UnitsAfter(old(units), Commands(frame), Source(frame, render))
      ensures findings == Findings(old(units), Commands(frame), Source(frame, render))
    {
      findings := [];
      var norm := Normalize(frame);
      var source := render(Dig(norm, SOURCE_PATH));
      var cmds := ReadElementList(Dig(norm, COMMAND_PATH));
      for k := 0 to |cmds|
        invariant units == UnitsAfter(old(units), cmds[..k], source)
        invariant findings == Findings(old(units), cmds[..k], source)
      {
        assert cmds[..k + 1][..k] == cmds[..k];
        var more := CheckCommand(cmds[k], source);
        findings := findings + more;
      }
      assert cmds[..|cmds|] == cmds;
    }
  }

  // ----------------------------------------------------- the whole session

  /** A command and the feature that sent it. */
  datatype Command = Command(source: string, cmd: Entry)

  function SessionUnits(commands: seq<Command>): map<UnitKey, string> {
    if commands == [] then map[]
    else
      var c := commands[|commands| - 1];
      Learn(SessionUnits(commands[..|commands| - 1]), Descriptions(c.cmd), c.source)
  }

  /** The unit of the last entry that declares the measurement. */
  function LastDeclared(entries: seq<Entry>, id: real): Option<string> {
    if entries == [] then None
    else
      var d := Declared(entries[|entries| - 1]);
      if d.Some? && d.value.id == id then Some(d.value.unit)
      else LastDeclared(entries[..|entries| - 1], id)
  }

  /** The unit the feature itself declared last for one of its measurements. */
  function LastUnit(commands: seq<Command>, feature: string, id: real): Option<string> {
    if commands == [] then None
    else
      var c := commands[|commands| - 1];
      var own := if c.source == feature then LastDeclared(Descriptions(c.cmd), id) else None;
      if own.Some? then own else LastUnit(commands[..|commands| - 1], feature, id)
  }

  function Known(units: map<UnitKey, string>, key: UnitKey): Option<string> {
    if key in units then Some(units[key]) else None
  }

  lemma {:induction false} LearnIsLast(units: map<UnitKey, string>, entries: seq<Entry>, source: string, key: UnitKey)
    ensures
      var own := if key.feature == source then LastDeclared(entries, key.id) else None;
      Known(Learn(units, entries, source), key) == if own.Some? then own else Known(units, key)
  {
    if entries != [] {
      LearnIsLast(units, entries[..|entries| - 1], source, key);
    }
  }

  /**
   At any point of a session a measurement's unit is the one its own feature declared last; what
   other features declare for the same id never matters.
   */
  lemma {:induction false} UnitsAreLastDeclared(commands: seq<Command>, feature: string, id: real)
    ensures Known(SessionUnits(commands), UnitKey(feature, id)) == LastUnit(commands, feature, id)
  {
    if commands != [] {
      var before, c := commands[..|commands| - 1], commands[|commands| - 1];
      UnitsAreLastDeclared(before, feature, id);
      LearnIsLast(SessionUnits(before), Descriptions(c.cmd), c.source, UnitKey(feature, id));
    }
  }

  // ------------------------------------------- repeated normalisation again

  const READ_KEYS := {"measurementId", "unit", "value"}

  /** The elements the session reads from an occurrence survive any further normalisation. */
  ghost predicate Legible(cs: seq<Child>) {
    forall i | 0 <= i < |cs| && cs[i].name in READ_KEYS :: Stable(Plain(cs[i].doc))
  }

  function PlainEntries(occurrences: seq<seq<Child>>): seq<Entry>
    requires forall i | 0 <= i < |occurrences| :: DistinctNames(occurrences[i])
  {
    seq(|occurrences|, i requires 0 <= i < |occurrences| => PlainChildren(occurrences[i]))
  }

  predicate SameRead(e: Entry, f: Entry) {
    forall key | key in READ_KEYS :: (key in e <==> key in f) && (key in e ==> e[key] == f[key])
  }

  lemma SameReadSame(units: map<UnitKey, string>, source: string, e: Entry, f: Entry)
    requires SameRead(e, f)
    ensures Declared(e) == Declared(f) && Verdict(units, source, e) == Verdict(units, source, f)
  {
    assert "measurementId" in READ_KEYS && "unit" in READ_KEYS && "value" in READ_KEYS;
  }

  lemma {:induction false} EntryReadsPlain(e: Entry, cs: seq<Child>)
    requires DistinctNames(cs) && Legible(cs) && EntryOf(e, cs)
    ensures SameRead(e, PlainChildren(cs))
  {
    PlainByName(cs);
    forall key | key in READ_KEYS && key in e ensures e[key] == PlainChildren(cs)[key] {
      var i :| 0 <= i < |cs| && Names(cs)[i] == key;
      assert cs[i].name == key;
    }
  }

  lemma {:induction false} SameReadLists(units: map<UnitKey, string>, source: string, es: seq<Entry>, fs: seq<Entry>)
    requires |es| == |fs| && forall i | 0 <= i < |es| :: SameRead(es[i], fs[i])
    ensures Learn(units, es, source) == Learn(units, fs, source)
    ensures Judge(units, es, source) == Judge(units, fs, source)
  {
    if es != [] {
      var n := |es| - 1;
      SameReadLists(units, source, es[..n], fs[..n]);
      SameReadSame(units, source, es[n], fs[n]);
    }
  }

  /**
   A canonical measurement list is learnt from and judged exactly as the device sent it, however
   often the tree around it was normalised on the way.
   */
  lemma {:induction false} ListsReadAsSent(
    units: map<UnitKey, string>, source: string, j: Json, occurrences: seq<seq<Child>>, times: nat)
    requires times >= 1 && Keyed(occurrences, "measurementId") && Encodes(j, Occurrences(occurrences), false)
    requires forall i | 0 <= i < |occurrences| :: Legible(occurrences[i])
    ensures
      var entries := ElementList(Renormalize(j, times));
      && Learn(units, entries, source) == Learn(units, PlainEntries(occurrences), source)
      && Judge(units, entries, source) == Judge(units, PlainEntries(occurrences), source)
  {
    var entries := ElementList(Renormalize(j, times));
    RepeatedNormalizationHarmless(j, occurrences, "measurementId", times);
    EntriesReadPlain(entries, occurrences);
    SameReadLists(units, source, entries, PlainEntries(occurrences));
  }

  // ------------------------------------------- from the frame to the findings

  function ChildDoc(cs: seq<Child>, name: string): Option<Doc> {
    if name in NameSet(Names(cs)) then Some(cs[LastNamed(cs, name)].doc) else None
  }

  /** The element below d at this path of names. */
  function DigDoc(d: Doc, path: seq<string>): Option<Doc>
    decreases |path|
  {
    if path == [] then Some(d)
    else if d.Elem? && d.children != [] && DistinctNames(d.children) then
      match ChildDoc(d.children, path[0])
      case Some(child) => DigDoc(child, path[1..])
      case None => None
    else None
  }

  lemma {:induction false} PlainChild(cs: seq<Child>, name: string)
    requires DistinctNames(cs)
    ensures name in PlainChildren(cs) <==> ChildDoc(cs, name).Some?
    ensures name in PlainChildren(cs) ==> PlainChildren(cs)[name] == Plain(ChildDoc(cs, name).value)
  {
  }

  lemma {:induction false} DigPlain(d: Doc, path: seq<string>)
    requires DigDoc(d, path).Some?
    ensures Dig(Plain(d), path) == Plain(DigDoc(d, path).value)
    decreases |path|
  {
    if path != [] {
      PlainChild(d.children, path[0]);
      DigPlain(ChildDoc(d.children, path[0]).value, path[1..]);
    }
  }

  /** What a device sends in one command: its unit descriptions and its measurements. */
  datatype Sent = Sent(descriptions: seq<seq<Child>>, measurements: seq<seq<Child>>)

  /** The function is there without its data element: empty, a plain value, or with other elements only. */
  predicate Lacks(d: Doc, data: string) {
    match d
    case Leaf(v) => Primitive(v)
    case Elem(_) => DigDoc(d, [data]).None?
    case Many(_) => false
  }

  /** A command holds these entries under the function and its data element; it may lack either. */
  ghost predicate Carries(cs: seq<Child>, func: string, data: string, occurrences: seq<seq<Child>>) {
    && Keyed(occurrences, "measurementId")
    && (forall i | 0 <= i < |occurrences| :: Legible(occurrences[i]))
    && match ChildDoc(cs, func)
       case None => occurrences == []
       case Some(d) =>
         || (d.Elem? && DigDoc(d, [data]) == Some(Occurrences(occurrences)))
         || (Lacks(d, data) && occurrences == [])
  }

  ghost predicate IsCommand(cs: seq<Child>, sent: Sent) {
    && cs != [] && DistinctNames(cs)
    && Carries(cs, "measurementDescriptionListData", "measurementDescriptionData", sent.descriptions)
    && Carries(cs, "measurementListData", "measurementData", sent.measurements)
  }

  /** Two names down, through an object that was normalised once more. */
  lemma DigTwice(cs: seq<Child>, func: string, data: string)
    requires cs != [] && DistinctNames(cs)
    ensures Normalize(Plain(Elem(cs))).Obj?
    ensures
      var found := Dig(Normalize(Plain(Elem(cs))), [func, data]);
      match ChildDoc(cs, func)
      case None => found == Null
      case Some(d) =>
        && (d.Elem? && DigDoc(d, [data]).Some? ==> found == Normalize(Plain(DigDoc(d, [data]).value)))
        && (Lacks(d, data) ==> found == Null)
  {
    PlainChild(cs, func);
    if ChildDoc(cs, func).Some? {
      var d := ChildDoc(cs, func).value;
      if d.Elem? && DigDoc(d, [data]).Some? {
        DigOnce(d, data);
      }
      if Lacks(d, data) {
        DigLacking(d, data);
      }
    }
    assert [func, data][1..] == [data];
  }

  lemma {:induction false} DigOnce(d: Doc, data: string)
    requires d.Elem? && DigDoc(d, [data]).Some?
    ensures Dig(Normalize(Plain(d)), [data]) == Normalize(Plain(DigDoc(d, [data]).value))
  {
    PlainChild(d.children, data);
    assert [data][1..] == [];
  }

  lemma {:induction false} DigLacking(d: Doc, data: string)
    requires Lacks(d, data)
    ensures Dig(Normalize(Plain(d)), [data]) == Null
  {
    if d.Elem? {
      if d.children != [] && DistinctNames(d.children) {
        PlainChild(d.children, data);
        assert [data][1..] == [];
        var child := ChildDoc(d.children, data);
        assert child.Some? ==> DigDoc(child.value, []).Some?;
        assert Plain(d) == Obj(PlainChildren(d.children));
        assert Normalize(Plain(d)) == Obj(NormalizeMembers(Plain(d)));
      } else {
        NeverMerged(d.children);
      }
    }
  }

  /** An element without children, or with children of the same name, stays a list. */
  lemma NeverMerged(cs: seq<Child>)
    requires cs == [] || !DistinctNames(cs)
    ensures Normalize(Plain(Elem(cs))).Arr?
  {
    var items := Plain(Elem(cs)).items;
    MergeableByName(items, Names(cs));
    if !DistinctNames(cs) {
      var i, j :| 0 <= i < j < |cs| && cs[i].name == cs[j].name;
      assert Names(cs)[i] == Names(cs)[j];
    }
  }

  /** A list inside a command is read entry by entry, although it was normalised twice on the way. */
  lemma ListOfCommand(cs: seq<Child>, func: string, data: string, occurrences: seq<seq<Child>>)
    requires cs != [] && DistinctNames(cs) && Carries(cs, func, data, occurrences)
    ensures EntriesOf(ElementList(Dig(Normalize(Plain(Elem(cs))), [func, data])), occurrences)
  {
    DigTwice(cs, func, data);
    if ChildDoc(cs, func).Some? && !Lacks(ChildDoc(cs, func).value, data) {
      PlainSettled(occurrences, "measurementId");
      SettledNormalize(Plain(Occurrences(occurrences)), occurrences, "measurementId");
      EntriesOfSettled(Normalize(Plain(Occurrences(occurrences))), occurrences);
    }
  }

  lemma EntriesReadPlain(entries: seq<Entry>, occurrences: seq<seq<Child>>)
    requires EntriesOf(entries, occurrences) && Keyed(occurrences, "measurementId")
    requires forall i | 0 <= i < |occurrences| :: Legible(occurrences[i])
    ensures forall i | 0 <= i < |entries| :: SameRead(entries[i], PlainEntries(occurrences)[i])
  {
    forall i | 0 <= i < |entries| ensures SameRead(entries[i], PlainEntries(occurrences)[i]) {
      EntryReadsPlain(entries[i], occurrences[i]);
    }
  }

  /** One command is learnt from and judged as it was sent. */
  lemma {:induction false} CommandReadAsSent(units: map<UnitKey, string>, source: string, cs: seq<Child>, sent: Sent)
    requires IsCommand(cs, sent)
    ensures
      var cmd := Normalize(Plain(Elem(cs)));
      && cmd.Obj?
      && Learn(units, Descriptions(cmd.members), source) == Learn(units, PlainEntries(sent.descriptions), source)
      && Judge(units, Measurements(cmd.members), source) == Judge(units, PlainEntries(sent.measurements), source)
  {
    var cmd := Normalize(Plain(Elem(cs)));
    ListOfCommand(cs, "measurementDescriptionListData", "measurementDescriptionData", sent.descriptions);
    ListOfCommand(cs, "measurementListData", "measurementData", sent.measurements);
    DigTwice(cs, "", "");
    assert cmd == Obj(cmd.members);
    EntriesReadPlain(Descriptions(cmd.members), sent.descriptions);
    EntriesReadPlain(Measurements(cmd.members), sent.measurements);
    SameReadLists(units, source, Descriptions(cmd.members), PlainEntries(sent.descriptions));
    SameReadLists(units, source, Measurements(cmd.members), PlainEntries(sent.measurements));
  }

  ghost predicate AreCommands(cmds: seq<seq<Child>>, sents: seq<Sent>) {
    |cmds| == |sents| && forall i | 0 <= i < |cmds| :: IsCommand(cmds[i], sents[i])
  }

  function UnitsAsSent(units: map<UnitKey, string>, sents: seq<Sent>, source: string): map<UnitKey, string>
    requires forall i | 0 <= i < |sents| :: Readable(sents[i])
  {
    if sents == [] then units
    else
      var n := |sents| - 1;
      assert Readable(sents[n]);
      Learn(UnitsAsSent(units, sents[..n], source), PlainEntries(sents[n].descriptions), source)
  }

  predicate Readable(sent: Sent) {
    && (forall i | 0 <= i < |sent.descriptions| :: DistinctNames(sent.descriptions[i]))
    && (forall i | 0 <= i < |sent.measurements| :: DistinctNames(sent.measurements[i]))
  }

  /** The findings that what the device sent deserves. */
  function FindingsAsSent(units: map<UnitKey, string>, sents: seq<Sent>, source: string): seq<Implausible>
    requires forall i | 0 <= i < |sents| :: Readable(sents[i])
  {
    if sents == [] then []
    else
      var n := |sents| - 1;
      assert Readable(sents[n]);
      FindingsAsSent(units, sents[..n], source)
      + Judge(UnitsAsSent(units, sents, source), PlainEntries(sents[n].measurements), source)
  }

  /** The commands as elementList reads them off the decoded list. */
  function Decoded(cmds: seq<seq<Child>>): seq<Json> {
    seq(|cmds|, i requires 0 <= i < |cmds| => Plain(Elem(cmds[i])))
  }

  lemma {:induction false} CommandsReadAsSent(
    units: map<UnitKey, string>, source: string, cmds: seq<seq<Child>>, sents: seq<Sent>)
    requires AreCommands(cmds, sents)
    ensures
      && UnitsAfter(units, ObjectsOf(Decoded(cmds)), source) == UnitsAsSent(units, sents, source)
      && Findings(units, ObjectsOf(Decoded(cmds)), source) == FindingsAsSent(units, sents, source)
  {
    if cmds != [] {
      var n := |cmds| - 1;
      CommandsReadAsSent(units, source, cmds[..n], sents[..n]);
      assert Decoded(cmds)[..n] == Decoded(cmds[..n]);
      CommandReadAsSent(UnitsAsSent(units, sents[..n], source), source, cmds[n], sents[n]);
      CommandReadAsSent(UnitsAsSent(units, sents, source), source, cmds[n], sents[n]);
      var before, cmd := ObjectsOf(Decoded(cmds[..n])), Normalize(Plain(Elem(cmds[n]))).members;
      assert ObjectsOf(Decoded(cmds)) == before + [cmd];
      OneMore(units, before, cmd, source);
    }
  }

  lemma {:induction false} OneMore(units: map<UnitKey, string>, before: seq<Entry>, cmd: Entry, source: string)
    ensures UnitsAfter(units, before + [cmd], source) ==
      Learn(UnitsAfter(units, before, source), Descriptions(cmd), source)
    ensures
      Findings(units, before + [cmd], source) ==
      Findings(units, before, source) + Judge(UnitsAfter(units, before + [cmd], source), Measurements(cmd), source)
  {
    assert (before + [cmd])[..|before|] == before;
  }

  /**
   From the raw frame to the findings: a canonically encoded frame is learnt from and judged exactly as
   the device meant it, command by command, although its lists are normalised three times on the way.
   */
  lemma {:induction false} FrameJudgedAsSent(
    units: map<UnitKey, string>, frame: Json, d: Doc, cmds: seq<seq<Child>>, sents: seq<Sent>, source: string)
    requires Encodes(frame, d, false) && DigDoc(d, COMMAND_PATH) == Some(Occurrences(cmds))
    requires AreCommands(cmds, sents)
    ensures
      && UnitsAfter(units, Commands(frame), source) == UnitsAsSent(units, sents, source)
      && Findings(units, Commands(frame), source) == FindingsAsSent(units, sents, source)
  {
    CommandsDecoded(frame, d, cmds);
    CommandsReadAsSent(units, source, cmds, sents);
  }

  lemma {:induction false} CommandsDecoded(frame: Json, d: Doc, cmds: seq<seq<Child>>)
    requires Encodes(frame, d, false) && DigDoc(d, COMMAND_PATH) == Some(Occurrences(cmds))
    ensures Commands(frame) == ObjectsOf(Decoded(cmds))
  {
    CanonicalDecodes(frame, d);
    DigPlain(d, COMMAND_PATH);
    DecodedOccurrences(cmds);
  }

  lemma DecodedOccurrences(cmds: seq<seq<Child>>)
    ensures Plain(Occurrences(cmds)) == Arr(Decoded(cmds))
  {
    assert Plain(Occurrences(cmds)).items == Decoded(cmds);
  }

  /** A scaled number with a plain number and scale is legible. */
  lemma ScaledNumberStable(number: Json, scale: Json)
    requires Primitive(number) && Primitive(scale)
    ensures Stable(Plain(Elem([Child("number", Leaf(number)), Child("scale", Leaf(scale))])))
  {
    var cs := [Child("number", Leaf(number)), Child("scale", Leaf(scale))];
    assert cs[0].name[0] != cs[1].name[0];
    PlainByName(cs);
    var plain := PlainChildren(cs);
    forall n | n in plain ensures Normalize(plain[n]) == plain[n] {
      var i :| 0 <= i < |cs| && Names(cs)[i] == n;
      assert plain[cs[i].name] == Plain(cs[i].doc);
    }
    assert NormalizeMembers(Obj(plain)) == plain;
  }
}
