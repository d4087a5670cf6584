/**
 internal/conformance/conformance.go: decoding of the SHIP JSON encoding (SHIP TS 1.0.1,
 sections 11.4.5 and 11.4.6) and the structural check of raw frames.
 */
module Conformance {
  import opened Options
  import opened Json

  // ---------------------------------------------------------------- Normalize

  predicate SingleMember(v: Json) {
    v.Obj? && |v.members| == 1
  }

  /** The arrays that merge into one object: single-member objects with pairwise distinct names. */
  predicate Mergeable(items: seq<Json>) {
    && items != []
    && (forall i | 0 <= i < |items| :: SingleMember(items[i]))
    && (forall i, j | 0 <= i < j < |items| :: items[i].members.Keys !! items[j].members.Keys)
  }

  function Members(v: Json): map<string, Json> {
    if v.Obj? then v.members else map[]
  }

  /** The children of the items, collected in order. */
  function Merged(items: seq<Json>): map<string, Json> {
    if items == [] then map[]
    else Merged(items[..|items| - 1]) + NormalizeMembers(items[|items| - 1])
  }

  function NormalizeMembers(v: Json): map<string, Json>
    decreases v, 0
  {
    map n | n in Members(v) :: Normalize(Members(v)[n])
  }

  function Normalize(v: Json): Json
    decreases v, 1
  {
    match v
    case Arr(items) =>
      if Mergeable(items) then Obj(Merged(items))
      else Arr(seq(|items|, i requires 0 <= i < |items| => Normalize(items[i])))
    case Obj(members) => Obj(NormalizeMembers(v))
    case _ => v
  }

  lemma SingletonKeys(m: map<string, Json>, name: string)
    requires |m| == 1 && name in m
    ensures m.Keys == {name}
  {
    assert |m.Keys - {name}| == 0;
  }

  predicate IsObjectOf(j: Json, name: string) {
    j.Obj? && j.members.Keys == {name}
  }

  function Inner(j: Json, name: string): Json {
    if j.Obj? && name in j.members then j.members[name] else Null
  }

  predicate Distinct(names: seq<string>) {
    forall i, j | 0 <= i < j < |names| :: names[i] != names[j]
  }

  function NameSet(names: seq<string>): set<string> {
    set i | 0 <= i < |names| :: names[i]
  }

  lemma MergeableByName(items: seq<Json>, names: seq<string>)
    requires |items| == |names| && forall i | 0 <= i < |items| :: IsObjectOf(items[i], names[i])
    ensures Mergeable(items) <==> items != [] && Distinct(names)
  {
    forall i | 0 <= i < |items| ensures SingleMember(items[i]) && items[i].members.Keys == {names[i]} {
      assert |items[i].members.Keys| == 1;
    }
    if Mergeable(items) {
      forall i, k | 0 <= i < k < |items| ensures names[i] != names[k] {
        assert items[i].members.Keys !! items[k].members.Keys;
      }
    }
  }

  lemma NameSetSnoc(names: seq<string>, name: string)
    ensures NameSet(names + [name]) == NameSet(names) + {name}
    ensures name !in NameSet(names) && Distinct(names) ==> Distinct(names + [name])
  {
    var more := names + [name];
    assert forall i | 0 <= i < |names| :: more[i] == names[i];
    assert more[|names|] == name;
  }

  lemma {:induction false} MergedSnoc(items: seq<Json>, item: Json, name: string)
    requires IsObjectOf(item, name)
    ensures Merged(items + [item]) == Merged(items)[name := Normalize(item.members[name])]
  {
    assert (items + [item])[..|items|] == items;
    assert NormalizeMembers(item) == map[name := Normalize(item.members[name])];
  }

  /** Every item's child stands under its own name, and nothing else does. */
  ghost predicate ByName(merged: map<string, Json>, items: seq<Json>, names: seq<string>)
    requires |items| == |names|
  {
    && merged.Keys == NameSet(names)
    && forall i | 0 <= i < |names| :: names[i] in merged && merged[names[i]] == Normalize(Inner(items[i], names[i]))
  }

  lemma ByNameSnoc(merged: map<string, Json>, items: seq<Json>, names: seq<string>, item: Json, name: string)
    requires |items| == |names| && ByName(merged, items, names)
    requires IsObjectOf(item, name) && name !in NameSet(names)
    ensures ByName(merged[name := Normalize(item.members[name])], items + [item], names + [name])
  {
    NameSetSnoc(names, name);
  }

  /** Merging loses nothing. */
  lemma {:induction false} MergedByName(items: seq<Json>, names: seq<string>)
    requires |items| == |names| && Distinct(names)
    requires forall i | 0 <= i < |items| :: IsObjectOf(items[i], names[i])
    ensures ByName(Merged(items), items, names)
  {
    if items != [] {
      var k := |items| - 1;
      var front, known := items[..k], names[..k];
      assert items == front + [items[k]] && names == known + [names[k]];
      MergedByName(front, known);
      ByNameSnoc(Merged(front), front, known, items[k], names[k]);
      MergedSnoc(front, items[k], names[k]);
    }
  }

  lemma RepeatedName(items: seq<Json>, names: seq<string>, name: string)
    requires |names| < |items| && forall i | 0 <= i < |names| :: IsObjectOf(items[i], names[i])
    requires IsObjectOf(items[|names|], name) && name in NameSet(names)
    ensures !Mergeable(items)
  {
    var i :| 0 <= i < |names| && names[i] == name;
    assert name in items[i].members.Keys * items[|names|].members.Keys;
  }

  /** What the loop of mergeElementList has collected from the first k items. */
  ghost predicate MergedSoFar(items: seq<Json>, k: nat, names: seq<string>, merged: map<string, Json>)
    requires k <= |items|
  {
    && |names| == k && Distinct(names)
    && (forall i | 0 <= i < k :: IsObjectOf(items[i], names[i]))
    && merged == Merged(items[..k])
    && merged.Keys == NameSet(names)
  }

  lemma MergeStep(items: seq<Json>, k: nat, names: seq<string>, merged: map<string, Json>, name: string)
    requires k < |items| && MergedSoFar(items, k, names, merged)
    requires IsObjectOf(items[k], name) && name !in merged
    ensures MergedSoFar(items, k + 1, names + [name], merged[name := Normalize(items[k].members[name])])
  {
    MergedSnoc(items[..k], items[k], name);
    assert items[..k + 1] == items[..k] + [items[k]];
    NameSetSnoc(names, name);
    assert merged[name := Normalize(items[k].members[name])].Keys == merged.Keys + {name};
    forall i | 0 <= i < k + 1 ensures IsObjectOf(items[i], (names + [name])[i]) {
      if i < k {
        assert (names + [name])[i] == names[i];
      }
    }
  }

  /** The loop of mergeElementList: it stops at the first item that is no new single member. */
  method MergeElementList(items: seq<Json>) returns (merged: map<string, Json>, ok: bool)
    ensures ok <==> Mergeable(items)
    ensures ok ==> merged == Merged(items)
  {
    merged := map[];
    if items == [] {
      return merged, false;
    }
    ghost var names := [];
    for k := 0 to |items|
      invariant MergedSoFar(items, k, names, merged)
    {
      if !SingleMember(items[k]) {
        return merged, false;
      }
      var name :| name in items[k].members;
      SingletonKeys(items[k].members, name);
      if name in merged {
        RepeatedName(items, names, name);
        return merged, false;
      }
      MergeStep(items, k, names, merged, name);
      merged := merged[name := Normalize(items[k].members[name])];
      names := names + [name];
    }
    ok := true;
    assert items[..|items|] == items;
    MergeableByName(items, names);
  }

  // ---------------------------------------------------- the documents encoded

  /**
   An element tree before encoding. `Elem` is a complex type with its children in order, `Many`
   the occurrences of a repeated element.
   */
  datatype Doc =
    | Leaf(value: Json)
    | Elem(children: seq<Child>)
    | Many(instances: seq<Doc>)

  datatype Child = Child(name: string, doc: Doc)

  function Names(cs: seq<Child>): seq<string> {
    seq(|cs|, i requires 0 <= i < |cs| => cs[i].name)
  }

  predicate DistinctNames(cs: seq<Child>) {
    forall i, j | 0 <= i < j < |cs| :: cs[i].name != cs[j].name
  }

  /**
   j encodes d: a complex type is an array of single-member objects in order (section 11.4.5),
   an empty element an empty array (11.4.6 rule 4), a repeated element an array of its
   occurrences (11.4.6 rule 6). One child alone may also be written as a bare single-member
   object; `compactItems` says whether that is allowed for an occurrence of a repeated element.
   */
  ghost predicate Encodes(j: Json, d: Doc, compactItems: bool)
    decreases d
  {
    match d
    case Leaf(v) => Primitive(v) && j == v
    case Elem(cs) =>
      if j.Arr? then
        && |j.items| == |cs|
        && (forall i | 0 <= i < |cs| :: IsObjectOf(j.items[i], cs[i].name))
        && (forall i | 0 <= i < |cs| :: Encodes(Inner(j.items[i], cs[i].name), cs[i].doc, compactItems))
      else
        |cs| == 1 && IsObjectOf(j, cs[0].name) && Encodes(Inner(j, cs[0].name), cs[0].doc, compactItems)
    case Many(ds) =>
      && j.Arr? && |j.items| == |ds|
      && (forall i | 0 <= i < |ds| :: Encodes(j.items[i], ds[i], compactItems))
      && (compactItems || forall i | 0 <= i < |ds| :: !j.items[i].Obj?)
  }

  /** The nested maps and lists a reader of the document expects. */
  function Plain(d: Doc): Json {
    match d
    case Leaf(v) => v
    case Elem(cs) =>
      if cs != [] && DistinctNames(cs) then Obj(PlainChildren(cs))
      else Arr(seq(|cs|, i requires 0 <= i < |cs| => Obj(map[cs[i].name := Plain(cs[i].doc)])))
    case Many(ds) => Arr(seq(|ds|, i requires 0 <= i < |ds| => Plain(ds[i])))
  }

  /** The children by name; names are distinct where this is used, otherwise the last one counts. */
  function PlainChildren(cs: seq<Child>): map<string, Json> {
    map n | n in NameSet(Names(cs)) :: Plain(cs[LastNamed(cs, n)].doc)
  }

  function LastNamed(cs: seq<Child>, name: string): (i: nat)
    requires name in NameSet(Names(cs))
    ensures i < |cs| && cs[i].name == name
  {
    var k := |cs| - 1;
    if cs[k].name == name then k
    else
      assert forall i | 0 <= i < k :: Names(cs[..k])[i] == Names(cs)[i];
      LastNamed(cs[..k], name)
  }

  /** No repeated element is written in a way that reads as one object with several members. */
  ghost predicate ListsKept(j: Json, d: Doc)
    requires Encodes(j, d, true)
    decreases d
  {
    match d
    case Leaf(_) => true
    case Elem(cs) =>
      if j.Arr? then forall i | 0 <= i < |cs| :: ListsKept(Inner(j.items[i], cs[i].name), cs[i].doc)
      else ListsKept(Inner(j, cs[0].name), cs[0].doc)
    case Many(ds) => !Mergeable(j.items) && forall i | 0 <= i < |ds| :: ListsKept(j.items[i], ds[i])
  }

  /** Normalize reads an encoding back exactly when every repeated element stays a list. */
  lemma {:induction false} NormalizeDecodes(j: Json, d: Doc)
    requires Encodes(j, d, true)
    ensures Normalize(j) == Plain(d) <==> ListsKept(j, d)
    decreases d
  {
    match d
    case Leaf(_) =>
    case Elem(cs) =>
      if j.Arr? {
        forall i | 0 <= i < |cs|
          ensures Reads(j.items[i], cs[i]) <==> ListsKept(Inner(j.items[i], cs[i].name), cs[i].doc)
        {
          NormalizeDecodes(Inner(j.items[i], cs[i].name), cs[i].doc);
        }
        NormalizeElements(j.items, cs);
      } else {
        NormalizeDecodes(Inner(j, cs[0].name), cs[0].doc);
        NormalizeSingle(j, cs[0].name);
        PlainSingle(cs);
        SingletonObj(cs[0].name, Normalize(Inner(j, cs[0].name)), Plain(cs[0].doc));
      }
    case Many(ds) =>
      forall i | 0 <= i < |ds|
        ensures Normalize(j.items[i]) == Plain(ds[i]) <==> ListsKept(j.items[i], ds[i])
      {
        NormalizeDecodes(j.items[i], ds[i]);
      }
      NormalizeOccurrences(j.items, ds);
  }

  ghost predicate Reads(j: Json, c: Child) {
    Normalize(Inner(j, c.name)) == Plain(c.doc)
  }

  lemma {:induction false} NormalizeSingle(j: Json, name: string)
    requires IsObjectOf(j, name)
    ensures Normalize(j) == Obj(map[name := Normalize(Inner(j, name))])
  {}

  lemma PlainSingle(cs: seq<Child>)
    requires |cs| == 1
    ensures Plain(Elem(cs)) == Obj(map[cs[0].name := Plain(cs[0].doc)])
  {
    PlainByName(cs);
    assert NameSet(Names(cs)) == {cs[0].name} by {
      assert Names(cs) == [cs[0].name];
    }
    assert PlainChildren(cs) == map[cs[0].name := Plain(cs[0].doc)];
  }

  lemma SingletonObj(name: string, a: Json, b: Json)
    ensures Obj(map[name := a]) == Obj(map[name := b]) <==> a == b
  {
    assert map[name := a][name] == a && map[name := b][name] == b;
  }

  /** The array of a complex type decodes as a whole exactly when each child does. */
  lemma NormalizeElements(items: seq<Json>, cs: seq<Child>)
    requires |items| == |cs| && forall i | 0 <= i < |cs| :: IsObjectOf(items[i], cs[i].name)
    ensures Normalize(Arr(items)) == Plain(Elem(cs)) <==> forall i | 0 <= i < |cs| :: Reads(items[i], cs[i])
  {
    MergeableByName(items, Names(cs));
    assert Distinct(Names(cs)) <==> DistinctNames(cs) by {
      assert forall i | 0 <= i < |cs| :: Names(cs)[i] == cs[i].name;
    }
    if Mergeable(items) {
      MergedElements(items, cs);
    } else {
      UnmergedElements(items, cs);
    }
  }

  lemma UnmergedElements(items: seq<Json>, cs: seq<Child>)
    requires |items| == |cs| && forall i | 0 <= i < |cs| :: IsObjectOf(items[i], cs[i].name)
    requires !Mergeable(items) && (cs == [] || !DistinctNames(cs))
    ensures Normalize(Arr(items)) == Plain(Elem(cs)) <==> forall i | 0 <= i < |cs| :: Reads(items[i], cs[i])
  {
    var norm, plain := Normalize(Arr(items)).items, Plain(Elem(cs)).items;
    forall i | 0 <= i < |cs|
      ensures norm[i] == plain[i] <==> Reads(items[i], cs[i])
    {
      NormalizeSingle(items[i], cs[i].name);
      SingletonObj(cs[i].name, Normalize(Inner(items[i], cs[i].name)), Plain(cs[i].doc));
    }
  }

  lemma {:induction false} MergedElements(items: seq<Json>, cs: seq<Child>)
    requires |items| == |cs| && DistinctNames(cs)
    requires forall i | 0 <= i < |cs| :: IsObjectOf(items[i], cs[i].name)
    ensures Merged(items) == PlainChildren(cs) <==> forall i | 0 <= i < |cs| :: Reads(items[i], cs[i])
  {
    MergedByName(items, Names(cs));
    PlainByName(cs);
    forall i | 0 <= i < |cs| ensures Agrees(Merged(items), PlainChildren(cs), cs[i].name) <==> Reads(items[i], cs[i]) {
      MergedAt(items, cs, i);
    }
    SameByName(Merged(items), PlainChildren(cs), cs);
  }

  ghost predicate Agrees(a: map<string, Json>, b: map<string, Json>, name: string) {
    name in a && name in b && a[name] == b[name]
  }

  lemma {:induction false} MergedAt(items: seq<Json>, cs: seq<Child>, i: nat)
    requires |items| == |cs| && DistinctNames(cs) && i < |cs|
    requires forall k | 0 <= k < |cs| :: IsObjectOf(items[k], cs[k].name)
    ensures Agrees(Merged(items), PlainChildren(cs), cs[i].name) <==> Reads(items[i], cs[i])
  {
    MergedByName(items, Names(cs));
    PlainByName(cs);
    assert Names(cs)[i] == cs[i].name;
  }

  lemma {:induction false} PlainByName(cs: seq<Child>)
    requires DistinctNames(cs)
    ensures PlainChildren(cs).Keys == NameSet(Names(cs))
    ensures forall i | 0 <= i < |cs| ::
      cs[i].name in PlainChildren(cs) && PlainChildren(cs)[cs[i].name] == Plain(cs[i].doc)
  {
    assert forall i | 0 <= i < |cs| :: Names(cs)[i] == cs[i].name;
  }

  lemma SameByName(a: map<string, Json>, b: map<string, Json>, cs: seq<Child>)
    requires a.Keys == b.Keys == NameSet(Names(cs))
    ensures a == b <==> forall i | 0 <= i < |cs| :: Agrees(a, b, cs[i].name)
  {
    forall i | 0 <= i < |cs| ensures cs[i].name in a {
      assert Names(cs)[i] == cs[i].name;
    }
    if forall i | 0 <= i < |cs| :: Agrees(a, b, cs[i].name) {
      forall name | name in a ensures a[name] == b[name] {
        var i :| 0 <= i < |Names(cs)| && Names(cs)[i] == name;
        assert cs[i].name == name;
      }
    }
  }

  lemma NormalizeOccurrences(items: seq<Json>, ds: seq<Doc>)
    requires |items| == |ds|
    ensures Normalize(Arr(items)) == Plain(Many(ds)) <==>
            !Mergeable(items) && forall i | 0 <= i < |ds| :: Normalize(items[i]) == Plain(ds[i])
  {
    if !Mergeable(items) {
      var norm, plain := Normalize(Arr(items)).items, Plain(Many(ds)).items;
      assert forall i | 0 <= i < |ds| :: norm[i] == Normalize(items[i]) && plain[i] == Plain(ds[i]);
    }
  }

  /** Canonical encodings, which never write an occurrence as a bare object, always decode. */
  lemma {:induction false} CanonicalDecodes(j: Json, d: Doc)
    requires Encodes(j, d, false)
    ensures Normalize(j) == Plain(d)
  {
    CanonicalKeepsLists(j, d);
    NormalizeDecodes(j, d);
  }

  lemma {:induction false} CanonicalKeepsLists(j: Json, d: Doc)
    requires Encodes(j, d, false)
    ensures Encodes(j, d, true) && ListsKept(j, d)
    decreases d
  {
    match d
    case Leaf(_) =>
    case Elem(cs) =>
      if j.Arr? {
        forall i | 0 <= i < |cs|
          ensures Encodes(Inner(j.items[i], cs[i].name), cs[i].doc, true)
          ensures ListsKept(Inner(j.items[i], cs[i].name), cs[i].doc)
        {
          CanonicalKeepsLists(Inner(j.items[i], cs[i].name), cs[i].doc);
        }
      } else {
        CanonicalKeepsLists(Inner(j, cs[0].name), cs[0].doc);
      }
    case Many(ds) =>
      forall i | 0 <= i < |ds|
        ensures Encodes(j.items[i], ds[i], true) && ListsKept(j.items[i], ds[i])
      {
        CanonicalKeepsLists(j.items[i], ds[i]);
      }
      if ds != [] {
        assert !j.items[0].Obj?;
      }
  }

  // ------------------------------------------------ repeated normalisation

  /** A value that further normalisation leaves alone. */
  predicate Stable(v: Json) {
    Normalize(v) == v
  }

  function Renormalize(v: Json, times: nat): Json {
    if times == 0 then v else Normalize(Renormalize(v, times - 1))
  }

  /** The entries of a list child that are objects, each normalised once more. */
  function ElementList(v: Json): seq<map<string, Json>> {
    match v
    case Obj(members) => [members]
    case Arr(items) => ObjectsOf(items)
    case _ => []
  }

  function ObjectsOf(items: seq<Json>): seq<map<string, Json>> {
    if items == [] then []
    else
      var entry := Normalize(items[|items| - 1]);
      ObjectsOf(items[..|items| - 1]) + if entry.Obj? then [entry.members] else []
  }

  method ReadElementList(v: Json) returns (out: seq<map<string, Json>>)
    ensures out == ElementList(v)
  {
    out := [];
    match v
    case Obj(members) =>
      out := [members];
    case Arr(items) =>
      for k := 0 to |items|
        invariant out == ObjectsOf(items[..k])
      {
        assert items[..k+1][..k] == items[..k];
        var normalized := Normalize(items[k]);
        if normalized.Obj? {
          out := out + [normalized.members];
        }
      }
      assert items[..|items|] == items;
    case _ =>
  }

  /** Entry e still is occurrence cs: the same element names, and every settled child unchanged. */
  ghost predicate EntryOf(e: map<string, Json>, cs: seq<Child>)
  {
    && e.Keys == NameSet(Names(cs))
    && forall i | 0 <= i < |cs| && Stable(Plain(cs[i].doc)) :: cs[i].name in e && e[cs[i].name] == Plain(cs[i].doc)
  }

  ghost predicate EntriesOf(es: seq<map<string, Json>>, occurrences: seq<seq<Child>>) {
    |es| == |occurrences| && forall i | 0 <= i < |es| :: EntryOf(es[i], occurrences[i])
  }

  function Occurrences(occurrences: seq<seq<Child>>): Doc {
    Many(seq(|occurrences|, i requires 0 <= i < |occurrences| => Elem(occurrences[i])))
  }

  /** Every occurrence has distinct children and carries the element `key`. */
  ghost predicate Keyed(occurrences: seq<seq<Child>>, key: string) {
    forall i | 0 <= i < |occurrences| :: DistinctNames(occurrences[i]) && key in NameSet(Names(occurrences[i]))
  }

  /** A list as normalisation leaves it: objects in an array, or the lone one-element object. */
  ghost predicate Settled(v: Json, occurrences: seq<seq<Child>>) {
    || (v.Arr? && |v.items| == |occurrences| &&
        forall i | 0 <= i < |occurrences| :: v.items[i].Obj? && EntryOf(v.items[i].members, occurrences[i]))
    || (v.Obj? && |occurrences| == 1 && |v.members| == 1 && EntryOf(v.members, occurrences[0]))
  }

  lemma {:induction false} NormalizeEntry(v: Json, cs: seq<Child>)
    requires v.Obj? && EntryOf(v.members, cs)
    ensures Normalize(v).Obj? && EntryOf(Normalize(v).members, cs)
    ensures Normalize(v).members.Keys == v.members.Keys
  {}

  lemma PlainEntry(cs: seq<Child>)
    requires cs != [] && DistinctNames(cs)
    ensures Plain(Elem(cs)).Obj? && EntryOf(Plain(Elem(cs)).members, cs)
  {
    PlainByName(cs);
  }

  /** Two settled entries both carry `key`, so they never merge into one object. */
  lemma SettledNeverMerges(items: seq<Json>, occurrences: seq<seq<Child>>, key: string)
    requires Keyed(occurrences, key) && Settled(Arr(items), occurrences) && |items| > 1
    ensures !Mergeable(items)
  {
    assert key in items[0].members.Keys * items[1].members.Keys;
  }

  lemma {:induction false} SettledMerge(items: seq<Json>, occurrences: seq<seq<Child>>, key: string)
    requires Keyed(occurrences, key) && Settled(Arr(items), occurrences) && Mergeable(items)
    ensures |items| == 1 && Settled(Obj(Merged(items)), occurrences)
  {
    if |items| > 1 {
      SettledNeverMerges(items, occurrences, key);
    }
    var name :| name in items[0].members;
    SingletonKeys(items[0].members, name);
    assert items == [] + [items[0]];
    MergedSnoc([], items[0], name);
    NormalizeEntry(items[0], occurrences[0]);
    NormalizeSingle(items[0], name);
  }

  lemma {:induction false} SettledNormalize(v: Json, occurrences: seq<seq<Child>>, key: string)
    requires Keyed(occurrences, key) && Settled(v, occurrences)
    ensures Settled(Normalize(v), occurrences)
  {
    match v
    case Obj(members) =>
      NormalizeEntry(v, occurrences[0]);
      assert |Normalize(v).members.Keys| == |members.Keys|;
    case Arr(items) =>
      if Mergeable(items) {
        SettledMerge(items, occurrences, key);
      } else {
        forall i | 0 <= i < |items| {
          NormalizeEntry(items[i], occurrences[i]);
        }
      }
  }

  lemma PlainSettled(occurrences: seq<seq<Child>>, key: string)
    requires Keyed(occurrences, key)
    ensures Settled(Plain(Occurrences(occurrences)), occurrences)
  {
    forall i | 0 <= i < |occurrences| ensures Plain(Elem(occurrences[i])).Obj? {
      PlainEntry(occurrences[i]);
    }
    forall i | 0 <= i < |occurrences| {
      PlainEntry(occurrences[i]);
    }
  }

  lemma EntriesOfSettled(v: Json, occurrences: seq<seq<Child>>)
    requires Settled(v, occurrences)
    ensures EntriesOf(ElementList(v), occurrences)
  {
    if v.Arr? {
      ObjectsOfSettled(v.items, occurrences);
    }
  }

  lemma {:induction false} SettledRenormalize(j: Json, occurrences: seq<seq<Child>>, key: string, times: nat)
    requires times >= 1 && Keyed(occurrences, key) && Encodes(j, Occurrences(occurrences), false)
    ensures Settled(Renormalize(j, times), occurrences)
  {
    if times == 1 {
      assert Renormalize(j, 0) == j;
      CanonicalDecodes(j, Occurrences(occurrences));
      PlainSettled(occurrences, key);
    } else {
      SettledRenormalize(j, occurrences, key, times - 1);
      SettledNormalize(Renormalize(j, times - 1), occurrences, key);
    }
  }

  lemma {:induction false} ObjectsOfSettled(items: seq<Json>, occurrences: seq<seq<Child>>)
    requires Settled(Arr(items), occurrences)
    ensures EntriesOf(ObjectsOf(items), occurrences)
  {
    if items != [] {
      var k := |items| - 1;
      assert Settled(Arr(items[..k]), occurrences[..k]);
      ObjectsOfSettled(items[..k], occurrences[..k]);
      NormalizeEntry(items[k], occurrences[k]);
    }
  }

  /**
   However often the tree was normalised before, elementList yields each occurrence of a keyed
   list once and in order, with its settled children untouched.
   */
  lemma {:induction false} RepeatedNormalizationHarmless(j: Json, occurrences: seq<seq<Child>>, key: string, times: nat)
    requires times >= 1 && Keyed(occurrences, key) && Encodes(j, Occurrences(occurrences), false)
    ensures EntriesOf(ElementList(Renormalize(j, times)), occurrences)
  {
    SettledRenormalize(j, occurrences, key, times);
    EntriesOfSettled(Renormalize(j, times), occurrences);
  }

  /**
   Normalize is not idempotent: a list of two one-element occurrences with different names reads
   as a list once and as one object the second time.
   */
  lemma NormalizeNotIdempotent(a: string, b: string, x: Json, y: Json)
    requires a != b && Primitive(x) && Primitive(y)
    ensures
      var v := Arr([Arr([Obj(map[a := x])]), Arr([Obj(map[b := y])])]);
      && Normalize(v) == Arr([Obj(map[a := x]), Obj(map[b := y])])
      && Normalize(Normalize(v)).Obj?
  {
    var once := Arr([Obj(map[a := x]), Obj(map[b := y])]);
    TwoOccurrences(a, b, x, y);
    assert IsObjectOf(once.items[0], a) && IsObjectOf(once.items[1], b);
    MergeableByName(once.items, [a, b]);
  }

  lemma TwoOccurrences(a: string, b: string, x: Json, y: Json)
    requires Primitive(x) && Primitive(y)
    ensures Normalize(Arr([Arr([Obj(map[a := x])]), Arr([Obj(map[b := y])])])) ==
      Arr([Obj(map[a := x]), Obj(map[b := y])])
  {
    var v := Arr([Arr([Obj(map[a := x])]), Arr([Obj(map[b := y])])]);
    var one, two := [Child(a, Leaf(x))], [Child(b, Leaf(y))];
    var d := Many([Elem(one), Elem(two)]);
    LoneChild(a, x);
    LoneChild(b, y);
    assert Encodes(v, d, false) by {
      assert Encodes(v.items[0], Elem(one), false) && Encodes(v.items[1], Elem(two), false);
    }
    CanonicalDecodes(v, d);
    assert Plain(d).items == [Obj(map[a := x]), Obj(map[b := y])];
  }

  lemma LoneChild(a: string, x: Json)
    requires Primitive(x)
    ensures Encodes(Arr([Obj(map[a := x])]), Elem([Child(a, Leaf(x))]), false)
    ensures Plain(Elem([Child(a, Leaf(x))])) == Obj(map[a := x])
  {
    var cs := [Child(a, Leaf(x))];
    var item := Obj(map[a := x]);
    assert Encodes(Inner(item, a), cs[0].doc, false);
    assert IsObjectOf(item, cs[0].name);
    PlainSingle(cs);
  }

  // ----------------------------------------------------------- scaled numbers

  function Pow(step: real, n: nat): real {
    if n == 0 then 1.0 else Pow(step, n - 1) * step
  }

  /** Ten to the power of the exponent's whole part, truncated towards zero. */
  function Pow10(exp: real): real {
    if exp < 0.0 then Pow(0.1, (-exp).Floor) else Pow(10.0, exp.Floor)
  }

  method ComputePow10(exp: real) returns (result: real)
    ensures result == Pow10(exp)
  {
    result := 1.0;
    var step, count := 10.0, exp;
    if exp < 0.0 {
      step, count := 0.1, -exp;
    }
    for i := 0 to count.Floor
      invariant result == Pow(step, i)
    {
      result := result * step;
    }
  }

  /** Negating the scale inverts the factor. */
  lemma {:induction false} Pow10Inverse(n: nat)
    ensures Pow10(n as real) * Pow10(-(n as real)) == 1.0
  {
    if n > 0 {
      Pow10Inverse(n - 1);
      var up, down := Pow(10.0, n - 1), Pow(0.1, n - 1);
      assert Pow(10.0, n) * Pow(0.1, n) == (up * down) * (10.0 * 0.1);
    }
  }

  function Tens(n: nat): real {
    if n == 0 then 1.0 else 10.0 * Tens(n - 1)
  }

  /** y is x with its decimal point moved by the whole part of the scale: to the right, or to the left if negative. */
  predicate Scales(x: real, scale: real, y: real) {
    if scale >= 0.0 then y == x * Tens(scale.Floor) else x == y * Tens((-scale).Floor)
  }

  lemma {:induction false} PowIsTens(n: nat)
    ensures Pow(10.0, n) == Tens(n) && Pow(0.1, n) * Tens(n) == 1.0
  {
    if n > 0 {
      PowIsTens(n - 1);
      assert Pow(0.1, n) * Tens(n) == (Pow(0.1, n - 1) * Tens(n - 1)) * (0.1 * 10.0);
    }
  }

  lemma Regrouped(x: real, y: real, z: real)
    requires y * z == 1.0
    ensures x == x * y * z
  {
    assert x * y * z == x * (y * z);
  }

  /** A number and its scale stand for the number with its decimal point moved. */
  lemma ScalesExactly(number: real, scale: real)
    ensures Scales(number, scale, number * Pow10(scale))
  {
    if scale >= 0.0 {
      PowIsTens(scale.Floor);
    } else {
      var n := (-scale).Floor;
      PowIsTens(n);
      var y := number * Pow10(scale);
      Regrouped(number, Pow(0.1, n), Tens(n));
      assert number == y * Tens(n);
    }
  }

  function ScaledNumber(v: Json): Option<real> {
    if v.Obj? && "number" in v.members && v.members["number"].Num? then
      var scale := if "scale" in v.members && v.members["scale"].Num? then v.members["scale"].n else 0.0;
      Some(v.members["number"].n * Pow10(scale))
    else None
  }
}
