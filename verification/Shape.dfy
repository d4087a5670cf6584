/**
 internal/conformance/conformance.go, checkShape: which structural faults of a raw frame are
 reported, and where. A path is kept as its steps instead of the rendered text, and the findings
 as a set: two nodes never share a path, and one node never breaks a rule twice.
 */
module Shape {
  import opened Options
  import opened Json
  import opened Conformance

  datatype Rule = MultiMemberObject | EmptyObject | EmptyArrayInstance

  datatype Finding = Finding(rule: Rule, path: seq<Step>)

  function CheckShape(v: Json, path: seq<Step>, isRoot: bool): set<Finding>
    decreases v, 1
  {
    OwnFindings(v, path, isRoot) + Below(v, path)
  }

  function OwnFindings(v: Json, path: seq<Step>, isRoot: bool): set<Finding> {
    match v
    case Obj(members) =>
      (if |members| > 1 then {Finding(MultiMemberObject, path)} else {})
      + (if |members| == 0 && !isRoot then {Finding(EmptyObject, path)} else {})
    case _ => {}
  }

  function Below(v: Json, path: seq<Step>): set<Finding>
    decreases v, 0
  {
    match v
    case Obj(members) =>
      set n, f | n in members && f in CheckShape(members[n], path + [Name(n)], false) :: f
    case Arr(items) =>
      (set i | 0 <= i < |items| && items[i] == Arr([]) :: Finding(EmptyArrayInstance, path + [Index(i)]))
      + (set i, f | 0 <= i < |items| && f in CheckShape(items[i], path + [Index(i)], false) :: f)
    case _ => {}
  }

  // ------------------------------------------------- every fault, and only those

  /** The node reached from v by a path, if there is one. */
  function At(v: Json, p: seq<Step>): Option<Json>
    decreases |p|
  {
    if p == [] then Some(v)
    else
      match Down(v, p[0])
      case None => None
      case Some(next) => At(next, p[1..])
  }

  function Down(v: Json, step: Step): Option<Json> {
    match (v, step)
    case (Obj(members), Name(n)) => if n in members then Some(members[n]) else None
    case (Arr(items), Index(i)) => if i < |items| then Some(items[i]) else None
    case _ => None
  }

  /** The node at p breaks the rule, judged on that node alone. */
  ghost predicate Breaks(v: Json, p: seq<Step>, isRoot: bool, rule: Rule) {
    && At(v, p).Some?
    && var node := At(v, p).value;
       match rule
       case MultiMemberObject => node.Obj? && |node.members| > 1
       case EmptyObject => node.Obj? && |node.members| == 0 && !(isRoot && p == [])
       case EmptyArrayInstance => p != [] && p[|p| - 1].Index? && node == Arr([])
  }

  /** checkShape reports a rule at a path exactly when the node there breaks it. */
  lemma {:induction false} CheckShapeExact(v: Json, path: seq<Step>, isRoot: bool, rule: Rule, p: seq<Step>)
    ensures Finding(rule, path + p) in CheckShape(v, path, isRoot) <==> Breaks(v, p, isRoot, rule)
    decreases |p|
  {
    if p == [] {
      assert path + p == path;
      OwnPath(v, path, isRoot, rule);
    } else {
      var step, rest := p[0], p[1..];
      assert path + p == path + [step] + rest;
      if Down(v, step).Some? {
        CheckShapeExact(Down(v, step).value, path + [step], false, rule, rest);
      }
      BelowStep(v, path, isRoot, rule, step, rest);
      BreaksBelow(v, p, isRoot, rule);
    }
  }

  /** What a node below the top breaks is judged one step further down. */
  lemma BreaksBelow(v: Json, p: seq<Step>, isRoot: bool, rule: Rule)
    requires p != []
    ensures
      Breaks(v, p, isRoot, rule) <==>
      && Down(v, p[0]).Some?
      && var child := Down(v, p[0]).value;
         || Breaks(child, p[1..], false, rule)
         || (p[1..] == [] && p[0].Index? && rule == EmptyArrayInstance && child == Arr([]))
  {
    var rest := p[1..];
    assert p[|p| - 1] == if rest == [] then p[0] else rest[|rest| - 1];
  }

  lemma {:induction false} OwnPath(v: Json, path: seq<Step>, isRoot: bool, rule: Rule)
    ensures Finding(rule, path) in CheckShape(v, path, isRoot) <==> Breaks(v, [], isRoot, rule)
  {
    if Finding(rule, path) in Below(v, path) {
      PathsLonger(v, path, Finding(rule, path));
    }
  }

  /** Findings of a subtree lie on paths that start with the subtree's own. */
  lemma {:induction false} PathsBelow(v: Json, path: seq<Step>, isRoot: bool, f: Finding)
    requires f in CheckShape(v, path, isRoot)
    ensures path <= f.path
    decreases v, 1
  {
    if f in Below(v, path) {
      PathsLonger(v, path, f);
    }
  }

  lemma {:induction false} PathsLonger(v: Json, path: seq<Step>, f: Finding)
    requires f in Below(v, path)
    ensures path < f.path
    decreases v, 0
  {
    match v
    case Obj(members) =>
      var n :| n in members && f in CheckShape(members[n], path + [Name(n)], false);
      PathsBelow(members[n], path + [Name(n)], false, f);
    case Arr(items) =>
      if i :| 0 <= i < |items| && f in CheckShape(items[i], path + [Index(i)], false) {
        PathsBelow(items[i], path + [Index(i)], false, f);
      }
  }

  lemma {:induction false} BelowStep(v: Json, path: seq<Step>, isRoot: bool, rule: Rule, step: Step, rest: seq<Step>)
    ensures
      Finding(rule, path + [step] + rest) in CheckShape(v, path, isRoot) <==>
      && Down(v, step).Some?
      && var child := Down(v, step).value;
         || Finding(rule, path + [step] + rest) in CheckShape(child, path + [step], false)
         || (rest == [] && step.Index? && rule == EmptyArrayInstance && child == Arr([]))
  {
    var f := Finding(rule, path + [step] + rest);
    match v
    case Obj(_) => BelowMember(v, path, isRoot, f, step);
    case Arr(_) => BelowItem(v, path, isRoot, f, step);
    case _ =>
  }

  lemma {:induction false} BelowMember(v: Json, path: seq<Step>, isRoot: bool, f: Finding, step: Step)
    requires v.Obj? && path + [step] <= f.path
    ensures f in CheckShape(v, path, isRoot) <==>
            step.Name? && step.name in v.members && f in CheckShape(v.members[step.name], path + [step], false)
  {
    assert f.path[|path|] == step && f !in OwnFindings(v, path, isRoot);
    if n :| n in v.members && f in CheckShape(v.members[n], path + [Name(n)], false) {
      PathsBelow(v.members[n], path + [Name(n)], false, f);
      assert step == Name(n);
    }
  }

  lemma {:induction false} BelowItem(v: Json, path: seq<Step>, isRoot: bool, f: Finding, step: Step)
    requires v.Arr? && path + [step] <= f.path
    ensures f in CheckShape(v, path, isRoot) <==>
            && step.Index? && step.index < |v.items|
            && (|| f in CheckShape(v.items[step.index], path + [step], false)
                || (f == Finding(EmptyArrayInstance, path + [step]) && v.items[step.index] == Arr([])))
  {
    assert f.path[|path|] == step && f !in OwnFindings(v, path, isRoot);
    if i :| 0 <= i < |v.items| && f in CheckShape(v.items[i], path + [Index(i)], false) {
      PathsBelow(v.items[i], path + [Index(i)], false, f);
      assert step == Index(i);
    }
    if i :| 0 <= i < |v.items| && f == Finding(EmptyArrayInstance, path + [Index(i)]) {
      assert step == Index(i);
    }
  }

  // ------------------------------------------------- the frames it accepts

  /** An element with no content at all. */
  predicate Empty(d: Doc) {
    (d.Elem? && d.children == []) || (d.Many? && d.instances == [])
  }

  /** No repeated element has an occurrence without content (section 11.5.2 rule 1). */
  predicate NoEmptyOccurrence(d: Doc) {
    match d
    case Leaf(_) => true
    case Elem(cs) => forall i | 0 <= i < |cs| :: NoEmptyOccurrence(cs[i].doc)
    case Many(ds) => forall i | 0 <= i < |ds| :: !Empty(ds[i]) && NoEmptyOccurrence(ds[i])
  }

  /** Item by item, the array of an element's children. */
  lemma {:induction false} CleanElements(items: seq<Json>, cs: seq<Child>, path: seq<Step>, isRoot: bool)
    requires |items| == |cs|
    requires forall i | 0 <= i < |cs| :: items[i] != Arr([])
    requires forall i | 0 <= i < |cs| ::
      CheckShape(items[i], path + [Index(i)], false) == {} <==> NoEmptyOccurrence(cs[i].doc)
    ensures CheckShape(Arr(items), path, isRoot) == {} <==> NoEmptyOccurrence(Elem(cs))
  {
    CleanItems(items, path, isRoot);
  }

  /** Item by item, the array of a repeated element's occurrences. */
  lemma {:induction false} CleanOccurrences(items: seq<Json>, ds: seq<Doc>, path: seq<Step>, isRoot: bool)
    requires |items| == |ds|
    requires forall i | 0 <= i < |ds| :: items[i] == Arr([]) <==> Empty(ds[i])
    requires forall i | 0 <= i < |ds| ::
      CheckShape(items[i], path + [Index(i)], false) == {} <==> NoEmptyOccurrence(ds[i])
    ensures CheckShape(Arr(items), path, isRoot) == {} <==> NoEmptyOccurrence(Many(ds))
  {
    CleanItems(items, path, isRoot);
  }

  lemma {:induction false} CleanLone(j: Json, cs: seq<Child>, path: seq<Step>, isRoot: bool)
    requires |cs| == 1 && IsObjectOf(j, cs[0].name)
    requires
      CheckShape(Inner(j, cs[0].name), path + [Name(cs[0].name)], false) == {} <==> NoEmptyOccurrence(cs[0].doc)
    ensures CheckShape(j, path, isRoot) == {} <==> NoEmptyOccurrence(Elem(cs))
  {
    CleanMember(j, cs[0].name, path, isRoot);
  }

  lemma {:induction false} EmptyEncoding(j: Json, d: Doc)
    requires Encodes(j, d, true)
    ensures j == Arr([]) <==> Empty(d)
  {
  }

  /** An encoding is free of findings exactly when no repeated element has an empty occurrence. */
  lemma {:induction false} CleanEncoding(j: Json, d: Doc, path: seq<Step>, isRoot: bool)
    requires Encodes(j, d, true)
    ensures CheckShape(j, path, isRoot) == {} <==> NoEmptyOccurrence(d)
    decreases d, 1
  {
    match d
    case Leaf(_) =>
    case Elem(cs) =>
      if j.Arr? {
        forall i | 0 <= i < |cs|
          ensures CheckShape(j.items[i], path + [Index(i)], false) == {} <==> NoEmptyOccurrence(cs[i].doc)
          ensures j.items[i] != Arr([])
        {
          CleanChildOf(j.items[i], cs[i], path + [Index(i)]);
        }
        CleanElements(j.items, cs, path, isRoot);
      } else {
        CleanEncoding(Inner(j, cs[0].name), cs[0].doc, path + [Name(cs[0].name)], false);
        CleanLone(j, cs, path, isRoot);
      }
    case Many(ds) =>
      forall i | 0 <= i < |ds|
        ensures CheckShape(j.items[i], path + [Index(i)], false) == {} <==> NoEmptyOccurrence(ds[i])
        ensures j.items[i] == Arr([]) <==> Empty(ds[i])
      {
        CleanEncoding(j.items[i], ds[i], path + [Index(i)], false);
        EmptyEncoding(j.items[i], ds[i]);
      }
      CleanOccurrences(j.items, ds, path, isRoot);
  }

  lemma {:induction false} CleanChildOf(item: Json, c: Child, path: seq<Step>)
    requires IsObjectOf(item, c.name) && Encodes(Inner(item, c.name), c.doc, true)
    ensures CheckShape(item, path, false) == {} <==> NoEmptyOccurrence(c.doc)
    decreases c, 0
  {
    CleanEncoding(Inner(item, c.name), c.doc, path + [Name(c.name)], false);
    CleanMember(item, c.name, path, false);
  }

  lemma {:induction false} CleanMember(j: Json, name: string, path: seq<Step>, isRoot: bool)
    requires IsObjectOf(j, name)
    ensures CheckShape(j, path, isRoot) == {} <==> CheckShape(Inner(j, name), path + [Name(name)], false) == {}
  {
    assert |j.members.Keys| == 1;
    var inner := CheckShape(Inner(j, name), path + [Name(name)], false);
    assert forall f :: f in inner <==> f in CheckShape(j, path, isRoot);
  }

  lemma {:induction false} CleanItems(items: seq<Json>, path: seq<Step>, isRoot: bool)
    ensures CheckShape(Arr(items), path, isRoot) == {} <==>
            forall i | 0 <= i < |items| :: items[i] != Arr([]) && CheckShape(items[i], path + [Index(i)], false) == {}
  {
    var all := CheckShape(Arr(items), path, isRoot);
    assert all == Below(Arr(items), path);
    forall i, f | 0 <= i < |items| && f in CheckShape(items[i], path + [Index(i)], false) ensures f in all {}
    forall i | 0 <= i < |items| && items[i] == Arr([]) ensures Finding(EmptyArrayInstance, path + [Index(i)]) in all {}
  }

  /** The document a clean frame stands for. */
  ghost function Read(j: Json): Doc {
    match j
    case Arr(items) =>
      if forall i | 0 <= i < |items| :: SingleMember(items[i]) then
        Elem(seq(|items|, i requires 0 <= i < |items| => ReadChild(items[i])))
      else
        Many(seq(|items|, i requires 0 <= i < |items| => Read(items[i])))
    case Obj(_) => if SingleMember(j) then Elem([ReadChild(j)]) else Leaf(j)
    case _ => Leaf(j)
  }

  ghost function ReadChild(j: Json): Child
    requires SingleMember(j)
    decreases j, 0
  {
    var n := LoneName(j.members);
    Child(n, Read(j.members[n]))
  }

  ghost function LoneName(m: map<string, Json>): string
    requires |m| == 1
    ensures m.Keys == {LoneName(m)}
  {
    assert |m.Keys| == 1;
    var n :| n in m;
    SingletonKeys(m, n);
    n
  }

  lemma {:induction false} ReadChildIs(j: Json)
    requires SingleMember(j)
    ensures IsObjectOf(j, ReadChild(j).name) && ReadChild(j).doc == Read(Inner(j, ReadChild(j).name))
  {
  }

  lemma {:induction false} CleanIsEncoding(j: Json, path: seq<Step>)
    requires CheckShape(j, path, false) == {}
    ensures Encodes(j, Read(j), true)
    decreases j, 1
  {
    match j
    case Arr(items) =>
      CleanItems(items, path, false);
      if forall i | 0 <= i < |items| :: SingleMember(items[i]) {
        var cs := Read(j).children;
        assert Read(j) == Elem(cs) && |cs| == |items|;
        forall i | 0 <= i < |items|
          ensures IsObjectOf(items[i], cs[i].name) && Encodes(Inner(items[i], cs[i].name), cs[i].doc, true)
        {
          CleanChild(items[i], path + [Index(i)]);
          assert cs[i] == ReadChild(items[i]);
        }
      } else {
        assert Read(j).Many?;
        forall i | 0 <= i < |items| ensures Encodes(items[i], Read(items[i]), true) {
          CleanIsEncoding(items[i], path + [Index(i)]);
        }
      }
    case Obj(members) =>
      assert |members| == 1;
      CleanChild(j, path);
    case _ =>
  }

  lemma {:induction false} CleanChild(j: Json, path: seq<Step>)
    requires SingleMember(j) && CheckShape(j, path, false) == {}
    ensures IsObjectOf(j, ReadChild(j).name) && Encodes(Inner(j, ReadChild(j).name), ReadChild(j).doc, true)
    decreases j, 0
  {
    var c := ReadChild(j);
    ReadChildIs(j);
    CleanMember(j, c.name, path, false);
    CleanIsEncoding(Inner(j, c.name), path + [Name(c.name)]);
  }

  /** checkShape decides whether a JSON value encodes a document without empty occurrences. */
  lemma {:induction false} CheckShapeDecides(j: Json, path: seq<Step>)
    ensures CheckShape(j, path, false) == {} <==> exists d :: Encodes(j, d, true) && NoEmptyOccurrence(d)
  {
    if CheckShape(j, path, false) == {} {
      CleanIsEncoding(j, path);
      CleanEncoding(j, Read(j), path, false);
    }
    forall d | Encodes(j, d, true) && NoEmptyOccurrence(d) ensures CheckShape(j, path, false) == {} {
      CleanEncoding(j, d, path, false);
    }
  }
}
