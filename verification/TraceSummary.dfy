/**
 internal/trace/trace.go, Summary: totals over the retained frames and the list of broken rules,
 collected in a map and sorted by exchange.
 */
module TraceSummary {
  import opened Trace
  import opened Strings

  datatype RuleCount = RuleCount(rule: string, severity: Severity, count: nat, specRef: string, lastSeq: nat,
    lastSki: string)

  datatype Totals = Totals(
    frames: nat, nonConformant: nat, errors: nat, warnings: nat, perSki: map<string, nat>,
    byRule: map<string, RuleCount>)

  const EMPTY := Totals(0, 0, 0, 0, map[], map[])

  // ------------------------------------------------- the aggregation

  predicate WorstIsError(findings: seq<Finding>) {
    exists i :: 0 <= i < |findings| && findings[i].severity == Error
  }

  function CountRule(byRule: map<string, RuleCount>, e: Entry, f: Finding): map<string, RuleCount> {
    var rc := if f.rule in byRule then byRule[f.rule] else RuleCount(f.rule, f.severity, 0, f.specRef, 0, "");
    byRule[f.rule := rc.(count := rc.count + 1, lastSeq := e.number, lastSki := e.frame.ski)]
  }

  function CountRules(byRule: map<string, RuleCount>, e: Entry, findings: seq<Finding>): map<string, RuleCount> {
    if findings == [] then byRule
    else CountRule(CountRules(byRule, e, findings[..|findings| - 1]), e, findings[|findings| - 1])
  }

  function Bump(m: map<string, nat>, key: string): map<string, nat> {
    m[key := (if key in m then m[key] else 0) + 1]
  }

  function AddEntry(t: Totals, e: Entry): Totals {
    var findings := e.frame.findings;
    if findings == [] then t.(frames := t.frames + 1)
    else Totals(
      t.frames + 1, t.nonConformant + 1,
      t.errors + if WorstIsError(findings) then 1 else 0,
      t.warnings + if WorstIsError(findings) then 0 else 1,
      Bump(t.perSki, e.frame.ski),
      CountRules(t.byRule, e, findings))
  }

  function TotalsOf(ring: seq<Entry>): Totals {
    if ring == [] then EMPTY else AddEntry(TotalsOf(ring[..|ring| - 1]), ring[|ring| - 1])
  }

  // ------------------------------------------------- the rule list

  predicate IsError(r: RuleCount) {
    r.severity == Error
  }

  /** Errors first, then by count descending, then by name. */
  predicate Before(a: RuleCount, b: RuleCount) {
    || (IsError(a) && !IsError(b))
    || (IsError(a) == IsError(b) && (a.count > b.count || (a.count == b.count && Less(a.rule, b.rule))))
  }

  lemma BeforeTransitive(a: RuleCount, b: RuleCount, c: RuleCount)
    requires Before(a, b) && Before(b, c)
    ensures Before(a, c)
  {
    if Less(a.rule, b.rule) && Less(b.rule, c.rule) {
      LessTransitive(a.rule, b.rule, c.rule);
    }
  }

  lemma BeforeTotal(a: RuleCount, b: RuleCount)
    requires a.rule != b.rule
    ensures Before(a, b) <==> !Before(b, a)
  {
    LessTotal(a.rule, b.rule);
    if Less(a.rule, b.rule) {
      LessAsymmetric(a.rule, b.rule);
    } else {
      LessAsymmetric(b.rule, a.rule);
    }
  }

  lemma BeforeIrreflexive(a: RuleCount)
    ensures !Before(a, a)
  {
    LessIrreflexive(a.rule);
  }

  predicate SortedRules(s: seq<RuleCount>) {
    forall i, j | 0 <= i < j < |s| :: Before(s[i], s[j])
  }

  predicate DistinctRules(s: seq<RuleCount>) {
    forall i, j | 0 <= i < j < |s| :: s[i].rule != s[j].rule
  }

  /** The first n rules come before everything that follows them. */
  predicate Placed(s: seq<RuleCount>, n: nat) {
    forall k, m | 0 <= k < n && k < m < |s| :: Before(s[k], s[m])
  }

  predicate LeastUpTo(s: seq<RuleCount>, i: nat, j: nat)
    requires i < |s| && j <= |s|
  {
    forall m | i < m < j :: Before(s[i], s[m])
  }

  function Exchanged(s: seq<RuleCount>, i: nat, j: nat): seq<RuleCount>
    requires i < j < |s|
  {
    if Before(s[j], s[i]) then s[i := s[j]][j := s[i]] else s
  }

  method ExchangeSort(rules: array<RuleCount>)
    requires DistinctRules(rules[..])
    modifies rules
    ensures SortedRules(rules[..])
    ensures multiset(rules[..]) == multiset(old(rules[..]))
  {
    for i := 0 to rules.Length
      invariant DistinctRules(rules[..]) && Placed(rules[..], i)
      invariant multiset(rules[..]) == multiset(old(rules[..]))
    {
      for j := i + 1 to rules.Length
        invariant DistinctRules(rules[..]) && Placed(rules[..], i) && LeastUpTo(rules[..], i, j)
        invariant multiset(rules[..]) == multiset(old(rules[..]))
      {
        ExchangeStep(rules[..], i, j);
        CompareExchange(rules, i, j);
      }
    }
  }

  method CompareExchange(rules: array<RuleCount>, i: nat, j: nat)
    requires i < j < rules.Length
    modifies rules
    ensures rules[..] == Exchanged(old(rules[..]), i, j)
  {
    var a, b := rules[i], rules[j];
    if Before(b, a) {
      rules[i], rules[j] := b, a;
    }
  }

  lemma ExchangedSame(s: seq<RuleCount>, i: nat, j: nat)
    requires i < j < |s| && DistinctRules(s)
    ensures DistinctRules(Exchanged(s, i, j)) && multiset(Exchanged(s, i, j)) == multiset(s)
  {
  }

  lemma ExchangedPlaced(s: seq<RuleCount>, i: nat, j: nat)
    requires i < j < |s| && Placed(s, i)
    ensures Placed(Exchanged(s, i, j), i)
  {
    var t := Exchanged(s, i, j);
    forall k, m | 0 <= k < i && k < m < |t| ensures Before(t[k], t[m]) {
      assert t[k] == s[k];
      assert t[m] == s[if t == s then m else if m == i then j else if m == j then i else m];
    }
  }

  /** What one comparison of the exchange sort keeps and what it gains. */
  lemma ExchangeStep(s: seq<RuleCount>, i: nat, j: nat)
    requires i < j < |s| && DistinctRules(s) && Placed(s, i) && LeastUpTo(s, i, j)
    ensures
      var t := Exchanged(s, i, j);
      DistinctRules(t) && multiset(t) == multiset(s) && Placed(t, i) && LeastUpTo(t, i, j + 1)
  {
    ExchangedSame(s, i, j);
    ExchangedPlaced(s, i, j);
    BeforeTotal(s[i], s[j]);
    if Before(s[j], s[i]) {
      forall m | i < m < j ensures Before(s[j], s[m]) {
        BeforeTransitive(s[j], s[i], s[m]);
      }
    }
  }

  /** rules lists the counts collected in byRule, in report order. */
  ghost predicate Lists(rules: seq<RuleCount>, byRule: map<string, RuleCount>) {
    && SortedRules(rules)
    && (forall i | 0 <= i < |rules| :: rules[i].rule in byRule && byRule[rules[i].rule] == rules[i])
    && (forall name | name in byRule :: byRule[name] in rules)
  }

  /** In it no warning comes before an error, the more frequent rule first, and equally frequent ones by name. */
  lemma ListedInOrder(rules: seq<RuleCount>, byRule: map<string, RuleCount>, i: nat, j: nat)
    requires Lists(rules, byRule) && i < j < |rules|
    ensures rules[j].severity == Error ==> rules[i].severity == Error
    ensures
      rules[i].severity == rules[j].severity ==>
        && rules[i].count >= rules[j].count
        && (rules[i].count == rules[j].count ==> Less(rules[i].rule, rules[j].rule))
  {
    assert Before(rules[i], rules[j]);
  }

  /** There is only one such list: the order in which the map is read out leaves no trace. */
  lemma {:induction false} ListUnique(a: seq<RuleCount>, b: seq<RuleCount>, byRule: map<string, RuleCount>)
    requires Lists(a, byRule) && Lists(b, byRule)
    ensures a == b
  {
    SortedUnique(a, b) by {
      forall r ensures r in a <==> r in b {
        if r in a {
          assert byRule[r.rule] in b;
        }
        if r in b {
          assert byRule[r.rule] in a;
        }
      }
    }
  }

  lemma {:induction false} SortedUnique(a: seq<RuleCount>, b: seq<RuleCount>)
    requires SortedRules(a) && SortedRules(b)
    requires forall r :: r in a <==> r in b
    ensures a == b
  {
    if a == [] {
      if |b| > 0 {
        FirstIsMember(b);
      }
    } else {
      assert a[0] in b;
      assert b != [] && b[0] in a;
      FirstIsLeast(a, b[0]);
      FirstIsLeast(b, a[0]);
      if a[0] != b[0] {
        BeforeTransitive(a[0], b[0], a[0]);
        BeforeIrreflexive(a[0]);
      }
      forall r ensures r in a[1..] <==> r in b[1..] {
        TailMembers(a, r);
        TailMembers(b, r);
      }
      SortedUnique(a[1..], b[1..]);
      assert a == [a[0]] + a[1..] && b == [b[0]] + b[1..];
    }
  }

  lemma FirstIsMember(s: seq<RuleCount>)
    requires |s| > 0
    ensures s[0] in s
  {}

  lemma FirstIsLeast(s: seq<RuleCount>, r: RuleCount)
    requires SortedRules(s) && r in s
    ensures r == s[0] || Before(s[0], r)
  {}

  lemma TailMembers(s: seq<RuleCount>, r: RuleCount)
    requires SortedRules(s) && s != []
    ensures r in s[1..] <==> r in s && r != s[0]
  {
    BeforeIrreflexive(s[0]);
    assert s == [s[0]] + s[1..];
    forall i | 0 < i < |s| ensures s[i] != s[0] {}
  }

  /** The method as a whole; the map is read out in an arbitrary order. */
  method Summarize(ring: seq<Entry>) returns (totals: Totals, rules: array<RuleCount>)
    ensures totals == TotalsOf(ring)
    ensures Lists(rules[..], totals.byRule)
  {
    totals := EMPTY;
    for k := 0 to |ring|
      invariant totals == TotalsOf(ring[..k])
    {
      assert ring[..k + 1][..k] == ring[..k];
      totals := Accumulate(totals, ring[k]);
    }
    assert ring[..|ring|] == ring;
    KeysAreNames(ring);
    rules := ListRules(totals.byRule);
  }

  method ListRules(byRule: map<string, RuleCount>) returns (rules: array<RuleCount>)
    requires NamedAfterKey(byRule)
    ensures Lists(rules[..], byRule)
  {
    var listed := ReadOut(byRule);
    rules := new RuleCount[|listed|](i requires 0 <= i < |listed| => listed[i]);
    assert rules[..] == listed;
    ExchangeSort(rules);
    SortedLists(listed, rules[..], byRule);
  }

  /** Sorting what was read out of the map gives the list. */
  lemma SortedLists(listed: seq<RuleCount>, rules: seq<RuleCount>, byRule: map<string, RuleCount>)
    requires SortedRules(rules) && multiset(rules) == multiset(listed)
    requires forall i | 0 <= i < |listed| :: listed[i].rule in byRule && byRule[listed[i].rule] == listed[i]
    requires forall name | name in byRule :: byRule[name] in listed
    ensures Lists(rules, byRule)
  {
    assert forall r :: r in rules <==> r in multiset(rules);
    assert forall r :: r in listed <==> r in multiset(listed);
    assert forall i | 0 <= i < |rules| :: rules[i] in rules;
  }

  method Accumulate(t: Totals, e: Entry) returns (u: Totals)
    ensures u == AddEntry(t, e)
  {
    u := t.(frames := t.frames + 1);
    var findings := e.frame.findings;
    if |findings| == 0 {
      return;
    }
    var worstIsError := false;
    for i := 0 to |findings|
      invariant worstIsError <==> exists m :: 0 <= m < i && findings[m].severity == Error
    {
      if findings[i].severity == Error {
        worstIsError := true;
      }
    }
    var byRule := t.byRule;
    for i := 0 to |findings|
      invariant byRule == CountRules(t.byRule, e, findings[..i])
    {
      assert findings[..i + 1][..i] == findings[..i];
      byRule := CountRule(byRule, e, findings[i]);
    }
    assert findings[..|findings|] == findings;
    u := Totals(
      t.frames + 1, t.nonConformant + 1,
      if worstIsError then t.errors + 1 else t.errors,
      if worstIsError then t.warnings else t.warnings + 1,
      Bump(t.perSki, e.frame.ski), byRule);
  }

  predicate NamedAfterKey(byRule: map<string, RuleCount>) {
    forall name | name in byRule :: byRule[name].rule == name
  }

  lemma {:induction false} KeysAreNames(ring: seq<Entry>)
    ensures NamedAfterKey(TotalsOf(ring).byRule)
  {
    if ring != [] {
      KeysAreNames(ring[..|ring| - 1]);
      CountKeepsNames(TotalsOf(ring[..|ring| - 1]).byRule, ring[|ring| - 1], ring[|ring| - 1].frame.findings);
    }
  }

  lemma {:induction false} CountKeepsNames(byRule: map<string, RuleCount>, e: Entry, findings: seq<Finding>)
    requires NamedAfterKey(byRule)
    ensures NamedAfterKey(CountRules(byRule, e, findings))
  {
    if findings != [] {
      CountKeepsNames(byRule, e, findings[..|findings| - 1]);
    }
  }

  method ReadOut(byRule: map<string, RuleCount>) returns (listed: seq<RuleCount>)
    requires NamedAfterKey(byRule)
    ensures DistinctRules(listed)
    ensures forall i | 0 <= i < |listed| :: listed[i].rule in byRule && byRule[listed[i].rule] == listed[i]
    ensures forall name | name in byRule :: byRule[name] in listed
  {
    listed := [];
    var left := byRule.Keys;
    while left != {}
      invariant left <= byRule.Keys
      invariant DistinctRules(listed)
      invariant forall i | 0 <= i < |listed| ::
        listed[i].rule in byRule && listed[i].rule !in left && byRule[listed[i].rule] == listed[i]
      invariant forall name | name in byRule && name !in left :: byRule[name] in listed
    {
      var name :| name in left;
      left := left - {name};
      listed := listed + [byRule[name]];
    }
  }

  // ------------------------------------------------- conservation

  ghost function Sum(m: map<string, nat>): nat {
    if m == map[] then 0
    else
      var key :| key in m;
      m[key] + Sum(m - {key})
  }

  lemma {:induction false} SumRemove(m: map<string, nat>, key: string)
    requires key in m
    ensures Sum(m) == m[key] + Sum(m - {key})
    decreases |m|
  {
    var first :| first in m && Sum(m) == m[first] + Sum(m - {first});
    if first != key {
      SumRemove(m - {first}, key);
      SumRemove(m - {key}, first);
      assert m - {first} - {key} == m - {key} - {first};
    }
  }

  lemma SumSet(m: map<string, nat>, key: string, value: nat)
    ensures Sum(m[key := value]) + (if key in m then m[key] else 0) == Sum(m) + value
  {
    SumRemove(m[key := value], key);
    assert m[key := value] - {key} == m - {key};
    if key in m {
      SumRemove(m, key);
    } else {
      assert m - {key} == m;
    }
  }

  ghost function Counts(byRule: map<string, RuleCount>): map<string, nat> {
    map name | name in byRule :: byRule[name].count
  }

  function Findings(ring: seq<Entry>): nat {
    if ring == [] then 0 else Findings(ring[..|ring| - 1]) + |ring[|ring| - 1].frame.findings|
  }

  lemma {:induction false} CountsGrow(byRule: map<string, RuleCount>, e: Entry, findings: seq<Finding>)
    ensures Sum(Counts(CountRules(byRule, e, findings))) == Sum(Counts(byRule)) + |findings|
  {
    if findings != [] {
      var n := |findings| - 1;
      var before := CountRules(byRule, e, findings[..n]);
      CountsGrow(byRule, e, findings[..n]);
      CountGrows(before, e, findings[n]);
    }
  }

  lemma CountGrows(byRule: map<string, RuleCount>, e: Entry, f: Finding)
    ensures Sum(Counts(CountRule(byRule, e, f))) == Sum(Counts(byRule)) + 1
  {
    var count := if f.rule in byRule then byRule[f.rule].count else 0;
    SumSet(Counts(byRule), f.rule, count + 1);
    assert Counts(CountRule(byRule, e, f)) == Counts(byRule)[f.rule := count + 1];
  }

  /**
   Nothing is lost or counted twice: every frame is counted, the frames with findings split into
   errors and warnings and into the peers, and the rule counts add up to all findings.
   */
  lemma {:induction false} SummaryConserves(ring: seq<Entry>)
    ensures
      var t := TotalsOf(ring);
      && t.frames == |ring|
      && t.nonConformant == t.errors + t.warnings == Sum(t.perSki)
      && Sum(Counts(t.byRule)) == Findings(ring)
  {
    if ring != [] {
      var n := |ring| - 1;
      SummaryConserves(ring[..n]);
      EntryConserves(TotalsOf(ring[..n]), ring[n]);
    }
  }

  lemma EntryConserves(t: Totals, e: Entry)
    requires t.nonConformant == t.errors + t.warnings == Sum(t.perSki)
    ensures
      var u := AddEntry(t, e);
      && u.frames == t.frames + 1
      && u.nonConformant == u.errors + u.warnings == Sum(u.perSki)
      && Sum(Counts(u.byRule)) == Sum(Counts(t.byRule)) + |e.frame.findings|
  {
    if e.frame.findings != [] {
      SumSet(t.perSki, e.frame.ski, (if e.frame.ski in t.perSki then t.perSki[e.frame.ski] else 0) + 1);
      CountsGrow(t.byRule, e, e.frame.findings);
    }
  }

  function FramesWithError(ring: seq<Entry>): nat {
    if ring == [] then 0
    else
      var findings := ring[|ring| - 1].frame.findings;
      FramesWithError(ring[..|ring| - 1]) + if exists f :: f in findings && f.severity == Error then 1 else 0
  }

  /** A frame counts as an error when any of its findings is one. */
  lemma {:induction false} ErrorsAreFramesWithError(ring: seq<Entry>)
    ensures TotalsOf(ring).errors == FramesWithError(ring)
  {
    if ring != [] {
      ErrorsAreFramesWithError(ring[..|ring| - 1]);
      var findings := ring[|ring| - 1].frame.findings;
      assert WorstIsError(findings) <==> exists f :: f in findings && f.severity == Error;
    }
  }

  function RuleHits(findings: seq<Finding>, rule: string): nat {
    if findings == [] then 0
    else RuleHits(findings[..|findings| - 1], rule) + if findings[|findings| - 1].rule == rule then 1 else 0
  }

  function RuleHitsIn(ring: seq<Entry>, rule: string): nat {
    if ring == [] then 0 else RuleHitsIn(ring[..|ring| - 1], rule) + RuleHits(ring[|ring| - 1].frame.findings, rule)
  }

  function CountOf(byRule: map<string, RuleCount>, rule: string): nat {
    if rule in byRule then byRule[rule].count else 0
  }

  lemma {:induction false} HitsAdd(byRule: map<string, RuleCount>, e: Entry, findings: seq<Finding>, rule: string)
    ensures CountOf(CountRules(byRule, e, findings), rule) == CountOf(byRule, rule) + RuleHits(findings, rule)
    ensures RuleHits(findings, rule) > 0 ==>
      && rule in CountRules(byRule, e, findings)
      && CountRules(byRule, e, findings)[rule].lastSeq == e.number
      && CountRules(byRule, e, findings)[rule].lastSki == e.frame.ski
  {
    if findings != [] {
      HitsAdd(byRule, e, findings[..|findings| - 1], rule);
    }
  }

  /** Every rule's count is the number of findings that name it. */
  lemma {:induction false} CountIsHits(ring: seq<Entry>, rule: string)
    ensures CountOf(TotalsOf(ring).byRule, rule) == RuleHitsIn(ring, rule)
  {
    if ring != [] {
      var e := ring[|ring| - 1];
      CountIsHits(ring[..|ring| - 1], rule);
      HitsAdd(TotalsOf(ring[..|ring| - 1]).byRule, e, e.frame.findings, rule);
    }
  }

  /** The last frame and peer listed for a rule are those of the newest frame that breaks it. */
  lemma {:induction false} LastSeqIsNewest(ring: seq<Entry>, rule: string, i: nat)
    requires i < |ring| && RuleHits(ring[i].frame.findings, rule) > 0
    requires forall k | i < k < |ring| :: RuleHits(ring[k].frame.findings, rule) == 0
    ensures rule in TotalsOf(ring).byRule && TotalsOf(ring).byRule[rule].lastSeq == ring[i].number
    ensures TotalsOf(ring).byRule[rule].lastSki == ring[i].frame.ski
    decreases |ring|
  {
    var n := |ring| - 1;
    var before, e := TotalsOf(ring[..n]).byRule, ring[n];
    HitsAdd(before, e, e.frame.findings, rule);
    if i < n {
      LastSeqIsNewest(ring[..n], rule, i);
      UntouchedRule(before, e, e.frame.findings, rule);
    }
  }

  lemma {:induction false} UntouchedRule(byRule: map<string, RuleCount>, e: Entry, findings: seq<Finding>, rule: string)
    requires RuleHits(findings, rule) == 0 && rule in byRule
    ensures rule in CountRules(byRule, e, findings) && CountRules(byRule, e, findings)[rule] == byRule[rule]
  {
    if findings != [] {
      UntouchedRule(byRule, e, findings[..|findings| - 1], rule);
    }
  }

  // ------------------------------------------------- peers, and where a rule comes from

  function FramesOf(ring: seq<Entry>, ski: string): nat {
    if ring == [] then 0
    else
      var f := ring[|ring| - 1].frame;
      FramesOf(ring[..|ring| - 1], ski) + if f.ski == ski && |f.findings| > 0 then 1 else 0
  }

  /** A peer's count is the number of its frames with findings. */
  lemma {:induction false} PeersCounted(ring: seq<Entry>, ski: string)
    ensures (if ski in TotalsOf(ring).perSki then TotalsOf(ring).perSki[ski] else 0) == FramesOf(ring, ski)
  {
    if ring != [] {
      PeersCounted(ring[..|ring| - 1], ski);
    }
  }

  function FirstIn(findings: seq<Finding>, rule: string): seq<Finding> {
    if findings == [] then []
    else if findings[0].rule == rule then [findings[0]]
    else FirstIn(findings[1..], rule)
  }

  /** The first finding in the ring that names the rule, if there is one. */
  function FirstNaming(ring: seq<Entry>, rule: string): seq<Finding> {
    if ring == [] then []
    else
      var here := FirstIn(ring[0].frame.findings, rule);
      if here != [] then here else FirstNaming(ring[1..], rule)
  }

  lemma {:induction false} FirstInSnoc(findings: seq<Finding>, f: Finding, rule: string)
    ensures
      FirstIn(findings + [f], rule) ==
      if FirstIn(findings, rule) != [] then FirstIn(findings, rule) else if f.rule == rule then [f] else []
  {
    if findings != [] {
      assert (findings + [f])[1..] == findings[1..] + [f];
      FirstInSnoc(findings[1..], f, rule);
    }
  }

  lemma {:induction false} FirstNamingSnoc(ring: seq<Entry>, e: Entry, rule: string)
    ensures
      FirstNaming(ring + [e], rule) ==
      if FirstNaming(ring, rule) != [] then FirstNaming(ring, rule) else FirstIn(e.frame.findings, rule)
  {
    if ring == [] {
      assert [e][1..] == [];
    } else {
      assert (ring + [e])[1..] == ring[1..] + [e];
      FirstNamingSnoc(ring[1..], e, rule);
    }
  }

  predicate StemsFrom(byRule: map<string, RuleCount>, rule: string, first: seq<Finding>) {
    if first == [] then rule !in byRule
    else rule in byRule && byRule[rule].severity == first[0].severity && byRule[rule].specRef == first[0].specRef
  }

  lemma {:induction false} RulesKeepFirst(
    byRule: map<string, RuleCount>, e: Entry, findings: seq<Finding>, rule: string, first: seq<Finding>)
    requires StemsFrom(byRule, rule, first)
    ensures StemsFrom(CountRules(byRule, e, findings), rule, if first != [] then first else FirstIn(findings, rule))
  {
    if findings != [] {
      var n := |findings| - 1;
      RulesKeepFirst(byRule, e, findings[..n], rule, first);
      FirstInSnoc(findings[..n], findings[n], rule);
      assert findings == findings[..n] + [findings[n]];
    }
  }

  /** A rule is listed exactly if some finding names it, with the severity and reference of the first that does. */
  lemma {:induction false} RuleStemsFromFirst(ring: seq<Entry>, rule: string)
    ensures StemsFrom(TotalsOf(ring).byRule, rule, FirstNaming(ring, rule))
  {
    if ring != [] {
      var n := |ring| - 1;
      RuleStemsFromFirst(ring[..n], rule);
      RulesKeepFirst(TotalsOf(ring[..n]).byRule, ring[n], ring[n].frame.findings, rule, FirstNaming(ring[..n], rule));
      FirstNamingSnoc(ring[..n], ring[n], rule);
      assert ring == ring[..n] + [ring[n]];
    }
  }
}
