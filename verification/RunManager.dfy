/**
 internal/testrun/manager.go: choosing the test cases of a run and recording one result for each.
 The values of a selection are already trimmed, and its use cases replaced by their upper-case
 acronyms.
 */
module RunManager {
  import opened Options
  import opened RunOrder

  datatype Selection = Selection(
    ids: seq<string>, useCases: seq<string>, risks: seq<string>, guidelines: seq<string>,
    readOnly: bool, includeLongRunning: bool, includeUnadvertised: bool)

  // ------------------------------------------------- choosing

  /** Blank entries do not count. */
  function SetOf(values: seq<string>): set<string> {
    set v | v in values && v != ""
  }

  predicate CitesAny(m: Meta, guidelines: seq<string>) {
    exists g :: g in guidelines && g in m.cites
  }

  predicate ChangesDevice(m: Meta) {
    m.risk != "read-only"
  }

  predicate InUseCases(m: Meta, sel: Selection) {
    SetOf(sel.useCases) == {} || m.groupKey in SetOf(sel.useCases)
  }

  /** Chosen for its own sake. */
  predicate Chosen(m: Meta, sel: Selection) {
    && m.category != "Invalid"
    && (if SetOf(sel.ids) != {} then m.id in SetOf(sel.ids)
      else !m.cleanup && (!m.longRunning || sel.includeLongRunning))
    && (sel.readOnly ==> !ChangesDevice(m))
    && InUseCases(m, sel)
    && (SetOf(sel.risks) == {} || m.risk in SetOf(sel.risks))
    && (sel.guidelines == [] || CitesAny(m, sel.guidelines))
  }

  /** Comes along because something chosen changes the device. */
  predicate ComesAlong(m: Meta, sel: Selection, metas: seq<Meta>) {
    && m.cleanup && SetOf(sel.ids) == {} && InUseCases(m, sel)
    && exists c :: c in metas && Chosen(c, sel) && ChangesDevice(c)
  }

  predicate Wanted(m: Meta, sel: Selection, metas: seq<Meta>) {
    Chosen(m, sel) || ComesAlong(m, sel, metas)
  }

  method CollectSet(values: seq<string>) returns (r: set<string>)
    ensures r == SetOf(values)
  {
    r := {};
    for i := 0 to |values|
      invariant r == set v | v in values[..i] && v != ""
    {
      assert values[..i + 1] == values[..i] + [values[i]];
      if values[i] != "" {
        r := r + {values[i]};
      }
    }
    assert values[..|values|] == values;
  }

  method CheckCites(m: Meta, guidelines: seq<string>) returns (cites: bool)
    ensures cites == CitesAny(m, guidelines)
  {
    cites := false;
    for i := 0 to |guidelines|
      invariant cites <==> exists g :: g in guidelines[..i] && g in m.cites
    {
      assert guidelines[..i + 1] == guidelines[..i] + [guidelines[i]];
      cites := cites || guidelines[i] in m.cites;
    }
    assert guidelines[..|guidelines|] == guidelines;
  }

  method Includes(m: Meta, sel: Selection, ids: set<string>, useCases: set<string>, risks: set<string>)
    returns (included: bool)
    requires ids == SetOf(sel.ids) && useCases == SetOf(sel.useCases) && risks == SetOf(sel.risks)
    ensures included == Chosen(m, sel)
  {
    included := m.category != "Invalid";
    if ids != {} {
      included := included && m.id in ids;
    } else {
      included := included && !m.cleanup && (!m.longRunning || sel.includeLongRunning);
    }
    if sel.readOnly {
      included := included && m.risk == "read-only";
    }
    if useCases != {} {
      included := included && m.groupKey in useCases;
    }
    if risks != {} {
      included := included && m.risk in risks;
    }
    if |sel.guidelines| > 0 {
      var cites := CheckCites(m, sel.guidelines);
      included := included && cites;
    }
  }

  /** s holds, once each, the test cases of metas that meet the selection. */
  ghost predicate Holds(s: seq<Meta>, metas: seq<Meta>, sel: Selection) {
    forall m :: m in s <==> m in metas && Wanted(m, sel, metas)
  }

  /**
   The selection of a run: every test case of the catalog that is wanted, and no other, exactly once
   and in run order.
   */
  method Select(metas: seq<Meta>, sel: Selection) returns (chosen: seq<Meta>)
    requires AllCatalogued(metas) && DistinctIds(metas)
    ensures AllCatalogued(chosen) && InOrder(chosen) && DistinctIds(chosen)
    ensures Holds(chosen, metas, sel)
  {
    var ids := CollectSet(sel.ids);
    var useCases := CollectSet(sel.useCases);
    var risks := CollectSet(sel.risks);
    var changesDevice := false;
    chosen := [];
    for i := 0 to |metas|
      invariant forall m :: m in chosen <==> m in metas[..i] && Chosen(m, sel)
      invariant DistinctIds(chosen)
      invariant changesDevice <==> exists c :: c in metas[..i] && Chosen(c, sel) && ChangesDevice(c)
    {
      PrefixGrows(metas, i);
      var included := Includes(metas[i], sel, ids, useCases, risks);
      if included {
        chosen := chosen + [metas[i]];
        changesDevice := changesDevice || metas[i].risk != "read-only";
      }
    }
    assert metas[..|metas|] == metas;
    for i := 0 to |metas|
      invariant forall m :: m in chosen <==>
        (m in metas && Chosen(m, sel)) || (m in metas[..i] && ComesAlong(m, sel, metas))
      invariant DistinctIds(chosen)
    {
      PrefixGrows(metas, i);
      if metas[i].cleanup && changesDevice && ids == {} && (useCases == {} || metas[i].groupKey in useCases) {
        chosen := chosen + [metas[i]];
      }
    }
    assert metas[..|metas|] == metas;
    SelectedInOrder(chosen, metas);
    chosen := Ordered(chosen);
  }

  lemma PrefixGrows(metas: seq<Meta>, i: nat)
    requires i < |metas| && DistinctIds(metas)
    ensures metas[..i + 1] == metas[..i] + [metas[i]]
    ensures forall m | m in metas[..i] :: m.id != metas[i].id
  {
  }

  /** Sorting keeps the test cases and leaves none of them tied. */
  lemma {:induction false} SelectedInOrder(s: seq<Meta>, metas: seq<Meta>)
    requires AllCatalogued(metas) && DistinctIds(s) && (forall m | m in s :: m in metas)
    ensures AllCatalogued(s) && InOrder(Ordered(s)) && DistinctIds(Ordered(s))
    ensures forall m :: m in Ordered(s) <==> m in s
  {
    forall i | 0 <= i < |s| ensures Catalogued(s[i]) {
      assert s[i] in metas;
    }
    OrderedInOrder(s);
    OrderedDistinct(s);
    forall m ensures m in Ordered(s) <==> m in s {
      assert m in Ordered(s) <==> m in multiset(Ordered(s));
    }
  }

  /** Without named test cases, a cleanup comes along exactly when something else selected changes the device. */
  lemma CleanupFollowsChanges(s: seq<Meta>, metas: seq<Meta>, sel: Selection, m: Meta)
    requires Holds(s, metas, sel) && SetOf(sel.ids) == {}
    requires m in metas && m.cleanup && InUseCases(m, sel)
    ensures m in s <==> exists c :: c in s && !c.cleanup && ChangesDevice(c)
  {
  }

  predicate Names(values: seq<string>, value: string) {
    value != "" && value in values
  }

  /** A filter that names nothing lets everything pass. */
  predicate Passes(values: seq<string>, value: string) {
    Names(values, value) || forall v | v in values :: v == ""
  }

  /**
   Selected is a valid test case that every filter lets pass and that is either named or neither a cleanup
   nor, unless asked for, a long one; and without names a cleanup of the use cases asked for, if something
   selected changes the device.
   */
  lemma SelectedExactly(s: seq<Meta>, metas: seq<Meta>, sel: Selection, m: Meta)
    requires Holds(s, metas, sel) && m in metas
    ensures
      var named := exists id :: Names(sel.ids, id);
      m in s <==>
        || (&& m.category != "Invalid"
            && Passes(sel.useCases, m.groupKey) && Passes(sel.risks, m.risk)
            && (sel.readOnly ==> m.risk == "read-only")
            && (sel.guidelines == [] || exists g :: g in sel.guidelines && g in m.cites)
            && if named then Names(sel.ids, m.id) else !m.cleanup && (m.longRunning ==> sel.includeLongRunning))
        || (&& !named && m.cleanup && Passes(sel.useCases, m.groupKey)
            && exists c :: c in s && !c.cleanup && c.risk != "read-only")
  {
    EmptyExactly(sel.ids);
    EmptyExactly(sel.useCases);
    EmptyExactly(sel.risks);
    if SetOf(sel.ids) == {} && m.cleanup && InUseCases(m, sel) {
      CleanupFollowsChanges(s, metas, sel, m);
    }
  }

  lemma EmptyExactly(values: seq<string>)
    ensures SetOf(values) == {} <==> forall v | v in values :: v == ""
    ensures SetOf(values) != {} <==> exists v :: Names(values, v)
    ensures forall v :: v in SetOf(values) <==> Names(values, v)
  {
    if SetOf(values) != {} {
      var v :| v in SetOf(values);
      assert Names(values, v);
    }
    assert forall v | v in values && v != "" :: v in SetOf(values);
  }

  // ------------------------------------------------- what the device does not advertise

  datatype UseCase = UseCase(name: string, acronym: string)

  datatype Advertised = Advertised(name: string, available: bool)

  datatype Device = Device(connected: bool, useCases: seq<Advertised>)

  predicate Advertises(d: Device, name: string) {
    exists i :: 0 <= i < |d.useCases| && d.useCases[i].name == name && d.useCases[i].available
  }

  predicate Filters(sel: Selection, d: Device) {
    !sel.includeUnadvertised && sel.ids == [] && sel.useCases == [] && d.connected && d.useCases != []
  }

  /** Of a known use case that the device does not advertise. */
  predicate Unadvertised(m: Meta, d: Device, lookup: string -> Option<UseCase>) {
    lookup(m.useCase).Some? && !Advertises(d, lookup(m.useCase).value.name)
  }

  /** The test cases that satisfy p, in their order. */
  function Filter(s: seq<Meta>, p: Meta -> bool): seq<Meta> {
    if s == [] then []
    else Filter(s[..|s| - 1], p) + if p(s[|s| - 1]) then [s[|s| - 1]] else []
  }

  method CheckAdvertises(d: Device, name: string) returns (found: bool)
    ensures found == Advertises(d, name)
  {
    found := false;
    for i := 0 to |d.useCases|
      invariant found <==> exists k :: 0 <= k < i && d.useCases[k].name == name && d.useCases[k].available
    {
      found := found || (d.useCases[i].name == name && d.useCases[i].available);
    }
  }

  method Applicable(selected: seq<Meta>, sel: Selection, d: Device, lookup: string -> Option<UseCase>)
    returns (keep: seq<Meta>, dropped: nat, leftOut: seq<string>)
    ensures keep == if Filters(sel, d) then Filter(selected, m => !Unadvertised(m, d, lookup)) else selected
    ensures dropped == |selected| - |keep|
    ensures forall i, j | 0 <= i < j < |leftOut| :: leftOut[i] != leftOut[j]
    ensures forall a ::
      a in leftOut <==> exists m ::
        m in selected && m !in keep && lookup(m.useCase).Some? && lookup(m.useCase).value.acronym == a
  {
    keep, dropped, leftOut := selected, 0, [];
    if Filters(sel, d) {
      var p := m => !Unadvertised(m, d, lookup);
      keep := [];
      for i := 0 to |selected|
        invariant keep == Filter(selected[..i], p) && dropped == i - |keep|
        invariant forall k, m | 0 <= k < m < |leftOut| :: leftOut[k] != leftOut[m]
        invariant forall a :: a in leftOut <==> NamesDropped(a, selected[..i], d, lookup)
      {
        var found := lookup(selected[i].useCase);
        var available := true;
        if found.Some? {
          available := CheckAdvertises(d, found.value.name);
        }
        DroppedGrows(selected, i, d, lookup);
        if found.Some? && !available {
          dropped := dropped + 1;
          if found.value.acronym !in leftOut {
            leftOut := leftOut + [found.value.acronym];
          }
        } else {
          keep := keep + [selected[i]];
        }
        assert selected[..i + 1][..i] == selected[..i];
      }
      assert selected[..|selected|] == selected;
      FilterMembers(selected, p);
    }
  }

  /** a is the acronym of an unadvertised use case with a test case in s. */
  ghost predicate NamesDropped(a: string, s: seq<Meta>, d: Device, lookup: string -> Option<UseCase>) {
    exists m :: m in s && Unadvertised(m, d, lookup) && lookup(m.useCase).value.acronym == a
  }

  lemma DroppedGrows(s: seq<Meta>, i: nat, d: Device, lookup: string -> Option<UseCase>)
    requires i < |s|
    ensures forall a :: NamesDropped(a, s[..i + 1], d, lookup) <==>
      NamesDropped(a, s[..i], d, lookup) || (Unadvertised(s[i], d, lookup) && lookup(s[i].useCase).value.acronym == a)
  {
    assert s[..i + 1] == s[..i] + [s[i]];
    forall a
      ensures NamesDropped(a, s[..i + 1], d, lookup) <==>
        NamesDropped(a, s[..i], d, lookup) || (Unadvertised(s[i], d, lookup) && lookup(s[i].useCase).value.acronym == a)
    {
      if m :| m in s[..i + 1] && Unadvertised(m, d, lookup) && lookup(m.useCase).value.acronym == a {
        assert m in s[..i] || m == s[i];
      }
      if m :| m in s[..i] && Unadvertised(m, d, lookup) && lookup(m.useCase).value.acronym == a {
        assert m in s[..i + 1];
      }
      assert s[i] in s[..i + 1];
    }
  }

  lemma {:induction false} FilterMembers(s: seq<Meta>, p: Meta -> bool)
    ensures forall m :: m in Filter(s, p) <==> m in s && p(m)
  {
    if s != [] {
      FilterMembers(s[..|s| - 1], p);
      assert s == s[..|s| - 1] + [s[|s| - 1]];
    }
  }

  /**
   A test case stays unless its use case is known and the device, which is connected and says what it can do,
   does not offer it; everything stays if that was asked for, or if test cases or use cases are named.
   */
  lemma {:induction false} AppliesExactly(
    selected: seq<Meta>, keep: seq<Meta>, sel: Selection, d: Device, lookup: string -> Option<UseCase>, m: Meta)
    requires keep == if Filters(sel, d) then Filter(selected, m => !Unadvertised(m, d, lookup)) else selected
    ensures
      m in keep <==>
      && m in selected
      && (|| sel.includeUnadvertised || |sel.ids| > 0 || |sel.useCases| > 0
          || !d.connected || |d.useCases| == 0
          || match lookup(m.useCase)
             case None => true
             case Some(known) => exists u :: u in d.useCases && u.available && u.name == known.name)
  {
    FilterMembers(selected, m => !Unadvertised(m, d, lookup));
    if lookup(m.useCase).Some? {
      OfferedExactly(d, lookup(m.useCase).value.name);
    }
  }

  lemma OfferedExactly(d: Device, name: string)
    ensures Advertises(d, name) <==> exists u :: u in d.useCases && u.available && u.name == name
  {
    if u :| u in d.useCases && u.available && u.name == name {
      var i :| 0 <= i < |d.useCases| && d.useCases[i] == u;
    }
  }

  /** Leaving test cases out keeps the run order. */
  lemma {:induction false} FilterInOrder(s: seq<Meta>, p: Meta -> bool)
    requires InOrder(s)
    ensures InOrder(Filter(s, p))
  {
    if s != [] {
      var front, last := s[..|s| - 1], s[|s| - 1];
      FilterInOrder(front, p);
      FilterMembers(front, p);
      assert AllBefore(front, last);
      AllBeforeSame(front, Filter(front, p), last);
    }
  }

  // ------------------------------------------------- executing

  datatype Status = Passed | Failed | Skipped

  datatype Reason = RunCancelled | Disconnected

  datatype Record = Ran(id: string, status: Status) | NotRun(id: string, reason: Reason)

  /** What the i-th regular test case meets: the run's context around it, its result, the device after it. */
  datatype Moment = Moment(cancelledBefore: bool, status: Status, cancelledAfter: bool, reconnects: bool)

  /** A cancelled context stays cancelled. */
  ghost predicate Permanent(moments: nat -> Moment) {
    && (forall i :: moments(i).cancelledBefore ==> moments(i).cancelledAfter)
    && (forall i, j | i < j && moments(i).cancelledAfter :: moments(j).cancelledBefore)
  }

  /** The device is gone after this test case. */
  predicate Lost(m: Moment, known: bool) {
    known && !m.cancelledAfter && !m.reconnects
  }

  /** Neither a cancellation nor a lost device came before the i-th regular test case. */
  predicate Runs(moments: nat -> Moment, known: bool, i: nat) {
    !moments(i).cancelledBefore && !AbortedBefore(moments, known, i)
  }

  predicate AbortedBefore(moments: nat -> Moment, known: bool, i: nat) {
    exists j: nat | j < i :: !moments(j).cancelledBefore && Lost(moments(j), known)
  }

  predicate IsCleanup(m: Meta) {
    m.cleanup
  }

  predicate IsRegular(m: Meta) {
    !m.cleanup
  }

  /** The record of the i-th regular test case. */
  function RegularRecord(id: string, moments: nat -> Moment, known: bool, i: nat): Record {
    if Runs(moments, known, i) then Ran(id, moments(i).status)
    else NotRun(id, if AbortedBefore(moments, known, i) then Disconnected else RunCancelled)
  }

  function CleanupRecord(id: string, status: Status, aborted: bool): Record {
    if aborted then NotRun(id, Disconnected) else Ran(id, status)
  }

  /** One record for each test case, the regular ones first. */
  ghost predicate Records(cases: seq<Record>, regular: seq<Meta>, cleanup: seq<Meta>, known: bool,
                          moments: nat -> Moment, cleanupStatus: nat -> Status, aborted: bool) {
    && |cases| == |regular| + |cleanup|
    && (forall i: nat | i < |regular| :: cases[i] == RegularRecord(regular[i].id, moments, known, i))
    && (forall i: nat | i < |cleanup| ::
      cases[|regular| + i] == CleanupRecord(cleanup[i].id, cleanupStatus(i), aborted))
  }

  method Execute(selected: seq<Meta>, known: bool, moments: nat -> Moment, cleanupStatus: nat -> Status)
    returns (cases: seq<Record>, aborted: bool)
    ensures Records(cases, Filter(selected, IsRegular), Filter(selected, IsCleanup), known, moments, cleanupStatus,
      aborted)
    ensures aborted == AbortedBefore(moments, known, |Filter(selected, IsRegular)|)
  {
    var regular, cleanup := Partition(selected);
    aborted, cases := false, [];
    for i := 0 to |regular|
      invariant |cases| == i && aborted == AbortedBefore(moments, known, i)
      invariant forall k: nat | k < i :: cases[k] == RegularRecord(regular[k].id, moments, known, k)
    {
      var here := moments(i);
      var record;
      if !here.cancelledBefore && !aborted {
        record := Ran(regular[i].id, here.status);
        if known && !here.cancelledAfter && !here.reconnects {
          aborted := true;
        }
      } else {
        record := NotRun(regular[i].id, if aborted then Disconnected else RunCancelled);
      }
      cases := cases + [record];
    }
    for i := 0 to |cleanup|
      invariant |cases| == |regular| + i
      invariant forall k: nat | k < |regular| :: cases[k] == RegularRecord(regular[k].id, moments, known, k)
      invariant forall k: nat | k < i :: cases[|regular| + k] == CleanupRecord(cleanup[k].id, cleanupStatus(k), aborted)
    {
      cases := cases + [if aborted then NotRun(cleanup[i].id, Disconnected) else Ran(cleanup[i].id, cleanupStatus(i))];
    }
  }

  method Partition(selected: seq<Meta>) returns (regular: seq<Meta>, cleanup: seq<Meta>)
    ensures regular == Filter(selected, IsRegular) && cleanup == Filter(selected, IsCleanup)
  {
    regular, cleanup := [], [];
    for i := 0 to |selected|
      invariant regular == Filter(selected[..i], IsRegular) && cleanup == Filter(selected[..i], IsCleanup)
    {
      assert selected[..i + 1][..i] == selected[..i];
      if selected[i].cleanup {
        cleanup := cleanup + [selected[i]];
      } else {
        regular := regular + [selected[i]];
      }
    }
    assert selected[..|selected|] == selected;
  }

  // ------------------------------------------------- whole runs

  /** In run order, the regular test cases stand in front of the cleanup ones. */
  lemma {:induction false} RegularThenCleanup(s: seq<Meta>)
    requires InOrder(s)
    ensures Filter(s, IsRegular) + Filter(s, IsCleanup) == s
  {
    if s != [] {
      var front, last := s[..|s| - 1], s[|s| - 1];
      RegularThenCleanup(front);
      if IsRegular(last) {
        assert AllBefore(front, last);
        NoCleanupBefore(front, last);
      }
      Regroup(Filter(front, IsRegular), Filter(front, IsCleanup), last);
      assert s == front + [last];
    }
  }

  lemma Regroup(a: seq<Meta>, b: seq<Meta>, last: Meta)
    ensures b == [] ==> (a + [last]) + (b + []) == (a + b) + [last]
    ensures (a + []) + (b + [last]) == (a + b) + [last]
  {
  }

  lemma {:induction false} NoCleanupBefore(s: seq<Meta>, last: Meta)
    requires IsRegular(last) && AllBefore(s, last)
    ensures Filter(s, IsCleanup) == []
  {
    if s != [] {
      NoCleanupBefore(s[..|s| - 1], last);
    }
  }

  /**
   A regular test case is not run exactly if, before it, the device of a known run did not come back after a
   test case that was not cancelled, or else the run was cancelled; otherwise its result is recorded.
   */
  lemma ResultExactly(id: string, moments: nat -> Moment, known: bool, i: nat)
    requires Permanent(moments)
    ensures
      RegularRecord(id, moments, known, i) ==
      if known && exists j: nat | j < i :: !moments(j).cancelledAfter && !moments(j).reconnects
      then NotRun(id, Disconnected)
      else if moments(i).cancelledBefore then NotRun(id, RunCancelled)
      else Ran(id, moments(i).status)
  {
  }

  /** Nothing regular runs after a cancellation or a lost device. */
  lemma NothingAfterStop(moments: nat -> Moment, known: bool, i: nat, j: nat)
    requires Permanent(moments) && i < j
    requires !Runs(moments, known, i) || moments(i).cancelledAfter || Lost(moments(i), known)
    ensures !Runs(moments, known, j)
  {
  }

  /** The i-th test case of a sorted list: regular up to some point, cleanup from there. */
  lemma {:induction false} CaseAt(s: seq<Meta>, i: nat)
    requires InOrder(s) && i < |s|
    ensures
      var regular, cleanup := Filter(s, IsRegular), Filter(s, IsCleanup);
      && |s| == |regular| + |cleanup| && (s[i].cleanup <==> i >= |regular|)
      && s[i] == if i < |regular| then regular[i] else cleanup[i - |regular|]
  {
    var regular, cleanup := Filter(s, IsRegular), Filter(s, IsCleanup);
    RegularThenCleanup(s);
    FilterMembers(s, IsRegular);
    FilterMembers(s, IsCleanup);
    if i < |regular| {
      assert regular[i] in regular;
    } else {
      assert cleanup[i - |regular|] in cleanup;
    }
  }

  /** What is recorded of the i-th test case of a sorted list. */
  lemma {:induction false} RecordAt(
    cases: seq<Record>, s: seq<Meta>, known: bool, moments: nat -> Moment, cleanupStatus: nat -> Status,
    aborted: bool, i: nat)
    requires InOrder(s) && i < |s|
    requires Records(cases, Filter(s, IsRegular), Filter(s, IsCleanup), known, moments, cleanupStatus, aborted)
    ensures |cases| == |s| && cases[i].id == s[i].id
    ensures cases[i].Ran? <==> if s[i].cleanup then !aborted else Runs(moments, known, i)
  {
    CaseAt(s, i);
    RecordOf(cases, Filter(s, IsRegular), Filter(s, IsCleanup), known, moments, cleanupStatus, aborted, i);
  }

  lemma RecordOf(
    cases: seq<Record>, regular: seq<Meta>, cleanup: seq<Meta>, known: bool, moments: nat -> Moment,
    cleanupStatus: nat -> Status, aborted: bool, i: nat)
    requires Records(cases, regular, cleanup, known, moments, cleanupStatus, aborted) && i < |regular| + |cleanup|
    ensures
      cases[i] ==
      if i < |regular| then RegularRecord(regular[i].id, moments, known, i)
      else CleanupRecord(cleanup[i - |regular|].id, cleanupStatus(i - |regular|), aborted)
  {
    if i >= |regular| {
      assert cases[|regular| + (i - |regular|)] == cases[i];
    }
  }

  /**
   A completed run records exactly one result for each remaining selected test case, in run order;
   once one regular test case is not run, no later one is, and the cleanup runs unless the device
   is gone.
   */
  method CompleteRun(metas: seq<Meta>, sel: Selection, d: Device, lookup: string -> Option<UseCase>,
                     known: bool, moments: nat -> Moment, cleanupStatus: nat -> Status)
    returns (remaining: seq<Meta>, cases: seq<Record>, aborted: bool)
    requires AllCatalogued(metas) && DistinctIds(metas) && Permanent(moments)
    ensures InOrder(remaining)
    ensures forall m :: m in remaining <==>
      m in metas && Wanted(m, sel, metas) && !(Filters(sel, d) && Unadvertised(m, d, lookup))
    ensures aborted == AbortedBefore(moments, known, |Filter(remaining, IsRegular)|)
    ensures |cases| == |remaining| && forall i | 0 <= i < |cases| :: cases[i].id == remaining[i].id
    ensures forall i: nat | i < |cases| :: cases[i].Ran? <==>
      if remaining[i].cleanup then !aborted else Runs(moments, known, i)
    ensures forall i, j | 0 <= i < j < |cases| && !remaining[j].cleanup && cases[i].NotRun? :: cases[j].NotRun?
  {
    remaining := Remaining(metas, sel, d, lookup);
    cases, aborted := Execute(remaining, known, moments, cleanupStatus);
    RegularThenCleanup(remaining);
    forall i: nat | i < |cases|
      ensures cases[i].id == remaining[i].id
      ensures cases[i].Ran? <==> if remaining[i].cleanup then !aborted else Runs(moments, known, i)
    {
      RecordAt(cases, remaining, known, moments, cleanupStatus, aborted, i);
    }
    forall i: nat, j: nat | i < j < |cases| && !remaining[j].cleanup && cases[i].NotRun?
      ensures cases[j].NotRun?
    {
      CaseAt(remaining, i);
      CaseAt(remaining, j);
      NothingAfterStop(moments, known, i, j);
    }
  }

  method Remaining(metas: seq<Meta>, sel: Selection, d: Device, lookup: string -> Option<UseCase>)
    returns (remaining: seq<Meta>)
    requires AllCatalogued(metas) && DistinctIds(metas)
    ensures InOrder(remaining)
    ensures forall m :: m in remaining <==>
      m in metas && Wanted(m, sel, metas) && !(Filters(sel, d) && Unadvertised(m, d, lookup))
  {
    var selected := Select(metas, sel);
    var dropped, leftOut;
    remaining, dropped, leftOut := Applicable(selected, sel, d, lookup);
    FilterMembers(selected, m => !Unadvertised(m, d, lookup));
    FilterInOrder(selected, m => !Unadvertised(m, d, lookup));
  }

  datatype RunStatus = RunPassed | RunFailed | RunCancelledStatus | RunAborted

  method CountFailed(statuses: seq<Status>) returns (n: nat)
    ensures n > 0 <==> Failed in statuses
  {
    n := 0;
    for i := 0 to |statuses|
      invariant n > 0 <==> Failed in statuses[..i]
    {
      assert statuses[..i + 1] == statuses[..i] + [statuses[i]];
      if statuses[i] == Failed {
        n := n + 1;
      }
    }
    assert statuses[..|statuses|] == statuses;
  }

  method FinalStatus(cancelled: bool, aborted: bool, cases: seq<Status>, checks: seq<Status>)
    returns (status: RunStatus)
    ensures status == RunPassed <==> !cancelled && !aborted && Failed !in cases && Failed !in checks
    ensures status == RunFailed <==> !cancelled && !aborted && (Failed in cases || Failed in checks)
    ensures status == RunAborted <==> aborted && !cancelled
  {
    var failedCases := CountFailed(cases);
    var failedChecks := CountFailed(checks);
    status := RunPassed;
    if cancelled {
      status := RunCancelledStatus;
    } else if aborted {
      status := RunAborted;
    } else if failedCases > 0 || failedChecks > 0 {
      status := RunFailed;
    }
  }
}
