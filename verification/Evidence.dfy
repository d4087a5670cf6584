/**
 internal/scenario/evidence.go: steps are bracketed with trace sequence numbers, and the findings
 of a test case are credited to the steps whose brackets they fall into. What the testbench
 answers to a position request is an input; -1 stands for no answer.
 */
module Evidence {
  import opened Options

  const MAX_FINDINGS_PER_CASE: nat := 50
  const MAX_FINDINGS_PER_STEP: nat := 20

  datatype SeqRange = SeqRange(from: int, to: int)

  datatype FindingRef = FindingRef(number: int, rule: string)

  datatype StepEvidence = StepEvidence(trace: Option<SeqRange>, findings: seq<FindingRef>, findingsTotal: nat)

  function RangeBetween(before: int, after: int): Option<SeqRange> {
    if before >= 0 && after >= 0 then Some(SeqRange(before + 1, after)) else None
  }

  predicate Contains(r: Option<SeqRange>, number: int) {
    r.Some? && r.value.from <= number <= r.value.to
  }

  // ------------------------------------------------- bracketing

  class Tracker {
    var last: Option<int>

    constructor ()
      ensures last == None
    {
      last := None;
    }

    /** The position before a step; only the very first one needs an answer of its own. */
    method Mark(answer: int) returns (m: int)
      ensures m == if last.Some? then last.value else answer
    {
      if last.Some? {
        m := last.value;
      } else {
        m := answer;
      }
    }

    method MarkAfter(answer: int) returns (m: int)
      modifies this
      ensures m == answer && last == Some(answer)
    {
      m := answer;
      last := Some(m);
    }
  }

  /** The windows of consecutive steps, from the positions before the first and after each one. */
  function Windows(positions: seq<int>): seq<Option<SeqRange>>
    requires positions != []
  {
    seq(|positions| - 1, i requires 0 <= i < |positions| - 1 => RangeBetween(positions[i], positions[i + 1]))
  }

  /** A test case: its start position, then its timed steps one after the other. */
  method TimedSteps(tracker: Tracker, positions: seq<int>) returns (windows: seq<Option<SeqRange>>)
    requires positions != []
    modifies tracker
    ensures windows == Windows(positions)
  {
    var from := tracker.MarkAfter(positions[0]);
    windows := [];
    for i := 1 to |positions|
      invariant tracker.last == Some(positions[i - 1])
      invariant windows == Windows(positions[..i])
    {
      var before := tracker.Mark(-1);
      var after := tracker.MarkAfter(positions[i]);
      windows := windows + [RangeBetween(before, after)];
    }
    assert positions[..|positions|] == positions;
  }

  /** Sequence numbers never go back; unanswered requests say nothing. */
  ghost predicate Monotone(positions: seq<int>) {
    forall i, j | 0 <= i < j < |positions| && positions[i] >= 0 && positions[j] >= 0 :: positions[i] <= positions[j]
  }

  ghost predicate Disjoint(windows: seq<Option<SeqRange>>) {
    forall i, j | 0 <= i < j < |windows| && windows[i].Some? && windows[j].Some? ::
      windows[i].value.to < windows[j].value.from
  }

  /**
   The windows of a test case's steps are disjoint and in step order, leave no gap where every
   request was answered, and lie inside the window of the test case.
   */
  lemma WindowsTile(positions: seq<int>, end: int)
    requires positions != [] && Monotone(positions + [end])
    ensures
      var w := Windows(positions);
      var whole := RangeBetween(positions[0], end);
      && Disjoint(w)
      && (forall i | 0 <= i < |w| - 1 && w[i].Some? && w[i + 1].Some? :: w[i + 1].value.from == w[i].value.to + 1)
      && (forall i, number | 0 <= i < |w| && whole.Some? && Contains(w[i], number) :: Contains(whole, number))
  {
    var all, w := positions + [end], Windows(positions);
    forall i, j | 0 <= i < j < |w| && w[i].Some? && w[j].Some? ensures w[i].value.to < w[j].value.from {
      assert all[i + 1] == positions[i + 1] && all[j] == positions[j];
    }
    forall i, number | 0 <= i < |w| && positions[0] >= 0 && end >= 0 && Contains(w[i], number)
      ensures positions[0] < number <= end
    {
      assert all[0] == positions[0] && all[i] == positions[i] && all[i + 1] == positions[i + 1] &&
        all[|positions|] == end;
    }
  }

  /** A frame falls into a step's window exactly when it came after the position before it, up to the one after it. */
  lemma InWindowExactly(positions: seq<int>, i: nat, number: int)
    requires i + 1 < |positions|
    ensures
      Contains(Windows(positions)[i], number) <==>
      positions[i] >= 0 && positions[i + 1] >= 0 && positions[i] < number <= positions[i + 1]
  {
  }

  // ------------------------------------------------- crediting findings

  function Inside(refs: seq<FindingRef>, r: Option<SeqRange>): seq<FindingRef> {
    if refs == [] then []
    else
      var ref := refs[|refs| - 1];
      Inside(refs[..|refs| - 1], r) + if Contains(r, ref.number) then [ref] else []
  }

  function Take(refs: seq<FindingRef>, cap: nat): seq<FindingRef> {
    if |refs| <= cap then refs else refs[..cap]
  }

  function UpTo(refs: seq<FindingRef>, until: int): seq<FindingRef> {
    if refs == [] then []
    else
      var ref := refs[|refs| - 1];
      UpTo(refs[..|refs| - 1], until) + if ref.number <= until then [ref] else []
  }

  /** A step's share: exact total, and the first twenty of them kept. */
  ghost predicate Share(step: StepEvidence, was: StepEvidence, refs: seq<FindingRef>) {
    && step.trace == was.trace
    && step.findingsTotal == |Inside(refs, was.trace)|
    && step.findings == Take(Inside(refs, was.trace), MAX_FINDINGS_PER_STEP)
  }

  ghost predicate Blank(step: StepEvidence) {
    step.findings == [] && step.findingsTotal == 0
  }

  /** The findings that satisfy p, in order. */
  function Filter(refs: seq<FindingRef>, p: FindingRef -> bool): seq<FindingRef> {
    if refs == [] then []
    else (if p(refs[0]) then [refs[0]] else []) + Filter(refs[1..], p)
  }

  lemma {:induction false} FilterConcat(a: seq<FindingRef>, b: seq<FindingRef>, p: FindingRef -> bool)
    ensures Filter(a + b, p) == Filter(a, p) + Filter(b, p)
  {
    if a == [] {
      assert a + b == b;
    } else {
      assert (a + b)[1..] == a[1..] + b;
      FilterConcat(a[1..], b, p);
    }
  }

  lemma {:induction false} FilterSnoc(refs: seq<FindingRef>, p: FindingRef -> bool)
    requires refs != []
    ensures
      var n := |refs| - 1;
      Filter(refs, p) == Filter(refs[..n], p) + if p(refs[n]) then [refs[n]] else []
  {
    var n := |refs| - 1;
    FilterConcat(refs[..n], [refs[n]], p);
    assert refs[..n] + [refs[n]] == refs && [refs[n]][1..] == [];
  }

  /** kept are the first of all, as many as the cap allows. */
  predicate FirstOf(kept: seq<FindingRef>, all: seq<FindingRef>, cap: nat) {
    kept <= all && (|kept| == |all| || (|kept| == cap && cap < |all|))
  }

  lemma {:induction false} UpToExactly(refs: seq<FindingRef>, until: int)
    ensures UpTo(refs, until) == Filter(refs, (ref: FindingRef) => ref.number <= until)
    ensures FirstOf(Take(UpTo(refs, until), MAX_FINDINGS_PER_CASE), UpTo(refs, until), 50)
  {
    if refs != [] {
      UpToExactly(refs[..|refs| - 1], until);
      FilterSnoc(refs, (ref: FindingRef) => ref.number <= until);
    }
  }

  lemma {:induction false} InsideExactly(refs: seq<FindingRef>, r: Option<SeqRange>)
    ensures Inside(refs, r) == Filter(refs, (ref: FindingRef) => Contains(r, ref.number))
  {
    if refs != [] {
      InsideExactly(refs[..|refs| - 1], r);
      FilterSnoc(refs, (ref: FindingRef) => Contains(r, ref.number));
    }
  }

  /** A step's share is the number of findings inside its window, and the first twenty of them. */
  lemma {:induction false} ShareExactly(step: StepEvidence, was: StepEvidence, refs: seq<FindingRef>)
    requires Share(step, was, refs)
    ensures
      var own := Filter(refs, (ref: FindingRef) => Contains(was.trace, ref.number));
      step.trace == was.trace && step.findingsTotal == |own| && FirstOf(step.findings, own, 20)
  {
    InsideExactly(refs, was.trace);
  }

  method AddStepFinding(steps: array<StepEvidence>, ref: FindingRef, ghost blank: seq<StepEvidence>,
    ghost before: seq<FindingRef>)
    requires |blank| == steps.Length && forall i | 0 <= i < steps.Length :: Share(steps[i], blank[i], before)
    modifies steps
    ensures forall i | 0 <= i < steps.Length :: Share(steps[i], blank[i], before + [ref])
  {
    for i := 0 to steps.Length
      invariant forall k | 0 <= k < i :: Share(steps[k], blank[k], before + [ref])
      invariant forall k | i <= k < steps.Length :: Share(steps[k], blank[k], before)
    {
      assert (before + [ref])[..|before|] == before;
      var step := steps[i];
      if Contains(step.trace, ref.number) {
        var findings := step.findings;
        if |findings| < MAX_FINDINGS_PER_STEP {
          findings := findings + [ref];
        }
        steps[i] := StepEvidence(step.trace, findings, step.findingsTotal + 1);
      }
    }
  }

  /** Distributes the findings of a test case's window, in trace order, over its steps. */
  method AttachFindings(refs: seq<FindingRef>, until: int, steps: array<StepEvidence>)
    returns (total: nat, findings: seq<FindingRef>)
    requires forall i | 0 <= i < steps.Length :: Blank(steps[i])
    modifies steps
    ensures total == |UpTo(refs, until)| && findings == Take(UpTo(refs, until), MAX_FINDINGS_PER_CASE)
    ensures forall i | 0 <= i < steps.Length :: Share(steps[i], old(steps[i]), UpTo(refs, until))
  {
    total, findings := 0, [];
    ghost var blank := steps[..];
    for k := 0 to |refs|
      invariant total == |UpTo(refs[..k], until)| && findings == Take(UpTo(refs[..k], until), MAX_FINDINGS_PER_CASE)
      invariant forall i | 0 <= i < steps.Length :: Share(steps[i], blank[i], UpTo(refs[..k], until))
    {
      assert refs[..k + 1][..k] == refs[..k];
      var ref := refs[k];
      assert UpTo(refs[..k + 1], until) ==
        if ref.number <= until then UpTo(refs[..k], until) + [ref] else UpTo(refs[..k], until);
      if ref.number <= until {
        total := total + 1;
        if |findings| < MAX_FINDINGS_PER_CASE {
          findings := findings + [ref];
        }
        AddStepFinding(steps, ref, blank, UpTo(refs[..k], until));
      }
    }
    assert refs[..|refs|] == refs;
  }

  function StepTotals(windows: seq<Option<SeqRange>>, refs: seq<FindingRef>): nat {
    if windows == [] then 0
    else StepTotals(windows[..|windows| - 1], refs) + |Inside(refs, windows[|windows| - 1])|
  }

  function StepsHolding(windows: seq<Option<SeqRange>>, number: int): nat {
    if windows == [] then 0
    else StepsHolding(windows[..|windows| - 1], number) + if Contains(windows[|windows| - 1], number) then 1 else 0
  }

  lemma {:induction false} AtMostOneStep(windows: seq<Option<SeqRange>>, number: int)
    requires Disjoint(windows)
    ensures StepsHolding(windows, number) <= 1
    ensures StepsHolding(windows, number) == 1 ==> exists i :: 0 <= i < |windows| && Contains(windows[i], number)
  {
    if windows != [] {
      AtMostOneStep(windows[..|windows| - 1], number);
    }
  }

  lemma {:induction false} TotalsSnoc(windows: seq<Option<SeqRange>>, refs: seq<FindingRef>, ref: FindingRef)
    ensures StepTotals(windows, refs + [ref]) == StepTotals(windows, refs) + StepsHolding(windows, ref.number)
  {
    if windows != [] {
      TotalsSnoc(windows[..|windows| - 1], refs, ref);
      assert (refs + [ref])[..|refs|] == refs;
    }
  }

  /** Every finding is credited to at most one step, so the step totals never exceed the test case's. */
  lemma {:induction false} StepTotalsBounded(windows: seq<Option<SeqRange>>, refs: seq<FindingRef>)
    requires Disjoint(windows)
    ensures StepTotals(windows, refs) <= |refs|
  {
    if refs == [] {
      NoTotals(windows);
    } else {
      var n := |refs| - 1;
      StepTotalsBounded(windows, refs[..n]);
      assert refs == refs[..n] + [refs[n]];
      TotalsSnoc(windows, refs[..n], refs[n]);
      AtMostOneStep(windows, refs[n].number);
    }
  }

  lemma {:induction false} NoTotals(windows: seq<Option<SeqRange>>)
    ensures StepTotals(windows, []) == 0
  {
    if windows != [] {
      NoTotals(windows[..|windows| - 1]);
    }
  }
}
