/**
 internal/scenario/scenario.go: a test case's steps, with nested for_each loops, are executed from
 one flat work queue. What a single step does, how references are resolved and when the run is
 cancelled are left open: they are arbitrary functions of an arbitrary world state W.
 */
module Scenario {
  import opened Json

  datatype Status = Passed | Failed | Skipped

  datatype Reason = NoReason | NotRun | PreconditionNotMet

  type Context = map<string, Json>

  /** A step as written: a loop over items, or any other verb with its arguments. */
  datatype Spec =
    | ForEach(variable: string, items: Json, body: seq<Spec>)
    | Verb(verb: string, args: Json)

  /** The loop variables a for_each binds for one copy of its body. */
  datatype Binding = Binding(name: string, item: Json, index: nat)

  datatype BoundStep = BoundStep(spec: Spec, binding: seq<Binding>)

  datatype Outcome<W> = Outcome(status: Status, context: Context, world: W)

  datatype Runner<!W> = Runner(
    cancelled: W -> (bool, W),
    timedStep: (Spec, Context, W) -> Outcome<W>,
    resolve: (Json, Context) -> Json)

  /** One entry of a result's step list. */
  datatype StepResult =
    | LoopStep(name: string, items: Json, status: Status)
    | RunStep(spec: Spec, own: seq<Binding>, status: Status, interrupted: bool)
    | CancelledStep
    | FinallyStep(spec: Spec, status: Status)

  function StatusOf(r: StepResult): Status {
    match r
    case CancelledStep => Skipped
    case _ => r.status
  }

  datatype State<W> = State(context: Context, status: Status, reason: Reason, steps: seq<StepResult>, world: W)

  // ------------------------------------------------- one step

  /** A loop's own variables: the item, and its position under <name>_index. */
  function Variables(b: seq<Binding>): Context {
    if b == [] then map[]
    else map[b[0].name := b[0].item, b[0].name + "_index" := Num(b[0].index as real)]
  }

  function LoopName(variable: string): string {
    if variable == "" then "item" else variable
  }

  /** The items of a loop, resolved in the context at the moment the loop is reached. */
  function ItemsOf<W>(rn: Runner<W>, items: Json, context: Context): seq<Json> {
    var v := rn.resolve(items, context);
    if v.Arr? then v.items else []
  }

  function RecordCancelled<W>(st: State<W>): State<W> {
    st.(status := Skipped, reason := NotRun, steps := st.steps + [CancelledStep])
  }

  function RecordLoop<W>(name: string, items: Json, found: bool, st: State<W>): State<W> {
    st.(steps := st.steps + [LoopStep(name, items, if found then Passed else Failed)],
        status := if found then st.status else Failed)
  }

  /** A failure while the run is being cancelled counts as interrupted, a skipped step ends the test case. */
  function PerformVerb<W>(rn: Runner<W>, spec: Spec, own: seq<Binding>, st: State<W>): State<W> {
    var o := rn.timedStep(spec, st.context, st.world);
    var ran := st.(context := o.context, world := o.world);
    match o.status
    case Passed => ran.(steps := st.steps + [RunStep(spec, own, Passed, false)])
    case Skipped =>
      ran.(steps := st.steps + [RunStep(spec, own, Skipped, false)], status := Skipped, reason := PreconditionNotMet)
    case Failed =>
      var (stopped, w) := rn.cancelled(o.world);
      var after := ran.(world := w);
      if stopped then
        after.(steps := st.steps + [RunStep(spec, own, Skipped, true)], status := Skipped, reason := NotRun)
      else
        after.(steps := st.steps + [RunStep(spec, own, Failed, false)], status := Failed)
  }

  // ------------------------------------------------- the nested-loop reading

  /**
   The meaning of a step list: loops run their body once per item, one after the other, and nest
   by recursion. `own` is the binding of the innermost loop, set anew before each step.
   */
  function RunBody<W>(rn: Runner<W>, body: seq<Spec>, own: seq<Binding>, st: State<W>): State<W>
    decreases body, 0, 0
  {
    if body == [] || st.status != Passed then st
    else RunBody(rn, body[1..], own, RunSpec(rn, body[0], own, st))
  }

  function RunSpec<W>(rn: Runner<W>, spec: Spec, own: seq<Binding>, st: State<W>): State<W>
    decreases spec, 0, 0
  {
    if st.status != Passed then st
    else
      var (stopped, w) := rn.cancelled(st.world);
      var entered := st.(context := st.context + Variables(own), world := w);
      if stopped then RecordCancelled(entered)
      else
        match spec
        case Verb(_, _) => PerformVerb(rn, spec, own, entered)
        case ForEach(variable, items, body) =>
          var list := ItemsOf(rn, items, entered.context);
          RunLoop(rn, LoopName(variable), list, 0, body, RecordLoop(LoopName(variable), items, list != [], entered))
  }

  function RunLoop<W>(rn: Runner<W>, name: string, list: seq<Json>, k: nat, body: seq<Spec>, st: State<W>): State<W>
    decreases body, 1, |list| - k
  {
    if k >= |list| || st.status != Passed then st
    else RunLoop(rn, name, list, k + 1, body, RunBody(rn, body, [Binding(name, list[k], k)], st))
  }

  // ------------------------------------------------- the flat queue

  function Copies(body: seq<Spec>, binding: seq<Binding>): seq<BoundStep> {
    seq(|body|, i requires 0 <= i < |body| => BoundStep(body[i], binding))
  }

  /** expandForEach: one copy of the body per item. */
  function Expand(name: string, list: seq<Json>, k: nat, body: seq<Spec>): seq<BoundStep>
    decreases |list| - k
  {
    if k >= |list| then [] else Copies(body, [Binding(name, list[k], k)]) + Expand(name, list, k + 1, body)
  }

  /** What the rest of the queue still has to do. */
  function RunQueue<W>(rn: Runner<W>, queue: seq<BoundStep>, st: State<W>): State<W>
    decreases |queue|
  {
    if queue == [] || st.status != Passed then st
    else RunQueue(rn, queue[1..], RunSpec(rn, queue[0].spec, queue[0].binding, st))
  }

  lemma {:induction false} QueueConcat<W>(rn: Runner<W>, a: seq<BoundStep>, b: seq<BoundStep>, st: State<W>)
    ensures RunQueue(rn, a + b, st) == RunQueue(rn, b, RunQueue(rn, a, st))
    decreases |a|
  {
    if a == [] {
      assert a + b == b;
    } else if st.status == Passed {
      assert (a + b)[1..] == a[1..] + b;
      QueueConcat(rn, a[1..], b, RunSpec(rn, a[0].spec, a[0].binding, st));
    }
  }

  lemma {:induction false} QueueOfCopies<W>(rn: Runner<W>, body: seq<Spec>, binding: seq<Binding>, st: State<W>)
    ensures RunQueue(rn, Copies(body, binding), st) == RunBody(rn, body, binding, st)
    decreases |body|
  {
    if body != [] && st.status == Passed {
      assert Copies(body, binding)[1..] == Copies(body[1..], binding);
      QueueOfCopies(rn, body[1..], binding, RunSpec(rn, body[0], binding, st));
    }
  }

  lemma {:induction false} QueueOfExpansion<W>(
    rn: Runner<W>, name: string, list: seq<Json>, k: nat, body: seq<Spec>, st: State<W>)
    ensures RunQueue(rn, Expand(name, list, k, body), st) == RunLoop(rn, name, list, k, body, st)
    decreases |list| - k
  {
    if k < |list| {
      var binding := [Binding(name, list[k], k)];
      QueueConcat(rn, Copies(body, binding), Expand(name, list, k + 1, body), st);
      QueueOfCopies(rn, body, binding, st);
      if st.status == Passed {
        QueueOfExpansion(rn, name, list, k + 1, body, RunBody(rn, body, binding, st));
      } else {
        StoppedQueue(rn, Expand(name, list, k + 1, body), st);
      }
    }
  }

  lemma {:induction false} StoppedQueue<W>(rn: Runner<W>, queue: seq<BoundStep>, st: State<W>)
    requires st.status != Passed
    ensures RunQueue(rn, queue, st) == st
  {}

  // ------------------------------------------------- every step is recorded

  ghost predicate Extends<W>(st: State<W>, t: State<W>) {
    st.steps <= t.steps
  }

  lemma {:induction false} BodyExtends<W>(rn: Runner<W>, body: seq<Spec>, own: seq<Binding>, st: State<W>)
    ensures Extends(st, RunBody(rn, body, own, st))
    decreases body, 0, 0
  {
    if body != [] && st.status == Passed {
      SpecExtends(rn, body[0], own, st);
      BodyExtends(rn, body[1..], own, RunSpec(rn, body[0], own, st));
    }
  }

  lemma {:induction false} SpecExtends<W>(rn: Runner<W>, spec: Spec, own: seq<Binding>, st: State<W>)
    ensures Extends(st, RunSpec(rn, spec, own, st))
    ensures st.status == Passed ==> |st.steps| < |RunSpec(rn, spec, own, st).steps|
    decreases spec, 0, 0
  {
    if st.status == Passed && spec.ForEach? {
      var (stopped, w) := rn.cancelled(st.world);
      var entered := st.(context := st.context + Variables(own), world := w);
      var list := ItemsOf(rn, spec.items, entered.context);
      LoopExtends(rn, LoopName(spec.variable), list, 0, spec.body,
        RecordLoop(LoopName(spec.variable), spec.items, list != [], entered));
    }
  }

  lemma {:induction false} LoopExtends<W>(
    rn: Runner<W>, name: string, list: seq<Json>, k: nat, body: seq<Spec>, st: State<W>)
    ensures Extends(st, RunLoop(rn, name, list, k, body, st))
    decreases body, 1, |list| - k
  {
    if k < |list| && st.status == Passed {
      var binding := [Binding(name, list[k], k)];
      BodyExtends(rn, body, binding, st);
      LoopExtends(rn, name, list, k + 1, body, RunBody(rn, body, binding, st));
    }
  }

  lemma {:induction false} QueueExtends<W>(rn: Runner<W>, queue: seq<BoundStep>, st: State<W>)
    ensures Extends(st, RunQueue(rn, queue, st))
    ensures queue != [] && st.status == Passed ==> |st.steps| < |RunQueue(rn, queue, st).steps|
    decreases |queue|
  {
    if queue != [] && st.status == Passed {
      SpecExtends(rn, queue[0].spec, queue[0].binding, st);
      QueueExtends(rn, queue[1..], RunSpec(rn, queue[0].spec, queue[0].binding, st));
    }
  }

  // ------------------------------------------------- runSteps

  method ExpandForEach(name: string, list: seq<Json>, body: seq<Spec>) returns (expanded: seq<BoundStep>)
    ensures expanded == Expand(name, list, 0, body)
  {
    expanded := [];
    for index := 0 to |list|
      invariant expanded + Expand(name, list, index, body) == Expand(name, list, 0, body)
    {
      var copies := Copies(body, [Binding(name, list[index], index)]);
      assert expanded + (copies + Expand(name, list, index + 1, body)) ==
        (expanded + copies) + Expand(name, list, index + 1, body);
      expanded := expanded + copies;
    }
  }

  /**
   The work loop, splicing a loop's copies into the queue when it is reached. It does what the
   nested loops mean, and it ends: every iteration records one of the finitely many steps the
   nested loops record.
   */
  method RunSteps<W>(rn: Runner<W>, steps: seq<Spec>, start: State<W>) returns (st: State<W>)
    ensures st == RunBody(rn, steps, [], start)
  {
    var queue := Copies(steps, []);
    var i := 0;
    st := start;
    ghost var end := RunQueue(rn, queue, st);
    QueueOfCopies(rn, steps, [], st);
    assert queue[0..] == queue;
    while i < |queue| && st.status == Passed
      invariant 0 <= i <= |queue|
      invariant RunQueue(rn, queue[i..], st) == end
      decreases |end.steps| - |st.steps|
    {
      var item := queue[i];
      ghost var before, rest := st, queue[i + 1..];
      assert queue[i..][0] == item && queue[i..][1..] == rest;
      QueueExtends(rn, queue[i..], st);
      ghost var done := RunSpec(rn, item.spec, item.binding, before);
      assert end == RunQueue(rn, rest, done);
      st := st.(context := st.context + Variables(item.binding));
      var (stopped, w) := rn.cancelled(st.world);
      st := st.(world := w);
      if stopped {
        st := RecordCancelled(st);
        assert st == done;
      } else if item.spec.ForEach? {
        var name := LoopName(item.spec.variable);
        var list := ItemsOf(rn, item.spec.items, st.context);
        st := RecordLoop(name, item.spec.items, list != [], st);
        assert done == RunLoop(rn, name, list, 0, item.spec.body, st);
        if list != [] {
          var expanded := ExpandForEach(name, list, item.spec.body);
          QueueConcat(rn, expanded, rest, st);
          QueueOfExpansion(rn, name, list, 0, item.spec.body, st);
          queue := queue[..i + 1] + expanded + queue[i + 1..];
          assert queue[i + 1..] == expanded + rest;
        }
      } else {
        st := PerformVerb(rn, item.spec, item.binding, st);
      }
      i := i + 1;
      assert RunQueue(rn, queue[i..], st) == end;
      QueueExtends(rn, queue[i..], st);
    }
    assert i >= |queue| ==> queue[i..] == [];
  }

  // ------------------------------------------------- the verdict

  /** Everything recorded passed, up to the one step that ended the test case. */
  ghost predicate Judged<W>(st: State<W>, from: nat) {
    && from <= |st.steps|
    && (st.status == Passed ==> forall i | from <= i < |st.steps| :: StatusOf(st.steps[i]) == Passed)
    && (st.status != Passed ==>
         && from < |st.steps| && StatusOf(st.steps[|st.steps| - 1]) == st.status
         && forall i | from <= i < |st.steps| - 1 :: StatusOf(st.steps[i]) == Passed)
  }

  lemma {:induction false} VerdictOfBody<W>(rn: Runner<W>, body: seq<Spec>, own: seq<Binding>, st: State<W>, from: nat)
    requires Judged(st, from)
    ensures Judged(RunBody(rn, body, own, st), from)
    decreases body, 0, 0
  {
    if body != [] && st.status == Passed {
      VerdictOfSpec(rn, body[0], own, st, from);
      VerdictOfBody(rn, body[1..], own, RunSpec(rn, body[0], own, st), from);
    }
  }

  lemma {:induction false} VerdictOfSpec<W>(rn: Runner<W>, spec: Spec, own: seq<Binding>, st: State<W>, from: nat)
    requires Judged(st, from)
    ensures Judged(RunSpec(rn, spec, own, st), from)
    decreases spec, 0, 0
  {
    if st.status == Passed {
      var (stopped, w) := rn.cancelled(st.world);
      var entered := st.(context := st.context + Variables(own), world := w);
      if spec.ForEach? && !stopped {
        var list := ItemsOf(rn, spec.items, entered.context);
        VerdictOfLoop(rn, LoopName(spec.variable), list, 0, spec.body,
          RecordLoop(LoopName(spec.variable), spec.items, list != [], entered), from);
      }
    }
  }

  lemma {:induction false} VerdictOfLoop<W>(
    rn: Runner<W>, name: string, list: seq<Json>, k: nat, body: seq<Spec>, st: State<W>, from: nat)
    requires Judged(st, from)
    ensures Judged(RunLoop(rn, name, list, k, body, st), from)
    decreases body, 1, |list| - k
  {
    if k < |list| && st.status == Passed {
      var binding := [Binding(name, list[k], k)];
      VerdictOfBody(rn, body, binding, st, from);
      VerdictOfLoop(rn, name, list, k + 1, body, RunBody(rn, body, binding, st), from);
    }
  }

  /**
   The verdict is that of the last step recorded here, and only a last step can be other than passed,
   whatever was recorded before, such as a leading wait for the connection.
   */
  lemma {:induction false} VerdictIsLastStep<W>(rn: Runner<W>, steps: seq<Spec>, start: State<W>)
    requires start.status == Passed
    ensures Judged(RunBody(rn, steps, [], start), |start.steps|)
    ensures RunBody(rn, steps, [], start).steps[..|start.steps|] == start.steps
  {
    VerdictOfBody(rn, steps, [], start, |start.steps|);
    BodyExtends(rn, steps, [], start);
  }

  // ------------------------------------------------- finally

  /** The finally list runs flat: an entry is handed over as it is written, a for_each among them too. */
  function AfterFinally<W>(rn: Runner<W>, entries: seq<Spec>, st: State<W>): State<W> {
    if entries == [] then st
    else
      var before := AfterFinally(rn, entries[..|entries| - 1], st);
      var last := entries[|entries| - 1];
      var o := rn.timedStep(last, before.context, before.world);
      before.(context := o.context, world := o.world,
              steps := before.steps + [FinallyStep(last, o.status)],
              status := if o.status == Failed && before.status == Passed then Failed else before.status)
  }

  method RunFinally<W>(rn: Runner<W>, entries: seq<Spec>, start: State<W>) returns (st: State<W>)
    ensures st == AfterFinally(rn, entries, start)
  {
    st := start;
    for k := 0 to |entries|
      invariant st == AfterFinally(rn, entries[..k], start)
    {
      assert entries[..k + 1][..k] == entries[..k];
      var o := rn.timedStep(entries[k], st.context, st.world);
      st := st.(context := o.context, world := o.world, steps := st.steps + [FinallyStep(entries[k], o.status)]);
      if o.status == Failed && st.status == Passed {
        st := st.(status := Failed);
      }
    }
    assert entries[..|entries|] == entries;
  }

  datatype Recorded<W> = Recorded(records: seq<StepResult>, context: Context, world: W)

  /** What the entries record, each in the context and the world that the one before it left behind. */
  function FinallyRecords<W>(rn: Runner<W>, entries: seq<Spec>, context: Context, world: W): Recorded<W> {
    if entries == [] then Recorded([], context, world)
    else
      var o := rn.timedStep(entries[0], context, world);
      var rest := FinallyRecords(rn, entries[1..], o.context, o.world);
      rest.(records := [FinallyStep(entries[0], o.status)] + rest.records)
  }

  lemma {:induction false} FinallySnoc<W>(rn: Runner<W>, entries: seq<Spec>, last: Spec, context: Context, world: W)
    ensures
      var before := FinallyRecords(rn, entries, context, world);
      var o := rn.timedStep(last, before.context, before.world);
      FinallyRecords(rn, entries + [last], context, world) ==
        Recorded(before.records + [FinallyStep(last, o.status)], o.context, o.world)
  {
    if entries == [] {
      assert [last][1..] == [];
    } else {
      assert (entries + [last])[1..] == entries[1..] + [last];
      var o := rn.timedStep(entries[0], context, world);
      FinallySnoc(rn, entries[1..], last, o.context, o.world);
    }
  }

  /** The finally entries pass the context and the world on, and record what each of them did. */
  lemma {:induction false} FinallyPassesOn<W>(rn: Runner<W>, entries: seq<Spec>, st: State<W>)
    ensures
      var t := AfterFinally(rn, entries, st);
      var r := FinallyRecords(rn, entries, st.context, st.world);
      t.steps == st.steps + r.records && t.context == r.context && t.world == r.world
  {
    if entries != [] {
      var n := |entries| - 1;
      FinallyPassesOn(rn, entries[..n], st);
      FinallySnoc(rn, entries[..n], entries[n], st.context, st.world);
      assert entries == entries[..n] + [entries[n]];
    }
  }

  predicate AnyFailed(steps: seq<StepResult>, from: nat) {
    exists i :: from <= i < |steps| && StatusOf(steps[i]) == Failed
  }

  predicate RecordsOf(entries: seq<Spec>, records: seq<StepResult>) {
    && |records| == |entries|
    && forall i | 0 <= i < |entries| :: records[i].FinallyStep? && records[i].spec == entries[i]
  }

  /** All finally steps run whatever the verdict is, and only a pass can still turn into a failure. */
  lemma {:induction false} FinallyAlwaysRuns<W>(rn: Runner<W>, entries: seq<Spec>, st: State<W>)
    ensures
      var t := AfterFinally(rn, entries, st);
      && st.steps <= t.steps && RecordsOf(entries, t.steps[|st.steps|..])
      && t.reason == st.reason
      && t.status == if st.status == Passed && AnyFailed(t.steps, |st.steps|) then Failed else st.status
  {
    if entries != [] {
      var n := |entries| - 1;
      FinallyAlwaysRuns(rn, entries[..n], st);
      var before, t := AfterFinally(rn, entries[..n], st), AfterFinally(rn, entries, st);
      var last := t.steps[|before.steps|];
      assert t.steps == before.steps + [last];
      assert t.steps[|st.steps|..] == before.steps[|st.steps|..] + [last];
      AnyFailedSnoc(before.steps, last, |st.steps|);
    }
  }

  lemma AnyFailedSnoc(steps: seq<StepResult>, last: StepResult, from: nat)
    requires from <= |steps|
    ensures AnyFailed(steps + [last], from) <==> AnyFailed(steps, from) || StatusOf(last) == Failed
  {
    var more := steps + [last];
    assert more[|steps|] == last;
    assert forall i | 0 <= i < |steps| :: more[i] == steps[i];
  }
}
