/**
 internal/scenario/scenario.go, runSteps: what every single step that a run reaches leaves behind, and how
 the run goes on from there, said without the functions that the run itself is built from.
 */
module StepRecords {
  import opened Json
  import opened Scenario

  /** A step that is about to be taken: its own loop variables and the state it starts from. */
  datatype Moment<W> = Moment(spec: Spec, own: seq<Binding>, st: State<W>)

  // ------------------------------------------------- the steps a run reaches

  ghost predicate BodyReaches<W>(rn: Runner<W>, body: seq<Spec>, own: seq<Binding>, st: State<W>, m: Moment<W>)
    decreases body, 0, 0
  {
    && body != [] && st.status == Passed
    && (SpecReaches(rn, body[0], own, st, m) || BodyReaches(rn, body[1..], own, RunSpec(rn, body[0], own, st), m))
  }

  ghost predicate SpecReaches<W>(rn: Runner<W>, spec: Spec, own: seq<Binding>, st: State<W>, m: Moment<W>)
    decreases spec, 0, 0
  {
    || m == Moment(spec, own, st)
    || (spec.ForEach? && !rn.cancelled(st.world).0 && NonEmpty(Resolved(rn, Moment(spec, own, st)))
        && LoopReaches(rn, NameOf(spec.variable), Resolved(rn, Moment(spec, own, st)).items, 0, spec.body,
                       After(rn, Moment(spec, own, st)), m))
  }

  ghost predicate LoopReaches<W>(
    rn: Runner<W>, name: string, list: seq<Json>, k: nat, body: seq<Spec>, st: State<W>, m: Moment<W>)
    decreases body, 1, |list| - k
  {
    && k < |list| && st.status == Passed
    && (BodyReaches(rn, body, [Binding(name, list[k], k)], st, m)
        || LoopReaches(rn, name, list, k + 1, body, RunBody(rn, body, [Binding(name, list[k], k)], st), m))
  }

  // ------------------------------------------------- what they leave behind

  function NameOf(variable: string): string {
    if variable == "" then "item" else variable
  }

  /** What the step sees: its loop variables on top of the shared context. */
  function Seen<W>(m: Moment<W>): Context {
    m.st.context + Variables(m.own)
  }

  predicate NonEmpty(v: Json) {
    v.Arr? && v.items != []
  }

  function Resolved<W>(rn: Runner<W>, m: Moment<W>): Json
    requires m.spec.ForEach?
  {
    rn.resolve(m.spec.items, Seen(m))
  }

  /** The record, the verdict and its reason, the context and the world the step leaves behind. */
  function Left<W>(m: Moment<W>, record: StepResult, status: Status, reason: Reason, context: Context, world: W)
    : State<W>
  {
    State(context, status, reason, m.st.steps + [record], world)
  }

  function After<W>(rn: Runner<W>, m: Moment<W>): State<W> {
    var (stopped, w) := rn.cancelled(m.st.world);
    if stopped then Left(m, CancelledStep, Skipped, NotRun, Seen(m), w)
    else
      match m.spec
      case ForEach(variable, items, _) =>
        var verdict := if NonEmpty(Resolved(rn, m)) then Passed else Failed;
        Left(m, LoopStep(NameOf(variable), items, verdict), verdict, m.st.reason, Seen(m), w)
      case Verb(_, _) =>
        var o := rn.timedStep(m.spec, Seen(m), w);
        var (late, w') := rn.cancelled(o.world);
        match o.status
        case Passed => Left(m, RunStep(m.spec, m.own, Passed, false), Passed, m.st.reason, o.context, o.world)
        case Skipped =>
          Left(m, RunStep(m.spec, m.own, Skipped, false), Skipped, PreconditionNotMet, o.context, o.world)
        case Failed =>
          if late then Left(m, RunStep(m.spec, m.own, Skipped, true), Skipped, NotRun, o.context, w')
          else Left(m, RunStep(m.spec, m.own, Failed, false), Failed, m.st.reason, o.context, w')
  }

  // ------------------------------------------------- how the run goes on

  /** A run that ends as t goes on from m with another step, from the state m left, or ends in that state. */
  ghost predicate GoesOn<W>(rn: Runner<W>, m: Moment<W>, next: seq<Moment<W>>, t: State<W>) {
    if next == [] then t == After(rn, m) else |next| == 1 && next[0].st == After(rn, m)
  }

  /** What the step recorded is still there in the end, and if it did not pass, nothing came after it. */
  ghost predicate Shows<W>(rn: Runner<W>, m: Moment<W>, t: State<W>) {
    && m.st.status == Passed
    && After(rn, m).steps <= t.steps
    && (After(rn, m).status != Passed ==> t == After(rn, m))
  }

  lemma {:induction false} VerbRuns<W>(rn: Runner<W>, spec: Spec, own: seq<Binding>, st: State<W>)
    requires st.status == Passed &&
      (spec.Verb? || rn.cancelled(st.world).0 || !NonEmpty(Resolved(rn, Moment(spec, own, st))))
    ensures RunSpec(rn, spec, own, st) == After(rn, Moment(spec, own, st))
  {
  }

  lemma {:induction false} LoopRuns<W>(rn: Runner<W>, spec: Spec, own: seq<Binding>, st: State<W>)
    requires st.status == Passed && spec.ForEach? && !rn.cancelled(st.world).0
    requires NonEmpty(Resolved(rn, Moment(spec, own, st)))
    ensures
      var m := Moment(spec, own, st);
      RunSpec(rn, spec, own, st) ==
      RunLoop(rn, NameOf(spec.variable), Resolved(rn, m).items, 0, spec.body, After(rn, m))
  {
  }

  lemma {:induction false} BodyGoesOn<W>(
    rn: Runner<W>, body: seq<Spec>, own: seq<Binding>, st: State<W>, m: Moment<W>) returns (next: seq<Moment<W>>)
    requires BodyReaches(rn, body, own, st, m)
    ensures GoesOn(rn, m, next, RunBody(rn, body, own, st)) && Shows(rn, m, RunBody(rn, body, own, st))
    ensures next != [] ==> BodyReaches(rn, body, own, st, next[0])
    decreases body, 0, 0
  {
    var rest, done := body[1..], RunSpec(rn, body[0], own, st);
    BodyExtends(rn, rest, own, done);
    if SpecReaches(rn, body[0], own, st, m) {
      next := SpecGoesOn(rn, body[0], own, st, m);
      if next == [] && rest != [] && done.status == Passed {
        next := [Moment(rest[0], own, done)];
        assert BodyReaches(rn, rest, own, done, next[0]);
      }
    } else {
      next := BodyGoesOn(rn, rest, own, done, m);
    }
  }

  lemma {:induction false} SpecGoesOn<W>(
    rn: Runner<W>, spec: Spec, own: seq<Binding>, st: State<W>, m: Moment<W>) returns (next: seq<Moment<W>>)
    requires st.status == Passed && SpecReaches(rn, spec, own, st, m)
    ensures GoesOn(rn, m, next, RunSpec(rn, spec, own, st)) && Shows(rn, m, RunSpec(rn, spec, own, st))
    ensures next != [] ==> SpecReaches(rn, spec, own, st, next[0])
    decreases spec, 0, 0
  {
    var at := Moment(spec, own, st);
    if spec.Verb? || rn.cancelled(st.world).0 || !NonEmpty(Resolved(rn, at)) {
      VerbRuns(rn, spec, own, st);
      next := [];
    } else {
      var name, list := NameOf(spec.variable), Resolved(rn, at).items;
      LoopRuns(rn, spec, own, st);
      LoopExtends(rn, name, list, 0, spec.body, After(rn, at));
      if LoopReaches(rn, name, list, 0, spec.body, After(rn, at), m) {
        next := LoopGoesOn(rn, name, list, 0, spec.body, After(rn, at), m);
      } else {
        next := LoopBegins(rn, name, list, 0, spec.body, After(rn, at));
      }
    }
  }

  lemma {:induction false} LoopGoesOn<W>(
    rn: Runner<W>, name: string, list: seq<Json>, k: nat, body: seq<Spec>, st: State<W>, m: Moment<W>)
    returns (next: seq<Moment<W>>)
    requires LoopReaches(rn, name, list, k, body, st, m)
    ensures GoesOn(rn, m, next, RunLoop(rn, name, list, k, body, st)) &&
      Shows(rn, m, RunLoop(rn, name, list, k, body, st))
    ensures next != [] ==> LoopReaches(rn, name, list, k, body, st, next[0])
    decreases body, 1, |list| - k
  {
    var own := [Binding(name, list[k], k)];
    var done := RunBody(rn, body, own, st);
    LoopExtends(rn, name, list, k + 1, body, done);
    if BodyReaches(rn, body, own, st, m) {
      next := BodyGoesOn(rn, body, own, st, m);
      if next == [] {
        next := LoopBegins(rn, name, list, k + 1, body, done);
      }
    } else {
      next := LoopGoesOn(rn, name, list, k + 1, body, done, m);
    }
  }

  /** A loop goes on with the first step of its next round, unless there is none. */
  lemma {:induction false} LoopBegins<W>(
    rn: Runner<W>, name: string, list: seq<Json>, k: nat, body: seq<Spec>, st: State<W>)
    returns (next: seq<Moment<W>>)
    ensures
      if next == [] then RunLoop(rn, name, list, k, body, st) == st
      else |next| == 1 && next[0].st == st && LoopReaches(rn, name, list, k, body, st, next[0])
    decreases |list| - k
  {
    next := [];
    if k < |list| && st.status == Passed {
      var own := [Binding(name, list[k], k)];
      if body == [] {
        next := LoopBegins(rn, name, list, k + 1, body, st);
      } else {
        next := [Moment(body[0], own, st)];
        assert BodyReaches(rn, body, own, st, next[0]);
      }
    }
  }

  /** Every step a run reaches has its effect, and the run goes on from it or ends with it. */
  lemma EveryStepCounts<W>(rn: Runner<W>, steps: seq<Spec>, start: State<W>, m: Moment<W>)
    returns (next: seq<Moment<W>>)
    requires BodyReaches(rn, steps, [], start, m)
    ensures GoesOn(rn, m, next, RunBody(rn, steps, [], start)) && Shows(rn, m, RunBody(rn, steps, [], start))
    ensures next != [] ==> BodyReaches(rn, steps, [], start, next[0])
  {
    next := BodyGoesOn(rn, steps, [], start, m);
  }

  // ------------------------------------------------- what the result shows of them

  /** Each record of a run is that of a step it reached. */
  lemma RecordHasStep<W>(rn: Runner<W>, steps: seq<Spec>, start: State<W>, i: nat) returns (m: Moment<W>)
    requires start.status == Passed && |start.steps| <= i < |RunBody(rn, steps, [], start).steps|
    ensures BodyReaches(rn, steps, [], start, m) && |m.st.steps| == i
  {
    m := Moment(steps[0], [], start);
    while |m.st.steps| < i
      invariant BodyReaches(rn, steps, [], start, m) && |m.st.steps| <= i
      decreases i - |m.st.steps|
    {
      var next := EveryStepCounts(rn, steps, start, m);
      m := next[0];
    }
  }

  /**
   A loop that is reached and not cancelled records a pass exactly when its reference resolves to a
   non-empty list. Otherwise the run ends as failed with the loop's own record, and nothing of its body runs.
   */
  lemma {:induction false} LoopRecorded<W>(
    rn: Runner<W>, steps: seq<Spec>, start: State<W>, variable: string, items: Json,
                        body: seq<Spec>, own: seq<Binding>, at: State<W>)
    requires BodyReaches(rn, steps, [], start, Moment(ForEach(variable, items, body), own, at))
    requires !rn.cancelled(at.world).0
    ensures
      var list := rn.resolve(items, at.context + Variables(own));
      var name := if variable == "" then "item" else variable;
      var t := RunBody(rn, steps, [], start);
      if list.Arr? && list.items != []
      then at.steps + [LoopStep(name, items, Passed)] <= t.steps
      else t.status == Failed && t.steps == at.steps + [LoopStep(name, items, Failed)]
  {
    var next := EveryStepCounts(rn, steps, start, Moment(ForEach(variable, items, body), own, at));
  }

  /** Any other step is recorded with what it did, and the run ends with it unless it passed. */
  lemma {:induction false} VerbRecorded<W>(
    rn: Runner<W>, steps: seq<Spec>, start: State<W>, verb: string, args: Json, own: seq<Binding>, at: State<W>)
    requires BodyReaches(rn, steps, [], start, Moment(Verb(verb, args), own, at)) && !rn.cancelled(at.world).0
    ensures
      var spec := Verb(verb, args);
      var o := rn.timedStep(spec, at.context + Variables(own), rn.cancelled(at.world).1);
      var interrupted := o.status == Failed && rn.cancelled(o.world).0;
      var t := RunBody(rn, steps, [], start);
      && at.steps + [RunStep(spec, own, if interrupted then Skipped else o.status, interrupted)] <= t.steps
      && (o.status != Passed ==>
           && |t.steps| == |at.steps| + 1 && t.status == (if interrupted then Skipped else o.status)
           && t.reason ==
             if interrupted then NotRun else if o.status == Skipped then PreconditionNotMet else at.reason)
  {
    var next := EveryStepCounts(rn, steps, start, Moment(Verb(verb, args), own, at));
  }

  /** A run that is cancelled before a step says so and ends as not run. */
  lemma {:induction false} CancellationRecorded<W>(rn: Runner<W>, steps: seq<Spec>, start: State<W>, m: Moment<W>)
    requires BodyReaches(rn, steps, [], start, m) && rn.cancelled(m.st.world).0
    ensures
      var t := RunBody(rn, steps, [], start);
      t.steps == m.st.steps + [CancelledStep] && t.status == Skipped && t.reason == NotRun
  {
    var next := EveryStepCounts(rn, steps, start, m);
  }
}
