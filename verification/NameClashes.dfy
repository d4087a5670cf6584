/**
 internal/scenario/scenario.go: the condition on loop names is tight. Whenever a loop takes a name
 from outside the loop around it, there is a run in which a step sees the wrong variable.
 */
module NameClashes {
  import opened Json
  import opened Options
  import opened Scenario
  import opened Scoping

  const FIRST := Str("first")
  const SECOND := Str("second")

  const WRITTEN := Str("written")

  /** What a verb leaves behind: it overwrites the marked key, if there is one. */
  function Marked(mark: Option<string>, context: Context): Context {
    if mark.Some? then context[mark.value := WRITTEN] else context
  }

  /**
   Every list has two items, every verb passes and writes nothing but the mark, and the run is cancelled
   after as many steps as the world says. What the step before which it is cancelled sees is the final context.
   */
  function Stopper(mark: Option<string>): Runner<int> {
    Runner(
      (w: int) => (w <= 0, if w <= 0 then 0 else w - 1),
      (spec: Spec, context: Context, w: int) => Outcome(Passed, Marked(mark, context), w),
      (v: Json, context: Context) => Arr([FIRST, SECOND]))
  }

  function Start(context: Context, steps: seq<StepResult>, world: int): State<int> {
    State(context, Passed, NoReason, steps, world)
  }

  // ------------------------------------------------- how many steps there are

  function Size(body: seq<Spec>): nat
    decreases body, 0
  {
    if body == [] then 0 else SpecSize(body[0]) + Size(body[1..])
  }

  function SpecSize(spec: Spec): nat
    decreases spec, 0
  {
    match spec
    case Verb(_, _) => 1
    case ForEach(_, _, body) => 1 + Size(body) + Size(body)
  }

  function Own(name: string, k: nat): seq<Binding>
    requires k < 2
  {
    [Binding(name, [FIRST, SECOND][k], k)]
  }

  /** A loop is its body, once for each of the two items. */
  lemma {:induction false} TwoRounds(mark: Option<string>, name: string, body: seq<Spec>, st: State<int>)
    ensures
      RunLoop(Stopper(mark), name, [FIRST, SECOND], 0, body, st) ==
      RunBody(Stopper(mark), body, Own(name, 1), RunBody(Stopper(mark), body, Own(name, 0), st))
  {
    var one := RunBody(Stopper(mark), body, Own(name, 0), st);
    var two := RunBody(Stopper(mark), body, Own(name, 1), one);
    assert RunLoop(Stopper(mark), name, [FIRST, SECOND], 2, body, two) == two;
    assert RunLoop(Stopper(mark), name, [FIRST, SECOND], 1, body, one) == two;
  }

  lemma {:induction false} TwoScopedRounds(
    mark: Option<string>, name: string, body: seq<Spec>, scope: Context, st: State<int>)
    ensures
      ScopedLoop(Stopper(mark), name, [FIRST, SECOND], 0, body, scope, st) ==
      ScopedBody(Stopper(mark), body, Own(name, 1), scope + Variables(Own(name, 1)),
                 ScopedBody(Stopper(mark), body, Own(name, 0), scope + Variables(Own(name, 0)), st))
  {
    var one := ScopedBody(Stopper(mark), body, Own(name, 0), scope + Variables(Own(name, 0)), st);
    var two := ScopedBody(Stopper(mark), body, Own(name, 1), scope + Variables(Own(name, 1)), one);
    assert ScopedLoop(Stopper(mark), name, [FIRST, SECOND], 2, body, scope, two) == two;
    assert ScopedLoop(Stopper(mark), name, [FIRST, SECOND], 1, body, scope, one) == two;
  }

  /** The state in which a step starts its work. */
  function Entered(st: State<int>, variables: Context): State<int>
    requires st.world > 0
  {
    st.(context := st.context + variables, world := st.world - 1)
  }

  function InLoop(spec: Spec, st: State<int>): State<int>
    requires spec.ForEach?
  {
    RecordLoop(LoopName(spec.variable), spec.items, true, st)
  }

  /** A step that is not cancelled does what it says. */
  lemma {:induction false} StepRuns(mark: Option<string>, spec: Spec, own: seq<Binding>, st: State<int>)
    requires st.status == Passed && st.world > 0
    ensures
      RunSpec(Stopper(mark), spec, own, st) ==
      match spec
      case Verb(_, _) =>
        var e := Entered(st, Variables(own));
        e.(context := Marked(mark, e.context), steps := e.steps + [RunStep(spec, own, Passed, false)])
      case ForEach(variable, _, body) =>
        RunLoop(Stopper(mark), LoopName(variable), [FIRST, SECOND], 0, body, InLoop(spec, Entered(st, Variables(own))))
  {
  }

  lemma {:induction false} ScopedStepRuns(
    mark: Option<string>, spec: Spec, own: seq<Binding>, scope: Context, st: State<int>)
    requires st.status == Passed && st.world > 0
    ensures
      ScopedSpec(Stopper(mark), spec, own, scope, st) ==
      match spec
      case Verb(_, _) =>
        var e := Entered(st, scope);
        e.(context := Marked(mark, e.context), steps := e.steps + [RunStep(spec, own, Passed, false)])
      case ForEach(variable, _, body) =>
        ScopedLoop(Stopper(mark), LoopName(variable), [FIRST, SECOND], 0, body, scope, InLoop(spec, Entered(st, scope)))
  {
  }

  // ------------------------------------------------- running through

  /** The steps of st were all taken: t has passed and used up so many. */
  predicate Through(st: State<int>, t: State<int>, size: nat) {
    t.status == Passed && t.world == st.world - size
  }

  lemma {:induction false} BodyThrough(mark: Option<string>, body: seq<Spec>, own: seq<Binding>, st: State<int>)
    requires st.status == Passed && st.world >= Size(body)
    ensures Through(st, RunBody(Stopper(mark), body, own, st), Size(body))
    decreases body, 1
  {
    if body != [] {
      SpecThrough(mark, body[0], own, st);
      BodyThrough(mark, body[1..], own, RunSpec(Stopper(mark), body[0], own, st));
    }
  }

  lemma {:induction false} SpecThrough(mark: Option<string>, spec: Spec, own: seq<Binding>, st: State<int>)
    requires st.status == Passed && st.world >= SpecSize(spec)
    ensures Through(st, RunSpec(Stopper(mark), spec, own, st), SpecSize(spec))
    decreases spec, 0
  {
    StepRuns(mark, spec, own, st);
    if spec.ForEach? {
      var name, inner := LoopName(spec.variable), InLoop(spec, Entered(st, Variables(own)));
      BodyThrough(mark, spec.body, Own(name, 0), inner);
      BodyThrough(mark, spec.body, Own(name, 1), RunBody(Stopper(mark), spec.body, Own(name, 0), inner));
      TwoRounds(mark, name, spec.body, inner);
    }
  }

  lemma {:induction false} ScopedThrough(
    mark: Option<string>, body: seq<Spec>, own: seq<Binding>, scope: Context, st: State<int>)
    requires st.status == Passed && st.world >= Size(body)
    ensures Through(st, ScopedBody(Stopper(mark), body, own, scope, st), Size(body))
    decreases body, 1
  {
    if body != [] {
      ScopedSpecThrough(mark, body[0], own, scope, st);
      ScopedThrough(mark, body[1..], own, scope, ScopedSpec(Stopper(mark), body[0], own, scope, st));
    }
  }

  lemma {:induction false} ScopedSpecThrough(
    mark: Option<string>, spec: Spec, own: seq<Binding>, scope: Context, st: State<int>)
    requires st.status == Passed && st.world >= SpecSize(spec)
    ensures Through(st, ScopedSpec(Stopper(mark), spec, own, scope, st), SpecSize(spec))
    decreases spec, 0
  {
    ScopedStepRuns(mark, spec, own, scope, st);
    if spec.ForEach? {
      var name, inner := LoopName(spec.variable), InLoop(spec, Entered(st, scope));
      var first, second := scope + Variables(Own(name, 0)), scope + Variables(Own(name, 1));
      ScopedThrough(mark, spec.body, Own(name, 0), first, inner);
      ScopedThrough(mark, spec.body, Own(name, 1), second,
        ScopedBody(Stopper(mark), spec.body, Own(name, 0), first, inner));
      TwoScopedRounds(mark, name, spec.body, scope, inner);
    }
  }

  // ------------------------------------------------- stopping before a step

  /** What the run has come to before the i-th step of a body. */
  lemma {:induction false} StopsAt(mark: Option<string>, body: seq<Spec>, i: nat, own: seq<Binding>, st: State<int>)
    requires i < |body| && st.status == Passed && st.world == Size(body[..i])
    ensures
      var before := RunBody(Stopper(mark), body[..i], own, st);
      RunBody(Stopper(mark), body, own, st) == RecordCancelled(before.(context := before.context + Variables(own)))
    decreases i
  {
    if i == 0 {
      assert body[..0] == [];
      var stopped := RecordCancelled(st.(context := st.context + Variables(own)));
      assert RunSpec(Stopper(mark), body[0], own, st) == stopped;
      assert RunBody(Stopper(mark), body[1..], own, stopped) == stopped;
    } else {
      assert body[..i][0] == body[0] && body[..i][1..] == body[1..][..i - 1];
      SpecThrough(mark, body[0], own, st);
      StopsAt(mark, body[1..], i - 1, own, RunSpec(Stopper(mark), body[0], own, st));
    }
  }

  lemma {:induction false} ScopedStopsAt(
    mark: Option<string>, body: seq<Spec>, i: nat, own: seq<Binding>, scope: Context, st: State<int>)
    requires i < |body| && st.status == Passed && st.world == Size(body[..i])
    ensures
      var before := ScopedBody(Stopper(mark), body[..i], own, scope, st);
      ScopedBody(Stopper(mark), body, own, scope, st) == RecordCancelled(before.(context := before.context + scope))
    decreases i
  {
    if i == 0 {
      assert body[..0] == [];
      var stopped := RecordCancelled(st.(context := st.context + scope));
      assert ScopedSpec(Stopper(mark), body[0], own, scope, st) == stopped;
      assert ScopedBody(Stopper(mark), body[1..], own, scope, stopped) == stopped;
    } else {
      assert body[..i][0] == body[0] && body[..i][1..] == body[1..][..i - 1];
      ScopedSpecThrough(mark, body[0], own, scope, st);
      ScopedStopsAt(mark, body[1..], i - 1, own, scope, ScopedSpec(Stopper(mark), body[0], own, scope, st));
    }
  }

  // ------------------------------------------------- a lost variable stays lost

  /** The value a loop variable has in the second round. */
  predicate Late(context: Context, key: string) {
    key in context && context[key] in {SECOND, Num(1.0)}
  }

  /** The value it has in the first. */
  predicate Early(context: Context, key: string) {
    key in context && context[key] in {FIRST, Num(0.0)}
  }

  lemma RoundVariables(name: string)
    ensures Variables(Own(name, 0)).Keys == LoopKeys(name) == Variables(Own(name, 1)).Keys
    ensures forall key | key in LoopKeys(name) ::
      Early(Variables(Own(name, 0)), key) && Late(Variables(Own(name, 1)), key)
  {
    assert name != name + "_index" by {
      assert |name + "_index"| > |name|;
    }
  }

  lemma {:induction false} BodyLate(body: seq<Spec>, own: seq<Binding>, st: State<int>, key: string)
    requires st.status == Passed && st.world >= Size(body) && Late(st.context + Variables(own), key)
    requires body == [] ==> Late(st.context, key)
    ensures Late(RunBody(Stopper(None), body, own, st).context, key)
    decreases body, 1
  {
    if body != [] {
      SpecThrough(None, body[0], own, st);
      SpecLate(body[0], own, st, key);
      BodyLate(body[1..], own, RunSpec(Stopper(None), body[0], own, st), key);
    }
  }

  lemma {:induction false} SpecLate(spec: Spec, own: seq<Binding>, st: State<int>, key: string)
    requires st.status == Passed && st.world >= SpecSize(spec) && Late(st.context + Variables(own), key)
    ensures Late(RunSpec(Stopper(None), spec, own, st).context, key)
    decreases spec, 0
  {
    StepRuns(None, spec, own, st);
    if spec.ForEach? {
      var name, inner := LoopName(spec.variable), InLoop(spec, Entered(st, Variables(own)));
      var one := RunBody(Stopper(None), spec.body, Own(name, 0), inner);
      RoundVariables(name);
      BodyThrough(None, spec.body, Own(name, 0), inner);
      TwoRounds(None, name, spec.body, inner);
      if key !in LoopKeys(name) || spec.body == [] {
        if spec.body != [] {
          BodyLate(spec.body, Own(name, 0), inner, key);
        }
        assert Late(one.context, key);
      }
      BodyLate(spec.body, Own(name, 1), one, key);
    }
  }

  /** A loop that takes the name leaves its last value there. */
  lemma {:induction false} LoopTakesName(spec: Spec, own: seq<Binding>, st: State<int>, key: string)
    requires spec.ForEach? && spec.body != [] && key in LoopKeys(LoopName(spec.variable))
    requires st.status == Passed && st.world >= SpecSize(spec)
    ensures Late(RunSpec(Stopper(None), spec, own, st).context, key)
  {
    var name, inner := LoopName(spec.variable), InLoop(spec, Entered(st, Variables(own)));
    var one := RunBody(Stopper(None), spec.body, Own(name, 0), inner);
    StepRuns(None, spec, own, st);
    RoundVariables(name);
    BodyThrough(None, spec.body, Own(name, 0), inner);
    TwoRounds(None, name, spec.body, inner);
    BodyLate(spec.body, Own(name, 1), one, key);
  }

  /** The i-th step of the body is a loop that takes this name. */
  predicate Takes(body: seq<Spec>, i: nat, key: string) {
    i < |body| && body[i].ForEach? && body[i].body != [] && key in LoopKeys(LoopName(body[i].variable))
  }

  lemma {:induction false} BodyTakesName(body: seq<Spec>, i: nat, own: seq<Binding>, st: State<int>, key: string)
    requires Takes(body, i, key) && key !in Variables(own)
    requires st.status == Passed && st.world >= Size(body)
    ensures Late(RunBody(Stopper(None), body, own, st).context, key)
    decreases i
  {
    var next := RunSpec(Stopper(None), body[0], own, st);
    SpecThrough(None, body[0], own, st);
    if i == 0 {
      LoopTakesName(body[0], own, st, key);
      BodyLate(body[1..], own, next, key);
    } else {
      BodyTakesName(body[1..], i - 1, own, next, key);
    }
  }

  // ------------------------------------------------- a step that sees it

  predicate AllEarly(scope: Context) {
    forall key | key in scope :: Early(scope, key)
  }

  /** The run ended before a step that sees a value under the key other than the one its scope has. */
  predicate Wrong(run: State<int>, scoped: State<int>, key: string) {
    && run.status != Passed && scoped.status != Passed
    && key in run.context && key in scoped.context && run.context[key] != scoped.context[key]
  }

  /** In its second round the loop reaches the taker of the name again, with the value it left there. */
  lemma {:induction false} SecondRound(
    name: string, body: seq<Spec>, i: nat, key: string, scope: Context, run: State<int>, scoped: State<int>)
    requires Takes(body, i, key) && key !in LoopKeys(name) && Early(scope, key)
    requires run.status == scoped.status == Passed && run.world == scoped.world == Size(body) + Size(body[..i])
    ensures
      Wrong(RunLoop(Stopper(None), name, [FIRST, SECOND], 0, body, run),
            ScopedLoop(Stopper(None), name, [FIRST, SECOND], 0, body, scope, scoped), key)
  {
    RoundVariables(name);
    TwoRounds(None, name, body, run);
    var one := RunBody(Stopper(None), body, Own(name, 0), run);
    BodyThrough(None, body, Own(name, 0), run);
    BodyTakesName(body, i, Own(name, 0), run, key);
    BodyLate(body[..i], Own(name, 1), one, key);
    StopsAt(None, body, i, Own(name, 1), one);
    TwoScopedRounds(None, name, body, scope, scoped);
    ScopedThrough(None, body, Own(name, 0), scope + Variables(Own(name, 0)), scoped);
    ScopedStopsAt(None, body, i, Own(name, 1), scope + Variables(Own(name, 1)),
                  ScopedBody(Stopper(None), body, Own(name, 0), scope + Variables(Own(name, 0)), scoped));
  }

  // ------------------------------------------------- a verb that writes a variable

  predicate IsMarked(context: Context, key: string) {
    key in context && context[key] == WRITTEN
  }

  /** Loops that keep their names apart do not set the marked key, so what a verb wrote stays. */
  lemma {:induction false} BodyKeepsMark(
    body: seq<Spec>, own: seq<Binding>, outer: set<string>, key: string, st: State<int>)
    requires NamesKept(body, outer, Variables(own).Keys, {}) && key in outer && key !in Variables(own)
    requires st.status == Passed && st.world >= Size(body) && IsMarked(st.context, key)
    ensures IsMarked(RunBody(Stopper(Some(key)), body, own, st).context, key)
    decreases body, 1
  {
    if body != [] {
      SpecThrough(Some(key), body[0], own, st);
      SpecKeepsMark(body[0], own, outer, key, st);
      BodyKeepsMark(body[1..], own, outer, key, RunSpec(Stopper(Some(key)), body[0], own, st));
    }
  }

  lemma {:induction false} SpecKeepsMark(
    spec: Spec, own: seq<Binding>, outer: set<string>, key: string, st: State<int>)
    requires SpecNamesKept(spec, outer, Variables(own).Keys, {}) && key in outer && key !in Variables(own)
    requires st.status == Passed && st.world >= SpecSize(spec) && (spec.Verb? || IsMarked(st.context, key))
    ensures IsMarked(RunSpec(Stopper(Some(key)), spec, own, st).context, key)
    decreases spec, 0
  {
    StepRuns(Some(key), spec, own, st);
    if spec.ForEach? {
      var name, inner := LoopName(spec.variable), InLoop(spec, Entered(st, Variables(own)));
      RoundVariables(name);
      TwoRounds(Some(key), name, spec.body, inner);
      if spec.body != [] {
        var all := outer + Variables(own).Keys;
        BodyThrough(Some(key), spec.body, Own(name, 0), inner);
        BodyKeepsMark(spec.body, Own(name, 0), all, key, inner);
        BodyKeepsMark(spec.body, Own(name, 1), all, key, RunBody(Stopper(Some(key)), spec.body, Own(name, 0), inner));
      }
    }
  }

  /** So a body with a verb leaves the key marked. */
  lemma {:induction false} BodyMarks(
    body: seq<Spec>, i: nat, own: seq<Binding>, outer: set<string>, key: string, st: State<int>)
    requires i < |body| && body[i].Verb?
    requires NamesKept(body, outer, Variables(own).Keys, {}) && key in outer && key !in Variables(own)
    requires st.status == Passed && st.world >= Size(body)
    ensures IsMarked(RunBody(Stopper(Some(key)), body, own, st).context, key)
    decreases i
  {
    var next := RunSpec(Stopper(Some(key)), body[0], own, st);
    SpecThrough(Some(key), body[0], own, st);
    if i == 0 {
      SpecKeepsMark(body[0], own, outer, key, st);
      BodyKeepsMark(body[1..], own, outer, key, next);
    } else {
      BodyMarks(body[1..], i - 1, own, outer, key, next);
    }
  }

  /** In the second round of a loop with a verb, the first step sees what the verb wrote. */
  lemma {:induction false} MarkedRound(
    name: string, body: seq<Spec>, key: string, scope: Context, run: State<int>, scoped: State<int>)
    requires HasVerb(body) && NamesKept(body, scope.Keys, LoopKeys(name), {})
    requires key !in LoopKeys(name) && Early(scope, key)
    requires run.status == scoped.status == Passed && run.world == scoped.world == Size(body)
    ensures
      Wrong(RunLoop(Stopper(Some(key)), name, [FIRST, SECOND], 0, body, run),
            ScopedLoop(Stopper(Some(key)), name, [FIRST, SECOND], 0, body, scope, scoped), key)
  {
    var i :| 0 <= i < |body| && body[i].Verb?;
    var mark := Some(key);
    RoundVariables(name);
    assert body[..0] == [];
    TwoRounds(mark, name, body, run);
    BodyThrough(mark, body, Own(name, 0), run);
    BodyMarks(body, i, Own(name, 0), scope.Keys, key, run);
    StopsAt(mark, body, 0, Own(name, 1), RunBody(Stopper(mark), body, Own(name, 0), run));
    TwoScopedRounds(mark, name, body, scope, scoped);
    ScopedThrough(mark, body, Own(name, 0), scope + Variables(Own(name, 0)), scoped);
    ScopedStopsAt(mark, body, 0, Own(name, 1), scope + Variables(Own(name, 1)),
                  ScopedBody(Stopper(mark), body, Own(name, 0), scope + Variables(Own(name, 0)), scoped));
  }

  // ------------------------------------------------- inside other loops

  /** A body ends with the step that does not pass. */
  lemma {:induction false} EndsIn(mark: Option<string>, body: seq<Spec>, j: nat, own: seq<Binding>, st: State<int>)
    requires j < |body| && st.status == Passed && st.world >= Size(body[..j])
    ensures
      var before := RunBody(Stopper(mark), body[..j], own, st);
      var last := RunSpec(Stopper(mark), body[j], own, before);
      && Through(st, before, Size(body[..j]))
      && (last.status != Passed ==> RunBody(Stopper(mark), body, own, st) == last)
    decreases j
  {
    if j == 0 {
      assert body[..0] == [];
      var last := RunSpec(Stopper(mark), body[0], own, st);
      assert last.status != Passed ==> RunBody(Stopper(mark), body[1..], own, last) == last;
    } else {
      assert body[..j][0] == body[0] && body[..j][1..] == body[1..][..j - 1];
      SpecThrough(mark, body[0], own, st);
      EndsIn(mark, body[1..], j - 1, own, RunSpec(Stopper(mark), body[0], own, st));
    }
  }

  lemma {:induction false} ScopedEndsIn(
    mark: Option<string>, body: seq<Spec>, j: nat, own: seq<Binding>, scope: Context, st: State<int>)
    requires j < |body| && st.status == Passed && st.world >= Size(body[..j])
    ensures
      var before := ScopedBody(Stopper(mark), body[..j], own, scope, st);
      var last := ScopedSpec(Stopper(mark), body[j], own, scope, before);
      && Through(st, before, Size(body[..j]))
      && (last.status != Passed ==> ScopedBody(Stopper(mark), body, own, scope, st) == last)
    decreases j
  {
    if j == 0 {
      assert body[..0] == [];
      var last := ScopedSpec(Stopper(mark), body[0], own, scope, st);
      assert last.status != Passed ==> ScopedBody(Stopper(mark), body[1..], own, scope, last) == last;
    } else {
      assert body[..j][0] == body[0] && body[..j][1..] == body[1..][..j - 1];
      ScopedSpecThrough(mark, body[0], own, scope, st);
      ScopedEndsIn(mark, body[1..], j - 1, own, scope, ScopedSpec(Stopper(mark), body[0], own, scope, st));
    }
  }

  /** After so many steps inside the loop, however it was reached, a step sees the wrong variable. */
  ghost predicate LeaksAfter(mark: Option<string>, name: string, body: seq<Spec>, scope: Context, n: nat, key: string) {
    forall run: State<int>, scoped: State<int>
      | run.status == scoped.status == Passed && run.world == scoped.world == n ::
      Wrong(RunLoop(Stopper(mark), name, [FIRST, SECOND], 0, body, run),
            ScopedLoop(Stopper(mark), name, [FIRST, SECOND], 0, body, scope, scoped), key)
  }

  /** A leak inside a loop of a body is a leak of the body. */
  lemma {:induction false} BodyLeaks(
    mark: Option<string>, body: seq<Spec>, j: nat, own: seq<Binding>, scope: Context, n: nat, key: string,
    run: State<int>, scoped: State<int>)
    requires j < |body| && body[j].ForEach? && LeaksAfter(mark, LoopName(body[j].variable), body[j].body, scope, n, key)
    requires run.status == scoped.status == Passed && run.world == scoped.world == Size(body[..j]) + 1 + n
    ensures Wrong(RunBody(Stopper(mark), body, own, run), ScopedBody(Stopper(mark), body, own, scope, scoped), key)
  {
    var spec := body[j];
    EndsIn(mark, body, j, own, run);
    ScopedEndsIn(mark, body, j, own, scope, scoped);
    var before := RunBody(Stopper(mark), body[..j], own, run);
    var scopedBefore := ScopedBody(Stopper(mark), body[..j], own, scope, scoped);
    StepRuns(mark, spec, own, before);
    ScopedStepRuns(mark, spec, own, scope, scopedBefore);
    var inner, scopedInner := InLoop(spec, Entered(before, Variables(own))), InLoop(spec, Entered(scopedBefore, scope));
    assert Wrong(RunLoop(Stopper(mark), LoopName(spec.variable), [FIRST, SECOND], 0, spec.body, inner),
                 ScopedLoop(Stopper(mark), LoopName(spec.variable), [FIRST, SECOND], 0, spec.body, scope, scopedInner),
                 key);
  }

  /** A leak in the first round of a loop ends it. */
  lemma {:induction false} FirstRound(
    mark: Option<string>, name: string, body: seq<Spec>, j: nat, scope: Context, n: nat, key: string,
    run: State<int>, scoped: State<int>)
    requires j < |body| && body[j].ForEach?
    requires LeaksAfter(mark, LoopName(body[j].variable), body[j].body, scope + Variables(Own(name, 0)), n, key)
    requires run.status == scoped.status == Passed && run.world == scoped.world == Size(body[..j]) + 1 + n
    ensures
      Wrong(RunLoop(Stopper(mark), name, [FIRST, SECOND], 0, body, run),
            ScopedLoop(Stopper(mark), name, [FIRST, SECOND], 0, body, scope, scoped), key)
  {
    BodyLeaks(mark, body, j, Own(name, 0), scope + Variables(Own(name, 0)), n, key, run, scoped);
    TwoRounds(mark, name, body, run);
    TwoScopedRounds(mark, name, body, scope, scoped);
  }

  lemma {:induction false} LoopLeaks(name: string, body: seq<Spec>, scope: Context) returns (n: nat, key: string)
    requires AllEarly(scope) && !NamesKept(body, scope.Keys, LoopKeys(name), {})
    ensures LeaksAfter(None, name, body, scope, n, key)
    decreases body
  {
    var j :| 0 <= j < |body| && !SpecNamesKept(body[j], scope.Keys, LoopKeys(name), {});
    var keys := LoopKeys(LoopName(body[j].variable));
    if keys !! (scope.Keys - LoopKeys(name)) {
      var inner := scope + Variables(Own(name, 0));
      RoundVariables(name);
      assert inner.Keys == scope.Keys + LoopKeys(name);
      var m;
      m, key := LoopLeaks(LoopName(body[j].variable), body[j].body, inner);
      n := Size(body[..j]) + 1 + m;
      forall run: State<int>, scoped: State<int>
        | run.status == scoped.status == Passed && run.world == scoped.world == n
        ensures Wrong(RunLoop(Stopper(None), name, [FIRST, SECOND], 0, body, run),
                      ScopedLoop(Stopper(None), name, [FIRST, SECOND], 0, body, scope, scoped), key)
      {
        FirstRound(None, name, body, j, scope, m, key, run, scoped);
      }
    } else {
      key :| key in keys && key in scope.Keys - LoopKeys(name);
      n := Size(body) + Size(body[..j]);
      forall run: State<int>, scoped: State<int>
        | run.status == scoped.status == Passed && run.world == scoped.world == n
        ensures Wrong(RunLoop(Stopper(None), name, [FIRST, SECOND], 0, body, run),
                      ScopedLoop(Stopper(None), name, [FIRST, SECOND], 0, body, scope, scoped), key)
      {
        SecondRound(name, body, j, key, scope, run, scoped);
      }
    }
  }

  /** Likewise for a loop whose names are kept apart but one of which a verb overwrites. */
  lemma {:induction false} LoopMarks(name: string, body: seq<Spec>, scope: Context, reserved: set<string>)
    returns (n: nat, key: string)
    requires AllEarly(scope) && NamesKept(body, scope.Keys, LoopKeys(name), {})
    requires !NamesKept(body, scope.Keys, LoopKeys(name), reserved)
    ensures key in reserved && LeaksAfter(Some(key), name, body, scope, n, key)
    decreases body
  {
    var j :| 0 <= j < |body| && !SpecNamesKept(body[j], scope.Keys, LoopKeys(name), reserved);
    assert SpecNamesKept(body[j], scope.Keys, LoopKeys(name), {});
    var inner := scope + Variables(Own(name, 0));
    RoundVariables(name);
    assert inner.Keys == scope.Keys + LoopKeys(name);
    var m;
    m, key := SpecMarks(body[j], inner, reserved, scope.Keys, LoopKeys(name));
    n := Size(body[..j]) + 1 + m;
    forall run: State<int>, scoped: State<int>
      | run.status == scoped.status == Passed && run.world == scoped.world == n
      ensures Wrong(RunLoop(Stopper(Some(key)), name, [FIRST, SECOND], 0, body, run),
                    ScopedLoop(Stopper(Some(key)), name, [FIRST, SECOND], 0, body, scope, scoped), key)
    {
      FirstRound(Some(key), name, body, j, scope, m, key, run, scoped);
    }
  }

  /** Either this loop has a verb that overwrites a name from outside it, or one of the loops inside has. */
  lemma {:induction false} SpecMarks(
    spec: Spec, scope: Context, reserved: set<string>, outer: set<string>, own: set<string>)
    returns (n: nat, key: string)
    requires AllEarly(scope) && scope.Keys == outer + own
    requires SpecNamesKept(spec, outer, own, {}) && !SpecNamesKept(spec, outer, own, reserved)
    ensures spec.ForEach? && key in reserved
    ensures LeaksAfter(Some(key), LoopName(spec.variable), spec.body, scope, n, key)
    decreases spec
  {
    var name := LoopName(spec.variable);
    if HasVerb(spec.body) && !((scope.Keys - LoopKeys(name)) !! reserved) {
      key :| key in scope.Keys - LoopKeys(name) && key in reserved;
      n := Size(spec.body);
      forall run: State<int>, scoped: State<int>
        | run.status == scoped.status == Passed && run.world == scoped.world == n
        ensures Wrong(RunLoop(Stopper(Some(key)), name, [FIRST, SECOND], 0, spec.body, run),
                      ScopedLoop(Stopper(Some(key)), name, [FIRST, SECOND], 0, spec.body, scope, scoped), key)
      {
        MarkedRound(name, spec.body, key, scope, run, scoped);
      }
    } else {
      n, key := LoopMarks(name, spec.body, scope, reserved);
    }
  }

  /** The verbs of a run write reserved keys only. */
  predicate MarksOnly(mark: Option<string>, reserved: set<string>) {
    mark.Some? ==> mark.value in reserved
  }

  /**
   For every nest that breaks the condition, some run whose verbs write reserved keys only has a step that
   sees the wrong variable.
   */
  lemma ClashLeaks(steps: seq<Spec>, reserved: set<string>) returns (mark: Option<string>, n: nat, key: string)
    requires !NamesKept(steps, {}, {}, reserved)
    ensures MarksOnly(mark, reserved)
    ensures
      Wrong(RunBody(Stopper(mark), steps, [], Start(map[], [], n)),
            ScopedBody(Stopper(mark), steps, [], map[], Start(map[], [], n)), key)
  {
    var none: Context := map[];
    var empty: set<string> := {};
    assert none.Keys == empty == empty + empty == empty - empty;
    var j :| 0 <= j < |steps| && !SpecNamesKept(steps[j], {}, {}, reserved);
    var m;
    if SpecNamesKept(steps[j], {}, {}, {}) {
      m, key := SpecMarks(steps[j], none, reserved, {}, {});
      mark := Some(key);
    } else {
      m, key := LoopLeaks(LoopName(steps[j].variable), steps[j].body, none);
      mark := None;
    }
    n := Size(steps[..j]) + 1 + m;
    BodyLeaks(mark, steps, j, [], none, m, key, Start(map[], [], n), Start(map[], [], n));
  }

  /**
   The condition on names is exact: with it no run differs from the scoped reading, without it one does in
   which every verb writes one reserved key at most.
   */
  lemma {:induction false} NamesKeptExactly(steps: seq<Spec>, reserved: set<string>)
    ensures
      NamesKept(steps, {}, {}, reserved) <==>
      forall mark, n: nat | MarksOnly(mark, reserved) ::
        RunBody(Stopper(mark), steps, [], Start(map[], [], n)) ==
          ScopedBody(Stopper(mark), steps, [], map[], Start(map[], [], n))
  {
    if NamesKept(steps, {}, {}, reserved) {
      forall mark, n: nat | MarksOnly(mark, reserved)
        ensures RunBody(Stopper(mark), steps, [], Start(map[], [], n)) ==
          ScopedBody(Stopper(mark), steps, [], map[], Start(map[], [], n))
      {
        StepsSeeAllLoops(Stopper(mark), steps, reserved, Start(map[], [], n));
      }
    } else {
      var mark, n, key := ClashLeaks(steps, reserved);
    }
  }
}
