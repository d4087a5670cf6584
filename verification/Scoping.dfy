/**
 internal/scenario/scenario.go: a queued step carries the variables of its innermost loop only and
 all steps share one context, yet each step is meant to see the variables of every loop around it.
 */
module Scoping {
  import opened Json
  import opened Scenario

  /** The context keys that steps themselves write. */
  const RESERVED := {"peer", "captured", "events_before_step"}

  // ------------------------------------------------- the scoped reading

  /** Before each step the whole scope, the variables of all loops around it, is in force. */
  function ScopedBody<W>(rn: Runner<W>, body: seq<Spec>, own: seq<Binding>, scope: Context, st: State<W>): State<W>
    decreases body, 0, 0
  {
    if body == [] || st.status != Passed then st
    else ScopedBody(rn, body[1..], own, scope, ScopedSpec(rn, body[0], own, scope, st))
  }

  function ScopedSpec<W>(rn: Runner<W>, spec: Spec, own: seq<Binding>, scope: Context, st: State<W>): State<W>
    decreases spec, 0, 0
  {
    if st.status != Passed then st
    else
      var (stopped, w) := rn.cancelled(st.world);
      var entered := st.(context := st.context + scope, world := w);
      if stopped then RecordCancelled(entered)
      else
        match spec
        case Verb(_, _) => PerformVerb(rn, spec, own, entered)
        case ForEach(variable, items, body) =>
          var list := ItemsOf(rn, items, entered.context);
          ScopedLoop(rn, LoopName(variable), list, 0, body, scope,
            RecordLoop(LoopName(variable), items, list != [], entered))
  }

  function ScopedLoop<W>(
    rn: Runner<W>, name: string, list: seq<Json>, k: nat, body: seq<Spec>, scope: Context, st: State<W>): State<W>
    decreases body, 1, |list| - k
  {
    if k >= |list| || st.status != Passed then st
    else
      var own := [Binding(name, list[k], k)];
      ScopedLoop(rn, name, list, k + 1, body, scope, ScopedBody(rn, body, own, scope + Variables(own), st))
  }

  // ------------------------------------------------- when the two agree

  function LoopKeys(name: string): set<string> {
    {name, name + "_index"}
  }

  /** Verbs are what writes the context, loops only set their variables. */
  predicate HasVerb(body: seq<Spec>) {
    exists i :: 0 <= i < |body| && body[i].Verb?
  }

  /**
   No loop takes a name from outside the loop around it, and none of the names from outside a loop that
   has verbs of its own is one of the `reserved` keys that verbs write. Names of the loop directly around
   a step do no harm, because they are set again before each of its steps; nor does a loop without steps.
   `outer` are the names from outside the loop around the body, `own` its own.
   */
  predicate NamesKept(body: seq<Spec>, outer: set<string>, own: set<string>, reserved: set<string>)
    decreases body, 0
  {
    forall i | 0 <= i < |body| :: SpecNamesKept(body[i], outer, own, reserved)
  }

  predicate SpecNamesKept(spec: Spec, outer: set<string>, own: set<string>, reserved: set<string>)
    decreases spec, 0
  {
    match spec
    case Verb(_, _) => true
    case ForEach(variable, _, body) =>
      var keys := LoopKeys(LoopName(variable));
      || body == []
      || (keys !! (outer - own) && (HasVerb(body) ==> (outer + own - keys) !! reserved)
          && NamesKept(body, outer + own, keys, reserved))
  }

  /** A step changes no context key but the reserved ones. */
  ghost predicate WritesOnly<W(!new)>(rn: Runner<W>, reserved: set<string>) {
    forall spec, context, w :: SameOutside(context, rn.timedStep(spec, context, w).context, reserved)
  }

  ghost predicate SameOutside(before: Context, after: Context, reserved: set<string>) {
    forall key | key !in reserved :: (key in before <==> key in after) && (key in before ==> before[key] == after[key])
  }

  /** The context has all these variables. */
  ghost predicate Holds(vars: Context, context: Context) {
    forall key | key in vars :: key in context && context[key] == vars[key]
  }

  /** The variables from outside the innermost loop that its own do not cover. */
  function Uncovered(outer: Context, own: seq<Binding>): Context {
    outer - Variables(own).Keys
  }

  /** Everything a proof step below relies on about the scope outside the innermost loop. */
  ghost predicate Around<W(!new)>(
    rn: Runner<W>, body: seq<Spec>, outer: Context, own: seq<Binding>, reserved: set<string>, st: State<W>) {
    && WritesOnly(rn, reserved)
    && (HasVerb(body) ==> Uncovered(outer, own).Keys !! reserved)
    && Holds(Uncovered(outer, own), st.context)
  }

  lemma EnteredSame(outer: Context, own: seq<Binding>, context: Context)
    requires Holds(Uncovered(outer, own), context)
    ensures context + Variables(own) == context + (outer + Variables(own))
    ensures Holds(outer + Variables(own), context + Variables(own))
  {
    forall key | key in outer && key !in Variables(own) ensures key in context && context[key] == outer[key] {
      assert key in Uncovered(outer, own);
    }
  }

  lemma PerformKeeps<W(!new)>(
    rn: Runner<W>, spec: Spec, own: seq<Binding>, vars: Context, reserved: set<string>, st: State<W>)
    requires WritesOnly(rn, reserved) && vars.Keys !! reserved && Holds(vars, st.context)
    ensures Holds(vars, PerformVerb(rn, spec, own, st).context)
  {
    assert SameOutside(st.context, rn.timedStep(spec, st.context, st.world).context, reserved);
  }

  lemma {:induction false} BodySame<W(!new)>(
    rn: Runner<W>, body: seq<Spec>, own: seq<Binding>, outer: Context, reserved: set<string>, st: State<W>)
    requires Around(rn, body, outer, own, reserved, st) && NamesKept(body, outer.Keys, Variables(own).Keys, reserved)
    ensures RunBody(rn, body, own, st) == ScopedBody(rn, body, own, outer + Variables(own), st)
    ensures Holds(Uncovered(outer, own), RunBody(rn, body, own, st).context)
    decreases body, 0, 0
  {
    if body != [] && st.status == Passed {
      assert HasVerb([body[0]]) ==> [body[0]][0].Verb? && HasVerb(body);
      SpecSame(rn, body[0], own, outer, reserved, st);
      assert forall i | 0 <= i < |body[1..]| :: body[1..][i] == body[i + 1];
      BodySame(rn, body[1..], own, outer, reserved, RunSpec(rn, body[0], own, st));
    }
  }

  lemma {:induction false} SpecSame<W(!new)>(
    rn: Runner<W>, spec: Spec, own: seq<Binding>, outer: Context, reserved: set<string>, st: State<W>)
    requires Around(rn, [spec], outer, own, reserved, st)
    requires SpecNamesKept(spec, outer.Keys, Variables(own).Keys, reserved)
    ensures RunSpec(rn, spec, own, st) == ScopedSpec(rn, spec, own, outer + Variables(own), st)
    ensures Holds(Uncovered(outer, own), RunSpec(rn, spec, own, st).context)
    decreases spec, 0, 0
  {
    if st.status == Passed {
      var scope := outer + Variables(own);
      var (stopped, w) := rn.cancelled(st.world);
      var entered := st.(context := st.context + Variables(own), world := w);
      EnteredSame(outer, own, st.context);
      if !stopped {
        match spec
        case Verb(_, _) =>
          assert [spec][0].Verb?;
          PerformKeeps(rn, spec, own, Uncovered(outer, own), reserved, entered);
        case ForEach(variable, items, body) =>
          var list := ItemsOf(rn, items, entered.context);
          var recorded := RecordLoop(LoopName(variable), items, list != [], entered);
          if body == [] {
            EmptyLoop(rn, LoopName(variable), list, 0, scope, recorded);
          } else {
            LoopSame(rn, LoopName(variable), list, 0, body, scope, reserved, recorded);
          }
      }
    }
  }

  /** A loop without steps sets no variables. */
  lemma {:induction false} EmptyLoop<W>(
    rn: Runner<W>, name: string, list: seq<Json>, k: nat, scope: Context, st: State<W>)
    ensures RunLoop(rn, name, list, k, [], st) == st == ScopedLoop(rn, name, list, k, [], scope, st)
    decreases |list| - k
  {
    if k < |list| && st.status == Passed {
      EmptyLoop(rn, name, list, k + 1, scope, st);
    }
  }

  lemma {:induction false} LoopSame<W(!new)>(
    rn: Runner<W>, name: string, list: seq<Json>, k: nat, body: seq<Spec>, scope: Context, reserved: set<string>,
    st: State<W>)
    requires WritesOnly(rn, reserved) && Holds(scope - LoopKeys(name), st.context)
    requires HasVerb(body) ==> (scope.Keys - LoopKeys(name)) !! reserved
    requires NamesKept(body, scope.Keys, LoopKeys(name), reserved)
    ensures RunLoop(rn, name, list, k, body, st) == ScopedLoop(rn, name, list, k, body, scope, st)
    ensures Holds(scope - LoopKeys(name), RunLoop(rn, name, list, k, body, st).context)
    decreases body, 1, |list| - k
  {
    if k < |list| && st.status == Passed {
      var own := [Binding(name, list[k], k)];
      assert Variables(own).Keys == LoopKeys(name);
      BodySame(rn, body, own, scope, reserved, st);
      LoopSame(rn, name, list, k + 1, body, scope, reserved, RunBody(rn, body, own, st));
    }
  }

  /** With such names every step sees the variables of all loops around it, whatever the steps do. */
  lemma {:induction false} StepsSeeAllLoops<W(!new)>(rn: Runner<W>, steps: seq<Spec>, reserved: set<string>,
    st: State<W>)
    requires WritesOnly(rn, reserved) && NamesKept(steps, {}, {}, reserved)
    ensures RunBody(rn, steps, [], st) == ScopedBody(rn, steps, [], map[], st)
  {
    var none: Context := map[];
    assert none + Variables([]) == none && none.Keys == {} == Variables([]).Keys;
    BodySame(rn, steps, [], none, reserved, st);
  }
}
