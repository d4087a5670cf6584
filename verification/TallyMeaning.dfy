/**
 internal/testrun/checks.go, conformanceTracker and heartbeatMonitor: what the totals and the times say
 about the frames they were taken from.
 */
module TallyMeaning {
  import opened Options
  import opened Trace
  import opened Polling

  // ------------------------------------------------- frames

  predicate Erroneous(e: Entry) {
    exists f :: f in e.frame.findings && f.severity == Error
  }

  function ErrorFrames(entries: seq<Entry>): nat {
    if entries == [] then 0
    else ErrorFrames(entries[..|entries| - 1]) + if Erroneous(entries[|entries| - 1]) then 1 else 0
  }

  /** The frames with findings none of which is an error. */
  function WarnedFrames(entries: seq<Entry>): nat {
    if entries == [] then 0
    else
      var e := entries[|entries| - 1];
      WarnedFrames(entries[..|entries| - 1]) + if |e.frame.findings| > 0 && !Erroneous(e) then 1 else 0
  }

  /** Every frame is counted, as erroneous exactly with an error among its findings, as warned with others only. */
  lemma {:induction false} FramesCounted(entries: seq<Entry>)
    ensures
      var t := TallyOf(entries);
      t.frames == |entries| && t.errorFrames == ErrorFrames(entries) && t.warningFrames == WarnedFrames(entries)
  {
    if entries != [] {
      FramesCounted(entries[..|entries| - 1]);
      var findings := entries[|entries| - 1].frame.findings;
      assert forall i | 0 <= i < |findings| :: findings[i] in findings;
    }
  }

  // ------------------------------------------------- rules

  /** The finding that broke a rule first, and the number of its frame. */
  datatype Hit = Hit(number: nat, finding: Finding)

  function FirstIn(number: nat, findings: seq<Finding>, rule: string): Option<Hit> {
    if findings == [] then None
    else if findings[0].rule == rule then Some(Hit(number, findings[0]))
    else FirstIn(number, findings[1..], rule)
  }

  function FirstHit(entries: seq<Entry>, rule: string): Option<Hit> {
    if entries == [] then None
    else
      var here := FirstIn(entries[0].number, entries[0].frame.findings, rule);
      if here.Some? then here else FirstHit(entries[1..], rule)
  }

  lemma {:induction false} FirstInSnoc(number: nat, findings: seq<Finding>, f: Finding, rule: string)
    ensures
      var here := FirstIn(number, findings, rule);
      FirstIn(number, findings + [f], rule) ==
      if here.Some? then here else if f.rule == rule then Some(Hit(number, f)) else None
  {
    if findings != [] {
      assert (findings + [f])[1..] == findings[1..] + [f];
      FirstInSnoc(number, findings[1..], f, rule);
    }
  }

  lemma {:induction false} FirstHitSnoc(entries: seq<Entry>, e: Entry, rule: string)
    ensures
      FirstHit(entries + [e], rule) ==
      if FirstHit(entries, rule).Some? then FirstHit(entries, rule)
      else FirstIn(e.number, e.frame.findings, rule)
  {
    if entries == [] {
      assert [e][1..] == [];
    } else {
      assert (entries + [e])[1..] == entries[1..] + [e];
      FirstHitSnoc(entries[1..], e, rule);
    }
  }

  /** What is kept of a rule besides its count. */
  ghost predicate StemsFrom(rules: map<string, RuleCount>, rule: string, first: Option<Hit>) {
    match first
    case None => rule !in rules
    case Some(Hit(number, f)) =>
      && rule in rules
      && rules[rule].severity == f.severity && rules[rule].specRef == f.specRef
      && rules[rule].example == f.message && rules[rule].firstSeq == number
  }

  lemma {:induction false} FindingsKeepFirst(
    rules: map<string, RuleCount>, number: nat, findings: seq<Finding>, rule: string, first: Option<Hit>)
    requires StemsFrom(rules, rule, first)
    ensures
      StemsFrom(CountFindings(rules, number, findings), rule,
                if first.Some? then first else FirstIn(number, findings, rule))
  {
    if findings != [] {
      var n := |findings| - 1;
      FindingsKeepFirst(rules, number, findings[..n], rule, first);
      FirstInSnoc(number, findings[..n], findings[n], rule);
      assert findings == findings[..n] + [findings[n]];
    }
  }

  /** A rule is listed exactly if it was broken, with what the finding said that broke it first. */
  lemma {:induction false} RuleStemsFromFirst(entries: seq<Entry>, rule: string)
    ensures StemsFrom(TallyOf(entries).rules, rule, FirstHit(entries, rule))
  {
    if entries != [] {
      var n := |entries| - 1;
      RuleStemsFromFirst(entries[..n], rule);
      FindingsKeepFirst(TallyOf(entries[..n]).rules, entries[n].number, entries[n].frame.findings, rule,
                        FirstHit(entries[..n], rule));
      FirstHitSnoc(entries[..n], entries[n], rule);
      assert entries == entries[..n] + [entries[n]];
    }
  }

  // ------------------------------------------------- heartbeats

  /** The times of the heartbeats the device sent of its own or as an answer. */
  function TimesOf(entries: seq<Entry>): seq<real> {
    if entries == [] then []
    else
      var f := entries[0].frame;
      (if f.func == "deviceDiagnosisHeartbeatData" && f.classifier in {"notify", "reply"} then [f.ts] else [])
      + TimesOf(entries[1..])
  }

  lemma {:induction false} TimesOfConcat(a: seq<Entry>, b: seq<Entry>)
    ensures TimesOf(a + b) == TimesOf(a) + TimesOf(b)
  {
    if a == [] {
      assert a + b == b;
    } else {
      assert (a + b)[1..] == a[1..] + b;
      TimesOfConcat(a[1..], b);
    }
  }

  /** The times kept are those of the heartbeats, in order and none left out. */
  lemma {:induction false} TimesExactly(entries: seq<Entry>)
    ensures HeartbeatTimes(entries) == TimesOf(entries)
  {
    if entries != [] {
      var n := |entries| - 1;
      TimesExactly(entries[..n]);
      TimesOfConcat(entries[..n], [entries[n]]);
      assert entries == entries[..n] + [entries[n]];
      assert [entries[n]][1..] == [];
    }
  }
}
