/**
 internal/trace/trace.go, Store: the bounded record of every frame on the wire. Raw payloads,
 the log file and the live feed attached to a store are not part of this module.
 */
module Trace {
  import opened Options

  const RING_CAPACITY: nat := 2000

  datatype Severity = Error | Warning

  datatype Finding = Finding(rule: string, severity: Severity, message: string, specRef: string)

  datatype Direction = Send | Recv

  datatype Frame = Frame(ski: string, dir: Direction, ts: real, func: string, classifier: string,
    findings: seq<Finding>)

  datatype Entry = Entry(number: nat, frame: Frame)

  /** The frames with sequence numbers from + 1 to `to` of everything ever recorded. */
  function Numbered(log: seq<Frame>, from: nat, to: nat): seq<Entry>
    requires from <= to <= |log|
  {
    seq(to - from, i requires 0 <= i < to - from => Entry(from + i + 1, log[from + i]))
  }

  /** What a reader asks for: an empty ski or no direction matches every frame. */
  datatype Query = Query(after: nat, ski: string, dir: Option<Direction>, findingsOnly: bool)

  predicate Wanted(q: Query, e: Entry) {
    && e.number > q.after
    && (q.ski == "" || e.frame.ski == q.ski)
    && (q.dir.None? || e.frame.dir == q.dir.value)
    && (!q.findingsOnly || e.frame.findings != [])
  }

  function Select(entries: seq<Entry>, q: Query): seq<Entry> {
    if entries == [] then []
    else
      Select(entries[..|entries| - 1], q)
      + if Wanted(q, entries[|entries| - 1]) then [entries[|entries| - 1]] else []
  }

  function Newest(entries: seq<Entry>, limit: int): seq<Entry> {
    var n := if limit <= 0 || limit > RING_CAPACITY then RING_CAPACITY else limit;
    if |entries| > n then entries[|entries| - n..] else entries
  }

  /** The entries a query asks for, in order. */
  function Matching(entries: seq<Entry>, q: Query): seq<Entry> {
    if entries == [] then []
    else
      var e := entries[0];
      var passed := e.number <= q.after;
      var others := (q.ski != "" && q.ski != e.frame.ski) || (q.dir.Some? && q.dir != Some(e.frame.dir));
      var clean := q.findingsOnly && |e.frame.findings| == 0;
      (if passed || others || clean then [] else [e]) + Matching(entries[1..], q)
  }

  lemma {:induction false} MatchingConcat(a: seq<Entry>, b: seq<Entry>, q: Query)
    ensures Matching(a + b, q) == Matching(a, q) + Matching(b, q)
  {
    if a == [] {
      assert a + b == b;
    } else {
      assert (a + b)[1..] == a[1..] + b;
      MatchingConcat(a[1..], b, q);
    }
  }

  /** A query gives the entries behind its position that are of its peer, its direction and its kind. */
  lemma {:induction false} SelectExactly(entries: seq<Entry>, q: Query)
    ensures Select(entries, q) == Matching(entries, q)
  {
    if entries != [] {
      var n := |entries| - 1;
      SelectExactly(entries[..n], q);
      MatchingConcat(entries[..n], [entries[n]], q);
      assert entries[..n] + [entries[n]] == entries && [entries[n]][1..] == [];
    }
  }

  /** Of those the newest are given, as many as the limit says, or 2000 if it says none or more. */
  lemma NewestExactly(entries: seq<Entry>, limit: int)
    ensures
      var most := if 1 <= limit <= 2000 then limit else 2000;
      var count := if |entries| < most then |entries| else most;
      Newest(entries, limit) == entries[|entries| - count..]
  {
  }

  class Store {
    var ring: seq<Entry>
    var number: nat
    ghost var log: seq<Frame>

    /** The ring is the newest stretch of the log, without a gap and up to its very end. */
    ghost predicate Valid()
      reads this
    {
      && number == |log|
      && |ring| <= RING_CAPACITY && |ring| <= |log|
      && ring == Numbered(log, |log| - |ring|, |log|)
    }

    constructor ()
      ensures Valid() && log == [] && ring == []
    {
      ring, number, log := [], 0, [];
    }

    method Add(frame: Frame) returns (entry: Entry)
      requires Valid()
      modifies this
      ensures Valid() && log == old(log) + [frame]
      ensures |ring| == if |old(ring)| < RING_CAPACITY then |old(ring)| + 1 else RING_CAPACITY
      ensures entry == Entry(number, frame) && number == old(number) + 1
    {
      number := number + 1;
      entry := Entry(number, frame);
      ring := ring + [entry];
      if |ring| > RING_CAPACITY {
        ring := ring[|ring| - RING_CAPACITY..];
      }
      log := log + [frame];
    }

    method Recent(q: Query, limit: int) returns (entries: seq<Entry>, latest: nat)
      requires Valid()
      ensures latest == |log|
      ensures entries == Newest(Select(ring, q), limit)
    {
      latest := number;
      entries := [];
      for k := 0 to |ring|
        invariant entries == Select(ring[..k], q)
      {
        assert ring[..k + 1][..k] == ring[..k];
        if Wanted(q, ring[k]) {
          entries := entries + [ring[k]];
        }
      }
      assert ring[..|ring|] == ring;
      var n := if limit <= 0 || limit > RING_CAPACITY then RING_CAPACITY else limit;
      if |entries| > n {
        entries := entries[|entries| - n..];
      }
    }

    /** Looks a frame up by number: found exactly when it is still retained. */
    method Get(number: nat) returns (found: Option<Entry>)
      requires Valid()
      ensures found.Some? <==> |log| - |ring| < number <= |log|
      ensures found.Some? ==> found.value == Entry(number, log[number - 1])
    {
      for k := 0 to |ring|
        invariant number <= |log| - |ring| || |log| - |ring| + k < number
      {
        if ring[k].number == number {
          return Some(ring[k]);
        }
      }
      found := None;
    }

    method Clear()
      requires Valid()
      modifies this
      ensures Valid() && ring == [] && log == old(log) && number == old(number)
    {
      ring := [];
    }
  }
}
