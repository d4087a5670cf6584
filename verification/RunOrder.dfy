/**
 internal/scenario/meta.go: the run order of the test cases, encoded as a string key per test case
 and sorted by Go's byte-wise string order.
 */
module RunOrder {
  import opened Strings
  import opened Decimal

  /**
   What the order and the selection look at. position is what ucspec.Order says of the use case (its
   place in the catalog of use cases, or the catalog's length), groupKey its upper-cased selection key.
   */
  datatype Meta = Meta(
    id: string, category: string, risk: string, useCase: string, position: nat, groupKey: string,
    cleanup: bool, longRunning: bool, probe: bool, cites: seq<string>)

  const USE_CASES: nat := 15

  predicate Catalogued(m: Meta) {
    m.position <= USE_CASES
  }

  predicate AllCatalogued(s: seq<Meta>) {
    forall i | 0 <= i < |s| :: Catalogued(s[i])
  }

  predicate DistinctIds(s: seq<Meta>) {
    forall i, j | 0 <= i < j < |s| :: s[i].id != s[j].id
  }

  // ------------------------------------------------- the criteria

  function CleanupRank(m: Meta): nat {
    if m.cleanup then 1 else 0
  }

  function LeadingRank(m: Meta): nat {
    if m.id == "smoke-pairing" then 0 else if m.id == "device-profile-discovery" then 1 else 2
  }

  /** Test cases of no use case come before all others. */
  function GroupRank(m: Meta): nat {
    if m.useCase == "" then 0 else m.position + 1
  }

  function RiskRank(risk: string): nat {
    if risk == "live-control" then 1 else if risk == "disruptive" then 2 else 0
  }

  function LongRank(m: Meta): nat {
    if m.probe then 2 else if m.longRunning then 1 else 0
  }

  // ------------------------------------------------- the key

  function Fields(first: nat, rest: string): string
    requires first < 10
  {
    [DigitChar(first)] + ("|" + rest)
  }

  function OrderKey(m: Meta): string
    requires Catalogued(m)
  {
    var rest := Fields(RiskRank(m.risk), Fields(LongRank(m), m.id));
    Fields(CleanupRank(m), Fields(LeadingRank(m), Padded3(GroupRank(m)) + ("|" + rest)))
  }

  predicate KeyBefore(a: Meta, b: Meta)
    requires Catalogued(a) && Catalogued(b)
  {
    Less(OrderKey(a), OrderKey(b))
  }

  /** First the one criterion, then the others. */
  predicate Then(a: nat, b: nat, rest: bool) {
    a < b || (a == b && rest)
  }

  /** The order as documented: cleanup last, connection first, then by use case, risk, length and name. */
  predicate Before(a: Meta, b: Meta) {
    Then(CleanupRank(a), CleanupRank(b),
         Then(LeadingRank(a), LeadingRank(b),
              Then(GroupRank(a), GroupRank(b),
                   Then(RiskRank(a.risk), RiskRank(b.risk),
                        Then(LongRank(a), LongRank(b), Less(a.id, b.id))))))
  }

  lemma {:induction false} FieldsOrder(m: nat, n: nat, a: string, b: string)
    requires m < 10 && n < 10
    ensures Less(Fields(m, a), Fields(n, b)) <==> Then(m, n, Less(a, b))
    ensures Fields(m, a) == Fields(n, b) <==> m == n && a == b
  {
    LessPlaces(m, n, "|" + a, "|" + b);
    LessPrefix("|", a, b);
    assert ("|" + a)[1..] == a && ("|" + b)[1..] == b;
  }

  lemma {:induction false} GroupOrder(m: nat, n: nat, a: string, b: string)
    requires m < 1000 && n < 1000
    ensures Less(Padded3(m) + ("|" + a), Padded3(n) + ("|" + b)) <==> Then(m, n, Less(a, b))
  {
    LessPadded3(m, n);
    LessConcat(Padded3(m), Padded3(n), "|" + a, "|" + b);
    LessPrefix("|", a, b);
  }

  /** The string order of the keys is the order of the criteria. */
  lemma KeyOrder(a: Meta, b: Meta)
    requires Catalogued(a) && Catalogued(b)
    ensures KeyBefore(a, b) <==> Before(a, b)
  {
    var a5, b5 := Fields(LongRank(a), a.id), Fields(LongRank(b), b.id);
    var a4, b4 := Fields(RiskRank(a.risk), a5), Fields(RiskRank(b.risk), b5);
    var a3, b3 := Padded3(GroupRank(a)) + ("|" + a4), Padded3(GroupRank(b)) + ("|" + b4);
    FieldsOrder(LongRank(a), LongRank(b), a.id, b.id);
    FieldsOrder(RiskRank(a.risk), RiskRank(b.risk), a5, b5);
    GroupOrder(GroupRank(a), GroupRank(b), a4, b4);
    FieldsOrder(LeadingRank(a), LeadingRank(b), a3, b3);
    FieldsOrder(CleanupRank(a), CleanupRank(b), Fields(LeadingRank(a), a3), Fields(LeadingRank(b), b3));
  }

  /** Two test cases that neither the cleanup flag nor the leading names tell apart. */
  predicate SameStage(a: Meta, b: Meta) {
    a.cleanup == b.cleanup && LeadingRank(a) == LeadingRank(b)
  }

  predicate SameGroup(a: Meta, b: Meta) {
    SameStage(a, b) && (a.useCase == "" <==> b.useCase == "") && (a.useCase != "" ==> a.position == b.position)
  }

  /** What the run order promises: the keys put these pairs in this order. */
  lemma DocumentedOrder(a: Meta, b: Meta)
    requires Catalogued(a) && Catalogued(b)
    ensures !a.cleanup && b.cleanup ==> KeyBefore(a, b)
    ensures a.cleanup == b.cleanup && a.id == "smoke-pairing" && b.id != a.id ==> KeyBefore(a, b)
    ensures a.cleanup == b.cleanup && a.id == "device-profile-discovery" && b.id !in {a.id, "smoke-pairing"} ==>
      KeyBefore(a, b)
    ensures SameStage(a, b) && a.useCase == "" && b.useCase != "" ==> KeyBefore(a, b)
    ensures SameStage(a, b) && a.useCase != "" && b.useCase != "" && a.position < b.position ==> KeyBefore(a, b)
    ensures SameGroup(a, b) && a.risk == "read-only" && b.risk in {"live-control", "disruptive"} ==> KeyBefore(a, b)
    ensures SameGroup(a, b) && a.risk == "live-control" && b.risk == "disruptive" ==> KeyBefore(a, b)
    ensures SameGroup(a, b) && a.risk == b.risk && !a.longRunning && !a.probe && (b.longRunning || b.probe) ==>
      KeyBefore(a, b)
    ensures SameGroup(a, b) && a.risk == b.risk && !a.probe && b.probe ==> KeyBefore(a, b)
  {
    KeyOrder(a, b);
    assert |"smoke-pairing"| != |"device-profile-discovery"|;
  }

  lemma BeforeTransitive(a: Meta, b: Meta, c: Meta)
    requires Catalogued(a) && Catalogued(b) && Catalogued(c)
    requires Before(a, b) && Before(b, c)
    ensures Before(a, c)
  {
    KeyOrder(a, b);
    KeyOrder(b, c);
    KeyOrder(a, c);
    LessTransitive(OrderKey(a), OrderKey(b), OrderKey(c));
  }

  /** Two test cases with different names are never tied. */
  lemma BeforeTotal(a: Meta, b: Meta)
    requires Catalogued(a) && Catalogued(b) && a.id != b.id
    ensures Before(a, b) <==> !Before(b, a)
  {
    LessTotal(a.id, b.id);
    if Less(a.id, b.id) {
      LessAsymmetric(a.id, b.id);
    } else {
      LessAsymmetric(b.id, a.id);
    }
  }

  // ------------------------------------------------- sorting

  /** A stable sort by key, as sort.SliceStable promises it: m goes behind everything it is not less than. */
  function Inserted(s: seq<Meta>, m: Meta): (r: seq<Meta>)
    requires AllCatalogued(s) && Catalogued(m)
    ensures multiset(r) == multiset(s) + multiset{m}
    ensures AllCatalogued(r)
  {
    if s == [] || !KeyBefore(m, s[|s| - 1]) then s + [m]
    else
      assert s == s[..|s| - 1] + [s[|s| - 1]];
      Inserted(s[..|s| - 1], m) + [s[|s| - 1]]
  }

  function Ordered(s: seq<Meta>): (r: seq<Meta>)
    requires AllCatalogued(s)
    ensures multiset(r) == multiset(s) && AllCatalogued(r)
  {
    if s == [] then []
    else
      assert s == s[..|s| - 1] + [s[|s| - 1]];
      Inserted(Ordered(s[..|s| - 1]), s[|s| - 1])
  }

  /** Strictly in run order. */
  predicate InOrder(s: seq<Meta>) {
    forall i, j | 0 <= i < j < |s| :: Before(s[i], s[j])
  }

  /** Everything in s comes before m. */
  predicate AllBefore(s: seq<Meta>, m: Meta) {
    forall i | 0 <= i < |s| :: Before(s[i], m)
  }

  lemma AllBeforeLast(s: seq<Meta>, m: Meta)
    requires AllCatalogued(s) && Catalogued(m) && InOrder(s)
    requires s != [] && Before(s[|s| - 1], m)
    ensures AllBefore(s, m)
  {
    forall i | 0 <= i < |s| - 1 ensures Before(s[i], m) {
      BeforeTransitive(s[i], s[|s| - 1], m);
    }
  }

  lemma AllBeforeSame(s: seq<Meta>, t: seq<Meta>, last: Meta)
    requires AllBefore(s, last) && (forall x | x in t :: x in s)
    ensures AllBefore(t, last)
  {
    forall i | 0 <= i < |t| ensures Before(t[i], last) {
      assert t[i] in s;
    }
  }

  lemma {:induction false} InsertedMembers(s: seq<Meta>, m: Meta)
    requires AllCatalogued(s) && Catalogued(m)
    ensures forall x | x in Inserted(s, m) :: x in s + [m]
  {
    forall x | x in Inserted(s, m) ensures x in s + [m] {
      assert x in multiset(Inserted(s, m));
    }
  }

  lemma {:induction false} InsertedInOrder(s: seq<Meta>, m: Meta)
    requires AllCatalogued(s) && Catalogued(m) && InOrder(s)
    requires forall i | 0 <= i < |s| :: s[i].id != m.id
    ensures InOrder(Inserted(s, m))
  {
    if s != [] {
      var front, last := s[..|s| - 1], s[|s| - 1];
      KeyOrder(m, last);
      BeforeTotal(m, last);
      if Before(m, last) {
        InsertedInOrder(front, m);
        InsertedMembers(front, m);
        assert AllBefore(front + [m], last) by {
          assert AllBefore(front, last);
        }
        AllBeforeSame(front + [m], Inserted(front, m), last);
        assert Inserted(s, m) == Inserted(front, m) + [last];
      } else {
        AllBeforeLast(s, m);
      }
    }
  }

  lemma {:induction false} OrderedInOrder(s: seq<Meta>)
    requires AllCatalogued(s) && DistinctIds(s)
    ensures InOrder(Ordered(s))
  {
    if s != [] {
      var front, last := s[..|s| - 1], s[|s| - 1];
      OrderedInOrder(front);
      forall i | 0 <= i < |Ordered(front)| ensures Ordered(front)[i].id != last.id {
        assert Ordered(front)[i] in multiset(front);
      }
      InsertedInOrder(Ordered(front), last);
    }
  }

  /** Sorting keeps the names distinct. */
  lemma {:induction false} OrderedDistinct(s: seq<Meta>)
    requires AllCatalogued(s) && DistinctIds(s)
    ensures DistinctIds(Ordered(s))
  {
    var r := Ordered(s);
    OrderedInOrder(s);
    forall i, j | 0 <= i < j < |r| ensures r[i].id != r[j].id {
      assert r[i] in multiset(s) && r[j] in multiset(s);
      if r[i] == r[j] {
        LessIrreflexive(r[i].id);
      }
    }
  }

  /** Only one arrangement of the same test cases is in run order, so any sort by this key gives it. */
  lemma {:induction false} InOrderUnique(a: seq<Meta>, b: seq<Meta>)
    requires AllCatalogued(a) && AllCatalogued(b) && InOrder(a) && InOrder(b)
    requires multiset(a) == multiset(b)
    ensures a == b
  {
    SameLength(a, b);
    if a != [] {
      LastAgrees(a, b);
      WithoutLast(a);
      WithoutLast(b);
      InOrderUnique(a[..|a| - 1], b[..|b| - 1]);
    }
  }

  lemma SameLength(a: seq<Meta>, b: seq<Meta>)
    requires multiset(a) == multiset(b)
    ensures |a| == |b|
  {
    assert |multiset(a)| == |a|;
  }

  lemma WithoutLast(s: seq<Meta>)
    requires s != []
    ensures s == s[..|s| - 1] + [s[|s| - 1]]
    ensures multiset(s[..|s| - 1]) == multiset(s) - multiset{s[|s| - 1]}
  {
    assert s == s[..|s| - 1] + [s[|s| - 1]];
  }

  lemma LastAgrees(a: seq<Meta>, b: seq<Meta>)
    requires AllCatalogued(a) && AllCatalogued(b) && InOrder(a) && InOrder(b)
    requires a != [] && b != [] && multiset(a) == multiset(b)
    ensures a[|a| - 1] == b[|b| - 1]
  {
    var x, y := a[|a| - 1], b[|b| - 1];
    assert x in multiset(b) && y in multiset(a);
    if x != y {
      assert x in b[..|b| - 1] && y in a[..|a| - 1];
      BeforeTransitive(x, y, x);
      LessIrreflexive(x.id);
    }
  }
}
