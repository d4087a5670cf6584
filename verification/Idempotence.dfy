/**
 internal/conformance/conformance.go, Normalize: on which inputs a second pass changes nothing.
 elementList and the checks normalise values that were normalised before.
 */
module Idempotence {
  import opened Json
  import opened Conformance

  /** A single-member object, bare or as the only item of an array: both decode to such an object. */
  predicate SoleMember(v: Json) {
    SingleMember(v) || (v.Arr? && |v.items| == 1 && SingleMember(v.items[0]))
  }

  function Sole(v: Json): map<string, Json>
    requires SoleMember(v)
  {
    if v.Obj? then v.members else v.items[0].members
  }

  /** What these items decode to would merge into one object. */
  predicate Remerges(items: seq<Json>) {
    && items != []
    && (forall i | 0 <= i < |items| :: SoleMember(items[i]))
    && (forall i, j | 0 <= i < j < |items| :: Sole(items[i]).Keys !! Sole(items[j]).Keys)
  }

  /** No array that is kept as a list would merge once its items are decoded. */
  predicate Once(v: Json) {
    match v
    case Obj(members) => forall n | n in members :: Once(members[n])
    case Arr(items) => (Mergeable(items) || !Remerges(items)) && forall i | 0 <= i < |items| :: Once(items[i])
    case _ => true
  }

  ghost function OnlyName(v: Json): (n: string)
    requires SingleMember(v)
    ensures IsObjectOf(v, n)
  {
    assert |v.members.Keys| == 1;
    var n :| n in v.members;
    SingletonKeys(v.members, n);
    n
  }

  ghost function OnlyNames(items: seq<Json>): (names: seq<string>)
    requires forall i | 0 <= i < |items| :: SingleMember(items[i])
    ensures |names| == |items| && forall i | 0 <= i < |items| :: IsObjectOf(items[i], names[i])
  {
    seq(|items|, i requires 0 <= i < |items| => OnlyName(items[i]))
  }

  /** A merged array is an object of as many members as the array had items. */
  lemma {:induction false} MergedSize(items: seq<Json>)
    requires Mergeable(items)
    ensures |Merged(items)| == 1 <==> |items| == 1
    ensures |items| == 1 ==> Merged(items).Keys == items[0].members.Keys
  {
    var names := OnlyNames(items);
    MergeableByName(items, names);
    MergedByName(items, names);
    if |items| == 1 {
      assert NameSet(names) == {names[0]};
      assert |Merged(items).Keys| == 1;
    } else {
      assert names[0] in NameSet(names) && names[1] in NameSet(names);
      if |Merged(items)| == 1 {
        SingletonKeys(Merged(items), names[0]);
      }
    }
  }

  lemma {:induction false} SoleNormalized(v: Json)
    ensures SingleMember(Normalize(v)) <==> SoleMember(v)
    ensures SoleMember(v) ==> Normalize(v).members.Keys == Sole(v).Keys
  {
    match v
    case Obj(members) =>
      assert Normalize(v).members.Keys == members.Keys;
      assert |Normalize(v).members| == |Normalize(v).members.Keys| && |members| == |members.Keys|;
    case Arr(items) =>
      if Mergeable(items) {
        MergedSize(items);
      }
    case _ =>
  }

  lemma NormalizedMerges(items: seq<Json>, norm: seq<Json>)
    requires |norm| == |items| && forall i | 0 <= i < |items| :: norm[i] == Normalize(items[i])
    ensures Mergeable(norm) <==> Remerges(items)
  {
    forall i | 0 <= i < |items|
      ensures SingleMember(norm[i]) <==> SoleMember(items[i])
      ensures SoleMember(items[i]) ==> norm[i].members.Keys == Sole(items[i]).Keys
    {
      SoleNormalized(items[i]);
    }
  }

  /** Decoding twice is decoding once exactly on the values without such an array. */
  lemma {:induction false} OnceExactly(v: Json)
    ensures Normalize(Normalize(v)) == Normalize(v) <==> Once(v)
    decreases v
  {
    match v
    case Obj(members) =>
      forall n | n in members ensures Stable(Normalize(members[n])) <==> Once(members[n]) {
        OnceExactly(members[n]);
      }
      OnceMembers(members);
    case Arr(items) =>
      if Mergeable(items) {
        forall i | 0 <= i < |items|
          ensures Stable(Normalize(Inner(items[i], OnlyName(items[i])))) <==> Once(items[i])
        {
          OnceExactly(Inner(items[i], OnlyName(items[i])));
          OnceSingle(items[i], OnlyName(items[i]));
        }
        OnceMerged(items);
      } else {
        forall i | 0 <= i < |items| ensures Stable(Normalize(items[i])) <==> Once(items[i]) {
          OnceExactly(items[i]);
        }
        OnceList(items);
      }
    case _ =>
  }

  lemma StableMembers(members: map<string, Json>)
    ensures Normalize(Obj(members)) == Obj(members) <==> forall n | n in members :: Stable(members[n])
  {
    var once := NormalizeMembers(Obj(members));
    assert once.Keys == members.Keys;
    assert once == members <==> forall n | n in members :: once[n] == members[n];
  }

  lemma OnceMembers(members: map<string, Json>)
    requires forall n | n in members :: Stable(Normalize(members[n])) <==> Once(members[n])
    ensures Stable(Normalize(Obj(members))) <==> Once(Obj(members))
  {
    var once := NormalizeMembers(Obj(members));
    assert once.Keys == members.Keys && forall n | n in members :: once[n] == Normalize(members[n]);
    StableMembers(once);
    assert (forall n | n in once :: Stable(once[n])) <==> forall n | n in members :: Once(members[n]);
  }

  lemma {:induction false} OnceSingle(v: Json, name: string)
    requires IsObjectOf(v, name)
    ensures Once(v) <==> Once(Inner(v, name))
  {
  }

  lemma OnceMerged(items: seq<Json>)
    requires Mergeable(items)
    requires forall i | 0 <= i < |items| :: Stable(Normalize(Inner(items[i], OnlyName(items[i])))) <==> Once(items[i])
    ensures Stable(Normalize(Arr(items))) <==> Once(Arr(items))
  {
    var names, merged := OnlyNames(items), Merged(items);
    MergeableByName(items, names);
    MergedByName(items, names);
    StableMembers(merged);
    forall i | 0 <= i < |items| ensures names[i] in merged && (Stable(merged[names[i]]) <==> Once(items[i])) {
      assert merged[names[i]] == Normalize(Inner(items[i], names[i]));
    }
    AllNamed(merged, names, items);
  }

  lemma AllNamed(merged: map<string, Json>, names: seq<string>, items: seq<Json>)
    requires |names| == |items| && merged.Keys == NameSet(names)
    requires forall i | 0 <= i < |items| :: names[i] in merged && (Stable(merged[names[i]]) <==> Once(items[i]))
    ensures (forall n | n in merged :: Stable(merged[n])) <==> forall i | 0 <= i < |items| :: Once(items[i])
  {
    forall n | n in merged ensures exists i :: 0 <= i < |names| && names[i] == n {
      assert n in NameSet(names);
    }
  }

  lemma OnceList(items: seq<Json>)
    requires !Mergeable(items)
    requires forall i | 0 <= i < |items| :: Stable(Normalize(items[i])) <==> Once(items[i])
    ensures Stable(Normalize(Arr(items))) <==> Once(Arr(items))
  {
    var norm := Normalize(Arr(items)).items;
    NormalizedMerges(items, norm);
    if !Mergeable(norm) {
      var again := Normalize(Arr(norm)).items;
      assert forall i | 0 <= i < |norm| :: again[i] == Normalize(norm[i]);
      assert again == norm <==> forall i | 0 <= i < |norm| :: again[i] == norm[i];
    }
  }

  /** Decoding any number of further times then changes nothing either. */
  lemma {:induction false} OnceIsEnough(v: Json, times: nat)
    requires Once(v) && times >= 1
    ensures Renormalize(v, times) == Normalize(v)
  {
    if times > 1 {
      OnceIsEnough(v, times - 1);
      OnceExactly(v);
    }
  }
}
