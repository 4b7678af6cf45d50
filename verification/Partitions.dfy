/**
 * Dealing question groups into test, val and train: whole groups only, and none of the
 * three parts empty with the shares the corpus is built with.
 */
module Partitions {
  import opened Prelude
  import opened QuestionGroups

  datatype Part = Train | Val | Test

  datatype Refusal = UnknownTwins(ids: set<Id>) | TooFewGroups(groups: nat)

  const SHIPPED_SHARE: real := 0.15

  /** Rounding to the nearest integer, halves to the even one. */
  function Round(x: real): int {
    var f := x.Floor;
    var d := x - f as real;
    if d < 0.5 then f else if d > 0.5 then f + 1 else if f % 2 == 0 then f else f + 1
  }

  /** At least one group, however small the share. */
  function Portion(n: nat, share: real): nat {
    var r := Round(n as real * share);
    if r < 1 then 1 else r
  }

  /** The part of the k-th of n shuffled groups. */
  function PartAt(n: nat, k: nat, test: real, val: real): Part {
    if k < Portion(n, test) then Test
    else if k < Portion(n, test) + Portion(n, val) then Val
    else Train
  }

  /** Which parts get at least one of n groups. */
  lemma PartsReached(n: nat, test: real, val: real)
    requires n > 0
    ensures PartAt(n, 0, test, val) == Test
    ensures (exists k: nat :: k < n && PartAt(n, k, test, val) == Val) <==> Portion(n, test) < n
    ensures (exists k: nat :: k < n && PartAt(n, k, test, val) == Train) <==> Portion(n, test) + Portion(n, val) < n
  {
    if Portion(n, test) < n {
      assert PartAt(n, Portion(n, test), test, val) == Val;
    }
    if Portion(n, test) + Portion(n, val) < n {
      assert PartAt(n, n - 1, test, val) == Train;
    }
  }

  /** With the shipped shares three groups are enough for three non-empty parts. */
  lemma ShippedSharesFillAll(n: nat)
    requires n >= 3
    ensures Portion(n, SHIPPED_SHARE) + Portion(n, SHIPPED_SHARE) < n
  {
  }

  /** The result deals the groups, in the given order, by their position. */
  ghost predicate DealsGroups(keys: map<Id, string>, order: seq<string>, test: real, val: real, parts: map<Id, Part>) {
    && Distinct(order) && parts.Keys == keys.Keys
    && (forall key :: key in order <==> key in keys.Values)
    && forall q, k :: q in keys && 0 <= k < |order| && order[k] == keys[q] ==> parts[q] == PartAt(|order|, k, test, val)
  }

  /** No group is torn apart. */
  ghost predicate KeepsGroupsWhole(texts: Texts, twins: seq<seq<Id>>, parts: map<Id, Part>) {
    forall q, r :: q in parts && r in parts && Connected(texts, twins, q, r) ==> parts[q] == parts[r]
  }

  lemma DealtWhole(texts: Texts, twins: seq<seq<Id>>, keys: map<Id, string>, order: seq<string>, test: real, val: real,
                   parts: map<Id, Part>)
    requires DealsGroups(keys, order, test, val, parts) && SeparatesGroups(texts, twins, keys)
    ensures KeepsGroupsWhole(texts, twins, parts)
  {
    forall q, r | q in parts && r in parts && Connected(texts, twins, q, r)
      ensures parts[q] == parts[r]
    {
      assert keys[q] in keys.Values;
      var k :| 0 <= k < |order| && order[k] == keys[q];
    }
  }

  ghost predicate Reached(parts: map<Id, Part>, part: Part) {
    exists q :: q in parts && parts[q] == part
  }

  lemma DealtReaches(keys: map<Id, string>, order: seq<string>, test: real, val: real, parts: map<Id, Part>, part: Part)
    requires DealsGroups(keys, order, test, val, parts)
    ensures Reached(parts, part) <==> exists k: nat :: k < |order| && PartAt(|order|, k, test, val) == part
  {
    if Reached(parts, part) {
      var q :| q in parts && parts[q] == part;
      assert keys[q] in keys.Values;
      var k :| 0 <= k < |order| && order[k] == keys[q];
      assert PartAt(|order|, k, test, val) == part;
    }
    if k: nat :| k < |order| && PartAt(|order|, k, test, val) == part {
      assert order[k] in keys.Values;
      var q :| q in keys && keys[q] == order[k];
      assert parts[q] == part;
    }
  }

  method ListGroups(groups: set<string>) returns (order: seq<string>)
    ensures Distinct(order) && |order| == |groups| && forall g :: g in order <==> g in groups
  {
    var rest, listed := groups, [];
    while rest != {}
      invariant rest <= groups && Distinct(listed) && |listed| + |rest| == |groups|
      invariant forall g :: g in listed <==> g in groups - rest
    {
      var g :| g in rest;
      assert g !in listed;
      rest, listed := rest - {g}, listed + [g];
    }
    order := Shuffle(listed);
    RearrangedKeepsElements(listed, order);
    assert forall g :: g in order <==> g in Elements(order);
  }

  function Position(order: seq<string>, key: string): (k: nat)
    requires key in order
    ensures k < |order| && order[k] == key
  {
    if order[0] == key then 0 else 1 + Position(order[1..], key)
  }

  /** The groups that landed in a part. */
  function GroupsIn(keys: map<Id, string>, parts: map<Id, Part>, part: Part): set<string> {
    set q | q in keys && q in parts && parts[q] == part :: keys[q]
  }

  /** Every group whole, every part of its size in groups, and which parts get something. */
  ghost predicate GoodSplit(texts: Texts, twins: seq<seq<Id>>, keys: map<Id, string>, parts: map<Id, Part>,
                            test: real, val: real) {
    var groups, forTest, forVal := |keys.Values|, Portion(|keys.Values|, test), Portion(|keys.Values|, val);
    && parts.Keys == texts.Keys && KeepsGroupsWhole(texts, twins, parts)
    && |GroupsIn(keys, parts, Test)| == Min(forTest, groups)
    && |GroupsIn(keys, parts, Test)| + |GroupsIn(keys, parts, Val)| == Min(forTest + forVal, groups)
    && |GroupsIn(keys, parts, Test)| + |GroupsIn(keys, parts, Val)| + |GroupsIn(keys, parts, Train)| == groups
    && Reached(parts, Test)
    && (Reached(parts, Val) <==> forTest < groups)
    && (Reached(parts, Train) <==> forTest + forVal < groups)
  }

  /** A group is in the part of its place. */
  lemma PlaceDecides(keys: map<Id, string>, order: seq<string>, test: real, val: real, parts: map<Id, Part>,
                     part: Part, k: nat)
    requires DealsGroups(keys, order, test, val, parts) && k < |order|
    ensures order[k] in GroupsIn(keys, parts, part) <==> PartAt(|order|, k, test, val) == part
  {
    assert order[k] in keys.Values;
    var q :| q in keys && keys[q] == order[k];
    assert parts[q] == PartAt(|order|, k, test, val);
    if order[k] in GroupsIn(keys, parts, part) {
      var r :| r in keys && parts[r] == part && keys[r] == order[k];
    }
  }

  lemma SliceIsPart(keys: map<Id, string>, order: seq<string>, test: real, val: real, parts: map<Id, Part>, part: Part,
                    from: nat, to: nat)
    requires DealsGroups(keys, order, test, val, parts) && from <= to <= |order|
    requires forall k: nat :: k < |order| ==> (PartAt(|order|, k, test, val) == part <==> from <= k < to)
    ensures |GroupsIn(keys, parts, part)| == to - from
  {
    forall k: nat | k < |order| ensures order[k] in GroupsIn(keys, parts, part) <==> from <= k < to {
      PlaceDecides(keys, order, test, val, parts, part, k);
    }
    SliceElements(order, GroupsIn(keys, parts, part), from, to);
  }

  lemma SliceElements(order: seq<string>, groups: set<string>, from: nat, to: nat)
    requires Distinct(order) && from <= to <= |order| && forall g :: g in groups ==> g in order
    requires forall k: nat :: k < |order| ==> (order[k] in groups <==> from <= k < to)
    ensures |groups| == to - from
  {
    assert groups == Elements(order[from..to]);
    DistinctSize(order[from..to]);
  }

  lemma SlicesFill(keys: map<Id, string>, order: seq<string>, test: real, val: real, parts: map<Id, Part>)
    requires DealsGroups(keys, order, test, val, parts)
    ensures var first := Min(Portion(|order|, test), |order|);
            var second := Min(Portion(|order|, test) + Portion(|order|, val), |order|);
            && |GroupsIn(keys, parts, Test)| == first
            && |GroupsIn(keys, parts, Val)| == second - first
            && |GroupsIn(keys, parts, Train)| == |order| - second
  {
    var first := Min(Portion(|order|, test), |order|);
    var second := Min(Portion(|order|, test) + Portion(|order|, val), |order|);
    SliceIsPart(keys, order, test, val, parts, Test, 0, first);
    SliceIsPart(keys, order, test, val, parts, Val, first, second);
    SliceIsPart(keys, order, test, val, parts, Train, second, |order|);
  }

  /** For keys that tell the groups apart: a refusal for fewer than three groups, a good split otherwise. */
  ghost predicate SplitOutcome(texts: Texts, twins: seq<seq<Id>>, keys: map<Id, string>, test: real, val: real,
                               r: Result<map<Id, Part>, Refusal>) {
    && keys.Keys == texts.Keys && SeparatesGroups(texts, twins, keys)
    && if |keys.Values| < 3 then r == Err(TooFewGroups(|keys.Values|))
       else r.Ok? && GoodSplit(texts, twins, keys, r.value, test, val)
  }

  /** Splits by the group keys, unless there are too few of them. */
  method SplitByKeys(texts: Texts, ghost twins: seq<seq<Id>>, keys: map<Id, string>, test: real, val: real)
    returns (r: Result<map<Id, Part>, Refusal>)
    requires keys.Keys == texts.Keys && SeparatesGroups(texts, twins, keys)
    ensures SplitOutcome(texts, twins, keys, test, val, r)
  {
    if |keys.Values| < 3 {
      return Err(TooFewGroups(|keys.Values|));
    }
    var parts, order := Deal(keys, test, val);
    DealtWhole(texts, twins, keys, order, test, val, parts);
    DealtParts(keys, order, test, val, parts);
    SlicesFill(keys, order, test, val, parts);
    r := Ok(parts);
  }

  /**
   * A part for every question, or a refusal: for twin ids outside the corpus, or for fewer
   * than three groups. The keys are any naming of the groups.
   */
  method AssignPartitions(ids: seq<Id>, texts: Texts, twins: seq<seq<Id>>, test: real, val: real)
    returns (r: Result<map<Id, Part>, Refusal>, ghost keys: map<Id, string>)
    requires forall q :: q in ids <==> q in texts
    ensures Unknown(texts, twins) != {} ==> r == Err(UnknownTwins(Unknown(texts, twins)))
    ensures Unknown(texts, twins) == {} ==> SplitOutcome(texts, twins, keys, test, val, r)
  {
    var grouped := Group(ids, texts, twins);
    if grouped.Err? {
      return Err(UnknownTwins(grouped.error)), map[];
    }
    keys := grouped.value;
    r := SplitByKeys(texts, twins, grouped.value, test, val);
  }

  lemma DealtParts(keys: map<Id, string>, order: seq<string>, test: real, val: real, parts: map<Id, Part>)
    requires DealsGroups(keys, order, test, val, parts) && |order| > 0
    ensures Reached(parts, Test)
    ensures Reached(parts, Val) <==> Portion(|order|, test) < |order|
    ensures Reached(parts, Train) <==> Portion(|order|, test) + Portion(|order|, val) < |order|
  {
    DealtReaches(keys, order, test, val, parts, Test);
    DealtReaches(keys, order, test, val, parts, Val);
    DealtReaches(keys, order, test, val, parts, Train);
    PartsReached(|order|, test, val);
  }

  /** Shuffles the groups and cuts them into the three parts. */
  method Deal(keys: map<Id, string>, test: real, val: real) returns (parts: map<Id, Part>, ghost order: seq<string>)
    ensures DealsGroups(keys, order, test, val, parts) && |order| == |keys.Values|
  {
    var groups := ListGroups(keys.Values);
    order := groups;
    forall q | q in keys
      ensures keys[q] in groups
    {
      assert keys[q] in keys.Values;
    }
    parts := map q | q in keys :: PartAt(|groups|, Position(groups, keys[q]), test, val);
  }

  // ---- rounding

  /** Nearest, and halves to the even neighbour. */
  lemma RoundIsNearest(x: real)
    ensures x - 0.5 <= Round(x) as real <= x + 0.5
    ensures (Round(x) as real == x - 0.5 || Round(x) as real == x + 0.5) ==> Round(x) % 2 == 0
  {
  }

  /** A portion is the rounded share of the groups, or one when that is less. */
  lemma PortionIsNearest(n: nat, share: real)
    ensures Portion(n, share) >= 1
    ensures Portion(n, share) > 1 ==> n as real * share - 0.5 <= Portion(n, share) as real <= n as real * share + 0.5
    ensures Portion(n, share) == 1 ==> n as real * share <= 1.5
  {
    RoundIsNearest(n as real * share);
  }
}
