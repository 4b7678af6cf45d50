/**
 * Grouping rows by a label: the dictionary of groups, filled row by row, and the fact that
 * its groups share out all the rows.
 */
module Grouping {
  import opened Prelude

  /** The rows with one label, by their places. */
  function PlacesOf<K(==)>(labels: seq<K>, k: K): set<nat> {
    set a: nat | a < |labels| && labels[a] == k
  }

  /** One group for each label that occurs, holding every row with that label once. */
  ghost predicate Grouped<K>(labels: seq<K>, keys: seq<K>, groups: seq<seq<nat>>) {
    && |keys| == |groups| && Distinct(keys)
    && (forall a :: 0 <= a < |labels| ==> labels[a] in keys)
    && (forall g :: 0 <= g < |groups| ==> Distinct(groups[g]) && Elements(groups[g]) == PlacesOf(labels, keys[g]))
  }

  function TotalSize(groups: seq<seq<nat>>): nat {
    if groups == [] then 0 else TotalSize(groups[..|groups| - 1]) + |groups[|groups| - 1]|
  }

  /** The dictionary of groups, filled row by row. */
  method GroupPlaces<K(==)>(labels: seq<K>) returns (groups: map<K, seq<nat>>)
    ensures forall a :: 0 <= a < |labels| ==> labels[a] in groups
    ensures forall k | k in groups :: Distinct(groups[k]) && Elements(groups[k]) == PlacesOf(labels, k)
  {
    groups := map[];
    for n := 0 to |labels|
      invariant forall a :: 0 <= a < n ==> labels[a] in groups
      invariant forall k | k in groups :: Distinct(groups[k]) && Elements(groups[k]) == PlacesOf(labels[..n], k)
    {
      var k := labels[n];
      var group := if k in groups then groups[k] else [];
      AppendToGroup(labels, n, group);
      groups := groups[k := group + [n]];
    }
    assert labels[..|labels|] == labels;
  }

  /** The groups as lists, in an arbitrary order of their labels. */
  method ListGroups<K(==)>(labels: seq<K>) returns (keys: seq<K>, groups: seq<seq<nat>>)
    ensures Grouped(labels, keys, groups)
  {
    var found := GroupPlaces(labels);
    var rest := found.Keys;
    keys, groups := [], [];
    while rest != {}
      invariant rest <= found.Keys && |keys| == |groups| && Distinct(keys)
      invariant forall k :: k in found <==> (k in keys || k in rest)
      invariant forall k | k in keys :: k !in rest
      invariant forall g :: 0 <= g < |groups| ==>
        Distinct(groups[g]) && Elements(groups[g]) == PlacesOf(labels, keys[g])
    {
      var k :| k in rest;
      keys, groups := keys + [k], groups + [found[k]];
      rest := rest - {k};
    }
  }

  lemma AppendToGroup<K>(labels: seq<K>, n: nat, group: seq<nat>)
    requires n < |labels| && Distinct(group)
    requires || Elements(group) == PlacesOf(labels[..n], labels[n])
             || (group == [] && forall a :: 0 <= a < n ==> labels[a] != labels[n])
    ensures Distinct(group + [n]) && Elements(group + [n]) == PlacesOf(labels[..n + 1], labels[n])
    ensures forall k :: k != labels[n] ==> PlacesOf(labels[..n + 1], k) == PlacesOf(labels[..n], k)
  {
    assert Elements(group) == PlacesOf(labels[..n], labels[n]);
    assert n !in Elements(group);
    assert PlacesOf(labels[..n + 1], labels[n]) == PlacesOf(labels[..n], labels[n]) + {n};
  }

  function WithLabelIn<K(==)>(labels: seq<K>, keys: seq<K>): set<nat> {
    set a: nat | a < |labels| && labels[a] in keys
  }

  lemma {:induction false} FirstGroupsHold<K>(labels: seq<K>, keys: seq<K>, groups: seq<seq<nat>>, m: nat)
    requires Grouped(labels, keys, groups) && m <= |groups|
    ensures TotalSize(groups[..m]) == |WithLabelIn(labels, keys[..m])|
  {
    if m > 0 {
      FirstGroupsHold(labels, keys, groups, m - 1);
      assert groups[..m][..m - 1] == groups[..m - 1];
      assert keys[..m] == keys[..m - 1] + [keys[m - 1]];
      OneMoreLabel(labels, keys[..m - 1], keys[m - 1]);
      DistinctSize(groups[m - 1]);
    }
  }

  lemma OneMoreLabel<K>(labels: seq<K>, keys: seq<K>, k: K)
    requires k !in keys
    ensures |WithLabelIn(labels, keys + [k])| == |WithLabelIn(labels, keys)| + |PlacesOf(labels, k)|
  {
    assert WithLabelIn(labels, keys + [k]) == WithLabelIn(labels, keys) + PlacesOf(labels, k);
    assert WithLabelIn(labels, keys) !! PlacesOf(labels, k);
  }

  /** The groups together are as many as the rows. */
  lemma GroupsHoldAll<K>(labels: seq<K>, keys: seq<K>, groups: seq<seq<nat>>)
    requires Grouped(labels, keys, groups)
    ensures TotalSize(groups) == |labels|
  {
    FirstGroupsHold(labels, keys, groups, |groups|);
    assert groups[..|groups|] == groups && keys[..|groups|] == keys;
    var places := seq(|labels|, (a: nat) => a);
    DistinctSize(places);
    forall a: nat | a < |labels| ensures a in Elements(places) {
      assert places[a] == a;
    }
    assert WithLabelIn(labels, keys) == Elements(places);
  }

  /** A row is in the group of its label only. */
  lemma GroupsAreApart<K>(labels: seq<K>, keys: seq<K>, groups: seq<seq<nat>>)
    requires Grouped(labels, keys, groups)
    ensures forall g, h, x ::
              0 <= g < |groups| && 0 <= h < |groups| && x in groups[g] && x in groups[h] ==> g == h
  {
    forall g, h, x | 0 <= g < |groups| && 0 <= h < |groups| && x in groups[g] && x in groups[h]
      ensures g == h
    {
      assert x in Elements(groups[g]) && x in Elements(groups[h]);
      assert keys[g] == labels[x] == keys[h];
    }
  }
}
