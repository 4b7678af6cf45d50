/**
 * Splitting a sample across groups in proportion to their sizes by largest remainders, in
 * exact arithmetic: quotas are size * n / total.
 */
module Apportion {
  import opened Prelude
  import opened Grouping

  function Sum(s: seq<int>): int {
    if s == [] then 0 else Sum(s[..|s| - 1]) + s[|s| - 1]
  }

  function Abs(x: int): nat {
    if x < 0 then -x else x
  }

  /** The exact quota of a group of size s, times the total. */
  function Scaled(s: nat, n: int): int {
    s * n
  }

  /** The quota rounded down. */
  function Floor(s: nat, n: int, total: Positive): int {
    Scaled(s, n) / total
  }

  /** What rounding down leaves, times the total: between 0 and total - 1. */
  function Remainder(s: nat, n: int, total: Positive): nat {
    Scaled(s, n) % total
  }

  ghost predicate IsTotal(sizes: seq<nat>, total: nat) {
    total > 0 && Sum(sizes) == total
  }

  // ---- arithmetic of one group

  lemma QuotaWithinGroup(s: nat, n: int, total: nat)
    requires 0 < total && n <= total
    ensures Floor(s, n, total) <= s
    ensures Remainder(s, n, total) > 0 ==> Floor(s, n, total) + 1 <= s
  {
    var f, r := Floor(s, n, total), Remainder(s, n, total);
    DivMod(s * n, total);
    assert s * n <= s * total by {
      MulMonotone(s, n, total);
    }
    if f > s {
      MulMonotone(total, s + 1, f);
    }
  }

  // ---- sums

  lemma {:induction false} SumUpdate(s: seq<int>, k: nat, x: int)
    requires k < |s|
    ensures Sum(s[k := x]) == Sum(s) - s[k] + x
  {
    if k < |s| - 1 {
      assert s[k := x][..|s| - 1] == s[..|s| - 1][k := x];
      SumUpdate(s[..|s| - 1], k, x);
    } else {
      assert s[k := x][..|s| - 1] == s[..|s| - 1];
    }
  }

  // ---- the order of the remainders

  /** The first |order| positions, larger remainders first, equal ones in their original order. */
  ghost predicate IsRanking(rems: seq<nat>, order: seq<nat>) {
    && |order| <= |rems|
    && (forall i :: 0 <= i < |order| ==> order[i] < |order|)
    && forall i, j :: 0 <= i < j < |order| ==> Before(rems, order[i], order[j])
  }

  predicate Before(rems: seq<nat>, i: nat, j: nat) {
    i < |rems| && j < |rems| && (rems[i] > rems[j] || (rems[i] == rems[j] && i < j))
  }

  /** The values in a given order. */
  function Pick(rems: seq<nat>, order: seq<nat>): seq<int>
    requires forall i :: 0 <= i < |order| ==> order[i] < |rems|
  {
    seq(|order|, i requires 0 <= i < |order| => rems[order[i]])
  }

  lemma {:induction false} SumInsert(s: seq<int>, p: nat, x: int)
    requires p <= |s|
    ensures Sum(s[..p] + [x] + s[p..]) == Sum(s) + x
  {
    var t := s[..p] + [x] + s[p..];
    if p == |s| {
      assert t[..|t| - 1] == s;
    } else {
      SumInsert(s[..|s| - 1], p, x);
      assert t[..|t| - 1] == s[..|s| - 1][..p] + [x] + s[..|s| - 1][p..];
    }
  }

  /** Where the next value belongs: after everything at least as large. */
  method Slot(rems: seq<nat>, order: seq<nat>) returns (p: nat)
    requires |order| < |rems| && IsRanking(rems, order)
    ensures p <= |order|
    ensures forall i :: 0 <= i < p ==> Before(rems, order[i], |order|)
    ensures forall i :: p <= i < |order| ==> Before(rems, |order|, order[i])
  {
    p := |order|;
    while p > 0 && rems[order[p - 1]] < rems[|order|]
      invariant 0 <= p <= |order|
      invariant forall i :: p <= i < |order| ==> Before(rems, |order|, order[i])
    {
      p := p - 1;
    }
    forall i | 0 <= i < p
      ensures Before(rems, order[i], |order|)
    {
      assert i < p - 1 ==> Before(rems, order[i], order[p - 1]);
    }
  }

  lemma Inserted(rems: seq<nat>, order: seq<nat>, p: nat)
    requires |order| < |rems| && IsRanking(rems, order) && p <= |order|
    requires forall i :: 0 <= i < p ==> Before(rems, order[i], |order|)
    requires forall i :: p <= i < |order| ==> Before(rems, |order|, order[i])
    ensures IsRanking(rems, order[..p] + [|order|] + order[p..])
  {
    var longer := order[..p] + [|order|] + order[p..];
    forall i, j | 0 <= i < j < |longer|
      ensures Before(rems, longer[i], longer[j])
    {
      var i', j' := if i < p then i else i - 1, if j < p then j else j - 1;
      if i != p && j != p {
        assert longer[i] == order[i'] && longer[j] == order[j'];
      }
    }
  }

  lemma PickInserted(rems: seq<nat>, order: seq<nat>, p: nat)
    requires |order| < |rems| && p <= |order| && forall i :: 0 <= i < |order| ==> order[i] < |rems|
    ensures Sum(Pick(rems, order[..p] + [|order|] + order[p..])) == Sum(Pick(rems, order)) + rems[|order|]
  {
    var picked := Pick(rems, order);
    SumInsert(picked, p, rems[|order|]);
    assert Pick(rems, order[..p] + [|order|] + order[p..]) == picked[..p] + [rems[|order|]] + picked[p..];
  }

  /** Puts the next position where it belongs. */
  method RankNext(rems: seq<nat>, order: seq<nat>) returns (longer: seq<nat>)
    requires |order| < |rems| && IsRanking(rems, order)
    ensures |longer| == |order| + 1 && IsRanking(rems, longer)
    ensures Sum(Pick(rems, longer)) == Sum(Pick(rems, order)) + rems[|order|]
  {
    var p := Slot(rems, order);
    Inserted(rems, order, p);
    PickInserted(rems, order, p);
    longer := order[..p] + [|order|] + order[p..];
  }

  /** Stable sorting by descending remainder. */
  method Rank(rems: seq<nat>) returns (order: seq<nat>)
    ensures |order| == |rems| && IsRanking(rems, order) && Sum(Pick(rems, order)) == Sum(rems)
  {
    order := [];
    for k := 0 to |rems|
      invariant |order| == k && IsRanking(rems, order)
      invariant Sum(Pick(rems, order)) == Sum(rems[..k])
    {
      order := RankNext(rems, order);
      assert rems[..k + 1][..k] == rems[..k];
    }
    assert rems[..|rems|] == rems;
  }

  // ---- the allocation

  /** The share of one group, rounded down below a threshold remainder and up above it. */
  ghost predicate RoundedAt(s: nat, n: int, total: Positive, x: int, threshold: nat) {
    || (x == Floor(s, n, total) && Remainder(s, n, total) <= threshold)
    || (x == Floor(s, n, total) + 1 && Remainder(s, n, total) >= threshold && Remainder(s, n, total) > 0)
  }

  /** Every group gets its quota rounded down or up, and the larger remainders are rounded up. */
  ghost predicate LargestRemainders(sizes: seq<nat>, n: int, total: Positive, take: seq<int>, threshold: nat) {
    && |take| == |sizes| && threshold <= total
    && forall k :: 0 <= k < |sizes| ==> RoundedAt(sizes[k], n, total, take[k], threshold)
  }

  function Floors(sizes: seq<nat>, n: int, total: Positive): seq<int> {
    seq(|sizes|, k requires 0 <= k < |sizes| => Floor(sizes[k], n, total))
  }

  function Remainders(sizes: seq<nat>, n: int, total: Positive): seq<nat> {
    seq(|sizes|, k requires 0 <= k < |sizes| => Remainder(sizes[k], n, total))
  }

  /** What rounding down leaves over all groups is a whole number of units. */
  lemma {:induction false} LeftoverIsWhole(sizes: seq<nat>, n: int, total: nat)
    requires total > 0
    ensures n * Sum(sizes) == total * Sum(Floors(sizes, n, total)) + Sum(Remainders(sizes, n, total))
  {
    if sizes != [] {
      var front, last := sizes[..|sizes| - 1], sizes[|sizes| - 1];
      LeftoverIsWhole(front, n, total);
      var fs, rs := Floors(sizes, n, total), Remainders(sizes, n, total);
      assert fs[..|fs| - 1] == Floors(front, n, total) && rs[..|rs| - 1] == Remainders(front, n, total);
      DivMod(last * n, total);
      Distribute(n, Sum(front), last);
      Distribute(total, Sum(fs[..|fs| - 1]), Floor(last, n, total));
    }
  }

  /** If from position p on every value is 0, the sum is below p units. */
  lemma {:induction false} FewPositive(s: seq<int>, p: nat, total: nat)
    requires forall i :: 0 <= i < |s| ==> 0 <= s[i] < total
    requires forall i :: p <= i < |s| ==> s[i] == 0
    requires p <= |s|
    ensures Sum(s) <= p * (total - 1) || total == 0
  {
    if |s| > 0 {
      if p == |s| {
        FewPositive(s[..|s| - 1], p - 1, total);
        assert p * (total - 1) == (p - 1) * (total - 1) + (total - 1);
      } else {
        FewPositive(s[..|s| - 1], p, total);
      }
    }
  }

  /** The units left over go to groups that rounding down has cut, one unit each. */
  lemma LeftoverFits(rems: seq<nat>, order: seq<nat>, extra: int, total: nat)
    requires total > 0 && |order| == |rems| && IsRanking(rems, order) && Sum(Pick(rems, order)) == total * extra
    requires forall i :: 0 <= i < |rems| ==> rems[i] < total
    ensures 0 <= extra <= |order|
    ensures forall i :: 0 <= i < extra ==> rems[order[i]] > 0
  {
    var picked := Pick(rems, order);
    FewPositive(picked, |order|, total);
    SumAtLeast0(picked);
    if extra < 0 {
      MulMonotone(total, extra, -1);
    }
    if extra > |order| {
      FewerUnits(|order|, extra, total);
    }
    forall i | 0 <= i < extra
      ensures rems[order[i]] > 0
    {
      if rems[order[i]] == 0 {
        FewPositive(picked, i, total);
        FewerUnits(i, extra, total);
      }
    }
  }

  lemma FewerUnits(p: nat, extra: int, total: nat)
    requires total > 0 && p < extra
    ensures p * (total - 1) < total * extra
  {
    MulMonotone(total, p + 1, extra);
    Distribute(total, p, 1);
    Distribute(p, total - 1, 1);
  }

  lemma {:induction false} SumAtLeast0(s: seq<int>)
    requires forall i :: 0 <= i < |s| ==> s[i] >= 0
    ensures Sum(s) >= 0
  {
    if s != [] {
      SumAtLeast0(s[..|s| - 1]);
    }
  }

  // ---- nothing beats it

  lemma NonNegative(a: int, b: int)
    requires a >= 0 && b >= 0
    ensures a * b >= 0
  {
  }

  /** How far a share is from the quota of its group, times the total. */
  function Off(s: nat, n: int, total: nat, x: int): nat {
    Abs(x * total - Scaled(s, n))
  }

  /** For one group, no share does better once every unit costs what the threshold says. */
  lemma {:induction false} NoBetterShare(s: nat, n: int, total: nat, x: int, y: int, threshold: nat)
    requires total > 0 && threshold <= total && RoundedAt(s, n, total, x, threshold)
    ensures Off(s, n, total, y) - (total - 2 * threshold) * y >= Off(s, n, total, x) - (total - 2 * threshold) * x
  {
    var f, r, price := Floor(s, n, total), Remainder(s, n, total), total - 2 * threshold;
    DivMod(s * n, total);
    OffBy(s, n, total, f, 0);
    OffBy(s, n, total, f + 1, 1);
    OffBy(s, n, total, y, y - f);
    assert price * (f + 1) == price * f + price;
    if y <= f {
      NonNegative(f - y, total + price);
      assert (f - y) * (total + price) == (f - y) * total + price * f - price * y;
    } else {
      NonNegative(y - f - 1, total - price);
      assert (y - f - 1) * (total - price) == (y - f) * total - total - price * y + price * f + price;
    }
  }

  /** The distance of the share d units above the rounded-down quota. */
  lemma OffBy(s: nat, n: int, total: nat, x: int, d: int)
    requires total > 0 && x == Floor(s, n, total) + d
    ensures Off(s, n, total, x) == Abs(d * total - Remainder(s, n, total))
    ensures d <= 0 ==> Off(s, n, total, x) == Remainder(s, n, total) - d * total
    ensures d >= 1 ==> Off(s, n, total, x) == d * total - Remainder(s, n, total)
  {
    var f, r := Floor(s, n, total), Remainder(s, n, total);
    DivMod(s * n, total);
    assert x * total == f * total + d * total;
    if d <= 0 {
      NonNegative(-d, total);
      assert (-d) * total == -(d * total);
    } else {
      NonNegative(d - 1, total);
      assert (d - 1) * total == d * total - total;
    }
  }

  /** The total distance of an allocation from the quotas, times the total. */
  function Deviation(sizes: seq<nat>, n: int, total: nat, take: seq<int>): nat
    requires |take| == |sizes|
  {
    if sizes == [] then 0
    else
      var k := |sizes| - 1;
      Deviation(sizes[..k], n, total, take[..k]) + Off(sizes[k], n, total, take[k])
  }

  lemma {:induction false} NoBetterAllocation(sizes: seq<nat>, n: int, total: nat, take: seq<int>, other: seq<int>,
                                              threshold: nat)
    requires total > 0 && LargestRemainders(sizes, n, total, take, threshold) && |other| == |sizes|
    ensures Deviation(sizes, n, total, other) - (total - 2 * threshold) * Sum(other)
            >= Deviation(sizes, n, total, take) - (total - 2 * threshold) * Sum(take)
  {
    if sizes != [] {
      var k, price := |sizes| - 1, total - 2 * threshold;
      NoBetterAllocation(sizes[..k], n, total, take[..k], other[..k], threshold);
      NoBetterShare(sizes[k], n, total, take[k], other[k], threshold);
      Distribute(price, Sum(other[..k]), other[k]);
      Distribute(price, Sum(take[..k]), take[k]);
    }
  }

  /** Of all ways to give out the same number, largest remainders stay closest to the quotas. */
  lemma {:induction false} LargestRemaindersAreClosest(sizes: seq<nat>, n: int, total: nat, take: seq<int>,
                                                       other: seq<int>, threshold: nat)
    requires total > 0 && LargestRemainders(sizes, n, total, take, threshold)
    requires |other| == |sizes| && Sum(other) == Sum(take)
    ensures Deviation(sizes, n, total, take) <= Deviation(sizes, n, total, other)
  {
    NoBetterAllocation(sizes, n, total, take, other, threshold);
  }

  lemma {:induction false} NeverAboveGroup(sizes: seq<nat>, n: int, total: nat, take: seq<int>, threshold: nat)
    requires total > 0 && n <= total && LargestRemainders(sizes, n, total, take, threshold)
    ensures forall k :: 0 <= k < |sizes| ==> take[k] <= sizes[k]
  {
    forall k | 0 <= k < |sizes|
      ensures take[k] <= sizes[k]
    {
      assert RoundedAt(sizes[k], n, total, take[k], threshold);
      QuotaWithinGroup(sizes[k], n, total);
    }
  }

  // ---- the computation

  /** One unit more for each of the given groups. */
  method GiveOneEach(take: seq<int>, groups: seq<nat>) returns (more: seq<int>)
    requires forall i :: 0 <= i < |groups| ==> groups[i] < |take|
    requires Distinct(groups)
    ensures |more| == |take| && Sum(more) == Sum(take) + |groups|
    ensures forall k :: 0 <= k < |take| ==> more[k] == take[k] + if k in groups then 1 else 0
  {
    more := take;
    for i := 0 to |groups|
      invariant |more| == |take| && Sum(more) == Sum(take) + i
      invariant forall k :: 0 <= k < |take| ==> more[k] == take[k] + if k in groups[..i] then 1 else 0
    {
      assert groups[i] !in groups[..i];
      SumUpdate(more, groups[i], more[groups[i]] + 1);
      more := more[groups[i] := more[groups[i]] + 1];
      assert groups[..i + 1] == groups[..i] + [groups[i]];
    }
    assert groups[..|groups|] == groups;
  }

  /** Everybody is in the ranking. */
  lemma RankedCoversAll(rems: seq<nat>, order: seq<nat>, k: nat)
    requires |order| == |rems| && IsRanking(rems, order) && k < |rems|
    ensures k in order
  {
    assert order[..|order|] == order;
    DistinctSize(order);
    AllBelow(|order|, Elements(order), k);
  }

  lemma {:induction false} AllBelow(n: nat, s: set<nat>, k: nat)
    requires |s| == n && (forall i :: i in s ==> i < n) && k < n
    ensures k in s
  {
    if k !in s {
      BelowSize(n, s + {k});
    }
  }

  lemma {:induction false} BelowSize(n: nat, s: set<nat>)
    requires forall i :: i in s ==> i < n
    ensures |s| <= n
  {
    if n > 0 {
      BelowSize(n - 1, s - {n - 1});
    } else {
      assert s == {};
    }
  }

  /** Rounding up the first groups of the ranking follows largest remainders. */
  lemma RoundedUpByRank(sizes: seq<nat>, n: int, total: nat, order: seq<nat>, extra: nat, take: seq<int>)
    requires total > 0 && |order| == |sizes| && extra <= |order| && |take| == |sizes|
    requires IsRanking(Remainders(sizes, n, total), order)
    requires forall i :: 0 <= i < extra ==> Remainders(sizes, n, total)[order[i]] > 0
    requires forall k :: 0 <= k < |sizes| ==>
      take[k] == Floors(sizes, n, total)[k] + if k in order[..extra] then 1 else 0
    ensures exists threshold: nat :: LargestRemainders(sizes, n, total, take, threshold)
  {
    var rems := Remainders(sizes, n, total);
    var threshold := if extra > 0 then rems[order[extra - 1]] else total;
    forall k | 0 <= k < |sizes|
      ensures RoundedAt(sizes[k], n, total, take[k], threshold)
    {
      RankedCoversAll(rems, order, k);
      var i :| 0 <= i < |order| && order[i] == k;
      if i < extra {
        assert order[..extra][i] == k;
        assert i < extra - 1 ==> Before(rems, order[i], order[extra - 1]);
      } else {
        assert k !in order[..extra];
        assert extra > 0 ==> Before(rems, order[extra - 1], order[i]);
        DivMod(sizes[k] * n, total);
      }
    }
    assert LargestRemainders(sizes, n, total, take, threshold);
  }

  /** Largest remainders, before the clamp: the leftover units go to the top of the ranking. */
  method RoundUp(sizes: seq<nat>, n: int, total: nat) returns (take: seq<int>)
    requires IsTotal(sizes, total)
    ensures Sum(take) == n && |take| == |sizes|
    ensures exists threshold: nat :: LargestRemainders(sizes, n, total, take, threshold)
  {
    take := Floors(sizes, n, total);
    var rems := Remainders(sizes, n, total);
    var order := Rank(rems);
    var extra := n - Sum(take);
    LeftoverIsWhole(sizes, n, total);
    Distribute(total, Sum(take), extra);
    LeftoverFits(rems, order, extra, total);
    take := GiveOneEach(take, order[..extra]);
    RoundedUpByRank(sizes, n, total, order, extra, take);
  }

  /** The smaller of take and size in every group. */
  function Clamp(take: seq<int>, sizes: seq<nat>): seq<int>
    requires |take| == |sizes|
  {
    seq(|take|, k requires 0 <= k < |take| => if take[k] <= sizes[k] then take[k] else sizes[k])
  }

  /** Fills up the first group with room, one unit at a time, until nothing is short. */
  method Refill(take: seq<int>, sizes: seq<nat>, short: int) returns (filled: seq<int>)
    requires |take| == |sizes|
    ensures |filled| == |sizes| && (short <= 0 ==> filled == take)
    ensures short > 0 ==>
      Sum(filled) == Sum(take) + short
      || (Sum(filled) < Sum(take) + short && forall k :: 0 <= k < |sizes| ==> filled[k] >= sizes[k])
    ensures forall k :: 0 <= k < |sizes| ==> take[k] <= filled[k] && (filled[k] == take[k] || filled[k] <= sizes[k])
  {
    filled := take;
    var left := short;
    while left > 0
      invariant |filled| == |sizes| && (short <= 0 ==> filled == take)
      invariant short > 0 ==> left >= 0 && Sum(filled) == Sum(take) + short - left
      invariant forall k :: 0 <= k < |sizes| ==> take[k] <= filled[k] && (filled[k] == take[k] || filled[k] <= sizes[k])
    {
      var k := 0;
      while k < |sizes| && filled[k] >= sizes[k]
        invariant 0 <= k <= |sizes| && forall j :: 0 <= j < k ==> filled[j] >= sizes[j]
      {
        k := k + 1;
      }
      if k == |sizes| {
        break;
      }
      SumUpdate(filled, k, filled[k] + 1);
      filled := filled[k := filled[k] + 1];
      left := left - 1;
    }
  }

  /** An integer less than one away from the part. */
  ghost predicate FloorOrCeiling(x: int, part: int, total: int) {
    part - total < x * total < part + total
  }

  lemma SharesAreRounded(sizes: seq<nat>, n: int, total: nat, take: seq<int>, threshold: nat)
    requires total > 0 && LargestRemainders(sizes, n, total, take, threshold)
    ensures forall k :: 0 <= k < |sizes| ==> FloorOrCeiling(take[k], sizes[k] * n, total)
  {
    forall k | 0 <= k < |sizes| ensures FloorOrCeiling(take[k], sizes[k] * n, total) {
      assert RoundedAt(sizes[k], n, total, take[k], threshold);
      DivMod(sizes[k] * n, total);
      Distribute(total, Floor(sizes[k], n, total), 1);
    }
  }

  /**
   * The allocation. It gives out min(wanted, total), every share is the quota rounded down
   * or up by largest remainders and never above the group, so the clamp and the refill
   * change nothing; and no allocation of the same number is closer to the quotas.
   */
  method Allocate(sizes: seq<nat>, wanted: int) returns (take: seq<int>)
    requires Sum(sizes) > 0
    ensures |take| == |sizes| && Sum(take) == if wanted <= Sum(sizes) then wanted else Sum(sizes)
    ensures forall k :: 0 <= k < |sizes| ==> take[k] <= sizes[k]
    ensures forall k :: 0 <= k < |sizes| ==> FloorOrCeiling(take[k], sizes[k] * Sum(take), Sum(sizes))
    ensures exists threshold: nat :: LargestRemainders(sizes, Sum(take), Sum(sizes), take, threshold)
    ensures forall other: seq<int> :: |other| == |sizes| && Sum(other) == Sum(take) ==>
      Deviation(sizes, Sum(take), Sum(sizes), take) <= Deviation(sizes, Sum(take), Sum(sizes), other)
  {
    var total := Sum(sizes);
    var n := if wanted <= total then wanted else total;
    take := RoundUp(sizes, n, total);
    ghost var threshold: nat :| LargestRemainders(sizes, n, total, take, threshold);
    NeverAboveGroup(sizes, n, total, take, threshold);
    SharesAreRounded(sizes, n, total, take, threshold);
    ghost var rounded := take;
    take := Clamp(take, sizes);
    assert take == rounded;
    take := Refill(take, sizes, n - Sum(take));
    forall other: seq<int> | |other| == |sizes| && Sum(other) == Sum(take)
      ensures Deviation(sizes, n, total, take) <= Deviation(sizes, n, total, other)
    {
      LargestRemaindersAreClosest(sizes, n, total, take, other, threshold);
    }
  }

  // ---- even splits

  /** A total over equal parts, the first ones one larger when it does not divide. */
  function SplitEvenly(total: nat, parts: Positive): seq<nat> {
    seq(parts, (i: nat) => total / parts + if i < total % parts then 1 else 0)
  }

  lemma {:induction false} StepsSum(base: nat, extra: nat, n: nat)
    ensures Sum(seq(n, (i: nat) => base + if i < extra then 1 else 0)) == base * n + if extra < n then extra else n
  {
    var s: seq<int> := seq(n, (i: nat) => base + if i < extra then 1 else 0);
    if n > 0 {
      StepsSum(base, extra, n - 1);
      var front: seq<int> := seq(n - 1, (i: nat) => base + if i < extra then 1 else 0);
      assert s[..|s| - 1] == front;
      Distribute(base, n - 1, 1);
    }
  }

  /** Even parts add up, and no two differ by more than one. */
  lemma EvenPartsAddUp(total: nat, parts: nat)
    requires parts > 0
    ensures Sum(SplitEvenly(total, parts)) == total
    ensures forall i, j :: 0 <= i < parts && 0 <= j < parts ==>
      SplitEvenly(total, parts)[i] <= SplitEvenly(total, parts)[j] + 1
    ensures forall i, j :: 0 <= i < j < parts ==> SplitEvenly(total, parts)[i] >= SplitEvenly(total, parts)[j]
  {
    StepsSum(total / parts, total % parts, parts);
    DivMod(total, parts);
    var s: seq<int> := seq(parts, (i: nat) => total / parts + if i < total % parts then 1 else 0);
    assert SplitEvenly(total, parts) == s;
  }

  // ---- drawing the rows

  function Sizes(groups: seq<seq<nat>>): seq<nat> {
    seq(|groups|, k requires 0 <= k < |groups| => |groups[k]|)
  }

  /** Arbitrary different rows of one stratum. */
  method Draw(group: seq<nat>, count: nat) returns (rows: seq<nat>)
    requires Distinct(group) && count <= |group|
    ensures |rows| == count && Distinct(rows) && forall x :: x in rows ==> x in group
  {
    rows := [];
    var left := group;
    while |rows| < count
      invariant |rows| <= count && |rows| + |left| == |group| && Distinct(rows) && Distinct(left)
      invariant forall x :: x in rows ==> x in group && x !in left
      invariant forall x :: x in left ==> x in group
    {
      var i :| 0 <= i < |left|;
      var x, rest := left[i], left[..i] + left[i + 1..];
      DistinctAppend(rows, [x]);
      rows, left := rows + [x], rest;
    }
  }

  /** Some rows of the first groups, so many of each as it was given. */
  ghost predicate DrawnFrom(groups: seq<seq<nat>>, take: seq<int>, parts: seq<seq<nat>>) {
    && |parts| <= |groups| == |take|
    && forall k :: 0 <= k < |parts| ==>
         |parts[k]| == take[k] && Distinct(parts[k]) && forall x :: x in parts[k] ==> x in groups[k]
  }

  method DrawAll(groups: seq<seq<nat>>, take: seq<int>) returns (parts: seq<seq<nat>>)
    requires |take| == |groups| && forall k :: 0 <= k < |groups| ==> Distinct(groups[k])
    requires forall k :: 0 <= k < |take| ==> 0 <= take[k] <= |groups[k]|
    ensures |parts| == |groups| && DrawnFrom(groups, take, parts)
  {
    parts := [];
    for k := 0 to |groups|
      invariant |parts| == k && DrawnFrom(groups, take, parts)
    {
      var part := Draw(groups[k], take[k]);
      parts := parts + [part];
    }
  }

  function Concat(parts: seq<seq<nat>>): seq<nat> {
    if parts == [] then [] else Concat(parts[..|parts| - 1]) + parts[|parts| - 1]
  }

  /** No row of one group is a row of another. */
  ghost predicate Apart(groups: seq<seq<nat>>) {
    forall g, h, x :: 0 <= g < |groups| && 0 <= h < |groups| && x in groups[g] && x in groups[h] ==> g == h
  }

  lemma {:induction false} ConcatFacts(groups: seq<seq<nat>>, take: seq<int>, parts: seq<seq<nat>>)
    requires Apart(groups) && DrawnFrom(groups, take, parts)
    ensures Distinct(Concat(parts)) && |Concat(parts)| == Sum(take[..|parts|])
    ensures forall x :: x in Concat(parts) <==> exists k :: 0 <= k < |parts| && x in parts[k]
  {
    if parts != [] {
      var front, last := parts[..|parts| - 1], parts[|parts| - 1];
      ConcatFacts(groups, take, front);
      assert take[..|parts|][..|parts| - 1] == take[..|parts| - 1];
      assert forall k :: 0 <= k < |front| ==> parts[k] == front[k];
      forall x | x in last ensures x !in Concat(front) {
        assert x in groups[|parts| - 1];
      }
      DistinctAppend(Concat(front), last);
    }
  }

  lemma SharesAreCounts(sizes: seq<nat>, n: int, total: nat, take: seq<int>, threshold: nat)
    requires n >= 0 && total > 0 && LargestRemainders(sizes, n, total, take, threshold)
    ensures forall k :: 0 <= k < |take| ==> take[k] >= 0
  {
    forall k | 0 <= k < |take| ensures take[k] >= 0 {
      NonNegative(sizes[k], n);
      assert Scaled(sizes[k], n) >= 0;
      assert RoundedAt(sizes[k], n, total, take[k], threshold);
    }
  }

  lemma {:induction false} SizesSum(groups: seq<seq<nat>>)
    ensures Sum(Sizes(groups)) == TotalSize(groups)
  {
    if groups != [] {
      SizesSum(groups[..|groups| - 1]);
      assert Sizes(groups)[..|groups| - 1] == Sizes(groups[..|groups| - 1]);
    }
  }

  // ---- the sample

  /** The values of a row's grouping columns as one stratum label. */
  function Joined(columns: seq<string>): string {
    if columns == [] then ""
    else if |columns| == 1 then columns[0]
    else Joined(columns[..|columns| - 1]) + "|" + columns[|columns| - 1]
  }

  function Labels(pool: seq<seq<string>>): seq<string> {
    seq(|pool|, i requires 0 <= i < |pool| => Joined(pool[i]))
  }

  /** How many of the rows are in a stratum. */
  function Taken(labels: seq<string>, rows: seq<nat>, stratum: string): nat {
    |PlacesOf(labels, stratum) * Elements(rows)|
  }

  ghost predicate QuotasRounded(labels: seq<string>, rows: seq<nat>, threshold: nat) {
    labels != [] && threshold <= |labels| && forall stratum :: stratum in labels ==>
      RoundedAt(|PlacesOf(labels, stratum)|, |rows|, |labels|, Taken(labels, rows, stratum), threshold)
  }

  /** Every stratum gives its quota of the rows, rounded down or up by largest remainders. */
  ghost predicate Proportional(labels: seq<string>, rows: seq<nat>) {
    exists threshold: nat :: QuotasRounded(labels, rows, threshold)
  }

  lemma PartIsTaken(labels: seq<string>, keys: seq<string>, groups: seq<seq<nat>>, take: seq<int>,
                    parts: seq<seq<nat>>, g: nat)
    requires Grouped(labels, keys, groups) && DrawnFrom(groups, take, parts) && |parts| == |groups| && g < |groups|
    ensures |PlacesOf(labels, keys[g])| == |groups[g]| && Taken(labels, Concat(parts), keys[g]) == take[g]
  {
    GroupsAreApart(labels, keys, groups);
    ConcatFacts(groups, take, parts);
    DistinctSize(groups[g]);
    DistinctSize(parts[g]);
    forall x | x in PlacesOf(labels, keys[g]) * Elements(Concat(parts)) ensures x in parts[g] {
      var k :| 0 <= k < |parts| && x in parts[k];
      assert x in groups[k] && x in Elements(groups[g]);
    }
    forall x | x in parts[g] ensures x in PlacesOf(labels, keys[g]) {
      assert x in Elements(groups[g]);
    }
    assert PlacesOf(labels, keys[g]) * Elements(Concat(parts)) == Elements(parts[g]);
  }

  lemma PartsAreProportional(labels: seq<string>, keys: seq<string>, groups: seq<seq<nat>>, take: seq<int>,
                             parts: seq<seq<nat>>, threshold: nat)
    requires Grouped(labels, keys, groups) && DrawnFrom(groups, take, parts) && |parts| == |groups| && labels != []
    requires LargestRemainders(Sizes(groups), |Concat(parts)|, |labels|, take, threshold)
    ensures Proportional(labels, Concat(parts))
  {
    forall stratum | stratum in labels
      ensures RoundedAt(|PlacesOf(labels, stratum)|, |Concat(parts)|, |labels|,
                        Taken(labels, Concat(parts), stratum), threshold)
    {
      var g :| 0 <= g < |keys| && keys[g] == stratum;
      PartIsTaken(labels, keys, groups, take, parts, g);
    }
    assert QuotasRounded(labels, Concat(parts), threshold);
  }

  /**
   * A sample spread over the strata: exactly the number asked for, or the whole pool, of
   * different rows, and every stratum gives its proportional quota, rounded down or up.
   */
  method Sample(pool: seq<seq<string>>, wanted: int) returns (rows: seq<nat>)
    ensures |rows| == if wanted <= 0 then 0 else if wanted <= |pool| then wanted else |pool|
    ensures Distinct(rows) && forall x :: x in rows ==> x < |pool|
    ensures wanted > 0 && pool != [] ==> Proportional(Labels(pool), rows)
  {
    rows := [];
    if wanted <= 0 || pool == [] {
      return;
    }
    var labels := Labels(pool);
    var keys, groups := ListGroups(labels);
    GroupsHoldAll(labels, keys, groups);
    GroupsAreApart(labels, keys, groups);
    var sizes := Sizes(groups);
    SizesSum(groups);
    var take := Allocate(sizes, wanted);
    ghost var threshold: nat :| LargestRemainders(sizes, Sum(take), Sum(sizes), take, threshold);
    SharesAreCounts(sizes, Sum(take), Sum(sizes), take, threshold);
    var parts := DrawAll(groups, take);
    ConcatFacts(groups, take, parts);
    assert take[..|groups|] == take;
    rows := Concat(parts);
    PartsAreProportional(labels, keys, groups, take, parts, threshold);
    RowsInPool(labels, keys, groups, take, parts);
  }

  lemma RowsInPool(labels: seq<string>, keys: seq<string>, groups: seq<seq<nat>>, take: seq<int>, parts: seq<seq<nat>>)
    requires Grouped(labels, keys, groups) && DrawnFrom(groups, take, parts)
    ensures forall x :: x in Concat(parts) ==> x < |labels|
  {
    GroupsAreApart(labels, keys, groups);
    ConcatFacts(groups, take, parts);
    forall x | x in Concat(parts) ensures x < |labels| {
      var k :| 0 <= k < |parts| && x in parts[k];
      assert x in Elements(groups[k]);
    }
  }

  // ---- what the labels and the deviation mean

  /** The deviation of a share is its distance from the exact quota, in units of one total-th. */
  lemma OffIsDistance(s: nat, n: int, total: Positive, x: int, quota: real)
    requires quota * total as real == (s * n) as real
    ensures Off(s, n, total, x) as real
            == if x as real >= quota then (x as real - quota) * total as real else (quota - x as real) * total as real
  {
    TimesDifference(x as real, quota, total as real);
    assert x as real * total as real == (x * total) as real;
  }

  lemma TimesDifference(x: real, y: real, t: real)
    requires t > 0.0
    ensures (x - y) * t == x * t - y * t && (y - x) * t == y * t - x * t
    ensures x >= y <==> x * t >= y * t
  {
  }

  /** Two texts that end in a bar and a text without one agree only if both parts do. */
  lemma LastBarTells(a: string, x: string, b: string, y: string)
    requires a + "|" + x == b + "|" + y && '|' !in x && '|' !in y
    ensures a == b && x == y
  {
    var s := a + "|" + x;
    assert s[|a|] == '|' && s[|b|] == '|' by {
      assert s == b + "|" + y;
    }
    assert s[..|a|] == a && s[|a| + 1..] == x;
    assert (b + "|" + y)[..|b|] == b && (b + "|" + y)[|b| + 1..] == y;
  }

  /** Rows with equally many columns and no bar in them share a stratum exactly when all columns agree. */
  lemma {:induction false} StrataAreColumns(c: seq<string>, d: seq<string>)
    requires |c| == |d| && (forall x :: x in c ==> '|' !in x) && forall x :: x in d ==> '|' !in x
    ensures Joined(c) == Joined(d) <==> c == d
  {
    if |c| > 1 {
      var n := |c| - 1;
      StrataAreColumns(c[..n], d[..n]);
      if Joined(c) == Joined(d) {
        LastBarTells(Joined(c[..n]), c[n], Joined(d[..n]), d[n]);
      }
      assert c == c[..n] + [c[n]] && d == d[..n] + [d[n]];
    } else if |c| == 1 {
      assert c == [c[0]] && d == [d[0]];
    }
  }
}
