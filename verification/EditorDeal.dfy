/**
 * Dealing answers to editors: round-robin over (generator, tier) groups until enough are
 * picked, then, group after group, one answer to each editor in turn.
 */
module EditorDeal {
  import opened Prelude
  import opened Grouping

  /** An answer named by its group's queue and its place there. */
  datatype Pick = Pick(group: nat, place: nat)

  /** Answers are named by their place in the input; each queue holds one group's. */
  type Queues = seq<seq<nat>>

  /** Answers enter as their group keys, in the order of the input. */
  datatype Key = Key(generator: string, tier: string)

  datatype Refusal = DuplicateEditors | TooFewAnswers(needed: nat, available: nat)

  /** The picks of one group, in the order they were made. */
  function OfGroup(picked: seq<Pick>, g: nat): seq<Pick> {
    if picked == [] then []
    else OfGroup(picked[..|picked| - 1], g) + if picked[|picked| - 1].group == g then [picked[|picked| - 1]] else []
  }

  // ---- picking round-robin

  /** What is left of every queue is its front, and exactly the popped ends have been picked. */
  ghost predicate PicksEnds(queues: Queues, left: Queues, picked: seq<Pick>) {
    && |left| == |queues|
    && (forall g :: 0 <= g < |queues| ==> left[g] <= queues[g])
    && (forall p :: p in picked ==> p.group < |queues| && |left[p.group]| <= p.place < |queues[p.group]|)
    && Distinct(picked)
    && (forall g :: 0 <= g < |queues| ==> |OfGroup(picked, g)| == |queues[g]| - |left[g]|)
    && |picked| + TotalSize(left) == TotalSize(queues)
  }

  /** After some full rounds and a further one up to a group, every queue has given its turn or is empty. */
  ghost predicate TakesTurns(queues: Queues, left: Queues, rounds: nat, upTo: nat) {
    |left| == |queues| && forall g :: 0 <= g < |queues| ==>
      |queues[g]| - |left[g]| == Min(|queues[g]|, if g < upTo then rounds + 1 else rounds)
  }

  lemma {:induction false} TotalUpdate(queues: Queues, g: nat, q: seq<nat>)
    requires g < |queues|
    ensures TotalSize(queues[g := q]) == TotalSize(queues) - |queues[g]| + |q|
  {
    if g < |queues| - 1 {
      assert queues[g := q][..|queues| - 1] == queues[..|queues| - 1][g := q];
      TotalUpdate(queues[..|queues| - 1], g, q);
    } else {
      assert queues[g := q][..|queues| - 1] == queues[..|queues| - 1];
    }
  }

  lemma {:induction false} TotalOfEmpty(queues: Queues)
    requires forall g :: 0 <= g < |queues| ==> queues[g] == []
    ensures TotalSize(queues) == 0
  {
    if queues != [] {
      TotalOfEmpty(queues[..|queues| - 1]);
    }
  }

  lemma PopEnd(queues: Queues, left: Queues, picked: seq<Pick>, g: nat)
    requires PicksEnds(queues, left, picked) && g < |queues| && left[g] != []
    ensures var rest := left[g][..|left[g]| - 1];
            PicksEnds(queues, left[g := rest], picked + [Pick(g, |rest|)])
  {
    var rest := left[g][..|left[g]| - 1];
    var p := Pick(g, |rest|);
    assert (picked + [p])[..|picked|] == picked;
    TotalUpdate(left, g, rest);
    assert p !in picked;
  }

  /** Pops the end of one queue, if it has any. */
  method Visit(queues: Queues, left: Queues, picked: seq<Pick>, g: nat, ghost rounds: nat)
    returns (left': Queues, picked': seq<Pick>)
    requires PicksEnds(queues, left, picked) && TakesTurns(queues, left, rounds, g) && g < |queues|
    ensures PicksEnds(queues, left', picked') && TakesTurns(queues, left', rounds, g + 1)
    ensures |picked'| == |picked| + if left[g] != [] then 1 else 0
    ensures left[g] == [] ==> left' == left
  {
    left', picked' := left, picked;
    if left[g] != [] {
      PopEnd(queues, left, picked, g);
      var rest := left[g][..|left[g]| - 1];
      picked' := picked + [Pick(g, |rest|)];
      left' := left[g := rest];
    }
  }

  /** One visit of every queue; stops popping once enough answers are picked. */
  method Round(queues: Queues, left: Queues, picked: seq<Pick>, needed: nat, ghost rounds: nat)
    returns (left': Queues, picked': seq<Pick>, ghost upTo: nat)
    requires PicksEnds(queues, left, picked) && TakesTurns(queues, left, rounds, 0) && |picked| < needed
    ensures PicksEnds(queues, left', picked') && upTo <= |queues| && TakesTurns(queues, left', rounds, upTo)
    ensures |picked| <= |picked'| <= needed && (upTo < |queues| ==> |picked'| == needed)
    ensures |picked'| == |picked| ==> left' == left && forall g :: 0 <= g < |queues| ==> left[g] == []
  {
    left', picked', upTo := left, picked, 0;
    for g := 0 to |queues|
      invariant PicksEnds(queues, left', picked') && upTo <= g && TakesTurns(queues, left', rounds, upTo)
      invariant |picked| <= |picked'| <= needed && (upTo < g ==> |picked'| == needed)
      invariant |picked'| == |picked| ==> left' == left && forall h :: 0 <= h < g ==> left[h] == []
    {
      if |picked'| < needed {
        left', picked' := Visit(queues, left', picked', g, rounds);
        upTo := g + 1;
      }
    }
  }

  /** Two groups' totals differ by at most one unless the smaller one is exhausted. */
  ghost predicate BalancedGroups(queues: Queues, picked: seq<Pick>) {
    forall g, h :: 0 <= g < |queues| && 0 <= h < |queues| ==>
      |OfGroup(picked, h)| <= |OfGroup(picked, g)| + 1 || |OfGroup(picked, g)| == |queues[g]|
  }

  /** Picks and stops with enough answers, or with every queue empty. */
  method PickRoundRobin(queues: Queues, needed: nat) returns (picked: seq<Pick>)
    ensures Distinct(picked) && forall p :: p in picked ==> p.group < |queues| && p.place < |queues[p.group]|
    ensures |picked| == Min(needed, TotalSize(queues))
    ensures BalancedGroups(queues, picked)
  {
    var left := queues;
    picked := [];
    ghost var rounds: nat, upTo: nat := 0, 0;
    while |picked| < needed && exists g :: 0 <= g < |left| && left[g] != []
      invariant PicksEnds(queues, left, picked) && |picked| <= needed
      invariant upTo <= |queues| && TakesTurns(queues, left, rounds, upTo)
      invariant |picked| < needed ==> upTo == 0
      decreases needed - |picked|
    {
      ghost var before := left;
      left, picked, upTo := Round(queues, left, picked, needed, rounds);
      if upTo == |queues| {
        rounds, upTo := rounds + 1, 0;
      }
    }
    if |picked| < needed {
      TotalOfEmpty(left);
    }
  }

  // ---- building the queues

  /** The groups, each shuffled, in an arbitrary order: sorting before a shuffle leaves no trace. */
  method BuildQueues(answers: seq<Key>) returns (ghost keys: seq<Key>, queues: Queues)
    ensures Grouped(answers, keys, queues)
  {
    var found, groups := ListGroups(answers);
    keys, queues := found, [];
    for g := 0 to |groups|
      invariant |queues| == g
      invariant forall h :: 0 <= h < g ==> Distinct(queues[h]) && Elements(queues[h]) == PlacesOf(answers, keys[h])
    {
      var queue := Shuffle(groups[g]);
      RearrangedKeepsElements(groups[g], queue);
      queues := queues + [queue];
    }
  }

  // ---- dealing

  /** The picks sorted by group, keeping the order of picking inside each: the first `m` groups. */
  function Bucketed(picked: seq<Pick>, m: nat): seq<Pick> {
    if m == 0 then [] else Bucketed(picked, m - 1) + OfGroup(picked, m - 1)
  }

  /** Every `n`-th element from place `i` on. */
  function Stride<T>(s: seq<T>, i: nat, n: Positive): seq<T>
    decreases |s| - i
  {
    if i >= |s| then [] else [s[i]] + Stride(s, i + n, n)
  }

  /** How many of the places i, i + n, i + 2n, ... lie before `x`. */
  function Below(x: nat, i: nat, n: nat): nat
    requires i < n
  {
    (x - i + n - 1) / n
  }

  lemma {:induction false} BelowCounts(x: nat, i: nat, n: nat, t: nat)
    requires i < n
    ensures i + t * n < x <==> t < Below(x, i, n)
  {
    var q := Below(x, i, n);
    DivMod(x - i + n - 1, n);
    if t < q {
      MulMonotone(n, t + 1, q);
    } else {
      MulMonotone(n, q, t);
    }
  }

  /** Two floors a fixed length apart differ by the length's floor, or one more. */
  lemma {:induction false} FloorGap(a: nat, length: nat, n: nat)
    requires n > 0
    ensures length / n <= (a + length) / n - a / n <= length / n + 1
  {
    var p, q, r := a / n, length / n, (a + length) / n;
    DivMod(a, n);
    DivMod(length, n);
    DivMod(a + length, n);
    if r < p + q {
      MulMonotone(n, r + 1, p + q);
    }
    if r > p + q + 1 {
      MulMonotone(n, p + q + 2, r);
    }
  }

  /** Any run of places is shared by two editors with a difference of one at most. */
  lemma {:induction false} RunsAreShared(a: nat, b: nat, i: nat, j: nat, n: nat)
    requires a <= b && i < n && j < n
    ensures Below(b, i, n) - Below(a, i, n) <= Below(b, j, n) - Below(a, j, n) + 1
  {
    FloorGap(a - i + n - 1, b - a, n);
    FloorGap(a - j + n - 1, b - a, n);
  }

  lemma {:induction false} StrideAt<T>(s: seq<T>, i: nat, n: nat, t: nat)
    requires n > 0
    ensures i + t * n < |s| <==> t < |Stride(s, i, n)|
    ensures i + t * n < |s| ==> Stride(s, i, n)[t] == s[i + t * n]
    decreases |s| - i
  {
    if i < |s| {
      if t > 0 {
        assert i + n + (t - 1) * n == i + t * n;
        StrideAt(s, i + n, n, t - 1);
      }
    }
  }

  lemma StrideLength<T>(s: seq<T>, i: nat, n: nat)
    requires i < n
    ensures |Stride(s, i, n)| == Below(|s|, i, n)
  {
    var length := |Stride(s, i, n)|;
    StrideAt(s, i, n, length);
    BelowCounts(|s|, i, n, length);
    if length > 0 {
      StrideAt(s, i, n, length - 1);
      BelowCounts(|s|, i, n, length - 1);
    }
  }

  // ---- the sorted picks, group by group

  lemma {:induction false} OfGroupIsThePart(picked: seq<Pick>, g: nat)
    requires Distinct(picked)
    ensures Distinct(OfGroup(picked, g))
    ensures forall p :: p in OfGroup(picked, g) <==> p in picked && p.group == g
  {
    if picked != [] {
      var front, last := picked[..|picked| - 1], picked[|picked| - 1];
      assert picked == front + [last];
      OfGroupIsThePart(front, g);
      assert last !in front;
    }
  }

  lemma {:induction false} BucketedIsThePart(picked: seq<Pick>, m: nat)
    requires Distinct(picked)
    ensures Distinct(Bucketed(picked, m))
    ensures forall p :: p in Bucketed(picked, m) <==> p in picked && p.group < m
  {
    if m > 0 {
      BucketedIsThePart(picked, m - 1);
      OfGroupIsThePart(picked, m - 1);
      DistinctAppend(Bucketed(picked, m - 1), OfGroup(picked, m - 1));
    }
  }

  /** Sorting loses no pick. */
  lemma BucketedKeepsLength(picked: seq<Pick>, m: nat)
    requires Distinct(picked) && forall p :: p in picked ==> p.group < m
    ensures |Bucketed(picked, m)| == |picked|
  {
    BucketedIsThePart(picked, m);
    DistinctSize(picked);
    DistinctSize(Bucketed(picked, m));
    assert Elements(picked) == Elements(Bucketed(picked, m));
  }

  /** A group's picks stand together, from `Begin` of the group to `Begin` of the next. */
  function Begin(picked: seq<Pick>, g: nat): nat {
    |Bucketed(picked, g)|
  }

  lemma {:induction false} BucketedExtends(picked: seq<Pick>, g: nat, m: nat)
    requires g <= m
    ensures Bucketed(picked, g) <= Bucketed(picked, m)
  {
    if g < m {
      BucketedExtends(picked, g, m - 1);
    }
  }

  lemma GroupStandsTogether(picked: seq<Pick>, m: nat, g: nat, x: nat)
    requires Distinct(picked) && g < m && x < |Bucketed(picked, m)|
    ensures Bucketed(picked, m)[x].group == g <==> Begin(picked, g) <= x < Begin(picked, g + 1)
  {
    BucketedExtends(picked, g, m);
    BucketedExtends(picked, g + 1, m);
    BucketedIsThePart(picked, g);
    OfGroupIsThePart(picked, g);
    var all, before, upTo := Bucketed(picked, m), Bucketed(picked, g), Bucketed(picked, g + 1);
    if x < |before| {
      assert all[x] == before[x] && before[x] in before;
    } else if x < |upTo| {
      assert all[x] == upTo[x] == OfGroup(picked, g)[x - |before|];
    } else {
      BucketedIsThePart(picked, m);
      BucketedIsThePart(picked, g + 1);
      assert all[x] in all;
    }
  }

  // ---- what the editors receive

  /** The answers a list of places names that carry one key. */
  function OfKey(answers: seq<Key>, places: seq<nat>, k: Key): set<nat> {
    set a | a in places && a < |answers| && answers[a] == k
  }

  function At(queues: Queues, p: Pick): nat {
    if p.group < |queues| && p.place < |queues[p.group]| then queues[p.group][p.place] else 0
  }

  /** One editor's answers. */
  function Share(queues: Queues, ordered: seq<Pick>, i: nat, n: Positive): seq<nat> {
    var mine := Stride(ordered, i, n);
    seq(|mine|, t requires 0 <= t < |mine| => At(queues, mine[t]))
  }

  /** Distinct picks of a queue's places are all there is between a deal and the answers. */
  ghost predicate Dealable(answers: seq<Key>, keys: seq<Key>, queues: Queues, picked: seq<Pick>) {
    && Grouped(answers, keys, queues) && Distinct(picked)
    && forall p :: p in picked ==> p.group < |queues| && p.place < |queues[p.group]|
  }

  lemma PickNamesItsKey(answers: seq<Key>, keys: seq<Key>, queues: Queues, picked: seq<Pick>, p: Pick)
    requires Dealable(answers, keys, queues, picked) && p in picked
    ensures At(queues, p) < |answers| && answers[At(queues, p)] == keys[p.group]
  {
    assert At(queues, p) in Elements(queues[p.group]);
  }

  /** Two picks naming the same answer are the same pick. */
  lemma PicksNameDifferentAnswers(answers: seq<Key>, keys: seq<Key>, queues: Queues, picked: seq<Pick>, p: Pick,
                                  q: Pick)
    requires Dealable(answers, keys, queues, picked) && p in picked && q in picked && At(queues, p) == At(queues, q)
    ensures p == q
  {
    PickNamesItsKey(answers, keys, queues, picked, p);
    PickNamesItsKey(answers, keys, queues, picked, q);
    assert keys[p.group] == keys[q.group];
    assert p.group == q.group;
    assert p.place == q.place;
  }

  /** The place in the sorted picks behind an editor's `t`-th answer. */
  lemma ShareNames(queues: Queues, ordered: seq<Pick>, i: nat, n: nat, t: nat) returns (x: nat)
    requires i < n && t < |Share(queues, ordered, i, n)|
    ensures i + t * n == x < |ordered| && Share(queues, ordered, i, n)[t] == At(queues, ordered[x])
  {
    x := i + t * n;
    StrideAt(ordered, i, n, t);
  }

  lemma {:induction false} PlacesTell(i: nat, j: nat, t: nat, u: nat, n: nat)
    requires i < n && j < n && i + t * n == j + u * n
    ensures i == j && t == u
  {
    if t < u {
      MulMonotone(n, t + 1, u);
    } else if u < t {
      MulMonotone(n, u + 1, t);
    }
  }

  lemma SameAnswerSamePlace(answers: seq<Key>, keys: seq<Key>, queues: Queues, picked: seq<Pick>, x: nat, y: nat)
    requires Dealable(answers, keys, queues, picked)
    requires var ordered := Bucketed(picked, |queues|);
             x < |ordered| && y < |ordered| && At(queues, ordered[x]) == At(queues, ordered[y])
    ensures x == y
  {
    var ordered := Bucketed(picked, |queues|);
    BucketedIsThePart(picked, |queues|);
    assert ordered[x] in ordered && ordered[y] in ordered;
    PicksNameDifferentAnswers(answers, keys, queues, picked, ordered[x], ordered[y]);
  }

  /** No answer is dealt twice, to one editor or to two. */
  lemma DealtOnce(answers: seq<Key>, keys: seq<Key>, queues: Queues, picked: seq<Pick>, i: nat, j: nat, n: nat,
                  t: nat, u: nat)
    requires Dealable(answers, keys, queues, picked) && i < n && j < n
    requires t < |Share(queues, Bucketed(picked, |queues|), i, n)|
    requires u < |Share(queues, Bucketed(picked, |queues|), j, n)|
    requires Share(queues, Bucketed(picked, |queues|), i, n)[t] == Share(queues, Bucketed(picked, |queues|), j, n)[u]
    ensures i == j && t == u
  {
    var ordered := Bucketed(picked, |queues|);
    var x := ShareNames(queues, ordered, i, n, t);
    var y := ShareNames(queues, ordered, j, n, u);
    SameAnswerSamePlace(answers, keys, queues, picked, x, y);
    PlacesTell(i, j, t, u, n);
  }

  /** Which of an editor's answers come from a group: those between two places of the share. */
  lemma ShareOfGroup(answers: seq<Key>, keys: seq<Key>, queues: Queues, picked: seq<Pick>, i: nat, n: nat, g: nat,
                     t: nat)
    requires Dealable(answers, keys, queues, picked) && i < n && g < |queues|
    requires t < |Share(queues, Bucketed(picked, |queues|), i, n)|
    ensures var a := Share(queues, Bucketed(picked, |queues|), i, n)[t];
            && a < |answers|
            && (answers[a] == keys[g] <==>
                Below(Begin(picked, g), i, n) <= t < Below(Begin(picked, g + 1), i, n))
  {
    var ordered := Bucketed(picked, |queues|);
    var x := ShareNames(queues, ordered, i, n, t);
    BucketedIsThePart(picked, |queues|);
    assert ordered[x] in ordered;
    PickNamesItsKey(answers, keys, queues, picked, ordered[x]);
    GroupStandsTogether(picked, |queues|, g, x);
    BelowCounts(Begin(picked, g), i, n, t);
    BelowCounts(Begin(picked, g + 1), i, n, t);
  }

  lemma {:induction false} BelowMonotone(x: nat, y: nat, i: nat, n: nat)
    requires x <= y && i < n
    ensures Below(x, i, n) <= Below(y, i, n)
  {
    if Below(y, i, n) < Below(x, i, n) {
      BelowCounts(x, i, n, Below(y, i, n));
      BelowCounts(y, i, n, Below(y, i, n));
    }
  }

  lemma {:induction false} ShareCounts(answers: seq<Key>, keys: seq<Key>, queues: Queues, picked: seq<Pick>, i: nat,
                                       n: nat, g: nat)
    requires Dealable(answers, keys, queues, picked) && i < n && g < |queues|
    ensures var share := Share(queues, Bucketed(picked, |queues|), i, n);
            |OfKey(answers, share, keys[g])| == Below(Begin(picked, g + 1), i, n) - Below(Begin(picked, g), i, n)
  {
    var ordered := Bucketed(picked, |queues|);
    var share := Share(queues, ordered, i, n);
    var lo, hi := Below(Begin(picked, g), i, n), Below(Begin(picked, g + 1), i, n);
    BucketedExtends(picked, g, g + 1);
    BucketedExtends(picked, g + 1, |queues|);
    BelowMonotone(Begin(picked, g), Begin(picked, g + 1), i, n);
    BelowMonotone(Begin(picked, g + 1), |ordered|, i, n);
    StrideLength(ordered, i, n);
    StretchCounts(answers, keys, queues, picked, i, n, g, lo, hi);
  }

  lemma StretchCounts(answers: seq<Key>, keys: seq<Key>, queues: Queues, picked: seq<Pick>, i: nat, n: nat, g: nat,
                      lo: nat, hi: nat)
    requires Dealable(answers, keys, queues, picked) && i < n && g < |queues|
    requires lo == Below(Begin(picked, g), i, n) && hi == Below(Begin(picked, g + 1), i, n)
    requires lo <= hi <= |Share(queues, Bucketed(picked, |queues|), i, n)|
    ensures |OfKey(answers, Share(queues, Bucketed(picked, |queues|), i, n), keys[g])| == hi - lo
  {
    var share := Share(queues, Bucketed(picked, |queues|), i, n);
    forall t: nat | t < |share| ensures share[t] < |answers| && (answers[share[t]] == keys[g] <==> lo <= t < hi) {
      ShareOfGroup(answers, keys, queues, picked, i, n, g, t);
    }
    ShareIsDistinct(answers, keys, queues, picked, i, n);
    StretchIsKey(answers, share, keys[g], lo, hi);
  }

  lemma StretchIsKey(answers: seq<Key>, share: seq<nat>, k: Key, lo: nat, hi: nat)
    requires lo <= hi <= |share| && Distinct(share)
    requires forall t :: 0 <= t < |share| ==> share[t] < |answers| && (answers[share[t]] == k <==> lo <= t < hi)
    ensures |OfKey(answers, share, k)| == hi - lo
  {
    var part := share[lo..hi];
    assert OfKey(answers, share, k) == Elements(part);
    DistinctSize(part);
  }

  lemma ShareIsDistinct(answers: seq<Key>, keys: seq<Key>, queues: Queues, picked: seq<Pick>, i: nat, n: nat)
    requires Dealable(answers, keys, queues, picked) && i < n
    ensures Distinct(Share(queues, Bucketed(picked, |queues|), i, n))
  {
    var share := Share(queues, Bucketed(picked, |queues|), i, n);
    forall t, u | 0 <= t < u < |share| ensures share[t] != share[u] {
      if share[t] == share[u] {
        DealtOnce(answers, keys, queues, picked, i, i, n, t, u);
      }
    }
  }

  // ---- the whole deal

  /** All answers of one key that some editor receives. */
  ghost function Dealt(answers: seq<Key>, deal: map<string, seq<nat>>, k: Key): set<nat> {
    set a: nat | a < |answers| && answers[a] == k && exists e :: e in deal && a in deal[e]
  }

  /** Every editor has the agreed number of answers, and nobody shares one. */
  ghost predicate DealtApart(answers: seq<Key>, editors: seq<string>, perEditor: nat, deal: map<string, seq<nat>>) {
    && deal.Keys == Elements(editors)
    && (forall e | e in deal :: |deal[e]| == perEditor && Distinct(deal[e]) && forall a | a in deal[e] :: a < |answers|)
    && (forall e, f | e in deal && f in deal && e != f :: Elements(deal[e]) !! Elements(deal[f]))
  }

  /** Inside a group two editors' counts differ by at most one. */
  ghost predicate EvenForEditors(answers: seq<Key>, deal: map<string, seq<nat>>) {
    forall e, f, k | e in deal && f in deal ::
      |OfKey(answers, deal[e], k)| <= |OfKey(answers, deal[f], k)| + 1
  }

  /** Two groups' totals differ by at most one, unless the smaller group is dealt out. */
  ghost predicate EvenAcrossGroups(answers: seq<Key>, deal: map<string, seq<nat>>) {
    forall k, l :: |Dealt(answers, deal, l)| <= |Dealt(answers, deal, k)| + 1
                   || Dealt(answers, deal, k) == PlacesOf(answers, k)
  }

  /** The deal built from the sorted picks. */
  ghost predicate DealOf(queues: Queues, picked: seq<Pick>, editors: seq<string>, deal: map<string, seq<nat>>) {
    && Distinct(editors) && deal.Keys == Elements(editors)
    && forall i :: 0 <= i < |editors| ==>
         deal[editors[i]] == Share(queues, Bucketed(picked, |queues|), i, |editors|)
  }

  lemma ShareIsFull(queues: Queues, picked: seq<Pick>, i: nat, n: nat, perEditor: nat)
    requires Distinct(picked) && forall p :: p in picked ==> p.group < |queues|
    requires i < n && |picked| == n * perEditor
    ensures |Share(queues, Bucketed(picked, |queues|), i, n)| == perEditor
  {
    var ordered := Bucketed(picked, |queues|);
    BucketedKeepsLength(picked, |queues|);
    StrideLength(ordered, i, n);
    FullStride(n, perEditor, i);
  }

  lemma {:induction false} FullStride(n: nat, perEditor: nat, i: nat)
    requires i < n
    ensures Below(n * perEditor, i, n) == perEditor
  {
    BelowCounts(n * perEditor, i, n, perEditor);
    if perEditor > 0 {
      BelowCounts(n * perEditor, i, n, perEditor - 1);
    }
  }

  lemma DealIsApart(answers: seq<Key>, keys: seq<Key>, queues: Queues, picked: seq<Pick>, editors: seq<string>,
                    perEditor: nat, deal: map<string, seq<nat>>)
    requires Dealable(answers, keys, queues, picked) && |picked| == |editors| * perEditor
    requires DealOf(queues, picked, editors, deal)
    ensures DealtApart(answers, editors, perEditor, deal)
  {
    var n := |editors|;
    forall i | 0 <= i < n
      ensures |deal[editors[i]]| == perEditor && Distinct(deal[editors[i]])
              && forall a | a in deal[editors[i]] :: a < |answers|
    {
      ShareIsFull(queues, picked, i, n, perEditor);
      ShareIsDistinct(answers, keys, queues, picked, i, n);
      ShareInRange(answers, keys, queues, picked, i, n);
    }
    forall i, j | 0 <= i < n && 0 <= j < n && i != j
      ensures Elements(deal[editors[i]]) !! Elements(deal[editors[j]])
    {
      SharesApart(answers, keys, queues, picked, i, j, n);
    }
  }

  lemma ShareInRange(answers: seq<Key>, keys: seq<Key>, queues: Queues, picked: seq<Pick>, i: nat, n: nat)
    requires Dealable(answers, keys, queues, picked) && i < n
    ensures forall a | a in Share(queues, Bucketed(picked, |queues|), i, n) :: a < |answers|
  {
    var ordered := Bucketed(picked, |queues|);
    var share := Share(queues, ordered, i, n);
    BucketedIsThePart(picked, |queues|);
    forall t: nat | t < |share| ensures share[t] < |answers| {
      var x := ShareNames(queues, ordered, i, n, t);
      assert ordered[x] in ordered;
      PickNamesItsKey(answers, keys, queues, picked, ordered[x]);
    }
  }

  lemma SharesApart(answers: seq<Key>, keys: seq<Key>, queues: Queues, picked: seq<Pick>, i: nat, j: nat, n: nat)
    requires Dealable(answers, keys, queues, picked) && i < n && j < n && i != j
    ensures Elements(Share(queues, Bucketed(picked, |queues|), i, n))
            !! Elements(Share(queues, Bucketed(picked, |queues|), j, n))
  {
    var mine, yours := Share(queues, Bucketed(picked, |queues|), i, n), Share(queues, Bucketed(picked, |queues|), j, n);
    forall t: nat, u: nat | t < |mine| && u < |yours| ensures mine[t] != yours[u] {
      if mine[t] == yours[u] {
        DealtOnce(answers, keys, queues, picked, i, j, n, t, u);
      }
    }
  }

  lemma DealIsEvenForEditors(answers: seq<Key>, keys: seq<Key>, queues: Queues, picked: seq<Pick>,
                             editors: seq<string>, deal: map<string, seq<nat>>)
    requires Dealable(answers, keys, queues, picked) && DealOf(queues, picked, editors, deal)
    ensures EvenForEditors(answers, deal)
  {
    var n := |editors|;
    forall i, j, k | 0 <= i < n && 0 <= j < n
      ensures |OfKey(answers, deal[editors[i]], k)| <= |OfKey(answers, deal[editors[j]], k)| + 1
    {
      if k in keys {
        var g: nat :| g < |keys| && keys[g] == k;
        ShareCounts(answers, keys, queues, picked, i, n, g);
        ShareCounts(answers, keys, queues, picked, j, n, g);
        RunsAreShared(Begin(picked, g), Begin(picked, g + 1), i, j, n);
      } else {
        assert OfKey(answers, deal[editors[i]], k) == {};
      }
    }
  }

  lemma ShareReaches(queues: Queues, ordered: seq<Pick>, x: nat, n: nat) returns (i: nat, t: nat)
    requires x < |ordered| && n > 0
    ensures i < n && t < |Share(queues, ordered, i, n)| && Share(queues, ordered, i, n)[t] == At(queues, ordered[x])
  {
    i, t := x % n, x / n;
    assert i + t * n == x;
    StrideAt(ordered, i, n, t);
  }

  /** Every pick reaches an editor, and every editor's answer was picked. */
  lemma PicksAreDealt(answers: seq<Key>, keys: seq<Key>, queues: Queues, picked: seq<Pick>,
                      editors: seq<string>, deal: map<string, seq<nat>>, p: Pick)
    requires Dealable(answers, keys, queues, picked) && DealOf(queues, picked, editors, deal)
    requires editors != [] && p in picked
    ensures exists e :: e in deal && At(queues, p) in deal[e]
  {
    var n, ordered := |editors|, Bucketed(picked, |queues|);
    BucketedIsThePart(picked, |queues|);
    assert p in ordered;
    var x: nat :| x < |ordered| && ordered[x] == p;
    var i, t := ShareReaches(queues, ordered, x, n);
    assert deal[editors[i]][t] == At(queues, p);
  }

  lemma DealtWerePicked(answers: seq<Key>, keys: seq<Key>, queues: Queues, picked: seq<Pick>,
                        editors: seq<string>, deal: map<string, seq<nat>>, e: string, a: nat)
    requires Dealable(answers, keys, queues, picked) && DealOf(queues, picked, editors, deal)
    requires e in deal && a in deal[e]
    ensures exists p :: p in picked && At(queues, p) == a
  {
    var n, ordered := |editors|, Bucketed(picked, |queues|);
    BucketedIsThePart(picked, |queues|);
    var i :| 0 <= i < n && editors[i] == e;
    var t: nat :| t < |Share(queues, ordered, i, n)| && Share(queues, ordered, i, n)[t] == a;
    var x := ShareNames(queues, ordered, i, n, t);
    assert ordered[x] in ordered;
  }

  /** The answers behind one group's picks. */
  function Named(queues: Queues, picked: seq<Pick>, g: nat): seq<nat> {
    var part := OfGroup(picked, g);
    seq(|part|, x requires 0 <= x < |part| => At(queues, part[x]))
  }

  lemma NamedIsDistinct(answers: seq<Key>, keys: seq<Key>, queues: Queues, picked: seq<Pick>, g: nat)
    requires Dealable(answers, keys, queues, picked)
    ensures Distinct(Named(queues, picked, g))
  {
    var part, named := OfGroup(picked, g), Named(queues, picked, g);
    OfGroupIsThePart(picked, g);
    forall x, y | 0 <= x < y < |part| ensures named[x] != named[y] {
      if named[x] == named[y] {
        assert part[x] in part && part[y] in part;
        PicksNameDifferentAnswers(answers, keys, queues, picked, part[x], part[y]);
      }
    }
  }

  lemma NamedAreDealt(answers: seq<Key>, keys: seq<Key>, queues: Queues, picked: seq<Pick>,
                      editors: seq<string>, deal: map<string, seq<nat>>, g: nat)
    requires Dealable(answers, keys, queues, picked) && DealOf(queues, picked, editors, deal)
    requires editors != [] && g < |queues|
    ensures Elements(Named(queues, picked, g)) <= Dealt(answers, deal, keys[g])
  {
    var part, named := OfGroup(picked, g), Named(queues, picked, g);
    OfGroupIsThePart(picked, g);
    forall x | 0 <= x < |named| ensures named[x] in Dealt(answers, deal, keys[g]) {
      assert part[x] in part;
      PickNamesItsKey(answers, keys, queues, picked, part[x]);
      PicksAreDealt(answers, keys, queues, picked, editors, deal, part[x]);
    }
  }

  lemma DealtAreNamed(answers: seq<Key>, keys: seq<Key>, queues: Queues, picked: seq<Pick>,
                      editors: seq<string>, deal: map<string, seq<nat>>, g: nat)
    requires Dealable(answers, keys, queues, picked) && DealOf(queues, picked, editors, deal)
    requires g < |queues|
    ensures Dealt(answers, deal, keys[g]) <= Elements(Named(queues, picked, g))
  {
    var part, named := OfGroup(picked, g), Named(queues, picked, g);
    OfGroupIsThePart(picked, g);
    forall a | a in Dealt(answers, deal, keys[g]) ensures a in named {
      var e :| e in deal && a in deal[e];
      DealtWerePicked(answers, keys, queues, picked, editors, deal, e, a);
      var p :| p in picked && At(queues, p) == a;
      PickNamesItsKey(answers, keys, queues, picked, p);
      assert p in part;
      var x :| 0 <= x < |part| && part[x] == p;
      assert named[x] == a;
    }
  }

  lemma DealtCounts(answers: seq<Key>, keys: seq<Key>, queues: Queues, picked: seq<Pick>,
                    editors: seq<string>, deal: map<string, seq<nat>>, g: nat)
    requires Dealable(answers, keys, queues, picked) && DealOf(queues, picked, editors, deal)
    requires editors != [] && g < |queues|
    ensures |Dealt(answers, deal, keys[g])| == |OfGroup(picked, g)|
  {
    NamedIsDistinct(answers, keys, queues, picked, g);
    NamedAreDealt(answers, keys, queues, picked, editors, deal, g);
    DealtAreNamed(answers, keys, queues, picked, editors, deal, g);
    DistinctSize(Named(queues, picked, g));
    assert Elements(Named(queues, picked, g)) == Dealt(answers, deal, keys[g]);
  }

  lemma DealIsEvenAcrossGroups(answers: seq<Key>, keys: seq<Key>, queues: Queues, picked: seq<Pick>,
                               editors: seq<string>, deal: map<string, seq<nat>>)
    requires Dealable(answers, keys, queues, picked) && DealOf(queues, picked, editors, deal)
    requires BalancedGroups(queues, picked)
    ensures EvenAcrossGroups(answers, deal)
  {
    forall k, l
      ensures || |Dealt(answers, deal, l)| <= |Dealt(answers, deal, k)| + 1
              || Dealt(answers, deal, k) == PlacesOf(answers, k)
    {
      if editors == [] || l !in keys {
        assert Dealt(answers, deal, l) == {};
      } else if k !in keys {
        assert Dealt(answers, deal, k) == PlacesOf(answers, k);
      } else {
        var g: nat :| g < |keys| && keys[g] == k;
        var h: nat :| h < |keys| && keys[h] == l;
        DealtCounts(answers, keys, queues, picked, editors, deal, g);
        DealtCounts(answers, keys, queues, picked, editors, deal, h);
        if |OfGroup(picked, g)| == |queues[g]| {
          DistinctSize(queues[g]);
          SubsetSize(Dealt(answers, deal, k), PlacesOf(answers, k));
        }
      }
    }
  }

  /** Refuses exactly on a repeated editor or too few answers; otherwise the deal is full, disjoint and even. */
  method PickForEditors(answers: seq<Key>, editors: seq<string>, perEditor: nat)
    returns (r: Result<map<string, seq<nat>>, Refusal>)
    ensures r.Err? <==> !Distinct(editors) || |answers| < |editors| * perEditor
    ensures r.Err? ==> r.error == if !Distinct(editors) then DuplicateEditors
                                  else TooFewAnswers(|editors| * perEditor, |answers|)
    ensures r.Ok? ==> DealtApart(answers, editors, perEditor, r.value)
                      && EvenForEditors(answers, r.value) && EvenAcrossGroups(answers, r.value)
  {
    var names := set e | e in editors;
    RepeatsShrink(editors);
    if |names| != |editors| {
      return Err(DuplicateEditors);
    }
    var needed := |editors| * perEditor;
    var keys, queues := BuildQueues(answers);
    GroupsHoldAll(answers, keys, queues);
    var picked := PickRoundRobin(queues, needed);
    if |picked| < needed {
      return Err(TooFewAnswers(needed, |picked|));
    }
    var ordered := Bucketed(picked, |queues|);
    var deal: map<string, seq<nat>> := map[];
    for i := 0 to |editors|
      invariant deal.Keys == Elements(editors[..i])
      invariant forall j :: 0 <= j < i ==> deal[editors[j]] == Share(queues, ordered, j, |editors|)
    {
      deal := deal[editors[i] := Share(queues, ordered, i, |editors|)];
    }
    assert editors[..|editors|] == editors;
    DealIsApart(answers, keys, queues, picked, editors, perEditor, deal);
    DealIsEvenForEditors(answers, keys, queues, picked, editors, deal);
    DealIsEvenAcrossGroups(answers, keys, queues, picked, editors, deal);
    r := Ok(deal);
  }
}
