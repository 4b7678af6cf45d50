/**
 * Word edit distance: the rolling two-row computation, the distance it computes, and the
 * independent meaning of that distance as a shortest chain of single-word edits.
 */
module EditDistance {
  import opened Prelude

  type Words = seq<string>

  function Differs(x: string, y: string): nat {
    if x != y then 1 else 0
  }

  function Front(s: Words): Words
    requires |s| > 0
  {
    s[..|s| - 1]
  }

  function Last(s: Words): string
    requires |s| > 0
  {
    s[|s| - 1]
  }

  /** The distance, by the last word of each list. */
  function Distance(a: Words, b: Words): nat
    decreases |a| + |b|
  {
    if |a| == 0 then |b|
    else if |b| == 0 then |a|
    else Min(Min(Distance(Front(a), b) + 1, Distance(a, Front(b)) + 1),
             Distance(Front(a), Front(b)) + Differs(Last(a), Last(b)))
  }

  // ---- the computation

  /** The row of distances from a prefix of a to every prefix of b. */
  ghost predicate IsRow(row: seq<nat>, a: Words, b: Words, width: nat) {
    |row| == width <= |b| + 1 && forall j :: 0 <= j < width ==> row[j] == Distance(a, b[..j])
  }

  /** The value the loop computes for one cell from its three neighbours. */
  function Cheapest(above: nat, left: nat, diagonal: nat, x: string, y: string): nat {
    Min(Min(above + 1, left + 1), diagonal + Differs(x, y))
  }

  lemma Cell(a: Words, b: Words, x: string, y: string)
    ensures Distance(a + [x], b + [y])
            == Cheapest(Distance(a, b + [y]), Distance(a + [x], b), Distance(a, b), x, y)
  {
    assert Front(a + [x]) == a && Front(b + [y]) == b;
  }

  /** One row from the row above it. */
  method NextRow(a: Words, b: Words, i: nat, previous: seq<nat>) returns (current: seq<nat>)
    requires 0 < i <= |a| && IsRow(previous, a[..i - 1], b, |b| + 1)
    ensures IsRow(current, a[..i], b, |b| + 1)
  {
    current := [i];
    for j := 1 to |b| + 1
      invariant IsRow(current, a[..i], b, j)
    {
      var next := Cheapest(previous[j], current[j - 1], previous[j - 1], a[i - 1], b[j - 1]);
      assert next == Distance(a[..i], b[..j]) by {
        assert a[..i] == a[..i - 1] + [a[i - 1]] && b[..j] == b[..j - 1] + [b[j - 1]];
        Cell(a[..i - 1], b[..j - 1], a[i - 1], b[j - 1]);
      }
      current := current + [next];
    }
  }

  /** The last row, keeping only two rows at a time. */
  method LastRow(a: Words, b: Words) returns (previous: seq<nat>)
    ensures IsRow(previous, a, b, |b| + 1)
  {
    previous := seq(|b| + 1, (j: nat) => j);
    for i := 1 to |a| + 1
      invariant IsRow(previous, a[..i - 1], b, |b| + 1)
    {
      previous := NextRow(a, b, i, previous);
    }
    assert a[..|a|] == a;
  }

  lemma ShareOfLonger(d: nat, n: nat)
    requires d <= n && n > 0
    ensures 0.0 <= d as real / n as real <= 1.0
    ensures d as real / n as real == 0.0 <==> d == 0
  {
  }

  /** The distance over the longer length, and 0 for two empty lists. */
  function Share(a: Words, b: Words): real {
    if a == [] && b == [] then 0.0 else Distance(a, b) as real / Max(|a|, |b|) as real
  }

  /** The share of the longer list that has to be edited. */
  method WordEditDistance(a: Words, b: Words) returns (share: real)
    ensures share == Share(a, b)
    ensures a == [] && b == [] ==> share == 0.0
    ensures a != [] || b != [] ==> IsLeastShare(share, a, b, Max(|a|, |b|))
    ensures 0.0 <= share <= 1.0
    ensures share == 0.0 <==> a == b
  {
    if a == [] && b == [] {
      return 0.0;
    }
    var previous := LastRow(a, b);
    assert b[..|b|] == b;
    share := previous[|previous| - 1] as real / Max(|a|, |b|) as real;
    Bounds(a, b);
    ZeroOnlyOnEqual(a, b);
    ShareOfLonger(Distance(a, b), Max(|a|, |b|));
    DistanceIsLeastShare(a, b, Max(|a|, |b|));
  }

  // ---- laws of the distance

  lemma {:induction false} Bounds(a: Words, b: Words)
    ensures Distance(a, b) <= Max(|a|, |b|)
    ensures Distance(a, b) >= |a| - |b| && Distance(a, b) >= |b| - |a|
    decreases |a| + |b|
  {
    if |a| > 0 && |b| > 0 {
      Bounds(Front(a), b);
      Bounds(a, Front(b));
      Bounds(Front(a), Front(b));
    }
  }

  lemma {:induction false} ZeroOnlyOnEqual(a: Words, b: Words)
    ensures Distance(a, b) == 0 <==> a == b
    decreases |a| + |b|
  {
    if |a| > 0 && |b| > 0 {
      ZeroOnlyOnEqual(Front(a), Front(b));
      assert a == Front(a) + [Last(a)] && b == Front(b) + [Last(b)];
    }
  }

  lemma {:induction false} Symmetric(a: Words, b: Words)
    ensures Distance(a, b) == Distance(b, a)
    decreases |a| + |b|
  {
    if |a| > 0 && |b| > 0 {
      Symmetric(Front(a), b);
      Symmetric(a, Front(b));
      Symmetric(Front(a), Front(b));
    }
  }

  lemma {:induction false} Triangle(a: Words, b: Words, c: Words)
    ensures Distance(a, c) <= Distance(a, b) + Distance(b, c)
    decreases |a| + |b| + |c|
  {
    if |a| == 0 || |b| == 0 || |c| == 0 {
      Bounds(a, b);
      Bounds(b, c);
      Bounds(a, c);
    } else if Distance(a, b) == Distance(Front(a), b) + 1 {
      Triangle(Front(a), b, c);
    } else if Distance(b, c) == Distance(b, Front(c)) + 1 {
      Triangle(a, b, Front(c));
    } else if Distance(a, b) == Distance(a, Front(b)) + 1 {
      if Distance(b, c) == Distance(Front(b), c) + 1 {
        Triangle(a, Front(b), c);
      } else {
        Triangle(a, Front(b), Front(c));
      }
    } else if Distance(b, c) == Distance(Front(b), c) + 1 {
      Triangle(Front(a), Front(b), c);
    } else {
      Triangle(Front(a), Front(b), Front(c));
    }
  }

  // ---- the distance as a shortest chain of edits

  /** t is s without its k-th word. */
  ghost predicate Deletes(s: Words, t: Words, k: nat) {
    k < |s| && t == s[..k] + s[k + 1..]
  }

  /** t is s with at most its k-th word changed. */
  ghost predicate Substitutes(s: Words, t: Words, k: nat) {
    |s| == |t| && k < |s| && t == s[..k] + [t[k]] + s[k + 1..]
  }

  /** One word inserted, deleted or substituted. */
  ghost predicate OneEdit(s: Words, t: Words) {
    || (exists k :: Deletes(s, t, k))
    || (exists k :: Deletes(t, s, k))
    || (exists k :: Substitutes(s, t, k))
  }

  ghost predicate Chain(path: seq<Words>, a: Words, b: Words) {
    && |path| > 0 && path[0] == a && path[|path| - 1] == b
    && forall k :: 0 < k < |path| ==> OneEdit(path[k - 1], path[k])
  }

  /** A common last part costs nothing. */
  lemma {:induction false} CommonSuffix(a: Words, b: Words, q: Words)
    ensures Distance(a + q, b + q) <= Distance(a, b)
  {
    if |q| == 0 {
      assert a + q == a && b + q == b;
    } else {
      CommonSuffix(a, b, Front(q));
      assert Front(a + q) == a + Front(q) && Front(b + q) == b + Front(q);
    }
  }

  lemma DeletionCostsOne(s: Words, t: Words, k: nat)
    requires Deletes(s, t, k)
    ensures Distance(s, t) <= 1
  {
    var p := s[..k];
    CommonSuffix(p + [s[k]], p, s[k + 1..]);
    assert s == p + [s[k]] + s[k + 1..];
    assert Front(p + [s[k]]) == p;
    ZeroOnlyOnEqual(p, p);
    Bounds(p + [s[k]], p);
  }

  lemma SubstitutionCostsOne(s: Words, t: Words, k: nat)
    requires Substitutes(s, t, k)
    ensures Distance(s, t) <= 1
  {
    var p := s[..k];
    CommonSuffix(p + [s[k]], p + [t[k]], s[k + 1..]);
    assert s == p + [s[k]] + s[k + 1..];
    assert Front(p + [s[k]]) == p && Front(p + [t[k]]) == p;
    ZeroOnlyOnEqual(p, p);
  }

  lemma OneEditCostsOne(s: Words, t: Words)
    requires OneEdit(s, t)
    ensures Distance(s, t) <= 1
  {
    if k :| Deletes(s, t, k) {
      DeletionCostsOne(s, t, k);
    } else if k :| Deletes(t, s, k) {
      DeletionCostsOne(t, s, k);
      Symmetric(s, t);
    } else {
      var k :| Substitutes(s, t, k);
      SubstitutionCostsOne(s, t, k);
    }
  }

  /** No chain of edits is shorter than the distance. */
  lemma {:induction false} ChainIsNoShorter(path: seq<Words>, a: Words, b: Words)
    requires Chain(path, a, b)
    ensures Distance(a, b) <= |path| - 1
  {
    if |path| == 1 {
      ZeroOnlyOnEqual(a, b);
    } else {
      var front := path[..|path| - 1];
      var c := front[|front| - 1];
      ChainIsNoShorter(front, a, c);
      OneEditCostsOne(c, b);
      Triangle(a, c, b);
    }
  }

  lemma EditBeforeSuffix(s: Words, t: Words, w: string)
    requires OneEdit(s, t)
    ensures OneEdit(s + [w], t + [w])
  {
    if k :| Deletes(s, t, k) {
      assert Deletes(s + [w], t + [w], k);
    } else if k :| Deletes(t, s, k) {
      assert Deletes(t + [w], s + [w], k);
    } else {
      var k :| Substitutes(s, t, k);
      assert Substitutes(s + [w], t + [w], k);
    }
  }

  function AppendToAll(path: seq<Words>, w: string): seq<Words> {
    seq(|path|, k requires 0 <= k < |path| => path[k] + [w])
  }

  lemma ChainBeforeSuffix(path: seq<Words>, a: Words, b: Words, w: string)
    requires Chain(path, a, b)
    ensures Chain(AppendToAll(path, w), a + [w], b + [w])
  {
    var longer := AppendToAll(path, w);
    forall k | 0 < k < |longer|
      ensures OneEdit(longer[k - 1], longer[k])
    {
      EditBeforeSuffix(path[k - 1], path[k], w);
    }
  }

  lemma ExtendChain(path: seq<Words>, a: Words, b: Words, c: Words)
    requires Chain(path, a, b) && OneEdit(b, c)
    ensures Chain(path + [c], a, c)
  {
    var longer := path + [c];
    forall k | 0 < k < |longer|
      ensures OneEdit(longer[k - 1], longer[k])
    {
      if k == |path| {
        assert longer[k - 1] == b && longer[k] == c;
      }
    }
  }

  lemma PrependChain(path: seq<Words>, a: Words, b: Words, c: Words)
    requires Chain(path, b, c) && OneEdit(a, b)
    ensures Chain([a] + path, a, c)
  {
    var longer := [a] + path;
    forall k | 0 < k < |longer|
      ensures OneEdit(longer[k - 1], longer[k])
    {
      if k > 1 {
        assert longer[k] == path[k - 1] && longer[k - 1] == path[k - 2];
      }
    }
  }

  lemma DropLast(s: Words)
    requires |s| > 0
    ensures OneEdit(s, Front(s)) && OneEdit(Front(s), s)
  {
    assert Deletes(s, Front(s), |s| - 1);
  }

  /** Some chain of edits is exactly as long as the distance. */
  lemma {:induction false} ShortestChain(a: Words, b: Words) returns (path: seq<Words>)
    ensures Chain(path, a, b) && |path| == Distance(a, b) + 1
    decreases |a| + |b|
  {
    if |a| == 0 && |b| == 0 {
      path := [a];
    } else if |b| == 0 || (|a| > 0 && Distance(a, b) == Distance(Front(a), b) + 1) {
      var rest := ShortestChain(Front(a), b);
      DropLast(a);
      PrependChain(rest, a, Front(a), b);
      path := [a] + rest;
    } else if |a| == 0 || Distance(a, b) == Distance(a, Front(b)) + 1 {
      var rest := ShortestChain(a, Front(b));
      DropLast(b);
      ExtendChain(rest, a, Front(b), b);
      path := rest + [b];
    } else {
      var rest := ShortestChain(Front(a), Front(b));
      ChainBeforeSuffix(rest, Front(a), Front(b), Last(a));
      path := AppendToAll(rest, Last(a));
      assert a == Front(a) + [Last(a)] && b == Front(b) + [Last(b)];
      if Last(a) != Last(b) {
        var c := Front(b) + [Last(a)];
        assert Substitutes(c, b, |b| - 1);
        ExtendChain(path, a, c, b);
        path := path + [b];
      }
    }
  }

  /** The distance is the least number of single-word edits from one list to the other. */
  lemma DistanceIsLeastEdits(a: Words, b: Words)
    ensures exists path :: Chain(path, a, b) && |path| - 1 == Distance(a, b)
    ensures forall path :: Chain(path, a, b) ==> |path| - 1 >= Distance(a, b)
  {
    var shortest := ShortestChain(a, b);
    forall path | Chain(path, a, b)
      ensures |path| - 1 >= Distance(a, b)
    {
      ChainIsNoShorter(path, a, b);
    }
  }

  /** The share is that of some chain of edits in n words, and no chain has a smaller one. */
  ghost predicate IsLeastShare(share: real, a: Words, b: Words, n: Positive) {
    && (exists path :: Chain(path, a, b) && share == (|path| - 1) as real / n as real)
    && forall path :: Chain(path, a, b) ==> share <= (|path| - 1) as real / n as real
  }

  lemma PartsCompare(d: nat, e: nat, n: Positive)
    requires d <= e
    ensures d as real / n as real <= e as real / n as real
  {
  }

  lemma DistanceIsLeastShare(a: Words, b: Words, n: Positive)
    ensures IsLeastShare(Distance(a, b) as real / n as real, a, b, n)
  {
    DistanceIsLeastEdits(a, b);
    var shortest :| Chain(shortest, a, b) && |shortest| - 1 == Distance(a, b);
    forall path | Chain(path, a, b)
      ensures Distance(a, b) as real / n as real <= (|path| - 1) as real / n as real
    {
      PartsCompare(Distance(a, b), |path| - 1, n);
    }
  }

  // ---- what a normalised distance of 1 means

  ghost predicate NothingInCommon(a: Words, b: Words) {
    forall w :: w in a ==> w !in b
  }

  /** Without a common word the distance is the longer length. */
  lemma {:induction false} NothingInCommonIsOne(a: Words, b: Words)
    requires NothingInCommon(a, b)
    ensures Distance(a, b) == Max(|a|, |b|)
    decreases |a| + |b|
  {
    if |a| > 0 && |b| > 0 {
      NothingInCommonIsOne(Front(a), b);
      NothingInCommonIsOne(a, Front(b));
      NothingInCommonIsOne(Front(a), Front(b));
      assert Last(a) in a && Last(b) in b;
    }
  }

  /** One word against a list: it is kept if the list has it. */
  lemma {:induction false} OneWord(x: string, b: Words)
    requires b != []
    ensures Distance([x], b) == |b| - if x in b then 1 else 0
  {
    assert Front([x]) == [] && Last([x]) == x && b == Front(b) + [Last(b)];
    if |b| > 1 {
      OneWord(x, Front(b));
    }
  }

  /** With one word at most on one side, the longer length is reached only without a common word. */
  lemma ShortListsTell(a: Words, b: Words)
    requires |a| <= 1
    ensures Distance(a, b) == Max(|a|, |b|) <==> NothingInCommon(a, b)
  {
    if |a| == 1 && b != [] {
      assert a == [a[0]];
      OneWord(a[0], b);
    }
  }

  function Repeat(w: string, n: nat): Words {
    seq(n, _ => w)
  }

  /** A word at the end of one list and last but one in the other does not help. */
  lemma LateWordDoesNotHelp(p: Words, q: Words, x: string, y: string)
    requires |p| > |q| && x != y && x !in q && NothingInCommon(p, q + [x] + [y])
    ensures Distance(p + [x], q + [x] + [y]) == |p| + 1
  {
    Cell(p, q + [x], x, y);
    Cell(p, q, x, x);
    NothingInCommonIsOne(p, q + [x] + [y]);
    assert NothingInCommon(p, q + [x]) && NothingInCommon(p + [x], q) && NothingInCommon(p, q);
    NothingInCommonIsOne(p, q + [x]);
    NothingInCommonIsOne(p + [x], q);
    NothingInCommonIsOne(p, q);
  }

  /** Lists of any length that end in x, or in x and y. */
  function EndsInX(n: nat): Words {
    Repeat("a", n) + ["x"]
  }

  function EndsInXY(m: nat): Words {
    Repeat("b", m) + ["x"] + ["y"]
  }

  /** Lists of these lengths with a common word that are as far apart as can be. */
  ghost predicate FarPair(a: Words, b: Words, n: nat, m: nat) {
    |a| == n && |b| == m && Distance(a, b) == Max(n, m) && !NothingInCommon(a, b)
  }

  /** A pair of any lengths from two on that shares a word and is still as far apart as can be. */
  lemma SharedYetFarApart(n: nat, m: nat)
    requires n > m
    ensures FarPair(EndsInX(n), EndsInXY(m), n + 1, m + 2)
  {
    var p, q := Repeat("a", n), Repeat("b", m);
    assert forall w :: w in p ==> w == "a";
    assert forall w :: w in q + ["x"] + ["y"] ==> w == "b" || w == "x" || w == "y";
    LateWordDoesNotHelp(p, q, "x", "y");
    CommonWord(EndsInX(n), EndsInXY(m), n, m);
  }

  lemma CommonWord(a: Words, b: Words, i: nat, j: nat)
    requires i < |a| && j < |b| && a[i] == b[j]
    ensures !NothingInCommon(a, b)
  {
    assert a[i] in a && a[i] in b;
  }

  /** The reading of the longest distance as nothing in common, over all lists of two lengths. */
  ghost predicate FarthestMeansNothingInCommon(n: nat, m: nat) {
    forall a: Words, b: Words :: |a| == n && |b| == m ==> (Distance(a, b) == Max(n, m) <==> NothingInCommon(a, b))
  }

  /** That reading is right exactly for lengths one of which is at most one. */
  lemma FarthestReadRight(n: nat, m: nat)
    ensures FarthestMeansNothingInCommon(n, m) <==> n <= 1 || m <= 1
  {
    if n <= 1 || m <= 1 {
      forall a: Words, b: Words | |a| == n && |b| == m
        ensures Distance(a, b) == Max(n, m) <==> NothingInCommon(a, b)
      {
        Symmetric(a, b);
        if n <= 1 {
          ShortListsTell(a, b);
        } else {
          ShortListsTell(b, a);
        }
      }
    } else {
      FarPairExists(n, m);
    }
  }

  lemma FarPairSwaps(a: Words, b: Words, n: nat, m: nat)
    requires FarPair(a, b, n, m)
    ensures FarPair(b, a, m, n)
  {
    Symmetric(a, b);
  }

  lemma FarPairExists(n: nat, m: nat)
    requires n >= 2 && m >= 2
    ensures exists a, b :: FarPair(a, b, n, m)
  {
    if n >= m {
      SharedYetFarApart(n - 1, m - 2);
    } else {
      SharedYetFarApart(m - 1, n - 2);
      FarPairSwaps(EndsInX(m - 1), EndsInXY(n - 2), m, n);
    }
  }

  lemma WholeShare(d: nat, n: nat)
    requires n > 0
    ensures d as real / n as real == 1.0 <==> d == n
  {
  }

  lemma OneIsFarthest(a: Words, b: Words)
    requires a != [] || b != []
    ensures Share(a, b) == 1.0 <==> Distance(a, b) == Max(|a|, |b|)
  {
    WholeShare(Distance(a, b), Max(|a|, |b|));
  }

  /** The documented meaning of the result 1, over all lists of two lengths. */
  ghost predicate OneMeansNothingInCommon(n: nat, m: nat) {
    forall a: Words, b: Words :: |a| == n && |b| == m ==> (Share(a, b) == 1.0 <==> NothingInCommon(a, b))
  }

  /** It holds exactly for lengths one of which is at most one, except for two empty lists, which score 0. */
  lemma OneReadRight(n: nat, m: nat)
    ensures OneMeansNothingInCommon(n, m) <==> (n <= 1 || m <= 1) && (n > 0 || m > 0)
  {
    FarthestReadRight(n, m);
    if n > 0 || m > 0 {
      forall a: Words, b: Words | |a| == n && |b| == m
        ensures Share(a, b) == 1.0 <==> Distance(a, b) == Max(n, m)
      {
        OneIsFarthest(a, b);
      }
    } else {
      var none: Words := [];
      assert Share(none, none) == 0.0 && NothingInCommon(none, none);
    }
  }

  /** The shortest such pair: two swapped words score 1 and share both words. */
  lemma SwappedWordsAreOneApart()
    ensures Share(["yes", "no"], ["no", "yes"]) == 1.0
  {
    var a, b := ["yes", "no"], ["no", "yes"];
    assert [] + ["yes"] == ["yes"] && [] + ["no"] == ["no"] && ["yes"] + ["no"] == a && ["no"] + ["yes"] == b;
    OneWord("yes", b);
    OneWord("no", a);
    Symmetric(["no"], a);
    OneWord("yes", ["no"]);
    Cell(["yes"], ["no"], "no", "yes");
    OneIsFarthest(a, b);
  }
}
