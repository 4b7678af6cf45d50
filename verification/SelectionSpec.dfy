/**
 * What a selection of spliced answers is, independent of how it is found: a set of
 * candidate indices that respects the cap of every model and of every base answer.
 */
module SelectionSpec {
  import opened Prelude

  datatype Candidate = Candidate(model: string, base: string, donor: string)

  datatype Problem = Problem(candidates: seq<Candidate>, models: seq<string>, perModel: nat, maxBaseUses: nat)

  /** A model listed several times is linked several times, and the capacities add up. */
  function ModelCap(p: Problem, m: string): nat {
    p.perModel * multiset(p.models)[m]
  }

  /** Candidates of a listed model: the only ones the network contains. */
  function Eligible(p: Problem): set<nat> {
    set i: nat | i < |p.candidates| && p.candidates[i].model in p.models
  }

  function Bases(p: Problem): set<string> {
    set i: nat | i < |p.candidates| :: p.candidates[i].base
  }

  function OfModel(p: Problem, s: set<nat>, m: string): set<nat> {
    set i | i in s && i < |p.candidates| && p.candidates[i].model == m
  }

  function OfBase(p: Problem, s: set<nat>, b: string): set<nat> {
    set i | i in s && i < |p.candidates| && p.candidates[i].base == b
  }

  /** Never more than the cap per model or per base, and no candidate of an unlisted model. */
  ghost predicate Valid(p: Problem, s: set<nat>) {
    && s <= Eligible(p)
    && (forall m :: |OfModel(p, s, m)| <= ModelCap(p, m))
    && (forall b :: |OfBase(p, s, b)| <= p.maxBaseUses)
  }

  ghost predicate Largest(p: Problem, s: set<nat>) {
    && Valid(p, s)
    && forall t :: Valid(p, t) ==> |t| <= |s|
  }

  /** Every listed model gets exactly the wanted count. */
  ghost predicate Exact(p: Problem, s: set<nat>) {
    && Valid(p, s)
    && forall m :: m in p.models ==> |OfModel(p, s, m)| == p.perModel
  }

  // ---- counting by model and by base

  function OfModels(p: Problem, s: set<nat>, ms: set<string>): set<nat> {
    set i | i in s && i < |p.candidates| && p.candidates[i].model in ms
  }

  function OfBases(p: Problem, s: set<nat>, bs: set<string>): set<nat> {
    set i | i in s && i < |p.candidates| && p.candidates[i].base in bs
  }

  lemma {:induction false} ModelwiseAtMost(p: Problem, s: set<nat>, t: set<nat>, ms: set<string>)
    requires forall m :: m in ms ==> |OfModel(p, s, m)| <= |OfModel(p, t, m)|
    ensures |OfModels(p, s, ms)| <= |OfModels(p, t, ms)|
  {
    if ms == {} {
      assert OfModels(p, s, ms) == {};
    } else {
      var m :| m in ms;
      ModelwiseAtMost(p, s, t, ms - {m});
      OneModelApart(p, s, ms, m);
      OneModelApart(p, t, ms, m);
    }
  }

  lemma {:induction false} BasewiseAtMost(p: Problem, s: set<nat>, t: set<nat>, bs: set<string>)
    requires forall b :: b in bs ==> |OfBase(p, s, b)| <= |OfBase(p, t, b)|
    ensures |OfBases(p, s, bs)| <= |OfBases(p, t, bs)|
  {
    if bs == {} {
      assert OfBases(p, s, bs) == {};
    } else {
      var b :| b in bs;
      BasewiseAtMost(p, s, t, bs - {b});
      OneBaseApart(p, s, bs, b);
      OneBaseApart(p, t, bs, b);
    }
  }

  lemma OneBaseApart(p: Problem, s: set<nat>, bs: set<string>, b: string)
    requires b in bs
    ensures |OfBases(p, s, bs)| == |OfBases(p, s, bs - {b})| + |OfBase(p, s, b)|
  {
    assert OfBases(p, s, bs) == OfBases(p, s, bs - {b}) + OfBase(p, s, b);
    assert OfBases(p, s, bs - {b}) !! OfBase(p, s, b);
  }

  /** When no model has more in s than in t, equal totals force equal counts. */
  lemma {:induction false} EqualTotalEqualCounts(p: Problem, s: set<nat>, t: set<nat>, ms: set<string>, m: string)
    requires m in ms
    requires forall k :: k in ms ==> |OfModel(p, s, k)| <= |OfModel(p, t, k)|
    requires |OfModels(p, s, ms)| >= |OfModels(p, t, ms)|
    ensures |OfModel(p, s, m)| == |OfModel(p, t, m)|
  {
    ModelwiseAtMost(p, s, t, ms - {m});
    OneModelApart(p, s, ms, m);
    OneModelApart(p, t, ms, m);
  }

  lemma OneModelApart(p: Problem, s: set<nat>, ms: set<string>, m: string)
    requires m in ms
    ensures |OfModels(p, s, ms)| == |OfModels(p, s, ms - {m})| + |OfModel(p, s, m)|
  {
    assert OfModels(p, s, ms) == OfModels(p, s, ms - {m}) + OfModel(p, s, m);
    assert OfModels(p, s, ms - {m}) !! OfModel(p, s, m);
  }

  lemma DistinctModelCap(p: Problem, m: string)
    requires Distinct(p.models)
    ensures ModelCap(p, m) == if m in p.models then p.perModel else 0
  {
    DistinctCount(p.models, m);
  }

  lemma {:induction false} DistinctCount(ms: seq<string>, m: string)
    requires Distinct(ms)
    ensures multiset(ms)[m] == if m in ms then 1 else 0
  {
    if |ms| > 0 {
      var rest := ms[..|ms| - 1];
      DistinctCount(rest, m);
      assert ms == rest + [ms[|ms| - 1]];
    }
  }

  /**
   * A largest selection reaches the wanted count for every model as soon as any selection
   * at all does. Models are listed once, as the only caller guarantees.
   */
  lemma {:induction false} LargestIsExactWhenPossible(p: Problem, s: set<nat>, t: set<nat>)
    requires Distinct(p.models)
    requires Largest(p, s) && Exact(p, t)
    ensures Exact(p, s)
  {
    var ms := Elements(p.models);
    forall m | m in ms
      ensures |OfModel(p, s, m)| <= |OfModel(p, t, m)|
    {
      DistinctModelCap(p, m);
    }
    assert OfModels(p, s, ms) == s && OfModels(p, t, ms) == t;
    forall m | m in p.models
      ensures |OfModel(p, s, m)| == p.perModel
    {
      EqualTotalEqualCounts(p, s, t, ms, m);
    }
  }

  // ---- how large a selection can be

  /** How many entries of the list are among the given models. */
  function Listed(models: seq<string>, ms: set<string>): nat {
    if models == [] then 0
    else Listed(models[..|models| - 1], ms) + if models[|models| - 1] in ms then 1 else 0
  }

  lemma {:induction false} ListedWithout(models: seq<string>, ms: set<string>, m: string)
    requires m in ms
    ensures Listed(models, ms) == Listed(models, ms - {m}) + multiset(models)[m]
  {
    if models != [] {
      ListedWithout(models[..|models| - 1], ms, m);
      assert models == models[..|models| - 1] + [models[|models| - 1]];
    }
  }

  lemma {:induction false} ListedAtMost(models: seq<string>, ms: set<string>)
    ensures Listed(models, ms) <= |models|
  {
    if models != [] {
      ListedAtMost(models[..|models| - 1], ms);
    }
  }

  lemma {:induction false} ModelsBound(p: Problem, s: set<nat>, ms: set<string>)
    requires Valid(p, s)
    ensures |OfModels(p, s, ms)| <= p.perModel * Listed(p.models, ms)
  {
    if ms == {} {
      assert OfModels(p, s, ms) == {};
    } else {
      var m :| m in ms;
      ModelsBound(p, s, ms - {m});
      OneModelApart(p, s, ms, m);
      ListedWithout(p.models, ms, m);
      Distribute(p.perModel, Listed(p.models, ms - {m}), multiset(p.models)[m]);
    }
  }

  /** No selection, and so no flow, exceeds the number of listed models times the cap. */
  lemma {:induction false} TotalBound(p: Problem, s: set<nat>)
    requires Valid(p, s)
    ensures |s| <= |p.models| * p.perModel
  {
    var ms := Elements(p.models);
    assert OfModels(p, s, ms) == s;
    ModelsBound(p, s, ms);
    ListedAtMost(p.models, ms);
    MulMonotone(p.perModel, Listed(p.models, ms), |p.models|);
  }
}
