/**
 * When the documented cap per model holds: a model listed twice is linked twice, and its
 * two capacities add up.
 */
module SelectionCaps {
  import opened Prelude
  import opened SelectionSpec

  /** Some pool of candidates and some base limit for the given models. */
  ghost predicate CapRespected(models: seq<string>, perModel: nat) {
    forall p: Problem, s: set<nat> ::
      p.models == models && p.perModel == perModel && Largest(p, s) ==> NoModelOver(p, s)
  }

  ghost predicate NoModelOver(p: Problem, s: set<nat>) {
    forall m :: |OfModel(p, s, m)| <= p.perModel
  }

  function BaseName(k: nat): string {
    seq(k, _ => 'b')
  }

  /** One candidate more than the wanted count, all of one model, each on its own base. */
  function Crowd(m: string, models: seq<string>, perModel: nat): Problem {
    Problem(seq(perModel + 1, k requires k >= 0 => Candidate(m, BaseName(k), "d")), models, perModel, 1)
  }

  function Indices(n: nat): (s: set<nat>)
    ensures |s| == n && forall i: nat :: i in s <==> i < n
  {
    if n == 0 then {} else Indices(n - 1) + {n - 1}
  }

  lemma TwiceListed(models: seq<string>, i: nat, j: nat)
    requires i < j < |models| && models[i] == models[j]
    ensures multiset(models)[models[i]] >= 2
  {
    assert models == models[..j] + [models[j]] + models[j + 1..];
    assert models[i] in models[..j];
  }

  lemma CrowdOverfills(models: seq<string>, perModel: nat, i: nat, j: nat)
    requires i < j < |models| && models[i] == models[j] && perModel > 0
    ensures var p := Crowd(models[i], models, perModel);
            Largest(p, Indices(perModel + 1)) && !NoModelOver(p, Indices(perModel + 1))
  {
    var m := models[i];
    var p := Crowd(m, models, perModel);
    var all := Indices(perModel + 1);
    TwiceListed(models, i, j);
    assert ModelCap(p, m) >= perModel * 2;
    assert Eligible(p) == all && OfModel(p, all, m) == all;
    forall k
      ensures |OfModel(p, all, k)| <= ModelCap(p, k)
    {
      if k != m {
        assert OfModel(p, all, k) == {};
      }
    }
    forall b
      ensures |OfBase(p, all, b)| <= 1
    {
      forall x, y | x in OfBase(p, all, b) && y in OfBase(p, all, b)
        ensures x == y
      {
        assert |BaseName(x)| == x && |BaseName(y)| == y;
      }
      AtMostOne(OfBase(p, all, b));
    }
    forall t | Valid(p, t)
      ensures |t| <= |all|
    {
      SubsetSize(t, all);
    }
  }

  lemma AtMostOne(s: set<nat>)
    requires forall x, y :: x in s && y in s ==> x == y
    ensures |s| <= 1
  {
    if x :| x in s {
      assert s == {x};
    }
  }

  /**
   * The documentation promises never more than the wanted count per model. That holds for
   * every pool exactly when no model is listed twice, or nothing is wanted at all.
   */
  lemma CapRespectedIffListedOnce(models: seq<string>, perModel: nat)
    ensures CapRespected(models, perModel) <==> Distinct(models) || perModel == 0
  {
    if Distinct(models) || perModel == 0 {
      forall p: Problem, s | p.models == models && p.perModel == perModel && Largest(p, s)
        ensures NoModelOver(p, s)
      {
        forall m
          ensures |OfModel(p, s, m)| <= perModel
        {
          if Distinct(models) {
            DistinctModelCap(p, m);
          }
        }
      }
    } else {
      var i, j :| 0 <= i < j < |models| && models[i] == models[j];
      CrowdOverfills(models, perModel, i, j);
    }
  }
}
