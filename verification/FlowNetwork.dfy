/**
 * The residual network behind the selection: which edges exist, what a capacity map
 * says about the candidates chosen so far, and what pushing one unit along an edge does.
 */
module FlowNetwork {
  import opened Prelude
  import opened SelectionSpec

  datatype Node = Source | ModelNode(m: string) | CandidateNode(i: nat) | BaseNode(b: string) | Sink

  type Edge = (Node, Node)
  type Capacities = map<Edge, int>

  /**
   * How much of the network has been linked: a prefix of the model list, some candidates
   * and some bases. The finished network has all of them.
   */
  datatype Stage = Stage(models: seq<string>, candidates: set<nat>, bases: set<string>)

  function Finished(p: Problem): Stage {
    Stage(p.models, Eligible(p), Bases(p))
  }

  /** The forward links source -> model -> candidate -> base -> sink. */
  predicate Linked(p: Problem, st: Stage, u: Node, v: Node) {
    match (u, v)
    case (Source, ModelNode(m)) => m in st.models
    case (ModelNode(m), CandidateNode(i)) => i in st.candidates && i < |p.candidates| && p.candidates[i].model == m
    case (CandidateNode(i), BaseNode(b)) => i in st.candidates && i < |p.candidates| && p.candidates[i].base == b
    case (BaseNode(b), Sink) => b in st.bases
    case _ => false
  }

  /** What a forward link is given when it is made. */
  function FullCapacity(p: Problem, u: Node): nat {
    match u
    case Source => 0
    case ModelNode(_) => 1
    case CandidateNode(_) => 1
    case BaseNode(_) => p.maxBaseUses
    case Sink => 0
  }

  function LinkCapacity(p: Problem, st: Stage, u: Node, v: Node): nat {
    if u.Source? && v.ModelNode? then p.perModel * multiset(st.models)[v.m] else FullCapacity(p, u)
  }

  /** The capacities right after the links of a stage are made: forward full, backward zero. */
  ghost predicate Initial(p: Problem, st: Stage, cap: Capacities) {
    forall u, v ::
      && ((u, v) in cap <==> Linked(p, st, u, v) || Linked(p, st, v, u))
      && (Linked(p, st, u, v) ==>
            (v, u) in cap && cap[(u, v)] == LinkCapacity(p, st, u, v) && cap[(v, u)] == 0)
  }

  /** Edges never appear or vanish, never go negative, and each keeps its total with its reverse. */
  ghost predicate Shaped(p: Problem, cap: Capacities) {
    forall u, v ::
      && ((u, v) in cap <==> Linked(p, Finished(p), u, v) || Linked(p, Finished(p), v, u))
      && (Linked(p, Finished(p), u, v) ==>
            && (v, u) in cap && cap[(u, v)] >= 0 && cap[(v, u)] >= 0
            && cap[(u, v)] + cap[(v, u)] == LinkCapacity(p, Finished(p), u, v))
  }

  predicate Saturated(cap: Capacities, u: Node, v: Node) {
    (u, v) in cap && cap[(u, v)] == 0
  }

  /** Candidates whose unit has left towards their base. */
  function Chosen(p: Problem, cap: Capacities): set<nat> {
    set i | i in Eligible(p) && Saturated(cap, CandidateNode(i), BaseNode(p.candidates[i].base))
  }

  /** Candidates whose unit has arrived from their model. */
  function Entered(p: Problem, cap: Capacities): set<nat> {
    set i | i in Eligible(p) && Saturated(cap, ModelNode(p.candidates[i].model), CandidateNode(i))
  }

  function One(b: bool): nat {
    if b then 1 else 0
  }

  ghost predicate CandidateExcess(p: Problem, cap: Capacities, x: Node) {
    forall i :: i in Eligible(p) ==>
      One(i in Chosen(p, cap)) - One(i in Entered(p, cap)) == One(x == CandidateNode(i))
  }

  ghost predicate BaseExcess(p: Problem, cap: Capacities, x: Node)
    requires Shaped(p, cap)
  {
    forall b :: b in Bases(p) ==>
      cap[(Sink, BaseNode(b))] - |OfBase(p, Chosen(p, cap), b)| == One(x == BaseNode(b))
  }

  ghost predicate ModelExcess(p: Problem, cap: Capacities, x: Node)
    requires Shaped(p, cap)
  {
    forall m :: m in p.models ==>
      |OfModel(p, Entered(p, cap), m)| - cap[(ModelNode(m), Source)] == One(x == ModelNode(m))
  }

  /**
   * Flow is conserved at every inner node, except that x sends out one unit more than it
   * receives. At the source or the sink x is no exception at all.
   */
  ghost predicate ExcessAt(p: Problem, cap: Capacities, x: Node) {
    && Shaped(p, cap)
    && CandidateExcess(p, cap, x)
    && BaseExcess(p, cap, x)
    && ModelExcess(p, cap, x)
  }

  ghost predicate Balanced(p: Problem, cap: Capacities) {
    ExcessAt(p, cap, Sink)
  }

  function Push(cap: Capacities, u: Node, v: Node): Capacities
    requires (u, v) in cap && (v, u) in cap
  {
    var once := cap[(u, v) := cap[(u, v)] - 1];
    once[(v, u) := once[(v, u)] + 1]
  }

  // ---- what one push does

  lemma PushKeepsShape(p: Problem, cap: Capacities, u: Node, v: Node)
    requires Shaped(p, cap)
    requires (u, v) in cap && cap[(u, v)] > 0
    ensures (v, u) in cap && Shaped(p, Push(cap, u, v))
  {
  }

  /** Only the edges between a candidate and its base decide who is chosen. */
  lemma PushChosen(p: Problem, cap: Capacities, u: Node, v: Node)
    requires Shaped(p, cap) && (u, v) in cap && cap[(u, v)] > 0 && (v, u) in cap
    ensures var after := Chosen(p, Push(cap, u, v));
            var before := Chosen(p, cap);
            if u.CandidateNode? && v.BaseNode? then u.i !in before && after == before + {u.i}
            else if u.BaseNode? && v.CandidateNode? then v.i in before && after == before - {v.i}
            else after == before
  {
    var after, before := Chosen(p, Push(cap, u, v)), Chosen(p, cap);
    if u.CandidateNode? && v.BaseNode? {
      assert Linked(p, Finished(p), u, v);
      assert forall i :: i in after <==> i in before || i == u.i;
    } else if u.BaseNode? && v.CandidateNode? {
      assert Linked(p, Finished(p), v, u);
      assert forall i :: i in after <==> i in before && i != v.i;
    } else {
      assert forall i :: i in after <==> i in before;
    }
  }

  lemma PushEntered(p: Problem, cap: Capacities, u: Node, v: Node)
    requires Shaped(p, cap) && (u, v) in cap && cap[(u, v)] > 0 && (v, u) in cap
    ensures var after := Entered(p, Push(cap, u, v));
            var before := Entered(p, cap);
            if u.ModelNode? && v.CandidateNode? then v.i !in before && after == before + {v.i}
            else if u.CandidateNode? && v.ModelNode? then u.i in before && after == before - {u.i}
            else after == before
  {
    var after, before := Entered(p, Push(cap, u, v)), Entered(p, cap);
    if u.ModelNode? && v.CandidateNode? {
      assert Linked(p, Finished(p), u, v);
      assert forall i :: i in after <==> i in before || i == v.i;
    } else if u.CandidateNode? && v.ModelNode? {
      assert Linked(p, Finished(p), v, u);
      assert forall i :: i in after <==> i in before && i != u.i;
    } else {
      assert forall i :: i in after <==> i in before;
    }
  }

  lemma OfBaseAdd(p: Problem, s: set<nat>, i: nat, b: string)
    requires i !in s && i < |p.candidates|
    ensures |OfBase(p, s + {i}, b)| == |OfBase(p, s, b)| + One(p.candidates[i].base == b)
  {
    if p.candidates[i].base == b {
      assert OfBase(p, s + {i}, b) == OfBase(p, s, b) + {i};
    } else {
      assert OfBase(p, s + {i}, b) == OfBase(p, s, b);
    }
  }

  lemma OfBaseRemove(p: Problem, s: set<nat>, i: nat, b: string)
    requires i in s && i < |p.candidates|
    ensures |OfBase(p, s - {i}, b)| == |OfBase(p, s, b)| - One(p.candidates[i].base == b)
  {
    OfBaseAdd(p, s - {i}, i, b);
    assert s - {i} + {i} == s;
  }

  lemma OfModelAdd(p: Problem, s: set<nat>, i: nat, m: string)
    requires i !in s && i < |p.candidates|
    ensures |OfModel(p, s + {i}, m)| == |OfModel(p, s, m)| + One(p.candidates[i].model == m)
  {
    if p.candidates[i].model == m {
      assert OfModel(p, s + {i}, m) == OfModel(p, s, m) + {i};
    } else {
      assert OfModel(p, s + {i}, m) == OfModel(p, s, m);
    }
  }

  lemma OfModelRemove(p: Problem, s: set<nat>, i: nat, m: string)
    requires i in s && i < |p.candidates|
    ensures |OfModel(p, s - {i}, m)| == |OfModel(p, s, m)| - One(p.candidates[i].model == m)
  {
    OfModelAdd(p, s - {i}, i, m);
    assert s - {i} + {i} == s;
  }

  lemma PushCandidate(p: Problem, cap: Capacities, u: Node, v: Node, i: nat)
    requires Shaped(p, cap) && !v.Source? && !u.Sink? && i in Eligible(p)
    requires (u, v) in cap && cap[(u, v)] > 0 && (v, u) in cap
    ensures var after := Push(cap, u, v);
            One(i in Chosen(p, after)) - One(i in Entered(p, after)) - One(u == CandidateNode(i))
            == One(i in Chosen(p, cap)) - One(i in Entered(p, cap)) - One(v == CandidateNode(i))
  {
    assert Linked(p, Finished(p), u, v) || Linked(p, Finished(p), v, u);
    PushChosen(p, cap, u, v);
    PushEntered(p, cap, u, v);
  }

  lemma PushCandidates(p: Problem, cap: Capacities, u: Node, v: Node)
    requires Shaped(p, cap) && CandidateExcess(p, cap, v) && !v.Source? && !u.Sink?
    requires (u, v) in cap && cap[(u, v)] > 0 && (v, u) in cap
    ensures CandidateExcess(p, Push(cap, u, v), u)
  {
    forall i | i in Eligible(p)
      ensures One(i in Chosen(p, Push(cap, u, v))) - One(i in Entered(p, Push(cap, u, v))) == One(u == CandidateNode(i))
    {
      PushCandidate(p, cap, u, v, i);
    }
  }

  lemma PushBases(p: Problem, cap: Capacities, u: Node, v: Node)
    requires Shaped(p, cap) && BaseExcess(p, cap, v) && !v.Source? && !u.Sink?
    requires (u, v) in cap && cap[(u, v)] > 0 && (v, u) in cap
    ensures Shaped(p, Push(cap, u, v)) && BaseExcess(p, Push(cap, u, v), u)
  {
    PushKeepsShape(p, cap, u, v);
    forall b | b in Bases(p)
      ensures Push(cap, u, v)[(Sink, BaseNode(b))] - |OfBase(p, Chosen(p, Push(cap, u, v)), b)|
              == One(u == BaseNode(b))
    {
      PushBase(p, cap, u, v, b);
    }
  }

  lemma PushBase(p: Problem, cap: Capacities, u: Node, v: Node, b: string)
    requires Shaped(p, cap) && !v.Source? && !u.Sink? && b in Bases(p)
    requires (u, v) in cap && cap[(u, v)] > 0 && (v, u) in cap
    ensures (Sink, BaseNode(b)) in cap && (Sink, BaseNode(b)) in Push(cap, u, v)
    ensures Push(cap, u, v)[(Sink, BaseNode(b))] - |OfBase(p, Chosen(p, Push(cap, u, v)), b)| - One(u == BaseNode(b))
            == cap[(Sink, BaseNode(b))] - |OfBase(p, Chosen(p, cap), b)| - One(v == BaseNode(b))
  {
    PushChosen(p, cap, u, v);
    assert Linked(p, Finished(p), u, v) || Linked(p, Finished(p), v, u);
    assert Linked(p, Finished(p), BaseNode(b), Sink);
    if u.CandidateNode? && v.BaseNode? {
      OfBaseAdd(p, Chosen(p, cap), u.i, b);
    } else if u.BaseNode? && v.CandidateNode? {
      OfBaseRemove(p, Chosen(p, cap), v.i, b);
    }
  }

  lemma PushModels(p: Problem, cap: Capacities, u: Node, v: Node)
    requires Shaped(p, cap) && ModelExcess(p, cap, v) && !v.Source? && !u.Sink?
    requires (u, v) in cap && cap[(u, v)] > 0 && (v, u) in cap
    ensures Shaped(p, Push(cap, u, v)) && ModelExcess(p, Push(cap, u, v), u)
  {
    PushKeepsShape(p, cap, u, v);
    forall m | m in p.models
      ensures |OfModel(p, Entered(p, Push(cap, u, v)), m)| - Push(cap, u, v)[(ModelNode(m), Source)]
              == One(u == ModelNode(m))
    {
      PushModel(p, cap, u, v, m);
    }
  }

  lemma PushModel(p: Problem, cap: Capacities, u: Node, v: Node, m: string)
    requires Shaped(p, cap) && !v.Source? && !u.Sink? && m in p.models
    requires (u, v) in cap && cap[(u, v)] > 0 && (v, u) in cap
    ensures (ModelNode(m), Source) in cap && (ModelNode(m), Source) in Push(cap, u, v)
    ensures |OfModel(p, Entered(p, Push(cap, u, v)), m)| - Push(cap, u, v)[(ModelNode(m), Source)]
            - One(u == ModelNode(m))
            == |OfModel(p, Entered(p, cap), m)| - cap[(ModelNode(m), Source)] - One(v == ModelNode(m))
  {
    PushEntered(p, cap, u, v);
    assert Linked(p, Finished(p), u, v) || Linked(p, Finished(p), v, u);
    assert Linked(p, Finished(p), Source, ModelNode(m));
    if u.ModelNode? && v.CandidateNode? {
      OfModelAdd(p, Entered(p, cap), v.i, m);
    } else if u.CandidateNode? && v.ModelNode? {
      OfModelRemove(p, Entered(p, cap), u.i, m);
    }
  }

  /** Has the pushed unit crossed from the candidates to the bases yet? */
  function Behind(x: Node): nat {
    One(!x.BaseNode? && !x.Sink?)
  }

  /**
   * Pushing one unit back from v to u hands the excess on to u, and the number of chosen
   * candidates changes exactly when the unit crosses between candidates and bases.
   */
  lemma {:induction false} PushMovesExcess(p: Problem, cap: Capacities, u: Node, v: Node)
    requires ExcessAt(p, cap, v) && !v.Source? && !u.Sink?
    requires (u, v) in cap && cap[(u, v)] > 0
    ensures (v, u) in cap && ExcessAt(p, Push(cap, u, v), u)
    ensures |Chosen(p, Push(cap, u, v))| - Behind(u) == |Chosen(p, cap)| - Behind(v)
  {
    PushKeepsShape(p, cap, u, v);
    PushCandidates(p, cap, u, v);
    PushBases(p, cap, u, v);
    PushModels(p, cap, u, v);
    PushCrosses(p, cap, u, v);
  }

  lemma PushCrosses(p: Problem, cap: Capacities, u: Node, v: Node)
    requires Shaped(p, cap) && !v.Source? && !u.Sink?
    requires (u, v) in cap && cap[(u, v)] > 0 && (v, u) in cap
    ensures |Chosen(p, Push(cap, u, v))| - Behind(u) == |Chosen(p, cap)| - Behind(v)
  {
    PushChosen(p, cap, u, v);
    assert Linked(p, Finished(p), u, v) || Linked(p, Finished(p), v, u);
  }

  // ---- what a balanced network says

  /** Between augmentations the same candidates have received and sent on their unit. */
  lemma BalancedChosen(p: Problem, cap: Capacities)
    requires Balanced(p, cap)
    ensures Entered(p, cap) == Chosen(p, cap)
  {
    forall i
      ensures i in Entered(p, cap) <==> i in Chosen(p, cap)
    {
      if i in Eligible(p) {
        assert One(i in Chosen(p, cap)) - One(i in Entered(p, cap)) == 0;
      }
    }
  }

  lemma BalancedIsValid(p: Problem, cap: Capacities)
    requires Balanced(p, cap)
    ensures Valid(p, Chosen(p, cap))
  {
    BalancedChosen(p, cap);
    var s := Chosen(p, cap);
    forall m
      ensures |OfModel(p, s, m)| <= ModelCap(p, m)
    {
      if m in p.models {
        assert Linked(p, Finished(p), Source, ModelNode(m));
      } else {
        assert OfModel(p, s, m) == {};
      }
    }
    forall b
      ensures |OfBase(p, s, b)| <= p.maxBaseUses
    {
      if b in Bases(p) {
        assert Linked(p, Finished(p), BaseNode(b), Sink);
      } else {
        assert OfBase(p, s, b) == {};
      }
    }
  }

  // ---- the cut

  /** Everything reachable from a node of the set along an edge with room is in the set. */
  ghost predicate ClosedUnderRoom(cap: Capacities, reach: set<Node>) {
    forall u, v :: u in reach && (u, v) in cap && cap[(u, v)] > 0 ==> v in reach
  }

  /** A chosen candidate whose base was reached lets the search walk back to its model. */
  lemma {:induction false} ChosenReachedFromBase(p: Problem, cap: Capacities, reach: set<Node>, i: nat)
    requires Balanced(p, cap) && ClosedUnderRoom(cap, reach)
    requires i in Chosen(p, cap) && BaseNode(p.candidates[i].base) in reach
    ensures ModelNode(p.candidates[i].model) in reach
  {
    BalancedChosen(p, cap);
    assert Linked(p, Finished(p), CandidateNode(i), BaseNode(p.candidates[i].base));
    assert CandidateNode(i) in reach;
    assert Linked(p, Finished(p), ModelNode(p.candidates[i].model), CandidateNode(i));
  }

  /** A candidate that straddles the cut is already chosen. */
  lemma StraddlingIsChosen(p: Problem, cap: Capacities, reach: set<Node>, i: nat)
    requires Balanced(p, cap) && ClosedUnderRoom(cap, reach)
    requires i in Eligible(p)
    requires ModelNode(p.candidates[i].model) in reach && BaseNode(p.candidates[i].base) !in reach
    ensures i in Chosen(p, cap)
  {
    BalancedChosen(p, cap);
    assert Linked(p, Finished(p), CandidateNode(i), BaseNode(p.candidates[i].base));
    assert Linked(p, Finished(p), ModelNode(p.candidates[i].model), CandidateNode(i));
  }

  lemma UnreachedModelIsFull(p: Problem, cap: Capacities, reach: set<Node>, m: string)
    requires Balanced(p, cap) && ClosedUnderRoom(cap, reach) && Source in reach
    requires m in p.models && ModelNode(m) !in reach
    ensures |OfModel(p, Chosen(p, cap), m)| == ModelCap(p, m)
  {
    BalancedChosen(p, cap);
    assert Linked(p, Finished(p), Source, ModelNode(m));
  }

  lemma ReachedBaseIsFull(p: Problem, cap: Capacities, reach: set<Node>, b: string)
    requires Balanced(p, cap) && ClosedUnderRoom(cap, reach) && Sink !in reach
    requires b in Bases(p) && BaseNode(b) in reach
    ensures |OfBase(p, Chosen(p, cap), b)| == p.maxBaseUses
  {
    assert Linked(p, Finished(p), BaseNode(b), Sink);
  }

  function UnreachedModels(p: Problem, reach: set<Node>): set<string> {
    set m | m in p.models && ModelNode(m) !in reach
  }

  function ReachedBases(p: Problem, reach: set<Node>): set<string> {
    set b | b in Bases(p) && BaseNode(b) in reach
  }

  /** Candidates on the source side by their model and on the sink side by their base. */
  function Straddling(p: Problem, reach: set<Node>): set<nat> {
    set i | i in Eligible(p) && ModelNode(p.candidates[i].model) in reach && BaseNode(p.candidates[i].base) !in reach
  }

  lemma {:induction false} UnreachedModelsBound(p: Problem, cap: Capacities, reach: set<Node>, t: set<nat>)
    requires Balanced(p, cap) && ClosedUnderRoom(cap, reach) && Source in reach
    requires Valid(p, t)
    ensures |OfModels(p, t, UnreachedModels(p, reach))| <= |OfModels(p, Chosen(p, cap), UnreachedModels(p, reach))|
  {
    forall m | m in UnreachedModels(p, reach)
      ensures |OfModel(p, t, m)| <= |OfModel(p, Chosen(p, cap), m)|
    {
      UnreachedModelIsFull(p, cap, reach, m);
    }
    ModelwiseAtMost(p, t, Chosen(p, cap), UnreachedModels(p, reach));
  }

  lemma {:induction false} ReachedBasesBound(p: Problem, cap: Capacities, reach: set<Node>, t: set<nat>)
    requires Balanced(p, cap) && ClosedUnderRoom(cap, reach) && Sink !in reach
    requires Valid(p, t)
    ensures |OfBases(p, t, ReachedBases(p, reach))| <= |OfBases(p, Chosen(p, cap), ReachedBases(p, reach))|
  {
    forall b | b in ReachedBases(p, reach)
      ensures |OfBase(p, t, b)| <= |OfBase(p, Chosen(p, cap), b)|
    {
      ReachedBaseIsFull(p, cap, reach, b);
    }
    BasewiseAtMost(p, t, Chosen(p, cap), ReachedBases(p, reach));
  }

  /** The cut splits the chosen candidates into three separate parts. */
  lemma {:induction false} ChosenInThreeParts(p: Problem, cap: Capacities, reach: set<Node>)
    requires Balanced(p, cap) && ClosedUnderRoom(cap, reach)
    ensures |Chosen(p, cap)| == |OfModels(p, Chosen(p, cap), UnreachedModels(p, reach))|
                                + |Straddling(p, reach)| + |OfBases(p, Chosen(p, cap), ReachedBases(p, reach))|
  {
    var s := Chosen(p, cap);
    var a, c := OfModels(p, s, UnreachedModels(p, reach)), OfBases(p, s, ReachedBases(p, reach));
    var middle := Straddling(p, reach);
    forall i | i in middle
      ensures i in s
    {
      StraddlingIsChosen(p, cap, reach, i);
    }
    forall i | i in c
      ensures i !in a
    {
      ChosenReachedFromBase(p, cap, reach, i);
    }
    assert s == a + middle + c;
    assert a !! middle && (a + middle) !! c;
  }

  /** No valid selection t beats the chosen set once the sink is out of reach. */
  lemma CutBoundsEverySelection(p: Problem, cap: Capacities, reach: set<Node>, t: set<nat>)
    requires Balanced(p, cap) && ClosedUnderRoom(cap, reach)
    requires Source in reach && Sink !in reach
    requires Valid(p, t)
    ensures |t| <= |Chosen(p, cap)|
  {
    UnreachedModelsBound(p, cap, reach, t);
    ReachedBasesBound(p, cap, reach, t);
    ChosenInThreeParts(p, cap, reach);
    CoveredByThreeParts(p, reach, t);
  }

  lemma CoveredByThreeParts(p: Problem, reach: set<Node>, t: set<nat>)
    requires t <= Eligible(p)
    ensures |t| <= |OfModels(p, t, UnreachedModels(p, reach))| + |Straddling(p, reach)|
                   + |OfBases(p, t, ReachedBases(p, reach))|
  {
    ThreeParts(OfModels(p, t, UnreachedModels(p, reach)), Straddling(p, reach),
               OfBases(p, t, ReachedBases(p, reach)), t);
  }

  lemma ThreeParts(a: set<nat>, b: set<nat>, c: set<nat>, whole: set<nat>)
    requires whole <= a + b + c
    ensures |whole| <= |a| + |b| + |c|
  {
    SubsetSize(whole, a + b + c);
    assert a + b + c == a + (b - a) + (c - a - b);
    SubsetSize(b - a, b);
    SubsetSize(c - a - b, c);
  }

  /** The min-cut argument: a balanced network in which the sink is cut off is optimal. */
  lemma UnreachableSinkIsLargest(p: Problem, cap: Capacities, reach: set<Node>)
    requires Balanced(p, cap) && ClosedUnderRoom(cap, reach)
    requires Source in reach && Sink !in reach
    ensures Largest(p, Chosen(p, cap))
  {
    BalancedIsValid(p, cap);
    forall t | Valid(p, t)
      ensures |t| <= |Chosen(p, cap)|
    {
      CutBoundsEverySelection(p, cap, reach, t);
    }
  }
}
