/**
 * The selection itself: build the network, augment along breadth-first paths until the
 * sink is cut off, and read the chosen candidates from the saturated edges.
 */
module Select {
  import opened Prelude
  import opened SelectionSpec
  import opened FlowNetwork

  type Parents = map<Node, Option<Node>>

  /** The shuffled order: every candidate index once. */
  ghost predicate IsOrder(p: Problem, order: seq<nat>) {
    && Distinct(order)
    && forall i: nat :: i in order <==> i < |p.candidates|
  }

  function CapacityOr0(cap: Capacities, e: Edge): int {
    if e in cap then cap[e] else 0
  }

  function AfterLink(cap: Capacities, u: Node, v: Node, c: nat): Capacities {
    var once := cap[(u, v) := CapacityOr0(cap, (u, v)) + c];
    once[(v, u) := CapacityOr0(cap, (v, u))]
  }

  // ---- building, one link at a time

  lemma LinkModel(p: Problem, st: Stage, cap: Capacities, m: string)
    requires Initial(p, st, cap)
    ensures Initial(p, st.(models := st.models + [m]), AfterLink(cap, Source, ModelNode(m), p.perModel))
  {
    var st' := st.(models := st.models + [m]);
    assert m !in st.models ==> multiset(st.models)[m] == 0;
    forall k: string
      ensures p.perModel * multiset(st'.models)[k]
              == p.perModel * multiset(st.models)[k] + if k == m then p.perModel else 0
    {
      assert multiset(st'.models)[k] == multiset(st.models)[k] + if k == m then 1 else 0;
    }
    assert Linked(p, st, Source, ModelNode(m)) <==> m in st.models;
  }

  lemma LinkCandidate(p: Problem, st: Stage, cap: Capacities, i: nat)
    requires Initial(p, st, cap) && i < |p.candidates| && i !in st.candidates
    ensures var c := p.candidates[i];
            Initial(p, st.(candidates := st.candidates + {i}),
                    AfterLink(AfterLink(cap, ModelNode(c.model), CandidateNode(i), 1),
                              CandidateNode(i), BaseNode(c.base), 1))
  {
    var c := p.candidates[i];
    assert !Linked(p, st, ModelNode(c.model), CandidateNode(i));
    assert !Linked(p, st, CandidateNode(i), BaseNode(c.base));
  }

  lemma LinkBase(p: Problem, st: Stage, cap: Capacities, b: string)
    requires Initial(p, st, cap) && b !in st.bases
    ensures Initial(p, st.(bases := st.bases + {b}), AfterLink(cap, BaseNode(b), Sink, p.maxBaseUses))
  {
    assert !Linked(p, st, BaseNode(b), Sink);
  }

  /** Nothing is chosen before the first augmentation. */
  lemma InitialIsBalanced(p: Problem, cap: Capacities)
    requires Initial(p, Finished(p), cap)
    ensures Balanced(p, cap) && Chosen(p, cap) == {}
  {
    forall i | i in Eligible(p)
      ensures i !in Chosen(p, cap) && i !in Entered(p, cap)
    {
      assert Linked(p, Finished(p), CandidateNode(i), BaseNode(p.candidates[i].base));
      assert Linked(p, Finished(p), ModelNode(p.candidates[i].model), CandidateNode(i));
    }
    assert Chosen(p, cap) == {} && Entered(p, cap) == {};
    forall b | b in Bases(p)
      ensures cap[(Sink, BaseNode(b))] == 0 && OfBase(p, {}, b) == {}
    {
      assert Linked(p, Finished(p), BaseNode(b), Sink);
    }
    forall m | m in p.models
      ensures cap[(ModelNode(m), Source)] == 0 && OfModel(p, {}, m) == {}
    {
      assert Linked(p, Finished(p), Source, ModelNode(m));
    }
  }

  // ---- paths and the search tree

  ghost predicate HasRoom(cap: Capacities, u: Node, v: Node) {
    (u, v) in cap && cap[(u, v)] > 0
  }

  /** A walk from the source along edges that all have room. */
  ghost predicate RoomPath(cap: Capacities, path: seq<Node>) {
    && |path| > 0 && path[0] == Source
    && forall k :: 0 < k < |path| ==> HasRoom(cap, path[k - 1], path[k])
  }

  ghost predicate AugmentingPath(cap: Capacities, path: seq<Node>) {
    RoomPath(cap, path) && path[|path| - 1] == Sink
  }

  /** Every node but the source has a parent one step nearer, reached along an edge with room. */
  ghost predicate SearchTree(cap: Capacities, parent: Parents, depth: map<Node, nat>) {
    && depth.Keys == parent.Keys
    && Source in parent && parent[Source] == None
    && forall w :: w in parent && w != Source ==>
         && parent[w].Some? && parent[w].value in parent && parent[w].value != Sink
         && HasRoom(cap, parent[w].value, w)
         && depth[w] == depth[parent[w].value] + 1
  }

  lemma {:induction false} TreeGivesPath(cap: Capacities, parent: Parents, depth: map<Node, nat>, v: Node)
    returns (path: seq<Node>)
    requires SearchTree(cap, parent, depth) && v in parent
    ensures RoomPath(cap, path) && path[|path| - 1] == v
    decreases depth[v]
  {
    if v == Source {
      path := [Source];
    } else {
      var front := TreeGivesPath(cap, parent, depth, parent[v].value);
      path := front + [v];
    }
  }

  lemma {:induction false} PathStaysInside(cap: Capacities, reach: set<Node>, path: seq<Node>)
    requires ClosedUnderRoom(cap, reach) && Source in reach
    requires RoomPath(cap, path)
    ensures path[|path| - 1] in reach
  {
    if |path| > 1 {
      PathStaysInside(cap, reach, path[..|path| - 1]);
      assert HasRoom(cap, path[|path| - 2], path[|path| - 1]);
    }
  }

  /** Every node with a parent is either expanded already or waits in the queue, once. */
  ghost predicate Frontier(nodes: set<Node>, parent: Parents, expanded: set<Node>, queue: seq<Node>) {
    && parent.Keys <= nodes
    && parent.Keys == expanded + Elements(queue)
    && Distinct(queue) && expanded !! Elements(queue)
  }

  /** All neighbours with room of the nodes of a set have a parent. */
  ghost predicate Covered(cap: Capacities, from: set<Node>, parent: Parents) {
    forall u, v :: u in from && HasRoom(cap, u, v) ==> v in parent
  }

  lemma TakeFromQueue(nodes: set<Node>, parent: Parents, expanded: set<Node>, queue: seq<Node>)
    requires Frontier(nodes, parent, expanded, queue) && queue != []
    ensures queue[0] in parent && queue[0] !in expanded
    ensures Frontier(nodes, parent, expanded + {queue[0]}, queue[1..])
  {
    assert queue == [queue[0]] + queue[1..];
    assert Elements(queue) == {queue[0]} + Elements(queue[1..]);
    assert queue[0] !in queue[1..];
  }

  lemma AddToQueue(nodes: set<Node>, parent: Parents, expanded: set<Node>, queue: seq<Node>, u: Node, v: Node)
    requires Frontier(nodes, parent, expanded, queue) && v !in parent && v in nodes
    ensures Frontier(nodes, parent[v := Some(u)], expanded, queue + [v])
  {
    assert Elements(queue + [v]) == Elements(queue) + {v};
    assert v !in queue;
  }

  lemma GrowTree(cap: Capacities, parent: Parents, depth: map<Node, nat>, u: Node, v: Node)
    requires SearchTree(cap, parent, depth) && u in parent && u != Sink && v !in parent && HasRoom(cap, u, v)
    ensures SearchTree(cap, parent[v := Some(u)], depth[v := depth[u] + 1])
  {
  }

  /** The search has answered: a parent for the sink is exactly an augmenting path. */
  lemma SearchDecides(cap: Capacities, parent: Parents, depth: map<Node, nat>)
    requires SearchTree(cap, parent, depth)
    requires Sink !in parent ==> Covered(cap, parent.Keys, parent)
    ensures Sink in parent <==> exists path :: AugmentingPath(cap, path)
    ensures Sink !in parent ==> ClosedUnderRoom(cap, parent.Keys)
  {
    if Sink in parent {
      var path := TreeGivesPath(cap, parent, depth, Sink);
      assert AugmentingPath(cap, path);
    } else {
      assert forall u, v :: (u, v) in cap && cap[(u, v)] > 0 ==> HasRoom(cap, u, v);
      forall path | AugmentingPath(cap, path)
        ensures false
      {
        PathStaysInside(cap, parent.Keys, path);
      }
    }
  }

  /** Edges to nodes no deeper than v still have the capacity the search saw. */
  ghost predicate TreeAbove(now: Capacities, seen: Capacities, parent: Parents, depth: map<Node, nat>, v: Node)
    requires SearchTree(seen, parent, depth) && v in parent
  {
    forall w :: w in parent && w != Source && depth[w] <= depth[v] ==>
      (parent[w].value, w) in now && now[(parent[w].value, w)] == seen[(parent[w].value, w)]
  }

  lemma PushKeepsTreeAbove(now: Capacities, seen: Capacities, parent: Parents, depth: map<Node, nat>, v: Node)
    requires SearchTree(seen, parent, depth) && v in parent && v != Source
    requires TreeAbove(now, seen, parent, depth, v)
    requires (v, parent[v].value) in now
    ensures TreeAbove(Push(now, parent[v].value, v), seen, parent, depth, parent[v].value)
  {
  }

  /** The sink is entered only from a base and the source left only towards a model. */
  lemma PushAtTheEnds(p: Problem, cap: Capacities, u: Node, v: Node)
    requires Shaped(p, cap) && (u, v) in cap && (v, u) in cap && v != Source && u != Sink
    ensures v == Sink ==> u.BaseNode? && u.b in Bases(p)
    ensures u == Source ==> v.ModelNode? && v.m in p.models
    ensures forall b :: b in Bases(p) ==>
      (Sink, BaseNode(b)) in cap &&
      Push(cap, u, v)[(Sink, BaseNode(b))] == cap[(Sink, BaseNode(b))] + One(v == Sink && u == BaseNode(b))
    ensures forall m :: m in p.models ==>
      (ModelNode(m), Source) in cap &&
      Push(cap, u, v)[(ModelNode(m), Source)] == cap[(ModelNode(m), Source)] + One(u == Source && v == ModelNode(m))
  {
    assert Linked(p, Finished(p), u, v) || Linked(p, Finished(p), v, u);
    forall b | b in Bases(p)
      ensures (Sink, BaseNode(b)) in cap
    {
      assert Linked(p, Finished(p), BaseNode(b), Sink);
    }
    forall m | m in p.models
      ensures (ModelNode(m), Source) in cap
    {
      assert Linked(p, Finished(p), Source, ModelNode(m));
    }
  }

  ghost predicate BaseGrows(p: Problem, before: set<nat>, after: set<nat>, b0: string) {
    forall b :: |OfBase(p, after, b)| == |OfBase(p, before, b)| + One(b == b0)
  }

  ghost predicate ModelGrows(p: Problem, before: set<nat>, after: set<nat>, m0: string) {
    forall m :: |OfModel(p, after, m)| == |OfModel(p, before, m)| + One(m == m0)
  }

  /** Between two augmentations: one more candidate, one more for one model and one base, none less. */
  ghost predicate OneMore(p: Problem, before: set<nat>, after: set<nat>) {
    && |after| == |before| + 1
    && (exists b0 :: BaseGrows(p, before, after, b0))
    && (exists m0 :: ModelGrows(p, before, after, m0))
  }

  /** The state of the walk back when it stands at v. */
  ghost predicate Midway(p: Problem, now: Capacities, seen: Capacities, parent: Parents, depth: map<Node, nat>,
                         v: Node, b0: string, m0: string)
  {
    && SearchTree(seen, parent, depth) && v in parent
    && ExcessAt(p, now, v) && now.Keys == seen.Keys
    && TreeAbove(now, seen, parent, depth, v)
    && |Chosen(p, now)| == |Chosen(p, seen)| + Behind(v)
    && SinkEntries(p, now, seen, v, b0)
    && SourceExits(p, now, seen, v, m0)
  }

  ghost predicate SinkEntries(p: Problem, now: Capacities, seen: Capacities, v: Node, b0: string) {
    && (v != Sink ==> b0 in Bases(p))
    && forall b :: b in Bases(p) ==>
         && (Sink, BaseNode(b)) in now && (Sink, BaseNode(b)) in seen
         && now[(Sink, BaseNode(b))] == seen[(Sink, BaseNode(b))] + One(v != Sink && b == b0)
  }

  ghost predicate SourceExits(p: Problem, now: Capacities, seen: Capacities, v: Node, m0: string) {
    && (v == Source ==> m0 in p.models)
    && forall m :: m in p.models ==>
         && (ModelNode(m), Source) in now && (ModelNode(m), Source) in seen
         && now[(ModelNode(m), Source)] == seen[(ModelNode(m), Source)] + One(v == Source && m == m0)
  }

  lemma {:induction false} MidwayStart(p: Problem, cap: Capacities, parent: Parents, depth: map<Node, nat>)
    requires Balanced(p, cap) && SearchTree(cap, parent, depth) && Sink in parent
    ensures Midway(p, cap, cap, parent, depth, Sink, "", "")
  {
    PushAtTheEndsKeys(p, cap);
  }

  lemma PushAtTheEndsKeys(p: Problem, cap: Capacities)
    requires Shaped(p, cap)
    ensures forall b :: b in Bases(p) ==> (Sink, BaseNode(b)) in cap
    ensures forall m :: m in p.models ==> (ModelNode(m), Source) in cap
  {
    forall b | b in Bases(p)
      ensures (Sink, BaseNode(b)) in cap
    {
      assert Linked(p, Finished(p), BaseNode(b), Sink);
    }
    forall m | m in p.models
      ensures (ModelNode(m), Source) in cap
    {
      assert Linked(p, Finished(p), Source, ModelNode(m));
    }
  }

  lemma {:induction false} MidwayStep(p: Problem, now: Capacities, seen: Capacities, parent: Parents,
                                      depth: map<Node, nat>,
                   v: Node, b0: string, m0: string)
    requires Midway(p, now, seen, parent, depth, v, b0, m0) && v != Source
    ensures var u := parent[v].value;
            && (u, v) in now && (v, u) in now
            && depth[u] < depth[v]
            && (v == Sink ==> u.BaseNode?) && (u == Source ==> v.ModelNode?)
            && Midway(p, Push(now, u, v), seen, parent, depth, u,
                      if v == Sink then u.b else b0, if u == Source then v.m else m0)
  {
    var u := parent[v].value;
    assert (u, v) in now && now[(u, v)] > 0 by {
      assert HasRoom(seen, u, v);
    }
    MidwayExcess(p, now, seen, u, v);
    assert TreeAbove(Push(now, u, v), seen, parent, depth, u) by {
      PushKeepsTreeAbove(now, seen, parent, depth, v);
    }
    MidwayEnds(p, now, seen, u, v, b0, m0);
  }

  lemma {:induction false} MidwayExcess(p: Problem, now: Capacities, seen: Capacities, u: Node, v: Node)
    requires ExcessAt(p, now, v) && v != Source && u != Sink && (u, v) in now && now[(u, v)] > 0
    requires now.Keys == seen.Keys && |Chosen(p, now)| == |Chosen(p, seen)| + Behind(v)
    ensures (v, u) in now && ExcessAt(p, Push(now, u, v), u) && Push(now, u, v).Keys == seen.Keys
    ensures |Chosen(p, Push(now, u, v))| == |Chosen(p, seen)| + Behind(u)
  {
    PushMovesExcess(p, now, u, v);
  }

  lemma MidwayEnds(p: Problem, now: Capacities, seen: Capacities, u: Node, v: Node, b0: string, m0: string)
    requires Shaped(p, now) && (u, v) in now && (v, u) in now && v != Source && u != Sink
    requires SinkEntries(p, now, seen, v, b0) && SourceExits(p, now, seen, v, m0)
    ensures (v == Sink ==> u.BaseNode?) && (u == Source ==> v.ModelNode?)
    ensures SinkEntries(p, Push(now, u, v), seen, u, if v == Sink then u.b else b0)
    ensures SourceExits(p, Push(now, u, v), seen, u, if u == Source then v.m else m0)
  {
    PushAtTheEnds(p, now, u, v);
  }

  /** Back at the source the network is balanced again, with one more candidate chosen. */
  lemma {:induction false} MidwayEnd(p: Problem, now: Capacities, seen: Capacities, parent: Parents,
                                     depth: map<Node, nat>,
                  b0: string, m0: string)
    requires Balanced(p, seen) && Midway(p, now, seen, parent, depth, Source, b0, m0)
    ensures Balanced(p, now) && OneMore(p, Chosen(p, seen), Chosen(p, now))
  {
    assert Balanced(p, now);
    BaseCountsGrow(p, seen, now, b0);
    ModelCountsGrow(p, seen, now, m0);
  }

  lemma {:induction false} BaseCountsGrow(p: Problem, before: Capacities, after: Capacities, b0: string)
    requires Balanced(p, before) && Balanced(p, after)
    requires SinkEntries(p, after, before, Source, b0)
    ensures BaseGrows(p, Chosen(p, before), Chosen(p, after), b0)
  {
    forall b
      ensures |OfBase(p, Chosen(p, after), b)| == |OfBase(p, Chosen(p, before), b)| + One(b == b0)
    {
      if b !in Bases(p) {
        assert OfBase(p, Chosen(p, after), b) == OfBase(p, Chosen(p, before), b) == {};
      }
    }
  }

  lemma {:induction false} ModelCountsGrow(p: Problem, before: Capacities, after: Capacities, m0: string)
    requires Balanced(p, before) && Balanced(p, after)
    requires SourceExits(p, after, before, Source, m0)
    ensures ModelGrows(p, Chosen(p, before), Chosen(p, after), m0)
  {
    BalancedChosen(p, before);
    BalancedChosen(p, after);
    forall m
      ensures |OfModel(p, Chosen(p, after), m)| == |OfModel(p, Chosen(p, before), m)| + One(m == m0)
    {
      if m !in p.models {
        assert OfModel(p, Chosen(p, after), m) == OfModel(p, Chosen(p, before), m) == {};
      }
    }
  }

  /** The members of a set, in the order they have in a sequence. */
  function InOrder(order: seq<nat>, s: set<nat>): seq<nat> {
    if order == [] then []
    else InOrder(order[..|order| - 1], s) + if order[|order| - 1] in s then [order[|order| - 1]] else []
  }

  /** A node's list names exactly the nodes it has an edge to. */
  ghost predicate Adjacent(graph: map<Node, seq<Node>>, cap: Capacities) {
    forall u, v :: (u, v) in cap <==> u in graph && v in graph[u]
  }

  function WithEdge(graph: map<Node, seq<Node>>, u: Node, v: Node): map<Node, seq<Node>> {
    graph[u := (if u in graph then graph[u] else []) + [v]]
  }

  lemma LinkAdjacency(graph: map<Node, seq<Node>>, cap: Capacities, u: Node, v: Node, c: nat)
    requires Adjacent(graph, cap) && u != v
    ensures Adjacent(WithEdge(WithEdge(graph, u, v), v, u), AfterLink(cap, u, v, c))
  {
    var graph', cap' := WithEdge(WithEdge(graph, u, v), v, u), AfterLink(cap, u, v, c);
    forall a, b
      ensures (a, b) in cap' <==> a in graph' && b in graph'[a]
    {
      assert (a, b) in cap <==> a in graph && b in graph[a];
    }
  }

  class Network {
    var graph: map<Node, seq<Node>>
    var capacity: Capacities

    function Neighbours(u: Node): seq<Node>
      reads this
    {
      if u in graph then graph[u] else []
    }

    method Link(u: Node, v: Node, c: nat)
      requires Adjacent(graph, capacity) && u != v
      modifies this
      ensures Adjacent(graph, capacity) && capacity == AfterLink(old(capacity), u, v, c)
    {
      LinkAdjacency(graph, capacity, u, v, c);
      graph := graph[u := Neighbours(u) + [v]];
      graph := graph[v := Neighbours(v) + [u]];
      capacity := capacity[(u, v) := CapacityOr0(capacity, (u, v)) + c];
      if (v, u) !in capacity {
        capacity := capacity[(v, u) := 0];
      }
      assert graph == WithEdge(WithEdge(old(graph), u, v), v, u);
      assert capacity == AfterLink(old(capacity), u, v, c);
    }

    method LinkModels(p: Problem)
      requires Adjacent(graph, capacity) && Initial(p, Stage([], {}, {}), capacity)
      modifies this
      ensures Adjacent(graph, capacity) && Initial(p, Stage(p.models, {}, {}), capacity)
    {
      for k := 0 to |p.models|
        invariant Adjacent(graph, capacity)
        invariant Initial(p, Stage(p.models[..k], {}, {}), capacity)
      {
        LinkModel(p, Stage(p.models[..k], {}, {}), capacity, p.models[k]);
        assert p.models[..k + 1] == p.models[..k] + [p.models[k]];
        Link(Source, ModelNode(p.models[k]), p.perModel);
      }
      assert p.models[..|p.models|] == p.models;
    }

    method LinkCandidates(p: Problem, order: seq<nat>)
      requires IsOrder(p, order)
      requires Adjacent(graph, capacity) && Initial(p, Stage(p.models, {}, {}), capacity)
      modifies this
      ensures Adjacent(graph, capacity) && Initial(p, Stage(p.models, Eligible(p), {}), capacity)
    {
      ghost var st := Stage(p.models, {}, {});
      for k := 0 to |order|
        invariant Adjacent(graph, capacity) && Initial(p, st, capacity)
        invariant st == Stage(p.models, Eligible(p) * Elements(order[..k]), {})
      {
        var i := order[k];
        assert i in order && i !in order[..k];
        assert Elements(order[..k + 1]) == Elements(order[..k]) + {i};
        if p.candidates[i].model in p.models {
          LinkCandidate(p, st, capacity, i);
          Link(ModelNode(p.candidates[i].model), CandidateNode(i), 1);
          Link(CandidateNode(i), BaseNode(p.candidates[i].base), 1);
          st := st.(candidates := st.candidates + {i});
        }
      }
      assert order[..|order|] == order;
      assert Eligible(p) * Elements(order) == Eligible(p);
    }

    method LinkBases(p: Problem)
      requires Adjacent(graph, capacity) && Initial(p, Stage(p.models, Eligible(p), {}), capacity)
      modifies this
      ensures Adjacent(graph, capacity) && Initial(p, Finished(p), capacity)
    {
      ghost var st := Stage(p.models, Eligible(p), {});
      var rest := Bases(p);
      while rest != {}
        invariant Adjacent(graph, capacity) && Initial(p, st, capacity)
        invariant rest <= Bases(p) && st == Stage(p.models, Eligible(p), Bases(p) - rest)
      {
        var b :| b in rest;
        LinkBase(p, st, capacity, b);
        Link(BaseNode(b), Sink, p.maxBaseUses);
        rest := rest - {b};
        st := st.(bases := st.bases + {b});
      }
    }

    /** All the links of one selection problem. */
    constructor (p: Problem, order: seq<nat>)
      requires IsOrder(p, order)
      ensures Adjacent(graph, capacity) && Initial(p, Finished(p), capacity)
    {
      graph, capacity := map[], map[];
      new;
      LinkModels(p);
      LinkCandidates(p, order);
      LinkBases(p);
    }

    /** Gives every unseen neighbour of u that the edge has room for a parent, and queues it. */
    method Expand(u: Node, parent: Parents, queue: seq<Node>, ghost depth: map<Node, nat>,
                  ghost expanded: set<Node>)
      returns (parent': Parents, queue': seq<Node>, ghost depth': map<Node, nat>)
      requires Adjacent(graph, capacity) && forall a, b :: (a, b) in capacity ==> (b, a) in capacity
      requires SearchTree(capacity, parent, depth) && u in parent && u != Sink
      requires Frontier(graph.Keys + {Source}, parent, expanded, queue)
      ensures SearchTree(capacity, parent', depth')
      ensures Frontier(graph.Keys + {Source}, parent', expanded, queue')
      ensures parent.Keys <= parent'.Keys && Covered(capacity, {u}, parent')
    {
      parent', queue', depth' := parent, queue, depth;
      var adjacent := Neighbours(u);
      for k := 0 to |adjacent|
        invariant SearchTree(capacity, parent', depth')
        invariant Frontier(graph.Keys + {Source}, parent', expanded, queue')
        invariant parent.Keys <= parent'.Keys
        invariant forall j :: 0 <= j < k && HasRoom(capacity, u, adjacent[j]) ==> adjacent[j] in parent'
      {
        var v := adjacent[k];
        assert (u, v) in capacity && (v, u) in capacity;
        if v !in parent' && capacity[(u, v)] > 0 {
          GrowTree(capacity, parent', depth', u, v);
          AddToQueue(graph.Keys + {Source}, parent', expanded, queue', u, v);
          parent' := parent'[v := Some(u)];
          depth' := depth'[v := depth'[u] + 1];
          queue' := queue' + [v];
        }
      }
    }

    /** Breadth first from the source, stopping once the sink has a parent. */
    method Search(ghost p: Problem) returns (parent: Parents, ghost depth: map<Node, nat>)
      requires Adjacent(graph, capacity) && Shaped(p, capacity)
      ensures SearchTree(capacity, parent, depth)
      ensures Sink in parent <==> exists path :: AugmentingPath(capacity, path)
      ensures Sink !in parent ==> ClosedUnderRoom(capacity, parent.Keys)
    {
      parent, depth := map[Source := None], map[Source := 0];
      var queue := [Source];
      ghost var expanded: set<Node> := {};
      while queue != [] && Sink !in parent
        invariant SearchTree(capacity, parent, depth)
        invariant Frontier(graph.Keys + {Source}, parent, expanded, queue)
        invariant Covered(capacity, expanded, parent)
        decreases graph.Keys + {Source} - expanded
      {
        TakeFromQueue(graph.Keys + {Source}, parent, expanded, queue);
        var u := queue[0];
        expanded := expanded + {u};
        parent, queue, depth := Expand(u, parent, queue[1..], depth, expanded);
      }
      SearchDecides(capacity, parent, depth);
    }

    method PushUnit(u: Node, v: Node)
      requires (u, v) in capacity && (v, u) in capacity
      modifies this`capacity
      ensures capacity == Push(old(capacity), u, v)
    {
      capacity := capacity[(u, v) := capacity[(u, v)] - 1];
      capacity := capacity[(v, u) := capacity[(v, u)] + 1];
    }

    /** Pushes one unit back along the parents, from the sink to the source. */
    method Augment(ghost p: Problem, parent: Parents, ghost depth: map<Node, nat>)
      requires Balanced(p, capacity) && SearchTree(capacity, parent, depth) && Sink in parent
      modifies this`capacity
      ensures Balanced(p, capacity) && capacity.Keys == old(capacity.Keys)
      ensures OneMore(p, Chosen(p, old(capacity)), Chosen(p, capacity))
    {
      ghost var seen := capacity;
      ghost var b0, m0 := "", "";
      var v := Sink;
      MidwayStart(p, capacity, parent, depth);
      while parent[v] != None
        invariant Midway(p, capacity, seen, parent, depth, v, b0, m0)
        decreases depth[v]
      {
        MidwayStep(p, capacity, seen, parent, depth, v, b0, m0);
        var u := parent[v].value;
        b0, m0 := if v == Sink then u.b else b0, if u == Source then v.m else m0;
        PushUnit(u, v);
        v := u;
      }
      MidwayEnd(p, capacity, seen, parent, depth, b0, m0);
    }

    /** Augments until the sink is cut off. */
    method Saturate(ghost p: Problem)
      requires Adjacent(graph, capacity) && Balanced(p, capacity)
      modifies this`capacity
      ensures Balanced(p, capacity) && Adjacent(graph, capacity)
      ensures Largest(p, Chosen(p, capacity))
      ensures !exists path :: AugmentingPath(capacity, path)
    {
      while true
        invariant Adjacent(graph, capacity) && Balanced(p, capacity)
        decreases |Eligible(p)| - |Chosen(p, capacity)|
      {
        var parent, depth := Search(p);
        if Sink !in parent {
          UnreachableSinkIsLargest(p, capacity, parent.Keys);
          break;
        }
        Augment(p, parent, depth);
        SubsetSize(Chosen(p, capacity), Eligible(p));
      }
    }

    /** The candidates whose edge to their base is used up, in the shuffled order. */
    method ReadChosen(p: Problem, order: seq<nat>) returns (chosen: seq<nat>)
      requires Adjacent(graph, capacity) && Shaped(p, capacity) && IsOrder(p, order)
      ensures chosen == InOrder(order, Chosen(p, capacity))
    {
      chosen := [];
      for k := 0 to |order|
        invariant chosen == InOrder(order[..k], Chosen(p, capacity))
      {
        var i := order[k];
        assert i in order && order[..k + 1] == order[..k] + [i];
        ReadsChosen(p, graph, capacity, i);
        if CandidateNode(i) in graph && Saturated(capacity, CandidateNode(i), BaseNode(p.candidates[i].base)) {
          chosen := chosen + [i];
        }
      }
      assert order[..|order|] == order;
    }
  }

  // ---- the selection

  lemma {:induction false} InOrderFacts(order: seq<nat>, s: set<nat>)
    requires Distinct(order)
    ensures Elements(InOrder(order, s)) == Elements(order) * s
    ensures Distinct(InOrder(order, s))
  {
    if order != [] {
      var front, last := order[..|order| - 1], order[|order| - 1];
      InOrderFacts(front, s);
      assert last !in front;
      assert Elements(order) == Elements(front) + {last};
      assert last !in Elements(InOrder(front, s));
      assert Elements(InOrder(order, s)) == Elements(InOrder(front, s)) + if last in s then {last} else {};
    }
  }

  /** How many of the chosen candidates a model wrote. */
  method CountModel(p: Problem, chosen: seq<nat>, m: string) returns (n: nat)
    requires Distinct(chosen) && forall i :: i in chosen ==> i < |p.candidates|
    ensures n == |OfModel(p, Elements(chosen), m)|
  {
    n := 0;
    for k := 0 to |chosen|
      invariant n == |OfModel(p, Elements(chosen[..k]), m)|
    {
      assert chosen[k] in chosen && chosen[k] !in chosen[..k];
      assert Elements(chosen[..k + 1]) == Elements(chosen[..k]) + {chosen[k]};
      OfModelAdd(p, Elements(chosen[..k]), chosen[k], m);
      if p.candidates[chosen[k]].model == m {
        n := n + 1;
      }
    }
    assert chosen[..|chosen|] == chosen;
  }

  method CountModels(p: Problem, chosen: seq<nat>) returns (counts: map<string, nat>)
    requires Distinct(chosen) && forall i :: i in chosen ==> i < |p.candidates|
    ensures counts.Keys == Elements(p.models)
    ensures forall m :: m in counts ==> counts[m] == |OfModel(p, Elements(chosen), m)|
  {
    counts := map[];
    for k := 0 to |p.models|
      invariant counts.Keys == Elements(p.models[..k])
      invariant forall m :: m in counts ==> counts[m] == |OfModel(p, Elements(chosen), m)|
    {
      var n := CountModel(p, chosen, p.models[k]);
      counts := counts[p.models[k] := n];
      assert p.models[..k + 1] == p.models[..k] + [p.models[k]];
    }
    assert p.models[..|p.models|] == p.models;
  }

  /** A candidate is in the graph, and its edge to its base is used up, exactly when it is chosen. */
  lemma ReadsChosen(p: Problem, graph: map<Node, seq<Node>>, cap: Capacities, i: nat)
    requires Adjacent(graph, cap) && Shaped(p, cap) && i < |p.candidates|
    ensures (CandidateNode(i) in graph && Saturated(cap, CandidateNode(i), BaseNode(p.candidates[i].base)))
            <==> i in Chosen(p, cap)
  {
    var b := BaseNode(p.candidates[i].base);
    assert (CandidateNode(i), b) in cap <==>
           Linked(p, Finished(p), CandidateNode(i), b) || Linked(p, Finished(p), b, CandidateNode(i));
  }

  /**
   * The whole selection. The chosen candidates keep the shuffled order, are a largest
   * valid selection, and are counted for every listed model.
   */
  method Select(p: Problem, order: seq<nat>) returns (chosen: seq<nat>, counts: map<string, nat>)
    requires IsOrder(p, order)
    ensures Distinct(chosen) && Largest(p, Elements(chosen))
    ensures chosen == InOrder(order, Elements(chosen)) && KeepsOrder(order, chosen)
    ensures counts.Keys == Elements(p.models)
    ensures forall m :: m in counts ==> counts[m] == |OfModel(p, Elements(chosen), m)|
  {
    var network := new Network(p, order);
    InitialIsBalanced(p, network.capacity);
    network.Saturate(p);
    chosen := network.ReadChosen(p, order);
    ghost var s := Chosen(p, network.capacity);
    ChosenInOrder(p, order, s);
    ghost var places := InOrderKeepsOrder(order, s);
    counts := CountModels(p, chosen);
  }

  /** The list names some of the candidates, in the order in which they are tried. */
  ghost predicate KeepsOrder(order: seq<nat>, chosen: seq<nat>) {
    exists places: seq<nat> ::
      && |places| == |chosen|
      && (forall k :: 0 <= k < |chosen| ==> places[k] < |order| && order[places[k]] == chosen[k])
      && forall j, k :: 0 <= j < k < |places| ==> places[j] < places[k]
  }

  lemma {:induction false} InOrderKeepsOrder(order: seq<nat>, s: set<nat>) returns (places: seq<nat>)
    ensures |places| == |InOrder(order, s)|
    ensures forall k :: 0 <= k < |places| ==> places[k] < |order| && order[places[k]] == InOrder(order, s)[k]
    ensures forall j, k :: 0 <= j < k < |places| ==> places[j] < places[k]
  {
    places := [];
    if order != [] {
      places := InOrderKeepsOrder(order[..|order| - 1], s);
      if order[|order| - 1] in s {
        places := places + [|order| - 1];
      }
    }
  }

  lemma ChosenInOrder(p: Problem, order: seq<nat>, s: set<nat>)
    requires IsOrder(p, order) && s <= Eligible(p)
    ensures Distinct(InOrder(order, s)) && Elements(InOrder(order, s)) == s
    ensures forall i :: i in InOrder(order, s) ==> i < |p.candidates|
  {
    InOrderFacts(order, s);
    assert Elements(order) * s == s;
    assert forall i :: i in InOrder(order, s) ==> i in Elements(InOrder(order, s));
  }

  /** A model that stayed below the wanted count, and how far it got. */
  function Short(counts: map<string, nat>, wanted: nat): map<string, nat> {
    map m | m in counts && counts[m] < wanted :: counts[m]
  }

  /** Exactly the listed models with fewer than the wanted count in the selection, each with its count. */
  ghost predicate ShortIn(p: Problem, s: set<nat>, short: map<string, nat>) {
    && (forall m :: m in short <==> m in p.models && |OfModel(p, s, m)| < p.perModel)
    && forall m :: m in short ==> short[m] == |OfModel(p, s, m)|
  }

  /**
   * One band of the build: either the selection, or a refusal naming the models that fell
   * short. It refuses exactly when no selection gives every model the wanted count.
   */
  method FillBand(p: Problem, order: seq<nat>) returns (r: Result<seq<nat>, map<string, nat>>)
    requires IsOrder(p, order) && Distinct(p.models)
    ensures r.Ok? <==> exists t :: Exact(p, t)
    ensures r.Ok? ==> Distinct(r.value) && Exact(p, Elements(r.value)) && Largest(p, Elements(r.value))
    ensures r.Ok? ==> KeepsOrder(order, r.value)
    ensures r.Err? ==> r.error != map[] && exists s :: Largest(p, s) && ShortIn(p, s, r.error)
  {
    var chosen, counts := Select(p, order);
    ShortMeansImpossible(p, Elements(chosen), counts);
    var short := Short(counts, p.perModel);
    assert ShortIn(p, Elements(chosen), short);
    if short != map[] {
      r := Err(short);
    } else {
      r := Ok(chosen);
    }
  }

  lemma {:induction false} ShortMeansImpossible(p: Problem, s: set<nat>, counts: map<string, nat>)
    requires Distinct(p.models) && Largest(p, s)
    requires counts.Keys == Elements(p.models)
    requires forall m :: m in counts ==> counts[m] == |OfModel(p, s, m)|
    ensures Short(counts, p.perModel) == map[] <==> Exact(p, s)
    ensures Exact(p, s) <==> exists t :: Exact(p, t)
  {
    if t :| Exact(p, t) {
      LargestIsExactWhenPossible(p, s, t);
    }
    forall m | m in p.models
      ensures counts[m] <= p.perModel
      ensures m in Short(counts, p.perModel) <==> |OfModel(p, s, m)| != p.perModel
    {
      DistinctModelCap(p, m);
    }
    if Short(counts, p.perModel) == map[] {
      forall m | m in p.models
        ensures |OfModel(p, s, m)| == p.perModel
      {
        assert m !in Short(counts, p.perModel);
      }
    }
  }
}
