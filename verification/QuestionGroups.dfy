/**
 * Grouping questions that ask the same thing: a parent forest without ranks or compression,
 * joined along equal texts and declared twins, must name exactly the chains of such links.
 */
module QuestionGroups {
  import opened Prelude
  import TextOrder

  type Id = string
  type Texts = map<Id, string>

  // ---- what a group is

  /** Two questions with the same text, or listed together as twins. */
  ghost predicate SameQuestion(texts: Texts, twins: seq<seq<Id>>, q: Id, r: Id) {
    && q in texts && r in texts
    && (texts[q] == texts[r] || exists k :: 0 <= k < |twins| && q in twins[k] && r in twins[k])
  }

  ghost predicate ChainOf(texts: Texts, twins: seq<seq<Id>>, path: seq<Id>) {
    && |path| > 0 && path[0] in texts
    && forall j, k :: 0 <= j < |path| && k == j + 1 < |path| ==> SameQuestion(texts, twins, path[j], path[k])
  }

  /** Linked by a chain of equal texts and twin pairs. */
  ghost predicate Connected(texts: Texts, twins: seq<seq<Id>>, q: Id, r: Id) {
    exists path :: ChainOf(texts, twins, path) && path[0] == q && path[|path| - 1] == r
  }

  lemma ConnectedToItself(texts: Texts, twins: seq<seq<Id>>, q: Id)
    requires q in texts
    ensures Connected(texts, twins, q, q)
  {
    assert ChainOf(texts, twins, [q]);
  }

  lemma ConnectedStep(texts: Texts, twins: seq<seq<Id>>, q: Id, r: Id)
    requires SameQuestion(texts, twins, q, r)
    ensures Connected(texts, twins, q, r)
  {
    assert ChainOf(texts, twins, [q, r]);
  }

  lemma ConnectedReverse(texts: Texts, twins: seq<seq<Id>>, q: Id, r: Id)
    requires Connected(texts, twins, q, r)
    ensures Connected(texts, twins, r, q)
  {
    var path :| ChainOf(texts, twins, path) && path[0] == q && path[|path| - 1] == r;
    var back := seq(|path|, k requires 0 <= k < |path| => path[|path| - 1 - k]);
    forall j, k | 0 <= j < |back| && k == j + 1 < |back|
      ensures SameQuestion(texts, twins, back[j], back[k])
    {
      assert SameQuestion(texts, twins, path[|path| - 1 - k], path[|path| - k]);
    }
    assert r in texts by {
      if |path| > 1 {
        assert SameQuestion(texts, twins, path[|path| - 2], path[|path| - 1]);
      }
    }
    assert ChainOf(texts, twins, back);
  }

  lemma ConnectedJoin(texts: Texts, twins: seq<seq<Id>>, q: Id, r: Id, s: Id)
    requires Connected(texts, twins, q, r) && Connected(texts, twins, r, s)
    ensures Connected(texts, twins, q, s)
  {
    var front :| ChainOf(texts, twins, front) && front[0] == q && front[|front| - 1] == r;
    var back :| ChainOf(texts, twins, back) && back[0] == r && back[|back| - 1] == s;
    var path := front + back[1..];
    forall j, k | 0 <= j < |path| && k == j + 1 < |path|
      ensures SameQuestion(texts, twins, path[j], path[k])
    {
      if k >= |front| {
        assert path[k] == back[k - |front| + 1] && path[j] == back[k - |front|];
      }
    }
    assert ChainOf(texts, twins, path);
  }

  // ---- the parent forest

  type Parents = map<Id, Id>

  /** Where following parents leads, and a height that falls on the way. */
  datatype Shape = Shape(height: map<Id, nat>, root: map<Id, Id>)

  ghost predicate NodeSettled(parent: Parents, f: Shape, q: Id)
    requires f.height.Keys == parent.Keys && f.root.Keys == parent.Keys && q in parent
  {
    && parent[q] in parent
    && f.root[q] in parent && parent[f.root[q]] == f.root[q]
    && (if parent[q] == q then f.root[q] == q
        else f.root[q] == f.root[parent[q]] && f.height[parent[q]] < f.height[q])
  }

  /** Following parents from anywhere ends, at a node that is its own parent. */
  ghost predicate Forest(parent: Parents, f: Shape) {
    && f.height.Keys == parent.Keys && f.root.Keys == parent.Keys
    && forall q {:trigger NodeSettled(parent, f, q)} :: q in parent ==> NodeSettled(parent, f, q)
  }

  method FindRoot(parent: Parents, ghost f: Shape, q: Id) returns (r: Id)
    requires Forest(parent, f) && q in parent
    ensures r == f.root[q] && r in parent && parent[r] == r
  {
    r := q;
    assert NodeSettled(parent, f, q);
    while parent[r] != r
      invariant r in parent && f.root[r] == f.root[q]
      decreases f.height[r]
    {
      assert NodeSettled(parent, f, r);
      r := parent[r];
    }
    assert NodeSettled(parent, f, r);
  }

  /** The forest after root b is hung under root a: everything below b moves above a. */
  ghost function Hung(f: Shape, a: Id, b: Id): Shape
    requires f.height.Keys == f.root.Keys && a in f.height
  {
    if a == b then f
    else Shape(map q | q in f.root :: if f.root[q] == b then f.height[q] + f.height[a] + 1 else f.height[q],
               map q | q in f.root :: if f.root[q] == b then a else f.root[q])
  }

  lemma HangKeepsForest(parent: Parents, f: Shape, a: Id, b: Id)
    requires Forest(parent, f) && a in parent && b in parent && parent[a] == a && parent[b] == b
    ensures Forest(parent[b := a], Hung(f, a, b))
  {
    if a == b {
      assert parent[b := a] == parent;
    } else {
      forall q | q in parent
        ensures NodeSettled(parent[b := a], Hung(f, a, b), q)
      {
        assert NodeSettled(parent, f, q) && NodeSettled(parent, f, a) && NodeSettled(parent, f, b);
        assert parent[q] != q ==> NodeSettled(parent, f, parent[q]);
      }
    }
  }

  // ---- joining

  /** Nobody has been put under a root it is not connected to. */
  ghost predicate Sound(texts: Texts, twins: seq<seq<Id>>, f: Shape) {
    && f.root.Keys == texts.Keys
    && forall q :: q in texts ==> Connected(texts, twins, q, f.root[q])
  }

  ghost predicate SameRoot(f: Shape, q: Id, r: Id) {
    q in f.root && r in f.root && f.root[q] == f.root[r]
  }

  /** A list of ids that all ask the same thing. */
  ghost predicate AskTheSame(texts: Texts, twins: seq<seq<Id>>, members: seq<Id>) {
    forall q, r :: q in members && r in members ==> SameQuestion(texts, twins, q, r)
  }

  ghost predicate AllOneRoot(f: Shape, members: seq<Id>) {
    forall q, r :: q in members && r in members ==> SameRoot(f, q, r)
  }

  ghost predicate RootsStayTogether(f: Shape, g: Shape) {
    forall q, r :: SameRoot(f, q, r) ==> SameRoot(g, q, r)
  }

  lemma HangIsSound(texts: Texts, twins: seq<seq<Id>>, f: Shape, first: Id, other: Id)
    requires Sound(texts, twins, f) && SameQuestion(texts, twins, first, other)
    requires f.height.Keys == f.root.Keys && first in f.root && f.root[first] in f.root
    ensures Sound(texts, twins, Hung(f, f.root[first], f.root[other]))
  {
    var a, b := f.root[first], f.root[other];
    forall q | q in texts && f.root[q] == b
      ensures Connected(texts, twins, q, a)
    {
      ConnectedReverse(texts, twins, other, b);
      ConnectedStep(texts, twins, first, other);
      ConnectedReverse(texts, twins, first, other);
      ConnectedJoin(texts, twins, q, b, other);
      ConnectedJoin(texts, twins, q, other, first);
      ConnectedJoin(texts, twins, q, first, a);
    }
  }

  /** Hangs the root of `other` under the root of `first`. */
  method Join(texts: Texts, ghost twins: seq<seq<Id>>, parent: Parents, ghost f: Shape, first: Id, other: Id)
    returns (parent': Parents, ghost f': Shape)
    requires Forest(parent, f) && Sound(texts, twins, f) && SameQuestion(texts, twins, first, other)
    ensures Forest(parent', f') && Sound(texts, twins, f')
    ensures SameRoot(f', first, other) && RootsStayTogether(f, f')
  {
    var b := FindRoot(parent, f, other);
    var a := FindRoot(parent, f, first);
    parent' := parent[b := a];
    f' := Hung(f, a, b);
    HangKeepsForest(parent, f, a, b);
    HangIsSound(texts, twins, f, first, other);
    HangJoins(f, first, other);
  }

  /** Joins every member of a list to its first. */
  method JoinMembers(texts: Texts, ghost twins: seq<seq<Id>>, parent: Parents, ghost f: Shape, members: seq<Id>)
    returns (parent': Parents, ghost f': Shape)
    requires Forest(parent, f) && Sound(texts, twins, f) && AskTheSame(texts, twins, members)
    ensures Forest(parent', f') && Sound(texts, twins, f')
    ensures AllOneRoot(f', members) && RootsStayTogether(f, f')
  {
    parent', f' := parent, f;
    if |members| == 0 {
      return;
    }
    assert SameQuestion(texts, twins, members[0], members[0]);
    for k := 1 to |members|
      invariant Forest(parent', f') && Sound(texts, twins, f')
      invariant AllOneRoot(f', members[..k]) && RootsStayTogether(f, f')
    {
      assert SameQuestion(texts, twins, members[0], members[k]);
      ghost var before := f';
      parent', f' := Join(texts, twins, parent', f', members[0], members[k]);
      OneMoreMember(before, f', members, k);
    }
    assert members[..|members|] == members;
  }

  lemma HangJoins(f: Shape, first: Id, other: Id)
    requires f.height.Keys == f.root.Keys && first in f.root && other in f.root && f.root[first] in f.root
    ensures var g := Hung(f, f.root[first], f.root[other]);
            SameRoot(g, first, other) && RootsStayTogether(f, g)
  {
  }

  lemma OneMoreMember(f: Shape, g: Shape, members: seq<Id>, k: nat)
    requires 0 < k < |members| && AllOneRoot(f, members[..k]) && RootsStayTogether(f, g)
    requires SameRoot(g, members[0], members[k])
    ensures AllOneRoot(g, members[..k + 1])
  {
    forall q | q in members[..k + 1]
      ensures SameRoot(g, members[0], q)
    {
      if q != members[k] {
        assert members[..k + 1] == members[..k] + [members[k]];
        assert q in members[..k] && members[0] in members[..k];
        assert SameRoot(f, members[0], q);
      }
    }
    forall q, r | q in members[..k + 1] && r in members[..k + 1]
      ensures SameRoot(g, q, r)
    {
      assert SameRoot(g, members[0], q) && SameRoot(g, members[0], r);
    }
  }

  // ---- gathering the ids of each text

  ghost predicate Together(lists: seq<seq<Id>>, q: Id, r: Id) {
    exists k :: 0 <= k < |lists| && q in lists[k] && r in lists[k]
  }

  /** Every list holds ids of its text only, and every id seen is in the list of its text. */
  ghost predicate Gathered(texts: Texts, seen: seq<Id>, byText: map<string, seq<Id>>) {
    && (forall t, q :: t in byText && q in byText[t] ==> q in texts && texts[q] == t)
    && (forall q :: q in seen && q in texts ==> texts[q] in byText && q in byText[texts[q]])
  }

  /** The ids of each text, texts in the order they first appear. */
  method ByText(ids: seq<Id>, texts: Texts) returns (lists: seq<seq<Id>>)
    requires forall q :: q in ids <==> q in texts
    ensures forall k, q :: 0 <= k < |lists| && q in lists[k] ==> q in texts
    ensures forall k, q, r :: 0 <= k < |lists| && q in lists[k] && r in lists[k] ==> texts[q] == texts[r]
    ensures forall q, r :: q in texts && r in texts && texts[q] == texts[r] ==> Together(lists, q, r)
  {
    var byText: map<string, seq<Id>>, order: seq<string> := map[], [];
    for k := 0 to |ids|
      invariant Gathered(texts, ids[..k], byText) && forall t :: t in byText <==> t in order
    {
      assert ids[k] in ids && ids[..k + 1] == ids[..k] + [ids[k]];
      var text := texts[ids[k]];
      if text !in byText {
        byText, order := byText[text := []], order + [text];
      }
      byText := byText[text := byText[text] + [ids[k]]];
    }
    assert ids[..|ids|] == ids;
    lists := seq(|order|, k requires 0 <= k < |order| => byText[order[k]]);
    forall q, r | q in texts && r in texts && texts[q] == texts[r]
      ensures Together(lists, q, r)
    {
      var k :| 0 <= k < |order| && order[k] == texts[q];
      assert lists[k] == byText[texts[q]];
    }
  }

  // ---- the group keys

  /** Twin ids that are not in the corpus. */
  function Unknown(texts: Texts, twins: seq<seq<Id>>): set<Id> {
    set k, q | 0 <= k < |twins| && q in twins[k] && q !in texts :: q
  }

  lemma {:induction false} ChainKeepsRoot(texts: Texts, twins: seq<seq<Id>>, f: Shape, path: seq<Id>)
    requires Closed(texts, twins, f) && ChainOf(texts, twins, path) && f.root.Keys == texts.Keys
    ensures SameRoot(f, path[0], path[|path| - 1])
  {
    if |path| > 1 {
      ChainKeepsRoot(texts, twins, f, path[..|path| - 1]);
      assert SameQuestion(texts, twins, path[|path| - 2], path[|path| - 1]);
    }
  }

  /** Every direct link has been joined. */
  ghost predicate Closed(texts: Texts, twins: seq<seq<Id>>, f: Shape) {
    forall q, r :: SameQuestion(texts, twins, q, r) ==> SameRoot(f, q, r)
  }

  lemma RootsAreGroups(texts: Texts, twins: seq<seq<Id>>, f: Shape, q: Id, r: Id)
    requires Sound(texts, twins, f) && Closed(texts, twins, f)
    requires q in texts && r in texts
    ensures SameRoot(f, q, r) <==> Connected(texts, twins, q, r)
  {
    if SameRoot(f, q, r) {
      ConnectedReverse(texts, twins, r, f.root[r]);
      ConnectedJoin(texts, twins, q, f.root[q], r);
    }
    if Connected(texts, twins, q, r) {
      var path :| ChainOf(texts, twins, path) && path[0] == q && path[|path| - 1] == r;
      ChainKeepsRoot(texts, twins, f, path);
    }
  }

  /** Starts every question as its own root. */
  lemma SingletonsAreSound(texts: Texts, twins: seq<seq<Id>>)
    ensures var f := Shape(map q | q in texts :: 0, map q | q in texts :: q);
            Forest(map q | q in texts :: q, f) && Sound(texts, twins, f)
  {
    forall q | q in texts
      ensures Connected(texts, twins, q, q)
    {
      ConnectedToItself(texts, twins, q);
    }
  }

  /** Joins several lists, one after the other. */
  method JoinLists(texts: Texts, ghost twins: seq<seq<Id>>, lists: seq<seq<Id>>, parent: Parents, ghost f: Shape)
    returns (parent': Parents, ghost f': Shape)
    requires Forest(parent, f) && Sound(texts, twins, f)
    requires forall k :: 0 <= k < |lists| ==> AskTheSame(texts, twins, lists[k])
    ensures Forest(parent', f') && Sound(texts, twins, f') && RootsStayTogether(f, f')
    ensures forall q, r :: Together(lists, q, r) ==> SameRoot(f', q, r)
  {
    parent', f' := parent, f;
    for k := 0 to |lists|
      invariant Forest(parent', f') && Sound(texts, twins, f') && RootsStayTogether(f, f')
      invariant forall q, r :: Together(lists[..k], q, r) ==> SameRoot(f', q, r)
    {
      ghost var before := f';
      parent', f' := JoinMembers(texts, twins, parent', f', lists[k]);
      forall q, r | Together(lists[..k + 1], q, r)
        ensures SameRoot(f', q, r)
      {
        var j :| 0 <= j < k + 1 && q in lists[j] && r in lists[j];
        if j < k {
          assert q in lists[..k][j] && r in lists[..k][j];
          assert Together(lists[..k], q, r) && SameRoot(before, q, r);
        }
      }
    }
    assert lists[..|lists|] == lists;
  }

  /** The parent forest after equal texts and then twins are joined. */
  method BuildForest(ids: seq<Id>, texts: Texts, twins: seq<seq<Id>>) returns (parent: Parents, ghost f: Shape)
    requires (forall q :: q in ids <==> q in texts) && Unknown(texts, twins) == {}
    ensures Forest(parent, f) && Sound(texts, twins, f) && Closed(texts, twins, f)
  {
    parent := map q | q in texts :: q;
    f := Shape(map q | q in texts :: 0, map q | q in texts :: q);
    SingletonsAreSound(texts, twins);
    var byText := ByText(ids, texts);
    forall k | 0 <= k < |twins|
      ensures AskTheSame(texts, twins, twins[k])
    {
      assert forall q :: q in twins[k] && q !in texts ==> q in Unknown(texts, twins);
    }
    forall k | 0 <= k < |byText|
      ensures AskTheSame(texts, twins, byText[k])
    {
    }
    parent, f := JoinLists(texts, twins, byText, parent, f);
    ghost var joined := f;
    parent, f := JoinLists(texts, twins, twins, parent, f);
    forall q, r | SameQuestion(texts, twins, q, r)
      ensures SameRoot(f, q, r)
    {
      if texts[q] == texts[r] {
        assert Together(byText, q, r) && SameRoot(joined, q, r);
      } else {
        assert Together(twins, q, r);
      }
    }
  }

  /** Some question of the given ids under root r has text t. */
  ghost predicate TextUnder(texts: Texts, f: Shape, ids: seq<Id>, r: Id, t: string) {
    exists q :: q in ids && q in texts && q in f.root && f.root[q] == r && texts[q] == t
  }

  ghost predicate NamesOf(texts: Texts, f: Shape, ids: seq<Id>, names: map<Id, seq<string>>) {
    && (forall r, t :: r in names && t in names[r] ==> TextUnder(texts, f, ids, r, t))
    && (forall q :: q in ids && q in texts && q in f.root ==> f.root[q] in names && texts[q] in names[f.root[q]])
  }

  /** The texts under every root, in the order of the ids. */
  method CollectNames(ids: seq<Id>, texts: Texts, parent: Parents, ghost f: Shape)
    returns (names: map<Id, seq<string>>)
    requires Forest(parent, f) && f.root.Keys == texts.Keys && forall q :: q in ids <==> q in texts
    ensures NamesOf(texts, f, ids, names)
  {
    names := map[];
    for k := 0 to |ids|
      invariant NamesOf(texts, f, ids[..k], names)
    {
      assert ids[k] in ids && ids[..k + 1] == ids[..k] + [ids[k]];
      var root := FindRoot(parent, f, ids[k]);
      ghost var before := names;
      names := names[root := (if root in names then names[root] else []) + [texts[ids[k]]]];
      forall r, t | r in names && t in names[r]
        ensures TextUnder(texts, f, ids[..k + 1], r, t)
      {
        if r in before && t in before[r] {
          assert TextUnder(texts, f, ids[..k], r, t);
        } else {
          assert r == f.root[ids[k]] && t == texts[ids[k]];
        }
      }
    }
    assert ids[..|ids|] == ids;
  }

  /** The smallest text among the questions connected to q. */
  ghost predicate NamesGroup(texts: Texts, twins: seq<seq<Id>>, q: Id, key: string) {
    && (exists r :: r in texts && Connected(texts, twins, q, r) && texts[r] == key)
    && (forall r {:trigger Connected(texts, twins, q, r)} :: r in texts && Connected(texts, twins, q, r) ==>
          TextOrder.AtMost(key, texts[r]))
  }

  /** A smallest text names one group only. */
  lemma NamesSeparateGroups(texts: Texts, twins: seq<seq<Id>>, q: Id, s: Id, key: string, other: string)
    requires q in texts && s in texts
    requires NamesGroup(texts, twins, q, key) && NamesGroup(texts, twins, s, other)
    ensures key == other <==> Connected(texts, twins, q, s)
  {
    var r :| r in texts && Connected(texts, twins, q, r) && texts[r] == key;
    var t :| t in texts && Connected(texts, twins, s, t) && texts[t] == other;
    if key == other {
      ConnectedStep(texts, twins, r, t);
      ConnectedReverse(texts, twins, s, t);
      ConnectedJoin(texts, twins, q, r, t);
      ConnectedJoin(texts, twins, q, t, s);
    }
    if Connected(texts, twins, q, s) {
      ConnectedReverse(texts, twins, q, s);
      ConnectedJoin(texts, twins, q, s, t);
      ConnectedJoin(texts, twins, s, q, r);
      TextOrder.Antisymmetric(key, other);
    }
  }

  /**
   * The key of every question, or the twin ids the corpus does not have. Two questions get
   * the same key exactly when a chain of equal texts and twins links them.
   */
  method Group(ids: seq<Id>, texts: Texts, twins: seq<seq<Id>>) returns (r: Result<map<Id, string>, set<Id>>)
    requires forall q :: q in ids <==> q in texts
    ensures r.Err? <==> Unknown(texts, twins) != {}
    ensures r.Err? ==> r.error == Unknown(texts, twins)
    ensures r.Ok? ==> GroupKeys(texts, twins, r.value) && SeparatesGroups(texts, twins, r.value)
  {
    if Unknown(texts, twins) != {} {
      return Err(Unknown(texts, twins));
    }
    var parent, f := BuildForest(ids, texts, twins);
    var names := CollectNames(ids, texts, parent, f);
    LeastNames(ids, texts, twins, f, names);
    var keys := NameRoots(ids, texts, twins, parent, f, names);
    KeysSeparate(texts, twins, keys);
    r := Ok(keys);
  }

  ghost predicate GroupKeys(texts: Texts, twins: seq<seq<Id>>, keys: map<Id, string>) {
    keys.Keys == texts.Keys && forall q {:trigger keys[q]} :: q in texts ==> NamesGroup(texts, twins, q, keys[q])
  }

  ghost predicate SeparatesGroups(texts: Texts, twins: seq<seq<Id>>, keys: map<Id, string>) {
    forall q, s {:trigger keys[q], keys[s]} :: q in keys && s in keys ==>
      (keys[q] == keys[s] <==> Connected(texts, twins, q, s))
  }

  lemma {:induction false} KeysSeparate(texts: Texts, twins: seq<seq<Id>>, keys: map<Id, string>)
    requires GroupKeys(texts, twins, keys)
    ensures SeparatesGroups(texts, twins, keys)
  {
    forall q, s | q in keys && s in keys
      ensures keys[q] == keys[s] <==> Connected(texts, twins, q, s)
    {
      NamesSeparateGroups(texts, twins, q, s, keys[q], keys[s]);
    }
  }

  /** The smallest text under a root names the group of every question under it. */
  ghost predicate LeastNamesGroups(texts: Texts, twins: seq<seq<Id>>, f: Shape, names: map<Id, seq<string>>) {
    forall q, key :: q in texts && q in f.root && f.root[q] in names && TextOrder.IsLeast(key, names[f.root[q]]) ==>
      NamesGroup(texts, twins, q, key)
  }

  lemma LeastNames(ids: seq<Id>, texts: Texts, twins: seq<seq<Id>>, f: Shape, names: map<Id, seq<string>>)
    requires Sound(texts, twins, f) && Closed(texts, twins, f) && NamesOf(texts, f, ids, names)
    requires forall q :: q in ids <==> q in texts
    ensures LeastNamesGroups(texts, twins, f, names)
  {
    forall q, key | q in texts && f.root[q] in names && TextOrder.IsLeast(key, names[f.root[q]])
      ensures NamesGroup(texts, twins, q, key)
    {
      LeastNamesGroup(ids, texts, twins, f, names, q, key);
    }
  }

  /** Names every question by the smallest text under its root. */
  method NameRoots(ids: seq<Id>, texts: Texts, ghost twins: seq<seq<Id>>, parent: Parents, ghost f: Shape,
                   names: map<Id, seq<string>>)
    returns (keys: map<Id, string>)
    requires Forest(parent, f) && f.root.Keys == texts.Keys && NamesOf(texts, f, ids, names)
    requires forall q :: q in ids <==> q in texts
    requires LeastNamesGroups(texts, twins, f, names)
    ensures GroupKeys(texts, twins, keys)
  {
    keys := map[];
    for k := 0 to |ids|
      invariant keys.Keys == Elements(ids[..k])
      invariant forall q :: q in keys ==> NamesGroup(texts, twins, q, keys[q])
    {
      assert ids[k] in ids && Elements(ids[..k + 1]) == Elements(ids[..k]) + {ids[k]};
      var root := FindRoot(parent, f, ids[k]);
      assert texts[ids[k]] in names[root];
      var key := TextOrder.Least(names[root]);
      keys := keys[ids[k] := key];
    }
    assert Elements(ids[..|ids|]) == texts.Keys;
  }

  lemma LeastNamesGroup(ids: seq<Id>, texts: Texts, twins: seq<seq<Id>>, f: Shape, names: map<Id, seq<string>>,
                        q: Id, key: string)
    requires Sound(texts, twins, f) && Closed(texts, twins, f) && NamesOf(texts, f, ids, names)
    requires (forall q :: q in ids <==> q in texts) && q in texts && f.root[q] in names
    requires TextOrder.IsLeast(key, names[f.root[q]])
    ensures NamesGroup(texts, twins, q, key)
  {
    forall r | r in texts
      ensures SameRoot(f, q, r) <==> Connected(texts, twins, q, r)
    {
      RootsAreGroups(texts, twins, f, q, r);
    }
    forall r | r in texts && Connected(texts, twins, q, r)
      ensures TextOrder.AtMost(key, texts[r])
    {
      assert SameRoot(f, q, r) && texts[r] in names[f.root[q]];
    }
    assert TextUnder(texts, f, ids, f.root[q], key);
    var r :| r in texts && f.root[r] == f.root[q] && texts[r] == key;
    assert SameRoot(f, q, r);
  }
}
