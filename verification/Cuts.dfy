/** Consistent cuts of a finite acyclic computation (arch/consistent_cut.go): the closures a
    cut must contain and avoid, and the exhaustive search for all of them. */
module Cuts {
  import opened Texts
  import opened Reachability

  type Edges = set<(Text, Text)>

  /** Closed under predecessors. */
  ghost predicate PrefixClosed(edges: Edges, s: set<Text>) {
    forall a, b :: (a, b) in edges && b in s ==> a in s
  }

  /** A cut: prefix-closed, containing everything required and nothing strictly after the anchor. */
  ghost predicate IsCut(edges: Edges, nodes: set<Text>, required: set<Text>, anchor: Text, s: set<Text>) {
    && s <= nodes && required <= s && PrefixClosed(edges, s)
    && forall x :: x in s && Reach(edges, anchor, x) ==> x == anchor
  }

  ghost predicate LeadsTo(edges: Edges, targets: set<Text>, x: Text) {
    exists t :: t in targets && Reach(edges, x, t)
  }

  /** A prefix-closed set holds whatever leads to one of its members. */
  lemma PrefixReach(edges: Edges, s: set<Text>, a: Text, b: Text)
    requires PrefixClosed(edges, s) && b in s && Reach(edges, a, b)
    ensures a in s
  {
    var outside := iset x | x !in s;
    if a !in s {
      ReachWithin(edges, a, b, outside);
    }
  }

  /** Containing the required occurrences is containing everything that leads to them. */
  lemma CutContainsBase(edges: Edges, nodes: set<Text>, required: set<Text>, base: set<Text>, anchor: Text, s: set<Text>)
    requires forall x :: x in base <==> x in nodes && LeadsTo(edges, required, x)
    requires required <= nodes
    ensures IsCut(edges, nodes, required, anchor, s) <==>
            s <= nodes && base <= s && PrefixClosed(edges, s) && forall x :: x in s && Reach(edges, anchor, x) ==> x == anchor
  {
    hide Reach;
    forall x | x in required ensures x in base {
      ReachItself(edges, x);
    }
    if required <= s && PrefixClosed(edges, s) {
      forall x | x in base ensures x in s {
        var t :| t in required && Reach(edges, x, t);
        PrefixReach(edges, s, x, t);
      }
    }
  }

  // ----- A validated computation -----

  /** Adjacency in canonical order and a topological listing of the occurrences. */
  datatype Graph = Graph(predecessors: map<Text, seq<Text>>, successors: map<Text, seq<Text>>, topological: seq<Text>)

  ghost predicate Represents(g: Graph, nodes: set<Text>, edges: Edges) {
    && g.predecessors.Keys == nodes && g.successors.Keys == nodes
    && (forall x :: x in nodes ==> StrictlySorted(g.predecessors[x]) && forall a :: a in g.predecessors[x] <==> (a, x) in edges)
    && (forall x :: x in nodes ==> StrictlySorted(g.successors[x]) && forall b :: b in g.successors[x] <==> (x, b) in edges)
    && (forall a, b :: (a, b) in edges ==> a in nodes && b in nodes)
    && Members(g.topological) == nodes && ListsTopologically(edges, g.topological)
    && forall i, j :: 0 <= i < j < |g.topological| ==> g.topological[i] != g.topological[j]
  }

  /** reachable. */
  method Reachable(g: Graph, before: Text, after: Text, ghost nodes: set<Text>, ghost edges: Edges) returns (reachable: bool)
    requires Represents(g, nodes, edges) && before in nodes
    ensures reachable <==> Reach(edges, before, after)
  {
    hide Reach, ListsTopologically, StrictlySorted;
    ReachItself(edges, before);
    if before == after {
      return true;
    }
    var seen := {before};
    var queue := [before];
    while queue != []
      invariant seen <= nodes && before in seen && after !in seen
      invariant forall x :: x in queue ==> x in seen
      invariant forall x :: x in seen ==> Reach(edges, before, x)
      invariant forall x, y :: x in seen && x !in queue && (x, y) in edges ==> y in seen
      decreases nodes - seen, |queue|
    {
      var current := queue[0];
      queue := queue[1..];
      ghost var earlier, rest := seen, queue;
      for index := 0 to |g.successors[current]|
        invariant seen <= nodes && before in seen && after !in seen && current in seen
        invariant forall x :: x in queue ==> x in seen
        invariant forall x :: x in seen ==> Reach(edges, before, x)
        invariant forall i :: 0 <= i < index ==> g.successors[current][i] in seen
        invariant forall x, y :: x in seen && x != current && x !in queue && (x, y) in edges ==> y in seen
        invariant earlier <= seen && (seen == earlier ==> queue == rest)
      {
        var next := g.successors[current][index];
        assert (current, next) in edges;
        ReachStep(edges, before, current, next);
        if next == after {
          return true;
        }
        if next !in seen {
          seen := seen + {next};
          queue := queue + [next];
        }
      }
    }
    ClosedSetHolds(edges, seen, before, after);
    return false;
  }

  lemma ClosedSetHolds(edges: Edges, s: set<Text>, a: Text, b: Text)
    requires a in s && forall x, y :: x in s && (x, y) in edges ==> y in s
    ensures Reach(edges, a, b) ==> b in s
  {
    if Reach(edges, a, b) {
      ReachWithin(edges, a, b, iset x | x in s);
    }
  }

  /** Everything newly marked leads to x, and has all its predecessors marked. */
  ghost predicate MarkedTo(edges: Edges, before: set<Text>, after: set<Text>, x: Text) {
    && before <= after && x in after
    && (forall y :: y in after - before ==> Reach(edges, y, x))
    && (forall a, y :: (a, y) in edges && y in after - before ==> a in after)
  }

  /** addPredecessorClosure. */
  method AddPredecessorClosure(g: Graph, id: Text, marked: set<Text>, ghost nodes: set<Text>, ghost edges: Edges)
    returns (result: set<Text>)
    requires Represents(g, nodes, edges) && id in nodes && marked <= nodes
    ensures result <= nodes && MarkedTo(edges, marked, result, id)
    decreases nodes - marked
  {
    hide Reach, ListsTopologically, StrictlySorted;
    ReachItself(edges, id);
    if id in marked {
      return marked;
    }
    result := marked + {id};
    for index := 0 to |g.predecessors[id]|
      invariant marked + {id} <= result <= nodes
      invariant forall y :: y in result - marked ==> Reach(edges, y, id)
      invariant forall a, y :: (a, y) in edges && y in result - marked - {id} ==> a in result
      invariant forall i :: 0 <= i < index ==> g.predecessors[id][i] in result
    {
      var predecessor := g.predecessors[id][index];
      assert (predecessor, id) in edges;
      ghost var earlier := result;
      result := AddPredecessorClosure(g, predecessor, result, nodes, edges);
      forall y | y in result - marked ensures Reach(edges, y, id) {
        if y !in earlier {
          ReachStep(edges, y, predecessor, id);
        }
      }
    }
    assert forall a :: (a, id) in edges ==> a in g.predecessors[id];
  }

  ghost predicate MarkedFrom(edges: Edges, before: set<Text>, after: set<Text>, x: Text) {
    && before <= after && x in after
    && (forall y :: y in after - before ==> Reach(edges, x, y))
    && (forall y, b :: (y, b) in edges && y in after - before ==> b in after)
  }

  /** addSuccessorClosure. */
  method AddSuccessorClosure(g: Graph, id: Text, marked: set<Text>, ghost nodes: set<Text>, ghost edges: Edges)
    returns (result: set<Text>)
    requires Represents(g, nodes, edges) && id in nodes && marked <= nodes
    ensures result <= nodes && MarkedFrom(edges, marked, result, id)
    decreases nodes - marked
  {
    hide Reach, ListsTopologically, StrictlySorted;
    ReachItself(edges, id);
    if id in marked {
      return marked;
    }
    result := marked + {id};
    for index := 0 to |g.successors[id]|
      invariant marked + {id} <= result <= nodes
      invariant forall y :: y in result - marked ==> Reach(edges, id, y)
      invariant forall y, b :: (y, b) in edges && y in result - marked - {id} ==> b in result
      invariant forall i :: 0 <= i < index ==> g.successors[id][i] in result
    {
      var successor := g.successors[id][index];
      assert (id, successor) in edges;
      ghost var earlier := result;
      result := AddSuccessorClosure(g, successor, result, nodes, edges);
      forall y | y in result - marked ensures Reach(edges, id, y) {
        if y !in earlier {
          ReachAfter(edges, id, successor, y);
        }
      }
    }
    assert forall b :: (id, b) in edges ==> b in g.successors[id];
  }

  lemma ReachAfter(edges: Edges, a: Text, b: Text, c: Text)
    requires (a, b) in edges && Reach(edges, b, c)
    ensures Reach(edges, a, c)
  {
    ReachItself(edges, a);
    ReachStep(edges, a, a, b);
    ReachTrans(edges, a, b, c);
  }

  /** The predecessor closure of the required occurrences. */
  method BaseOf(g: Graph, required: set<Text>, ghost nodes: set<Text>, ghost edges: Edges) returns (base: set<Text>)
    requires Represents(g, nodes, edges) && required <= nodes
    ensures forall x :: x in base <==> x in nodes && LeadsTo(edges, required, x)
    ensures PrefixClosed(edges, base) && required <= base
  {
    hide Reach, Represents;
    base := {};
    var rest := required;
    while rest != {}
      invariant rest <= required && base <= nodes && required - rest <= base
      invariant PrefixClosed(edges, base)
      invariant forall x :: x in base ==> LeadsTo(edges, required, x)
      decreases rest
    {
      var id :| id in rest;
      rest := rest - {id};
      ghost var earlier := base;
      base := AddPredecessorClosure(g, id, base, nodes, edges);
      forall x | x in base ensures LeadsTo(edges, required, x) {
        if x !in earlier {
          assert Reach(edges, x, id);
        }
      }
    }
    forall x | x in nodes && LeadsTo(edges, required, x) ensures x in base {
      var t :| t in required && Reach(edges, x, t);
      PrefixReach(edges, base, x, t);
    }
  }

  /** The strict successors of an anchor. */
  method StrictSuccessors(g: Graph, anchor: Text, ghost nodes: set<Text>, ghost edges: Edges) returns (forbidden: set<Text>)
    requires Represents(g, nodes, edges) && anchor in nodes
    ensures forall x :: x in forbidden <==> x != anchor && Reach(edges, anchor, x)
    ensures forbidden <= nodes
  {
    hide Reach, Represents;
    var closure := AddSuccessorClosure(g, anchor, {}, nodes, edges);
    forbidden := closure - {anchor};
    forall x | Reach(edges, anchor, x) ensures x in closure {
      ClosedSetHolds(edges, closure, anchor, x);
    }
  }

  // ----- Exhaustive search -----

  /** A cut that agrees with `selected` on the first `index` occurrences. */
  ghost predicate Completes(
      edges: Edges, topological: seq<Text>, base: set<Text>, forbidden: set<Text>, index: nat, selected: set<Text>, s: set<Text>)
    requires index <= |topological|
  {
    && base <= s <= Members(topological) && s !! forbidden && PrefixClosed(edges, s)
    && forall k :: 0 <= k < index ==> (topological[k] in s <==> topological[k] in selected)
  }

  /** The selection so far: a cut that holds only base occurrences from `index` on. */
  ghost predicate Selected(
      edges: Edges, topological: seq<Text>, base: set<Text>, forbidden: set<Text>, index: nat, selected: set<Text>)
    requires index <= |topological|
  {
    && base <= selected <= Members(topological) && selected !! forbidden && PrefixClosed(edges, selected)
    && forall k :: index <= k < |topological| ==> (topological[k] in selected <==> topological[k] in base)
  }

  type Found = map<set<Text>, set<Text>>

  /** `after` adds the anchor to exactly the cuts that complete the selection. */
  ghost predicate Records(
      edges: Edges, topological: seq<Text>, base: set<Text>, forbidden: set<Text>, anchor: Text,
      index: nat, selected: set<Text>, before: Found, after: Found)
    requires index <= |topological|
  {
    forall s ::
      && (s in after <==> s in before || Completes(edges, topological, base, forbidden, index, selected, s))
      && (s in after ==> after[s] == (if s in before then before[s] else {}) +
                                     (if Completes(edges, topological, base, forbidden, index, selected, s) then {anchor} else {}))
  }

  /** The limit was met with one more cut to come. */
  ghost predicate Overflows(
      edges: Edges, topological: seq<Text>, base: set<Text>, forbidden: set<Text>,
      index: nat, selected: set<Text>, before: Found, after: Found, extra: set<Text>, limit: nat)
    requires index <= |topological|
  {
    && |after| >= limit && extra !in after
    && Completes(edges, topological, base, forbidden, index, selected, extra)
    && forall s :: s in after ==> s in before || Completes(edges, topological, base, forbidden, index, selected, s)
  }

  lemma OnlySelection(edges: Edges, topological: seq<Text>, base: set<Text>, forbidden: set<Text>, selected: set<Text>, s: set<Text>)
    requires Selected(edges, topological, base, forbidden, |topological|, selected)
    ensures Completes(edges, topological, base, forbidden, |topological|, selected, s) <==> s == selected
  {
    if Completes(edges, topological, base, forbidden, |topological|, selected, s) {
      forall x | x in Members(topological) ensures x in s <==> x in selected {
        var k :| 0 <= k < |topological| && topological[k] == x;
      }
    }
  }

  /** A decided occurrence leaves the completions alone. */
  lemma DecidedStep(
      edges: Edges, topological: seq<Text>, base: set<Text>, forbidden: set<Text>, index: nat, selected: set<Text>)
    requires index < |topological| && Selected(edges, topological, base, forbidden, index, selected)
    requires topological[index] in base || topological[index] in forbidden
    ensures Selected(edges, topological, base, forbidden, index + 1, selected)
    ensures forall s :: Completes(edges, topological, base, forbidden, index, selected, s) <==>
                        Completes(edges, topological, base, forbidden, index + 1, selected, s)
  {}

  /** An open occurrence is left out, or taken once its predecessors are all in. */
  lemma OpenStep(
      edges: Edges, topological: seq<Text>, base: set<Text>, forbidden: set<Text>, index: nat, selected: set<Text>)
    requires index < |topological| && Selected(edges, topological, base, forbidden, index, selected)
    requires topological[index] !in base && topological[index] !in forbidden
    requires ListsTopologically(edges, topological)
    requires forall i, j :: 0 <= i < j < |topological| ==> topological[i] != topological[j]
    requires forall a, b :: (a, b) in edges ==> a in Members(topological) && b in Members(topological)
    ensures Selected(edges, topological, base, forbidden, index + 1, selected)
    ensures var id := topological[index];
            var fits := forall a :: (a, id) in edges ==> a in selected;
            && (fits ==> Selected(edges, topological, base, forbidden, index + 1, selected + {id}))
            && (forall s :: Completes(edges, topological, base, forbidden, index, selected, s) <==>
                  Completes(edges, topological, base, forbidden, index + 1, selected, s) ||
                  (fits && Completes(edges, topological, base, forbidden, index + 1, selected + {id}, s)))
  {
    hide ListsTopologically;
    var id := topological[index];
    assert id !in selected;
    SelectionStaysClosed(edges, topological, index, selected);
    forall s ensures Completes(edges, topological, base, forbidden, index, selected, s) <==>
        Completes(edges, topological, base, forbidden, index + 1, selected, s) ||
        ((forall a :: (a, id) in edges ==> a in selected) && Completes(edges, topological, base, forbidden, index + 1, selected + {id}, s))
    {
      if Completes(edges, topological, base, forbidden, index, selected, s) && id in s {
        forall a | (a, id) in edges ensures a in selected {
          EarlierSource(edges, topological, index, a);
          var k :| 0 <= k < index && topological[k] == a;
        }
      }
    }
  }

  lemma EarlierSource(edges: Edges, topological: seq<Text>, index: nat, a: Text)
    requires index < |topological| && (a, topological[index]) in edges && a in Members(topological)
    requires ListsTopologically(edges, topological)
    ensures exists k :: 0 <= k < index && topological[k] == a
  {
    var k :| 0 <= k < |topological| && topological[k] == a;
    assert (topological[k], topological[index]) in edges;
  }

  lemma SelectionStaysClosed(edges: Edges, topological: seq<Text>, index: nat, selected: set<Text>)
    requires index < |topological| && PrefixClosed(edges, selected)
    ensures (forall a :: (a, topological[index]) in edges ==> a in selected) ==> PrefixClosed(edges, selected + {topological[index]})
  {}

  lemma FoundTwice(
      edges: Edges, topological: seq<Text>, base: set<Text>, forbidden: set<Text>, anchor: Text,
      index: nat, selected: set<Text>, other: set<Text>, before: Found, middle: Found, after: Found)
    requires index < |topological|
    requires Records(edges, topological, base, forbidden, anchor, index + 1, selected, before, middle)
    requires Records(edges, topological, base, forbidden, anchor, index + 1, other, middle, after)
    requires forall s :: Completes(edges, topological, base, forbidden, index, selected, s) <==>
                         Completes(edges, topological, base, forbidden, index + 1, selected, s) ||
                         Completes(edges, topological, base, forbidden, index + 1, other, s)
    ensures Records(edges, topological, base, forbidden, anchor, index, selected, before, after)
  {
    hide Completes;
    forall s
      ensures s in after <==> s in before || Completes(edges, topological, base, forbidden, index, selected, s)
      ensures s in after ==> after[s] == (if s in before then before[s] else {}) +
                                     (if Completes(edges, topological, base, forbidden, index, selected, s) then {anchor} else {})
    {
      assert s in middle <==> s in before || Completes(edges, topological, base, forbidden, index + 1, selected, s);
      assert s in after <==> s in middle || Completes(edges, topological, base, forbidden, index + 1, other, s);
    }
  }

  lemma SameRecords(
      edges: Edges, topological: seq<Text>, base: set<Text>, forbidden: set<Text>, anchor: Text,
      index: nat, selected: set<Text>, before: Found, after: Found)
    requires index < |topological|
    requires Records(edges, topological, base, forbidden, anchor, index + 1, selected, before, after)
    requires forall s :: Completes(edges, topological, base, forbidden, index, selected, s) <==>
                         Completes(edges, topological, base, forbidden, index + 1, selected, s)
    ensures Records(edges, topological, base, forbidden, anchor, index, selected, before, after)
  {
    hide Completes;
  }

  /** The backtracking enumeration below one anchor. */
  class CutSearch {
    const graph: Graph
    const base: set<Text>
    const forbidden: set<Text>
    const anchor: Text
    const maxCuts: nat
    var selected: set<Text>
    var byKey: Found

    constructor (g: Graph, base: set<Text>, forbidden: set<Text>, anchor: Text, maxCuts: nat, byKey: Found)
      ensures graph == g && this.base == base && this.forbidden == forbidden && this.anchor == anchor
      ensures this.maxCuts == maxCuts && selected == base && this.byKey == byKey
    {
      graph := g;
      this.base := base;
      this.forbidden := forbidden;
      this.anchor := anchor;
      this.maxCuts := maxCuts;
      selected := base;
      this.byKey := byKey;
    }

    /** Registers the selection as a cut of this anchor. */
    method Accept() returns (ok: bool)
      modifies this`byKey
      ensures ok <==> selected in old(byKey) || |old(byKey)| < maxCuts
      ensures !ok ==> byKey == old(byKey)
      ensures ok ==> byKey == old(byKey)[selected := (if selected in old(byKey) then old(byKey)[selected] else {}) + {anchor}]
    {
      if selected !in byKey {
        if |byKey| >= maxCuts {
          return false;
        }
        byKey := byKey[selected := {}];
      }
      byKey := byKey[selected := byKey[selected] + {anchor}];
      return true;
    }

    method Enumerate(index: nat, ghost nodes: set<Text>, ghost edges: Edges) returns (ok: bool, ghost extra: set<Text>)
      requires Represents(graph, nodes, edges) && index <= |graph.topological|
      requires Selected(edges, graph.topological, base, forbidden, index, selected)
      modifies this
      ensures ok ==> selected == old(selected)
      ensures ok && |old(byKey)| <= maxCuts ==> |byKey| <= maxCuts
      ensures ok ==> Records(edges, graph.topological, base, forbidden, anchor, index, selected, old(byKey), byKey)
      ensures !ok ==> Overflows(edges, graph.topological, base, forbidden, index, old(selected), old(byKey), byKey, extra, maxCuts)
      decreases |graph.topological| - index
    {
      hide PrefixClosed, StrictlySorted, ListsTopologically, Selected, Completes, Records, Overflows;
      ghost var topological := graph.topological;
      extra := {};
      if index == |graph.topological| {
        ok := Accept();
        extra := selected;
        Leaf(edges, topological, base, forbidden, anchor, selected, old(byKey), byKey, ok, maxCuts);
        return;
      }
      var id := graph.topological[index];
      if id in base || id in forbidden {
        DecidedStep(edges, topological, base, forbidden, index, selected);
        ok, extra := Enumerate(index + 1, nodes, edges);
        if ok {
          SameRecords(edges, topological, base, forbidden, anchor, index, selected, old(byKey), byKey);
        } else {
          OverflowsAbove(edges, topological, base, forbidden, index, old(selected), old(byKey), byKey, extra, maxCuts);
        }
        return;
      }
      OpenStep(edges, topological, base, forbidden, index, selected);
      ok, extra := Enumerate(index + 1, nodes, edges);
      if !ok {
        OverflowsAbove(edges, topological, base, forbidden, index, old(selected), old(byKey), byKey, extra, maxCuts);
        return;
      }
      for k := 0 to |graph.predecessors[id]|
        invariant forall j :: 0 <= j < k ==> graph.predecessors[id][j] in selected
      {
        if graph.predecessors[id][k] !in selected {
          assert (graph.predecessors[id][k], id) in edges;
          SameRecords(edges, topological, base, forbidden, anchor, index, selected, old(byKey), byKey);
          return true, {};
        }
      }
      ghost var middle := byKey;
      assert forall a :: (a, id) in edges ==> a in graph.predecessors[id];
      selected := selected + {id};
      ok, extra := Enumerate(index + 1, nodes, edges);
      if ok {
        FoundTwice(edges, topological, base, forbidden, anchor, index, old(selected), selected, old(byKey), middle, byKey);
        NotSelectedYet(edges, topological, base, forbidden, index, old(selected));
        selected := selected - {id};
      } else {
        OverflowsSecond(edges, topological, base, forbidden, anchor, index, old(selected), old(selected) + {id}, old(byKey), middle, byKey, extra, maxCuts);
      }
    }
  }

  /** The selection at a leaf is its only completion: recorded, or one too many. */
  lemma Leaf(
      edges: Edges, topological: seq<Text>, base: set<Text>, forbidden: set<Text>, anchor: Text,
      selected: set<Text>, before: Found, after: Found, ok: bool, limit: nat)
    requires Selected(edges, topological, base, forbidden, |topological|, selected)
    requires ok <==> selected in before || |before| < limit
    requires !ok ==> after == before
    requires ok ==> after == before[selected := (if selected in before then before[selected] else {}) + {anchor}]
    ensures ok ==> Records(edges, topological, base, forbidden, anchor, |topological|, selected, before, after)
    ensures !ok ==> Overflows(edges, topological, base, forbidden, |topological|, selected, before, after, selected, limit)
  {
    hide Selected, Completes;
    forall s ensures Completes(edges, topological, base, forbidden, |topological|, selected, s) <==> s == selected {
      OnlySelection(edges, topological, base, forbidden, selected, s);
    }
  }

  lemma OverflowsAbove(
      edges: Edges, topological: seq<Text>, base: set<Text>, forbidden: set<Text>, index: nat, selected: set<Text>,
      before: Found, after: Found, extra: set<Text>, limit: nat)
    requires index < |topological|
    requires Overflows(edges, topological, base, forbidden, index + 1, selected, before, after, extra, limit)
    requires forall s :: Completes(edges, topological, base, forbidden, index + 1, selected, s) ==>
                         Completes(edges, topological, base, forbidden, index, selected, s)
    ensures Overflows(edges, topological, base, forbidden, index, selected, before, after, extra, limit)
  {
    hide Completes;
  }

  lemma OverflowsSecond(
      edges: Edges, topological: seq<Text>, base: set<Text>, forbidden: set<Text>, anchor: Text, index: nat,
      selected: set<Text>, grown: set<Text>, before: Found, middle: Found, after: Found, extra: set<Text>, limit: nat)
    requires index < |topological|
    requires Records(edges, topological, base, forbidden, anchor, index + 1, selected, before, middle)
    requires Overflows(edges, topological, base, forbidden, index + 1, grown, middle, after, extra, limit)
    requires forall s :: Completes(edges, topological, base, forbidden, index, selected, s) <==>
               Completes(edges, topological, base, forbidden, index + 1, selected, s) ||
               Completes(edges, topological, base, forbidden, index + 1, grown, s)
    ensures Overflows(edges, topological, base, forbidden, index, selected, before, after, extra, limit)
  {
    hide Completes;
  }

  lemma NotSelectedYet(edges: Edges, topological: seq<Text>, base: set<Text>, forbidden: set<Text>, index: nat, selected: set<Text>)
    requires index < |topological| && Selected(edges, topological, base, forbidden, index, selected) && topological[index] !in base
    ensures selected + {topological[index]} - {topological[index]} == selected
  {}
}
