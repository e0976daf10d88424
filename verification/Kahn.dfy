/** Kahn's pass: visiting the nodes of a finite graph, each once all its predecessors have
    been, with counts of the predecessors still to come. */
module Kahn {
  import opened Texts
  import opened Reachability

  /** Counts of unvisited predecessors, and the unvisited nodes without any. */
  ghost predicate PassInvariant(
      edges: set<(Text, Text)>, nodes: set<Text>, visited: set<Text>,
      inDegree: map<Text, nat>, ready: set<Text>)
  {
    && visited <= nodes && inDegree.Keys == nodes && ready <= nodes - visited
    && (forall a, b :: (a, b) in edges && b in visited ==> a in visited)
    && (forall x :: x in nodes - visited ==> inDegree[x] == |Open(edges, visited, x)|)
    && (forall x :: x in nodes - visited ==> (x in ready <==> inDegree[x] == 0))
  }

  lemma PassEnds(edges: set<(Text, Text)>, nodes: set<Text>, visited: set<Text>, inDegree: map<Text, nat>)
    requires Acyclic(edges) && PassInvariant(edges, nodes, visited, inDegree, {})
    requires forall a, b :: (a, b) in edges ==> a in nodes
    ensures visited == nodes
  {
    if visited != nodes {
      var x := KahnProgress(edges, nodes, visited);
    }
  }

  lemma ReadyHasNoOpen(
      edges: set<(Text, Text)>, nodes: set<Text>, visited: set<Text>,
      inDegree: map<Text, nat>, ready: set<Text>, x: Text)
    requires PassInvariant(edges, nodes, visited, inDegree, ready) && x in ready
    ensures forall a :: (a, x) in edges ==> a in visited
  {
    OpenEmpty(edges, visited, x);
  }

  lemma OpenIsListed(edges: set<(Text, Text)>, x: Text, predecessors: seq<Text>)
    requires StrictlySorted(predecessors) && forall a :: a in predecessors <==> (a, x) in edges
    ensures |Open(edges, {}, x)| == |predecessors|
  {
    forall a ensures a in Open(edges, {}, x) <==> a in predecessors {
      if (a, x) in edges {
        assert (a, x).0 == a && (a, x).1 == x;
      }
    }
    assert Open(edges, {}, x) == Members(predecessors);
    SortedCount(predecessors);
  }

  lemma {:induction false} SortedCount(s: seq<Text>)
    requires StrictlySorted(s)
    ensures |Members(s)| == |s|
  {
    if s != [] {
      TailMembers(s);
      SortedCount(s[1..]);
      HeadIsLeast(s);
    }
  }

  lemma PassReady(
      edges: set<(Text, Text)>, nodes: set<Text>, visited: set<Text>,
      inDegree: map<Text, nat>, ready: set<Text>, x: Text)
    requires PassInvariant(edges, nodes, visited, inDegree, ready) && x in ready
    ensures x in nodes && x !in visited && visited <= nodes
    ensures forall a :: (a, x) in edges ==> a in visited
  {
    ReadyHasNoOpen(edges, nodes, visited, inDegree, ready, x);
  }

  lemma NotYetListed(s: seq<Text>, index: nat)
    requires StrictlySorted(s) && index < |s|
    ensures s[index] !in Members(s[..index])
  {
    forall i | 0 <= i < index ensures s[i] != s[index] {
      LessIrreflexive(s[index]);
    }
  }

  /** A successor of a ready node is itself unvisited, and still counts that node. */
  lemma ReadyNotVisited(
      edges: set<(Text, Text)>, nodes: set<Text>, visited: set<Text>,
      inDegree: map<Text, nat>, ready: set<Text>, current: Text, x: Text)
    requires PassInvariant(edges, nodes, visited, inDegree, ready) && current in ready && (current, x) in edges && current != x
    ensures Open(edges, visited, x) != {} && current in Open(edges, visited, x)
    ensures x !in visited
    ensures x in nodes - visited - {current} ==> |Open(edges, visited, x)| > 0
  {
    assert (current, x).0 == current && (current, x).1 == x;
    assert current in Open(edges, visited, x);
  }

  /** Visiting `current` lowers its successors' counts; those reaching zero become ready. */
  method Lower(
      successors: seq<Text>, current: Text, ghost edges: set<(Text, Text)>, ghost nodes: set<Text>,
      ghost visited: set<Text>, inDegree: map<Text, nat>, ready: set<Text>)
    returns (inDegree': map<Text, nat>, ready': set<Text>)
    requires PassInvariant(edges, nodes, visited, inDegree, ready) && current in ready
    requires StrictlySorted(successors) && forall x :: x in successors <==> (current, x) in edges
    requires forall x :: x in successors ==> x != current && x in nodes
    ensures PassInvariant(edges, nodes, visited + {current}, inDegree', ready')
  {
    inDegree', ready' := inDegree, ready - {current};
    ghost var done: set<Text> := {};
    for index := 0 to |successors|
      invariant done == Members(successors[..index])
      invariant inDegree'.Keys == nodes && ready' <= nodes - visited - {current}
      invariant forall x :: x in nodes - visited - {current} ==>
                  inDegree'[x] == |Open(edges, visited, x)| - (if x in done then 1 else 0)
      invariant forall x :: x in nodes - visited - {current} ==> (x in ready' <==> inDegree'[x] == 0)
    {
      var x := successors[index];
      TakeOneMore(successors, index);
      NotYetListed(successors, index);
      ReadyNotVisited(edges, nodes, visited, inDegree, ready, current, x);
      done := done + {x};
      if inDegree'[x] > 0 {
        inDegree' := inDegree'[x := inDegree'[x] - 1];
      }
      if inDegree'[x] == 0 {
        ready' := ready' + {x};
      }
    }
    TakeAll(successors);
    ReadyHasNoOpen(edges, nodes, visited, inDegree, ready, current);
    forall x | x in nodes - visited - {current}
      ensures inDegree'[x] == |Open(edges, visited + {current}, x)|
    {
      OpenAfterVisit(edges, visited, current, x);
      assert x in done <==> x in successors;
    }
  }
}
