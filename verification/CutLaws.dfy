/** Which occurrences keep company in a state cut (arch/consistent_cut.go), field by field of
    the operations, and why ordinary Ref histories (arch/state.go) never break in one. */
module CutLaws {
  import opened Texts
  import opened Reachability
  import opened Cuts
  import opened Computations

  /** The operation names x as something that comes before it. */
  ghost predicate Needs(o: RefOperation, x: Text) {
    x in o.causes || x in o.dependencies || x == o.predecessor || x == o.valueSource
  }

  /** A dependency is either registered or declared by one of the operations it joins. */
  lemma DependenciesExactly(c: AugmentedComputation, a: Text, b: Text)
    ensures (a, b) in c.Dependencies() <==>
            || (a in c.edges && b in c.edges[a])
            || (b in c.nodes && c.nodes[b].RefOccurrence? && a != [] && Needs(c.nodes[b].operation, a))
            || (a in c.nodes && c.nodes[a].RefOccurrence? && b in c.nodes[a].operation.effects)
  {}

  /** With an operation a set of occurrences holds whatever the operation names, and with an
      effect the operation. */
  ghost predicate KeepsOperations(nodes: Nodes, s: set<Text>) {
    forall id :: id in nodes && nodes[id].RefOccurrence? ==>
      var o := nodes[id].operation;
      && (id in s ==> forall x :: x in o.causes && x != [] ==> x in s)
      && (id in s ==> forall x :: x in o.dependencies && x != [] ==> x in s)
      && (id in s && o.predecessor != [] ==> o.predecessor in s)
      && (id in s && o.valueSource != [] ==> o.valueSource in s)
      && (forall x :: x in o.effects && x in s ==> id in s)
  }

  ghost predicate KeepsRegistered(edges: map<Text, set<Text>>, s: set<Text>) {
    forall a, b :: a in edges && b in edges[a] && b in s ==> a in s
  }

  lemma ClosedIff(c: AugmentedComputation, s: set<Text>)
    ensures PrefixClosed(c.Dependencies(), s) <==> KeepsRegistered(c.edges, s) && KeepsOperations(c.nodes, s)
  {
    forall a, b ensures (a, b) in c.Dependencies() <==>
            || (a in c.edges && b in c.edges[a])
            || (b in c.nodes && c.nodes[b].RefOccurrence? && a != [] && Needs(c.nodes[b].operation, a))
            || (a in c.nodes && c.nodes[a].RefOccurrence? && b in c.nodes[a].operation.effects)
    {
      DependenciesExactly(c, a, b);
    }
    if PrefixClosed(c.Dependencies(), s) {
      OperationsKept(c, s);
    }
  }

  lemma OperationsKept(c: AugmentedComputation, s: set<Text>)
    requires PrefixClosed(c.Dependencies(), s)
    ensures KeepsOperations(c.nodes, s)
  {
    forall id, x | id in c.nodes && c.nodes[id].RefOccurrence? && id in s && x != [] && Needs(c.nodes[id].operation, x)
      ensures x in s
    {
      DependenciesExactly(c, x, id);
    }
    forall id, x | id in c.nodes && c.nodes[id].RefOccurrence? && x in c.nodes[id].operation.effects && x in s
      ensures id in s
    {
      DependenciesExactly(c, id, x);
    }
  }

  /** The cuts of a match, said without its dependency relation but for what follows the
      anchor: everything matched and every initial creation, closed in each field. */
  lemma MatchCutIff(c: AugmentedComputation, matched: set<Text>, anchor: Text, s: set<Text>)
    ensures IsMatchCut(c.nodes, c.Dependencies(), matched, anchor, s) <==>
            && IsMaximum(c.Dependencies(), matched, anchor)
            && s <= c.nodes.Keys && matched <= s
            && (forall id :: id in c.nodes && c.nodes[id].RefOccurrence? && c.nodes[id].initial ==> id in s)
            && KeepsRegistered(c.edges, s) && KeepsOperations(c.nodes, s)
            && (forall x :: x in s && x != anchor ==> !Reach(c.Dependencies(), anchor, x))
  {
    hide Reach, KeepsOperations, KeepsRegistered, PrefixClosed, IsMaximum;
    ClosedIff(c, s);
  }

  /** So an answered cut has all its operations rely on, and no effect without its operation. */
  lemma AnsweredCuts(c: AugmentedComputation, matched: set<Text>, cuts: map<set<Text>, Witness>, s: set<Text>)
    requires AllCuts(c.nodes, c.Dependencies(), matched, cuts) && s in cuts
    ensures matched <= s <= c.nodes.Keys && KeepsOperations(c.nodes, s) && KeepsRegistered(c.edges, s)
  {
    hide IsMatchCut, KeepsOperations, KeepsRegistered, IsStateAt;
    var anchor :| IsMatchCut(c.nodes, c.Dependencies(), matched, anchor, s);
    MatchCutIff(c, matched, anchor, s);
  }

  // ----- Ordinary Ref histories -----

  predicate IsOperationOf(nodes: Nodes, id: Text, key: RefKey) {
    id in nodes && nodes[id].RefOccurrence? && KeyOf(nodes[id].operation) == key
  }

  predicate IsDereference(nodes: Nodes, id: Text) {
    id in nodes && nodes[id].RefOccurrence? && nodes[id].operation.kind.Dereference?
  }

  function VersionAt(nodes: Nodes, id: Text): nat {
    if id in nodes && nodes[id].RefOccurrence? then nodes[id].operation.version else 0
  }

  /** y names x as its predecessor; a write counts the version up and a dereference keeps it. */
  ghost predicate Continues(nodes: Nodes, x: Text, y: Text) {
    && y in nodes && nodes[y].RefOccurrence? && x != [] && nodes[y].operation.predecessor == x
    && VersionAt(nodes, y) == VersionAt(nodes, x) + if IsDereference(nodes, y) then 0 else 1
  }

  /** The operations of one Ref in order, as its history records them. */
  ghost predicate IsHistory(nodes: Nodes, key: RefKey, history: seq<Text>) {
    && (forall id :: id in history <==> IsOperationOf(nodes, id, key))
    && (forall i, j :: 0 <= i && i + 1 == j < |history| ==> Continues(nodes, history[i], history[j]))
  }

  lemma PredecessorEdge(nodes: Nodes, key: RefKey, history: seq<Text>, i: nat)
    requires IsHistory(nodes, key, history) && 0 < i < |history|
    ensures (history[i - 1], history[i]) in OperationEdges(nodes)
  {
    assert Continues(nodes, history[i - 1], history[i]);
    assert history[i - 1] in BeforeValues(nodes[history[i]].operation);
  }

  /** A prefix-closed set holds a history from its start, and a listing keeps its order. */
  lemma {:induction false} HistoryInOrder(
      nodes: Nodes, edges: Edges, topological: seq<Text>, s: set<Text>, key: RefKey, history: seq<Text>, p: nat, q: nat)
    requires IsHistory(nodes, key, history) && OperationEdges(nodes) <= edges && p < q < |history|
    requires PrefixClosed(edges, s) && ListsTopologically(edges, topological) && Members(topological) == nodes.Keys
    ensures history[q] in s ==> history[p] in s
    ensures forall i, j | 0 <= i < |topological| && 0 <= j < |topological| ::
              topological[i] == history[p] && topological[j] == history[q] ==> i < j
    decreases q - p
  {
    hide OperationEdges, IsOperationOf;
    PredecessorEdge(nodes, key, history, q);
    if p < q - 1 {
      HistoryInOrder(nodes, edges, topological, s, key, history, p, q - 1);
      assert history[q - 1] in history;
      InNodes(nodes, key, history, history[q - 1]);
      assert history[q - 1] in Members(topological);
      var m :| 0 <= m < |topological| && topological[m] == history[q - 1];
    }
  }

  lemma InNodes(nodes: Nodes, key: RefKey, history: seq<Text>, id: Text)
    requires IsHistory(nodes, key, history) && id in history
    ensures IsOperationOf(nodes, id, key)
  {}

  lemma {:induction false} OnlyDereferences(nodes: Nodes, key: RefKey, history: seq<Text>, p: nat, q: nat)
    requires IsHistory(nodes, key, history) && p <= q < |history|
    requires forall r :: p < r <= q ==> IsDereference(nodes, history[r])
    ensures VersionAt(nodes, history[q]) == VersionAt(nodes, history[p])
    decreases q - p
  {
    hide IsOperationOf, VersionAt, IsDereference;
    if p < q {
      OnlyDereferences(nodes, key, history, p, q - 1);
      assert Continues(nodes, history[q - 1], history[q]);
    }
  }

  lemma PlaceOf(history: seq<Text>, id: Text) returns (p: nat)
    requires id in history
    ensures p < |history| && history[p] == id
  {
    p :| p < |history| && history[p] == id;
  }

  /** Between two consecutive writes of a cut the history only dereferences. */
  lemma ConsecutiveWrites(
      nodes: Nodes, edges: Edges, topological: seq<Text>, s: set<Text>, key: RefKey, history: seq<Text>, i: nat, j: nat)
    requires IsHistory(nodes, key, history) && OperationEdges(nodes) <= edges
    requires PrefixClosed(edges, s) && ListsTopologically(edges, topological) && Members(topological) == nodes.Keys
    requires NextWrite(nodes, topological, s, key, i, j)
    requires forall k, l :: 0 <= k < l < |topological| ==> topological[k] != topological[l]
    ensures nodes[topological[j]].operation.version == nodes[topological[i]].operation.version + 1
  {
    hide OperationEdges, IsHistory, ListsTopologically, PrefixClosed;
    Written(nodes, key, history, topological[i]);
    Written(nodes, key, history, topological[j]);
    var p := PlaceOf(history, topological[i]);
    var q := PlaceOf(history, topological[j]);
    if q < p {
      HistoryInOrder(nodes, edges, topological, s, key, history, q, p);
    }
    assert p < q;
    forall r | p < r < q ensures IsOperationOf(nodes, history[r], key) && IsDereference(nodes, history[r]) {
      InNodes(nodes, key, history, history[r]);
      HistoryInOrder(nodes, edges, topological, s, key, history, p, r);
      HistoryInOrder(nodes, edges, topological, s, key, history, r, q);
      assert history[r] in Members(topological);
      var m :| 0 <= m < |topological| && topological[m] == history[r];
      assert i < m < j;
    }
    LastStep(nodes, key, history, p, q);
  }

  lemma Written(nodes: Nodes, key: RefKey, history: seq<Text>, id: Text)
    requires IsHistory(nodes, key, history) && IsWrite(nodes, id, key)
    ensures id in history
  {
    assert IsOperationOf(nodes, id, key);
  }

  lemma LastStep(nodes: Nodes, key: RefKey, history: seq<Text>, p: nat, q: nat)
    requires IsHistory(nodes, key, history) && p < q < |history|
    requires forall r :: p < r < q ==> IsDereference(nodes, history[r])
    requires !IsDereference(nodes, history[q])
    ensures VersionAt(nodes, history[q]) == VersionAt(nodes, history[p]) + 1
  {
    hide IsOperationOf, VersionAt, IsDereference;
    OnlyDereferences(nodes, key, history, p, q - 1);
    assert Continues(nodes, history[q - 1], history[q]);
  }

  /** A computation whose operations come from per-Ref histories breaks none of them in any
      cut, so it is never answered as invalid on their account. */
  lemma HistoriesHold(nodes: Nodes, edges: Edges, matched: set<Text>)
    requires OperationEdges(nodes) <= edges
    requires forall id, key :: IsOperationOf(nodes, id, key) ==> exists history :: IsHistory(nodes, key, history)
    ensures !BrokenHistory(nodes, edges, matched)
  {
    hide OperationEdges, IsHistory, ListsTopologically, PrefixClosed, LeastFirst, IsMaximum, Reach;
    forall anchor, s, topological
      | IsMatchCut(nodes, edges, matched, anchor, s) && Listed(edges, nodes.Keys, topological)
      ensures ValidHistory(nodes, topological, s, |topological|)
    {
      forall key, i: nat, j: nat | NextWrite(nodes, topological, s, key, i, j)
        ensures nodes[topological[j]].operation.version == nodes[topological[i]].operation.version + 1
      {
        assert IsOperationOf(nodes, topological[i], key);
        var history :| IsHistory(nodes, key, history);
        ConsecutiveWrites(nodes, edges, topological, s, key, history, i, j);
      }
    }
  }

  // ----- Versions -----

  /** How many writes of the key a cut holds among the first k occurrences of a listing. */
  ghost function Writes(nodes: Nodes, topological: seq<Text>, cut: set<Text>, key: RefKey, k: nat): nat
    requires k <= |topological|
  {
    if k == 0 then 0
    else
      Writes(nodes, topological, cut, key, k - 1) +
      if topological[k - 1] in cut && IsWrite(nodes, topological[k - 1], key) then 1 else 0
  }

  ghost predicate WritesAt(nodes: Nodes, topological: seq<Text>, cut: set<Text>, key: RefKey, i: nat) {
    i < |topological| && topological[i] in cut && IsWrite(nodes, topological[i], key)
  }

  /** Versions count the writes: between two writes of a key the version grows by the number of
      writes from after the one up to the other. */
  ghost predicate VersionsCount(nodes: Nodes, topological: seq<Text>, cut: set<Text>) {
    forall key, i: nat, j: nat ::
      i <= j && WritesAt(nodes, topological, cut, key, i) && WritesAt(nodes, topological, cut, key, j) ==>
        VersionAt(nodes, topological[j]) - VersionAt(nodes, topological[i]) ==
          Writes(nodes, topological, cut, key, j) - Writes(nodes, topological, cut, key, i)
  }

  lemma {:induction false} NoWritesBetween(nodes: Nodes, topological: seq<Text>, cut: set<Text>, key: RefKey, i: nat, j: nat)
    requires i <= j <= |topological| && forall k: nat :: i <= k < j ==> !WritesAt(nodes, topological, cut, key, k)
    ensures Writes(nodes, topological, cut, key, j) == Writes(nodes, topological, cut, key, i)
    decreases j - i
  {
    if i < j {
      assert !WritesAt(nodes, topological, cut, key, j - 1);
      NoWritesBetween(nodes, topological, cut, key, i, j - 1);
    }
  }

  /** The last write before j, at or after i. */
  lemma {:induction false} PreviousWrite(
      nodes: Nodes, topological: seq<Text>, cut: set<Text>, key: RefKey, i: nat, j: nat) returns (p: nat)
    requires i < j <= |topological| && WritesAt(nodes, topological, cut, key, i)
    ensures i <= p < j && WritesAt(nodes, topological, cut, key, p)
    ensures forall k: nat :: p < k < j ==> !WritesAt(nodes, topological, cut, key, k)
    decreases j - i
  {
    hide WritesAt;
    if WritesAt(nodes, topological, cut, key, j - 1) {
      p := j - 1;
    } else {
      p := PreviousWrite(nodes, topological, cut, key, i, j - 1);
    }
  }

  lemma NextWriteIff(nodes: Nodes, topological: seq<Text>, cut: set<Text>, key: RefKey, i: nat, j: nat)
    ensures NextWrite(nodes, topological, cut, key, i, j) <==>
            && i < j && WritesAt(nodes, topological, cut, key, i) && WritesAt(nodes, topological, cut, key, j)
            && forall k: nat :: i < k < j ==> !WritesAt(nodes, topological, cut, key, k)
  {
    hide IsWrite;
    if i < j < |topological| {
      forall k: nat | i < k < j
        ensures WritesAt(nodes, topological, cut, key, k) <==> topological[k] in cut && IsWrite(nodes, topological[k], key)
      {}
    }
  }

  lemma {:induction false} CountUp(nodes: Nodes, topological: seq<Text>, cut: set<Text>, key: RefKey, i: nat, j: nat)
    requires ValidHistory(nodes, topological, cut, |topological|)
    requires i <= j && WritesAt(nodes, topological, cut, key, i) && WritesAt(nodes, topological, cut, key, j)
    ensures VersionAt(nodes, topological[j]) - VersionAt(nodes, topological[i]) ==
            Writes(nodes, topological, cut, key, j) - Writes(nodes, topological, cut, key, i)
    decreases j - i
  {
    if i < j {
      var p := PreviousWrite(nodes, topological, cut, key, i, j);
      NextWriteIff(nodes, topological, cut, key, p, j);
      CountUp(nodes, topological, cut, key, i, p);
      NoWritesBetween(nodes, topological, cut, key, p + 1, j);
    }
  }

  /** A cut is accepted exactly when the versions of each key count its writes. */
  lemma ValidHistoryIff(nodes: Nodes, topological: seq<Text>, cut: set<Text>)
    ensures ValidHistory(nodes, topological, cut, |topological|) <==> VersionsCount(nodes, topological, cut)
  {
    hide IsWrite, VersionAt, Writes;
    if ValidHistory(nodes, topological, cut, |topological|) {
      forall key, i: nat, j: nat
        | i <= j && WritesAt(nodes, topological, cut, key, i) && WritesAt(nodes, topological, cut, key, j)
        ensures VersionAt(nodes, topological[j]) - VersionAt(nodes, topological[i]) ==
                Writes(nodes, topological, cut, key, j) - Writes(nodes, topological, cut, key, i)
      {
        CountUp(nodes, topological, cut, key, i, j);
      }
    }
    if VersionsCount(nodes, topological, cut) {
      forall key, i: nat, j: nat | NextWrite(nodes, topological, cut, key, i, j)
        ensures VersionAt(nodes, topological[j]) == VersionAt(nodes, topological[i]) + 1
      {
        NextWriteIff(nodes, topological, cut, key, i, j);
        NoWritesBetween(nodes, topological, cut, key, i + 1, j);
        WriteCounts(nodes, topological, cut, key, i);
      }
      VersionsNext(nodes, topological, cut);
    }
  }

  lemma WriteCounts(nodes: Nodes, topological: seq<Text>, cut: set<Text>, key: RefKey, i: nat)
    requires WritesAt(nodes, topological, cut, key, i)
    ensures Writes(nodes, topological, cut, key, i + 1) == Writes(nodes, topological, cut, key, i) + 1
  {}

  lemma VersionsNext(nodes: Nodes, topological: seq<Text>, cut: set<Text>)
    requires forall key, i: nat, j: nat :: NextWrite(nodes, topological, cut, key, i, j) ==>
               VersionAt(nodes, topological[j]) == VersionAt(nodes, topological[i]) + 1
    ensures ValidHistory(nodes, topological, cut, |topological|)
  {}
}
