/** Whole-graph passes over a poset (poset.go, poset_debug.go, canonical.go): the
    topological listing, longest-chain depths and the consistency check. */
module Depths {
  import opened Texts
  import opened Timings
  import opened Reachability
  import opened CausalOrder
  import opened Stamps
  import opened Stores
  import opened Kahn
  import opened Operations
  import opened EmptyIdentity
  import opened Posets

  // ----- Kahn's pass over class heads -----

  /** The first sweep: every head's number of predecessors. */
  method StartPass(p: Poset) returns (heads: seq<EventID>, inDegree: map<EventID, nat>, ready: set<EventID>)
    requires Sound(p.Stored())
    ensures StrictlySorted(heads) && Members(heads) == p.classMembers.Keys
    ensures PassInvariant(p.View().edges, p.classMembers.Keys, {}, inDegree, ready)
  {
    hide Sound, ViewOf;
    ghost var edges := p.View().edges;
    heads := Sort(p.classMembers.Keys);
    inDegree := map[];
    ready := {};
    for index := 0 to |heads|
      invariant inDegree.Keys == Members(heads[..index]) && ready <= inDegree.Keys
      invariant forall x :: x in inDegree ==> inDegree[x] == |Open(edges, {}, x)| && (x in ready <==> inDegree[x] == 0)
    {
      TakeOneMore(heads, index);
      var predecessors := p.Predecessors(heads[index]);
      OpenIsListed(edges, heads[index], predecessors);
      inDegree := inDegree[heads[index] := |predecessors|];
      if |predecessors| == 0 {
        ready := ready + {heads[index]};
      } else {
        ready := ready - {heads[index]};
      }
    }
    TakeAll(heads);
  }

  /** One visit: the successors' counts drop by one, and those reaching zero become ready. */
  method Visit(p: Poset, current: EventID, ghost visited: set<EventID>, inDegree: map<EventID, nat>, ready: set<EventID>)
    returns (inDegree': map<EventID, nat>, ready': set<EventID>)
    requires Sound(p.Stored())
    requires PassInvariant(p.View().edges, p.classMembers.Keys, visited, inDegree, ready) && current in ready
    ensures PassInvariant(p.View().edges, p.classMembers.Keys, visited + {current}, inDegree', ready')
  {
    hide Sound, ViewOf;
    var successors := p.Successors(current);
    forall x | x in successors ensures current != x && x in p.classMembers.Keys {
      EdgeHeads(p.Stored(), current, x);
    }
    inDegree', ready' := Lower(successors, current, p.View().edges, p.classMembers.Keys, visited, inDegree, ready);
  }

  /** TopologicalSort: every event once, classes together, causes before effects. */
  method TopologicalSort(p: Poset) returns (result: seq<EventID>)
    requires Sound(p.Stored())
    ensures Members(result) == p.events.Keys && |result| == |p.events|
    ensures forall i, j :: 0 <= i < |result| && 0 <= j < |result| && Before(p.View(), result[i], result[j]) ==> i < j
  {
    hide Sound, ViewOf, PassInvariant;
    ghost var v, heads := p.View(), p.classMembers.Keys;
    var listed, inDegree, ready := StartPass(p);
    ghost var visited: set<EventID> := {};
    result := [];
    while ready != {}
      invariant PassInvariant(v.edges, heads, visited, inDegree, ready)
      invariant ListedSoFar(p, visited, result)
      decreases heads - visited
    {
      var current := LeastOf(ready);
      PassReady(v.edges, heads, visited, inDegree, ready, current);
      ClassListed(p, visited, result, current);
      result := result + p.classMembers[current];
      inDegree, ready := Visit(p, current, visited, inDegree, ready);
      visited := visited + {current};
    }
    SoundView(p.Stored());
    EdgesFromHeads(p);
    PassEnds(v.edges, heads, visited, inDegree);
    AllListed(p, result);
  }

  /** The classes of the visited heads are listed, in an order no strict order contradicts. */
  ghost predicate ListedSoFar(p: Poset, visited: set<EventID>, result: seq<EventID>)
    reads p
  {
    && (forall id :: id in result <==> id in p.events && Rep(p.View(), id) in visited)
    && (forall i, j :: 0 <= i < j < |result| ==> result[i] != result[j])
    && (forall i, j :: 0 <= i < |result| && 0 <= j < |result| && Before(p.View(), result[i], result[j]) ==> i < j)
    && (forall a, b :: b in visited && Reach(p.View().edges, a, b) ==> a in visited)
  }

  lemma EdgesFromHeads(p: Poset)
    requires Sound(p.Stored())
    ensures forall a, b :: (a, b) in p.View().edges ==> a in p.classMembers.Keys
  {
    hide Sound, ViewOf;
    forall a, b | (a, b) in p.View().edges ensures a in p.classMembers.Keys {
      EdgeHeads(p.Stored(), a, b);
    }
  }

  lemma ClassListed(p: Poset, visited: set<EventID>, result: seq<EventID>, current: EventID)
    requires Sound(p.Stored()) && ListedSoFar(p, visited, result)
    requires current in p.classMembers && current !in visited
    requires forall a :: (a, current) in p.View().edges ==> a in visited
    ensures ListedSoFar(p, visited + {current}, result + p.classMembers[current])
  {
    hide Sound, ViewOf, Reach;
    var v, members := p.View(), p.classMembers[current];
    var grown := result + members;
    MemberFacts(p.Stored(), current);
    forall a, b | b in visited + {current} && Reach(v.edges, a, b) ensures a in visited + {current} {
      if b == current && a != current {
        var c := ReachLast(v.edges, a, current);
      }
    }
    forall i, j | 0 <= i < j < |grown| ensures grown[i] != grown[j] {
      SortedApart(members);
      assert i < |result| ==> grown[i] in result;
      assert j >= |result| ==> grown[j] in members;
    }
    forall i, j | 0 <= j <= i < |grown| ensures !Before(v, grown[i], grown[j]) {
      assert i >= |result| ==> grown[i] in members;
      assert j < |result| ==> grown[j] in result;
      assert j >= |result| ==> grown[j] in members;
    }
    forall id ensures id in grown <==> id in p.events && Rep(v, id) in visited + {current} {
      assert id in grown <==> id in result || id in members;
    }
  }

  lemma SortedApart(s: seq<EventID>)
    requires StrictlySorted(s)
    ensures forall i, j :: 0 <= i < j < |s| ==> s[i] != s[j]
  {
    forall i, j | 0 <= i < j < |s| ensures s[i] != s[j] {
      LessIrreflexive(s[i]);
    }
  }

  lemma AllListed(p: Poset, result: seq<EventID>)
    requires Sound(p.Stored()) && ListedSoFar(p, p.classMembers.Keys, result)
    ensures Members(result) == p.events.Keys && |result| == |p.events|
  {
    hide Sound, ViewOf, Reach, Before;
    forall id | id in p.events ensures id in result {
      ClassFacts(p.Stored(), id);
    }
    assert Members(result) == p.events.Keys;
    DistinctCount(result);
  }

  method AboveDeepest(predecessors: seq<EventID>, classDepths: map<EventID, nat>) returns (depth: nat)
    requires forall a :: a in predecessors ==> a in classDepths
    ensures depth >= 1 && forall a :: a in predecessors ==> classDepths[a] + 1 <= depth
    ensures depth == 1 || exists a :: a in predecessors && classDepths[a] + 1 == depth
  {
    depth := 1;
    for index := 0 to |predecessors|
      invariant depth >= 1 && forall i :: 0 <= i < index ==> classDepths[predecessors[i]] + 1 <= depth
      invariant depth == 1 || exists i :: 0 <= i < index && classDepths[predecessors[i]] + 1 == depth
    {
      if classDepths[predecessors[index]] + 1 > depth {
        depth := classDepths[predecessors[index]] + 1;
      }
    }
  }

  /** causalDepthsLocked: visits every class, so no cycle is reported, and gives each event
      the exact length of the longest chain ending at its class. */
  method CausalDepths(p: Poset) returns (cyclic: bool, depths: map<EventID, nat>)
    requires Sound(p.Stored())
    ensures !cyclic && depths.Keys == p.events.Keys
    ensures forall id :: id in p.events ==> IsDepth(p.View().edges, Rep(p.View(), id), depths[id])
  {
    hide Sound, ViewOf, PassInvariant, IsDepth;
    ghost var v, heads := p.View(), p.classMembers.Keys;
    var listed, inDegree, ready := StartPass(p);
    var classDepths: map<EventID, nat> := map[];
    assert classDepths.Keys == {};
    while ready != {}
      invariant PassInvariant(v.edges, heads, classDepths.Keys, inDegree, ready)
      invariant forall x :: x in classDepths ==> IsDepth(v.edges, x, classDepths[x])
      decreases heads - classDepths.Keys
    {
      var current := LeastOf(ready);
      PassReady(v.edges, heads, classDepths.Keys, inDegree, ready, current);
      var predecessors := p.Predecessors(current);
      var depth := AboveDeepest(predecessors, classDepths);
      DepthStep(v.edges, classDepths, current, depth);
      inDegree, ready := Visit(p, current, classDepths.Keys, inDegree, ready);
      assert classDepths[current := depth].Keys == classDepths.Keys + {current};
      classDepths := classDepths[current := depth];
    }
    SoundView(p.Stored());
    EdgesFromHeads(p);
    PassEnds(v.edges, heads, classDepths.Keys, inDegree);
    SortedCount(listed);
    cyclic := |classDepths| != |listed|;
    depths := Spread(p, classDepths);
  }

  /** Every occurrence takes the depth of its class. */
  method Spread(p: Poset, classDepths: map<EventID, nat>) returns (depths: map<EventID, nat>)
    requires Sound(p.Stored()) && classDepths.Keys == p.classMembers.Keys
    requires forall x :: x in classDepths ==> IsDepth(p.View().edges, x, classDepths[x])
    ensures depths.Keys == p.events.Keys
    ensures forall id :: id in p.events ==> IsDepth(p.View().edges, Rep(p.View(), id), depths[id])
  {
    hide Sound, ViewOf, IsDepth;
    ghost var v := p.View();
    depths := map[];
    forall id | id in p.events ensures p.Representative(id) == Rep(v, id) && Rep(v, id) in classDepths {
      ClassFacts(p.Stored(), id);
    }
    depths := map id | id in p.events :: classDepths[p.Representative(id)];
  }

  // ----- Validate -----

  /** Everything Validate looks at, cycles aside. */
  ghost predicate Clean(p: Poset)
    reads p
  {
    && (forall id :: id in p.events ==> p.events[id].immutable && ClassClean(p, id))
    && (forall a, b :: a in p.causalEdges && b in p.causalEdges[a] ==> EdgeClean(p, a, b))
    && (forall a :: a in p.causalEdges || a in p.reverseCausal ==> a in p.events)
    && (forall b, a :: b in p.reverseCausal && a in p.reverseCausal[b] ==> a in p.events)
  }

  predicate ClassClean(p: Poset, id: EventID)
    requires id in p.events
    reads p
  {
    var r := p.Representative(id);
    && r in p.events
    && r in p.classMembers && |p.classMembers[r]| > 0 && p.classMembers[r][0] == r
    && p.events[id].lamport == p.events[r].lamport
  }

  predicate EdgeClean(p: Poset, a: EventID, b: EventID)
    reads p
  {
    && b in p.events
    && p.Representative(a) != p.Representative(b)
    && b in p.reverseCausal && a in p.reverseCausal[b]
    && (a in p.events ==> p.events[a].lamport < p.events[b].lamport)
  }

  lemma ValidClassClean(p: Poset, id: EventID)
    requires p.Valid() && id in p.events
    ensures ClassClean(p, id) && p.events[id].immutable
  {
    hide Consistent, EdgesAgree;
    ClassFacts(p.Stored(), id);
    var r := p.Representative(id);
    MemberFacts(p.Stored(), r);
    HeadIsLeast(p.classMembers[r]);
    SoundView(p.Stored());
    OwnClassLeast(p, r);
    assert p.Stamping()[id] == p.Stamping()[r];
  }

  lemma OwnClassLeast(p: Poset, r: EventID)
    requires Sound(p.Stored()) && r in p.classMembers && p.classMembers[r] != []
    ensures p.classMembers[r][0] == r
  {
    hide TimingRule, Acyclic, EdgesAgree, EventsAgree, EdgesJoinHeads, CanonicalTimings;
    MemberFacts(p.Stored(), r);
    HeadIsLeast(p.classMembers[r]);
    var first := p.classMembers[r][0];
    assert first in p.classMembers[r] && r in p.classMembers[r];
    assert AtMost(p.View().cls[first], first);
    LessAsymmetric(first, r);
  }

  lemma ValidEdgeClean(p: Poset, a: EventID, b: EventID)
    requires p.Valid() && a in p.causalEdges && b in p.causalEdges[a]
    ensures EdgeClean(p, a, b)
  {
    hide Sound, ViewOf;
    EdgeStored(p.Stored(), a, b);
    KeysFacts(p.Stored());
    EdgeHeads(p.Stored(), a, b);
    MemberFacts(p.Stored(), a);
    MemberFacts(p.Stored(), b);
    ClassFacts(p.Stored(), a);
    ClassFacts(p.Stored(), b);
    assert p.Stamping()[a] < p.Stamping()[b];
  }

  lemma ValidIsClean(p: Poset)
    requires p.Valid()
    ensures Clean(p)
  {
    hide Sound, ViewOf, Lawful, ClassClean, EdgeClean;
    KeysFacts(p.Stored());
    forall id | id in p.events ensures p.events[id].immutable && ClassClean(p, id) {
      ValidClassClean(p, id);
    }
    forall a, b | a in p.causalEdges && b in p.causalEdges[a] ensures EdgeClean(p, a, b) {
      ValidEdgeClean(p, a, b);
    }
    forall b, a | b in p.reverseCausal && a in p.reverseCausal[b] ensures a in p.events {
      EdgeStored(p.Stored(), a, b);
    }
  }

  /** The frozen, representative and class Lamport checks of Validate. */
  method CheckClasses(p: Poset) returns (issues: nat)
    ensures issues == 0 <==> forall id :: id in p.events ==> p.events[id].immutable && ClassClean(p, id)
  {
    hide ClassClean;
    issues := 0;
    var ids := p.events.Keys;
    while ids != {}
      invariant ids <= p.events.Keys
      invariant issues == 0 <==> forall id :: id in p.events && id !in ids ==> p.events[id].immutable && ClassClean(p, id)
      decreases ids
    {
      var id :| id in ids;
      ids := ids - {id};
      if !p.events[id].immutable || !ClassClean(p, id) {
        issues := issues + 1;
      }
    }
  }

  /** The endpoint, symmetry and Lamport checks of Validate on the stored edges. */
  method CheckEdges(p: Poset) returns (issues: nat)
    ensures issues == 0 <==> forall a, b :: a in p.causalEdges && b in p.causalEdges[a] ==> EdgeClean(p, a, b)
  {
    hide EdgeClean;
    var edges := set a, b | a in p.causalEdges && b in p.causalEdges[a] && !EdgeClean(p, a, b) :: (a, b);
    issues := |edges|;
    forall a, b | a in p.causalEdges && b in p.causalEdges[a] && !EdgeClean(p, a, b) ensures edges != {} {
      assert (a, b) in edges;
    }
  }

  /** The checks of Validate for endpoints that are not events. */
  method CheckDangling(p: Poset) returns (issues: nat)
    ensures issues == 0 <==>
      && (forall a :: a in p.causalEdges || a in p.reverseCausal ==> a in p.events)
      && (forall b, a :: b in p.reverseCausal && a in p.reverseCausal[b] ==> a in p.events)
  {
    var sources := p.causalEdges.Keys + p.reverseCausal.Keys - p.events.Keys;
    var dangling := set b, a | b in p.reverseCausal && a in p.reverseCausal[b] && a !in p.events :: (b, a);
    issues := |sources| + |dangling|;
    forall a | (a in p.causalEdges || a in p.reverseCausal) && a !in p.events ensures sources != {} {
      assert a in sources;
    }
    forall b, a | b in p.reverseCausal && a in p.reverseCausal[b] && a !in p.events ensures dangling != {} {
      assert (b, a) in dangling;
    }
  }

  /** Validate, cycle check aside: reports nothing exactly when the poset is clean. */
  method ReportIssues(p: Poset) returns (issues: nat)
    ensures issues == 0 <==> Clean(p)
  {
    hide ClassClean, EdgeClean;
    var classes := CheckClasses(p);
    var edges := CheckEdges(p);
    var dangling := CheckDangling(p);
    issues := classes + edges + dangling;
  }

  /** Validate reports nothing about any poset reached through the operations. */
  method Validate(p: Poset) returns (issues: nat)
    requires p.Valid()
    ensures issues == 0
  {
    hide Sound, ViewOf, Clean;
    ValidIsClean(p);
    issues := ReportIssues(p);
    var sorted := TopologicalSort(p);
    issues := issues + (if |sorted| != |p.events| then 1 else 0);
  }

  /** Silence about an event: it is frozen, and its class is headed by its representative and
      stamped alike. */
  lemma SilentAboutEvent(p: Poset, id: EventID)
    requires Clean(p) && id in p.events
    ensures p.events[id].immutable
    ensures var r := Read(p.causalClass, id);
            && r in p.events && p.events[id].lamport == p.events[r].lamport
            && r in p.classMembers && |p.classMembers[r]| > 0 && p.classMembers[r][0] == r
  {
    hide EdgeClean;
    assert ClassClean(p, id);
  }

  /** Silence about an edge: it joins known events of two classes, is mirrored, and its stamps
      increase. */
  lemma SilentAboutEdge(p: Poset, a: EventID, b: EventID)
    requires Clean(p) && a in p.causalEdges && b in p.causalEdges[a]
    ensures a in p.events && b in p.events && Read(p.causalClass, a) != Read(p.causalClass, b)
    ensures b in p.reverseCausal && a in p.reverseCausal[b]
    ensures p.events[a].lamport < p.events[b].lamport
  {
    hide ClassClean;
    assert EdgeClean(p, a, b);
  }

  /** So a silent self-check leaves no cycle of stored edges, whatever state the poset is in. */
  lemma SilentOrder(p: Poset, a: EventID, b: EventID)
    requires Clean(p) && a in p.events && a != b && Reach(EdgeSet(p.causalEdges), a, b)
    ensures b in p.events && p.events[a].lamport < p.events[b].lamport
  {
    hide Clean;
    var later := iset x | x == a || (x in p.events && p.events[a].lamport < p.events[x].lamport);
    forall x, y | (x, y) in EdgeSet(p.causalEdges) && x in later ensures y in later {
      SilentAboutEdge(p, x, y);
    }
    ReachWithin(EdgeSet(p.causalEdges), a, b, later);
  }

  lemma SilentAcyclic(p: Poset)
    requires Clean(p)
    ensures Acyclic(EdgeSet(p.causalEdges))
  {
    hide Clean, Reach;
    forall a, b | (a, b) in EdgeSet(p.causalEdges) ensures !Reach(EdgeSet(p.causalEdges), b, a) {
      SilentAboutEdge(p, a, b);
      if Reach(EdgeSet(p.causalEdges), b, a) && a != b {
        SilentOrder(p, b, a);
      }
    }
  }

  /** A torn index does not pass unnoticed: some event reads as heading a class without members. */
  lemma TornReported(p: Poset, s: Store, heads: set<EventID>)
    requires Sound(s) && AreHeads(ViewOf(s), heads) && [] in heads && heads != {[]} && Torn(s, p.Stored(), heads)
    ensures !Clean(p)
  {
    hide Sound, ViewOf, Torn, AreHeads, EdgeClean;
    TornUnreadable(s, p.Stored(), heads);
    var a :| a in p.events && Read(p.causalClass, a) == a && a !in p.classMembers;
    assert !ClassClean(p, a);
  }

  /** The shortest way to tear it: two events, one with the empty identity, merged into one class. */
  method EmptyIdentityTears(other: EventID, content: Content) returns (p: Poset, before: nat, after: nat)
    requires other != [] && content.timings == []
    ensures before == 0 && after > 0 && !p.Valid()
  {
    hide Sound, ViewOf, Lawful, Torn, WithEvent, Canonized, Admissible, Consistent, ClassFits, Clean, Heads, Readable, JoinsEmpty, ClassOutcome;
    assert Admissible(content.timings) && Canonized(content) == content by {
      UntimedAdmissible(content);
    }
    p := new Poset();
    var empty: EventID := [];
    var first := p.AddEvent(Offer(empty, content, []));
    NewIdentity(content, other);
    var second := p.AddEvent(Offer(other, content, []));
    ghost var v, s := p.View(), p.Stored();
    before := Validate(p);
    TwoFit(content, other);
    assert Members([empty, other]) == {empty, other};
    var merged := p.AddCausalEquivalenceClass([empty, other]);
    TwoHeaded(s, other);
    TornReported(p, s, Heads(v, {empty, other}));
    after := ReportIssues(p);
  }

  lemma TwoHeaded(s: Store, other: EventID)
    requires Sound(s) && ViewOf(s).contents.Keys == {[], other} && other != []
    ensures var heads := Heads(ViewOf(s), {[], other});
            AreHeads(ViewOf(s), heads) && [] in heads && heads != {[]}
  {
    hide Sound, ViewOf, Consistent, Heads, AreHeads, Readable, Shaped, Acyclic, Headed, EdgesJoinHeads;
    SoundConsistent(s);
    SoundView(s);
    assert other in {[], other} && [] in {[], other};
    HeadsAreHeads(ViewOf(s), {[], other});
    EmptyHeads(ViewOf(s), {[], other});
  }

  lemma UntimedAdmissible(content: Content)
    requires content.timings == []
    ensures Admissible(content.timings) && Canonized(content) == content
  {
    assert SortByClock([]) == [];
  }

  lemma TwoFit(content: Content, other: EventID)
    requires other != [] && content.timings == []
    ensures var v := WithEvent(WithEvent(Empty, [], content), other, content);
            v.contents.Keys == {[], other} && JoinsEmpty(v, {[], other})
  {
    hide Consistent, ClassFits;
    var u := WithEvent(Empty, [], content);
    var v := WithEvent(u, other, content);
    EmptyConsistent();
    EventKeepsConsistent(Empty, [], content);
    EventKeepsConsistent(u, other, content);
    NothingOrderedFits(v, {[], other});
    assert other in {[], other};
  }

  lemma NewIdentity(content: Content, other: EventID)
    requires other != []
    ensures [] !in Empty.contents && other !in WithEvent(Empty, [], content).contents
  {}

  lemma NothingOrderedFits(v: View, ids: set<EventID>)
    requires Consistent(v) && v.edges == {} && ids != {} && ids <= v.contents.Keys
    requires forall id :: id in v.contents ==> v.contents[id].timings == []
    ensures ClassFits(v, ids)
  {
    hide Consistent, Reach, TimingRule;
    ConsistentShaped(v);
    HeadsAreHeads(v, ids);
    var heads := Heads(v, ids);
    forall a, b | Reach(v.edges, a, b) ensures a == b {
      if a != b {
        var c := ReachFirst(v.edges, a, b);
      }
    }
    ClassConsistentIff(v, heads);
    UntimedObeys(WithClass(v, heads));
  }

  lemma UntimedObeys(v: View)
    requires forall id :: id in v.contents ==> v.contents[id].timings == []
    ensures TimingRule(v)
  {
    hide Before;
  }
}
