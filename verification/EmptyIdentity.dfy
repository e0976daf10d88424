/** The empty identity (causal_equivalence.go, causalRepresentativeLocked).

    The class index stores the head of every event's class and reads the empty identity as
    "none stored".  An event may carry the empty identity, and it is the least of all, so
    a class it joins is headed by it: the other members then read as classes of their own
    whose member lists are gone.  A store left so is `Torn`. */
module EmptyIdentity {
  import opened Texts
  import opened Reachability
  import opened CausalOrder
  import opened Stamps
  import opened Stores
  import opened Operations

  /** An accepted merger that joins the empty identity with another class. */
  ghost predicate JoinsEmpty(v: View, ids: set<EventID>) {
    ClassFits(v, ids) && [] in ids && ids != {[]}
  }

  /** What such a merger leaves: all members point to the empty identity, which alone keeps
      a member list; the edges stay where they were. */
  ghost predicate Torn(s: Store, t: Store, heads: set<EventID>) {
    && t.causalClass == MergedClass(s.causalClass, heads, [])
    && [] in t.classMembers && t.classMembers == (s.classMembers - (heads - {[]}))[[] := t.classMembers[[]]]
    && t.causalEdges == s.causalEdges && t.reverseCausal == s.reverseCausal
    && t.events.Keys == s.events.Keys && Contents(t.events) == Contents(s.events) && t.timedEvents == s.timedEvents
  }

  /** Some edge of member m is read as leading from the class to x. */
  ghost predicate LeadsOut(
      edges: map<EventID, set<EventID>>, cls: map<EventID, EventID>, m: EventID, representative: EventID, x: EventID)
  {
    x != representative && m in edges && exists to :: to in edges[m] && Read(cls, to) == x
  }

  ghost predicate IsReadNeighbour(
      edges: map<EventID, set<EventID>>, cls: map<EventID, EventID>, members: seq<EventID>, representative: EventID, x: EventID)
  {
    exists k :: 0 <= k < |members| && LeadsOut(edges, cls, members[k], representative, x)
  }

  lemma ReadSuccessorIff(s: Store, representative: EventID, x: EventID)
    requires Sound(s) && representative in s.classMembers
    ensures IsReadNeighbour(s.causalEdges, s.causalClass, s.classMembers[representative], representative, x) <==>
            (representative, x) in ViewOf(s).edges
  {
    hide Sound, ViewOf;
    SoundConsistent(s);
    MemberFacts(s, representative);
    HeadEdges(s, representative);
    var members := s.classMembers[representative];
    forall k | 0 <= k < |members| && LeadsOut(s.causalEdges, s.causalClass, members[k], representative, x)
      ensures x in s.causalEdges[representative]
    {
      HeadEdges(s, members[k]);
    }
    if x in s.causalEdges[representative] {
      assert Rep(ViewOf(s), x) == x && Read(s.causalClass, x) == x;
      assert representative in members;
      var k :| 0 <= k < |members| && members[k] == representative;
      assert LeadsOut(s.causalEdges, s.causalClass, members[k], representative, x);
    }
  }

  lemma ReadPredecessorIff(s: Store, representative: EventID, x: EventID)
    requires Sound(s) && representative in s.classMembers
    ensures IsReadNeighbour(s.reverseCausal, s.causalClass, s.classMembers[representative], representative, x) <==>
            (x, representative) in ViewOf(s).edges
  {
    hide Sound, ViewOf;
    SoundConsistent(s);
    MemberFacts(s, representative);
    HeadEdges(s, representative);
    var members := s.classMembers[representative];
    forall k | 0 <= k < |members| && LeadsOut(s.reverseCausal, s.causalClass, members[k], representative, x)
      ensures x in s.reverseCausal[representative]
    {
      HeadEdges(s, members[k]);
    }
    if x in s.reverseCausal[representative] {
      assert Rep(ViewOf(s), x) == x && Read(s.causalClass, x) == x;
      assert representative in members;
      var k :| 0 <= k < |members| && members[k] == representative;
      assert LeadsOut(s.reverseCausal, s.causalClass, members[k], representative, x);
    }
  }

  lemma EmptyIsLeast(heads: set<EventID>)
    requires [] in heads
    ensures LeastHead(heads) == []
  {
    assert AtMost(LeastHead(heads), []);
  }

  /** The empty identity stands alone in a readable view, so naming it with anything else joins classes. */
  lemma EmptyHeads(v: View, ids: set<EventID>)
    requires Shaped(v) && Readable(v) && ids != {} && ids <= v.contents.Keys
    ensures [] in Heads(v, ids) <==> [] in ids
    ensures [] in ids ==> (Heads(v, ids) == {[]} <==> ids == {[]})
  {
    hide CanonicalTimings, EdgesJoinHeads, AtMost;
    forall id | id in ids ensures Rep(v, id) in Heads(v, ids) && (Rep(v, id) == [] <==> id == []) {
      if id == [] {
        assert IsHead(v, v.cls[id]) && AtMost(v.cls[id], id);
        EmptyHeadsItself(v);
      }
    }
  }

  lemma EmptyHeadsItself(v: View)
    requires Headed(v) && [] in v.contents
    ensures Rep(v, []) == []
  {
    assert AtMost(v.cls[[]], []);
  }

  /** Nothing about these edges of id changes when they are read through the class index. */
  ghost predicate ReadAsThey(cls: map<EventID, EventID>, id: EventID, others: set<EventID>) {
    forall b :: b in others ==> Read(cls, id) == id && Read(cls, b) == b && b != id
  }

  /** Edges are keyed by heads, and every head still reads as itself. */
  lemma TornEdges(s: Store, heads: set<EventID>)
    requires Sound(s) && AreHeads(ViewOf(s), heads) && [] in heads
    ensures NormalEdges(s.causalEdges, MergedClass(s.causalClass, heads, []), s.events.Keys) == s.causalEdges
    ensures NormalEdges(s.reverseCausal, MergedClass(s.causalClass, heads, []), s.events.Keys) == s.reverseCausal
  {
    hide Sound, ViewOf, AreHeads, NormalEdges, ReadAsThey, MergedClass;
    var cls := MergedClass(s.causalClass, heads, []);
    KeysFacts(s);
    forall id | id in s.events ensures ReadAsThey(cls, id, s.causalEdges[id]) && ReadAsThey(cls, id, s.reverseCausal[id]) {
      EdgesReadThemselves(s, heads, id);
    }
    NormalAlready(s.causalEdges, cls, s.events.Keys);
    NormalAlready(s.reverseCausal, cls, s.events.Keys);
  }

  lemma NormalAlready(edges: map<EventID, set<EventID>>, cls: map<EventID, EventID>, ids: set<EventID>)
    requires edges.Keys == ids && forall id :: id in edges ==> ReadAsThey(cls, id, edges[id])
    ensures NormalEdges(edges, cls, ids) == edges
  {
    hide Read;
    forall id | id in ids ensures NormalEdges(edges, cls, ids)[id] == edges[id] {
      assert ReadAsThey(cls, id, edges[id]);
      forall b ensures b in NormalEdges(edges, cls, ids)[id] <==> b in edges[id] {
        if b in edges[id] {
          assert Read(cls, id) == id && Read(cls, b) == b;
        }
      }
    }
  }

  lemma EdgesReadThemselves(s: Store, heads: set<EventID>, id: EventID)
    requires Sound(s) && AreHeads(ViewOf(s), heads) && [] in heads && id in s.events
    ensures id in s.causalEdges && id in s.reverseCausal
    ensures var cls := MergedClass(s.causalClass, heads, []);
            ReadAsThey(cls, id, s.causalEdges[id]) && ReadAsThey(cls, id, s.reverseCausal[id])
  {
    hide Sound, ViewOf, MergedClass, Read;
    HeadEdges(s, id);
    if Rep(ViewOf(s), id) == id {
      HeadReadsItself(s, heads, id);
    }
    forall b | b in s.causalEdges[id] || b in s.reverseCausal[id]
      ensures Read(MergedClass(s.causalClass, heads, []), b) == b
    {
      HeadReadsItself(s, heads, b);
    }
  }

  lemma HeadReadsItself(s: Store, heads: set<EventID>, h: EventID)
    requires Sound(s) && Rep(ViewOf(s), h) == h && [] in heads
    ensures Read(MergedClass(s.causalClass, heads, []), h) == h
  {
    hide Agree, Consistent;
  }

  /** A torn index is unreadable: some event other than the empty one points to it. */
  lemma TornUnreadable(s: Store, t: Store, heads: set<EventID>)
    requires Sound(s) && AreHeads(ViewOf(s), heads) && [] in heads && heads != {[]} && Torn(s, t, heads)
    ensures !Sound(t)
    ensures exists a :: a in t.events && a != [] && t.causalClass[a] == [] && Read(t.causalClass, a) == a && a !in t.classMembers
  {
    hide Sound, Contents, Agree, Consistent, EdgeSet;
    var a :| a in heads && a != [];
    KeysFacts(s);
    SoundConsistent(s);
    assert Rep(ViewOf(s), a) == a && a in s.causalClass;
    assert t.causalClass[a] == [];
    if Sound(t) {
      SoundConsistent(t);
      assert false;
    }
  }

  // ----- Stamps across a torn class -----

  /** The classes the repair after such a merger visits. */
  ghost predicate Below(v: View, heads: set<EventID>, x: EventID) {
    x == [] || (x in v.contents && Rep(v, x) == x && x !in heads && exists h :: h in heads && Reach(v.edges, h, x))
  }

  /** x is read as a direct successor of `current`. */
  ghost predicate Follows(v: View, heads: set<EventID>, current: EventID, x: EventID) {
    exists from :: (from == current || (current == [] && from in heads)) && (from, x) in v.edges
  }

  /** The visits stay on edges of the merged preorder and never meet a merged class again. */
  lemma FollowsBelow(v: View, heads: set<EventID>, current: EventID, x: EventID)
    requires Shaped(v) && Acyclic(v.edges) && AreHeads(v, heads) && Unordered(v.edges, heads) && [] in heads
    requires Below(v, heads, current) && Follows(v, heads, current, x)
    ensures Below(v, heads, x) && x != [] && x != current && (current, x) in WithClass(v, heads).edges
  {
    hide AtMost, CanonicalTimings, Headed, LeastHead;
    var from :| (from == current || (current == [] && from in heads)) && (from, x) in v.edges;
    EdgeReps(v, from, x);
    EmptyIsLeast(heads);
    assert Reach(v.edges, x, x) && Reach(v.edges, from, from);
    var h :| h in heads && Reach(v.edges, h, from);
    ReachStep(v.edges, h, from, x);
    if x in heads && h != x {
      assert false;
    }
    ImageEdge(v.edges, Collapse(heads), from, x);
  }

  /** Stamps during that repair: below a lawful stamping of the merged preorder, equal in
      the classes left alone, and at most `top` among the merged members. */
  ghost predicate TornStamps(v: View, heads: set<EventID>, f: Stamping, bound: Stamping, top: nat) {
    && f.Keys == v.contents.Keys && AtLeast(bound, f)
    && (forall id :: id in f && Rep(v, id) !in heads && Rep(v, id) in f ==> f[id] == f[Rep(v, id)])
    && (forall id :: id in f && Rep(v, id) in heads ==> f[id] <= top)
    && [] in f && f[[]] == top
  }

  lemma TornRaise(v: View, heads: set<EventID>, f: Stamping, bound: Stamping, top: nat, current: EventID, x: EventID)
    requires Shaped(v) && AreHeads(v, heads) && [] in heads && Lawful(WithClass(v, heads), bound)
    requires TornStamps(v, heads, f, bound, top) && Below(v, heads, current) && Below(v, heads, x) && x != []
    requires (current, x) in WithClass(v, heads).edges && current in f && f[current] + 1 > f[x]
    ensures TornStamps(v, heads, Raised(v, f, x, f[current] + 1), bound, top)
    ensures Total(f) < Total(Raised(v, f, x, f[current] + 1))
    ensures Raised(v, f, x, f[current] + 1)[current] == f[current] || current == x
  {
    hide AtMost, CanonicalTimings, EdgesJoinHeads, LeastHead, Total, Reach;
    var w, r := WithClass(v, heads), Raised(v, f, x, f[current] + 1);
    EmptyIsLeast(heads);
    assert bound[current] < bound[x];
    forall id | id in f ensures r[id] <= bound[id] && f[id] <= r[id] {
      WithClassRep(v, heads, id);
      if Rep(v, id) == x {
        assert Rep(w, id) == x;
      }
    }
    forall id | id in f ensures Rep(v, id) in f && Rep(v, Rep(v, id)) == Rep(v, id) {
      RepFacts(v, id);
    }
    EmptyHeadsItself(v);
    assert r != f by { assert r[x] != f[x]; }
    TotalGrows(f, r);
  }

  lemma TornStart(v: View, heads: set<EventID>, f: Stamping, top: nat) returns (bound: Stamping)
    requires Consistent(v) && Lawful(v, f) && AreHeads(v, heads) && Unordered(v.edges, heads) && [] in heads
    requires IsClassMaximum(heads, f, top)
    ensures Lawful(WithClass(v, heads), bound) && TornStamps(v, heads, f[[] := top], bound, top)
  {
    hide AtMost, CanonicalTimings, EdgesJoinHeads, LeastHead, TimingRule, Reach;
    BeforeWithClass(v, heads, [], []);
    WithClassShaped(v, heads);
    assert [] in v.contents;
    bound := LawfulExists(WithClass(v, heads), f[[] := top]);
    EmptyHeadsItself(v);
    forall id | id in f ensures Rep(v, id) in f {
      RepFacts(v, id);
    }
  }

  /** The list kept under the empty identity names every member of the merged classes. */
  ghost predicate TornMembers(v: View, t: Store, heads: set<EventID>) {
    [] in t.classMembers && forall id :: id in t.classMembers[[]] <==> id in v.contents && Rep(v, id) in heads
  }

  /** A visited class keeps its list, and its edges are read as they are. */
  lemma TornClass(s: Store, t: Store, heads: set<EventID>, x: EventID)
    requires Sound(s) && AreHeads(ViewOf(s), heads) && [] in heads && Torn(s, t, heads) && TornMembers(ViewOf(s), t, heads)
    requires Below(ViewOf(s), heads, x)
    ensures x in t.classMembers && Read(t.causalClass, x) == x && x in t.events
    ensures forall m :: m in t.classMembers[x] ==> m in t.causalEdges && m in t.events
    ensures x in t.classMembers[x]
    ensures x != [] ==> forall m :: m in t.classMembers[x] <==> m in ViewOf(s).contents && Rep(ViewOf(s), m) == x
  {
    hide Sound, ViewOf, Torn, TornMembers, AreHeads, Below, Read;
    if x == [] {
      TornEmpty(s, t, heads);
    } else {
      TornHead(s, t, heads, x);
    }
  }

  lemma TornEmpty(s: Store, t: Store, heads: set<EventID>)
    requires Sound(s) && AreHeads(ViewOf(s), heads) && [] in heads && Torn(s, t, heads) && TornMembers(ViewOf(s), t, heads)
    ensures [] in t.classMembers && Read(t.causalClass, []) == [] && [] in t.events && [] in t.classMembers[[]]
    ensures forall m :: m in t.classMembers[[]] ==> m in t.causalEdges && m in t.events
  {
    hide Sound, ViewOf, Contents, AreHeads, Headed, Shaped, EdgesJoinHeads, Acyclic;
    KeysFacts(s);
    SoundView(s);
    EmptyAmongHeads(ViewOf(s), heads);
    EmptyHeadsItself(ViewOf(s));
    ClassFacts(s, []);
  }

  lemma TornHead(s: Store, t: Store, heads: set<EventID>, x: EventID)
    requires Sound(s) && [] in heads && Torn(s, t, heads) && Below(ViewOf(s), heads, x) && x != []
    ensures x in t.classMembers && Read(t.causalClass, x) == x && x in t.events && x in t.classMembers[x]
    ensures forall m :: m in t.classMembers[x] <==> m in ViewOf(s).contents && Rep(ViewOf(s), m) == x
    ensures forall m :: m in t.classMembers[x] ==> m in t.causalEdges && m in t.events
  {
    hide Sound, ViewOf;
    KeysFacts(s);
    HeadFacts(s, x);
    MemberFacts(s, x);
    HeadReadsItself(s, heads, x);
  }

  lemma EmptyAmongHeads(v: View, heads: set<EventID>)
    requires AreHeads(v, heads) && [] in heads
    ensures [] in v.contents
  {}

  lemma TornFollows(s: Store, t: Store, heads: set<EventID>, current: EventID, x: EventID)
    requires Sound(s) && AreHeads(ViewOf(s), heads) && [] in heads && Torn(s, t, heads) && TornMembers(ViewOf(s), t, heads)
    requires Below(ViewOf(s), heads, current) && current in t.classMembers
    requires IsReadNeighbour(t.causalEdges, t.causalClass, t.classMembers[current], current, x)
    ensures Follows(ViewOf(s), heads, current, x)
  {
    hide Sound, ViewOf, Contents, Below;
    TornClass(s, t, heads, current);
    var members := t.classMembers[current];
    var k :| 0 <= k < |members| && LeadsOut(t.causalEdges, t.causalClass, members[k], current, x);
    var m := members[k];
    var to :| to in t.causalEdges[m] && Read(t.causalClass, to) == x;
    assert m in members;
    KeysFacts(s);
    EdgesReadThemselves(s, heads, m);
    EdgeStored(s, m, to);
    EdgeHeads(s, m, to);
    HeadFacts(s, m);
    assert to == x && Rep(ViewOf(s), m) == m;
  }

  lemma EmptyBelow(v: View, heads: set<EventID>)
    ensures Below(v, heads, [])
  {}

  lemma TornBounded(v: View, heads: set<EventID>, f: Stamping, bound: Stamping, top: nat)
    requires TornStamps(v, heads, f, bound, top)
    ensures Total(f) <= Total(bound)
  {
    TotalGrows(f, bound);
  }

  lemma OnlyEmptyReadsEmpty(s: Store, u: Store, heads: set<EventID>, members: seq<EventID>, own: seq<EventID>)
    requires Sound(s) && AreHeads(ViewOf(s), heads) && [] in heads && u == StoredClass(s, heads, [], members)
    requires Members(own) == set id | id in u.events && Read(u.causalClass, id) == []
    ensures forall id :: id in own <==> id == []
    ensures [] in s.events && [] in u.events
  {
    hide Sound, NormalEdges;
    KeysFacts(s);
    assert [] in ViewOf(s).contents;
    forall id ensures id in own <==> id == [] {
      assert id in own <==> id in Members(own);
    }
  }

  ghost predicate SameIndex(u: Store, t: Store) {
    && t.causalEdges == u.causalEdges && t.reverseCausal == u.reverseCausal && t.causalClass == u.causalClass
    && t.classMembers == u.classMembers && t.timedEvents == u.timedEvents
  }

  /** The state right after folding, with the empty identity at the maximum. */
  lemma JustTorn(s: Store, u: Store, t: Store, heads: set<EventID>, members: seq<EventID>, own: seq<EventID>, top: nat)
    requires Sound(s) && AreHeads(ViewOf(s), heads) && [] in heads && [] in s.events && u == StoredClass(s, heads, [], members)
    requires SameIndex(u, t) && t.events.Keys == u.events.Keys && forall id :: id in own <==> id == []
    requires forall id :: id in u.events ==>
               t.events[id] == if id in own then u.events[id].(lamport := top) else u.events[id]
    requires forall id :: id in members <==> id in ViewOf(s).contents && Rep(ViewOf(s), id) in heads
    ensures Torn(s, t, heads) && TornMembers(ViewOf(s), t, heads)
    ensures Lamports(t.events) == Lamports(s.events)[[] := top]
  {
    hide Sound, NormalEdges, EdgeSet, MergedClass, AreHeads;
    TornEdges(s, heads);
    assert Contents(t.events) == Contents(s.events);
    assert Lamports(t.events) == Lamports(s.events)[[] := top];
  }

  lemma TornMaximum(
      s: Store, t: Store, heads: set<EventID>, bound: Stamping, top: nat, x: EventID, maximum: nat)
    requires Sound(s) && AreHeads(ViewOf(s), heads) && [] in heads && Torn(s, t, heads) && TornMembers(ViewOf(s), t, heads)
    requires TornStamps(ViewOf(s), heads, Lamports(t.events), bound, top) && Below(ViewOf(s), heads, x)
    requires x in t.classMembers && IsMaximumOver(t.classMembers[x], Lamports(t.events), maximum)
    ensures x in t.events && maximum == Lamports(t.events)[x]
  {
    hide Sound, ViewOf, Contents, Torn, AreHeads;
    TornClass(s, t, heads, x);
    var f := Lamports(t.events);
    forall m | m in t.classMembers[x] ensures m in f && f[m] <= f[x] && (x != [] ==> f[m] == f[x]) {
    }
  }

  lemma TornRestamped(s: Store, t: Store, u: Store, heads: set<EventID>, x: EventID, value: nat)
    requires Sound(s) && AreHeads(ViewOf(s), heads) && [] in heads && Torn(s, t, heads) && TornMembers(ViewOf(s), t, heads)
    requires Below(ViewOf(s), heads, x) && x != [] && x in t.classMembers
    requires SameIndex(t, u) && u.events.Keys == t.events.Keys
    requires forall id :: id in t.events ==>
               u.events[id] == if id in t.classMembers[x] then t.events[id].(lamport := value) else t.events[id]
    ensures Torn(s, u, heads) && TornMembers(ViewOf(s), u, heads)
    ensures Lamports(u.events) == Raised(ViewOf(s), Lamports(t.events), x, value)
  {
    hide Sound, AreHeads, Below, EdgeSet, MergedClass;
    TornClass(s, t, heads, x);
    assert Contents(u.events) == Contents(t.events);
    KeysFacts(s);
    assert Lamports(u.events) == Raised(ViewOf(s), Lamports(t.events), x, value);
  }
}
