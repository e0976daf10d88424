/** The published causal preorder of a poset: occurrences, their equivalence classes and
    the strict order of the quotient, with Lamport stamps and storage left aside.

    A `View` is what two posets must agree on to denote the same computation.  This
    module says which edges and classes may be added to a consistent view and what each
    addition does to the order. */
module CausalOrder {
  import opened Texts
  import opened Timings
  import opened Values
  import opened Reachability

  type EventID = Text

  datatype Observation = Observation(source: Text, name: Text, params: Params)

  /** Everything an occurrence carries except its Lamport stamp. */
  datatype Content = Content(
    name: Text, source: Text, params: Params,
    observations: seq<Observation>, timings: seq<EventTiming>, wallTime: int)

  datatype View = View(
    contents: map<EventID, Content>,
    cls: map<EventID, EventID>,
    edges: set<(EventID, EventID)>)

  // ----- The order -----

  function Rep(v: View, id: EventID): EventID {
    Apply(v.cls, id)
  }

  /** a precedes b or is equivalent to it. */
  ghost predicate Leq(v: View, a: EventID, b: EventID) {
    a in v.contents && b in v.contents && Reach(v.edges, Rep(v, a), Rep(v, b))
  }

  ghost predicate Equivalent(v: View, a: EventID, b: EventID) {
    a in v.contents && b in v.contents && Rep(v, a) == Rep(v, b)
  }

  /** a strictly causally precedes b. */
  ghost predicate Before(v: View, a: EventID, b: EventID) {
    Leq(v, a, b) && Rep(v, a) != Rep(v, b)
  }

  ghost predicate Clashing(v: View, a: EventID, b: EventID) {
    a in v.contents && b in v.contents && Conflict(v.contents[a].timings, v.contents[b].timings)
  }

  // ----- Consistency -----

  ghost predicate IsHead(v: View, r: EventID) {
    r in v.cls && v.cls[r] == r
  }

  /** Each class is headed by its least member. */
  ghost predicate Headed(v: View) {
    && v.cls.Keys == v.contents.Keys
    && forall id :: id in v.cls ==> IsHead(v, v.cls[id]) && AtMost(v.cls[id], id)
  }

  ghost predicate EdgesJoinHeads(v: View) {
    forall a, b :: (a, b) in v.edges ==> IsHead(v, a) && IsHead(v, b)
  }

  ghost predicate CanonicalTimings(v: View) {
    forall id :: id in v.contents ==> Canonical(v.contents[id].timings)
  }

  ghost predicate Shaped(v: View) {
    Headed(v) && EdgesJoinHeads(v) && CanonicalTimings(v)
  }

  /** No event precedes another on whose clock it finishes after that one starts. */
  ghost predicate TimingRule(v: View) {
    forall a, b :: Before(v, a, b) ==> !Clashing(v, a, b)
  }

  ghost predicate Consistent(v: View) {
    Shaped(v) && Acyclic(v.edges) && TimingRule(v)
  }

  /** The class index reads the empty identity as "no class", so it describes the view only
      while the empty identity heads no class but its own. */
  ghost predicate Readable(v: View) {
    forall id :: id in v.cls && v.cls[id] == [] ==> id == []
  }

  const Empty: View := View(map[], map[], {})

  lemma EmptyConsistent()
    ensures Consistent(Empty)
  {}

  lemma RepFacts(v: View, id: EventID)
    requires Shaped(v) && id in v.contents
    ensures Rep(v, id) in v.contents && Rep(v, Rep(v, id)) == Rep(v, id) && AtMost(Rep(v, id), id)
  {}

  lemma EdgeReps(v: View, a: EventID, b: EventID)
    requires Shaped(v) && (a, b) in v.edges
    ensures a in v.contents && b in v.contents && Rep(v, a) == a && Rep(v, b) == b
  {}

  lemma EdgeOrders(v: View, a: EventID, b: EventID)
    requires Consistent(v) && a in v.contents && b in v.contents && (Rep(v, a), Rep(v, b)) in v.edges
    ensures Before(v, a, b) && !Leq(v, b, a) && WithEdge(v, a, b) == v
  {
    assert Reach(v.edges, Rep(v, a), Rep(v, a));
    assert v.edges + {(Rep(v, a), Rep(v, b))} == v.edges;
  }

  /** `Before` is a strict partial order that cannot tell equivalent events apart. */
  lemma BeforeIsStrictOrder(v: View, a: EventID, b: EventID, c: EventID)
    requires Consistent(v)
    ensures !(Before(v, a, b) && Before(v, b, a))
    ensures Before(v, a, b) && Leq(v, b, c) ==> Before(v, a, c)
    ensures Leq(v, a, b) && Before(v, b, c) ==> Before(v, a, c)
    ensures Leq(v, a, b) <==> Before(v, a, b) || Equivalent(v, a, b)
  {
    var r, s, t := Rep(v, a), Rep(v, b), Rep(v, c);
    if Leq(v, a, b) && Leq(v, b, a) {
      ReachAntisymmetric(v.edges, r, s);
    }
    if Leq(v, a, b) && Leq(v, b, c) {
      ReachTrans(v.edges, r, s, t);
      if r == t {
        ReachAntisymmetric(v.edges, r, s);
      }
    }
    if Equivalent(v, a, b) {
      assert Reach(v.edges, r, r);
    }
  }

  // ----- Adding an event -----

  function WithEvent(v: View, id: EventID, c: Content): View {
    View(v.contents[id := c], v.cls[id := id], v.edges)
  }

  lemma NewEventIsolated(v: View, id: EventID, b: EventID)
    requires Shaped(v) && id !in v.contents
    ensures Reach(v.edges, id, b) ==> b == id
    ensures Reach(v.edges, b, id) ==> b == id
  {
    hide CanonicalTimings;
    if Reach(v.edges, id, b) && b != id {
      var n := ReachFirst(v.edges, id, b);
      assert false;
    }
    if Reach(v.edges, b, id) && b != id {
      var n := ReachLast(v.edges, b, id);
      assert false;
    }
  }

  /** A new event is unrelated to everything. */
  lemma BeforeWithEvent(v: View, id: EventID, c: Content, a: EventID, b: EventID)
    requires Shaped(v) && id !in v.contents
    ensures Before(WithEvent(v, id, c), a, b) <==> Before(v, a, b)
  {
    hide EdgesJoinHeads, CanonicalTimings, Reach;
    NewEventIsolated(v, id, Rep(v, a));
    NewEventIsolated(v, id, Rep(v, b));
  }

  lemma EventKeepsConsistent(v: View, id: EventID, c: Content)
    requires Consistent(v) && id !in v.contents && Canonical(c.timings)
    ensures Consistent(WithEvent(v, id, c))
  {
    var w := WithEvent(v, id, c);
    assert Shaped(w);
    forall a, b | Before(w, a, b) ensures !Clashing(w, a, b) {
      hide Canonical, CanonicalTimings;
      BeforeWithEvent(v, id, c, a, b);
    }
  }

  // ----- Replacing an event's content -----

  function WithContent(v: View, id: EventID, c: Content): View {
    v.(contents := v.contents[id := c])
  }

  /** Timings clash with something comparable to `id`, class peers included. */
  ghost predicate NeighbourClash(v: View, id: EventID, timings: seq<EventTiming>) {
    exists x :: x != id &&
      ((Leq(v, x, id) && Conflict(v.contents[x].timings, timings)) ||
       (Leq(v, id, x) && Conflict(timings, v.contents[x].timings)))
  }

  /** Replacing content without a neighbour clash keeps the view consistent and the order as it was. */
  lemma ContentKeepsConsistent(v: View, id: EventID, c: Content)
    requires Consistent(v) && id in v.contents && Canonical(c.timings) && !NeighbourClash(v, id, c.timings)
    ensures Consistent(WithContent(v, id, c))
    ensures forall a, b :: Before(WithContent(v, id, c), a, b) <==> Before(v, a, b)
  {
    hide Consistent, NeighbourClash;
    var w := WithContent(v, id, c);
    forall a, b ensures Leq(w, a, b) <==> Leq(v, a, b) {
      ContentKeepsOrder(v, id, c, a, b);
    }
    ConsistentShaped(v);
    ContentKeepsShape(v, id, c);
    ContentKeepsTiming(v, id, c);
    ShapedConsistent(w);
  }

  lemma ShapedConsistent(v: View)
    requires Shaped(v) && TimingRule(v) && Acyclic(v.edges)
    ensures Consistent(v)
  {}

  lemma ContentKeepsOrder(v: View, id: EventID, c: Content, a: EventID, b: EventID)
    requires id in v.contents
    ensures Leq(WithContent(v, id, c), a, b) <==> Leq(v, a, b)
    ensures Before(WithContent(v, id, c), a, b) <==> Before(v, a, b)
  {
    hide Reach;
  }

  lemma ContentKeepsShape(v: View, id: EventID, c: Content)
    requires Shaped(v) && id in v.contents && Canonical(c.timings)
    ensures Shaped(WithContent(v, id, c))
  {
    hide Canonical, AtMost;
    var w := WithContent(v, id, c);
    forall x | x in w.cls ensures IsHead(w, w.cls[x]) && AtMost(w.cls[x], x) { assert IsHead(v, v.cls[x]); }
    forall a, b | (a, b) in w.edges ensures IsHead(w, a) && IsHead(w, b) { assert IsHead(v, a) && IsHead(v, b); }
  }

  lemma ContentKeepsTiming(v: View, id: EventID, c: Content)
    requires Consistent(v) && id in v.contents && !NeighbourClash(v, id, c.timings)
    ensures TimingRule(WithContent(v, id, c))
  {
    hide Conflict, Reach, Shaped, Acyclic;
    var w := WithContent(v, id, c);
    forall a, b | Before(w, a, b) ensures !Clashing(w, a, b) {
      ContentKeepsOrder(v, id, c, a, b);
      assert Leq(v, a, b) && a != b && !Clashing(v, a, b);
    }
  }

  // ----- Adding an edge -----

  function WithEdge(v: View, from: EventID, to: EventID): View {
    v.(edges := v.edges + {(Rep(v, from), Rep(v, to))})
  }

  /** The pairs an edge newly orders: everything up to its tail before everything from its head. */
  ghost predicate Bridged(v: View, from: EventID, to: EventID, a: EventID, b: EventID) {
    Leq(v, a, from) && Leq(v, to, b)
  }

  lemma LeqWithEdge(v: View, from: EventID, to: EventID, a: EventID, b: EventID)
    requires from in v.contents && to in v.contents
    ensures Leq(WithEdge(v, from, to), a, b) <==> Leq(v, a, b) || Bridged(v, from, to, a, b)
  {
    ReachWithEdge(v.edges, Rep(v, from), Rep(v, to), Rep(v, a), Rep(v, b));
  }

  /** An edge between distinct classes keeps a view consistent exactly when its head does
      not already precede its tail and no pair it bridges clashes. */
  lemma EdgeConsistentIff(v: View, from: EventID, to: EventID)
    requires Consistent(v) && from in v.contents && to in v.contents && !Equivalent(v, from, to)
    ensures Consistent(WithEdge(v, from, to)) <==>
            !Leq(v, to, from) && forall a, b :: Bridged(v, from, to, a, b) ==> !Clashing(v, a, b)
  {
    var w := WithEdge(v, from, to);
    RepFacts(v, from);
    RepFacts(v, to);
    assert Shaped(w);
    AcyclicWithEdge(v.edges, Rep(v, from), Rep(v, to));
    if Acyclic(w.edges) {
      forall a, b | Bridged(v, from, to, a, b) ensures Before(w, a, b) {
        LeqWithEdge(v, from, to, a, b);
        if Rep(v, a) == Rep(v, b) {
          ReachTrans(v.edges, Rep(v, to), Rep(v, b), Rep(v, from));
        }
      }
      forall a, b | Before(w, a, b) ensures Before(v, a, b) || Bridged(v, from, to, a, b) {
        LeqWithEdge(v, from, to, a, b);
      }
      assert forall a, b :: Clashing(w, a, b) <==> Clashing(v, a, b);
    }
  }

  /** An accepted edge orders exactly the bridged pairs in addition. */
  lemma BeforeWithEdge(v: View, from: EventID, to: EventID, a: EventID, b: EventID)
    requires Consistent(v) && from in v.contents && to in v.contents && !Equivalent(v, from, to)
    requires Consistent(WithEdge(v, from, to))
    ensures Before(WithEdge(v, from, to), a, b) <==> Before(v, a, b) || Bridged(v, from, to, a, b)
  {
    LeqWithEdge(v, from, to, a, b);
    EdgeConsistentIff(v, from, to);
    if Bridged(v, from, to, a, b) && Rep(v, a) == Rep(v, b) {
      ReachTrans(v.edges, Rep(v, to), Rep(v, b), Rep(v, from));
    }
  }

  /** The heads of two classes stand for any of their members. */
  lemma HeadsStand(v: View, from: EventID, to: EventID)
    requires Shaped(v) && from in v.contents && to in v.contents
    ensures var p, q := Rep(v, from), Rep(v, to);
            && p in v.contents && q in v.contents
            && WithEdge(v, p, q) == WithEdge(v, from, to)
            && (Before(v, q, p) <==> Leq(v, to, from) && !Equivalent(v, from, to))
            && (forall a, b :: Bridged(v, p, q, a, b) <==> Bridged(v, from, to, a, b))
  {
    hide CanonicalTimings, EdgesJoinHeads, AtMost, Reach;
    assert IsHead(v, v.cls[from]) && IsHead(v, v.cls[to]);
  }

  // ----- Adding an event with its causes -----

  function CauseEdges(v: View, id: EventID, causes: set<EventID>): set<(EventID, EventID)> {
    set c | c in causes :: (Rep(v, c), id)
  }

  function WithCausedEvent(v: View, id: EventID, c: Content, causes: set<EventID>): View {
    View(v.contents[id := c], v.cls[id := id], v.edges + CauseEdges(v, id, causes))
  }

  lemma CausedReps(v: View, id: EventID, c: Content, causes: set<EventID>, a: EventID)
    requires Shaped(v) && id !in v.contents && a in v.contents
    ensures Rep(WithCausedEvent(v, id, c, causes), a) == Rep(v, a) != id
    ensures Rep(WithCausedEvent(v, id, c, causes), id) == id
  {
    RepFacts(v, a);
  }

  lemma CausedKeys(v: View, id: EventID, c: Content, causes: set<EventID>)
    ensures WithCausedEvent(v, id, c, causes).contents == v.contents[id := c]
  {}

  lemma NoCauses(v: View, id: EventID, c: Content)
    ensures WithCausedEvent(v, id, c, {}) == WithEvent(v, id, c)
  {}

  lemma LeqKnown(v: View, b: EventID)
    ensures forall a :: Leq(v, a, b) ==> a in v.contents
  {}

  lemma LeqFromKnown(v: View, a: EventID)
    ensures forall b :: Leq(v, a, b) ==> b in v.contents
  {}

  lemma CausesNewSink(v: View, id: EventID, causes: set<EventID>)
    requires Shaped(v) && id !in v.contents && causes <= v.contents.Keys
    ensures NewSink(v.edges, CauseEdges(v, id, causes), id)
  {
    hide CanonicalTimings, AtMost;
    forall a, b | (a, b) in CauseEdges(v, id, causes) ensures a != id && b == id {
      var c :| c in causes && (Rep(v, c), id) == (a, b);
      assert IsHead(v, v.cls[c]);
    }
  }

  /** The new event follows exactly what is at or before one of its causes, precedes
      nothing, and leaves the order of the others alone. */
  lemma LeqWithCauses(v: View, id: EventID, c: Content, causes: set<EventID>, a: EventID, b: EventID)
    requires Shaped(v) && id !in v.contents && causes <= v.contents.Keys
    ensures var w := WithCausedEvent(v, id, c, causes);
            && (b != id ==> (Leq(w, a, b) <==> Leq(v, a, b)))
            && (a != id ==> (Leq(w, a, id) <==> exists k :: k in causes && Leq(v, a, k)))
  {
    hide CanonicalTimings, AtMost, Reach;
    var w := WithCausedEvent(v, id, c, causes);
    var extra := CauseEdges(v, id, causes);
    CausesNewSink(v, id, causes);
    if a in w.contents && b in w.contents {
      assert a != id ==> Rep(w, a) == Rep(v, a) && IsHead(v, v.cls[a]);
      assert b != id ==> Rep(w, b) == Rep(v, b) && IsHead(v, v.cls[b]);
      ReachWithSink(v.edges, extra, id, Rep(w, a), Rep(w, b));
    }
    if a in v.contents {
      assert Rep(w, a) == Rep(v, a) && IsHead(v, v.cls[a]);
      ReachWithSink(v.edges, extra, id, Rep(w, a), id);
      if k :| k in causes && Leq(v, a, k) {
        assert (Rep(v, k), id) in extra;
      }
      if FeedsSink(v.edges, extra, Rep(v, a)) {
        var h, d :| (h, d) in extra && Reach(v.edges, Rep(v, a), h);
        var k :| k in causes && (Rep(v, k), id) == (h, d);
        assert Leq(v, a, k);
      }
    }
  }

  /** A caused event fits exactly when nothing at or before a cause clashes with it. */
  ghost predicate CausesClash(v: View, c: Content, causes: set<EventID>) {
    exists x, k :: k in causes && Leq(v, x, k) && Conflict(v.contents[x].timings, c.timings)
  }

  lemma UntimedNeverClashes(v: View, c: Content, causes: set<EventID>)
    requires c.timings == []
    ensures !CausesClash(v, c, causes)
  {}

  lemma CausedEventConsistentIff(v: View, id: EventID, c: Content, causes: set<EventID>)
    requires Consistent(v) && id !in v.contents && causes <= v.contents.Keys && Canonical(c.timings)
    ensures Consistent(WithCausedEvent(v, id, c, causes)) <==> !CausesClash(v, c, causes)
  {
    hide Canonical, Conflict, Reach, AtMost;
    var w := WithCausedEvent(v, id, c, causes);
    CausesNewSink(v, id, causes);
    AcyclicWithSink(v.edges, CauseEdges(v, id, causes), id);
    WithCausedEventShaped(v, id, c, causes);
    forall a, b ensures Before(w, a, b) <==>
        Before(v, a, b) || (b == id && a != id && exists k :: k in causes && Leq(v, a, k))
    {
      LeqWithCauses(v, id, c, causes, a, b);
      if a in v.contents { assert IsHead(v, v.cls[a]); }
    }
    if CausesClash(v, c, causes) {
      var x, k :| k in causes && Leq(v, x, k) && Conflict(v.contents[x].timings, c.timings);
      assert Before(w, x, id) && Clashing(w, x, id);
    }
  }

  lemma WithCausedEventShaped(v: View, id: EventID, c: Content, causes: set<EventID>)
    requires Shaped(v) && id !in v.contents && causes <= v.contents.Keys && Canonical(c.timings)
    ensures Shaped(WithCausedEvent(v, id, c, causes))
  {
    hide Canonical, Less;
    var w := WithCausedEvent(v, id, c, causes);
    forall x | x in w.cls ensures IsHead(w, w.cls[x]) && AtMost(w.cls[x], x) {
      if x != id { assert IsHead(v, v.cls[x]); }
    }
    forall a, b | (a, b) in w.edges ensures IsHead(w, a) && IsHead(w, b) {
      if (a, b) in v.edges {
        assert IsHead(v, a) && IsHead(v, b);
      } else {
        var k :| k in causes && (Rep(v, k), id) == (a, b);
        assert IsHead(v, v.cls[k]);
      }
    }
  }

  /** Adding the causes one edge at a time never fails once the whole event fits. */
  lemma NextCauseFits(v: View, id: EventID, c: Content, done: set<EventID>, causes: set<EventID>, k: EventID)
    requires Consistent(v) && id !in v.contents && causes <= v.contents.Keys && Canonical(c.timings)
    requires done <= causes && k in causes && !CausesClash(v, c, causes)
    ensures var w := WithCausedEvent(v, id, c, done);
            && Consistent(w)
            && k in w.contents && id in w.contents && !Equivalent(w, k, id)
            && WithEdge(w, k, id) == WithCausedEvent(v, id, c, done + {k})
            && Consistent(WithEdge(w, k, id))
  {
    hide Consistent, Canonical, Conflict, Reach, AtMost;
    var w := WithCausedEvent(v, id, c, done);
    CausedEventConsistentIff(v, id, c, done);
    CausedEventConsistentIff(v, id, c, done + {k});
    assert Consistent(v) && Shaped(v) by { ConsistentShaped(v); }
    assert Rep(w, k) == Rep(v, k) && Rep(w, id) == id;
    assert v.edges + CauseEdges(v, id, done) + {(Rep(v, k), id)} == v.edges + CauseEdges(v, id, done + {k});
    assert IsHead(v, v.cls[k]);
  }

  lemma ConsistentShaped(v: View)
    requires Consistent(v)
    ensures Shaped(v) && Acyclic(v.edges)
  {}

  // ----- Merging classes -----

  function Heads(v: View, ids: set<EventID>): set<EventID> {
    set id | id in ids :: Rep(v, id)
  }

  lemma NoneHeaded(v: View)
    ensures Heads(v, {}) == {}
  {}

  lemma HeadsGrow(v: View, ids: set<EventID>, id: EventID)
    ensures Heads(v, ids + {id}) == Heads(v, ids) + {Rep(v, id)}
  {}

  ghost function LeastHead(heads: set<EventID>): (m: EventID)
    requires heads != {}
    ensures IsLeast(m, heads)
  {
    assert exists m :: IsLeast(m, heads) by {
      var n := LeastExists(heads);
    }
    var m :| IsLeast(m, heads);
    m
  }

  ghost function Collapse(heads: set<EventID>): map<EventID, EventID> {
    map h | h in heads :: LeastHead(heads)
  }

  lemma CollapseCollapses(heads: set<EventID>)
    requires heads != {}
    ensures Collapses(Collapse(heads), heads, LeastHead(heads))
  {}

  /** The classes headed by `heads` become one, headed by the least of them. */
  ghost function WithClass(v: View, heads: set<EventID>): View {
    var f := Collapse(heads);
    View(v.contents, map id | id in v.cls :: Apply(f, v.cls[id]), Image(v.edges, f))
  }

  ghost predicate AreHeads(v: View, heads: set<EventID>) {
    heads != {} && forall h :: h in heads ==> h in v.contents && Rep(v, h) == h
  }

  /** a leads to some merged class and some merged class leads to b. */
  ghost predicate Through(v: View, heads: set<EventID>, a: EventID, b: EventID) {
    a in v.contents && b in v.contents && Joined(v.edges, heads, Rep(v, a), Rep(v, b))
  }

  lemma WithClassRep(v: View, heads: set<EventID>, id: EventID)
    requires Shaped(v) && AreHeads(v, heads) && id in v.contents
    ensures Rep(WithClass(v, heads), id) ==
            if Rep(v, id) in heads then LeastHead(heads) else Rep(v, id)
  {}

  lemma MergeChanges(v: View, heads: set<EventID>, a: EventID, b: EventID)
    requires Shaped(v) && AreHeads(v, heads) && a in heads && b in heads && a != b
    ensures WithClass(v, heads) != v
  {
    hide CanonicalTimings, EdgesJoinHeads, AtMost;
    WithClassRep(v, heads, a);
    WithClassRep(v, heads, b);
  }

  lemma WithClassShaped(v: View, heads: set<EventID>)
    requires Shaped(v) && AreHeads(v, heads)
    ensures Shaped(WithClass(v, heads))
  {
    var w := WithClass(v, heads);
    var f := Collapse(heads);
    var m := LeastHead(heads);
    forall id | id in w.cls
      ensures w.cls[id] in w.cls && w.cls[w.cls[id]] == w.cls[id] && AtMost(w.cls[id], id)
    {
      WithClassRep(v, heads, id);
      WithClassRep(v, heads, m);
      if Rep(v, id) in heads {
        assert AtMost(m, Rep(v, id)) && AtMost(Rep(v, id), id);
        if m != Rep(v, id) && Rep(v, id) != id {
          LessTransitive(m, Rep(v, id), id);
        }
      }
    }
    forall a, b | (a, b) in w.edges
      ensures a in w.cls && w.cls[a] == a && b in w.cls && w.cls[b] == b
    {
      var e :| e in v.edges && Apply(f, e.0) == a && Apply(f, e.1) == b;
      assert (e.0, e.1) in v.edges;
    }
  }

  lemma LeqWithClass(v: View, heads: set<EventID>, a: EventID, b: EventID)
    requires Shaped(v) && AreHeads(v, heads)
    ensures Leq(WithClass(v, heads), a, b) <==> Leq(v, a, b) || Through(v, heads, a, b)
  {
    CollapseCollapses(heads);
    if a in v.contents && b in v.contents {
      ReachCollapsed(v.edges, Collapse(heads), heads, LeastHead(heads), Rep(v, a), Rep(v, b));
    }
  }

  /** Merging pairwise unordered classes creates no cycle and loses no ordered pair; the
      new strict order is the old one with the classes identified, closed transitively. */
  lemma BeforeWithClass(v: View, heads: set<EventID>, a: EventID, b: EventID)
    requires Shaped(v) && Acyclic(v.edges) && AreHeads(v, heads) && Unordered(v.edges, heads)
    ensures Acyclic(WithClass(v, heads).edges)
    ensures Before(WithClass(v, heads), a, b) <==>
            !Equivalent(WithClass(v, heads), a, b) && (Leq(v, a, b) || Through(v, heads, a, b))
    ensures Before(v, a, b) ==> Before(WithClass(v, heads), a, b)
  {
    CollapseCollapses(heads);
    AcyclicCollapsed(v.edges, Collapse(heads), heads, LeastHead(heads));
    LeqWithClass(v, heads, a, b);
    if a in v.contents && b in v.contents {
      WithClassRep(v, heads, a);
      WithClassRep(v, heads, b);
    }
  }

  ghost predicate LeadsInto(edges: set<(EventID, EventID)>, heads: set<EventID>, x: EventID) {
    exists h :: h in heads && Reach(edges, x, h)
  }

  ghost predicate LedFrom(edges: set<(EventID, EventID)>, heads: set<EventID>, x: EventID) {
    exists h :: h in heads && Reach(edges, h, x)
  }

  lemma NoHeads(edges: set<(EventID, EventID)>)
    ensures forall x :: !LeadsInto(edges, {}, x) && !LedFrom(edges, {}, x)
  {}

  lemma OneMoreHead(edges: set<(EventID, EventID)>, heads: set<EventID>, h: EventID, x: EventID)
    ensures LeadsInto(edges, heads + {h}, x) <==> LeadsInto(edges, heads, x) || Reach(edges, x, h)
    ensures LedFrom(edges, heads + {h}, x) <==> LedFrom(edges, heads, x) || Reach(edges, h, x)
  {
    assert h in heads + {h};
  }

  /** The timing scan of a class merge: everything before the merged classes against the
      merged members and everything after them, and the merged members against the latter. */
  ghost predicate Ahead(v: View, heads: set<EventID>, id: EventID) {
    id in v.contents && Rep(v, id) !in heads && LeadsInto(v.edges, heads, Rep(v, id))
  }

  ghost predicate Behind(v: View, heads: set<EventID>, id: EventID) {
    id in v.contents && Rep(v, id) !in heads && LedFrom(v.edges, heads, Rep(v, id))
  }

  ghost predicate Inside(v: View, heads: set<EventID>, id: EventID) {
    id in v.contents && Rep(v, id) in heads
  }

  ghost predicate Scanned(v: View, heads: set<EventID>, a: EventID, b: EventID) {
    || (Ahead(v, heads, a) && (Inside(v, heads, b) || Behind(v, heads, b)))
    || (Inside(v, heads, a) && Behind(v, heads, b))
  }

  lemma ScannedBecomesOrdered(v: View, heads: set<EventID>, a: EventID, b: EventID)
    requires Shaped(v) && Acyclic(v.edges) && AreHeads(v, heads) && Unordered(v.edges, heads)
    requires Scanned(v, heads, a, b)
    ensures Before(WithClass(v, heads), a, b)
  {
    var ra, rb := Rep(v, a), Rep(v, b);
    assert Reach(v.edges, ra, ra) && Reach(v.edges, rb, rb);
    BeforeWithClass(v, heads, a, b);
    WithClassRep(v, heads, a);
    WithClassRep(v, heads, b);
    assert Through(v, heads, a, b);
    if ra == rb {
      var h :| h in heads && Reach(v.edges, ra, h);
      var k :| k in heads && Reach(v.edges, k, ra);
      ReachTrans(v.edges, k, ra, h);
      assert h == k;
      ReachAntisymmetric(v.edges, ra, h);
    }
  }

  lemma OrderedWasScanned(v: View, heads: set<EventID>, a: EventID, b: EventID)
    requires Shaped(v) && Acyclic(v.edges) && AreHeads(v, heads) && Unordered(v.edges, heads)
    requires Before(WithClass(v, heads), a, b) && !Before(v, a, b)
    ensures Scanned(v, heads, a, b)
  {
    BeforeWithClass(v, heads, a, b);
    WithClassRep(v, heads, a);
    WithClassRep(v, heads, b);
    var r, s :| r in heads && s in heads && Reach(v.edges, Rep(v, a), r) && Reach(v.edges, s, Rep(v, b));
  }

  /** The scan decides the timing rule of the merged view. */
  lemma ClassTimingIff(v: View, heads: set<EventID>)
    requires Consistent(v) && AreHeads(v, heads) && Unordered(v.edges, heads)
    ensures TimingRule(WithClass(v, heads)) <==>
            forall a, b :: Scanned(v, heads, a, b) ==> !Clashing(v, a, b)
  {
    var w := WithClass(v, heads);
    assert forall a, b :: Clashing(w, a, b) <==> Clashing(v, a, b);
    forall a, b | Scanned(v, heads, a, b) ensures Before(w, a, b) {
      ScannedBecomesOrdered(v, heads, a, b);
    }
    forall a, b | Before(w, a, b) ensures Before(v, a, b) || Scanned(v, heads, a, b) {
      if !Before(v, a, b) {
        OrderedWasScanned(v, heads, a, b);
      }
    }
  }

  lemma ClassConsistentIff(v: View, heads: set<EventID>)
    requires Consistent(v) && AreHeads(v, heads) && Unordered(v.edges, heads)
    ensures Consistent(WithClass(v, heads)) <==> TimingRule(WithClass(v, heads))
  {
    WithClassShaped(v, heads);
    var h :| h in heads;
    BeforeWithClass(v, heads, h, h);
  }

  /** On a clock both are related to, an event ends before a later one starts, or just then. */
  lemma IntervalsFollowOrder(v: View, a: EventID, b: EventID, t: EventTiming, u: EventTiming)
    requires Consistent(v) && Before(v, a, b) && t in v.contents[a].timings && u in v.contents[b].timings && t.clock == u.clock
    ensures t.finish <= u.start
  {
    hide Shaped, Acyclic, Reach;
    var ts, us := v.contents[a].timings, v.contents[b].timings;
    var i :| 0 <= i < |ts| && ts[i] == t;
    var j :| 0 <= j < |us| && us[j] == u;
    assert !Clash(ts[i], us[j]);
  }
}
