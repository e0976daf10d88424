/** Merges of jointly consistent descriptions converge.

    `Generated` characterises a view by what was put into it, as a set: its occurrences, the
    finest equivalence joining every listed class, and the listed edges between class heads.
    Two generated views of one description are equal, so the order in which compatible
    snapshots arrive, and the order of their contents, cannot matter. */
module Convergence {
  import opened Texts
  import opened Timings
  import opened Reachability
  import opened CausalOrder
  import opened Operations
  import opened Merging

  datatype Raw = Raw(
    contents: map<EventID, Content>,
    classes: set<set<EventID>>,
    edges: set<(EventID, EventID)>)

  /** g is constant on every listed class. */
  ghost predicate Coarser(classes: set<set<EventID>>, g: map<EventID, EventID>) {
    forall c, a, b :: c in classes && a in c && b in c && a in g && b in g ==> g[a] == g[b]
  }

  ghost predicate Joins(v: View, classes: set<set<EventID>>) {
    forall c, a, b :: c in classes && a in c && b in c ==> Equivalent(v, a, b)
  }

  ghost predicate JoinsNoMore(v: View, classes: set<set<EventID>>) {
    forall g: map<EventID, EventID>, a, b ::
      g.Keys == v.contents.Keys && Coarser(classes, g) && Equivalent(v, a, b) ==> g[a] == g[b]
  }

  ghost predicate IsEdgeOf(v: View, edges: set<(EventID, EventID)>, a: EventID, b: EventID) {
    exists p, q :: (p, q) in edges && Rep(v, p) == a && Rep(v, q) == b
  }

  ghost predicate Generated(v: View, raw: Raw) {
    && v.contents == raw.contents
    && Joins(v, raw.classes) && JoinsNoMore(v, raw.classes)
    && (forall p, q :: (p, q) in raw.edges ==> Before(v, p, q))
    && (forall a, b :: (a, b) in v.edges <==> IsEdgeOf(v, raw.edges, a, b))
  }

  lemma GeneratedEquivalence(v: View, w: View, raw: Raw, a: EventID, b: EventID)
    requires Shaped(w) && Generated(v, raw) && Generated(w, raw) && Equivalent(v, a, b)
    ensures Equivalent(w, a, b)
  {
    hide CanonicalTimings, EdgesJoinHeads, Before, IsEdgeOf;
    assert Coarser(raw.classes, w.cls) by {
      forall c, x, y | c in raw.classes && x in c && y in c && x in w.cls && y in w.cls
        ensures w.cls[x] == w.cls[y]
      {
        assert Equivalent(w, x, y);
      }
    }
    assert w.cls[a] == w.cls[b];
  }

  lemma GeneratedRep(v: View, w: View, raw: Raw, a: EventID)
    requires Shaped(v) && Shaped(w) && Generated(v, raw) && Generated(w, raw) && a in v.contents
    ensures Rep(v, a) == Rep(w, a)
  {
    hide CanonicalTimings, EdgesJoinHeads, Generated, AtMost;
    assert w.contents == v.contents by { SameContents(v, w, raw); }
    RepFacts(v, a);
    RepFacts(w, a);
    GeneratedEquivalence(v, w, raw, Rep(v, a), a);
    GeneratedEquivalence(w, v, raw, Rep(w, a), a);
    LeastsAgree(v, w, a);
  }

  lemma SameContents(v: View, w: View, raw: Raw)
    requires Generated(v, raw) && Generated(w, raw)
    ensures v.contents == w.contents
  {}

  lemma LeastsAgree(v: View, w: View, a: EventID)
    requires Headed(v) && Headed(w) && a in v.contents && a in w.contents
    requires Rep(v, a) in w.contents && Rep(w, Rep(v, a)) == Rep(w, a)
    requires Rep(w, a) in v.contents && Rep(v, Rep(w, a)) == Rep(v, a)
    ensures Rep(v, a) == Rep(w, a)
  {
    assert AtMost(w.cls[Rep(v, a)], Rep(v, a));
    assert AtMost(v.cls[Rep(w, a)], Rep(w, a));
    LessAsymmetric(Rep(v, a), Rep(w, a));
  }

  /** What was put in, as sets, determines the view. */
  lemma GeneratedUnique(v: View, w: View, raw: Raw)
    requires Shaped(v) && Shaped(w) && Generated(v, raw) && Generated(w, raw)
    ensures v == w
  {
    hide CanonicalTimings, EdgesJoinHeads, AtMost, Joins, JoinsNoMore, IsEdgeOf;
    forall a | a in v.contents ensures Rep(v, a) == Rep(w, a) {
      GeneratedRep(v, w, raw, a);
    }
    assert v.cls == w.cls;
    forall a, b ensures (a, b) in v.edges <==> (a, b) in w.edges {
      SameEdges(v, w, raw.edges, a, b);
    }
    forall e ensures e in v.edges <==> e in w.edges {
      var (a, b) := e;
    }
    assert v.edges == w.edges;
  }

  lemma SameEdges(v: View, w: View, edges: set<(EventID, EventID)>, a: EventID, b: EventID)
    requires v.cls == w.cls
    ensures IsEdgeOf(v, edges, a, b) <==> IsEdgeOf(w, edges, a, b)
  {
    assert forall x :: Rep(v, x) == Rep(w, x);
  }

  // ----- Putting in what a common view vouches for -----

  /** u knows what the operation states, an occurrence possibly in other roles. */
  ghost predicate Vouches(u: View, op: Op) {
    match op
    case PutEvent(id, c) => id in u.contents && SameOccurrence(c, u.contents[id]) && Canonical(c.timings)
    case PutClass(ids) => ids != {} && forall a, b :: a in ids && b in ids ==> Equivalent(u, a, b)
    case PutEdge(from, to) => from in u.contents && to in u.contents ==> Before(u, from, to)
  }

  /** An operation can take effect once its occurrences are present. */
  ghost predicate Ready(keys: set<EventID>, op: Op) {
    op.PutClass? ==> op.ids <= keys
  }

  ghost function RawAfter(raw: Raw, op: Op): Raw {
    match op
    case PutEvent(id, c) => if id in raw.contents then raw else raw.(contents := raw.contents[id := c])
    case PutClass(ids) => raw.(classes := raw.classes + {ids})
    case PutEdge(from, to) =>
      if from in raw.contents && to in raw.contents then raw.(edges := raw.edges + {(from, to)}) else raw
  }

  lemma EventJoinsNoMore(v: View, classes: set<set<EventID>>, id: EventID, c: Content)
    requires Shaped(v) && JoinsNoMore(v, classes) && id !in v.contents
    ensures JoinsNoMore(WithEvent(v, id, c), classes)
  {
    hide Shaped;
    var w := WithEvent(v, id, c);
    forall g: map<EventID, EventID>, a, b
      | g.Keys == w.contents.Keys && Coarser(classes, g) && Equivalent(w, a, b)
      ensures g[a] == g[b]
    {
      if a != id && b != id {
        var h := g - {id};
        assert h.Keys == v.contents.Keys;
        assert Coarser(classes, h);
        assert Equivalent(v, a, b);
        assert h[a] == h[b];
      } else if a != b {
        OwnClass(v, id, if a == id then b else a);
      }
    }
  }

  lemma EventEdges(v: View, edges: set<(EventID, EventID)>, id: EventID, c: Content, a: EventID, b: EventID)
    requires Shaped(v) && id !in v.contents
    requires forall p, q :: (p, q) in edges ==> Before(v, p, q)
    ensures IsEdgeOf(WithEvent(v, id, c), edges, a, b) <==> IsEdgeOf(v, edges, a, b)
  {
    hide Shaped, Reach;
    var w := WithEvent(v, id, c);
    forall p, q | (p, q) in edges ensures Rep(w, p) == Rep(v, p) && Rep(w, q) == Rep(v, q) {
      assert Before(v, p, q);
    }
  }

  lemma EventGenerated(v: View, raw: Raw, id: EventID, c: Content)
    requires Consistent(v) && Generated(v, raw) && id !in v.contents && Canonical(c.timings)
    ensures Generated(WithEvent(v, id, c), raw.(contents := raw.contents[id := c]))
  {
    hide Consistent, Canonical, Reach, IsEdgeOf, JoinsNoMore, Coarser;
    var w := WithEvent(v, id, c);
    ConsistentShaped(v);
    forall k, a, b | k in raw.classes && a in k && b in k ensures Equivalent(w, a, b) {
      assert Equivalent(v, a, b);
    }
    EventJoinsNoMore(v, raw.classes, id, c);
    forall p, q | (p, q) in raw.edges ensures Before(w, p, q) {
      BeforeWithEvent(v, id, c, p, q);
    }
    forall a, b ensures (a, b) in w.edges <==> IsEdgeOf(w, raw.edges, a, b) {
      EventEdges(v, raw.edges, id, c, a, b);
    }
  }

  lemma OwnClass(v: View, id: EventID, a: EventID)
    requires Shaped(v) && id !in v.contents && a in v.contents
    ensures Rep(v, a) != id
  {
    RepFacts(v, a);
  }

  lemma EdgeGenerated(v: View, raw: Raw, from: EventID, to: EventID)
    requires Consistent(v) && Generated(v, raw) && EdgeFits(v, from, to)
    ensures Generated(WithEdge(v, from, to), raw.(edges := raw.edges + {(from, to)}))
  {
    hide Consistent, Reach;
    var w, edges := WithEdge(v, from, to), raw.edges + {(from, to)};
    assert forall x :: Rep(w, x) == Rep(v, x);
    assert forall a, b :: Equivalent(w, a, b) <==> Equivalent(v, a, b);
    forall p, q | (p, q) in edges ensures Before(w, p, q) {
      BeforeWithEdge(v, from, to, p, q);
      assert (p, q) in raw.edges ==> Before(v, p, q);
      BridgedItself(v, from, to);
    }
    forall a, b ensures (a, b) in w.edges <==> IsEdgeOf(w, edges, a, b) {
      assert (a, b) in v.edges <==> IsEdgeOf(v, raw.edges, a, b);
      assert (from, to) in edges;
      if IsEdgeOf(v, raw.edges, a, b) {
        var p, q :| (p, q) in raw.edges && Rep(v, p) == a && Rep(v, q) == b;
        assert (p, q) in edges;
      }
    }
  }

  lemma BridgedItself(v: View, from: EventID, to: EventID)
    requires from in v.contents && to in v.contents
    ensures Bridged(v, from, to, from, to)
  {
    assert Reach(v.edges, Rep(v, from), Rep(v, from)) && Reach(v.edges, Rep(v, to), Rep(v, to));
  }

  lemma ClassJoinsNoMore(v: View, raw: Raw, ids: set<EventID>, g: map<EventID, EventID>, a: EventID, b: EventID)
    requires Shaped(v) && Generated(v, raw) && ids != {} && ids <= v.contents.Keys
    requires g.Keys == v.contents.Keys && Coarser(raw.classes + {ids}, g)
    requires Equivalent(WithClass(v, Heads(v, ids)), a, b)
    ensures g[a] == g[b]
  {
    hide Shaped, Before, IsEdgeOf, WithClass, Joins;
    HeadsAreHeads(v, ids);
    WithClassContents(v, Heads(v, ids));
    WithClassRep(v, Heads(v, ids), a);
    WithClassRep(v, Heads(v, ids), b);
    assert Coarser(raw.classes, g) by {
      forall c, x, y | c in raw.classes && x in c && y in c && x in g && y in g ensures g[x] == g[y] {
        assert c in raw.classes + {ids};
      }
    }
    if Rep(v, a) == Rep(v, b) {
      assert Equivalent(v, a, b);
    } else {
      assert Inside(v, Heads(v, ids), a) && Inside(v, Heads(v, ids), b);
      InsideMember(v, ids, a);
      InsideMember(v, ids, b);
      var p :| p in ids && Equivalent(v, a, p);
      var q :| q in ids && Equivalent(v, b, q);
      assert ids in raw.classes + {ids};
      assert g[p] == g[q];
    }
  }

  lemma ClassJoins(v: View, raw: Raw, ids: set<EventID>)
    requires Consistent(v) && Generated(v, raw) && ClassFits(v, ids)
    ensures Joins(WithClass(v, Heads(v, ids)), raw.classes + {ids})
  {
    hide Consistent, Before, IsEdgeOf, WithClass, LeastHead, JoinsNoMore, Unordered;
    ConsistentShaped(v);
    HeadsAreHeads(v, ids);
    var w := WithClass(v, Heads(v, ids));
    WithClassContents(v, Heads(v, ids));
    forall c, a, b | c in raw.classes + {ids} && a in c && b in c ensures Equivalent(w, a, b) {
      assert c in raw.classes ==> Equivalent(v, a, b);
      WithClassRep(v, Heads(v, ids), a);
      WithClassRep(v, Heads(v, ids), b);
      if c !in raw.classes {
        assert Rep(v, a) in Heads(v, ids) && Rep(v, b) in Heads(v, ids);
      }
    }
  }

  lemma ClassEdges(v: View, raw: Raw, ids: set<EventID>, a: EventID, b: EventID)
    requires Consistent(v) && Generated(v, raw) && ClassFits(v, ids)
    ensures var w := WithClass(v, Heads(v, ids)); (a, b) in w.edges <==> IsEdgeOf(w, raw.edges, a, b)
  {
    hide Consistent, Reach, LeastHead, Heads, Joins, JoinsNoMore, Equivalent, AtMost;
    ConsistentShaped(v);
    HeadsAreHeads(v, ids);
    var heads := Heads(v, ids);
    var f, w := Collapse(heads), WithClass(v, heads);
    if (a, b) in w.edges {
      var e :| e in v.edges && Apply(f, e.0) == a && Apply(f, e.1) == b;
      assert (e.0, e.1) in v.edges;
      var p, q :| (p, q) in raw.edges && Rep(v, p) == e.0 && Rep(v, q) == e.1;
      assert Before(v, p, q);
      WithClassRep(v, heads, p);
      WithClassRep(v, heads, q);
      assert Rep(w, p) == a && Rep(w, q) == b;
    }
    if IsEdgeOf(w, raw.edges, a, b) {
      var p, q :| (p, q) in raw.edges && Rep(w, p) == a && Rep(w, q) == b;
      assert Before(v, p, q);
      BeforeWithClass(v, heads, p, q);
      WithClassRep(v, heads, p);
      WithClassRep(v, heads, q);
      assert IsEdgeOf(v, raw.edges, Rep(v, p), Rep(v, q));
      ImageEdge(v.edges, f, Rep(v, p), Rep(v, q));
    }
  }

  lemma ClassGenerated(v: View, raw: Raw, ids: set<EventID>)
    requires Consistent(v) && Generated(v, raw) && ClassFits(v, ids)
    ensures Generated(WithClass(v, Heads(v, ids)), raw.(classes := raw.classes + {ids}))
  {
    hide Consistent, Unordered, WithClass, LeastHead, Joins, IsEdgeOf, Coarser;
    ConsistentShaped(v);
    HeadsAreHeads(v, ids);
    var heads := Heads(v, ids);
    var w := WithClass(v, heads);
    WithClassContents(v, heads);
    ClassJoins(v, raw, ids);
    forall g: map<EventID, EventID>, a, b
      | g.Keys == w.contents.Keys && Coarser(raw.classes + {ids}, g) && Equivalent(w, a, b)
      ensures g[a] == g[b]
    {
      ClassJoinsNoMore(v, raw, ids, g, a, b);
    }
    forall p, q | (p, q) in raw.edges ensures Before(w, p, q) {
      BeforeWithClass(v, heads, p, q);
    }
    forall a, b ensures (a, b) in w.edges <==> IsEdgeOf(w, raw.edges, a, b) {
      ClassEdges(v, raw, ids, a, b);
    }
  }

  // ----- Operations a common view vouches for never fail -----

  lemma EdgeVouched(v: View, u: View, from: EventID, to: EventID)
    requires Consistent(v) && Consistent(u) && Within(v, u)
    requires from in v.contents && to in v.contents && Before(u, from, to)
    ensures EdgeFits(v, from, to) && Within(WithEdge(v, from, to), u)
  {
    hide Consistent, Reach, Conflict;
    var w := WithEdge(v, from, to);
    assert !Equivalent(v, from, to);
    if Leq(v, to, from) {
      WithinLeq(v, u, to, from);
      BeforeIsStrictOrder(u, from, to, from);
    }
    forall a, b | Bridged(v, from, to, a, b) ensures Before(u, a, b) && !Clashing(v, a, b) {
      WithinLeq(v, u, a, from);
      WithinLeq(v, u, to, b);
      BeforeIsStrictOrder(u, a, from, to);
      BeforeIsStrictOrder(u, a, to, b);
      OrderedNeverClash(u, a, b);
      ClashingKept(v, u, a, b);
    }
    EdgeConsistentIff(v, from, to);
    forall a, b | Before(w, a, b) ensures Before(u, a, b) {
      BeforeWithEdge(v, from, to, a, b);
    }
    forall a, b | Equivalent(w, a, b) ensures Equivalent(u, a, b) {
      assert Equivalent(v, a, b);
    }
  }

  lemma OrderedNeverClash(u: View, a: EventID, b: EventID)
    requires Consistent(u) && Before(u, a, b)
    ensures !Clashing(u, a, b)
  {}

  lemma MergedInCommonView(v: View, u: View, ids: set<EventID>, a: EventID, b: EventID)
    requires Consistent(v) && Consistent(u) && Within(v, u)
    requires ids != {} && ids <= v.contents.Keys && forall x, y :: x in ids && y in ids ==> Equivalent(u, x, y)
    requires Unordered(v.edges, Heads(v, ids))
    ensures var w := WithClass(v, Heads(v, ids));
            (Equivalent(w, a, b) ==> Equivalent(u, a, b)) && (Before(w, a, b) ==> Before(u, a, b))
  {
    hide Consistent, Unordered, WithClass;
    var heads := Heads(v, ids);
    ConsistentShaped(v);
    HeadsAreHeads(v, ids);
    WithClassContents(v, heads);
    if a in v.contents && b in v.contents {
      WithClassRep(v, heads, a);
      WithClassRep(v, heads, b);
      BeforeWithClass(v, heads, a, b);
      MergedCases(v, u, ids, a, b);
    }
  }

  lemma MergedCases(v: View, u: View, ids: set<EventID>, a: EventID, b: EventID)
    requires Consistent(v) && Consistent(u) && Within(v, u)
    requires ids != {} && ids <= v.contents.Keys && forall x, y :: x in ids && y in ids ==> Equivalent(u, x, y)
    requires a in v.contents && b in v.contents
    ensures Rep(v, a) == Rep(v, b) ==> Equivalent(u, a, b)
    ensures Rep(v, a) in Heads(v, ids) && Rep(v, b) in Heads(v, ids) ==> Equivalent(u, a, b)
    ensures Leq(v, a, b) && Rep(v, a) != Rep(v, b) ==> Before(u, a, b)
    ensures Through(v, Heads(v, ids), a, b) ==>
              Before(u, a, b) || (Rep(v, a) in Heads(v, ids) && Rep(v, b) in Heads(v, ids))
  {
    hide Consistent, Reach, Clashing;
    var heads := Heads(v, ids);
    assert Rep(v, a) == Rep(v, b) ==> Equivalent(v, a, b);
    if Rep(v, a) in heads && Rep(v, b) in heads {
      var p :| p in ids && Rep(v, p) == Rep(v, a);
      var q :| q in ids && Rep(v, q) == Rep(v, b);
      assert Equivalent(v, a, p) && Equivalent(v, q, b);
      assert Equivalent(u, p, q);
    }
    assert Leq(v, a, b) && Rep(v, a) != Rep(v, b) ==> Before(v, a, b);
    if Through(v, heads, a, b) {
      var r, s :| r in heads && s in heads && Reach(v.edges, Rep(v, a), r) && Reach(v.edges, s, Rep(v, b));
      var x :| x in ids && Rep(v, x) == r;
      var y :| y in ids && Rep(v, y) == s;
      ThroughInCommonView(v, u, a, x, y, b);
    }
  }

  lemma ThroughInCommonView(v: View, u: View, a: EventID, x: EventID, y: EventID, b: EventID)
    requires Consistent(v) && Consistent(u) && Within(v, u)
    requires Leq(v, a, x) && Equivalent(u, x, y) && Leq(v, y, b)
    ensures Before(u, a, b) || (Rep(v, a) == Rep(v, x) && Rep(v, b) == Rep(v, y))
  {
    hide Consistent, Reach;
    EquivalentLeq(u, x, y);
    WithinLeq(v, u, a, x);
    WithinLeq(v, u, y, b);
    BeforeIsStrictOrder(u, a, x, y);
    BeforeIsStrictOrder(u, a, y, b);
    BeforeIsStrictOrder(u, x, y, b);
    BeforeIsStrictOrder(u, a, x, b);
    assert Rep(v, a) != Rep(v, x) ==> Before(v, a, x);
    assert Rep(v, b) != Rep(v, y) ==> Before(v, y, b);
  }

  lemma ClassVouched(v: View, u: View, ids: set<EventID>)
    requires Consistent(v) && Consistent(u) && Within(v, u)
    requires ids != {} && ids <= v.contents.Keys && forall x, y :: x in ids && y in ids ==> Equivalent(u, x, y)
    ensures ClassFits(v, ids) && Within(WithClass(v, Heads(v, ids)), u)
  {
    hide Consistent, Reach, Unordered, WithClass, Equivalent, Heads;
    var heads := Heads(v, ids);
    var w := WithClass(v, heads);
    ConsistentShaped(v);
    HeadsAreHeads(v, ids);
    WithClassContents(v, heads);
    UnorderedMembers(v, ids);
    forall x, y | x in ids && y in ids ensures !Before(v, x, y) {
      NeverBoth(u, x, y);
    }
    ClassConsistentIff(v, heads);
    forall a, b
      ensures Equivalent(w, a, b) ==> Equivalent(u, a, b)
      ensures Before(w, a, b) ==> Before(u, a, b)
    {
      MergedInCommonView(v, u, ids, a, b);
    }
    forall a, b | Before(w, a, b) ensures !Clashing(w, a, b) {
      OrderedNeverClash(u, a, b);
      ClashingKept(w, u, a, b);
    }
  }

  lemma NeverBoth(u: View, x: EventID, y: EventID)
    ensures !(Before(u, x, y) && Equivalent(u, x, y))
  {}

  /** The operation is accepted rather than refused. */
  ghost predicate Takes(v: View, op: Op) {
    match op
    case PutEvent(id, c) => true
    case PutClass(ids) => ClassFits(v, ids)
    case PutEdge(from, to) => from in v.contents && to in v.contents ==> EdgeFits(v, from, to)
  }

  /** One vouched-for operation takes effect, and its effect is the description's. */
  lemma VouchedStep(v: View, u: View, raw: Raw, op: Op)
    requires Consistent(v) && Consistent(u) && Within(v, u) && Generated(v, raw)
    requires Vouches(u, op) && Ready(v.contents.Keys, op)
    ensures Takes(v, op)
    ensures Consistent(After(v, op)) && Within(After(v, op), u)
    ensures Generated(After(v, op), RawAfter(raw, op))
  {
    hide Consistent, Reach, Canonical, WithClass, WithEdge, Generated;
    AfterConsistent(v, op);
    GeneratedContents(v, raw);
    match op
    case PutEvent(id, c) =>
      if id !in v.contents {
        EventGenerated(v, raw, id, c);
        EventVouched(v, u, id, c);
      }
    case PutClass(ids) =>
      ClassVouched(v, u, ids);
      ClassGenerated(v, raw, ids);
    case PutEdge(from, to) =>
      if from in v.contents && to in v.contents {
        assert from in u.contents && to in u.contents;
        EdgeVouched(v, u, from, to);
        EdgeGenerated(v, raw, from, to);
      }
  }

  lemma GeneratedContents(v: View, raw: Raw)
    requires Generated(v, raw)
    ensures v.contents == raw.contents
  {}

  lemma EventVouched(v: View, u: View, id: EventID, c: Content)
    requires Consistent(v) && Within(v, u) && id !in v.contents && id in u.contents && SameOccurrence(c, u.contents[id])
    ensures Within(WithEvent(v, id, c), u)
  {
    hide TimingRule, CanonicalTimings, Reach, AtMost, Canonical;
    var w := WithEvent(v, id, c);
    ConsistentShaped(v);
    forall a, b | Before(w, a, b) ensures Before(u, a, b) {
      BeforeWithEvent(v, id, c, a, b);
    }
    forall a, b | Equivalent(w, a, b) ensures Equivalent(u, a, b) {
      if a != id && b != id {
        assert Equivalent(v, a, b);
      } else if a != b {
        OwnClass(v, id, if a == id then b else a);
      }
    }
  }

  // ----- Runs -----

  ghost function RawRun(raw: Raw, ops: seq<Op>): Raw
    decreases |ops|
  {
    if ops == [] then raw else RawRun(RawAfter(raw, ops[0]), ops[1..])
  }

  ghost predicate ReadyRun(keys: set<EventID>, ops: seq<Op>)
    decreases |ops|
  {
    ops == [] ||
    (Ready(keys, ops[0]) && ReadyRun(if ops[0].PutEvent? then keys + {ops[0].id} else keys, ops[1..]))
  }

  ghost predicate VouchesAll(u: View, ops: seq<Op>) {
    forall i :: 0 <= i < |ops| ==> Vouches(u, ops[i])
  }

  ghost predicate TakesAll(v: View, ops: seq<Op>)
    decreases |ops|
  {
    ops == [] || (Takes(v, ops[0]) && TakesAll(After(v, ops[0]), ops[1..]))
  }

  lemma {:induction false} TakesAppend(v: View, xs: seq<Op>, ys: seq<Op>)
    requires TakesAll(v, xs + ys)
    ensures TakesAll(v, xs) && TakesAll(Run(v, xs), ys)
    decreases |xs|
  {
    if xs == [] {
      assert xs + ys == ys;
    } else {
      assert (xs + ys)[1..] == xs[1..] + ys;
      TakesAppend(After(v, xs[0]), xs[1..], ys);
    }
  }

  /** A run vouched for by a common view is accepted throughout and yields what it describes. */
  lemma {:induction false} VouchedRun(v: View, u: View, raw: Raw, ops: seq<Op>)
    requires Consistent(v) && Consistent(u) && Within(v, u) && Generated(v, raw)
    requires VouchesAll(u, ops) && ReadyRun(v.contents.Keys, ops)
    ensures TakesAll(v, ops)
    ensures Consistent(Run(v, ops)) && Within(Run(v, ops), u)
    ensures Generated(Run(v, ops), RawRun(raw, ops))
    decreases |ops|
  {
    if ops != [] {
      hide Consistent, Within, Generated, RawAfter, AfterClass, AfterEdge, Takes;
      VouchedStep(v, u, raw, ops[0]);
      VouchedKeys(v, u, ops[0]);
      assert VouchesAll(u, ops[1..]) by {
        forall i | 0 <= i < |ops[1..]| ensures Vouches(u, ops[1..][i]) {
          assert Vouches(u, ops[i + 1]);
        }
      }
      VouchedRun(After(v, ops[0]), u, RawAfter(raw, ops[0]), ops[1..]);
    }
  }

  lemma VouchedKeys(v: View, u: View, op: Op)
    requires Vouches(u, op)
    ensures After(v, op).contents.Keys == if op.PutEvent? then v.contents.Keys + {op.id} else v.contents.Keys
  {
    if !op.PutEvent? {
      AfterKeys(v, op);
    }
  }

  // ----- Descriptions -----

  /** What a snapshot states: occurrences, equivalence classes and direct edges. */
  datatype Description = Description(
    events: seq<(EventID, Content)>,
    classes: seq<set<EventID>>,
    edges: seq<(EventID, EventID)>)

  function EventOps(events: seq<(EventID, Content)>): seq<Op> {
    if events == [] then [] else [PutEvent(events[0].0, events[0].1)] + EventOps(events[1..])
  }

  function ClassOps(classes: seq<set<EventID>>): seq<Op> {
    if classes == [] then [] else [PutClass(classes[0])] + ClassOps(classes[1..])
  }

  function EdgeOps(edges: seq<(EventID, EventID)>): seq<Op> {
    if edges == [] then [] else [PutEdge(edges[0].0, edges[0].1)] + EdgeOps(edges[1..])
  }

  function MergeOps(d: Description): seq<Op> {
    EventOps(d.events) + (ClassOps(d.classes) + EdgeOps(d.edges))
  }

  function Ids(events: seq<(EventID, Content)>): set<EventID> {
    set i | 0 <= i < |events| :: events[i].0
  }

  predicate Present(keys: set<EventID>, e: (EventID, EventID)) {
    e.0 in keys && e.1 in keys
  }

  function PresentOf(keys: set<EventID>, edges: seq<(EventID, EventID)>): set<(EventID, EventID)> {
    set e | e in edges && Present(keys, e)
  }

  /** u vouches for everything a description states, and its classes name occurrences it carries. */
  ghost predicate Describes(u: View, d: Description) {
    && (forall i :: 0 <= i < |d.events| ==> Vouches(u, PutEvent(d.events[i].0, d.events[i].1)))
    && (forall c :: c in d.classes ==> Vouches(u, PutClass(c)) && c <= Ids(d.events))
    && EdgesVouched(u, d.edges)
  }

  ghost predicate EdgesVouched(u: View, edges: seq<(EventID, EventID)>) {
    forall e :: e in edges ==> Vouches(u, PutEdge(e.0, e.1))
  }

  /** Known occurrences stay as they are; the others come as first stated. */
  ghost function Taken(contents: map<EventID, Content>, events: seq<(EventID, Content)>): (r: map<EventID, Content>)
    ensures r.Keys == contents.Keys + Ids(events)
    ensures forall id :: id in contents ==> r[id] == contents[id]
    ensures forall id :: id in r && id !in contents ==> (id, r[id]) in events
    decreases |events|
  {
    if events == [] then contents
    else
      IdsStep(events);
      Taken(if events[0].0 in contents then contents else contents[events[0].0 := events[0].1], events[1..])
  }

  ghost function RawMerge(raw: Raw, d: Description): Raw {
    Raw(Taken(raw.contents, d.events),
        raw.classes + Members(d.classes),
        raw.edges + PresentOf(raw.contents.Keys + Ids(d.events), d.edges))
  }

  lemma {:induction false} RawEvents(raw: Raw, events: seq<(EventID, Content)>)
    ensures RawRun(raw, EventOps(events)) == raw.(contents := Taken(raw.contents, events))
    decreases |events|
  {
    if events != [] {
      var ops := EventOps(events);
      assert ops[1..] == EventOps(events[1..]);
      RawEvents(RawAfter(raw, ops[0]), events[1..]);
    }
  }

  lemma IdsStep(events: seq<(EventID, Content)>)
    requires events != []
    ensures Ids(events) == {events[0].0} + Ids(events[1..])
  {
    forall id | id in Ids(events) ensures id in {events[0].0} + Ids(events[1..]) {
      var i :| 0 <= i < |events| && events[i].0 == id;
      assert i > 0 ==> events[1..][i - 1].0 == id;
    }
    forall id | id in Ids(events[1..]) ensures id in Ids(events) {
      var i :| 0 <= i < |events[1..]| && events[1..][i].0 == id;
      assert events[i + 1].0 == id;
    }
  }

  lemma {:induction false} RawClasses(raw: Raw, classes: seq<set<EventID>>)
    ensures RawRun(raw, ClassOps(classes)) == raw.(classes := raw.classes + Members(classes))
    decreases |classes|
  {
    if classes != [] {
      var ops := ClassOps(classes);
      assert ops[1..] == ClassOps(classes[1..]);
      assert Members(classes) == {classes[0]} + Members(classes[1..]) by {
        assert classes == [classes[0]] + classes[1..];
      }
      RawClasses(RawAfter(raw, ops[0]), classes[1..]);
    }
  }

  lemma {:induction false} RawEdges(raw: Raw, edges: seq<(EventID, EventID)>)
    ensures RawRun(raw, EdgeOps(edges)) == raw.(edges := raw.edges + PresentOf(raw.contents.Keys, edges))
    decreases |edges|
  {
    if edges != [] {
      var ops := EdgeOps(edges);
      assert ops[1..] == EdgeOps(edges[1..]);
      assert PresentOf(raw.contents.Keys, edges) ==
             (if Present(raw.contents.Keys, edges[0]) then {edges[0]} else {}) + PresentOf(raw.contents.Keys, edges[1..]) by {
        assert edges == [edges[0]] + edges[1..];
      }
      RawEdges(RawAfter(raw, ops[0]), edges[1..]);
    }
  }

  lemma {:induction false} RawAppend(raw: Raw, xs: seq<Op>, ys: seq<Op>)
    ensures RawRun(raw, xs + ys) == RawRun(RawRun(raw, xs), ys)
    decreases |xs|
  {
    if xs == [] {
      assert xs + ys == ys;
    } else {
      assert (xs + ys)[1..] == xs[1..] + ys;
      RawAppend(RawAfter(raw, xs[0]), xs[1..], ys);
    }
  }

  lemma RawMerges(raw: Raw, d: Description)
    ensures RawRun(raw, MergeOps(d)) == RawMerge(raw, d)
  {
    var r1 := RawRun(raw, EventOps(d.events));
    RawEvents(raw, d.events);
    RawAppend(raw, EventOps(d.events), ClassOps(d.classes) + EdgeOps(d.edges));
    RawAppend(r1, ClassOps(d.classes), EdgeOps(d.edges));
    RawClasses(r1, d.classes);
    RawEdges(RawRun(r1, ClassOps(d.classes)), d.edges);
  }

  // ----- Replicas -----

  /** A poset and the edges it has heard of whose endpoints it does not yet know. */
  datatype Replica = Replica(view: View, pending: seq<(EventID, EventID)>)

  /** Edges with an unknown endpoint join the pending list once. */
  function WithMissing(
      keys: set<EventID>, pending: seq<(EventID, EventID)>, edges: seq<(EventID, EventID)>): seq<(EventID, EventID)>
    decreases |edges|
  {
    if edges == [] then pending
    else
      WithMissing(keys, if Present(keys, edges[0]) || edges[0] in pending then pending else pending + [edges[0]], edges[1..])
  }

  ghost function MergeInto(r: Replica, d: Description): Replica {
    var v := Run(r.view, MergeOps(d));
    Replica(v, WithMissing(v.contents.Keys, r.pending, d.edges))
  }

  function StillMissing(keys: set<EventID>, pending: seq<(EventID, EventID)>): seq<(EventID, EventID)> {
    if pending == [] then []
    else (if Present(keys, pending[0]) then [] else [pending[0]]) + StillMissing(keys, pending[1..])
  }

  /** DrainPendingEdges: edges whose endpoints have arrived are tried and dropped. */
  ghost function Drain(r: Replica): Replica {
    Replica(Run(r.view, EdgeOps(r.pending)), StillMissing(r.view.contents.Keys, r.pending))
  }

  lemma {:induction false} MissingMembers(
      keys: set<EventID>, pending: seq<(EventID, EventID)>, edges: seq<(EventID, EventID)>)
    ensures Members(WithMissing(keys, pending, edges)) ==
            Members(pending) + set e | e in edges && !Present(keys, e)
    decreases |edges|
  {
    if edges != [] {
      var next := if Present(keys, edges[0]) || edges[0] in pending then pending else pending + [edges[0]];
      MissingMembers(keys, next, edges[1..]);
      assert edges == [edges[0]] + edges[1..];
    }
  }

  lemma {:induction false} StillMissingMembers(keys: set<EventID>, pending: seq<(EventID, EventID)>)
    ensures Members(StillMissing(keys, pending)) == set e | e in pending && !Present(keys, e)
    decreases |pending|
  {
    if pending != [] {
      StillMissingMembers(keys, pending[1..]);
      var rest := StillMissing(keys, pending[1..]);
      assert pending == [pending[0]] + pending[1..];
      assert [] + rest == rest;
      assert Members([pending[0]] + rest) == {pending[0]} + Members(rest);
    }
  }

  // ----- Descriptions are ready and vouched for -----

  lemma {:induction false} EventOpsVouched(u: View, events: seq<(EventID, Content)>)
    requires forall i :: 0 <= i < |events| ==> Vouches(u, PutEvent(events[i].0, events[i].1))
    ensures VouchesAll(u, EventOps(events))
    decreases |events|
  {
    if events != [] {
      EventOpsVouched(u, events[1..]);
      VouchesCons(u, PutEvent(events[0].0, events[0].1), EventOps(events[1..]));
    }
  }

  lemma {:induction false} ClassOpsVouched(u: View, classes: seq<set<EventID>>)
    requires forall c :: c in classes ==> Vouches(u, PutClass(c))
    ensures VouchesAll(u, ClassOps(classes))
    decreases |classes|
  {
    if classes != [] {
      ClassOpsVouched(u, classes[1..]);
      VouchesCons(u, PutClass(classes[0]), ClassOps(classes[1..]));
    }
  }

  lemma {:induction false} EdgeOpsVouched(u: View, edges: seq<(EventID, EventID)>)
    requires EdgesVouched(u, edges)
    ensures VouchesAll(u, EdgeOps(edges))
    decreases |edges|
  {
    if edges != [] {
      EdgeOpsVouched(u, edges[1..]);
      VouchesCons(u, PutEdge(edges[0].0, edges[0].1), EdgeOps(edges[1..]));
    }
  }

  lemma VouchesCons(u: View, op: Op, ops: seq<Op>)
    requires Vouches(u, op) && VouchesAll(u, ops)
    ensures VouchesAll(u, [op] + ops)
  {}

  lemma VouchesAppend(u: View, xs: seq<Op>, ys: seq<Op>)
    requires VouchesAll(u, xs) && VouchesAll(u, ys)
    ensures VouchesAll(u, xs + ys)
  {}

  lemma {:induction false} ReadyAfterEvents(keys: set<EventID>, events: seq<(EventID, Content)>, rest: seq<Op>)
    requires ReadyRun(keys + Ids(events), rest)
    ensures ReadyRun(keys, EventOps(events) + rest)
    decreases |events|
  {
    if events == [] {
      assert keys + Ids(events) == keys;
      assert EventOps(events) + rest == rest;
    } else {
      IdsStep(events);
      assert keys + Ids(events) == keys + {events[0].0} + Ids(events[1..]);
      ReadyAfterEvents(keys + {events[0].0}, events[1..], rest);
      assert (EventOps(events) + rest)[1..] == EventOps(events[1..]) + rest;
    }
  }

  lemma {:induction false} ReadyClassesEdges(
      keys: set<EventID>, classes: seq<set<EventID>>, edges: seq<(EventID, EventID)>)
    requires forall c :: c in classes ==> c <= keys
    ensures ReadyRun(keys, ClassOps(classes) + EdgeOps(edges))
    decreases |classes|
  {
    if classes == [] {
      ReadyEdges(keys, edges);
      assert ClassOps(classes) + EdgeOps(edges) == EdgeOps(edges);
    } else {
      hide ReadyRun, ClassOps, EdgeOps;
      ReadyClassesEdges(keys, classes[1..], edges);
      assert classes[0] in classes;
      ClassOpsHead(classes);
      var rest := ClassOps(classes[1..]) + EdgeOps(edges);
      assert ClassOps(classes) + EdgeOps(edges) == [PutClass(classes[0])] + rest;
      ReadyCons(keys, PutClass(classes[0]), rest);
    }
  }

  lemma ClassOpsHead(classes: seq<set<EventID>>)
    requires classes != []
    ensures ClassOps(classes) == [PutClass(classes[0])] + ClassOps(classes[1..])
  {}

  lemma ReadyCons(keys: set<EventID>, op: Op, ops: seq<Op>)
    requires !op.PutEvent? && Ready(keys, op) && ReadyRun(keys, ops)
    ensures ReadyRun(keys, [op] + ops)
  {
    assert ([op] + ops)[1..] == ops;
  }

  lemma {:induction false} ReadyEdges(keys: set<EventID>, edges: seq<(EventID, EventID)>)
    ensures ReadyRun(keys, EdgeOps(edges))
    decreases |edges|
  {
    if edges != [] {
      ReadyEdges(keys, edges[1..]);
      assert EdgeOps(edges)[1..] == EdgeOps(edges[1..]);
    }
  }

  // ----- The invariant of a replica of a common view -----

  ghost predicate ReplicaOf(r: Replica, u: View, raw: Raw) {
    && Consistent(r.view) && Within(r.view, u) && Generated(r.view, raw) && EdgesVouched(u, r.pending)
  }

  lemma MergeReplica(r: Replica, u: View, raw: Raw, d: Description)
    requires Consistent(u) && ReplicaOf(r, u, raw) && Describes(u, d)
    ensures TakesAll(r.view, MergeOps(d))
    ensures ReplicaOf(MergeInto(r, d), u, RawMerge(raw, d))
    ensures MergeInto(r, d).view.contents.Keys == r.view.contents.Keys + Ids(d.events)
  {
    hide Consistent, Generated, TakesAll;
    GeneratedContents(r.view, raw);
    var keys := r.view.contents.Keys;
    ReadyClassesEdges(keys + Ids(d.events), d.classes, d.edges);
    ReadyAfterEvents(keys, d.events, ClassOps(d.classes) + EdgeOps(d.edges));
    EventOpsVouched(u, d.events);
    ClassOpsVouched(u, d.classes);
    EdgeOpsVouched(u, d.edges);
    VouchesAppend(u, ClassOps(d.classes), EdgeOps(d.edges));
    VouchesAppend(u, EventOps(d.events), ClassOps(d.classes) + EdgeOps(d.edges));
    VouchedRun(r.view, u, raw, MergeOps(d));
    RawMerges(raw, d);
    GeneratedContents(Run(r.view, MergeOps(d)), RawMerge(raw, d));
    var m := MergeInto(r, d);
    MissingMembers(m.view.contents.Keys, r.pending, d.edges);
    forall e | e in m.pending ensures Vouches(u, PutEdge(e.0, e.1)) {
      assert e in Members(m.pending);
    }
  }

  ghost function RawDrain(raw: Raw, pending: seq<(EventID, EventID)>): Raw {
    raw.(edges := raw.edges + PresentOf(raw.contents.Keys, pending))
  }

  lemma DrainReplica(r: Replica, u: View, raw: Raw)
    requires Consistent(u) && ReplicaOf(r, u, raw)
    ensures ReplicaOf(Drain(r), u, RawDrain(raw, r.pending))
  {
    hide Consistent, Generated, TakesAll;
    ReadyEdges(r.view.contents.Keys, r.pending);
    EdgeOpsVouched(u, r.pending);
    VouchedRun(r.view, u, raw, EdgeOps(r.pending));
    RawEdges(raw, r.pending);
    StillMissingMembers(r.view.contents.Keys, r.pending);
    forall e | e in Drain(r).pending ensures Vouches(u, PutEdge(e.0, e.1)) {
      assert e in Members(Drain(r).pending);
    }
  }

  ghost function MergeBoth(r: Replica, d: Description, e: Description): Replica {
    Drain(MergeInto(MergeInto(r, d), e))
  }

  /** Everything both descriptions and the replica's pending edges contribute, as sets; new
      occurrences come as first stated. */
  ghost function RawBoth(r: Replica, raw: Raw, d: Description, e: Description): Raw {
    var keys := r.view.contents.Keys + Ids(d.events) + Ids(e.events);
    Raw(Taken(Taken(raw.contents, d.events), e.events),
        raw.classes + Members(d.classes) + Members(e.classes),
        raw.edges + PresentOf(keys, d.edges) + PresentOf(keys, e.edges) + PresentOf(keys, r.pending))
  }

  /** The two descriptions state the same of every occurrence both list. */
  ghost predicate StateAlike(d: seq<(EventID, Content)>, e: seq<(EventID, Content)>) {
    forall id, c, k :: (id, c) in d + e && (id, k) in d + e ==> c == k
  }

  lemma TakenFrom(contents: map<EventID, Content>, d: seq<(EventID, Content)>, e: seq<(EventID, Content)>, id: EventID)
    requires id in Taken(Taken(contents, d), e)
    ensures id in contents ==> Taken(Taken(contents, d), e)[id] == contents[id]
    ensures id !in contents ==> (id, Taken(Taken(contents, d), e)[id]) in d + e
  {
    hide Taken, Ids;
  }

  /** Then it does not matter which comes first. */
  lemma TakenEitherWay(contents: map<EventID, Content>, d: seq<(EventID, Content)>, e: seq<(EventID, Content)>)
    requires StateAlike(d, e)
    ensures Taken(Taken(contents, d), e) == Taken(Taken(contents, e), d)
  {
    hide Taken, Ids;
    var x, y := Taken(Taken(contents, d), e), Taken(Taken(contents, e), d);
    assert x.Keys == y.Keys;
    forall id | id in x ensures x[id] == y[id] {
      TakenFrom(contents, d, e, id);
      TakenFrom(contents, e, d, id);
      if id !in contents {
        assert (id, x[id]) in d + e && (id, y[id]) in d + e;
      }
    }
  }

  lemma PendingBoth(
      keys1: set<EventID>, keys2: set<EventID>, pending: seq<(EventID, EventID)>,
      d: seq<(EventID, EventID)>, e: seq<(EventID, EventID)>)
    requires keys1 <= keys2
    ensures var p2 := WithMissing(keys2, WithMissing(keys1, pending, d), e);
            && PresentOf(keys1, d) + PresentOf(keys2, e) + PresentOf(keys2, p2) ==
               PresentOf(keys2, d) + PresentOf(keys2, e) + PresentOf(keys2, pending)
            && Members(StillMissing(keys2, p2)) ==
               set x | x in Members(pending) + Members(d) + Members(e) && !Present(keys2, x)
  {
    var p1 := WithMissing(keys1, pending, d);
    var p2 := WithMissing(keys2, p1, e);
    MissingMembers(keys1, pending, d);
    MissingMembers(keys2, p1, e);
    StillMissingMembers(keys2, p2);
    assert forall x :: x in p1 <==> x in Members(p1);
    assert forall x :: x in p2 <==> x in Members(p2);
  }

  lemma MergeBothRaw(r: Replica, u: View, raw: Raw, d: Description, e: Description)
    requires Consistent(u) && ReplicaOf(r, u, raw) && Describes(u, d) && Describes(u, e)
    ensures ReplicaOf(MergeBoth(r, d, e), u, RawBoth(r, raw, d, e))
    ensures Members(MergeBoth(r, d, e).pending) ==
              var keys := r.view.contents.Keys + Ids(d.events) + Ids(e.events);
              set x | x in Members(r.pending) + Members(d.edges) + Members(e.edges) && !Present(keys, x)
  {
    hide Consistent, Generated, Within, EdgesVouched, Describes, MergeOps, Present, PresentOf;
    var m1, raw1 := MergeInto(r, d), RawMerge(raw, d);
    MergeReplica(r, u, raw, d);
    var m2, raw2 := MergeInto(m1, e), RawMerge(raw1, e);
    MergeReplica(m1, u, raw1, e);
    DrainReplica(m2, u, raw2);
    GeneratedContents(r.view, raw);
    GeneratedContents(m1.view, raw1);
    GeneratedContents(m2.view, raw2);
    PendingBoth(m1.view.contents.Keys, m2.view.contents.Keys, r.pending, d.edges, e.edges);
    assert RawDrain(raw2, m2.pending) == RawBoth(r, raw, d, e);
  }

  lemma RawBothEither(r: Replica, raw: Raw, d: Description, e: Description)
    requires StateAlike(d.events, e.events)
    ensures RawBoth(r, raw, d, e) == RawBoth(r, raw, e, d)
  {
    hide Taken, StateAlike, PresentOf, Ids;
    TakenEitherWay(raw.contents, d.events, e.events);
    var keys := r.view.contents.Keys + Ids(d.events) + Ids(e.events);
    assert keys == r.view.contents.Keys + Ids(e.events) + Ids(d.events);
  }

  /** Convergence: replicas of one common view that merge two of its descriptions and drain
      agree on every occurrence, class, edge and pending edge, whichever came first.  The
      descriptions may state occurrences in other roles than the view or the replica holds. */
  lemma MergesConverge(r: Replica, u: View, raw: Raw, d: Description, e: Description)
    requires Consistent(u) && ReplicaOf(r, u, raw) && Describes(u, d) && Describes(u, e) && StateAlike(d.events, e.events)
    ensures MergeBoth(r, d, e).view == MergeBoth(r, e, d).view
    ensures Members(MergeBoth(r, d, e).pending) == Members(MergeBoth(r, e, d).pending)
  {
    hide Consistent, Generated, Within, EdgesVouched, Describes, MergeBoth, PresentOf, StateAlike, RawBoth, Ids;
    MergeBothRaw(r, u, raw, d, e);
    MergeBothRaw(r, u, raw, e, d);
    RawBothEither(r, raw, d, e);
    assert r.view.contents.Keys + Ids(d.events) + Ids(e.events) == r.view.contents.Keys + Ids(e.events) + Ids(d.events);
    ReplicaShaped(MergeBoth(r, d, e), u, RawBoth(r, raw, d, e));
    ReplicaShaped(MergeBoth(r, e, d), u, RawBoth(r, raw, d, e));
    GeneratedUnique(MergeBoth(r, d, e).view, MergeBoth(r, e, d).view, RawBoth(r, raw, d, e));
  }

  lemma ReplicaShaped(r: Replica, u: View, raw: Raw)
    requires ReplicaOf(r, u, raw)
    ensures Shaped(r.view) && Generated(r.view, raw)
  {
    hide Generated, Within, EdgesVouched;
    ConsistentShaped(r.view);
  }

  // ----- A view described in full is rebuilt exactly -----

  ghost function ClassOf(v: View, id: EventID): set<EventID> {
    set x | x in v.contents && Rep(v, x) == Rep(v, id)
  }

  /** Every occurrence, every class of two or more, every edge, in any order. */
  ghost predicate DescribesFully(v: View, d: Description) {
    && (forall i :: 0 <= i < |d.events| ==> d.events[i].0 in v.contents && v.contents[d.events[i].0] == d.events[i].1)
    && Ids(d.events) == v.contents.Keys
    && (forall c :: c in d.classes <==> exists id :: id in v.contents && c == ClassOf(v, id) && c != {id})
    && Members(d.edges) == v.edges
  }

  lemma FullJoins(v: View, d: Description)
    requires Shaped(v) && DescribesFully(v, d)
    ensures Joins(v, Members(d.classes)) && JoinsNoMore(v, Members(d.classes))
  {
    hide CanonicalTimings, AtMost, EdgesJoinHeads;
    forall g: map<EventID, EventID>, a, b
      | g.Keys == v.contents.Keys && Coarser(Members(d.classes), g) && Equivalent(v, a, b)
      ensures g[a] == g[b]
    {
      if a != b {
        var c := ClassOf(v, a);
        assert a in c && b in c && c != {a};
        assert c in d.classes;
      }
    }
  }

  lemma OwnEdges(v: View)
    requires Consistent(v)
    ensures forall p, q :: (p, q) in v.edges ==> Before(v, p, q) && Rep(v, p) == p && Rep(v, q) == q
    ensures forall a, b :: (a, b) in v.edges <==> IsEdgeOf(v, v.edges, a, b)
  {
    hide TimingRule, CanonicalTimings, AtMost, Reach, Before;
    forall p, q | (p, q) in v.edges ensures Before(v, p, q) && Rep(v, p) == p && Rep(v, q) == q {
      assert IsHead(v, p) && IsHead(v, q);
      EdgeOrders(v, p, q);
    }
  }

  lemma SelfGenerated(v: View, d: Description)
    requires Consistent(v) && DescribesFully(v, d)
    ensures Generated(v, Raw(v.contents, Members(d.classes), v.edges))
  {
    hide TimingRule, CanonicalTimings, AtMost, Reach, Coarser, DescribesFully, Joins, JoinsNoMore, IsEdgeOf, Before, Headed, EdgesJoinHeads;
    FullJoins(v, d);
    OwnEdges(v);
  }

  lemma FullDescribes(v: View, d: Description)
    requires Consistent(v) && DescribesFully(v, d)
    ensures Describes(v, d)
  {
    hide TimingRule, AtMost, Reach, Acyclic, Headed, EdgesJoinHeads, Ids, Before;
    forall c | c in d.classes ensures Vouches(v, PutClass(c)) && c <= Ids(d.events) {
      var id :| id in v.contents && c == ClassOf(v, id) && c != {id};
      OwnClassVouched(v, id);
    }
    OwnEdges(v);
    forall e | e in d.edges ensures Vouches(v, PutEdge(e.0, e.1)) {
      assert e in Members(d.edges);
      assert (e.0, e.1) in v.edges;
    }
  }

  lemma OwnClassVouched(v: View, id: EventID)
    requires Shaped(v) && id in v.contents
    ensures Vouches(v, PutClass(ClassOf(v, id))) && ClassOf(v, id) <= v.contents.Keys
  {
    hide Headed, EdgesJoinHeads, CanonicalTimings;
    assert id in ClassOf(v, id);
  }

  /** Feeding a full description to an empty poset is accepted throughout and rebuilds the
      view: a snapshot or canonical form loses nothing, whatever order it is listed in. */
  lemma RebuildsExactly(v: View, d: Description)
    requires Consistent(v) && DescribesFully(v, d)
    ensures TakesAll(Empty, MergeOps(d))
    ensures MergeInto(Replica(Empty, []), d) == Replica(v, [])
  {
    hide TimingRule, Acyclic, Generated, Describes, TakesAll, Headed, EdgesJoinHeads, CanonicalTimings, MergeOps;
    var nothing := Raw(map[], {}, {});
    EmptyGenerated(v);
    FullDescribes(v, d);
    SelfGenerated(v, d);
    var r := Replica(Empty, []);
    EmptyConsistent();
    MergeReplica(r, v, nothing, d);
    ConsistentShaped(v);
    ConsistentShaped(MergeInto(r, d).view);
    var full := Raw(v.contents, Members(d.classes), v.edges);
    FullRaw(v, d);
    GeneratedUnique(MergeInto(r, d).view, v, full);
    MissingMembers(v.contents.Keys, [], d.edges);
    NothingMissing(v, d);
    MembersEmpty(MergeInto(r, d).pending);
  }

  lemma EmptyGenerated(v: View)
    ensures Generated(Empty, Raw(map[], {}, {})) && Within(Empty, v)
  {}

  lemma NothingMissing(v: View, d: Description)
    requires Consistent(v) && DescribesFully(v, d)
    ensures forall e :: e in d.edges ==> Present(v.contents.Keys, e)
    ensures (set e | e in d.edges && !Present(v.contents.Keys, e)) == {}
  {
    hide TimingRule, Acyclic, CanonicalTimings, AtMost;
    forall e | e in d.edges ensures Present(v.contents.Keys, e) {
      assert e in Members(d.edges);
      assert (e.0, e.1) in v.edges;
      assert IsHead(v, e.0) && IsHead(v, e.1);
    }
  }

  lemma FullRaw(v: View, d: Description)
    requires Consistent(v) && DescribesFully(v, d)
    ensures RawMerge(Raw(map[], {}, {}), d) == Raw(v.contents, Members(d.classes), v.edges)
  {
    hide Consistent;
    NothingMissing(v, d);
    var keys := Ids(d.events);
    assert PresentOf(keys, d.edges) == Members(d.edges);
  }
}
