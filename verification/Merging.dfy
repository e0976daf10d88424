/** Sequences of poset operations at the level of views: every run keeps the preorder
    consistent and forgets no ordering, repeating a run changes nothing, and runs that
    describe one computation reach the same view in any order. */
module Merging {
  import opened Texts
  import opened Timings
  import opened Reachability
  import opened CausalOrder
  import opened Operations
  import opened EmptyIdentity

  datatype Op =
    | PutEvent(id: EventID, content: Content)
    | PutClass(ids: set<EventID>)
    | PutEdge(from: EventID, to: EventID)

  ghost function AfterEvent(v: View, id: EventID, c: Content): View {
    if id in v.contents || !Canonical(c.timings) then v else WithEvent(v, id, c)
  }

  ghost function After(v: View, op: Op): View {
    match op
    case PutEvent(id, c) => AfterEvent(v, id, c)
    case PutClass(ids) => AfterClass(v, ids)
    case PutEdge(from, to) => AfterEdge(v, from, to)
  }

  ghost function Run(v: View, ops: seq<Op>): View
    decreases |ops|
  {
    if ops == [] then v else Run(After(v, ops[0]), ops[1..])
  }

  lemma {:induction false} RunAppend(v: View, xs: seq<Op>, ys: seq<Op>)
    ensures Run(v, xs + ys) == Run(Run(v, xs), ys)
    decreases |xs|
  {
    if xs == [] {
      assert xs + ys == ys;
    } else {
      assert (xs + ys)[1..] == xs[1..] + ys;
      RunAppend(After(v, xs[0]), xs[1..], ys);
    }
  }

  // ----- Every run keeps the preorder consistent and forgets nothing -----

  lemma AfterConsistent(v: View, op: Op)
    requires Consistent(v)
    ensures Consistent(After(v, op))
  {
    match op
    case PutEvent(id, c) =>
      if !(id in v.contents || !Canonical(c.timings)) {
        EventKeepsConsistent(v, id, c);
      }
    case PutClass(ids) =>
    case PutEdge(from, to) =>
  }

  /** w knows everything v knows: the same occurrences with the same content, every
      equivalence and every strict order. */
  ghost predicate Refines(v: View, w: View) {
    && v.contents.Keys <= w.contents.Keys
    && (forall id :: id in v.contents ==> w.contents[id] == v.contents[id])
    && (forall a, b :: Equivalent(v, a, b) ==> Equivalent(w, a, b))
    && (forall a, b :: Before(v, a, b) ==> Before(w, a, b))
  }

  /** ... and every direct edge, renamed to the current heads. */
  ghost predicate Extends(v: View, w: View) {
    Refines(v, w) && forall a, b :: (a, b) in v.edges ==> (Rep(w, a), Rep(w, b)) in w.edges
  }

  /** The same occurrence, whatever roles it was observed in: what snapshotEventConflict compares. */
  ghost predicate SameOccurrence(c: Content, d: Content) {
    c.name == d.name && c.source == d.source && c.params == d.params && c.timings == d.timings && c.wallTime == d.wallTime
  }

  /** w tells of everything v tells of, possibly in other roles. */
  ghost predicate Within(v: View, w: View) {
    && v.contents.Keys <= w.contents.Keys
    && (forall id :: id in v.contents ==> SameOccurrence(v.contents[id], w.contents[id]))
    && (forall a, b :: Equivalent(v, a, b) ==> Equivalent(w, a, b))
    && (forall a, b :: Before(v, a, b) ==> Before(w, a, b))
  }

  lemma RefinesWithin(v: View, w: View)
    requires Refines(v, w)
    ensures Within(v, w)
  {
    hide Equivalent, Before;
  }

  lemma WithinLeq(v: View, w: View, a: EventID, b: EventID)
    requires Consistent(v) && Consistent(w) && Within(v, w) && Leq(v, a, b)
    ensures Leq(w, a, b)
  {
    hide Consistent, Reach;
    BeforeIsStrictOrder(v, a, b, b);
    BeforeIsStrictOrder(w, a, b, b);
  }

  lemma RefinesLeq(v: View, w: View, a: EventID, b: EventID)
    requires Consistent(v) && Consistent(w) && Refines(v, w) && Leq(v, a, b)
    ensures Leq(w, a, b)
  {
    hide Consistent, Leq;
    RefinesWithin(v, w);
    WithinLeq(v, w, a, b);
  }

  lemma EventExtends(v: View, id: EventID, c: Content)
    requires Consistent(v) && id !in v.contents
    ensures Extends(v, WithEvent(v, id, c))
  {
    hide Consistent, Shaped, Before, Reach;
    ConsistentShaped(v);
    EventEdgesStay(v, id, c);
    forall a, b | Before(v, a, b) ensures Before(WithEvent(v, id, c), a, b) {
      BeforeWithEvent(v, id, c, a, b);
    }
    EventKeepsClasses(v, id, c);
  }

  lemma EventKeepsClasses(v: View, id: EventID, c: Content)
    requires Shaped(v) && id !in v.contents
    ensures var w := WithEvent(v, id, c);
            (forall x :: x in v.contents ==> x in w.contents && w.contents[x] == v.contents[x]) &&
            forall a, b :: Equivalent(v, a, b) ==> Equivalent(w, a, b)
  {
    hide Headed, EdgesJoinHeads, CanonicalTimings, AtMost;
  }

  lemma EventEdgesStay(v: View, id: EventID, c: Content)
    requires Shaped(v) && id !in v.contents
    ensures forall a, b :: (a, b) in v.edges ==> (Rep(WithEvent(v, id, c), a), Rep(WithEvent(v, id, c), b)) in WithEvent(v, id, c).edges
  {
    hide Canonical, CanonicalTimings, AtMost;
    var w := WithEvent(v, id, c);
    forall a, b | (a, b) in v.edges ensures (Rep(w, a), Rep(w, b)) in w.edges {
      assert IsHead(v, a) && IsHead(v, b);
    }
  }

  lemma EdgeExtends(v: View, from: EventID, to: EventID)
    requires Consistent(v) && EdgeFits(v, from, to)
    ensures Extends(v, WithEdge(v, from, to))
  {
    hide TimingRule, CanonicalTimings, Reach, AtMost;
    var w := WithEdge(v, from, to);
    forall a, b | Before(v, a, b) ensures Before(w, a, b) {
      BeforeWithEdge(v, from, to, a, b);
    }
    forall a, b | (a, b) in v.edges ensures (Rep(w, a), Rep(w, b)) in w.edges {
      assert IsHead(v, a) && IsHead(v, b);
    }
  }

  lemma ClassExtends(v: View, ids: set<EventID>)
    requires Consistent(v) && ClassFits(v, ids)
    ensures Extends(v, WithClass(v, Heads(v, ids)))
  {
    hide TimingRule, CanonicalTimings, Reach, AtMost, LeastHead, Heads, Unordered;
    var heads := Heads(v, ids);
    var w := WithClass(v, heads);
    HeadsAreHeads(v, ids);
    forall a, b | a in v.contents && b in v.contents
      ensures Equivalent(v, a, b) ==> Equivalent(w, a, b)
      ensures Before(v, a, b) ==> Before(w, a, b)
    {
      BeforeWithClass(v, heads, a, b);
      WithClassRep(v, heads, a);
      WithClassRep(v, heads, b);
    }
    forall a, b | (a, b) in v.edges ensures (Rep(w, a), Rep(w, b)) in w.edges {
      assert IsHead(v, a) && IsHead(v, b);
      EdgeOrders(v, a, b);
      WithClassRep(v, heads, a);
      WithClassRep(v, heads, b);
      ImageEdge(v.edges, Collapse(heads), a, b);
    }
  }

  lemma AfterExtends(v: View, op: Op)
    requires Consistent(v)
    ensures Extends(v, After(v, op))
  {
    hide Consistent, Reach, WithClass, WithEdge, WithEvent;
    ExtendsItself(v);
    match op
    case PutEvent(id, c) =>
      if !(id in v.contents || !Canonical(c.timings)) {
        EventExtends(v, id, c);
      }
    case PutClass(ids) =>
      if ClassFits(v, ids) {
        ClassExtends(v, ids);
      }
    case PutEdge(from, to) =>
      if EdgeFits(v, from, to) {
        EdgeExtends(v, from, to);
      }
  }

  lemma ExtendsItself(v: View)
    requires Consistent(v)
    ensures Extends(v, v)
  {
    hide TimingRule, CanonicalTimings, Acyclic, AtMost;
    forall a, b | (a, b) in v.edges ensures (Rep(v, a), Rep(v, b)) in v.edges {
      assert IsHead(v, a) && IsHead(v, b);
    }
  }

  lemma ExtendsTransitive(u: View, v: View, w: View)
    requires Shaped(u) && Shaped(v) && Extends(u, v) && Extends(v, w)
    ensures Extends(u, w)
  {
    hide CanonicalTimings, Reach, AtMost;
    forall a, b | (a, b) in u.edges ensures (Rep(w, a), Rep(w, b)) in w.edges {
      assert IsHead(u, a) && IsHead(u, b);
      RepsAgree(v, w, a);
      RepsAgree(v, w, b);
    }
  }

  lemma RepsAgree(v: View, w: View, a: EventID)
    requires Shaped(v) && Refines(v, w) && a in v.contents
    ensures Rep(v, a) in v.contents && Rep(w, Rep(v, a)) == Rep(w, a)
  {
    hide CanonicalTimings, EdgesJoinHeads, Reach, AtMost;
    assert IsHead(v, v.cls[a]);
    assert Equivalent(v, Rep(v, a), a);
    assert Equivalent(w, Rep(v, a), a);
  }

  /** Somewhere along the run an accepted merger joins the empty identity with another class. */
  ghost predicate EverJoinsEmpty(v: View, ops: seq<Op>)
    decreases |ops|
  {
    ops != [] && ((ops[0].PutClass? && JoinsEmpty(v, ops[0].ids)) || EverJoinsEmpty(After(v, ops[0]), ops[1..]))
  }

  lemma ClassReadable(v: View, ids: set<EventID>)
    requires Consistent(v) && Readable(v)
    ensures Readable(AfterClass(v, ids)) <==> !JoinsEmpty(v, ids)
  {
    hide TimingRule, Acyclic, LeastHead, Unordered, EdgesJoinHeads, CanonicalTimings, AtMost, Consistent;
    ConsistentShaped(v);
    if ClassFits(v, ids) {
      var heads := Heads(v, ids);
      HeadsAreHeads(v, ids);
      EmptyHeads(v, ids);
      forall id | id in v.contents ensures Rep(WithClass(v, heads), id) == if Rep(v, id) in heads then LeastHead(heads) else Rep(v, id) {
        WithClassRep(v, heads, id);
      }
      LeastHeadIn(heads);
      if JoinsEmpty(v, ids) {
        EmptyIsLeast(heads);
        var x :| x in ids && x != [];
        assert Rep(v, x) in heads && Rep(WithClass(v, heads), x) == [];
      }
    }
  }

  lemma LeastHeadIn(heads: set<EventID>)
    requires heads != {}
    ensures LeastHead(heads) in heads
  {}

  lemma AfterReadable(v: View, op: Op)
    requires Consistent(v) && Readable(v)
    ensures Readable(After(v, op)) <==> !(op.PutClass? && JoinsEmpty(v, op.ids))
  {
    hide Consistent, JoinsEmpty, ClassFits, EdgeFits, WithClass;
    if op.PutClass? {
      ClassReadable(v, op.ids);
    }
  }

  /** What has become unreadable stays so. */
  lemma UnreadableStays(v: View, w: View)
    requires Shaped(v) && Shaped(w) && Refines(v, w) && !Readable(v)
    ensures !Readable(w)
  {
    hide EdgesJoinHeads, CanonicalTimings, Before;
    var a :| a in v.cls && v.cls[a] == [] && a != [];
    assert IsHead(v, v.cls[a]);
    assert Equivalent(v, a, []) && Equivalent(w, a, []);
    EmptyHeadsItself(w);
  }

  /** Safety over whole runs: whatever succeeds or fails on the way, the preorder stays
      consistent and nothing once known is lost.  The class index still shows it at the end
      exactly when no accepted merger joined the empty identity with another class. */
  lemma {:induction false} RunKeeps(v: View, ops: seq<Op>)
    requires Consistent(v)
    ensures Consistent(Run(v, ops)) && Extends(v, Run(v, ops))
    ensures Readable(v) ==> (Readable(Run(v, ops)) <==> !EverJoinsEmpty(v, ops))
    decreases |ops|
  {
    if ops == [] {
      ExtendsItself(v);
    } else {
      hide Extends, Readable, JoinsEmpty, Consistent;
      var w := After(v, ops[0]);
      AfterConsistent(v, ops[0]);
      AfterExtends(v, ops[0]);
      RunKeeps(w, ops[1..]);
      ExtendsTransitive(v, w, Run(w, ops[1..]));
      if Readable(v) {
        AfterReadable(v, ops[0]);
        if !Readable(w) {
          ExtendsRefines(w, Run(w, ops[1..]));
          ConsistentShaped(w);
          ConsistentShaped(Run(w, ops[1..]));
          UnreadableStays(w, Run(w, ops[1..]));
        }
      }
    }
  }

  lemma ExtendsRefines(v: View, w: View)
    requires Extends(v, w)
    ensures Refines(v, w)
  {}

  // ----- Repeating a run changes nothing -----

  lemma EdgeStaysIdle(v: View, w: View, from: EventID, to: EventID)
    requires Consistent(v) && Consistent(w) && Extends(v, w) && w.contents.Keys == v.contents.Keys
    requires AfterEdge(v, from, to) == v
    ensures AfterEdge(w, from, to) == w
  {
    hide Consistent, Reach, Conflict;
    ConsistentShaped(v);
    if EdgeFits(w, from, to) {
      assert !Equivalent(v, from, to);
      EdgeConsistentIff(w, from, to);
      EdgeConsistentIff(v, from, to);
      if Leq(v, to, from) {
        RefinesLeq(v, w, to, from);
      }
      forall a, b | Bridged(v, from, to, a, b) ensures Bridged(w, from, to, a, b) {
        RefinesLeq(v, w, a, from);
        RefinesLeq(v, w, to, b);
      }
      assert forall a, b :: Clashing(v, a, b) ==> Clashing(w, a, b);
      assert EdgeFits(v, from, to) && WithEdge(v, from, to) == v;
      assert (Rep(v, from), Rep(v, to)) in v.edges;
      RepsAgree(v, w, from);
      RepsAgree(v, w, to);
      assert w.edges + {(Rep(w, from), Rep(w, to))} == w.edges;
    }
  }

  /** Two participating classes, named by members, are ordered exactly when the merge conflicts. */
  lemma UnorderedMembers(v: View, ids: set<EventID>)
    requires Shaped(v) && ids <= v.contents.Keys
    ensures Unordered(v.edges, Heads(v, ids)) <==> forall x, y :: x in ids && y in ids ==> !Before(v, x, y)
  {
    hide CanonicalTimings, EdgesJoinHeads, AtMost, Reach;
    forall x, y | x in ids && y in ids && Before(v, x, y) ensures !Unordered(v.edges, Heads(v, ids)) {
      assert Rep(v, x) in Heads(v, ids) && Rep(v, y) in Heads(v, ids);
    }
    if !Unordered(v.edges, Heads(v, ids)) {
      var r, s :| r in Heads(v, ids) && s in Heads(v, ids) && r != s && Reach(v.edges, r, s);
      var x :| x in ids && Rep(v, x) == r;
      var y :| y in ids && Rep(v, y) == s;
      assert Before(v, x, y);
    }
  }

  lemma InsideMember(v: View, ids: set<EventID>, a: EventID)
    requires Inside(v, Heads(v, ids), a) && ids <= v.contents.Keys
    ensures exists x :: x in ids && Equivalent(v, a, x)
  {}

  lemma AheadMember(v: View, ids: set<EventID>, a: EventID)
    requires Ahead(v, Heads(v, ids), a) && ids <= v.contents.Keys
    ensures exists x :: x in ids && Before(v, a, x)
  {
    hide Reach;
    var h :| h in Heads(v, ids) && Reach(v.edges, Rep(v, a), h);
    var x :| x in ids && Rep(v, x) == h;
    assert Before(v, a, x);
  }

  lemma BehindMember(v: View, ids: set<EventID>, a: EventID)
    requires Behind(v, Heads(v, ids), a) && ids <= v.contents.Keys
    ensures exists x :: x in ids && Before(v, x, a)
  {
    hide Reach;
    var h :| h in Heads(v, ids) && Reach(v.edges, h, Rep(v, a));
    var x :| x in ids && Rep(v, x) == h;
    assert Before(v, x, a);
  }

  ghost predicate OrderedBy(w: View, a: EventID, b: EventID, x: EventID, y: EventID) {
    (Before(w, a, x) && Leq(w, y, b)) || (Leq(w, a, x) && Before(w, y, b))
  }

  /** Between members: merging the listed classes orders a before b. */
  ghost predicate MergeOrders(v: View, ids: set<EventID>, a: EventID, b: EventID) {
    exists x, y :: x in ids && y in ids && OrderedBy(v, a, b, x, y)
  }

  lemma ScannedMergeOrders(v: View, ids: set<EventID>, a: EventID, b: EventID)
    requires Consistent(v) && ids <= v.contents.Keys && Scanned(v, Heads(v, ids), a, b)
    ensures MergeOrders(v, ids, a, b)
  {
    hide Consistent, Reach, Heads, Inside, Ahead, Behind, Before, Equivalent, Leq;
    if Ahead(v, Heads(v, ids), a) {
      AheadMember(v, ids, a);
      var x :| x in ids && Before(v, a, x);
      if Inside(v, Heads(v, ids), b) {
        InsideMember(v, ids, b);
        var y :| y in ids && Equivalent(v, b, y);
        BeforeIsStrictOrder(v, y, b, b);
        EquivalentBack(v, b, y);
      } else {
        BehindMember(v, ids, b);
        var y :| y in ids && Before(v, y, b);
        BeforeIsStrictOrder(v, y, b, b);
      }
    } else {
      InsideMember(v, ids, a);
      BehindMember(v, ids, b);
      var x :| x in ids && Equivalent(v, a, x);
      var y :| y in ids && Before(v, y, b);
      BeforeIsStrictOrder(v, a, x, x);
    }
  }

  lemma EquivalentBack(v: View, a: EventID, b: EventID)
    ensures Equivalent(v, a, b) ==> Equivalent(v, b, a)
  {}

  lemma MergeOrdersGrows(v: View, w: View, ids: set<EventID>, a: EventID, b: EventID)
    requires Consistent(v) && Consistent(w) && Refines(v, w) && MergeOrders(v, ids, a, b)
    ensures MergeOrders(w, ids, a, b)
  {
    hide Consistent, Reach, Equivalent, Leq;
    var x, y :| x in ids && y in ids && OrderedBy(v, a, b, x, y);
    if Before(v, a, x) && Leq(v, y, b) {
      RefinesLeq(v, w, y, b);
    } else {
      RefinesLeq(v, w, a, x);
    }
  }

  /** ... and indeed it does. */
  lemma MergeOrdersBefore(w: View, ids: set<EventID>, a: EventID, b: EventID)
    requires Consistent(w) && ids != {} && ids <= w.contents.Keys && Unordered(w.edges, Heads(w, ids))
    requires MergeOrders(w, ids, a, b)
    ensures Before(WithClass(w, Heads(w, ids)), a, b)
  {
    hide Consistent, Reach, WithClass, Equivalent, Unordered;
    var heads := Heads(w, ids);
    ConsistentShaped(w);
    HeadsAreHeads(w, ids);
    UnorderedMembers(w, ids);
    var x, y :| x in ids && y in ids && OrderedBy(w, a, b, x, y);
    assert Joined(w.edges, heads, Rep(w, a), Rep(w, b)) by {
      assert Rep(w, x) in heads && Rep(w, y) in heads;
    }
    BeforeWithClass(w, heads, a, b);
    MergedApart(w, ids, a, b, x, y);
  }

  lemma NotOneClass(w: View, a: EventID, b: EventID, x: EventID, y: EventID)
    requires Consistent(w) && OrderedBy(w, a, b, x, y) && Leq(w, b, a)
    ensures Before(w, y, x)
  {
    hide Consistent, Leq, Before;
    BeforeIsStrictOrder(w, b, a, x);
    BeforeIsStrictOrder(w, y, b, a);
    BeforeIsStrictOrder(w, y, b, x);
    BeforeIsStrictOrder(w, y, a, x);
  }

  lemma NotBothInside(w: View, a: EventID, b: EventID, x: EventID, y: EventID, p: EventID, q: EventID)
    requires Consistent(w) && OrderedBy(w, a, b, x, y) && Leq(w, p, a) && Leq(w, b, q)
    ensures Before(w, p, x) || Before(w, y, q)
  {
    hide Consistent, Leq, Before;
    BeforeIsStrictOrder(w, p, a, x);
    BeforeIsStrictOrder(w, y, b, q);
  }

  lemma EquivalentLeq(w: View, a: EventID, b: EventID)
    requires Equivalent(w, a, b)
    ensures Leq(w, a, b) && Leq(w, b, a)
  {
    assert Reach(w.edges, Rep(w, a), Rep(w, a));
  }

  lemma MergedApart(w: View, ids: set<EventID>, a: EventID, b: EventID, x: EventID, y: EventID)
    requires Consistent(w) && ids != {} && ids <= w.contents.Keys && x in ids && y in ids
    requires forall p, q :: p in ids && q in ids ==> !Before(w, p, q)
    requires a in w.contents && b in w.contents && OrderedBy(w, a, b, x, y)
    ensures !Equivalent(WithClass(w, Heads(w, ids)), a, b)
  {
    hide Consistent, Before, Leq, WithClass, Shaped, Acyclic, OrderedBy;
    var heads := Heads(w, ids);
    ConsistentShaped(w);
    HeadsAreHeads(w, ids);
    WithClassRep(w, heads, a);
    WithClassRep(w, heads, b);
    if Equivalent(WithClass(w, heads), a, b) {
      if Rep(w, a) == Rep(w, b) {
        EquivalentLeq(w, a, b);
        NotOneClass(w, a, b, x, y);
      } else {
        InsideMember(w, ids, a);
        InsideMember(w, ids, b);
        var p :| p in ids && Equivalent(w, a, p);
        var q :| q in ids && Equivalent(w, b, q);
        EquivalentLeq(w, a, p);
        EquivalentLeq(w, b, q);
        NotBothInside(w, a, b, x, y, p, q);
      }
    }
  }

  /** Merging occurrences already in one class does nothing. */
  lemma OneClassIdle(w: View, ids: set<EventID>, head: EventID)
    requires Shaped(w) && Acyclic(w.edges) && ids != {} && ids <= w.contents.Keys
    requires forall y :: y in ids ==> Rep(w, y) == head
    ensures WithClass(w, Heads(w, ids)) == w && AfterClass(w, ids) == w
  {
    hide Shaped, Acyclic, WithClass, ClassFits;
    HeadsAreHeads(w, ids);
    var x :| x in ids;
    assert Heads(w, ids) == {head};
    SingleClass(w, head);
  }

  lemma ClassStillFits(v: View, w: View, ids: set<EventID>)
    requires Consistent(v) && Consistent(w) && Refines(v, w) && w.contents.Keys == v.contents.Keys
    requires ClassFits(w, ids)
    ensures ClassFits(v, ids)
  {
    hide Consistent, Shaped, Acyclic, WithClass, Unordered, Equivalent, Scanned, Heads, Clashing, Before, MergeOrders, AreHeads, Refines, Within;
    RefinesKnown(v, w);
    RefinesWithin(v, w);
    ConsistentShaped(v);
    ConsistentShaped(w);
    UnorderedMembers(v, ids);
    UnorderedMembers(w, ids);
    HeadsAreHeads(v, ids);
    ClassTimingIff(v, Heads(v, ids));
    ClassConsistentIff(v, Heads(v, ids));
    forall a, b | Scanned(v, Heads(v, ids), a, b) ensures !Clashing(v, a, b) {
      ScannedMergeOrders(v, ids, a, b);
      MergeOrdersGrows(v, w, ids, a, b);
      MergeOrdersBefore(w, ids, a, b);
      NoClashAfter(w, Heads(w, ids), a, b);
      ClashingKept(v, w, a, b);
    }
  }

  lemma ClashingKept(v: View, w: View, a: EventID, b: EventID)
    requires Within(v, w)
    ensures Clashing(v, a, b) ==> Clashing(w, a, b)
  {}

  lemma RefinesKnown(v: View, w: View)
    requires Refines(v, w)
    ensures v.contents.Keys <= w.contents.Keys
    ensures forall a, b :: Before(v, a, b) ==> Before(w, a, b)
  {}

  lemma NoClashAfter(w: View, heads: set<EventID>, a: EventID, b: EventID)
    requires Consistent(WithClass(w, heads)) && Before(WithClass(w, heads), a, b)
    ensures !Clashing(w, a, b)
  {
    assert Clashing(w, a, b) ==> Clashing(WithClass(w, heads), a, b);
  }

  /** A merge without effect named a single class, and still does. */
  lemma IdleIsOneClass(v: View, w: View, ids: set<EventID>)
    requires Consistent(v) && Consistent(w) && Refines(v, w) && ids != {} && ids <= v.contents.Keys
    requires WithClass(v, Heads(v, ids)) == v
    ensures AfterClass(w, ids) == w
  {
    hide Consistent, Shaped, Acyclic, Reach, WithClass, ClassFits, Before, AreHeads;
    ConsistentShaped(v);
    ConsistentShaped(w);
    HeadsAreHeads(v, ids);
    var x :| x in ids;
    forall y | y in ids ensures Rep(w, y) == Rep(w, x) {
      assert Rep(v, x) in Heads(v, ids) && Rep(v, y) in Heads(v, ids);
      if Rep(v, x) != Rep(v, y) {
        MergeChanges(v, Heads(v, ids), Rep(v, x), Rep(v, y));
      }
      assert Equivalent(v, x, y);
      assert Equivalent(w, x, y);
    }
    OneClassIdle(w, ids, Rep(w, x));
  }

  lemma ClassStaysIdle(v: View, w: View, ids: set<EventID>)
    requires Consistent(v) && Consistent(w) && Refines(v, w) && w.contents.Keys == v.contents.Keys
    requires AfterClass(v, ids) == v
    ensures AfterClass(w, ids) == w
  {
    if ClassFits(w, ids) {
      hide Consistent, WithClass, Unordered, Refines;
      ClassStillFits(v, w, ids);
      IdleIsOneClass(v, w, ids);
    }
  }

  /** An operation without effect stays without effect as the view grows on the same
      occurrences. */
  lemma StaysIdle(v: View, w: View, op: Op)
    requires Consistent(v) && Consistent(w) && Extends(v, w) && w.contents.Keys == v.contents.Keys
    requires After(v, op) == v
    ensures After(w, op) == w
  {
    hide Consistent, AfterClass, AfterEdge;
    match op
    case PutEvent(id, c) =>
      assert id in WithEvent(v, id, c).contents;
    case PutEdge(from, to) => EdgeStaysIdle(v, w, from, to);
    case PutClass(ids) => ClassStaysIdle(v, w, ids);
  }

  /** Once done, or refused, an operation has no further effect. */
  lemma AfterIsIdle(v: View, op: Op)
    requires Consistent(v)
    ensures After(After(v, op), op) == After(v, op)
  {
    hide Consistent, Reach, WithClass, Conflict;
    match op
    case PutEvent(id, c) =>
    case PutEdge(from, to) =>
      if EdgeFits(v, from, to) {
        var w := WithEdge(v, from, to);
        assert Rep(w, from) == Rep(v, from) && Rep(w, to) == Rep(v, to);
        assert w.edges + {(Rep(w, from), Rep(w, to))} == w.edges;
        assert WithEdge(w, from, to) == w;
      }
    case PutClass(ids) =>
      if ClassFits(v, ids) {
        MergedIsOneClass(v, ids);
      }
  }

  lemma MergedIsOneClass(v: View, ids: set<EventID>)
    requires Consistent(v) && ClassFits(v, ids)
    ensures var w := WithClass(v, Heads(v, ids)); AfterClass(w, ids) == w
  {
    hide Consistent, Shaped, Acyclic, Reach, WithClass, LeastHead, AfterClass, Unordered;
    var heads := Heads(v, ids);
    var w := WithClass(v, heads);
    ConsistentShaped(v);
    ConsistentShaped(w);
    HeadsAreHeads(v, ids);
    WithClassContents(v, heads);
    assert heads != {};
    forall y | y in ids ensures Rep(w, y) == LeastHead(heads) {
      assert Rep(v, y) in heads;
      WithClassRep(v, heads, y);
    }
    OneClassIdle(w, ids, LeastHead(heads));
  }

  lemma WithClassContents(v: View, heads: set<EventID>)
    ensures WithClass(v, heads).contents == v.contents
  {}

  /** Events first, then only classes and edges, as a merge applies them. */
  ghost predicate NoEvents(ops: seq<Op>) {
    forall i :: 0 <= i < |ops| ==> !ops[i].PutEvent?
  }

  ghost predicate Phased(ops: seq<Op>)
    decreases |ops|
  {
    NoEvents(ops) || (ops[0].PutEvent? && Phased(ops[1..]))
  }

  lemma AfterKeys(v: View, op: Op)
    requires !op.PutEvent?
    ensures After(v, op).contents == v.contents
  {}

  lemma {:induction false} RunKeys(v: View, ops: seq<Op>)
    requires NoEvents(ops)
    ensures Run(v, ops).contents == v.contents
    decreases |ops|
  {
    if ops != [] {
      AfterKeys(v, ops[0]);
      RunKeys(After(v, ops[0]), ops[1..]);
    }
  }

  lemma {:induction false} RunLeavesIdle(v: View, ops: seq<Op>, k: nat)
    requires Consistent(v) && Phased(ops) && k < |ops|
    ensures After(Run(v, ops), ops[k]) == Run(v, ops)
    decreases |ops|
  {
    hide Consistent, AfterClass, AfterEdge, Extends;
    var first := After(v, ops[0]);
    AfterConsistent(v, ops[0]);
    if k > 0 {
      assert Phased(ops[1..]) by {
        if NoEvents(ops) {
          assert NoEvents(ops[1..]);
        }
      }
      RunLeavesIdle(first, ops[1..], k - 1);
    } else {
      AfterIsIdle(v, ops[0]);
      RunKeeps(first, ops[1..]);
      if ops[0].PutEvent? {
        EventStaysIdle(first, Run(first, ops[1..]), ops[0]);
      } else {
        RunKeys(first, ops[1..]);
        StaysIdle(first, Run(first, ops[1..]), ops[0]);
      }
    }
  }

  lemma EventStaysIdle(v: View, w: View, op: Op)
    requires op.PutEvent? && After(v, op) == v && Extends(v, w)
    ensures After(w, op) == w
  {
    assert op.id in WithEvent(v, op.id, op.content).contents;
  }

  lemma {:induction false} IdleRun(v: View, ops: seq<Op>)
    requires forall k :: 0 <= k < |ops| ==> After(v, ops[k]) == v
    ensures Run(v, ops) == v
    decreases |ops|
  {
    if ops != [] {
      forall k | 0 <= k < |ops[1..]| ensures After(v, ops[1..][k]) == v {
        assert After(v, ops[k + 1]) == v;
      }
      IdleRun(v, ops[1..]);
    }
  }

  /** Merging the same thing twice is merging it once, even when parts of it are refused. */
  lemma RunTwice(v: View, ops: seq<Op>)
    requires Consistent(v) && Phased(ops)
    ensures Run(Run(v, ops), ops) == Run(v, ops)
  {
    hide Consistent, After, Run;
    forall k | 0 <= k < |ops| ensures After(Run(v, ops), ops[k]) == Run(v, ops) {
      RunLeavesIdle(v, ops, k);
    }
    IdleRun(Run(v, ops), ops);
  }
}
