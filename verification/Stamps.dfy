/** Lamport stamps over a causal preorder: which assignments are lawful, and that a least
    lawful one above any starting point exists and is unique. */
module Stamps {
  import opened Texts
  import opened Reachability
  import opened CausalOrder

  type Stamping = map<EventID, nat>

  /** Equal within a class, strictly increasing along edges. */
  ghost predicate Lawful(v: View, f: Stamping) {
    f.Keys == v.contents.Keys && Uniform(v, f) && IncreasingBut(v, f, {})
  }

  ghost predicate Uniform(v: View, f: Stamping) {
    forall id :: id in f && Rep(v, id) in f ==> f[id] == f[Rep(v, id)]
  }

  ghost predicate IncreasingBut(v: View, f: Stamping, waiting: set<EventID>) {
    forall a, b :: (a, b) in v.edges && a in f && b in f ==> a in waiting || f[a] < f[b]
  }

  ghost predicate AtLeast(f: Stamping, low: Stamping) {
    f.Keys == low.Keys && forall id :: id in f ==> low[id] <= f[id]
  }

  /** The pointwise least lawful stamping not below `low`. */
  ghost predicate LeastLawful(v: View, low: Stamping, f: Stamping) {
    && Lawful(v, f)
    && AtLeast(f, low)
    && forall g :: Lawful(v, g) && AtLeast(g, low) ==> AtLeast(g, f)
  }

  lemma LeastLawfulUnique(v: View, low: Stamping, f: Stamping, g: Stamping)
    requires LeastLawful(v, low, f) && LeastLawful(v, low, g)
    ensures f == g
  {
    assert AtLeast(f, g) && AtLeast(g, f);
  }

  /** Stamps follow the whole order, not only its edges. */
  lemma LawfulFollowsOrder(v: View, f: Stamping, a: EventID, b: EventID)
    requires Shaped(v) && Lawful(v, f)
    ensures Before(v, a, b) ==> f[a] < f[b]
    ensures Equivalent(v, a, b) ==> f[a] == f[b]
  {
    if a in v.contents && b in v.contents {
      var ra, rb := Rep(v, a), Rep(v, b);
      if Reach(v.edges, ra, rb) {
        var s := iset x | x == ra || (x in f && f[ra] < f[x]);
        ReachWithin(v.edges, ra, rb, s);
      }
    }
  }

  lemma LeastIsLawful(v: View, low: Stamping, f: Stamping)
    requires LeastLawful(v, low, f)
    ensures Lawful(v, f)
  {}

  lemma LawfulIsLeast(v: View, f: Stamping)
    requires Lawful(v, f)
    ensures LeastLawful(v, f, f)
  {}

  /** Raising the starting point only as far as every lawful stamping must go anyway does
      not change the least one. */
  ghost predicate Forced(v: View, low: Stamping, raised: Stamping) {
    AtLeast(raised, low) && forall g :: Lawful(v, g) && AtLeast(g, low) ==> AtLeast(g, raised)
  }

  /** Repairs compose: least above a least stamping of a smaller order is least above its start. */
  lemma LeastComposes(v: View, w: View, low: Stamping, middle: Stamping, f: Stamping)
    requires LeastLawful(v, low, middle) && LeastLawful(w, middle, f)
    requires w.cls == v.cls && v.edges <= w.edges && w.contents.Keys == v.contents.Keys
    ensures LeastLawful(w, low, f)
  {
    forall g | Lawful(w, g) && AtLeast(g, low) ensures AtLeast(g, f) {
      SameClassesUniform(w, v, g);
      assert Lawful(v, g);
    }
  }

  lemma EdgeComposes(v: View, from: EventID, to: EventID, low: Stamping, middle: Stamping, f: Stamping)
    requires LeastLawful(v, low, middle) && LeastLawful(WithEdge(v, from, to), middle, f)
    ensures LeastLawful(WithEdge(v, from, to), low, f)
  {
    LeastComposes(v, WithEdge(v, from, to), low, middle, f);
  }

  lemma LeastThrough(v: View, low: Stamping, raised: Stamping, f: Stamping)
    requires LeastLawful(v, raised, f) && Forced(v, low, raised)
    ensures LeastLawful(v, low, f)
  {}

  /** One class set to a value. */
  function Raised(v: View, f: Stamping, head: EventID, value: nat): Stamping {
    map id | id in f :: if Rep(v, id) == head then value else f[id]
  }

  /** Lawful except for edges leaving the classes still waiting to be propagated. */
  ghost predicate LawfulBut(v: View, f: Stamping, waiting: set<EventID>) {
    f.Keys == v.contents.Keys && Uniform(v, f) && IncreasingBut(v, f, waiting)
  }

  /** A repair in progress: lawful but for the waiting classes, at or above the start and
      at or below every lawful stamping above the start. */
  ghost predicate Repairing(v: View, start: Stamping, f: Stamping, waiting: set<EventID>) {
    && LawfulBut(v, f, waiting)
    && AtLeast(f, start)
    && forall g :: Lawful(v, g) && AtLeast(g, start) ==> AtLeast(g, f)
  }

  lemma RepairFacts(v: View, start: Stamping, f: Stamping, waiting: set<EventID>)
    requires Repairing(v, start, f, waiting)
    ensures Uniform(v, f) && f.Keys == v.contents.Keys
  {}

  lemma RepairStarts(v: View, start: Stamping, waiting: set<EventID>)
    requires LawfulBut(v, start, waiting)
    ensures Repairing(v, start, start, waiting)
  {}

  lemma RepairDone(v: View, start: Stamping, f: Stamping)
    requires Repairing(v, start, f, {})
    ensures LeastLawful(v, start, f)
  {}

  lemma RepairBounded(v: View, start: Stamping, f: Stamping, waiting: set<EventID>, bound: Stamping)
    requires Repairing(v, start, f, waiting) && Lawful(v, bound) && AtLeast(bound, start)
    ensures Total(f) <= Total(bound)
  {
    TotalGrows(f, bound);
  }

  /** a is stamped below every listed event. */
  ghost predicate BelowAll(f: Stamping, a: EventID, listed: seq<EventID>) {
    a in f && forall b :: b in listed ==> b in f && f[a] < f[b]
  }

  lemma BelowNone(f: Stamping, a: EventID)
    requires a in f
    ensures BelowAll(f, a, [])
  {}

  lemma BelowAllGrows(f: Stamping, g: Stamping, a: EventID, listed: seq<EventID>, next: EventID)
    requires BelowAll(f, a, listed) && AtLeast(g, f) && g[a] == f[a]
    requires next in g && g[a] < g[next]
    ensures BelowAll(g, a, listed + [next])
  {}

  lemma StopWaiting(v: View, start: Stamping, f: Stamping, waiting: set<EventID>, a: EventID, successors: seq<EventID>)
    requires Repairing(v, start, f, waiting + {a})
    requires BelowAll(f, a, successors) && forall b :: (a, b) in v.edges ==> b in successors
    ensures Repairing(v, start, f, waiting)
  {}

  /** Raising the head of an edge to just above its tail: the head starts waiting, and the
      repair stays below every lawful stamping above the start. */
  lemma RaiseStep(v: View, start: Stamping, f: Stamping, waiting: set<EventID>, tail: EventID, head: EventID)
    requires Headed(v) && EdgesJoinHeads(v) && (tail, head) in v.edges && tail != head
    requires Repairing(v, start, f, waiting)
    requires tail in f && head in f && f[tail] >= f[head]
    ensures var r := Raised(v, f, head, f[tail] + 1);
            && Repairing(v, start, r, waiting + {head})
            && AtLeast(r, f) && Total(f) < Total(r)
            && r[tail] == f[tail] && r[tail] < r[head]
  {
    hide Less, AtMost, Reach;
    var r := Raised(v, f, head, f[tail] + 1);
    assert IsHead(v, tail) && IsHead(v, head);
    assert Rep(v, tail) == tail && Rep(v, head) == head;
    forall id | id in f ensures f[id] <= r[id] {
      assert IsHead(v, v.cls[id]);
    }
    TotalGrows(f, r);
    forall id | id in r && Rep(v, id) in r ensures r[id] == r[Rep(v, id)] {
      assert IsHead(v, v.cls[id]);
    }
    forall a, b | (a, b) in v.edges ensures a in waiting + {head} || r[a] < r[b] {
      assert IsHead(v, a) && IsHead(v, b);
    }
    forall g | Lawful(v, g) && AtLeast(g, start) ensures AtLeast(g, r) {
      assert AtLeast(g, f);
      assert g[tail] < g[head];
      forall id | id in g ensures r[id] <= g[id] {
        assert IsHead(v, v.cls[id]);
      }
    }
  }

  // ----- Restarting after a change of the view -----

  lemma EventStays(v: View, id: EventID, c: Content, f: Stamping, stamp: nat)
    requires Shaped(v) && Lawful(v, f) && id !in v.contents
    ensures Lawful(WithEvent(v, id, c), f[id := stamp])
  {
    hide AtMost, CanonicalTimings;
    var w, g := WithEvent(v, id, c), f[id := stamp];
    forall x | x in v.contents ensures Rep(v, x) in v.contents {
      assert IsHead(v, v.cls[x]);
    }
    forall x | x in g ensures Rep(w, x) in g && g[x] == g[Rep(w, x)] {
      if x != id {
        assert Rep(w, x) == Rep(v, x);
        assert f[x] == f[Rep(v, x)];
      }
    }
    forall a, b | (a, b) in w.edges ensures g[a] < g[b] {
      assert IsHead(v, a) && IsHead(v, b);
    }
  }

  lemma SameClassesUniform(v: View, w: View, f: Stamping)
    requires Uniform(v, f) && w.cls == v.cls
    ensures Uniform(w, f)
  {
    assert forall id :: Rep(w, id) == Rep(v, id);
  }

  lemma ContentLawful(v: View, id: EventID, c: Content, f: Stamping)
    requires Lawful(v, f) && id in v.contents
    ensures Lawful(WithContent(v, id, c), f)
  {
    SameClassesUniform(v, WithContent(v, id, c), f);
  }

  lemma WithEdgeUniform(v: View, f: Stamping, from: EventID, to: EventID)
    requires Uniform(v, f)
    ensures Uniform(WithEdge(v, from, to), f)
  {
    assert forall id :: Rep(WithEdge(v, from, to), id) == Rep(v, id);
  }

  /** A new edge whose head is already above its tail needs no repair. */
  lemma EdgeAlreadyAbove(v: View, f: Stamping, tail: EventID, head: EventID)
    requires Lawful(v, f) && tail in f && head in f && f[tail] < f[head]
    requires Rep(v, tail) == tail && Rep(v, head) == head
    ensures Lawful(WithEdge(v, tail, head), f)
    ensures LeastLawful(WithEdge(v, tail, head), f, f)
  {
    WithEdgeUniform(v, f, tail, head);
  }

  /** Otherwise its head's class is raised, and only that class still waits. */
  lemma EdgeRaise(v: View, f: Stamping, tail: EventID, head: EventID)
    requires Lawful(v, f) && Rep(v, tail) == tail && Rep(v, head) == head
    requires Headed(v) && EdgesJoinHeads(v) && tail != head
    requires tail in f && head in f && f[tail] >= f[head]
    ensures var w := WithEdge(v, tail, head);
            var r := Raised(w, f, head, f[tail] + 1);
            LawfulBut(w, r, {head}) && Forced(w, f, r)
  {
    hide AtMost, Reach, Total;
    var w := WithEdge(v, tail, head);
    assert Headed(w) && EdgesJoinHeads(w);
    WithEdgeUniform(v, f, tail, head);
    RepairStarts(w, f, {tail});
    RaiseStep(w, f, f, {tail}, tail, head);
    var r := Raised(w, f, head, f[tail] + 1);
    forall a, b | (a, b) in w.edges && a in r && b in r ensures a in {head} || r[a] < r[b] {
      if a == tail && b != head {
        assert f[tail] < f[b] <= r[b];
      }
    }
  }

  /** Merged classes all take their common maximum, and only the merged class still waits. */
  ghost predicate IsClassMaximum(heads: set<EventID>, f: Stamping, maximum: nat) {
    && (exists h :: h in heads && h in f && f[h] == maximum)
    && (forall h :: h in heads && h in f ==> f[h] <= maximum)
  }

  ghost predicate IsMaximumOver(members: seq<EventID>, f: Stamping, maximum: nat) {
    && (forall id :: id in members && id in f ==> f[id] <= maximum)
    && (maximum == 0 || exists id :: id in members && id in f && f[id] == maximum)
  }

  lemma ClassMaximumFrom(v: View, heads: set<EventID>, f: Stamping, members: seq<EventID>, maximum: nat)
    requires AreHeads(v, heads) && Lawful(v, f) && Headed(v)
    requires forall id :: id in members <==> id in v.contents && Rep(v, id) in heads
    requires IsMaximumOver(members, f, maximum)
    ensures IsClassMaximum(heads, f, maximum)
  {
    hide IncreasingBut, AtMost;
    forall h | h in heads ensures h in members && h in f {}
    if maximum == 0 {
      var h :| h in heads;
      assert f[h] == 0;
    } else {
      var id :| id in members && id in f && f[id] == maximum;
      assert IsHead(v, v.cls[id]);
      assert f[Rep(v, id)] == f[id];
    }
  }

  lemma MergedRep(v: View, heads: set<EventID>, id: EventID)
    requires Shaped(v) && AreHeads(v, heads) && id in v.contents
    ensures var w, m := WithClass(v, heads), LeastHead(heads);
            && Rep(v, id) in v.contents
            && Rep(w, id) == (if Rep(v, id) in heads then m else Rep(v, id))
            && Rep(w, id) in v.contents && Rep(w, Rep(w, id)) == Rep(w, id)
  {
    hide CanonicalTimings, EdgesJoinHeads, AtMost;
    WithClassRep(v, heads, id);
    assert IsHead(v, v.cls[id]);
    WithClassRep(v, heads, Rep(v, id));
    WithClassRep(v, heads, LeastHead(heads));
  }

  lemma MergedStamp(v: View, heads: set<EventID>, f: Stamping, maximum: nat, id: EventID)
    requires Shaped(v) && AreHeads(v, heads) && Lawful(v, f) && IsClassMaximum(heads, f, maximum)
    requires id in v.contents
    ensures var w, m := WithClass(v, heads), LeastHead(heads);
            var r := Raised(w, f, m, maximum);
            && Rep(w, id) in r && r[id] == r[Rep(w, id)] && f[id] <= r[id]
            && (Rep(w, id) != m ==> r[id] == f[id])
            && (Rep(w, id) == m ==> r[id] == maximum)
  {
    hide Shaped, AreHeads, WithClass, LeastHead;
    MergedRep(v, heads, id);
    assert f[id] == f[Rep(v, id)];
  }

  lemma MergedUniform(v: View, heads: set<EventID>, f: Stamping, maximum: nat)
    requires Shaped(v) && AreHeads(v, heads) && Lawful(v, f) && IsClassMaximum(heads, f, maximum)
    ensures var w := WithClass(v, heads);
            var r := Raised(w, f, LeastHead(heads), maximum);
            Uniform(w, r) && AtLeast(r, f)
  {
    hide Shaped, WithClass, LeastHead, IsClassMaximum, Lawful;
    var r := Raised(WithClass(v, heads), f, LeastHead(heads), maximum);
    LawfulKeys(v, f);
    forall id | id in f
      ensures Rep(WithClass(v, heads), id) in r && r[id] == r[Rep(WithClass(v, heads), id)] && f[id] <= r[id]
    {
      MergedStamp(v, heads, f, maximum, id);
    }
  }

  lemma LawfulKeys(v: View, f: Stamping)
    requires Lawful(v, f)
    ensures f.Keys == v.contents.Keys
  {}

  lemma MergedIncreasing(v: View, heads: set<EventID>, f: Stamping, maximum: nat)
    requires Shaped(v) && AreHeads(v, heads) && Lawful(v, f) && IsClassMaximum(heads, f, maximum)
    ensures var w, m := WithClass(v, heads), LeastHead(heads);
            IncreasingBut(w, Raised(w, f, m, maximum), {m})
  {
    hide LeastHead, IsClassMaximum, CanonicalTimings, Headed, AtMost, Uniform;
    var w, m := WithClass(v, heads), LeastHead(heads);
    var r, c := Raised(w, f, m, maximum), Collapse(heads);
    forall a, b | (a, b) in w.edges && a in r && b in r && a != m ensures r[a] < r[b] {
      var e :| e in v.edges && Apply(c, e.0) == a && Apply(c, e.1) == b;
      var (p, q) := e;
      assert (p, q) in v.edges;
      EdgeReps(v, p, q);
      assert f[p] < f[q];
      MergedStamp(v, heads, f, maximum, p);
      MergedStamp(v, heads, f, maximum, q);
      MergedRep(v, heads, p);
      MergedRep(v, heads, q);
    }
  }

  lemma MergedLeast(v: View, heads: set<EventID>, f: Stamping, maximum: nat, g: Stamping)
    requires Shaped(v) && AreHeads(v, heads) && Lawful(v, f) && IsClassMaximum(heads, f, maximum)
    requires Uniform(WithClass(v, heads), g) && AtLeast(g, f)
    ensures AtLeast(g, Raised(WithClass(v, heads), f, LeastHead(heads), maximum))
  {
    hide WithClass, LeastHead, Shaped;
    var w, m := WithClass(v, heads), LeastHead(heads);
    var r := Raised(w, f, m, maximum);
    forall id | id in g ensures r[id] <= g[id] {
      MergedStamp(v, heads, f, maximum, id);
      if Rep(w, id) == m {
        var h :| h in heads && h in f && f[h] == maximum;
        MergedRep(v, heads, h);
        assert g[h] == g[m] == g[id];
      }
    }
  }

  lemma ClassRaise(v: View, heads: set<EventID>, f: Stamping, maximum: nat)
    requires Shaped(v) && AreHeads(v, heads) && Lawful(v, f) && IsClassMaximum(heads, f, maximum)
    ensures var w := WithClass(v, heads);
            var r := Raised(w, f, LeastHead(heads), maximum);
            LawfulBut(w, r, {LeastHead(heads)}) && Forced(w, f, r)
  {
    hide Shaped, AreHeads, LeastHead, IsClassMaximum, Uniform, IncreasingBut, AtLeast;
    MergedUniform(v, heads, f, maximum);
    MergedIncreasing(v, heads, f, maximum);
    forall g | Lawful(WithClass(v, heads), g) && AtLeast(g, f)
      ensures AtLeast(g, Raised(WithClass(v, heads), f, LeastHead(heads), maximum))
    {
      MergedLeast(v, heads, f, maximum, g);
    }
  }

  // ----- A lawful stamping exists -----

  ghost function Ancestors(v: View, id: EventID): set<EventID> {
    set x | x in v.contents && Reach(v.edges, x, Rep(v, id))
  }

  ghost function Bound(f: Stamping): (m: nat)
    ensures forall id :: id in f ==> f[id] <= m
    decreases |f|
  {
    if f == map[] then 0
    else
      var id :| id in f;
      var rest := f - {id};
      assert rest.Keys == f.Keys - {id};
      var m := Bound(rest);
      assert forall x :: x in f && x != id ==> x in rest;
      if m < f[id] then f[id] else m
  }

  lemma LawfulExists(v: View, low: Stamping) returns (f: Stamping)
    requires Shaped(v) && Acyclic(v.edges) && low.Keys == v.contents.Keys
    ensures Lawful(v, f) && AtLeast(f, low)
  {
    f := map id | id in v.contents :: Bound(low) + |Ancestors(v, id)|;
    forall a, b | (a, b) in v.edges ensures f[a] < f[b] {
      EdgeReps(v, a, b);
      assert Reach(v.edges, b, b);
      forall x | x in Ancestors(v, a) ensures x in Ancestors(v, b) {
        ReachStep(v.edges, x, a, b);
      }
      StrictSubsetSmaller(Ancestors(v, a), Ancestors(v, b), b);
    }
  }

  // ----- Termination measure -----

  ghost function Total(f: Stamping): nat
    decreases |f|
  {
    if f == map[] then 0
    else
      var id :| id in f;
      assert (f - {id}).Keys == f.Keys - {id};
      f[id] + Total(f - {id})
  }

  lemma {:induction false} TotalGrows(f: Stamping, g: Stamping)
    requires AtLeast(g, f)
    ensures Total(f) <= Total(g)
    ensures f != g ==> Total(f) < Total(g)
    decreases |f|
  {
    if f == map[] {
      assert g == map[];
    } else {
      var id :| id in f && Total(f) == f[id] + Total(f - {id});
      assert (f - {id}).Keys == f.Keys - {id};
      TotalGrows(f - {id}, g - {id});
      TotalTakes(g, id);
      if f[id] == g[id] && f - {id} == g - {id} {
        assert forall x :: x in f && x != id ==> x in f - {id} && x in g - {id};
        assert forall x :: x in f ==> f[x] == g[x];
      }
    }
  }

  lemma {:induction false} TotalTakes(f: Stamping, id: EventID)
    requires id in f
    ensures Total(f) == f[id] + Total(f - {id})
    decreases |f|
  {
    var k :| k in f && Total(f) == f[k] + Total(f - {k});
    if k != id {
      assert (f - {k}).Keys == f.Keys - {k};
      assert (f - {id}).Keys == f.Keys - {id};
      TotalTakes(f - {k}, id);
      TotalTakes(f - {id}, k);
      assert f - {k} - {id} == f - {id} - {k};
    }
  }
}
