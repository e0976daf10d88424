/** Lamport stamps over a run of merged classes and edges: repairs compose. */
module MergeStamps {
  import opened Texts
  import opened Reachability
  import opened CausalOrder
  import opened Stamps
  import opened Operations
  import opened Merging

  lemma HeadStamp(v: View, w: View, g: Stamping, id: EventID)
    requires Shaped(v) && Shaped(w) && Refines(v, w) && Lawful(w, g) && id in v.contents
    ensures Rep(v, id) in g && id in g && g[id] == g[Rep(v, id)]
  {
    hide Lawful, Before, Shaped;
    LawfulKeys(w, g);
    RepFacts(v, id);
    assert Equivalent(v, id, Rep(v, id));
    LawfulFollowsOrder(w, g, id, Rep(v, id));
  }

  lemma RisingStamp(v: View, w: View, g: Stamping, a: EventID, b: EventID)
    requires Consistent(v) && Shaped(w) && Refines(v, w) && Lawful(w, g) && (a, b) in v.edges && a in g && b in g
    ensures g[a] < g[b]
  {
    hide Lawful, Before, Consistent, Shaped, Equivalent;
    EdgeBefore(v, a, b);
    LawfulFollowsOrder(w, g, a, b);
  }

  /** A stamping lawful for a view is lawful for every view it extends on the same occurrences. */
  lemma LawfulEarlier(v: View, w: View, g: Stamping)
    requires Consistent(v) && Consistent(w) && Refines(v, w) && w.contents.Keys == v.contents.Keys && Lawful(w, g)
    ensures Lawful(v, g)
  {
    hide Consistent, Refines, Lawful, Shaped;
    ConsistentShaped(v);
    ConsistentShaped(w);
    LawfulKeys(w, g);
    forall id | id in g && Rep(v, id) in g ensures g[id] == g[Rep(v, id)] {
      HeadStamp(v, w, g, id);
    }
    forall a, b | (a, b) in v.edges && a in g && b in g ensures g[a] < g[b] {
      RisingStamp(v, w, g, a, b);
    }
    LawfulIntro(v, g);
  }

  lemma LawfulIntro(v: View, g: Stamping)
    requires g.Keys == v.contents.Keys && Uniform(v, g)
    requires forall a, b :: (a, b) in v.edges && a in g && b in g ==> g[a] < g[b]
    ensures Lawful(v, g)
  {
    hide Uniform;
  }

  lemma EdgeBefore(v: View, a: EventID, b: EventID)
    requires Consistent(v) && (a, b) in v.edges
    ensures Before(v, a, b)
  {
    hide TimingRule, CanonicalTimings, AtMost, Reach, Before;
    assert IsHead(v, a) && IsHead(v, b);
    EdgeOrders(v, a, b);
  }

  /** After further classes and edges the least repair is still least above the first start. */
  lemma RunRepairs(v: View, ops: seq<Op>, low: Stamping, middle: Stamping, f: Stamping)
    requires Consistent(v) && NoEvents(ops) && LeastLawful(v, low, middle) && LeastLawful(Run(v, ops), middle, f)
    ensures LeastLawful(Run(v, ops), low, f)
  {
    hide Consistent, Lawful, Extends, Run, NoEvents, Readable;
    var w := Run(v, ops);
    RunKeeps(v, ops);
    ExtendsRefines(v, w);
    RunKeys(v, ops);
    LawfulKeys(v, middle);
    forall g | Lawful(w, g) && AtLeast(g, low) ensures AtLeast(g, f) {
      LawfulEarlier(v, w, g);
    }
  }

  lemma RepairsCompose(v: View, op: Op, low: Stamping, middle: Stamping, f: Stamping)
    requires Consistent(v) && !op.PutEvent? && LeastLawful(v, low, middle) && LeastLawful(After(v, op), middle, f)
    ensures LeastLawful(After(v, op), low, f)
  {
    hide Consistent, LeastLawful, After;
    assert [op][1..] == [];
    assert Run(After(v, op), []) == After(v, op);
    RunRepairs(v, [op], low, middle, f);
  }
}
