/** What each poset operation answers and does to the causal preorder, as functions of the
    view alone: no outcome depends on Lamport stamps or on how the preorder is stored. */
module Operations {
  import opened Texts
  import opened Timings
  import opened Reachability
  import opened CausalOrder
  import opened Observations

  /** An event offered to a poset; `expectedCauses` is the provenance a deterministic
      event carries, empty for others. */
  datatype Offer = Offer(id: EventID, content: Content, expectedCauses: seq<EventID>)

  datatype Error =
    | EventExists
    | EventNotFound
    | CyclicCausal
    | SelfCausal
    | CauseMismatch
    | EquivalenceConflict
    | InvalidTiming
    | TimingCausality
    | ObservationConflict
    | EmptyName

  datatype Outcome = Ok | Fail(error: Error)

  /** An edge heard of before its endpoints: from, to. */
  type PendingEdge = (EventID, EventID)

  // ----- What each operation does to the view -----

  function Canonized(c: Content): Content {
    c.(timings := SortByClock(c.timings))
  }

  /** The edge an accepted AddCausal call needs: two known events of different classes
      whose ordering leaves the preorder consistent. */
  ghost predicate EdgeFits(v: View, from: EventID, to: EventID) {
    && from in v.contents && to in v.contents
    && !Equivalent(v, from, to)
    && Consistent(WithEdge(v, from, to))
  }

  ghost function AfterEdge(v: View, from: EventID, to: EventID): View {
    if EdgeFits(v, from, to) then WithEdge(v, from, to) else v
  }

  ghost function EdgeOutcome(v: View, from: EventID, to: EventID): Outcome {
    if from == to then Fail(SelfCausal)
    else if from !in v.contents || to !in v.contents then Fail(EventNotFound)
    else if Equivalent(v, from, to) then Fail(SelfCausal)
    else if Leq(v, to, from) then Fail(CyclicCausal)
    else if !Consistent(WithEdge(v, from, to)) then Fail(TimingCausality)
    else Ok
  }

  /** The class an accepted merge needs: known events, no two participating classes
      ordered, and a consistent result. */
  ghost predicate ClassFits(v: View, ids: set<EventID>) {
    && ids != {} && ids <= v.contents.Keys
    && Unordered(v.edges, Heads(v, ids))
    && Consistent(WithClass(v, Heads(v, ids)))
  }

  ghost function AfterClass(v: View, ids: set<EventID>): View {
    if ClassFits(v, ids) then WithClass(v, Heads(v, ids)) else v
  }

  ghost function ClassOutcome(v: View, ids: set<EventID>): Outcome {
    if ids == {} || !(ids <= v.contents.Keys) then Fail(EventNotFound)
    else if !Unordered(v.edges, Heads(v, ids)) then Fail(EquivalenceConflict)
    else if !Consistent(WithClass(v, Heads(v, ids))) then Fail(TimingCausality)
    else Ok
  }

  /** A deterministic event's recorded provenance: its causes, sorted without repetition. */
  ghost predicate CausesMatch(expected: seq<EventID>, causes: set<EventID>) {
    expected == [] || (StrictlySorted(expected) && Members(expected) == causes)
  }

  ghost function CausedOutcome(v: View, e: Offer, causes: set<EventID>): Outcome {
    if !Admissible(e.content.timings) then Fail(InvalidTiming)
    else if !CausesMatch(e.expectedCauses, causes) then Fail(CauseMismatch)
    else if !(causes <= v.contents.Keys) then Fail(EventNotFound)
    else if CausesClash(v, Canonized(e.content), causes) then Fail(TimingCausality)
    else if e.id in v.contents then Fail(EventExists)
    else Ok
  }

  ghost function ObservationOutcome(v: View, id: EventID, o: Observation, timings: seq<EventTiming>): Outcome {
    if o.name == [] then Fail(EmptyName)
    else if id !in v.contents then Fail(EventNotFound)
    else
      var c := v.contents[id];
      var all := c.timings + FreshTimings(c.timings, timings);
      if !Agrees(c.timings, timings) || !Admissible(all) then Fail(InvalidTiming)
      else if NeighbourClash(v, id, SortByClock(all)) then Fail(TimingCausality)
      else if RoleConflict(c, o) then Fail(ObservationConflict)
      else Ok
  }

  lemma EdgeOutcomeIff(v: View, from: EventID, to: EventID)
    requires Consistent(v)
    ensures EdgeOutcome(v, from, to).Ok? <==> EdgeFits(v, from, to)
  {
    hide Consistent;
    if EdgeFits(v, from, to) {
      EdgeConsistentIff(v, from, to);
    }
  }

  /** A caused event is accepted exactly when it is new, its intervals and recorded causes are
      in order, its causes are known, and the computation with it is consistent. */
  lemma CausedOutcomeIff(v: View, e: Offer, causes: set<EventID>)
    requires Consistent(v)
    ensures CausedOutcome(v, e, causes).Ok? <==>
            && e.id !in v.contents && Admissible(e.content.timings) && causes <= v.contents.Keys
            && (e.expectedCauses != [] ==> StrictlySorted(e.expectedCauses) && Members(e.expectedCauses) == causes)
            && Consistent(WithCausedEvent(v, e.id, Canonized(e.content), causes))
  {
    hide Consistent, CausesClash, StrictlySorted, Members, WithCausedEvent, Canonical;
    if e.id !in v.contents && causes <= v.contents.Keys && Admissible(e.content.timings) {
      AdmissibleSorts(e.content.timings);
      CausedEventConsistentIff(v, e.id, Canonized(e.content), causes);
    }
  }

  lemma ClassOutcomeIff(v: View, ids: set<EventID>)
    ensures ClassOutcome(v, ids).Ok? <==> ClassFits(v, ids)
    ensures ClassOutcome(v, ids).Fail? <==> !ClassFits(v, ids)
  {
    hide Consistent, Reach;
  }

  lemma HeadsAreHeads(v: View, ids: set<EventID>)
    requires Shaped(v) && ids != {} && ids <= v.contents.Keys
    ensures AreHeads(v, Heads(v, ids))
  {
    hide AtMost, CanonicalTimings;
    var id :| id in ids;
    assert Rep(v, id) in Heads(v, ids);
    forall h | h in Heads(v, ids) ensures h in v.contents && Rep(v, h) == h {
      var x :| x in ids && Rep(v, x) == h;
      assert IsHead(v, v.cls[x]);
    }
  }

  /** Merging one class with itself changes nothing. */
  lemma SingleClass(v: View, head: EventID)
    requires Shaped(v) && Acyclic(v.edges) && AreHeads(v, {head})
    ensures WithClass(v, {head}) == v && Unordered(v.edges, {head})
  {
    hide Headed, EdgesJoinHeads, CanonicalTimings, AtMost, Less;
    var f := Collapse({head});
    assert LeastHead({head}) == head;
    assert forall x :: Apply(f, x) == x;
    forall a, b | (a, b) in v.edges ensures (a, b) in Image(v.edges, f) {
      assert Reach(v.edges, a, a);
      assert (a, b).0 == a && (a, b).1 == b;
    }
    forall e | e in Image(v.edges, f) ensures e in v.edges {
      var d :| d in v.edges && (Apply(f, d.0), Apply(f, d.1)) == e;
      assert d == e;
    }
    assert Image(v.edges, f) == v.edges;
  }
}
