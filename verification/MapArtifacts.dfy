/** The run of an event-pattern map and the artifact check (arch/deterministic_map.go):
    a reader holding only the range poset and the generated events re-derives exactly the
    direct predecessors the run recorded. */
module MapArtifacts {
  import opened Texts
  import opened JoinedKeys
  import opened Reachability
  import opened Timings
  import opened CausalOrder
  import opened Stamps
  import opened Stores
  import opened Operations
  import opened Merging
  import opened Posets
  import opened FiringOrders
  import opened MapPolicies
  import opened MapBodies
  import opened MapExecution

  // ----- What the range poset reveals -----

  /** Every event of one body strictly precedes every event of the other. */
  ghost predicate BodyBefore(v: View, left: seq<Output>, right: seq<Output>) {
    forall o, q :: o in left && q in right ==> Before(v, o.event, q.event)
  }

  /** A finished run: every firing placed after its base causes. */
  ghost predicate Finished(v: View, firings: seq<Firing>, plan: Plan) {
    && Consistent(v) && Flowing(v, plan) && StrictOrder(plan.relation)
    && WellFormedFirings(firings, plan.own, plan.start) && Marked(firings, plan)
    && v.contents.Keys == {plan.start} + GeneratedBy(firings, seq(|firings|, i requires 0 <= i < |firings| => i))
    && forall g :: 0 <= g < |firings| ==> Placed(v, firings[g].outputs, BaseOf(firings, plan, g))
  }

  lemma FinishedBody(v: View, firings: seq<Firing>, plan: Plan, g: nat)
    requires Finished(v, firings, plan) && g < |firings|
    ensures WellFormedBody(firings[g].outputs) && Placed(v, firings[g].outputs, BaseOf(firings, plan, g))
    ensures forall o :: o in firings[g].outputs ==>
              o.event in plan.own && plan.own[o.event] == g && o.event != plan.start && o.event in v.contents
    ensures Marks(plan, firings[g].outputs)
  {
    hide WellFormedBody, Placed, BaseOf, Consistent, Flowing, Marks;
    assert OwnsBody(plan.own, firings[g].outputs, g);
    forall o | o in firings[g].outputs ensures o.event in v.contents {
      PlacedKnown(v, firings[g].outputs, BaseOf(firings, plan, g), o);
    }
  }

  /** What an inducing firing generates leads on, and what an induced one generates is led to. */
  ghost predicate Sheltered(firings: seq<Firing>, relation: Matrix) {
    forall a: nat, b: nat ::
      a < |firings| && b < |firings| && Live(firings)[a] && Live(firings)[b] && Related(relation, a, b) ==>
        NoneStranded(firings[a].outputs) && NoOrphans(firings[b].outputs)
  }

  /** A direct predecessor's events all precede the firing's. */
  lemma DirectBefore(v: View, f: Stamping, firings: seq<Firing>, plan: Plan, p: nat, g: nat)
    requires Finished(v, firings, plan) && Lawful(v, f) && Sheltered(firings, plan.relation)
    requires Direct(plan.relation, Live(firings), p, g)
    ensures BodyBefore(v, firings[p].outputs, firings[g].outputs)
  {
    hide Finished, Lawful, WellFormedBody, Placed, BaseOf, Consistent, Direct, Before, Leq, NoneStranded, NoOrphans, Marks;
    DirectIndices(plan.relation, Live(firings), p, g);
    var left, right := firings[p].outputs, firings[g].outputs;
    assert Consistent(v) by { FinishedConsistent(v, firings, plan); }
    FinishedBody(v, firings, plan, p);
    FinishedBody(v, firings, plan, g);
    LawfulKeys(v, f);
    forall o, q | o in left && q in right ensures Before(v, o.event, q.event) {
      var t := BeforeFrontier(v, f, left, BaseOf(firings, plan, p), o);
      FrontierInBase(firings, plan, p, g, t);
      AfterBase(v, f, right, BaseOf(firings, plan, g), q, t.event);
      BeforeIsStrictOrder(v, o.event, t.event, q.event);
    }
  }

  lemma FinishedConsistent(v: View, firings: seq<Firing>, plan: Plan)
    requires Finished(v, firings, plan)
    ensures Consistent(v) && Flowing(v, plan) && StrictOrder(plan.relation)
  {}

  lemma FrontierInBase(firings: seq<Firing>, plan: Plan, p: nat, g: nat, t: Output)
    requires Direct(plan.relation, Live(firings), p, g)
    requires t in firings[p].outputs && !IsChild(firings[p].outputs, t.id)
    ensures t.event in BaseOf(firings, plan, g)
  {
    hide Direct, IsChild;
    assert p in DirectOf(firings, plan.relation, g) by {
      DirectIndices(plan.relation, Live(firings), p, g);
    }
    assert t.event in Frontier(firings[p].outputs);
    assert t.event in Frontiers(firings, DirectOf(firings, plan.relation, g));
  }

  lemma DirectIndices(relation: Matrix, live: seq<bool>, p: nat, g: nat)
    requires Direct(relation, live, p, g)
    ensures p < |live| && g < |live| && live[p] && live[g] && Related(relation, p, g)
  {}

  lemma BodyBeforeOn(v: View, a: seq<Output>, b: seq<Output>, c: seq<Output>)
    requires Consistent(v) && BodyBefore(v, a, b) && BodyBefore(v, b, c) && b != []
    ensures BodyBefore(v, a, c)
  {
    hide Consistent, Before;
    forall o, q | o in a && q in c ensures Before(v, o.event, q.event) {
      assert Before(v, o.event, b[0].event) && Before(v, b[0].event, q.event);
      BeforeIsStrictOrder(v, o.event, b[0].event, q.event);
      BeforeIsStrictOrder(v, b[0].event, q.event, q.event);
    }
  }

  lemma RelatedBefore(v: View, f: Stamping, firings: seq<Firing>, plan: Plan, a: nat, b: nat)
    requires Finished(v, firings, plan) && Lawful(v, f)
    requires a < |firings| && b < |firings| && Live(firings)[a] && Live(firings)[b] && Related(plan.relation, a, b)
    requires Sheltered(firings, plan.relation)
    ensures BodyBefore(v, firings[a].outputs, firings[b].outputs)
  {
    hide Finished, Lawful, StrictOrder, BodyBefore, Direct, Reach, Sheltered;
    var live := Live(firings);
    var edges := DirectEdges(plan.relation, live);
    FinishedConsistent(v, firings, plan);
    assert Reach(edges, a, b) && a != b by { DirectClosure(plan.relation, live, a, b); }
    var first := ReachFirst(edges, a, b);
    var s := iset x: nat | x < |firings| && live[x] && BodyBefore(v, firings[a].outputs, firings[x].outputs);
    DirectEdge(plan.relation, live, a, first);
    DirectBefore(v, f, firings, plan, a, first);
    forall x: nat, y: nat | (x, y) in edges && x in s ensures y in s {
      DirectEdge(plan.relation, live, x, y);
      DirectBefore(v, f, firings, plan, x, y);
      BodyBeforeOn(v, firings[a].outputs, firings[x].outputs, firings[y].outputs);
    }
    ReachWithin(edges, first, b, s);
  }

  lemma DirectEdge(relation: Matrix, live: seq<bool>, p: nat, i: nat)
    requires (p, i) in DirectEdges(relation, live)
    ensures Direct(relation, live, p, i) && p < |live| && i < |live| && live[p] && live[i]
  {}

  /** Between firings with outputs, one ordered pair of range events tells that the plan
      relates them; and all are ordered when it does, with every firing sheltered. */
  lemma RelationRecovered(v: View, f: Stamping, firings: seq<Firing>, plan: Plan, a: nat, b: nat)
    requires Finished(v, firings, plan) && Lawful(v, f)
    requires a < |firings| && b < |firings| && a != b && Live(firings)[a] && Live(firings)[b]
    ensures forall o, q :: o in firings[a].outputs && q in firings[b].outputs && Before(v, o.event, q.event) ==>
              Related(plan.relation, a, b) && !Stranded(firings[a].outputs, o) && !Orphan(firings[b].outputs, q)
    ensures BodyBefore(v, firings[a].outputs, firings[b].outputs) ==> Related(plan.relation, a, b)
    ensures Sheltered(firings, plan.relation) ==>
              (BodyBefore(v, firings[a].outputs, firings[b].outputs) <==> Related(plan.relation, a, b))
  {
    hide Finished, Lawful, Consistent, Placed, BaseOf, WellFormedBody, Leq, Orphan, Stranded, Sheltered;
    FinishedConsistent(v, firings, plan);
    FinishedBody(v, firings, plan, a);
    FinishedBody(v, firings, plan, b);
    if Related(plan.relation, a, b) && Sheltered(firings, plan.relation) {
      RelatedBefore(v, f, firings, plan, a, b);
    }
    forall o, q | o in firings[a].outputs && q in firings[b].outputs && Before(v, o.event, q.event)
      ensures Related(plan.relation, a, b) && !Stranded(firings[a].outputs, o) && !Orphan(firings[b].outputs, q)
    {
      assert Flows(plan, o.event, q.event);
    }
    assert firings[a].outputs[0] in firings[a].outputs && firings[b].outputs[0] in firings[b].outputs;
  }

  /** Nothing of a firing with a stranded output lies wholly before another, and no firing with
      an orphan wholly after one. */
  lemma NeverWhole(v: View, f: Stamping, firings: seq<Firing>, plan: Plan, a: nat, b: nat)
    requires Finished(v, firings, plan) && Lawful(v, f)
    requires a < |firings| && b < |firings| && a != b && Live(firings)[a] && Live(firings)[b]
    requires BodyBefore(v, firings[a].outputs, firings[b].outputs)
    ensures NoneStranded(firings[a].outputs) && NoOrphans(firings[b].outputs)
  {
    hide Finished, Lawful, Orphan, Stranded, Before;
    RelationRecovered(v, f, firings, plan, a, b);
    var o, q := firings[a].outputs[0], firings[b].outputs[0];
    assert o in firings[a].outputs && q in firings[b].outputs;
    forall x | x in firings[a].outputs ensures !Stranded(firings[a].outputs, x) {
      assert Before(v, x.event, q.event);
    }
    forall x | x in firings[b].outputs ensures !Orphan(firings[b].outputs, x) {
      assert Before(v, o.event, x.event);
    }
  }

  /** The refinement theorem: the range shows the plan's order, all events of one firing before
      all events of another exactly when the plan relates them, exactly when every firing is
      sheltered. */
  lemma RelationRecoveredIff(v: View, f: Stamping, firings: seq<Firing>, plan: Plan)
    requires Finished(v, firings, plan) && Lawful(v, f)
    ensures Sheltered(firings, plan.relation) <==>
            forall a: nat, b: nat :: a < |firings| && b < |firings| && a != b && Live(firings)[a] && Live(firings)[b] ==>
              (BodyBefore(v, firings[a].outputs, firings[b].outputs) <==> Related(plan.relation, a, b))
  {
    hide Finished, Lawful, BodyBefore, NoneStranded, NoOrphans;
    FinishedConsistent(v, firings, plan);
    forall a: nat, b: nat | a < |firings| && b < |firings| && a != b && Live(firings)[a] && Live(firings)[b]
      ensures BodyBefore(v, firings[a].outputs, firings[b].outputs) ==> NoneStranded(firings[a].outputs) && NoOrphans(firings[b].outputs)
      ensures Sheltered(firings, plan.relation) ==>
                (BodyBefore(v, firings[a].outputs, firings[b].outputs) <==> Related(plan.relation, a, b))
    {
      RelationRecovered(v, f, firings, plan, a, b);
      if BodyBefore(v, firings[a].outputs, firings[b].outputs) {
        NeverWhole(v, f, firings, plan, a, b);
      }
    }
  }

  /** No firing generates an orphan. */
  ghost predicate AllLedTo(firings: seq<Firing>) {
    forall g :: 0 <= g < |firings| ==> NoOrphans(firings[g].outputs)
  }

  /** Without orphans Start precedes everything a map generates. */
  lemma {:induction false} StartFirst(v: View, f: Stamping, firings: seq<Firing>, plan: Plan, g: nat, o: Output)
    requires Finished(v, firings, plan) && Lawful(v, f) && AllLedTo(firings)
    requires g < |firings| && o in firings[g].outputs && o.event in f
    ensures Before(v, plan.start, o.event)
    decreases f[o.event]
  {
    hide Finished, Lawful, WellFormedBody, Placed, Consistent, Before, Leq, Direct, Frontier, NoOrphans, Marks;
    FinishedConsistent(v, firings, plan);
    FinishedBody(v, firings, plan, g);
    LawfulKeys(v, f);
    var base := BaseOf(firings, plan, g);
    if base == {plan.start} {
      AfterBase(v, f, firings[g].outputs, base, o, plan.start);
    } else {
      var b :| b in Frontiers(firings, DirectOf(firings, plan.relation, g));
      var p :| p in DirectOf(firings, plan.relation, g) && p < |firings| && b in Frontier(firings[p].outputs);
      var t := FrontierOutput(firings[p].outputs, b);
      FinishedBody(v, firings, plan, p);
      AfterBase(v, f, firings[g].outputs, base, o, b);
      ConsistentShaped(v);
      LawfulFollowsOrder(v, f, b, o.event);
      StartFirst(v, f, firings, plan, p, t);
      BeforeIsStrictOrder(v, plan.start, b, o.event);
      BeforeIsStrictOrder(v, b, o.event, o.event);
    }
  }

  lemma FrontierOutput(outputs: seq<Output>, b: EventID) returns (t: Output)
    requires b in Frontier(outputs)
    ensures t in outputs && t.event == b
  {
    t :| t in outputs && t.event == b;
  }

  // ----- The run -----

  datatype Run = Executed | CyclicFirings | UnmergeableBody

  ghost predicate AllLayered(firings: seq<Firing>) {
    forall g :: 0 <= g < |firings| ==> Layered(firings[g].outputs)
  }

  /** The recorded witnesses: per firing, the identities of its direct predecessors. */
  ghost predicate Witnesses(firings: seq<Firing>, relation: Matrix, induced: seq<seq<Text>>) {
    |induced| == |firings| &&
    forall g: nat :: g < |firings| ==> IsWitness(firings, relation, g, induced[g])
  }

  ghost predicate IsWitness(firings: seq<Firing>, relation: Matrix, g: nat, ids: seq<Text>) {
    StrictlySorted(ids) && Members(ids) == FiringIDs(firings, DirectOf(firings, relation, g))
  }

  ghost function FiringIDs(firings: seq<Firing>, ps: set<nat>): set<Text> {
    set p | p in ps && p < |firings| :: firings[p].firingID
  }

  function Keys(firings: seq<Firing>): (r: seq<Text>)
    ensures |r| == |firings|
  {
    seq(|firings|, k requires 0 <= k < |firings| => firings[k].key)
  }

  function Matches(firings: seq<Firing>): (r: seq<seq<EventID>>)
    ensures |r| == |firings| && forall k :: 0 <= k < |r| ==> r[k] == firings[k].consumed
  {
    seq(|firings|, k requires 0 <= k < |firings| => firings[k].consumed)
  }

  method IdentitiesOf(firings: seq<Firing>, direct: seq<nat>) returns (ids: seq<Text>)
    requires forall i :: 0 <= i < |direct| ==> direct[i] < |firings|
    ensures StrictlySorted(ids) && Members(ids) == FiringIDs(firings, Members(direct))
  {
    var found: set<Text> := {};
    for index := 0 to |direct|
      invariant found == FiringIDs(firings, Members(direct[..index]))
    {
      TakeOneMore(direct, index);
      found := found + {firings[direct[index]].firingID};
    }
    TakeAll(direct);
    ids := Sort(found);
  }

  lemma OnlyStart(plan: Plan, content: Content)
    requires content.timings == []
    ensures var v := WithEvent(Empty, plan.start, content);
            Untimed(v) && Flowing(v, plan) && v.contents.Keys == {plan.start}
  {
    hide Reach;
    var v := WithEvent(Empty, plan.start, content);
    forall a, b | Leq(v, a, b) ensures Flows(plan, a, b) {
      assert a in v.contents;
    }
  }

  method StartRange(start: EventID, content: Content, ghost plan: Plan) returns (range: Poset)
    requires plan.start == start && content.timings == []
    ensures fresh(range) && Building(range, plan) && range.View().contents.Keys == {start}
  {
    hide Sound, ViewOf, Lawful, WithEvent, Flowing, Untimed;
    OnlyStart(plan, content);
    assert Canonized(content) == content && Admissible(content.timings) by {
      assert SortByClock([]) == [];
    }
    range := new Poset();
    var added := range.AddEvent(Offer(start, content, []));
  }

  lemma OneMoreBuilt(v: View, w: View, firings: seq<Firing>, plan: Plan, order: seq<nat>, k: nat)
    requires k < |order| && order[k] < |firings| && Refines(v, w)
    requires v.contents.Keys == {plan.start} + GeneratedBy(firings, order[..k])
    requires forall g :: g in order[..k] && g < |firings| ==> Placed(v, firings[g].outputs, BaseOf(firings, plan, g))
    requires w.contents.Keys == v.contents.Keys + EventsOf(firings[order[k]].outputs)
    requires Placed(w, firings[order[k]].outputs, BaseOf(firings, plan, order[k]))
    ensures w.contents.Keys == {plan.start} + GeneratedBy(firings, order[..k + 1])
    ensures forall g :: g in order[..k + 1] && g < |firings| ==> Placed(w, firings[g].outputs, BaseOf(firings, plan, g))
  {
    hide Placed, Refines, BaseOf;
    TakeOneMore(order, k);
    forall g | g in order[..k] && g < |firings| ensures Placed(w, firings[g].outputs, BaseOf(firings, plan, g)) {
      PlacedStays(v, w, firings[g].outputs, BaseOf(firings, plan, g), |firings[g].outputs|);
    }
  }

  ghost predicate FrontiersOf(firings: seq<Firing>, frontiers: map<nat, seq<EventID>>, done: seq<nat>) {
    frontiers.Keys == Members(done) &&
    forall g :: g in frontiers && g < |firings| ==> Members(frontiers[g]) == Frontier(firings[g].outputs)
  }

  ghost predicate Recorded(firings: seq<Firing>, relation: Matrix, induced: map<nat, seq<Text>>, done: seq<nat>) {
    induced.Keys == Members(done) &&
    (forall g: nat :: g in induced && g < |firings| ==> IsWitness(firings, relation, g, induced[g])) &&
    forall g :: g in done ==> g < |firings| && Layered(firings[g].outputs)
  }

  lemma OneMoreRecorded(
      firings: seq<Firing>, relation: Matrix, frontiers: map<nat, seq<EventID>>, induced: map<nat, seq<Text>>,
      order: seq<nat>, k: nat, recorded: seq<Text>, frontier: seq<EventID>)
    requires k < |order| && order[k] < |firings|
    requires FrontiersOf(firings, frontiers, order[..k]) && Recorded(firings, relation, induced, order[..k])
    requires Layered(firings[order[k]].outputs) && IsWitness(firings, relation, order[k], recorded)
    requires Members(frontier) == Frontier(firings[order[k]].outputs)
    ensures FrontiersOf(firings, frontiers[order[k] := frontier], order[..k + 1])
    ensures Recorded(firings, relation, induced[order[k] := recorded], order[..k + 1])
  {
    hide Layered, IsWitness, Frontier;
    TakeOneMore(order, k);
  }

  /** The plan's order is a strict one that reduces to the direct predecessors of `relation`. */
  ghost predicate Planned(firings: seq<Firing>, relation: Matrix, plan: Plan) {
    && Square(relation, |firings|) && (forall i: nat :: !Related(relation, i, i))
    && StrictOrder(plan.relation) && SameReduction(relation, plan.relation, Live(firings))
  }

  /** One iteration of the execute loop. */
  method ExecuteFiring(
      range: Poset, firings: seq<Firing>, relation: Matrix, start: EventID, frontiers: map<nat, seq<EventID>>,
      ghost plan: Plan, ghost order: seq<nat>, index: nat, ghost k: nat)
    returns (ok: bool, recorded: seq<Text>, frontier: seq<EventID>)
    requires plan.start == start && Planned(firings, relation, plan)
    requires WellFormedFirings(firings, plan.own, start) && Marked(firings, plan)
    requires k < |order| && order[k] == index && ListedByKey(relation, Keys(firings), order)
    requires Built(range, firings, plan, order[..k])
    requires FrontiersOf(firings, frontiers, order[..k])
    modifies range
    ensures index < |firings| && (ok <==> Layered(firings[index].outputs))
    ensures ok ==> Built(range, firings, plan, order[..k + 1])
    ensures ok ==> IsWitness(firings, relation, index, recorded) && Members(frontier) == Frontier(firings[index].outputs)
  {
    hide Sound, ViewOf, Lawful, StrictOrder, Site, Building, WellFormedBody, Layered, Placed, Frontier, Direct, DirectOf, ListedByKey, BaseOf, GeneratedBy, Refines, OwnsBody, SameReduction, Marks;
    ghost var v := range.View();
    DirectDone(firings, relation, Keys(firings), order, k);
    SiteFits(v, firings, relation, plan, Keys(firings), order, k);
    SameDirectOf(firings, relation, plan.relation, index);
    var direct := DirectPredecessors(index, Live(firings), relation, Keys(firings));
    DirectListed(firings, relation, index, direct);
    recorded := IdentitiesOf(firings, direct);
    var base := BaseCauses(direct, frontiers, start, firings, plan, index);
    ok, frontier := MaterialiseFiring(range, firings[index].outputs, base, plan, index);
    if ok {
      OneMoreBuilt(v, range.View(), firings, plan, order, k);
    }
  }

  lemma DirectListed(firings: seq<Firing>, relation: Matrix, index: nat, direct: seq<nat>)
    requires forall p: nat :: p in direct <==> Direct(relation, Live(firings), p, index)
    ensures Members(direct) == DirectOf(firings, relation, index)
    ensures forall i :: 0 <= i < |direct| ==> direct[i] < |firings|
  {
    hide Direct;
    forall p: nat | Direct(relation, Live(firings), p, index) ensures p < |firings| {
      DirectIndices(relation, Live(firings), p, index);
    }
    forall i | 0 <= i < |direct| ensures direct[i] < |firings| {
      assert direct[i] in direct;
    }
  }

  /** The plan of a run orders live firings by the closure of the policy's relation. */
  ghost predicate PlanFits(v: View, firings: seq<Firing>, policy: Policy, relation: Matrix, plan: Plan) {
    && IsFiringRelation(v, Matches(firings), policy, relation)
    && plan.relation == LiveClosure(relation, Live(firings))
  }

  lemma PlanReduces(v: View, firings: seq<Firing>, policy: Policy, relation: Matrix, plan: Plan)
    requires Consistent(v) && PlanFits(v, firings, policy, relation, plan) && !Stuck(relation)
    ensures Planned(firings, relation, plan)
  {
    hide Consistent, IsFiringRelation, Stuck, StrictOrder, SameReduction, LiveClosure;
    RowsSquare(v, Matches(firings), policy, relation);
    ClosureFits(v, Matches(firings), policy, relation, Live(firings));
    forall i: nat ensures !Related(relation, i, i) {
      RelatedMatches(v, Matches(firings), policy, relation, i, i);
    }
  }

  /** What the range tells of the policy: with every firing sheltered, all events of one firing
      precede all events of another exactly when the match of the one induces that of the
      other, under Diff by way of any live firings, otherwise outright. */
  lemma PolicyRecovered(
      d: View, v: View, f: Stamping, firings: seq<Firing>, policy: Policy, relation: Matrix, plan: Plan, a: nat, b: nat)
    requires Consistent(d) && PlanFits(d, firings, policy, relation, plan)
    requires Finished(v, firings, plan) && Lawful(v, f) && Sheltered(firings, plan.relation)
    requires a < |firings| && b < |firings| && a != b && Live(firings)[a] && Live(firings)[b]
    ensures BodyBefore(v, firings[a].outputs, firings[b].outputs) <==> Reach(LiveEdges(relation, Live(firings)), a, b)
    ensures policy != Diff ==>
              (BodyBefore(v, firings[a].outputs, firings[b].outputs) <==>
               Induces(d, Members(firings[a].consumed), Members(firings[b].consumed), policy))
  {
    hide Consistent, Finished, Lawful, BodyBefore, StrictOrder, IsFiringRelation, Induces, Reach, Stuck, Sheltered;
    RelationRecovered(v, f, firings, plan, a, b);
    if policy != Diff {
      FiringsStrictlyOrdered(d, Matches(firings), policy, relation);
      LiveClosureSame(relation, Live(firings), a, b);
      RelatedMatches(d, Matches(firings), policy, relation, a, b);
    }
  }

  /** The execute loop of executeDeterministicEventPatternMap. */
  method ExecuteAll(
      range: Poset, firings: seq<Firing>, relation: Matrix, order: seq<nat>, start: EventID, ghost plan: Plan)
    returns (ok: bool, induced: map<nat, seq<Text>>)
    requires plan.start == start && Planned(firings, relation, plan)
    requires WellFormedFirings(firings, plan.own, start) && Marked(firings, plan)
    requires ListedByKey(relation, Keys(firings), order) && forall g :: 0 <= g < |firings| ==> g in order
    requires Building(range, plan) && range.View().contents.Keys == {start}
    modifies range
    ensures ok <==> AllLayered(firings)
    ensures ok ==> range.Valid() && Untimed(range.View()) && Finished(range.View(), firings, plan)
    ensures ok ==> forall g: nat :: g < |firings| ==> g in induced && IsWitness(firings, relation, g, induced[g])
  {
    hide Sound, ViewOf, Lawful, StrictOrder, Building, WellFormedFirings, Layered, ListedByKey, IsWitness, Frontier, Built, FrontiersOf, Recorded, Untimed, Finished, AllLayered, SameReduction, Marks;
    induced := map[];
    var frontiers: map<nat, seq<EventID>> := map[];
    NothingBuilt(range, firings, plan, order);
    NothingRecorded(firings, relation, order);
    for k := 0 to |order|
      invariant Built(range, firings, plan, order[..k])
      invariant FrontiersOf(firings, frontiers, order[..k])
      invariant Recorded(firings, relation, induced, order[..k])
    {
      var done, recorded, frontier := ExecuteFiring(range, firings, relation, start, frontiers, plan, order, order[k], k);
      if !done {
        NotAllLayered(firings, order[k]);
        return false, induced;
      }
      OneMoreRecorded(firings, relation, frontiers, induced, order, k, recorded, frontier);
      induced := induced[order[k] := recorded];
      frontiers := frontiers[order[k] := frontier];
    }
    TakeAll(order);
    ok := true;
    AllRecorded(firings, relation, induced, order);
    AllBuilt(range, firings, plan, order);
  }

  lemma NothingRecorded(firings: seq<Firing>, relation: Matrix, order: seq<nat>)
    ensures FrontiersOf(firings, map[], order[..0]) && Recorded(firings, relation, map[], order[..0])
  {}

  lemma NotAllLayered(firings: seq<Firing>, g: nat)
    requires g < |firings| && !Layered(firings[g].outputs)
    ensures !AllLayered(firings)
  {
    hide Layered;
  }

  lemma AllRecorded(firings: seq<Firing>, relation: Matrix, induced: map<nat, seq<Text>>, order: seq<nat>)
    requires Recorded(firings, relation, induced, order)
    requires forall g :: 0 <= g < |firings| ==> g in order
    ensures AllLayered(firings) && forall i :: 0 <= i < |order| ==> order[i] < |firings|
    ensures forall g: nat :: g < |firings| ==> g in induced && IsWitness(firings, relation, g, induced[g])
  {
    hide Layered, IsWitness;
    forall i | 0 <= i < |order| ensures order[i] < |firings| {
      assert order[i] in order;
    }
  }

  lemma NothingBuilt(range: Poset, firings: seq<Firing>, plan: Plan, order: seq<nat>)
    requires Building(range, plan) && range.View().contents.Keys == {plan.start}
    ensures Built(range, firings, plan, order[..0])
  {
    hide Building;
    assert order[..0] == [] && GeneratedBy(firings, []) == {};
  }

  lemma AllBuilt(range: Poset, firings: seq<Firing>, plan: Plan, order: seq<nat>)
    requires Built(range, firings, plan, order) && StrictOrder(plan.relation)
    requires WellFormedFirings(firings, plan.own, plan.start) && Marked(firings, plan)
    requires (forall g :: 0 <= g < |firings| ==> g in order) && forall i :: 0 <= i < |order| ==> order[i] < |firings|
    ensures range.Valid() && Untimed(range.View()) && Finished(range.View(), firings, plan)
  {
    hide Sound, ViewOf, Lawful, StrictOrder, Placed, WellFormedFirings, BaseOf, EventsOf, Untimed, Flowing, Consistent, Marked;
    SoundConsistent(range.Stored());
    var all := seq(|firings|, i requires 0 <= i < |firings| => i);
    forall id ensures id in GeneratedBy(firings, order) <==> id in GeneratedBy(firings, all) {
      if id in GeneratedBy(firings, order) {
        var g :| g in order && g < |firings| && id in EventsOf(firings[g].outputs);
        assert all[g] == g;
      }
    }
  }

  ghost function OrphansOf(firings: seq<Firing>): set<EventID> {
    set g, o | 0 <= g < |firings| && o in firings[g].outputs && Orphan(firings[g].outputs, o) :: o.event
  }

  ghost function StrandedOf(firings: seq<Firing>): set<EventID> {
    set g, o | 0 <= g < |firings| && o in firings[g].outputs && Stranded(firings[g].outputs, o) :: o.event
  }

  /** No two outputs generate one event. */
  lemma OneOutput(own: map<EventID, nat>, firings: seq<Firing>, start: EventID, g: nat, o: Output, h: nat, q: Output)
    requires WellFormedFirings(firings, own, start) && g < |firings| && h < |firings|
    requires o in firings[g].outputs && q in firings[h].outputs && o.event == q.event
    ensures g == h && o == q && o.event != start
  {
    hide WellFormedBody;
    assert OwnsBody(own, firings[g].outputs, g) && OwnsBody(own, firings[h].outputs, h);
    SameOutput(firings[g].outputs, o, q);
  }

  lemma PlanMarked(firings: seq<Firing>, plan: Plan)
    requires WellFormedFirings(firings, plan.own, plan.start)
    requires plan.orphans == OrphansOf(firings) && plan.stranded == StrandedOf(firings)
    ensures Marked(firings, plan)
  {
    hide Orphan, Stranded, WellFormedFirings;
    forall g, o | 0 <= g < |firings| && o in firings[g].outputs
      ensures o.event != plan.start
      ensures o.event in plan.orphans <==> Orphan(firings[g].outputs, o)
      ensures o.event in plan.stranded <==> Stranded(firings[g].outputs, o)
    {
      OneOutput(plan.own, firings, plan.start, g, o, g, o);
      if o.event in plan.orphans {
        var h, q :| 0 <= h < |firings| && q in firings[h].outputs && Orphan(firings[h].outputs, q) && q.event == o.event;
        OneOutput(plan.own, firings, plan.start, g, o, h, q);
      }
      if o.event in plan.stranded {
        var h, q :| 0 <= h < |firings| && q in firings[h].outputs && Stranded(firings[h].outputs, q) && q.event == o.event;
        OneOutput(plan.own, firings, plan.start, g, o, h, q);
      }
    }
  }

  /** How a run must end: with a cycle exactly under Diff when a nonempty match lies within
      another and precedes the rest of it, then with a body whose classes cannot be layered. */
  ghost function Outcome(v: View, firings: seq<Firing>, policy: Policy): Run {
    if policy == Diff && SomeAbsorbed(v, Matches(firings)) then CyclicFirings
    else if AllLayered(firings) then Executed
    else UnmergeableBody
  }

  /** executeDeterministicEventPatternMap after match selection: how it ends, and that a
      finished run places every firing and records its direct predecessors. */
  method Execute(
      domain: Poset, firings: seq<Firing>, policy: Policy, start: EventID, startContent: Content, ghost own: map<EventID, nat>)
    returns (run: Run, range: Poset, induced: seq<seq<Text>>, ghost relation: Matrix, ghost plan: Plan)
    requires domain.Valid() && WellFormedFirings(firings, own, start) && startContent.timings == []
    ensures plan.own == own && plan.start == start && PlanFits(domain.View(), firings, policy, relation, plan)
    ensures run == Outcome(domain.View(), firings, policy)
    ensures fresh(range)
    ensures run.Executed? ==>
              && range.Valid() && Finished(range.View(), firings, plan) && Planned(firings, relation, plan)
              && Witnesses(firings, relation, induced)
  {
    hide Sound, ViewOf, Lawful, StrictOrder, WellFormedFirings, Layered, ListedByKey, IsWitness, IsFiringRelation, Finished, Building, AllLayered, SomeAbsorbed, Stuck, LiveClosure, Planned, Marked, OrphansOf, StrandedOf;
    var firingRelation := FiringRelation(domain, Matches(firings), policy);
    relation := firingRelation;
    plan := Plan(own, LiveClosure(relation, Live(firings)), start, OrphansOf(firings), StrandedOf(firings));
    PlanMarked(firings, plan);
    range := StartRange(start, startContent, plan);
    induced := [];
    SoundConsistent(domain.Stored());
    CyclicIff(domain.View(), Matches(firings), policy, relation);
    var cyclic, order := TopologicalOrder(firingRelation, Keys(firings));
    if cyclic {
      run := CyclicFirings;
      return;
    }
    PlanReduces(domain.View(), firings, policy, relation, plan);
    var ok, recorded := ExecuteAll(range, firings, firingRelation, order, start, plan);
    run := if ok then Executed else UnmergeableBody;
    if ok {
      induced := seq(|firings|, g requires 0 <= g < |firings| => recorded[g]);
    }
  }

  // ----- The artifact check -----

  /** Between distinct firings with outputs: all generated events of one before all of the other. */
  ghost predicate IsRangeRow(v: View, firings: seq<Firing>, i: nat, row: seq<bool>)
    requires i < |firings|
  {
    |row| == |firings| &&
    forall j: nat :: j < |firings| ==>
      (row[j] <==> i != j && Live(firings)[i] && Live(firings)[j] && BodyBefore(v, firings[i].outputs, firings[j].outputs))
  }

  ghost predicate IsRangeRelation(v: View, firings: seq<Firing>, relation: Matrix) {
    |relation| == |firings| && forall i: nat :: i < |firings| ==> IsRangeRow(v, firings, i, relation[i])
  }

  /** allGeneratedMapEventsBefore. */
  method AllGeneratedBefore(range: Poset, left: seq<Output>, right: seq<Output>) returns (all: bool)
    requires range.Valid()
    ensures all <==> left != [] && right != [] && BodyBefore(range.View(), left, right)
  {
    hide Sound, ViewOf, Before;
    if |left| == 0 || |right| == 0 {
      return false;
    }
    for i := 0 to |left|
      invariant forall k, q :: 0 <= k < i && q in right ==> Before(range.View(), left[k].event, q.event)
    {
      for j := 0 to |right|
        invariant forall k :: 0 <= k < j ==> Before(range.View(), left[i].event, right[k].event)
      {
        all := CausallyBefore(range, left[i].event, right[j].event);
        if !all {
          assert left[i] in left && right[j] in right;
          return;
        }
      }
    }
    return true;
  }

  method RangeRow(range: Poset, firings: seq<Firing>, i: nat) returns (row: seq<bool>)
    requires range.Valid() && i < |firings|
    ensures IsRangeRow(range.View(), firings, i, row)
  {
    hide Sound, ViewOf, BodyBefore;
    row := [];
    for j := 0 to |firings|
      invariant |row| == j
      invariant forall k: nat :: k < j ==>
                  (row[k] <==> i != k && Live(firings)[i] && Live(firings)[k] &&
                               BodyBefore(range.View(), firings[i].outputs, firings[k].outputs))
    {
      var before := false;
      if i != j {
        before := AllGeneratedBefore(range, firings[i].outputs, firings[j].outputs);
      }
      row := row + [before];
    }
  }

  method RangeRelation(range: Poset, firings: seq<Firing>) returns (relation: Matrix)
    requires range.Valid()
    ensures IsRangeRelation(range.View(), firings, relation) && Square(relation, |firings|)
    ensures forall i: nat :: !Related(relation, i, i)
  {
    hide Sound, ViewOf, BodyBefore;
    relation := [];
    for i := 0 to |firings|
      invariant |relation| == i
      invariant forall k: nat :: k < i ==> IsRangeRow(range.View(), firings, k, relation[k])
    {
      var row := RangeRow(range, firings, i);
      relation := relation + [row];
    }
    assert forall i: nat :: i < |firings| ==> IsRangeRow(range.View(), firings, i, relation[i]);
  }

  /** Start is in the range and precedes everything else there. */
  method StartPrecedes(range: Poset, start: EventID) returns (ok: bool)
    requires range.Valid()
    ensures ok <==> start in range.View().contents && forall id :: id in range.View().contents && id != start ==> Before(range.View(), start, id)
  {
    hide Sound, ViewOf, Before;
    KeysFacts(range.Stored());
    if start !in range.events {
      return false;
    }
    var rest := range.events.Keys;
    while rest != {}
      invariant rest <= range.events.Keys
      invariant forall id :: id in range.events && id !in rest && id != start ==> Before(range.View(), start, id)
      decreases rest
    {
      var id :| id in rest;
      rest := rest - {id};
      if id != start {
        ok := CausallyBefore(range, start, id);
        if !ok {
          return;
        }
      }
    }
    ok := true;
  }

  /** One firing's claims: named events of the range, each once, Start not among them. */
  ghost predicate ClaimsOwn(v: View, outputs: seq<Output>, start: EventID) {
    && (forall o :: o in outputs ==> o.event != [] && o.event != start && o.event in v.contents)
    && forall i, j :: 0 <= i < j < |outputs| ==> outputs[i].event != outputs[j].event
  }

  /** Every range event but Start is claimed as generated by exactly one firing. */
  ghost predicate ClaimedOnce(v: View, firings: seq<Firing>, start: EventID) {
    && (forall g :: 0 <= g < |firings| ==> ClaimsOwn(v, firings[g].outputs, start))
    && (forall g, h :: 0 <= g < h < |firings| ==> EventsOf(firings[g].outputs) !! EventsOf(firings[h].outputs))
    && v.contents.Keys <= {start} + ClaimedBy(firings, |firings|)
  }

  ghost function ClaimedBy(firings: seq<Firing>, n: nat): set<EventID>
    requires n <= |firings|
  {
    set g, id | 0 <= g < n && id in EventsOf(firings[g].outputs) :: id
  }

  /** No consumed domain event is also an event of the range. */
  ghost predicate DomainApart(v: View, firings: seq<Firing>) {
    forall g, id :: 0 <= g < |firings| && id in firings[g].consumed ==> id !in v.contents
  }

  /** What normalizeMapExecutionArtifact demands of the range, the claims and the induced witnesses. */
  ghost predicate Accepts(v: View, firings: seq<Firing>, start: EventID, induced: seq<seq<Text>>) {
    && start in v.contents && (forall id :: id in v.contents && id != start ==> Before(v, start, id))
    && ClaimedOnce(v, firings, start) && DomainApart(v, firings)
    && Witnesses(firings, Derived(v, firings), induced)
  }

  method ClaimFiring(range: Poset, outputs: seq<Output>, start: EventID, claimed: set<EventID>)
    returns (ok: bool, claimed': set<EventID>)
    requires range.Valid()
    ensures ok <==> ClaimsOwn(range.View(), outputs, start) && EventsOf(outputs) !! claimed
    ensures ok ==> claimed' == claimed + EventsOf(outputs)
  {
    hide Sound, ViewOf, ClaimsOwn, EventsOf;
    KeysFacts(range.Stored());
    claimed' := claimed;
    NothingClaimed(range.View(), start);
    for index := 0 to |outputs|
      invariant claimed' == claimed + EventsOf(outputs[..index]) && EventsOf(outputs[..index]) !! claimed
      invariant ClaimsOwn(range.View(), outputs[..index], start)
    {
      var id := outputs[index].event;
      if id == [] || id == start || id in claimed' || id !in range.events {
        NotClaimable(range.View(), outputs, start, claimed, index);
        return false, claimed';
      }
      ClaimedNext(range.View(), outputs, start, index);
      claimed' := claimed' + {id};
    }
    TakeAll(outputs);
    ok := true;
  }

  lemma NothingClaimed(v: View, start: EventID)
    ensures ClaimsOwn(v, [], start) && EventsOf([]) == {}
  {}

  lemma ClaimedNext(v: View, outputs: seq<Output>, start: EventID, index: nat)
    requires index < |outputs| && ClaimsOwn(v, outputs[..index], start)
    requires var id := outputs[index].event;
             id != [] && id != start && id in v.contents && id !in EventsOf(outputs[..index])
    ensures ClaimsOwn(v, outputs[..index + 1], start)
    ensures EventsOf(outputs[..index + 1]) == EventsOf(outputs[..index]) + {outputs[index].event}
  {
    assert outputs[..index + 1] == outputs[..index] + [outputs[index]];
    forall i | 0 <= i < index ensures outputs[..index][i].event in EventsOf(outputs[..index]) {
      assert outputs[..index][i] in outputs[..index];
    }
  }

  lemma NotClaimable(v: View, outputs: seq<Output>, start: EventID, claimed: set<EventID>, index: nat)
    requires index < |outputs|
    requires var id := outputs[index].event;
             id == [] || id == start || id in claimed + EventsOf(outputs[..index]) || id !in v.contents
    ensures !(ClaimsOwn(v, outputs, start) && EventsOf(outputs) !! claimed)
  {
    var id := outputs[index].event;
    assert outputs[index] in outputs && id in EventsOf(outputs);
    if id in EventsOf(outputs[..index]) {
      var o :| o in outputs[..index] && o.event == id;
      var i :| 0 <= i < index && outputs[..index][i] == o;
      assert outputs[i].event == outputs[index].event;
    }
  }

  method ClaimAll(range: Poset, firings: seq<Firing>, start: EventID) returns (ok: bool)
    requires range.Valid()
    ensures ok <==> ClaimedOnce(range.View(), firings, start)
  {
    hide Sound, ViewOf, ClaimsOwn, EventsOf;
    KeysFacts(range.Stored());
    var claimed: set<EventID> := {};
    for g := 0 to |firings|
      invariant claimed == ClaimedBy(firings, g)
      invariant forall k :: 0 <= k < g ==> ClaimsOwn(range.View(), firings[k].outputs, start)
      invariant forall k, l :: 0 <= k < l < g ==> EventsOf(firings[k].outputs) !! EventsOf(firings[l].outputs)
    {
      ghost var before := claimed;
      ok, claimed := ClaimFiring(range, firings[g].outputs, start, claimed);
      if !ok {
        return;
      }
      assert ClaimedBy(firings, g + 1) == before + EventsOf(firings[g].outputs);
    }
    ok := range.events.Keys <= {start} + claimed;
  }

  method CheckDomainApart(range: Poset, firings: seq<Firing>) returns (ok: bool)
    requires range.Valid()
    ensures ok <==> DomainApart(range.View(), firings)
  {
    hide Sound, ViewOf;
    KeysFacts(range.Stored());
    for g := 0 to |firings|
      invariant forall k, id :: 0 <= k < g && id in firings[k].consumed ==> id !in range.View().contents
    {
      for index := 0 to |firings[g].consumed|
        invariant forall i :: 0 <= i < index ==> firings[g].consumed[i] !in range.View().contents
      {
        if firings[g].consumed[index] in range.events {
          assert firings[g].consumed[index] in firings[g].consumed;
          return false;
        }
      }
    }
    ok := true;
  }

  /** The relation between firings as the range shows it. */
  ghost function Derived(v: View, firings: seq<Firing>): (relation: Matrix)
    ensures IsRangeRelation(v, firings, relation)
  {
    hide BodyBefore;
    seq(|firings|, i requires 0 <= i < |firings| =>
      seq(|firings|, j requires 0 <= j < |firings| =>
        i != j && Live(firings)[i] && Live(firings)[j] && BodyBefore(v, firings[i].outputs, firings[j].outputs)))
  }

  lemma DerivedOnly(v: View, firings: seq<Firing>, relation: Matrix)
    requires IsRangeRelation(v, firings, relation)
    ensures relation == Derived(v, firings)
  {
    hide BodyBefore;
    var derived := Derived(v, firings);
    forall i: nat | i < |firings| ensures relation[i] == derived[i] {
      assert IsRangeRow(v, firings, i, relation[i]) && IsRangeRow(v, firings, i, derived[i]);
    }
  }

  method CheckArtifact(range: Poset, firings: seq<Firing>, start: EventID, induced: seq<seq<Text>>)
    returns (ok: bool)
    requires range.Valid() && |induced| == |firings|
    ensures ok <==> Accepts(range.View(), firings, start, induced)
  {
    hide Sound, ViewOf, Before, IsRangeRow, IsWitness, Direct, Derived, ClaimedOnce, DomainApart;
    ok := StartPrecedes(range, start);
    if !ok {
      return;
    }
    ok := ClaimAll(range, firings, start);
    if !ok {
      return;
    }
    ok := CheckDomainApart(range, firings);
    if !ok {
      return;
    }
    var derived := RangeRelation(range, firings);
    DerivedOnly(range.View(), firings, derived);
    for g := 0 to |firings|
      invariant forall k: nat :: k < g ==> IsWitness(firings, derived, k, induced[k])
    {
      var direct := DirectPredecessors(g, Live(firings), derived, Keys(firings));
      DirectListed(firings, derived, g, direct);
      var expected := IdentitiesOf(firings, direct);
      WitnessUnique(firings, derived, g, expected, induced[g]);
      if expected != induced[g] {
        return false;
      }
    }
    ok := true;
  }

  lemma WitnessUnique(firings: seq<Firing>, relation: Matrix, g: nat, expected: seq<Text>, ids: seq<Text>)
    requires StrictlySorted(expected) && Members(expected) == FiringIDs(firings, DirectOf(firings, relation, g))
    ensures IsWitness(firings, relation, g, ids) <==> ids == expected
  {
    hide Direct, DirectOf;
    if IsWitness(firings, relation, g, ids) {
      SortedUnique(expected, ids);
    }
  }

  /** On live firings the relation read off a finished range is the induced one. */
  lemma SameDirect(v: View, f: Stamping, firings: seq<Firing>, plan: Plan, derived: Matrix, g: nat)
    requires Finished(v, firings, plan) && Lawful(v, f) && IsRangeRelation(v, firings, derived) && g < |firings|
    requires Sheltered(firings, plan.relation)
    ensures DirectOf(firings, derived, g) == DirectOf(firings, plan.relation, g)
  {
    hide Finished, Lawful, IsRangeRelation, BodyBefore, StrictOrder, Sheltered;
    var live := Live(firings);
    forall a: nat, b: nat | a < |firings| && b < |firings| && live[a] && live[b]
      ensures Related(derived, a, b) <==> Related(plan.relation, a, b)
    {
      DerivedRelated(v, f, firings, plan, derived, a, b);
    }
    forall p: nat ensures Direct(derived, live, p, g) <==> Direct(plan.relation, live, p, g) {
    }
  }

  lemma DerivedRelated(v: View, f: Stamping, firings: seq<Firing>, plan: Plan, derived: Matrix, a: nat, b: nat)
    requires Finished(v, firings, plan) && Lawful(v, f) && IsRangeRelation(v, firings, derived)
    requires Sheltered(firings, plan.relation)
    requires a < |firings| && b < |firings| && Live(firings)[a] && Live(firings)[b]
    ensures Related(derived, a, b) <==> Related(plan.relation, a, b)
  {
    hide Finished, Lawful, BodyBefore, Sheltered;
    assert IsRangeRow(v, firings, a, derived[a]);
    FinishedConsistent(v, firings, plan);
    if a != b {
      RelationRecovered(v, f, firings, plan, a, b);
    }
  }

  lemma OutputOf(outputs: seq<Output>, id: EventID) returns (o: Output)
    requires id in EventsOf(outputs)
    ensures o in outputs && o.event == id
  {
    o :| o in outputs && o.event == id;
  }

  /** Start precedes every other range event exactly when no firing generates an orphan. */
  lemma StartPrecedesIff(v: View, f: Stamping, firings: seq<Firing>, plan: Plan)
    requires Finished(v, firings, plan) && Lawful(v, f)
    ensures plan.start in v.contents
    ensures (forall id :: id in v.contents && id != plan.start ==> Before(v, plan.start, id)) <==> AllLedTo(firings)
  {
    hide Lawful, Before, Finished, NoOrphans;
    LawfulKeys(v, f);
    FinishedKeys(v, firings, plan);
    if AllLedTo(firings) {
      forall id | id in v.contents && id != plan.start ensures Before(v, plan.start, id) {
        assert id in v.contents.Keys;
        var g :| 0 <= g < |firings| && id in EventsOf(firings[g].outputs);
        var o := OutputOf(firings[g].outputs, id);
        StartFirst(v, f, firings, plan, g, o);
      }
    } else {
      var g :| 0 <= g < |firings| && !NoOrphans(firings[g].outputs);
      var o := OrphanAlone(v, firings, plan, g);
    }
  }

  /** Nothing precedes an orphan. */
  lemma OrphanAlone(v: View, firings: seq<Firing>, plan: Plan, g: nat) returns (o: Output)
    requires Finished(v, firings, plan) && g < |firings| && !NoOrphans(firings[g].outputs)
    ensures o in firings[g].outputs && o.event in v.contents && o.event != plan.start && !Before(v, plan.start, o.event)
  {
    hide Finished, Orphan, Stranded, Consistent, StrictOrder;
    o :| o in firings[g].outputs && Orphan(firings[g].outputs, o);
    FinishedBody(v, firings, plan, g);
    FinishedConsistent(v, firings, plan);
    assert Leq(v, plan.start, o.event) ==> Flows(plan, plan.start, o.event);
  }

  lemma FinishedClaims(v: View, firings: seq<Firing>, plan: Plan)
    requires Finished(v, firings, plan)
    ensures ClaimedOnce(v, firings, plan.start)
  {
    hide Finished, WellFormedBody, Placed, BaseOf, EventsOf;
    forall g | 0 <= g < |firings| ensures ClaimsOwn(v, firings[g].outputs, plan.start) {
      FinishedBody(v, firings, plan, g);
      BodyNames(firings[g].outputs);
    }
    forall g, h | 0 <= g < h < |firings| ensures EventsOf(firings[g].outputs) !! EventsOf(firings[h].outputs) {
      FinishedOwns(v, firings, plan);
      OwnedApart(plan.own, firings, g, h);
    }
    FinishedKeys(v, firings, plan);
  }

  lemma BodyNames(outputs: seq<Output>)
    requires WellFormedBody(outputs)
    ensures forall o :: o in outputs ==> o.event != []
    ensures forall i, j :: 0 <= i < j < |outputs| ==> outputs[i].event != outputs[j].event
  {}

  lemma FinishedOwns(v: View, firings: seq<Firing>, plan: Plan)
    requires Finished(v, firings, plan)
    ensures forall k :: 0 <= k < |firings| ==> OwnsBody(plan.own, firings[k].outputs, k)
  {}

  lemma FinishedKeys(v: View, firings: seq<Firing>, plan: Plan)
    requires Finished(v, firings, plan)
    ensures v.contents.Keys == {plan.start} + ClaimedBy(firings, |firings|)
  {
    hide Consistent, Flowing, StrictOrder, WellFormedFirings, Placed, EventsOf;
    var all := seq(|firings|, i requires 0 <= i < |firings| => i);
    forall id ensures id in GeneratedBy(firings, all) <==> id in ClaimedBy(firings, |firings|) {
      if id in ClaimedBy(firings, |firings|) {
        var g :| 0 <= g < |firings| && id in EventsOf(firings[g].outputs);
        assert all[g] == g;
      }
    }
  }

  /** No consumed domain event is Start or an event some firing generates. */
  ghost predicate DomainFresh(firings: seq<Firing>, start: EventID) {
    forall g, id :: 0 <= g < |firings| && id in firings[g].consumed ==> id != start && id !in ClaimedBy(firings, |firings|)
  }

  lemma FreshIff(v: View, firings: seq<Firing>, plan: Plan)
    requires Finished(v, firings, plan)
    ensures DomainApart(v, firings) <==> DomainFresh(firings, plan.start)
  {
    hide Finished, ClaimedBy;
    FinishedKeys(v, firings, plan);
    if DomainApart(v, firings) {
      forall g, id | 0 <= g < |firings| && id in firings[g].consumed ensures id != plan.start && id !in ClaimedBy(firings, |firings|) {
        assert id !in v.contents.Keys;
      }
    }
  }

  /** What the check asks of the classes a run skipped: no orphans, and nothing stranded in a
      firing that induces another. */
  ghost predicate ClassesHarmless(d: View, firings: seq<Firing>, policy: Policy) {
    AllLedTo(firings) && forall a: nat, b: nat :: InducesLive(d, firings, policy, a, b) ==> NoneStranded(firings[a].outputs)
  }

  /** Both firings generate something, and the match of the one induces that of the other. */
  ghost predicate InducesLive(d: View, firings: seq<Firing>, policy: Policy, a: nat, b: nat) {
    && a < |firings| && b < |firings| && a != b && Live(firings)[a] && Live(firings)[b]
    && Induces(d, Members(firings[a].consumed), Members(firings[b].consumed), policy)
  }

  /** Output identities without NUL bytes are harmless: no class is skipped. */
  lemma PlainRunsHarmless(d: View, firings: seq<Firing>, policy: Policy)
    requires forall g :: 0 <= g < |firings| ==> WellFormedBody(firings[g].outputs)
    requires forall g, o, id :: 0 <= g < |firings| && o in firings[g].outputs && id in ClassIds(o) ==> NulFree(id)
    ensures ClassesHarmless(d, firings, policy)
    ensures forall g, o :: 0 <= g < |firings| && o in firings[g].outputs ==> KeptIds(firings[g].outputs, o) == ClassIds(o)
  {
    hide WellFormedBody, ClassIds, NulFree, KeptIds, BodyKeysApart, NoOrphans, NoneStranded, Induces;
    forall g | 0 <= g < |firings|
      ensures NoOrphans(firings[g].outputs) && NoneStranded(firings[g].outputs)
      ensures forall o :: o in firings[g].outputs ==> KeptIds(firings[g].outputs, o) == ClassIds(o)
    {
      PlainBodyKeys(firings[g].outputs);
      ApartSkipsNone(firings[g].outputs);
      forall o | o in firings[g].outputs ensures KeptIds(firings[g].outputs, o) == ClassIds(o) {
        ApartKeepsAll(firings[g].outputs, o);
      }
    }
  }

  /** Harmless classes shelter every firing: to induce a live firing by way of others is to
      induce one outright. */
  lemma HarmlessIff(d: View, firings: seq<Firing>, policy: Policy, relation: Matrix, plan: Plan)
    requires PlanFits(d, firings, policy, relation, plan) && Planned(firings, relation, plan)
    ensures ClassesHarmless(d, firings, policy) <==> AllLedTo(firings) && Sheltered(firings, plan.relation)
  {
    hide IsFiringRelation, Induces, NoneStranded, NoOrphans, StrictOrder, SameReduction, LiveClosure, LiveEdges, Reach;
    var live := Live(firings);
    forall a: nat, b: nat | a < |firings| && b < |firings| && live[a] && live[b] && Related(plan.relation, a, b)
      ensures exists c: nat :: InducesLive(d, firings, policy, a, c)
    {
      var c := FirstInduced(relation, live, a, b);
      RelatedMatches(d, Matches(firings), policy, relation, a, c);
      assert InducesLive(d, firings, policy, a, c);
    }
    forall a: nat, b: nat | InducesLive(d, firings, policy, a, b) ensures Related(plan.relation, a, b)
    {
      RelatedMatches(d, Matches(firings), policy, relation, a, b);
      EdgeInClosure(relation, live, a, b);
    }
  }

  lemma FirstInduced(relation: Matrix, live: seq<bool>, a: nat, b: nat) returns (c: nat)
    requires Related(LiveClosure(relation, live), a, b)
    ensures c < |live| && live[c] && Related(relation, a, c)
  {
    hide Reach;
    c := ReachFirst(LiveEdges(relation, live), a, b);
  }

  lemma EdgeInClosure(relation: Matrix, live: seq<bool>, a: nat, b: nat)
    requires a < |live| && b < |live| && live[a] && live[b] && a != b && Related(relation, a, b)
    ensures Related(LiveClosure(relation, live), a, b)
  {
    hide Reach;
    EdgeReaches(LiveEdges(relation, live), a, b);
  }

  /** An executed run passes the artifact check exactly when no domain event it consumed has
      the identity of a range event and the classes it skipped are harmless; the reader then
      re-derives the recorded direct predecessors. */
  method ExecuteAndCheck(
      domain: Poset, firings: seq<Firing>, policy: Policy, start: EventID, startContent: Content, ghost own: map<EventID, nat>)
    returns (run: Run, ok: bool)
    requires domain.Valid() && WellFormedFirings(firings, own, start) && startContent.timings == []
    ensures run == Outcome(domain.View(), firings, policy)
    ensures run.Executed? ==> (ok <==> DomainFresh(firings, start) && ClassesHarmless(domain.View(), firings, policy))
  {
    hide Sound, ViewOf, Lawful, WellFormedFirings, Layered, IsWitness, Finished, AllLayered, PlanFits, IsRangeRelation, Derived, SomeAbsorbed, Planned, ClaimedOnce, DomainApart, DomainFresh, Sheltered, AllLedTo, ClassesHarmless;
    ok := false;
    var range, induced;
    ghost var relation, plan;
    run, range, induced, relation, plan := Execute(domain, firings, policy, start, startContent, own);
    if run.Executed? {
      ok := CheckArtifact(range, firings, start, induced);
      StartPrecedesIff(range.View(), range.Stamping(), firings, plan);
      FinishedClaims(range.View(), firings, plan);
      FreshIff(range.View(), firings, plan);
      HarmlessIff(domain.View(), firings, policy, relation, plan);
      if AllLedTo(firings) {
        WitnessesIff(range.View(), range.Stamping(), firings, relation, plan, Derived(range.View(), firings), induced);
      }
    }
  }

  /** The recorded witnesses are the re-derived ones exactly when every firing is sheltered. */
  lemma WitnessesIff(
      v: View, f: Stamping, firings: seq<Firing>, relation: Matrix, plan: Plan, derived: Matrix, induced: seq<seq<Text>>)
    requires Finished(v, firings, plan) && Lawful(v, f) && IsRangeRelation(v, firings, derived)
    requires Planned(firings, relation, plan) && Witnesses(firings, relation, induced) && AllLedTo(firings)
    ensures Witnesses(firings, derived, induced) <==> Sheltered(firings, plan.relation)
  {
    hide Finished, Lawful, IsRangeRelation, DirectOf, SameReduction, StrictOrder, Sheltered, IsWitness;
    if Sheltered(firings, plan.relation) {
      forall g: nat | g < |firings| ensures IsWitness(firings, derived, g, induced[g]) {
        SameDirect(v, f, firings, plan, derived, g);
        SameDirectOf(firings, relation, plan.relation, g);
        SameWitness(firings, relation, derived, g, induced[g]);
      }
    } else {
      var g := LostWitness(v, f, firings, relation, plan, derived, induced);
    }
  }

  lemma SameWitness(firings: seq<Firing>, relation: Matrix, derived: Matrix, g: nat, ids: seq<Text>)
    requires DirectOf(firings, derived, g) == DirectOf(firings, relation, g)
    ensures IsWitness(firings, derived, g, ids) <==> IsWitness(firings, relation, g, ids)
  {
    hide DirectOf;
  }

  /** A stranded output hides its firing from some firing it directly induces. */
  lemma LostWitness(
      v: View, f: Stamping, firings: seq<Firing>, relation: Matrix, plan: Plan, derived: Matrix, induced: seq<seq<Text>>)
    returns (g: nat)
    requires Finished(v, firings, plan) && Lawful(v, f) && IsRangeRelation(v, firings, derived)
    requires Planned(firings, relation, plan) && Witnesses(firings, relation, induced) && AllLedTo(firings)
    requires !Sheltered(firings, plan.relation)
    ensures g < |firings| && !IsWitness(firings, derived, g, induced[g])
  {
    hide Finished, Lawful, IsRangeRelation, SameReduction, StrictOrder, Direct, NoneStranded, NoOrphans, BodyBefore, Reach, DirectOf, IsWitness;
    var live := Live(firings);
    var a: nat, b: nat :| a < |firings| && b < |firings| && live[a] && live[b] && Related(plan.relation, a, b) && !NoneStranded(firings[a].outputs);
    FinishedConsistent(v, firings, plan);
    NeverItself(plan.relation, a);
    DirectReaches(plan.relation, live, a, b);
    g := ReachFirst(DirectEdges(plan.relation, live), a, b);
    DirectEdge(plan.relation, live, a, g);
    DirectIndices(plan.relation, live, a, g);
    NeverItself(plan.relation, g);
    if BodyBefore(v, firings[a].outputs, firings[g].outputs) {
      NeverWhole(v, f, firings, plan, a, g);
    }
    SameDirectOf(firings, relation, plan.relation, g);
    NotDerived(v, firings, derived, a, g);
    assert a in DirectOf(firings, plan.relation, g) by { DirectListedOf(firings, plan.relation, a, g); }
    FirstWitness(firings, relation, g, induced);
    OtherWitness(v, firings, plan, relation, derived, a, g, induced[g]);
  }

  lemma NeverItself(relation: Matrix, a: nat)
    requires StrictOrder(relation)
    ensures !Related(relation, a, a)
  {}

  lemma NotDerived(v: View, firings: seq<Firing>, derived: Matrix, a: nat, g: nat)
    requires IsRangeRelation(v, firings, derived) && a < |firings| && g < |firings|
    requires !BodyBefore(v, firings[a].outputs, firings[g].outputs)
    ensures a !in DirectOf(firings, derived, g)
  {
    hide BodyBefore;
    assert IsRangeRow(v, firings, a, derived[a]);
  }

  lemma DirectListedOf(firings: seq<Firing>, relation: Matrix, a: nat, g: nat)
    requires Direct(relation, Live(firings), a, g) && a < |firings|
    ensures a in DirectOf(firings, relation, g)
  {
    hide Direct;
  }

  lemma FirstWitness(firings: seq<Firing>, relation: Matrix, g: nat, induced: seq<seq<Text>>)
    requires Witnesses(firings, relation, induced) && g < |firings|
    ensures IsWitness(firings, relation, g, induced[g])
  {
    hide IsWitness;
  }

  lemma OtherWitness(
      v: View, firings: seq<Firing>, plan: Plan, relation: Matrix, derived: Matrix, a: nat, g: nat, ids: seq<Text>)
    requires Finished(v, firings, plan) && a < |firings|
    requires a in DirectOf(firings, relation, g) && a !in DirectOf(firings, derived, g) && IsWitness(firings, relation, g, ids)
    ensures !IsWitness(firings, derived, g, ids)
  {
    hide DirectOf, Finished;
    assert firings[a].firingID in FiringIDs(firings, DirectOf(firings, relation, g));
    if firings[a].firingID in FiringIDs(firings, DirectOf(firings, derived, g)) {
      var p :| p in DirectOf(firings, derived, g) && p < |firings| && firings[p].firingID == firings[a].firingID;
      OneFiring(v, firings, plan, p, a);
    }
  }

  lemma OneFiring(v: View, firings: seq<Firing>, plan: Plan, p: nat, a: nat)
    requires Finished(v, firings, plan) && p < |firings| && a < |firings| && firings[p].firingID == firings[a].firingID
    ensures p == a
  {
    hide OwnsBody, Consistent, Flowing, StrictOrder, Placed, Marked;
  }
}
