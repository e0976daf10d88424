/** Executing an event-pattern map and checking its artifact (arch/deterministic_map.go):
    the range poset a run builds, and what a reader can re-derive from it. */
module MapExecution {
  import opened Texts
  import opened Reachability
  import opened Timings
  import opened CausalOrder
  import opened Stamps
  import opened Stores
  import opened Operations
  import opened EmptyIdentity
  import opened Merging
  import opened Posets
  import opened FiringOrders
  import opened MapPolicies
  import opened MapBodies

  // ----- Materialising one firing -----

  method OutputCauses(outputs: seq<Output>, k: nat, base: seq<EventID>, actual: map<Text, EventID>) returns (causes: seq<EventID>)
    requires WellFormedBody(outputs) && k < |outputs| && [] !in base
    requires forall i :: 0 <= i < k ==> outputs[i].id in actual && actual[outputs[i].id] == outputs[i].event
    ensures StrictlySorted(causes) && Members(causes) == CauseSet(outputs, outputs[k], Members(base))
  {
    hide ClassIds, RootClass;
    var o := outputs[k];
    var found: set<EventID> := {};
    NoLocalCauses(outputs);
    for index := 0 to |o.causes|
      invariant found == LocalCauses(outputs, o.causes[..index])
    {
      assert IsListed(outputs, k, o.causes[index]);
      OneMoreCause(outputs, o.causes, index, k);
      found := found + {actual[o.causes[index]]};
    }
    TakeAll(o.causes);
    NoEmptyCauses(outputs, o.causes);
    if RootClass(outputs, o) {
      found := found + Members(base);
    }
    causes := Sort(found - {[]});
  }

  lemma NoLocalCauses(outputs: seq<Output>)
    ensures LocalCauses(outputs, []) == {}
  {}

  lemma NoEmptyCauses(outputs: seq<Output>, ids: seq<Text>)
    requires WellFormedBody(outputs)
    ensures [] !in LocalCauses(outputs, ids)
  {}

  lemma OneMoreCause(outputs: seq<Output>, causes: seq<Text>, index: nat, k: nat)
    requires WellFormedBody(outputs) && index < |causes| && k <= |outputs| && IsListed(outputs, k, causes[index])
    ensures forall j :: 0 <= j < k && outputs[j].id == causes[index] ==>
              LocalCauses(outputs, causes[..index + 1]) == LocalCauses(outputs, causes[..index]) + {outputs[j].event}
    ensures causes[index] in set j | 0 <= j < k && j < |outputs| :: outputs[j].id
  {
    hide ClassIds;
    TakeOneMore(causes, index);
    forall j | 0 <= j < k && outputs[j].id == causes[index]
      ensures LocalCauses(outputs, causes[..index + 1]) == LocalCauses(outputs, causes[..index]) + {outputs[j].event}
    {
      forall q | q in outputs && q.id == causes[index] ensures q == outputs[j] {
        SameOutput(outputs, q, outputs[j]);
      }
    }
  }

  method OutputByID(outputs: seq<Output>, id: Text) returns (o: Output)
    requires IsListed(outputs, |outputs|, id)
    ensures o in outputs && o.id == id
  {
    var index := 0;
    while outputs[index].id != id
      invariant 0 <= index < |outputs| && forall j :: 0 <= j < index ==> outputs[j].id != id
      decreases |outputs| - index
    {
      index := index + 1;
    }
    o := outputs[index];
  }

  /** The outputs caused by nothing listed so far stay on the frontier. */
  method MarkChildren(outputs: seq<Output>, k: nat, children: set<Text>) returns (children': set<Text>)
    requires WellFormedBody(outputs) && k < |outputs|
    ensures forall id :: id in children' <==> id in children || CausedBy(outputs, outputs[k], id)
  {
    hide ClassIds;
    var causes := outputs[k].causes;
    children' := children;
    for index := 0 to |causes|
      invariant forall id :: id in children' <==>
                  id in children || exists q :: q in outputs && q.id in causes[..index] && id in ClassIds(q)
    {
      TakeOneMore(causes, index);
      assert IsListed(outputs, k, causes[index]);
      var cause := OutputByID(outputs, causes[index]);
      forall q | q in outputs && q.id == causes[index] ensures q == cause {
        SameOutput(outputs, q, cause);
      }
      children' := children' + ClassIds(cause);
    }
    TakeAll(causes);
  }

  /** What a firing needs of the range it is added to. */
  ghost predicate Site(u: View, plan: Plan, outputs: seq<Output>, base: set<EventID>, g: nat) {
    && WellFormedBody(outputs) && StrictOrder(plan.relation)
    && base <= u.contents.Keys && [] !in base
    && (forall b :: b in base ==>
          b !in plan.stranded && (b == plan.start || (b in plan.own && Related(plan.relation, plan.own[b], g))))
    && OwnedBy(plan, outputs, g)
    && (forall o :: o in outputs ==> o.event !in u.contents)
  }

  /** The range as maps build it: untimed, its order flowing along the plan. */
  ghost predicate Building(range: Poset, plan: Plan)
    reads range
  {
    range.Valid() && Untimed(range.View()) && Flowing(range.View(), plan)
  }

  ghost predicate OwnedBy(plan: Plan, outputs: seq<Output>, g: nat) {
    Marks(plan, outputs) && forall o :: o in outputs ==> o.event in plan.own && plan.own[o.event] == g && o.event != plan.start
  }

  ghost predicate Marks(plan: Plan, outputs: seq<Output>) {
    forall o :: o in outputs ==>
      (o.event in plan.orphans <==> Orphan(outputs, o)) && (o.event in plan.stranded <==> Stranded(outputs, o))
  }

  lemma CausesFlow(plan: Plan, outputs: seq<Output>, base: set<EventID>, g: nat, o: Output)
    requires o in outputs && OwnedBy(plan, outputs, g)
    requires forall b :: b in base ==>
               b !in plan.stranded && (b == plan.start || (b in plan.own && Related(plan.relation, plan.own[b], g)))
    ensures forall k :: k in CauseSet(outputs, o, base) ==> Flows(plan, k, o.event)
  {
    hide RootClass, Skipped, IsChild;
    forall k | k in CauseSet(outputs, o, base) ensures Flows(plan, k, o.event) {
      assert o.causes != [] || RootClass(outputs, o);
      if k !in base {
        var q :| q in outputs && q.id in o.causes && q.event == k;
        assert !Stranded(outputs, q);
      }
    }
  }

  lemma CausedUntimed(v: View, id: EventID, c: Content, causes: set<EventID>)
    requires Untimed(v) && c.timings == []
    ensures Untimed(WithCausedEvent(v, id, c, causes))
  {}

  lemma UntimedOffer(v: View, o: Output, causes: seq<EventID>)
    requires o.content.timings == [] && o.event !in v.contents && Members(causes) <= v.contents.Keys
    requires StrictlySorted(causes)
    ensures CausedOutcome(v, Offer(o.event, o.content, causes), Members(causes)).Ok?
    ensures Canonized(o.content) == o.content
  {
    assert SortByClock([]) == [];
    UntimedNeverClashes(v, Canonized(o.content), Members(causes));
  }

  /** The range u after the first k outputs. */
  ghost function EmitBody(u: View, outputs: seq<Output>, base: set<EventID>, k: nat): View
    requires k <= |outputs|
  {
    if k == 0 then u
    else
      var o := outputs[k - 1];
      WithCausedEvent(EmitBody(u, outputs, base, k - 1), o.event, o.content, CauseSet(outputs, o, base))
  }

  /** The state after the first k outputs: u is the range before, low its stamps. */
  ghost predicate Emitting(
      range: Poset, u: View, low: Stamping, plan: Plan, outputs: seq<Output>, base: set<EventID>, k: nat, rank: Option<map<Text, nat>>)
    requires k <= |outputs|
    requires rank.Some? ==> Ranks(outputs, rank.value)
    reads range
  {
    && Building(range, plan)
    && Emitted(u, range.View(), outputs, base, k) && range.View() == EmitBody(u, outputs, base, k)
    && (rank.Some? ==> Lawful(range.View(), LayerStamps(low, outputs, k, rank.value)))
  }

  /** One output of materializeMapFiring. */
  method EmitNext(
      range: Poset, outputs: seq<Output>, k: nat, base: seq<EventID>, actual: map<Text, EventID>,
      ghost u: View, ghost low: Stamping, ghost plan: Plan, ghost g: nat, ghost rank: Option<map<Text, nat>>)
    requires k < |outputs| && (rank.Some? ==> Ranks(outputs, rank.value))
    requires Emitting(range, u, low, plan, outputs, Members(base), k, rank)
    requires Site(u, plan, outputs, Members(base), g) && low.Keys == u.contents.Keys
    requires forall i :: 0 <= i < k ==> outputs[i].id in actual && actual[outputs[i].id] == outputs[i].event
    modifies range
    ensures Emitting(range, u, low, plan, outputs, Members(base), k + 1, rank)
    ensures range.pendingEdges == old(range.pendingEdges)
  {
    hide Sound, Lawful, ViewOf, WellFormedBody, Flowing, StrictOrder, Emitted, RootClass, ClassIds, Untimed, CauseSet, Flows, OwnedBy,
      LayerStamps, Ranks, Consistent, WithCausedEvent, LeastLawful;
    var o := outputs[k];
    ghost var v := range.View();
    var causes := OutputCauses(outputs, k, base, actual);
    SoundConsistent(range.Stored());
    ConsistentShaped(v);
    OutputUntimed(outputs, o);
    NotYetEmitted(u, v, outputs, Members(base), k);
    CausesEmitted(u, v, outputs, Members(base), k);
    UntimedOffer(v, o, causes);
    var added := range.AddEventWithCause(Offer(o.event, o.content, causes), causes);
    EmitOutput(u, v, outputs, Members(base), k, o.content);
    CausesFlow(plan, outputs, Members(base), g, o);
    EventFlows(v, plan, o.event, o.content, Members(causes));
    CausedUntimed(v, o.event, o.content, Members(causes));
    if rank.Some? {
      EmitLayer(v, low, outputs, Members(base), k, rank.value, o.content);
    }
  }

  lemma OutputUntimed(outputs: seq<Output>, o: Output)
    requires WellFormedBody(outputs) && o in outputs
    ensures o.content.timings == []
  {}

  lemma NotYetEmitted(u: View, v: View, outputs: seq<Output>, base: set<EventID>, k: nat)
    requires WellFormedBody(outputs) && k < |outputs| && Emitted(u, v, outputs, base, k)
    requires outputs[k].event !in u.contents
    ensures outputs[k].event !in v.contents
  {
    forall o | o in outputs[..k] ensures o.event != outputs[k].event {
      var i :| 0 <= i < k && outputs[i] == o;
    }
  }

  lemma NothingEmitted(range: Poset, plan: Plan, outputs: seq<Output>, base: set<EventID>, rank: Option<map<Text, nat>>)
    requires Building(range, plan) && (rank.Some? ==> Ranks(outputs, rank.value))
    ensures Emitting(range, range.View(), range.Stamping(), plan, outputs, base, 0, rank)
    ensures range.Stamping().Keys == range.View().contents.Keys
  {
    hide Sound, ViewOf, Flowing, Emitted, Untimed, Ranks;
    KeysFacts(range.Stored());
    NoneEmitted(range.View(), outputs, base);
  }

  lemma SiteBody(u: View, plan: Plan, outputs: seq<Output>, base: set<EventID>, g: nat)
    requires Site(u, plan, outputs, base, g)
    ensures WellFormedBody(outputs)
  {}

  lemma EmittedBody(
      range: Poset, u: View, low: Stamping, plan: Plan, outputs: seq<Output>, base: set<EventID>, rank: Option<map<Text, nat>>)
    requires rank.Some? ==> Ranks(outputs, rank.value)
    requires Emitting(range, u, low, plan, outputs, base, |outputs|, rank)
    ensures range.View() == EmitBody(u, outputs, base, |outputs|)
  {
    hide Sound, ViewOf, Building, Emitted, EmitBody;
  }

  method EmitOutputs(
      range: Poset, outputs: seq<Output>, base: seq<EventID>,
      ghost plan: Plan, ghost g: nat, ghost rank: Option<map<Text, nat>>)
    returns (children: set<Text>)
    requires Building(range, plan) && Site(range.View(), plan, outputs, Members(base), g)
    requires rank.Some? ==> Ranks(outputs, rank.value)
    modifies range
    ensures Emitting(range, old(range.View()), old(range.Stamping()), plan, outputs, Members(base), |outputs|, rank)
    ensures range.View() == EmitBody(old(range.View()), outputs, Members(base), |outputs|)
    ensures forall id :: id in children <==> IsChild(outputs, id)
    ensures range.pendingEdges == old(range.pendingEdges)
  {
    hide Sound, ViewOf, WellFormedBody, ClassIds, Ranks, CausedBy, Lawful, Site, Emitting, Building;
    ghost var u, low := range.View(), range.Stamping();
    var actual: map<Text, EventID> := map[];
    children := {};
    NothingEmitted(range, plan, outputs, Members(base), rank);
    assert WellFormedBody(outputs) by { SiteBody(u, plan, outputs, Members(base), g); }
    for k := 0 to |outputs|
      invariant Emitting(range, u, low, plan, outputs, Members(base), k, rank)
      invariant forall i :: 0 <= i < k ==> outputs[i].id in actual && actual[outputs[i].id] == outputs[i].event
      invariant forall id :: id in children <==> exists i :: 0 <= i < k && CausedBy(outputs, outputs[i], id)
      invariant range.pendingEdges == old(range.pendingEdges)
    {
      EmitNext(range, outputs, k, base, actual, u, low, plan, g, rank);
      children := MarkChildren(outputs, k, children);
      OtherIds(outputs, k);
      actual := actual[outputs[k].id := outputs[k].event];
    }
    EmittedBody(range, u, low, plan, outputs, Members(base), rank);
  }

  lemma OtherIds(outputs: seq<Output>, k: nat)
    requires WellFormedBody(outputs) && k < |outputs|
    ensures forall i :: 0 <= i < k ==> outputs[i].id != outputs[k].id
  {}

  // ----- Merging the body's equivalence classes -----

  function ClassEvents(outputs: seq<Output>, ids: set<Text>): set<EventID> {
    set q | q in outputs && q.id in ids :: q.event
  }

  /** The listed classes are one class each in the range. */
  ghost predicate ClassesHold(v: View, outputs: seq<Output>, merged: set<set<Text>>) {
    forall ids, o, q :: ids in merged && o in outputs && q in outputs && o.id in ids && q.id in ids ==>
      Equivalent(v, o.event, q.event)
  }

  /** The range w once the classes of the first k outputs are merged: every class with its first
      member, unless an earlier class has its key. */
  ghost function MergeBody(w: View, outputs: seq<Output>, k: nat): View
    requires k <= |outputs|
  {
    if k == 0 then w
    else
      var v := MergeBody(w, outputs, k - 1);
      if FirstOfBodyKey(outputs, k - 1) then AfterClass(v, ClassEvents(outputs, ClassIds(outputs[k - 1]))) else v
  }

  /** The keys of the first k outputs have been seen, each with the class it came with first. */
  ghost predicate SeenUpTo(outputs: seq<Output>, merged: set<set<Text>>, seen: set<Text>, k: nat)
    requires k <= |outputs|
  {
    && (forall i :: 0 <= i < k && outputs[i].equivalent != [] ==> BodyKey(outputs[i]) in seen)
    && (forall key :: key in seen ==> exists j: nat :: j < k && MergedFirst(outputs, merged, key, j))
  }

  ghost predicate MergedFirst(outputs: seq<Output>, merged: set<set<Text>>, key: Text, j: nat)
    requires j < |outputs|
  {
    FirstOfBodyKey(outputs, j) && BodyKey(outputs[j]) == key && ClassIds(outputs[j]) in merged
  }

  lemma NoneSeen(outputs: seq<Output>)
    ensures SeenUpTo(outputs, {}, {}, 0)
  {}

  lemma SkipSeen(outputs: seq<Output>, merged: set<set<Text>>, seen: set<Text>, k: nat)
    requires k < |outputs| && SeenUpTo(outputs, merged, seen, k)
    requires outputs[k].equivalent == [] || BodyKey(outputs[k]) in seen
    ensures SeenUpTo(outputs, merged, seen, k + 1) && !FirstOfBodyKey(outputs, k)
  {
    hide BodyKey, ClassIds;
    forall key | key in seen ensures exists j: nat :: j < k + 1 && MergedFirst(outputs, merged, key, j) {
      var j: nat :| j < k && MergedFirst(outputs, merged, key, j);
    }
  }

  /** A key not seen before comes with a class that is kept. */
  lemma NewSeen(outputs: seq<Output>, merged: set<set<Text>>, seen: set<Text>, k: nat)
    requires k < |outputs| && SeenUpTo(outputs, merged, seen, k)
    requires outputs[k].equivalent != [] && BodyKey(outputs[k]) !in seen
    ensures !Skipped(outputs, outputs[k]) && FirstOfBodyKey(outputs, k)
    ensures SeenUpTo(outputs, merged + {ClassIds(outputs[k])}, seen + {BodyKey(outputs[k])}, k + 1)
  {
    hide BodyKey, ClassIds;
    assert FirstOfBodyKey(outputs, k);
    var merged', seen' := merged + {ClassIds(outputs[k])}, seen + {BodyKey(outputs[k])};
    forall key | key in seen' ensures exists j: nat :: j < k + 1 && MergedFirst(outputs, merged', key, j) {
      if key in seen {
        var j: nat :| j < k && MergedFirst(outputs, merged, key, j);
        assert MergedFirst(outputs, merged', key, j);
      } else {
        assert MergedFirst(outputs, merged', key, k);
      }
    }
    forall j: nat | TakenBy(outputs, j, outputs[k]) ensures j == k {
      OneFirst(outputs, j, k);
    }
  }

  lemma OneFirst(outputs: seq<Output>, j: nat, k: nat)
    requires FirstOfBodyKey(outputs, j) && FirstOfBodyKey(outputs, k) && BodyKey(outputs[j]) == BodyKey(outputs[k])
    ensures j == k
  {
    hide BodyKey;
  }

  /** The state while merging: w is the range once its outputs were emitted, f its layers. */
  ghost predicate Joining(
      range: Poset, w: View, plan: Plan, outputs: seq<Output>, merged: set<set<Text>>, layers: Option<Stamping>)
    reads range
  {
    && Building(range, plan)
    && Refines(w, range.View()) && range.View().contents == w.contents
    && ClassesHold(range.View(), outputs, merged)
    && (layers.Some? ==> Lawful(range.View(), layers.value))
  }

  ghost predicate OnLayers(outputs: seq<Output>, f: Stamping) {
    forall o, q :: o in outputs && q in outputs && q.id in KeptIds(outputs, o) ==>
      o.event in f && q.event in f && f[o.event] == f[q.event]
  }

  lemma ClassesStay(v: View, w: View, outputs: seq<Output>, merged: set<set<Text>>)
    requires Refines(v, w) && ClassesHold(v, outputs, merged)
    ensures ClassesHold(w, outputs, merged)
  {
    hide Equivalent;
  }

  lemma RefinesOn(u: View, v: View, w: View)
    requires Refines(u, v) && Refines(v, w)
    ensures Refines(u, w)
  {
    hide Before, Equivalent;
  }

  lemma ClassKnown(v: View, outputs: seq<Output>, o: Output)
    requires o in outputs && forall q :: q in outputs ==> q.event in v.contents
    ensures ClassEvents(outputs, ClassIds(o)) <= v.contents.Keys
    ensures o.event in ClassEvents(outputs, ClassIds(o))
  {}

  lemma NowOneClass(v: View, ids: set<EventID>, x: EventID, y: EventID)
    requires Shaped(v) && ids <= v.contents.Keys && x in ids && y in ids
    ensures Rep(WithClass(v, Heads(v, ids)), x) == Rep(WithClass(v, Heads(v, ids)), y)
  {
    HeadsAreHeads(v, ids);
    assert Rep(v, x) in Heads(v, ids) && Rep(v, y) in Heads(v, ids);
    WithClassRep(v, Heads(v, ids), x);
    WithClassRep(v, Heads(v, ids), y);
  }

  /** What merging one class does to the range, whether or not it is accepted. */
  lemma MergeOne(v: View, plan: Plan, outputs: seq<Output>, merged: set<set<Text>>, o: Output, g: nat)
    requires Consistent(v) && Untimed(v) && Flowing(v, plan) && StrictOrder(plan.relation) && OwnedBy(plan, outputs, g)
    requires WellFormedBody(outputs) && o in outputs && !Skipped(outputs, o) && (forall q :: q in outputs ==> q.event in v.contents)
    requires ClassesHold(v, outputs, merged) && ClassFits(v, ClassEvents(outputs, ClassIds(o)))
    ensures var w := AfterClass(v, ClassEvents(outputs, ClassIds(o)));
            && Refines(v, w) && w.contents == v.contents && Untimed(w) && Flowing(w, plan)
            && ClassesHold(w, outputs, merged + {ClassIds(o)})
  {
    hide Consistent, Flowing, StrictOrder, ClassFits, WithClass, ClassIds, Heads, Before, OwnedBy, WellFormedBody;
    var ids := ClassEvents(outputs, ClassIds(o));
    var w := AfterClass(v, ids);
    MergedOwned(plan, outputs, g, o);
    ConsistentShaped(v);
    ClassKnown(v, outputs, o);
    ClassExtends(v, ids);
    WithClassContents(v, Heads(v, ids));
    ClassFlows(v, plan, ids, g);
    ClassesStay(v, w, outputs, merged);
    forall x, y | x in ids && y in ids ensures Rep(w, x) == Rep(w, y) {
      NowOneClass(v, ids, x, y);
    }
  }

  /** The members of a kept class are neither orphans nor stranded. */
  lemma MergedOwned(plan: Plan, outputs: seq<Output>, g: nat, o: Output)
    requires WellFormedBody(outputs) && OwnedBy(plan, outputs, g) && o in outputs && !Skipped(outputs, o)
    ensures forall x :: x in ClassEvents(outputs, ClassIds(o)) ==>
              x in plan.own && plan.own[x] == g && x != plan.start && x !in plan.orphans && x !in plan.stranded
  {
    hide WellFormedBody, Skipped, ClassIds, RootClass, IsChild;
    forall q | q in outputs && q.id in ClassIds(o) ensures !Skipped(outputs, q) {
      PeersTogether(outputs, o, q);
    }
  }

  /** A class on one layer is always accepted. */
  lemma LayeredClassFits(v: View, outputs: seq<Output>, f: Stamping, o: Output)
    requires Consistent(v) && Untimed(v) && Lawful(v, f) && OnLayers(outputs, f)
    requires o in outputs && !Skipped(outputs, o) && forall q :: q in outputs ==> q.event in v.contents
    ensures ClassFits(v, ClassEvents(outputs, ClassIds(o)))
    ensures Lawful(AfterClass(v, ClassEvents(outputs, ClassIds(o))), f)
  {
    hide Consistent, Untimed, Lawful, WithClass, ClassFits, ClassIds, Skipped;
    ClassKnown(v, outputs, o);
    LawfulKeys(v, f);
    SameLayerMerges(v, f, ClassEvents(outputs, ClassIds(o)), f[o.event]);
  }

  method MergeClass(
      range: Poset, outputs: seq<Output>, o: Output, actual: seq<EventID>,
      ghost w: View, ghost plan: Plan, ghost g: nat, ghost merged: set<set<Text>>, ghost layers: Option<Stamping>)
    returns (ok: bool)
    requires Joining(range, w, plan, outputs, merged, layers)
    requires StrictOrder(plan.relation) && OwnedBy(plan, outputs, g) && WellFormedBody(outputs)
    requires o in outputs && !Skipped(outputs, o) && (forall q :: q in outputs ==> q.event in w.contents)
    requires Members(actual) == ClassEvents(outputs, ClassIds(o))
    requires layers.Some? ==> OnLayers(outputs, layers.value)
    modifies range`events, range`causalEdges, range`reverseCausal, range`causalClass, range`classMembers
    ensures ok ==> Joining(range, w, plan, outputs, merged + {ClassIds(o)}, layers)
    ensures ok ==> range.View() == AfterClass(old(range.View()), ClassEvents(outputs, ClassIds(o)))
    ensures layers.Some? ==> ok
  {
    hide Sound, ViewOf, Lawful, Consistent, Flowing, StrictOrder, ClassFits, WithClass, ClassIds, Untimed, OnLayers, Refines, LeastLawful, ClassesHold, ClassEvents, OwnedBy, WellFormedBody, ClassOutcome, Torn, Skipped;
    ghost var v := range.View();
    EventsNamed(outputs, ClassIds(o));
    SoundConsistent(range.Stored());
    if layers.Some? {
      LayeredClassFits(v, outputs, layers.value, o);
    }
    ClassOutcomeIff(v, Members(actual));
    var r := range.AddCausalEquivalenceClass(actual);
    ok := r.Ok?;
    if ok {
      MergeOne(v, plan, outputs, merged, o, g);
      RefinesOn(w, v, range.View());
    }
  }

  lemma EventsNamed(outputs: seq<Output>, ids: set<Text>)
    requires WellFormedBody(outputs)
    ensures [] !in ClassEvents(outputs, ids)
  {}

  /** v is w with exactly the classes merged whose key came first. */
  ghost predicate Joined(w: View, v: View, outputs: seq<Output>) {
    && v == MergeBody(w, outputs, |outputs|) && v.contents == w.contents
    && Refines(w, v) && ClassesKept(v, outputs)
  }

  /** materializeRuleOutputEquivalences. */
  method MergeClasses(
      range: Poset, outputs: seq<Output>,
      ghost plan: Plan, ghost g: nat, ghost layers: Option<Stamping>)
    returns (ok: bool)
    requires Building(range, plan) && WellFormedBody(outputs)
    requires StrictOrder(plan.relation) && OwnedBy(plan, outputs, g)
    requires forall q :: q in outputs ==> q.event in range.View().contents
    requires layers.Some? ==> OnLayers(outputs, layers.value) && Lawful(range.View(), layers.value)
    modifies range`events, range`causalEdges, range`reverseCausal, range`causalClass, range`classMembers
    ensures ok ==> Building(range, plan) && Joined(old(range.View()), range.View(), outputs)
    ensures layers.Some? ==> ok
  {
    hide Sound, ViewOf, Lawful, StrictOrder, ClassIds, KeptIds, BodyKey, Skipped, OnLayers, Building, ClassesHold, ClassEvents, OwnedBy, Before, Equivalent, WellFormedBody, SeenUpTo, FirstOfBodyKey, AfterClass, ClassesKept;
    ghost var w := range.View();
    var seen: set<Text> := {};
    ghost var merged: set<set<Text>> := {};
    RefinesItself(w);
    assert ClassesHold(w, outputs, {}) by { NoClasses(w, outputs); }
    NoneSeen(outputs);
    for k := 0 to |outputs|
      invariant Joining(range, w, plan, outputs, merged, layers)
      invariant SeenUpTo(outputs, merged, seen, k) && range.View() == MergeBody(w, outputs, k)
    {
      var o := outputs[k];
      if |o.equivalent| == 0 || BodyKey(o) in seen {
        SkipSeen(outputs, merged, seen, k);
        continue;
      }
      NewSeen(outputs, merged, seen, k);
      var ids := Sort(ClassEvents(outputs, ClassIds(o)));
      ok := MergeClass(range, outputs, o, ids, w, plan, g, merged, layers);
      if !ok {
        return;
      }
      merged, seen := merged + {ClassIds(o)}, seen + {BodyKey(o)};
    }
    ok := true;
    AllMerged(range.View(), outputs, merged, seen);
  }

  lemma NoClasses(v: View, outputs: seq<Output>)
    ensures ClassesHold(v, outputs, {})
  {}

  lemma RefinesItself(v: View)
    ensures Refines(v, v)
  {}

  lemma AllMerged(v: View, outputs: seq<Output>, merged: set<set<Text>>, seen: set<Text>)
    requires WellFormedBody(outputs) && ClassesHold(v, outputs, merged) && SeenUpTo(outputs, merged, seen, |outputs|)
    requires forall q :: q in outputs ==> q.event in v.contents
    ensures ClassesKept(v, outputs)
  {
    hide WellFormedBody, KeptIds, ClassesHold, Equivalent, SeenUpTo;
    forall o, q | o in outputs && q in outputs && q.id in KeptIds(outputs, o) ensures Equivalent(v, o.event, q.event) {
      KeptMerged(v, outputs, merged, seen, o, q);
    }
  }

  lemma KeptMerged(v: View, outputs: seq<Output>, merged: set<set<Text>>, seen: set<Text>, o: Output, q: Output)
    requires WellFormedBody(outputs) && ClassesHold(v, outputs, merged) && SeenUpTo(outputs, merged, seen, |outputs|)
    requires o in outputs && q in outputs && q.id in KeptIds(outputs, o) && o.event in v.contents
    ensures Equivalent(v, o.event, q.event)
  {
    hide WellFormedBody, BodyKey, FirstOfBodyKey;
    if o.equivalent == [] || Skipped(outputs, o) {
      SameOutput(outputs, o, q);
    } else {
      var i :| 0 <= i < |outputs| && outputs[i] == o;
      var j: nat :| j < |outputs| && MergedFirst(outputs, merged, BodyKey(o), j);
      assert TakenBy(outputs, j, o);
      assert ClassIds(o) in merged && o.id in ClassIds(o);
    }
  }

  // ----- One firing -----

  /** The events of a body that cause nothing in it. */
  ghost function Frontier(outputs: seq<Output>): set<EventID> {
    set o | o in outputs && !IsChild(outputs, o.id) :: o.event
  }

  lemma LayersFit(low: Stamping, outputs: seq<Output>, rank: map<Text, nat>)
    requires WellFormedBody(outputs) && Ranks(outputs, rank) && forall o :: o in outputs ==> o.event !in low
    ensures OnLayers(outputs, LayerStamps(low, outputs, |outputs|, rank))
  {
    hide WellFormedBody, LayerStamps, KeptIds;
    forall o | o in outputs
      ensures o.event in LayerStamps(low, outputs, |outputs|, rank)
      ensures LayerStamps(low, outputs, |outputs|, rank)[o.event] == Bound(low) + 1 + rank[o.id]
    {
      var i :| 0 <= i < |outputs| && outputs[i] == o;
      LayerStamp(low, outputs, |outputs|, rank, o.event);
    }
  }

  lemma RanksAll(outputs: seq<Output>, rank: map<Text, nat>)
    requires Ranks(outputs, rank)
    ensures forall o :: o in outputs ==> o.id in rank
  {
    hide KeptIds;
  }

  lemma EmittedKnown(u: View, v: View, outputs: seq<Output>, base: set<EventID>)
    requires Emitted(u, v, outputs, base, |outputs|)
    ensures v.contents.Keys == u.contents.Keys + EventsOf(outputs) && Refines(u, v) && PlacedUpTo(v, outputs, base, |outputs|)
    ensures forall q :: q in outputs ==> q.event in v.contents
  {
    assert outputs[..|outputs|] == outputs;
    assert forall q :: q in outputs ==> q.event in EventsOf(outputs);
  }

  method FrontierOf(outputs: seq<Output>, children: set<Text>) returns (frontier: seq<EventID>)
    requires WellFormedBody(outputs) && forall id :: id in children <==> IsChild(outputs, id)
    ensures StrictlySorted(frontier) && Members(frontier) == Frontier(outputs)
  {
    hide IsChild;
    frontier := Sort(set o | o in outputs && o.id !in children :: o.event);
  }

  /** materializeMapFiring: succeeds exactly when the classes it merges can be layered, and then
      leaves the body placed in the range. */
  method MaterialiseFiring(range: Poset, outputs: seq<Output>, base: seq<EventID>, ghost plan: Plan, ghost g: nat)
    returns (ok: bool, frontier: seq<EventID>)
    requires Building(range, plan) && Site(range.View(), plan, outputs, Members(base), g)
    modifies range
    ensures ok <==> Layered(outputs)
    ensures ok ==>
              && Building(range, plan) && Refines(old(range.View()), range.View())
              && range.View().contents.Keys == old(range.View()).contents.Keys + EventsOf(outputs)
              && range.View() == MergeBody(EmitBody(old(range.View()), outputs, Members(base), |outputs|), outputs, |outputs|)
              && Placed(range.View(), outputs, Members(base))
              && StrictlySorted(frontier) && Members(frontier) == Frontier(outputs)
  {
    hide Sound, ViewOf, Lawful, StrictOrder, ClassIds, KeptIds, IsChild, Untimed, Flowing, Emitted, Ranks, WellFormedBody, OwnedBy, Before, PlacedUpTo, OnLayers, Frontier;
    ghost var u, low := range.View(), range.Stamping();
    KeysFacts(range.Stored());
    ghost var rank: Option<map<Text, nat>>, layers: Option<Stamping> := None, None;
    if Layered(outputs) {
      var ranks: map<Text, nat> :| Ranks(outputs, ranks);
      RanksAll(outputs, ranks);
      LayersFit(low, outputs, ranks);
      rank, layers := Some(ranks), Some(LayerStamps(low, outputs, |outputs|, ranks));
    }
    frontier := [];
    var children := EmitOutputs(range, outputs, base, plan, g, rank);
    ghost var emitted := range.View();
    EmittedKnown(u, emitted, outputs, Members(base));
    ok := MergeClasses(range, outputs, plan, g, layers);
    if ok {
      RefinesOn(u, emitted, range.View());
      PlacedStays(emitted, range.View(), outputs, Members(base), |outputs|);
      SoundConsistent(range.Stored());
      PlacedLayers(range.View(), range.Stamping(), outputs, Members(base));
      frontier := FrontierOf(outputs, children);
    }
  }

  // ----- The whole run -----

  /** Normalised firings: distinct identities, every range event generated once, Start apart. */
  ghost predicate WellFormedFirings(firings: seq<Firing>, own: map<EventID, nat>, start: EventID) {
    && start !in own && start != []
    && (forall k :: 0 <= k < |firings| ==> OwnsBody(own, firings[k].outputs, k))
    && (forall i, j :: 0 <= i < j < |firings| ==> firings[i].firingID != firings[j].firingID)
  }

  ghost predicate OwnsBody(own: map<EventID, nat>, outputs: seq<Output>, k: nat) {
    WellFormedBody(outputs) && forall o :: o in outputs ==> o.event in own && own[o.event] == k
  }

  /** The plan knows the orphans and the stranded events of every firing, and no others. */
  ghost predicate Marked(firings: seq<Firing>, plan: Plan) {
    && plan.start !in plan.orphans && plan.start !in plan.stranded
    && forall k :: 0 <= k < |firings| ==> Marks(plan, firings[k].outputs)
  }

  /** Which firings generate anything. */
  function Live(firings: seq<Firing>): (r: seq<bool>)
    ensures |r| == |firings|
  {
    seq(|firings|, k requires 0 <= k < |firings| => |firings[k].outputs| > 0)
  }

  ghost function DirectOf(firings: seq<Firing>, relation: Matrix, g: nat): set<nat> {
    set p | p in Indices(|firings|) && Direct(relation, Live(firings), p, g)
  }

  ghost function Frontiers(firings: seq<Firing>, ps: set<nat>): set<EventID> {
    set p, id | p in ps && p < |firings| && id in Frontier(firings[p].outputs) :: id
  }

  /** What a firing's root classes are caused by: the frontiers of its direct predecessors,
      or Start when there are none. */
  ghost function BaseOf(firings: seq<Firing>, plan: Plan, g: nat): set<EventID> {
    var causes := Frontiers(firings, DirectOf(firings, plan.relation, g));
    if causes == {} then {plan.start} else causes
  }

  ghost function GeneratedBy(firings: seq<Firing>, done: seq<nat>): set<EventID> {
    set g, id | g in done && g < |firings| && id in EventsOf(firings[g].outputs) :: id
  }

  /** The range once the firings in `done` have been materialised. */
  ghost predicate Built(range: Poset, firings: seq<Firing>, plan: Plan, done: seq<nat>)
    reads range
  {
    && Building(range, plan)
    && range.View().contents.Keys == {plan.start} + GeneratedBy(firings, done)
    && forall g :: g in done && g < |firings| ==> Placed(range.View(), firings[g].outputs, BaseOf(firings, plan, g))
  }

  lemma DirectDone(firings: seq<Firing>, relation: Matrix, keys: seq<Text>, order: seq<nat>, k: nat)
    requires |keys| == |relation| == |firings| && k < |order| && ListedByKey(relation, keys, order)
    ensures order[k] < |firings| && order[k] !in order[..k]
    ensures forall p :: p in DirectOf(firings, relation, order[k]) ==> p in order[..k] && Related(relation, p, order[k])
  {
    assert LeastAvailable(relation, keys, order[..k], order[k]);
  }

  lemma SameDirectOf(firings: seq<Firing>, relation: Matrix, closure: Matrix, g: nat)
    requires SameReduction(relation, closure, Live(firings))
    ensures DirectOf(firings, closure, g) == DirectOf(firings, relation, g)
    ensures forall p :: p in DirectOf(firings, closure, g) ==> Related(closure, p, g)
  {}

  lemma FrontierKnown(outputs: seq<Output>)
    requires WellFormedBody(outputs)
    ensures Frontier(outputs) <= EventsOf(outputs) && [] !in EventsOf(outputs)
  {
    hide IsChild, ClassIds;
  }

  lemma FrontierMoves(plan: Plan, outputs: seq<Output>, b: EventID)
    requires Marks(plan, outputs) && b in Frontier(outputs)
    ensures b !in plan.stranded
  {
    hide Skipped, IsChild;
  }

  lemma OwnedApart(own: map<EventID, nat>, firings: seq<Firing>, p: nat, g: nat)
    requires p < |firings| && g < |firings| && p != g
    requires forall k :: 0 <= k < |firings| ==> OwnsBody(own, firings[k].outputs, k)
    ensures EventsOf(firings[p].outputs) !! EventsOf(firings[g].outputs)
  {
    hide WellFormedBody;
    assert OwnsBody(own, firings[p].outputs, p) && OwnsBody(own, firings[g].outputs, g);
  }

  /** The next listed firing can be materialised: its direct predecessors, the same under
      the plan's order as under the listed relation, are done. */
  lemma SiteFits(v: View, firings: seq<Firing>, relation: Matrix, plan: Plan, keys: seq<Text>, order: seq<nat>, k: nat)
    requires StrictOrder(plan.relation) && SameReduction(relation, plan.relation, Live(firings))
    requires WellFormedFirings(firings, plan.own, plan.start) && Marked(firings, plan)
    requires |keys| == |relation| == |firings| && k < |order| && ListedByKey(relation, keys, order)
    requires v.contents.Keys == {plan.start} + GeneratedBy(firings, order[..k])
    ensures order[k] < |firings| && Site(v, plan, firings[order[k]].outputs, BaseOf(firings, plan, order[k]), order[k])
  {
    hide StrictOrder, Direct, DirectOf, WellFormedBody, Frontier, ListedByKey, SameReduction, Marks;
    var g := order[k];
    DirectDone(firings, relation, keys, order, k);
    SameDirectOf(firings, relation, plan.relation, g);
    assert OwnsBody(plan.own, firings[g].outputs, g);
    forall b | b in BaseOf(firings, plan, g)
      ensures b in v.contents && b != [] && b !in plan.stranded
      ensures b == plan.start || (b in plan.own && Related(plan.relation, plan.own[b], g))
    {
      if b != plan.start {
        var p :| p in DirectOf(firings, plan.relation, g) && p < |firings| && b in Frontier(firings[p].outputs);
        assert OwnsBody(plan.own, firings[p].outputs, p);
        FrontierKnown(firings[p].outputs);
        FrontierMoves(plan, firings[p].outputs, b);
        assert b in GeneratedBy(firings, order[..k]);
      }
    }
    forall p | p in order[..k] && p < |firings|
      ensures EventsOf(firings[p].outputs) !! EventsOf(firings[g].outputs)
    {
      OwnedApart(plan.own, firings, p, g);
    }
    forall o | o in firings[g].outputs ensures o.event !in v.contents {
      assert o.event in EventsOf(firings[g].outputs);
    }
  }

  /** The base causes of a firing, gathered from the frontiers of its direct predecessors. */
  method BaseCauses(
      direct: seq<nat>, frontiers: map<nat, seq<EventID>>, start: EventID,
      ghost firings: seq<Firing>, ghost plan: Plan, ghost g: nat)
    returns (base: seq<EventID>)
    requires plan.start == start && Members(direct) == DirectOf(firings, plan.relation, g)
    requires forall p :: p in direct ==> p < |firings| && p in frontiers && Members(frontiers[p]) == Frontier(firings[p].outputs)
    ensures Members(base) == BaseOf(firings, plan, g)
  {
    hide Frontier, Direct, DirectOf;
    base := [];
    for index := 0 to |direct|
      invariant Members(base) == Frontiers(firings, Members(direct[..index]))
    {
      TakeOneMore(direct, index);
      ghost var more := frontiers[direct[index]];
      assert Members(base + more) == Members(base) + Members(more);
      base := base + frontiers[direct[index]];
    }
    TakeAll(direct);
    MembersEmpty(base);
    if |base| == 0 {
      base := [start];
    }
  }
}
