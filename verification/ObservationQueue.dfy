/** The ready-observation worklist of the deterministic engine (arch/engine.go): occurrences
    are observed once all their direct causes have been. */
module ObservationQueue {
  import opened Texts
  import opened Timings
  import opened Reachability
  import opened CausalOrder
  import opened Stamps
  import opened Stores
  import opened Observations
  import opened Operations
  import opened Posets
  import opened Choices

  /** One queued view of an occurrence. */
  datatype Item = Item(event: EventID, source: Text, name: Text, depth: nat)

  // "event-observation"
  const EVENT_OBSERVATION: Text := [101, 118, 101, 110, 116, 45, 111, 98, 115, 101, 114, 118, 97, 116, 105, 111, 110]

  /** executionItemKey. */
  function ItemKey(item: Item): Text {
    item.event + [0] + item.source + [0] + item.name
  }

  /** The view of one role of an occurrence. */
  function ViewOfRole(id: EventID, o: Observation, depth: nat): Item {
    Item(id, o.source, o.name, depth)
  }

  function ViewKeys(id: EventID, roles: seq<Observation>, depth: nat): set<Text> {
    set o | o in roles :: ItemKey(ViewOfRole(id, o, depth))
  }

  ghost predicate IsView(item: Item, id: EventID, roles: seq<Observation>, depth: nat) {
    exists o :: o in roles && item == ViewOfRole(id, o, depth)
  }

  lemma OneMoreView(id: EventID, roles: seq<Observation>, index: nat, depth: nat)
    requires index < |roles|
    ensures ViewKeys(id, roles[..index + 1], depth) == ViewKeys(id, roles[..index], depth) + {ItemKey(ViewOfRole(id, roles[index], depth))}
    ensures IsView(ViewOfRole(id, roles[index], depth), id, roles, depth)
  {
    hide ItemKey;
    assert roles[..index + 1] == roles[..index] + [roles[index]];
  }

  lemma QueueGrew(before: seq<Item>, seen: set<Text>, after: seq<Item>, seen': set<Text>, id: EventID, roles: seq<Observation>, depth: nat)
    requires ViewsQueued(before, seen, after, seen', id, roles, depth)
    ensures before <= after
  {
    hide ItemKey;
  }

  /** An entry from position n on has this key. */
  ghost predicate KeyFrom(queue: seq<Item>, n: nat, key: Text) {
    exists i :: n <= i < |queue| && ItemKey(queue[i]) == key
  }

  /** Views of the occurrence are appended, and one under every key not seen before. */
  ghost predicate ViewsQueued(
      before: seq<Item>, seen: set<Text>, after: seq<Item>, seen': set<Text>, id: EventID, roles: seq<Observation>, depth: nat)
  {
    && before <= after && seen' == seen + ViewKeys(id, roles, depth)
    && (forall i :: |before| <= i < |after| ==> IsView(after[i], id, roles, depth))
    && (forall k :: k in seen' && k !in seen ==> KeyFrom(after, |before|, k))
  }

  lemma NextQueued(
      before: seq<Item>, seen: set<Text>, after: seq<Item>, seen': set<Text>, id: EventID, roles: seq<Observation>, depth: nat, index: nat)
    requires index < |roles| && ViewsQueued(before, seen, after, seen', id, roles[..index], depth)
    ensures var item := ViewOfRole(id, roles[index], depth);
            ViewsQueued(before, seen, if ItemKey(item) in seen' then after else after + [item], seen' + {ItemKey(item)}, id, roles[..index + 1], depth)
  {
    hide ItemKey;
    var item := ViewOfRole(id, roles[index], depth);
    var next := if ItemKey(item) in seen' then after else after + [item];
    OneMoreView(id, roles, index, depth);
    forall k | k in seen' + {ItemKey(item)} && k !in seen ensures KeyFrom(next, |before|, k) {
      if k in seen' {
        var i :| |before| <= i < |after| && ItemKey(after[i]) == k;
        assert ItemKey(next[i]) == k;
      } else {
        assert ItemKey(next[|after|]) == k;
      }
    }
    assert forall o :: o in roles[..index] ==> o in roles[..index + 1];
    assert roles[..index + 1][index] == roles[index];
  }

  lemma NoneQueued(queue: seq<Item>, seen: set<Text>, id: EventID, roles: seq<Observation>, depth: nat)
    ensures ViewsQueued(queue, seen, queue, seen, id, roles[..0], depth)
  {
    assert ViewKeys(id, roles[..0], depth) == {};
  }

  lemma SomeView(before: seq<Item>, seen: set<Text>, after: seq<Item>, seen': set<Text>, id: EventID, roles: seq<Observation>, depth: nat)
    requires ViewsQueued(before, seen, after, seen', id, roles, depth) && !(ViewKeys(id, roles, depth) <= seen)
    ensures exists i :: 0 <= i < |after| && after[i].event == id
  {
    hide ItemKey;
    var k :| k in ViewKeys(id, roles, depth) && k !in seen;
    var i :| |before| <= i < |after| && ItemKey(after[i]) == k;
    assert after[i].event == id;
  }

  // ----- Closure of the observed set -----

  /** Whatever strictly precedes an observed occurrence is observed. */
  ghost predicate PastClosed(v: View, observed: set<EventID>) {
    observed <= v.contents.Keys && forall a, b :: b in observed && Before(v, a, b) ==> a in observed
  }

  /** Every member of a directly preceding class. */
  ghost predicate IsDirectCause(v: View, id: EventID, a: EventID) {
    a in v.contents && id in v.contents && (Rep(v, a), Rep(v, id)) in v.edges
  }

  ghost predicate CausesObserved(v: View, observed: set<EventID>, id: EventID) {
    forall a :: IsDirectCause(v, id, a) ==> a in observed
  }

  /** Observing an occurrence whose direct causes are all observed keeps the set closed. */
  lemma ReadyKeepsClosed(v: View, observed: set<EventID>, id: EventID)
    requires Consistent(v) && PastClosed(v, observed) && id in v.contents && CausesObserved(v, observed, id)
    ensures PastClosed(v, observed + {id})
    ensures forall a :: Before(v, a, id) ==> a in observed
  {
    hide Consistent, Reach;
    ConsistentShaped(v);
    forall a | Before(v, a, id) ensures a in observed {
      var h := ReachLast(v.edges, Rep(v, a), Rep(v, id));
      EdgeIntoHead(v, h, Rep(v, id));
      assert IsDirectCause(v, id, h);
      if Rep(v, a) != h {
        assert Before(v, a, h);
      } else {
        assert IsDirectCause(v, id, a);
      }
    }
  }

  lemma EdgeIntoHead(v: View, a: EventID, b: EventID)
    requires Shaped(v) && (a, b) in v.edges
    ensures a in v.contents && Rep(v, a) == a && b in v.contents && Rep(v, b) == b
  {
    EdgeReps(v, a, b);
  }

  /** A new event is after, never before, what is already there. */
  lemma NewEventKeepsClosed(v: View, id: EventID, c: Content, causes: set<EventID>, observed: set<EventID>)
    requires Consistent(v) && id !in v.contents && causes <= v.contents.Keys && PastClosed(v, observed)
    ensures PastClosed(WithCausedEvent(v, id, c, causes), observed)
    ensures forall a, b :: b != id ==> (Before(WithCausedEvent(v, id, c, causes), a, b) <==> Before(v, a, b))
  {
    hide Consistent, WithCausedEvent, Leq;
    var w := WithCausedEvent(v, id, c, causes);
    ConsistentShaped(v);
    CausedKeys(v, id, c, causes);
    forall a, b | b != id ensures Before(w, a, b) <==> Before(v, a, b) {
      LeqWithCauses(v, id, c, causes, a, b);
      LeqKnown(v, b);
      LeqFromKnown(v, a);
      if Leq(v, a, b) {
        CausedReps(v, id, c, causes, a);
        CausedReps(v, id, c, causes, b);
      }
    }
  }

  /** An earliest unobserved occurrence has all its causes observed. */
  lemma SomethingReady(v: View, f: Stamping, observed: set<EventID>) returns (id: EventID)
    requires Consistent(v) && Lawful(v, f) && observed <= v.contents.Keys && observed != v.contents.Keys
    ensures id in v.contents && id !in observed && CausesObserved(v, observed, id)
  {
    hide Consistent, Reach;
    ConsistentShaped(v);
    LawfulKeys(v, f);
    var start :| start in v.contents && start !in observed;
    id := EarliestFrom(v, f, observed, start);
  }

  lemma {:induction false} EarliestFrom(v: View, f: Stamping, observed: set<EventID>, start: EventID) returns (id: EventID)
    requires Consistent(v) && Lawful(v, f) && start in v.contents && start !in observed && start in f
    ensures id in v.contents && id !in observed && CausesObserved(v, observed, id)
    decreases f[start]
  {
    hide Consistent, Reach, Lawful;
    ConsistentShaped(v);
    LawfulKeys(v, f);
    if CausesObserved(v, observed, start) {
      id := start;
    } else {
      var a :| IsDirectCause(v, start, a) && a !in observed;
      EdgeOrders(v, a, start);
      LawfulFollowsOrder(v, f, a, start);
      id := EarliestFrom(v, f, observed, a);
    }
  }

  // ----- The worklist -----

  /** No occurrence is listed after one it precedes. */
  ghost predicate LinearExtension(v: View, order: seq<EventID>) {
    forall i, j :: 0 <= i < |order| && 0 <= j < |order| && Before(v, order[i], order[j]) ==> i < j
  }

  /** The observed set is closed under causes and listed once each in causal order. */
  ghost predicate OrderFits(v: View, observed: set<EventID>, order: seq<EventID>) {
    && PastClosed(v, observed) && Members(order) == observed && LinearExtension(v, order)
    && forall i, j :: 0 <= i < j < |order| ==> order[i] != order[j]
  }

  /** Queued views are of known occurrences, each view once. */
  ghost predicate QueueFits(v: View, queue: seq<Item>, seen: set<Text>) {
    && (forall i :: 0 <= i < |queue| ==> queue[i].event in v.contents && ItemKey(queue[i]) in seen)
    && (forall i, j :: 0 <= i < j < |queue| ==> ItemKey(queue[i]) != ItemKey(queue[j]))
  }

  /** Every unobserved occurrence has a queued view. */
  ghost predicate Covered(v: View, queue: seq<Item>, observed: set<EventID>) {
    forall id :: id in v.contents && id !in observed ==> exists i :: 0 <= i < |queue| && queue[i].event == id
  }

  function Dropped(queue: seq<Item>, index: nat): seq<Item>
    requires index < |queue|
  {
    queue[..index] + queue[index + 1..]
  }

  lemma DropFits(v: View, queue: seq<Item>, seen: set<Text>, index: nat)
    requires QueueFits(v, queue, seen) && index < |queue|
    ensures QueueFits(v, Dropped(queue, index), seen)
    ensures multiset(queue) == multiset(Dropped(queue, index)) + multiset{queue[index]}
  {
    hide ItemKey;
    var after := Dropped(queue, index);
    forall i | 0 <= i < |after| ensures after[i] == queue[if i < index then i else i + 1] {
    }
    assert queue == queue[..index] + [queue[index]] + queue[index + 1..];
  }

  lemma DropCovers(v: View, queue: seq<Item>, observed: set<EventID>, index: nat)
    requires index < |queue| && Covered(v, queue, observed)
    ensures Covered(v, Dropped(queue, index), observed + {queue[index].event})
  {
    var after := Dropped(queue, index);
    forall id | id in v.contents && id !in observed + {queue[index].event} ensures exists i :: 0 <= i < |after| && after[i].event == id {
      var i :| 0 <= i < |queue| && queue[i].event == id;
      assert after[if i < index then i else i - 1] == queue[i];
    }
  }

  class Worklist {
    const poset: Poset
    var queue: seq<Item>
    var seen: set<Text>
    var observed: set<EventID>
    var order: seq<EventID>

    /** The order of first observations is a linear extension of the causal order, and the
        observed set is closed under causes. */
    ghost predicate Valid()
      reads this, poset
    {
      poset.Valid() && OrderFits(poset.View(), observed, order) && QueueFits(poset.View(), queue, seen)
    }

    constructor (poset: Poset)
      requires poset.Valid()
      ensures Valid() && this.poset == poset && queue == [] && order == [] && observed == {} && seen == {}
    {
      this.poset := poset;
      queue := [];
      seen := {};
      observed := {};
      order := [];
    }

    ghost predicate AllQueued()
      reads this, poset
    {
      Covered(poset.View(), queue, observed)
    }

    ghost predicate Ready(item: Item)
      reads this, poset
    {
      CausesObserved(poset.View(), observed, item.event)
    }

    /** enqueueExecutionItem: a view is queued once. */
    method Enqueue(item: Item)
      requires Valid() && item.event in poset.View().contents
      modifies this
      ensures Valid() && observed == old(observed) && order == old(order)
      ensures queue == if ItemKey(item) in old(seen) then old(queue) else old(queue) + [item]
      ensures seen == old(seen) + {ItemKey(item)}
    {
      hide Sound, ViewOf, OrderFits, ItemKey;
      if ItemKey(item) in seen {
        return;
      }
      seen := seen + {ItemKey(item)};
      queue := queue + [item];
    }

    /** enqueueGeneratedObservationViews: every view of the occurrence is queued once. */
    method EnqueueViews(id: EventID, roles: seq<Observation>, depth: nat)
      requires Valid() && id in poset.View().contents
      modifies this
      ensures Valid() && observed == old(observed) && order == old(order)
      ensures ViewsQueued(old(queue), old(seen), queue, seen, id, roles, depth)
    {
      hide Sound, ViewOf, OrderFits, QueueFits, ItemKey, ViewsQueued;
      NoneQueued(queue, seen, id, roles, depth);
      for index := 0 to |roles|
        invariant Valid() && observed == old(observed) && order == old(order)
        invariant ViewsQueued(old(queue), old(seen), queue, seen, id, roles[..index], depth)
      {
        NextQueued(old(queue), old(seen), queue, seen, id, roles, depth, index);
        Enqueue(ViewOfRole(id, roles[index], depth));
      }
      assert roles[..|roles|] == roles;
    }

    /** What a firing does to the computation: a new event caused by existing ones, every view
        of it queued. */
    method Emit(e: Offer, causes: seq<EventID>, depth: nat) returns (r: Outcome)
      requires Valid()
      modifies this, poset
      ensures Valid() && observed == old(observed) && order == old(order)
      ensures r == CausedOutcome(old(poset.View()), e, Members(causes))
      ensures r.Ok? ==> poset.View() == WithCausedEvent(old(poset.View()), e.id, Canonized(e.content), Members(causes))
      ensures r.Ok? ==> ViewsQueued(old(queue), old(seen), queue, seen, e.id, Roles(e.content), depth)
      ensures r.Ok? && !(ViewKeys(e.id, Roles(e.content), depth) <= old(seen)) && old(AllQueued()) ==> AllQueued()
      ensures r.Fail? ==> unchanged(poset) && unchanged(this)
    {
      hide Sound, ViewOf, Lawful, OrderFits, QueueFits, Covered, Consistent, WithCausedEvent, LeastLawful, CausesClash, ItemKey, Roles, ViewsQueued;
      ghost var v, q := poset.View(), queue;
      SoundConsistent(poset.Stored());
      r := poset.AddEventWithCause(e, causes);
      if r.Ok? {
        EmitFits(v, e.id, Canonized(e.content), Members(causes), observed, order, queue, seen);
        CausedKeys(v, e.id, Canonized(e.content), Members(causes));
        EnqueueViews(e.id, Roles(e.content), depth);
        if !(ViewKeys(e.id, Roles(e.content), depth) <= old(seen)) && Covered(v, q, observed) {
          SomeView(q, old(seen), queue, seen, e.id, Roles(e.content), depth);
          QueueGrew(q, old(seen), queue, seen, e.id, Roles(e.content), depth);
          EmitCovers(v, poset.View(), q, observed, e.id, queue);
        }
      }
    }

    /** executionItemReady. */
    method IsReady(item: Item) returns (ready: bool)
      requires Valid() && item.event in poset.View().contents
      ensures ready <==> Ready(item)
    {
      hide Sound, ViewOf, OrderFits, QueueFits;
      KeysFacts(poset.Stored());
      ready := AllCausesObserved(poset, observed, item.event);
    }

    method HasReadyItem() returns (found: bool)
      requires Valid()
      ensures found <==> exists i :: 0 <= i < |queue| && Ready(queue[i])
    {
      hide Sound, ViewOf, OrderFits, QueueFits, CausesObserved;
      for i := 0 to |queue|
        invariant forall k :: 0 <= k < i ==> !Ready(queue[k])
      {
        QueuedKnown(poset.View(), queue, seen, i);
        found := IsReady(queue[i]);
        if found {
          return;
        }
      }
      return false;
    }

    /** A ready alias of an observed occurrence waits. */
    ghost predicate AliasWaits()
      reads this, poset
    {
      exists i :: 0 <= i < |queue| && Ready(queue[i]) && queue[i].event in observed
    }

    /** What popReadyExecutionItem may select: a ready item, and an alias while one waits. */
    ghost predicate Selectable(item: Item)
      reads this, poset
    {
      Ready(item) && (AliasWaits() ==> item.event in observed)
    }

    method ClosesObserved() returns (alias: bool)
      requires Valid()
      ensures alias <==> AliasWaits()
    {
      hide Sound, ViewOf, OrderFits, QueueFits, CausesObserved;
      for i := 0 to |queue|
        invariant forall k :: 0 <= k < i ==> !(Ready(queue[k]) && queue[k].event in observed)
      {
        QueuedKnown(poset.View(), queue, seen, i);
        var ready := IsReady(queue[i]);
        if ready && queue[i].event in observed {
          return true;
        }
      }
      return false;
    }

    ghost function OfferedUpTo(n: nat): set<Text>
      requires n <= |queue|
      reads this, poset
    {
      set i | 0 <= i < n && Selectable(queue[i]) :: ItemKey(queue[i])
    }

    /** The keys of all views that may be selected. */
    ghost function Offered(): set<Text>
      reads this, poset
    {
      OfferedUpTo(|queue|)
    }

    lemma OneMoreOffered(n: nat)
      requires n < |queue|
      ensures OfferedUpTo(n + 1) == OfferedUpTo(n) + if Selectable(queue[n]) then {ItemKey(queue[n])} else {}
    {
      hide Selectable, ItemKey;
    }

    lemma SelectableIff(n: nat)
      requires n < |queue|
      ensures Selectable(queue[n]) <==> Ready(queue[n]) && (AliasWaits() ==> queue[n].event in observed)
    {}

    lemma SomethingOffered()
      ensures Offered() == {} <==> forall i :: 0 <= i < |queue| ==> !Selectable(queue[i])
    {
      hide Selectable, ItemKey;
      if i :| 0 <= i < |queue| && Selectable(queue[i]) {
        assert ItemKey(queue[i]) in Offered();
      }
    }

    /** The options offered, by key, with their places in the queue. */
    method Options() returns (options: seq<Text>, indices: map<Text, nat>)
      requires Valid()
      ensures Members(options) == Offered() == indices.Keys
      ensures forall o :: o in indices ==>
                indices[o] < |queue| && Selectable(queue[indices[o]]) && ItemKey(queue[indices[o]]) == o
      ensures forall i, j :: 0 <= i < j < |options| ==> options[i] != options[j]
    {
      hide Sound, ViewOf, OrderFits, QueueFits, CausesObserved, ItemKey, AliasWaits, Selectable;
      options, indices := [], map[];
      var alias := ClosesObserved();
      for i := 0 to |queue|
        invariant Members(options) == OfferedUpTo(i) == indices.Keys
        invariant forall o :: o in indices ==>
                    indices[o] < i && Selectable(queue[indices[o]]) && ItemKey(queue[indices[o]]) == o
        invariant forall k, l :: 0 <= k < l < |options| ==> options[k] != options[l]
      {
        QueuedKnown(poset.View(), queue, seen, i);
        var ready := IsReady(queue[i]);
        assert Selectable(queue[i]) <==> ready && (alias ==> queue[i].event in observed) by { SelectableIff(i); }
        OneMoreOffered(i);
        if !ready || (alias && queue[i].event !in observed) {
          continue;
        }
        KeysDistinct(poset.View(), queue, seen);
        NotListed(options, ItemKey(queue[i]));
        options := options + [ItemKey(queue[i])];
        indices := indices[ItemKey(queue[i]) := i];
      }
    }

    /** Some item is ready exactly when some item may be selected. */
    lemma ReadyIffSelectable()
      ensures (exists i :: 0 <= i < |queue| && Ready(queue[i])) <==> exists i :: 0 <= i < |queue| && Selectable(queue[i])
    {
      hide CausesObserved;
      if i :| 0 <= i < |queue| && Ready(queue[i]) {
        if AliasWaits() {
          var k :| 0 <= k < |queue| && Ready(queue[k]) && queue[k].event in observed;
          assert Selectable(queue[k]);
        } else {
          assert Selectable(queue[i]);
        }
      }
    }

    /** popReadyExecutionItem and the observe step: the selected occurrence had every cause
        observed; aliases of observed occurrences go first; nothing ready is an error. */
    method ObserveNext(choices: ChoiceResolver) returns (r: Option<Item>)
      requires Valid()
      modifies this, choices
      ensures Valid()
      ensures r.Some? ==>
                && r.value in old(queue) && old(Selectable(r.value))
                && observed == old(observed) + {r.value.event}
                && order == (if r.value.event in old(observed) then old(order) else old(order) + [r.value.event])
                && multiset(old(queue)) == multiset(queue) + multiset{r.value}
      ensures r.Some? && old(AllQueued()) ==> AllQueued()
      ensures r.Some? ==> Selects(old(choices.State()), choices.State(), EVENT_OBSERVATION, old(Offered()), ItemKey(r.value))
      ensures r.None? <==> old(Offered() == {} || ScheduleRefuses(choices.State(), EVENT_OBSERVATION, Offered()))
      ensures r.Some? && old(AliasWaits()) ==> observed == old(observed)
      ensures r.None? ==> observed == old(observed) && order == old(order) && queue == old(queue)
      ensures !old(exists i :: 0 <= i < |queue| && Ready(queue[i])) ==> r.None?
      ensures old(choices.scheduled == map[] && exists i :: 0 <= i < |queue| && Ready(queue[i])) ==> r.Some?
    {
      hide Sound, ViewOf, OrderFits, QueueFits, CausesObserved, ItemKey, Selectable, Ready, Resolved, Lawful, OfferedUpTo, Selects,
        ScheduleRefuses, AliasWaits;
      ReadyIffSelectable();
      SomethingOffered();
      var options, indices := Options();
      MembersEmpty(options);
      if |options| == 0 {
        return None;
      }
      ghost var before := choices.State();
      SetResolves(before, EVENT_OBSERVATION, options);
      if choices.scheduled == map[] {
        UnscheduledResolves(before, Ask(EVENT_OBSERVATION, options));
      }
      var selected := choices.Resolve(EVENT_OBSERVATION, options);
      if selected.None? {
        return None;
      }
      SelectedIsOffered(before, Ask(EVENT_OBSERVATION, options));
      assert selected.value in Members(options);
      var index := indices[selected.value];
      var item := queue[index];
      ReadyItem(item);
      assert exists i :: 0 <= i < |queue| && Selectable(queue[i]);
      Observe(index);
      return Some(item);
    }

    lemma ReadyItem(item: Item)
      requires Selectable(item)
      ensures CausesObserved(poset.View(), observed, item.event)
      ensures AliasWaits() ==> item.event in observed
    {}

    /** Takes an item from the queue and marks its occurrence observed. */
    method Observe(index: nat)
      requires Valid() && index < |queue| && CausesObserved(poset.View(), observed, queue[index].event)
      modifies this
      ensures Valid() && observed == old(observed) + {old(queue[index].event)}
      ensures order == if old(queue[index].event in observed) then old(order) else old(order) + [old(queue[index].event)]
      ensures multiset(old(queue)) == multiset(queue) + multiset{old(queue[index])}
      ensures old(AllQueued()) ==> AllQueued()
    {
      hide Sound, ViewOf, OrderFits, QueueFits, Covered, CausesObserved, Consistent;
      var item := queue[index];
      SoundConsistent(poset.Stored());
      QueuedKnown(poset.View(), queue, seen, index);
      ObserveFits(poset.View(), observed, order, item.event);
      DropFits(poset.View(), queue, seen, index);
      if AllQueued() {
        DropCovers(poset.View(), queue, observed, index);
      }
      queue := Dropped(queue, index);
      if item.event !in observed {
        order := order + [item.event];
      }
      observed := observed + {item.event};
    }

    /** If every unobserved occurrence is queued, some item is ready until all are observed. */
    lemma Progress()
      requires Valid() && AllQueued() && observed != poset.View().contents.Keys
      ensures exists i :: 0 <= i < |queue| && Ready(queue[i])
    {
      hide Sound, ViewOf, Lawful, QueueFits, CausesObserved, Consistent;
      SoundConsistent(poset.Stored());
      ClosedKnown(poset.View(), observed);
      var id := SomethingReady(poset.View(), poset.Stamping(), observed);
      var i :| 0 <= i < |queue| && queue[i].event == id;
      assert Ready(queue[i]);
    }
  }

  lemma UnobservedCause(v: View, observed: set<EventID>, id: EventID, a: EventID)
    requires IsDirectCause(v, id, a) && a !in observed
    ensures !CausesObserved(v, observed, id)
  {}

  method AllCausesObserved(poset: Poset, observed: set<EventID>, id: EventID) returns (all: bool)
    requires Sound(poset.Stored()) && id in poset.events
    ensures all <==> CausesObserved(poset.View(), observed, id)
  {
    hide Sound, ViewOf;
    KeysFacts(poset.Stored());
    ClassFacts(poset.Stored(), id);
    var predecessors := poset.Predecessors(poset.Representative(id));
    for i := 0 to |predecessors|
      invariant forall a :: a in poset.View().contents && Rep(poset.View(), a) in predecessors[..i] ==> a in observed
    {
      TakeOneMore(predecessors, i);
      EdgeHeads(poset.Stored(), predecessors[i], poset.Representative(id));
      MemberFacts(poset.Stored(), predecessors[i]);
      var members := poset.classMembers[predecessors[i]];
      for j := 0 to |members|
        invariant forall k :: 0 <= k < j ==> members[k] in observed
      {
        if members[j] !in observed {
          assert members[j] in members;
          UnobservedCause(poset.View(), observed, id, members[j]);
          return false;
        }
      }
    }
    TakeAll(predecessors);
    return true;
  }

  lemma NotListed(options: seq<Text>, key: Text)
    ensures Members(options + [key]) == Members(options) + {key}
    ensures key !in Members(options) ==> forall i :: 0 <= i < |options| ==> options[i] != key
  {
    assert forall i :: 0 <= i < |options| ==> options[i] in Members(options);
  }

  lemma KeysDistinct(v: View, queue: seq<Item>, seen: set<Text>)
    requires QueueFits(v, queue, seen)
    ensures forall i, j :: 0 <= i < j < |queue| ==> ItemKey(queue[i]) != ItemKey(queue[j])
  {}

  lemma QueuedKnown(v: View, queue: seq<Item>, seen: set<Text>, index: nat)
    requires QueueFits(v, queue, seen) && index < |queue|
    ensures queue[index].event in v.contents
  {}

  /** A first observation goes last, after everything that precedes it. */
  lemma ObserveFits(v: View, observed: set<EventID>, order: seq<EventID>, id: EventID)
    requires Consistent(v) && OrderFits(v, observed, order) && id in v.contents && CausesObserved(v, observed, id)
    ensures OrderFits(v, observed + {id}, if id in observed then order else order + [id])
  {
    hide Leq, Consistent, CausesObserved;
    ReadyKeepsClosed(v, observed, id);
    if id in observed {
      assert observed + {id} == observed;
    } else {
      var longer := order + [id];
      assert forall i :: 0 <= i < |order| ==> order[i] in Members(order);
      forall i, j | 0 <= i < |longer| && 0 <= j < |longer| && Before(v, longer[i], longer[j]) ensures i < j {
      }
      assert Members(longer) == Members(order) + {id};
    }
  }

  lemma EmitCovers(v: View, w: View, queue: seq<Item>, observed: set<EventID>, id: EventID, after: seq<Item>)
    requires Covered(v, queue, observed) && w.contents.Keys == v.contents.Keys + {id}
    requires queue <= after && exists i :: 0 <= i < |after| && after[i].event == id
    ensures Covered(w, after, observed)
  {
    forall x | x in w.contents && x !in observed ensures exists i :: 0 <= i < |after| && after[i].event == x {
      if x != id {
        var i :| 0 <= i < |queue| && queue[i].event == x;
        assert after[i].event == x;
      }
    }
  }

  lemma EmitFits(
      v: View, id: EventID, c: Content, causes: set<EventID>, observed: set<EventID>, order: seq<EventID>, queue: seq<Item>, seen: set<Text>)
    requires Consistent(v) && id !in v.contents && causes <= v.contents.Keys
    requires OrderFits(v, observed, order) && QueueFits(v, queue, seen)
    ensures OrderFits(WithCausedEvent(v, id, c, causes), observed, order)
    ensures QueueFits(WithCausedEvent(v, id, c, causes), queue, seen)
  {
    hide Consistent, WithCausedEvent, ItemKey, PastClosed;
    NewEventKeepsClosed(v, id, c, causes, observed);
    ClosedKnown(v, observed);
    ExtendsNewEvent(v, WithCausedEvent(v, id, c, causes), order, id);
    CausedKeys(v, id, c, causes);
  }

  lemma ClosedKnown(v: View, observed: set<EventID>)
    requires PastClosed(v, observed)
    ensures observed <= v.contents.Keys
  {}

  lemma ExtendsNewEvent(v: View, w: View, order: seq<EventID>, id: EventID)
    requires LinearExtension(v, order) && id !in v.contents && Members(order) <= v.contents.Keys
    requires forall a, b :: b != id ==> (Before(w, a, b) <==> Before(v, a, b))
    ensures LinearExtension(w, order)
  {
    hide Before;
    assert forall i :: 0 <= i < |order| ==> order[i] in Members(order);
  }
}
