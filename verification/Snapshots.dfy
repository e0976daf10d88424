/** Integrating snapshots (merge.go) and draining pending edges (poset.go). */
module Snapshots {
  import opened Texts
  import opened JoinedKeys
  import opened Timings
  import opened Values
  import opened Reachability
  import opened CausalOrder
  import opened Stamps
  import opened Stores
  import opened Operations
  import opened EmptyIdentity
  import opened Merging
  import opened MergeStamps
  import opened Convergence
  import opened Posets

  /** One exported occurrence; `decodable` stands for the parts of its decoding outside the
      model: UTF-8 validity, wall-time syntax, parameter values and vector clock. */
  datatype EventExport = EventExport(
    id: EventID, name: Text, source: Text, params: Params, timings: seq<EventTiming>,
    wallTime: int, lamport: nat, decodable: bool)

  datatype Snapshot = Snapshot(
    events: seq<EventExport>, classes: seq<seq<EventID>>, edges: seq<seq<EventID>>, highWater: nat)

  datatype MergeResult = MergeResult(
    eventsAdded: nat, eventsSkipped: nat,
    equivalencesAdded: nat, equivalencesSkipped: nat,
    edgesAdded: nat, edgesSkipped: nat, edgesPending: nat,
    issues: nat)

  predicate ExportLess(a: EventExport, b: EventExport) {
    if a.lamport != b.lamport then a.lamport < b.lamport else Less(a.id, b.id)
  }

  const COLON: byte := 58

  /** snapshotEdgeKey: the endpoint count, then every endpoint after its length. */
  function EdgeKey(edge: seq<EventID>): Text {
    Decimal(|edge|) + [COLON] + EndpointKeys(edge)
  }

  function EndpointKeys(edge: seq<EventID>): Text {
    if edge == [] then [] else Decimal(|edge[0]|) + [COLON] + edge[0] + EndpointKeys(edge[1..])
  }

  // ----- What a snapshot states -----

  /** eventFromSnapshotExport: the exported role is the only observation. */
  function Imported(e: EventExport): Content {
    Content(e.name, e.source, e.params, [Observation(e.source, e.name, e.params)], e.timings, e.wallTime)
  }

  function Occurrences(events: seq<EventExport>, id: EventID): nat {
    if events == [] then 0 else (if events[0].id == id then 1 else 0) + Occurrences(events[1..], id)
  }

  ghost predicate AcceptableEvent(all: seq<EventExport>, e: EventExport) {
    e.id != [] && Occurrences(all, e.id) <= 1 && e.decodable && e.name != [] && Admissible(e.timings)
  }

  ghost function AcceptedEvents(all: seq<EventExport>, events: seq<EventExport>): seq<(EventID, Content)> {
    if events == [] then []
    else
      (if AcceptableEvent(all, events[0]) then [(events[0].id, Canonized(Imported(events[0])))] else []) +
      AcceptedEvents(all, events[1..])
  }

  predicate ValidClass(members: seq<EventID>, keys: set<EventID>, seen: set<EventID>) {
    forall i :: 0 <= i < |members| ==>
      members[i] != [] && members[i] in keys && members[i] !in seen && (i > 0 ==> members[i] != members[i - 1])
  }

  function AcceptedClasses(
      classes: seq<seq<EventID>>, keys: set<EventID>, seen: set<EventID>, seenKeys: set<Text>): seq<set<EventID>>
    decreases |classes|
  {
    if classes == [] then []
    else
      var c := classes[0];
      if |c| < 2 || ClassKey(c) in seenKeys then AcceptedClasses(classes[1..], keys, seen, seenKeys)
      else if ValidClass(c, keys, seen) then
        [Members(c)] + AcceptedClasses(classes[1..], keys, seen + Members(c), seenKeys + {ClassKey(c)})
      else AcceptedClasses(classes[1..], keys, seen, seenKeys + {ClassKey(c)})
  }

  predicate AcceptableEdge(edge: seq<EventID>, seenKeys: set<Text>) {
    |edge| == 2 && edge[0] != [] && edge[1] != [] && edge[0] != edge[1] && EdgeKey(edge) !in seenKeys
  }

  function AcceptedEdges(edges: seq<seq<EventID>>, seenKeys: set<Text>): seq<(EventID, EventID)>
    decreases |edges|
  {
    if edges == [] then []
    else if AcceptableEdge(edges[0], seenKeys) then
      [(edges[0][0], edges[0][1])] + AcceptedEdges(edges[1..], seenKeys + {EdgeKey(edges[0])})
    else AcceptedEdges(edges[1..], seenKeys)
  }

  function SortedEvents(s: Snapshot): seq<EventExport> {
    SortBy(ExportLess, s.events)
  }

  function SortedClasses(s: Snapshot): seq<seq<EventID>> {
    SortBy((a, b) => Less(ClassKey(a), ClassKey(b)), seq(|s.classes|, i requires 0 <= i < |s.classes| => SortBy(Less, s.classes[i])))
  }

  function SortedEdges(s: Snapshot): seq<seq<EventID>> {
    SortBy((a, b) => Less(EdgeKey(a), EdgeKey(b)), s.edges)
  }

  /** What a snapshot states to a poset knowing `keys`: malformed, duplicate, overlapping
      and absent content left out. */
  ghost function Described(s: Snapshot, keys: set<EventID>): Description {
    var events := AcceptedEvents(s.events, SortedEvents(s));
    Description(
      events,
      AcceptedClasses(SortedClasses(s), keys + Ids(events), {}, {}),
      AcceptedEdges(SortedEdges(s), {}))
  }

  ghost function ReplicaState(p: Poset): Replica
    reads p
  {
    Replica(p.View(), p.pendingEdges)
  }

  ghost predicate AllIdle(v: View, ops: seq<Op>) {
    forall k :: 0 <= k < |ops| ==> After(v, ops[k]) == v
  }

  lemma AllIdleCons(v: View, op: Op, ops: seq<Op>)
    requires AllIdle(v, [op] + ops)
    ensures After(v, op) == v && AllIdle(v, ops)
  {
    assert ([op] + ops)[0] == op;
    forall k | 0 <= k < |ops| ensures After(v, ops[k]) == v {
      assert ([op] + ops)[k + 1] == ops[k];
    }
  }

  // ----- What is reported -----

  /** Every listed event is well formed, listed once, and new or identical to what is known. */
  ghost predicate EventsClean(v: View, all: seq<EventExport>, events: seq<EventExport>)
    decreases |events|
  {
    events == [] || (
      && AcceptableEvent(all, events[0])
      && !Contradicts(v, events[0])
      && EventsClean(After(v, PutEvent(events[0].id, Canonized(Imported(events[0])))), all, events[1..]))
  }

  ghost predicate Contradicts(v: View, e: EventExport) {
    e.id in v.contents && EventConflict(v.contents[e.id], e)
  }

  /** Every class is well formed when its turn comes, and merges unless its key was seen before. */
  ghost predicate ClassesClean(
      v: View, classes: seq<seq<EventID>>, keys: set<EventID>, seen: set<EventID>, seenKeys: set<Text>)
    decreases |classes|
  {
    classes == [] || (
      && |classes[0]| >= 2 && ValidClass(classes[0], keys, seen)
      && if ClassKey(classes[0]) in seenKeys then ClassesClean(v, classes[1..], keys, seen, seenKeys)
         else
           && Takes(v, PutClass(Members(classes[0])))
           && ClassesClean(After(v, PutClass(Members(classes[0]))), classes[1..], keys,
                           seen + Members(classes[0]), seenKeys + {ClassKey(classes[0])}))
  }

  /** Every edge is well formed, and fits unless its key was seen before or an endpoint is missing. */
  ghost predicate EdgesClean(v: View, edges: seq<seq<EventID>>, seenKeys: set<Text>)
    decreases |edges|
  {
    edges == [] || (
      && WellFormedEdge(edges[0])
      && if EdgeKey(edges[0]) in seenKeys then EdgesClean(v, edges[1..], seenKeys)
         else
           && Takes(v, PutEdge(edges[0][0], edges[0][1]))
           && EdgesClean(After(v, PutEdge(edges[0][0], edges[0][1])), edges[1..], seenKeys + {EdgeKey(edges[0])}))
  }

  predicate WellFormedEdge(edge: seq<EventID>) {
    |edge| == 2 && edge[0] != [] && edge[1] != [] && edge[0] != edge[1]
  }

  /** Nothing in the snapshot is malformed, repeated, contradictory or refused. */
  ghost predicate MergesCleanly(s: Snapshot, v: View) {
    var d := Described(s, v.contents.Keys);
    var v1 := Run(v, EventOps(d.events));
    && (forall e :: e in s.events ==> e.lamport <= s.highWater)
    && EventsClean(v, s.events, SortedEvents(s))
    && ClassesClean(v1, SortedClasses(s), v1.contents.Keys, {}, {})
    && EdgesClean(Run(v1, ClassOps(d.classes)), SortedEdges(s), {})
  }

  // ----- The three passes -----

  /** snapshotEventConflict: a reused identity with different content. */
  predicate EventConflict(existing: Content, e: EventExport) {
    || existing.name != e.name || existing.source != e.source || existing.params != e.params
    || existing.timings != SortByClock(e.timings) || existing.wallTime != e.wallTime
  }

  method CountOf(events: seq<EventExport>, id: EventID) returns (count: nat)
    ensures count == Occurrences(events, id)
  {
    count := 0;
    for index := 0 to |events|
      invariant count + Occurrences(events[index..], id) == Occurrences(events, id)
    {
      assert events[index..][1..] == events[index + 1..];
      if events[index].id == id {
        count := count + 1;
      }
    }
  }

  ghost function EventPlan(all: seq<EventExport>, events: seq<EventExport>): seq<Op> {
    EventOps(AcceptedEvents(all, events))
  }

  lemma EventPlanStep(all: seq<EventExport>, events: seq<EventExport>)
    requires events != []
    ensures EventPlan(all, events) ==
            (if AcceptableEvent(all, events[0]) then [PutEvent(events[0].id, Canonized(Imported(events[0])))] else [])
            + EventPlan(all, events[1..])
  {
    var rest := AcceptedEvents(all, events[1..]);
    if AcceptableEvent(all, events[0]) {
      var accepted := [(events[0].id, Canonized(Imported(events[0])))] + rest;
      assert accepted[1..] == rest;
    } else {
      assert [] + rest == rest;
    }
  }

  lemma RunCons(v: View, op: Op, ops: seq<Op>)
    ensures Run(v, [op] + ops) == Run(After(v, op), ops)
  {
    assert ([op] + ops)[1..] == ops;
  }

  lemma RunNil(v: View)
    ensures Run(v, []) == v
  {}

  lemma StoredContent(s: Store, id: EventID)
    requires Sound(s) && id in s.events
    ensures id in ViewOf(s).contents && ViewOf(s).contents[id] == s.events[id].content
  {}

  /** Stamps and counter once the accepted events among `events` are in: a new event keeps the
      stamp it came with, and the counter rises to it. */
  ghost function Stamped(f: Stamping, counter: nat, all: seq<EventExport>, events: seq<EventExport>): (Stamping, nat)
    decreases |events|
  {
    if events == [] then (f, counter)
    else
      var e := events[0];
      if AcceptableEvent(all, e) && e.id !in f then
        Stamped(f[e.id := e.lamport], if e.lamport > counter then e.lamport else counter, all, events[1..])
      else Stamped(f, counter, all, events[1..])
  }

  ghost function StampedBy(f: Stamping, counter: nat, e: EventExport): (Stamping, nat) {
    if e.id in f then (f, counter) else (f[e.id := e.lamport], if e.lamport > counter then e.lamport else counter)
  }

  method ImportEvent(p: Poset, e: EventExport) returns (added: bool, conflict: bool)
    requires p.Valid() && Admissible(e.timings)
    modifies p
    ensures p.Valid() && p.pendingEdges == old(p.pendingEdges)
    ensures p.View() == After(old(p.View()), PutEvent(e.id, Canonized(Imported(e))))
    ensures p.View() == old(p.View()) ==> unchanged(p)
    ensures added <==> e.id !in old(p.View()).contents
    ensures conflict <==> Contradicts(old(p.View()), e)
    ensures (p.Stamping(), p.lamportCounter) == StampedBy(old(p.Stamping()), old(p.lamportCounter), e)
  {
    hide Sound, Lawful, ViewOf, Canonical, Admissible, EventConflict;
    KeysFacts(p.Stored());
    AdmissibleSorts(e.timings);
    conflict := false;
    if e.id in p.events {
      StoredContent(p.Stored(), e.id);
      conflict := EventConflict(p.events[e.id].content, e);
      return false, conflict;
    }
    var r := p.MergeEvent(e.id, Imported(e), e.lamport);
    added := r.Ok?;
    assert e.id in p.View().contents;
  }

  /** One listed event: imported when well formed and listed once; a repeated identity is
      reported at its first place only. */
  method MergeOneEvent(p: Poset, all: seq<EventExport>, e: EventExport, reported: set<EventID>)
    returns (added: bool, issue: bool, reported': set<EventID>)
    requires p.Valid()
    modifies p
    ensures p.Valid() && p.pendingEdges == old(p.pendingEdges)
    ensures p.View() == if AcceptableEvent(all, e) then After(old(p.View()), PutEvent(e.id, Canonized(Imported(e))))
                        else old(p.View())
    ensures (p.Stamping(), p.lamportCounter) == if AcceptableEvent(all, e) then StampedBy(old(p.Stamping()), old(p.lamportCounter), e)
                                                else (old(p.Stamping()), old(p.lamportCounter))
    ensures p.View() == old(p.View()) ==> unchanged(p)
    ensures |p.events| == |old(p.events)| + if added then 1 else 0
    ensures issue ==> !(AcceptableEvent(all, e) && !Contradicts(old(p.View()), e))
    ensures !issue ==> (AcceptableEvent(all, e) && !Contradicts(old(p.View()), e)) || reported != {}
    ensures reported' != {} ==> reported != {} || issue
  {
    hide Sound, Lawful, ViewOf, Occurrences, Admissible, Canonical, After, Contradicts, Imported, Canonized;
    added, issue, reported' := false, true, reported;
    var count := CountOf(all, e.id);
    if e.id == [] {
      return;
    }
    if count > 1 {
      issue := e.id !in reported;
      reported' := reported + {e.id};
      return;
    }
    var timings := CanonicalizeEventTimings(e.timings);
    if !e.decodable || e.name == [] || timings.None? {
      return;
    }
    ghost var was, keys := p.View(), p.events.Keys;
    KeysFacts(p.Stored());
    added, issue := ImportEvent(p, e);
    AcceptedTakes(was, all, e);
    KeysFacts(p.Stored());
    OneMoreKey(keys, e.id, p.events.Keys);
  }

  method MergeEvents(p: Poset, all: seq<EventExport>, sorted: seq<EventExport>)
    returns (added: nat, skipped: nat, issues: nat)
    requires p.Valid()
    modifies p
    ensures p.Valid() && p.pendingEdges == old(p.pendingEdges)
    ensures p.View() == Run(old(p.View()), EventPlan(all, sorted))
    ensures AllIdle(old(p.View()), EventPlan(all, sorted)) ==> unchanged(p)
    ensures added + skipped == |sorted| && |p.events| == |old(p.events)| + added
    ensures issues == 0 <==> EventsClean(old(p.View()), all, sorted)
    ensures (p.Stamping(), p.lamportCounter) == Stamped(old(p.Stamping()), old(p.lamportCounter), all, sorted)
  {
    hide Sound, Lawful, ViewOf, AcceptableEvent, EventPlan, Run, AllIdle, After, EventsClean, Contradicts, Imported, Canonized, Stamped, StampedBy;
    added, skipped, issues := 0, 0, 0;
    ghost var v, plan := p.View(), EventPlan(all, sorted);
    var reported: set<EventID> := {};
    assert sorted[0..] == sorted;
    for index := 0 to |sorted|
      invariant p.Valid() && p.pendingEdges == old(p.pendingEdges)
      invariant Run(p.View(), EventPlan(all, sorted[index..])) == Run(v, plan)
      invariant AllIdle(v, plan) ==> unchanged(p) && AllIdle(v, EventPlan(all, sorted[index..]))
      invariant added + skipped == index
      invariant Stamped(p.Stamping(), p.lamportCounter, all, sorted[index..]) == Stamped(old(p.Stamping()), old(p.lamportCounter), all, sorted)
      invariant |p.events| == |old(p.events)| + added && (reported != {} ==> issues > 0)
      invariant issues == 0 && EventsClean(p.View(), all, sorted[index..]) <==> EventsClean(v, all, sorted)
    {
      var e := sorted[index];
      ghost var was, rest, op := p.View(), EventPlan(all, sorted[index + 1..]), PutEvent(e.id, Canonized(Imported(e)));
      EventsCleanStep(was, all, sorted, index);
      StampedStep(p.Stamping(), p.lamportCounter, all, sorted, index);
      EventPlanStep(all, sorted[index..]);
      assert sorted[index..][1..] == sorted[index + 1..] && [] + rest == rest;
      RunCons(was, op, rest);
      if AllIdle(v, [op] + rest) {
        AllIdleCons(v, op, rest);
      }
      var new_, issue, reported' := MergeOneEvent(p, all, e, reported);
      added := added + if new_ then 1 else 0;
      skipped := skipped + if new_ then 0 else 1;
      issues := issues + if issue then 1 else 0;
      reported := reported';
    }
    assert sorted[|sorted|..] == [];
    NoEventPlan(all);
    NoneStamped(p.Stamping(), p.lamportCounter, all);
    NoEventsUnclean(p.View(), all);
    RunNil(p.View());
  }

  lemma StampedStep(f: Stamping, counter: nat, all: seq<EventExport>, sorted: seq<EventExport>, index: nat)
    requires index < |sorted|
    ensures var e := sorted[index];
            var (g, n) := if AcceptableEvent(all, e) then StampedBy(f, counter, e) else (f, counter);
            Stamped(f, counter, all, sorted[index..]) == Stamped(g, n, all, sorted[index + 1..])
  {
    hide AcceptableEvent;
    assert sorted[index..][0] == sorted[index] && sorted[index..][1..] == sorted[index + 1..];
  }

  lemma NoneStamped(f: Stamping, counter: nat, all: seq<EventExport>)
    ensures Stamped(f, counter, all, []) == (f, counter)
  {}

  lemma {:induction false} StampedFacts(f: Stamping, counter: nat, all: seq<EventExport>, events: seq<EventExport>)
    ensures Stamped(f, counter, all, events).1 >= counter
    decreases |events|
  {
    if events != [] {
      hide AcceptableEvent;
      var e := events[0];
      StampedFacts(f[e.id := e.lamport], if e.lamport > counter then e.lamport else counter, all, events[1..]);
      StampedFacts(f, counter, all, events[1..]);
    }
  }

  lemma EventsCleanStep(v: View, all: seq<EventExport>, sorted: seq<EventExport>, index: nat)
    requires index < |sorted|
    ensures var e := sorted[index];
            EventsClean(v, all, sorted[index..]) <==>
            && AcceptableEvent(all, e) && !Contradicts(v, e)
            && EventsClean(After(v, PutEvent(e.id, Canonized(Imported(e)))), all, sorted[index + 1..])
  {
    hide AcceptableEvent, Contradicts, After, Canonized, Imported;
    assert sorted[index..][0] == sorted[index] && sorted[index..][1..] == sorted[index + 1..];
  }

  lemma NoEventsUnclean(v: View, all: seq<EventExport>)
    ensures EventsClean(v, all, [])
  {}

  lemma OneMoreKey(before: set<EventID>, id: EventID, after: set<EventID>)
    requires after == before + {id}
    ensures |after| == |before| + if id in before then 0 else 1
  {
    if id in before {
      assert after == before;
    }
  }

  lemma NoEventPlan(all: seq<EventExport>)
    ensures EventPlan(all, []) == []
  {}

  // ----- Classes -----

  method ClassIsValid(p: Poset, members: seq<EventID>, seen: set<EventID>) returns (valid: bool)
    ensures valid <==> ValidClass(members, p.events.Keys, seen)
  {
    for index := 0 to |members|
      invariant forall i :: 0 <= i < index ==>
                  members[i] != [] && members[i] in p.events && members[i] !in seen &&
                  (i > 0 ==> members[i] != members[i - 1])
    {
      if members[index] == [] || (index > 0 && members[index] == members[index - 1]) ||
         members[index] in seen || members[index] !in p.events {
        return false;
      }
    }
    return true;
  }

  lemma ValidClassKnown(members: seq<EventID>, keys: set<EventID>, seen: set<EventID>)
    requires ValidClass(members, keys, seen)
    ensures Members(members) <= keys && [] !in Members(members)
  {}

  method AlreadyEquivalent(p: Poset, members: seq<EventID>) returns (equivalent: bool)
    requires Sound(p.Stored()) && members != [] && Members(members) <= p.events.Keys
    ensures equivalent <==> forall y :: y in Members(members) ==> Rep(p.View(), y) == Rep(p.View(), members[0])
  {
    hide Sound, Read, ViewOf;
    SoundReads(p.Stored());
    for index := 0 to |members|
      invariant forall i :: 0 <= i < index ==> Rep(p.View(), members[i]) == Rep(p.View(), members[0])
    {
      if p.Representative(members[index]) != p.Representative(members[0]) {
        assert members[index] in Members(members);
        return false;
      }
    }
    return true;
  }

  lemma OneClassFits(v: View, ids: set<EventID>, head: EventID)
    requires Consistent(v) && ids != {} && ids <= v.contents.Keys
    requires forall y :: y in ids ==> Rep(v, y) == head
    ensures ClassFits(v, ids) && AfterClass(v, ids) == v
  {
    hide TimingRule, Headed, EdgesJoinHeads, CanonicalTimings, Reach;
    OneClassIdle(v, ids, head);
    var y :| y in ids;
    assert Heads(v, ids) == {head};
    HeadsAreHeads(v, ids);
    SingleClass(v, head);
  }

  /** One accepted class: already equivalent members are skipped without a call. */
  method ImportClass(p: Poset, members: seq<EventID>) returns (added: bool, issue: bool)
    requires p.Valid() && members != [] && Members(members) <= p.events.Keys && [] !in Members(members)
    modifies p
    ensures p.Valid() && p.pendingEdges == old(p.pendingEdges) && p.lamportCounter == old(p.lamportCounter)
    ensures p.View() == After(old(p.View()), PutClass(Members(members)))
    ensures p.View() == old(p.View()) ==> unchanged(p)
    ensures p.events.Keys == old(p.events.Keys) && LeastLawful(p.View(), old(p.Stamping()), p.Stamping())
    ensures issue <==> !ClassFits(old(p.View()), Members(members))
  {
    hide Sound, Lawful, ViewOf, AfterClass, ClassOutcome, LeastLawful, Consistent, ClassFits, Members, Torn;
    ghost var v := p.View();
    SoundConsistent(p.Stored());
    ClassOutcomeIff(v, Members(members));
    KeysFacts(p.Stored());
    MembersEmpty(members);
    var alreadyEquivalent := AlreadyEquivalent(p, members);
    if alreadyEquivalent {
      OneClassFits(v, Members(members), Rep(v, members[0]));
      LawfulIsLeast(v, p.Stamping());
      return false, false;
    }
    var r := p.AddCausalEquivalenceClass(members);
    AfterKeys(v, PutClass(Members(members)));
    KeysFacts(p.Stored());
    return r.Ok?, r.Fail?;
  }

  method MergeClasses(p: Poset, classes: seq<seq<EventID>>) returns (added: nat, skipped: nat, issues: nat)
    requires p.Valid()
    modifies p
    ensures p.Valid() && p.pendingEdges == old(p.pendingEdges) && p.lamportCounter == old(p.lamportCounter)
    ensures p.View() == Run(old(p.View()), ClassOps(AcceptedClasses(classes, old(p.events.Keys), {}, {})))
    ensures AllIdle(old(p.View()), ClassOps(AcceptedClasses(classes, old(p.events.Keys), {}, {}))) ==> unchanged(p)
    ensures added + skipped == |classes| && p.events.Keys == old(p.events.Keys)
    ensures LeastLawful(p.View(), old(p.Stamping()), p.Stamping())
    ensures issues == 0 <==> ClassesClean(old(p.View()), classes, old(p.events.Keys), {}, {})
  {
    hide Sound, Lawful, ViewOf, Run, AllIdle, After, ClassKey, ValidClass, ClassesClean, ClassFits, LeastLawful, Consistent;
    added, skipped, issues := 0, 0, 0;
    ghost var v, keys := p.View(), p.events.Keys;
    LawfulIsLeast(v, p.Stamping());
    ghost var plan := ClassOps(AcceptedClasses(classes, keys, {}, {}));
    var seen: set<EventID> := {};
    var seenKeys: set<Text> := {};
    assert classes[0..] == classes;
    for index := 0 to |classes|
      invariant p.Valid() && p.pendingEdges == old(p.pendingEdges) && p.lamportCounter == old(p.lamportCounter)
      invariant p.events.Keys == keys && LeastLawful(p.View(), old(p.Stamping()), p.Stamping())
      invariant Run(p.View(), ClassOps(AcceptedClasses(classes[index..], keys, seen, seenKeys))) == Run(v, plan)
      invariant AllIdle(v, plan) ==>
                  unchanged(p) && AllIdle(v, ClassOps(AcceptedClasses(classes[index..], keys, seen, seenKeys)))
      invariant added + skipped == index
      invariant issues == 0 && ClassesClean(p.View(), classes[index..], keys, seen, seenKeys) <==> ClassesClean(v, classes, keys, {}, {})
    {
      var members := classes[index];
      ClassesCleanStep(p.View(), classes, index, keys, seen, seenKeys);
      assert classes[index..][1..] == classes[index + 1..];
      if |members| < 2 {
        skipped, issues := skipped + 1, issues + 1;
      } else {
        var valid := ClassIsValid(p, members, seen);
        issues := issues + if valid then 0 else 1;
        if ClassKey(members) in seenKeys {
          skipped := skipped + 1;
        } else if !valid {
          seenKeys := seenKeys + {ClassKey(members)};
          skipped := skipped + 1;
        } else {
          ghost var before := p.View();
          ghost var rest := AcceptedClasses(classes[index + 1..], keys, seen + Members(members), seenKeys + {ClassKey(members)});
          ClassOpsStep(Members(members), rest);
          RunCons(before, PutClass(Members(members)), ClassOps(rest));
          if AllIdle(v, [PutClass(Members(members))] + ClassOps(rest)) {
            AllIdleCons(v, PutClass(Members(members)), ClassOps(rest));
          }
          ValidClassKnown(members, keys, seen);
          seenKeys := seenKeys + {ClassKey(members)};
          seen := seen + Members(members);
          ghost var stamps := p.Stamping();
          SoundConsistent(p.Stored());
          var new_, issue := ImportClass(p, members);
          RepairsCompose(before, PutClass(Members(members)), old(p.Stamping()), stamps, p.Stamping());
          added := added + if new_ then 1 else 0;
          skipped := skipped + if new_ then 0 else 1;
          issues := issues + if issue then 1 else 0;
        }
      }
    }
    assert classes[|classes|..] == [];
    NoClassesUnclean(p.View(), keys, seen, seenKeys);
    RunNil(p.View());
  }

  lemma ClassesCleanStep(
      v: View, classes: seq<seq<EventID>>, index: nat, keys: set<EventID>, seen: set<EventID>, seenKeys: set<Text>)
    requires index < |classes|
    ensures var c := classes[index];
            ClassesClean(v, classes[index..], keys, seen, seenKeys) <==>
            && |c| >= 2 && ValidClass(c, keys, seen)
            && if ClassKey(c) in seenKeys then ClassesClean(v, classes[index + 1..], keys, seen, seenKeys)
               else
                 && ClassFits(v, Members(c))
                 && ClassesClean(After(v, PutClass(Members(c))), classes[index + 1..], keys,
                                 seen + Members(c), seenKeys + {ClassKey(c)})
  {
    hide ValidClass, ClassKey, ClassFits, After, Members;
    assert classes[index..][0] == classes[index] && classes[index..][1..] == classes[index + 1..];
  }

  lemma NoClassesUnclean(v: View, keys: set<EventID>, seen: set<EventID>, seenKeys: set<Text>)
    ensures ClassesClean(v, [], keys, seen, seenKeys)
  {}

  lemma ClassOpsStep(c: set<EventID>, rest: seq<set<EventID>>)
    ensures ClassOps([c] + rest) == [PutClass(c)] + ClassOps(rest)
  {
    assert ([c] + rest)[1..] == rest;
  }

  // ----- Edges -----

  lemma EdgeOpsStep(e: (EventID, EventID), rest: seq<(EventID, EventID)>)
    ensures EdgeOps([e] + rest) == [PutEdge(e.0, e.1)] + EdgeOps(rest)
  {
    assert ([e] + rest)[1..] == rest;
  }

  datatype EdgeFate = Added | Skipped | Pending

  /** One accepted edge: added, already there, refused, or kept for later. */
  method ImportEdge(p: Poset, from: EventID, to: EventID) returns (fate: EdgeFate, issue: bool)
    requires p.Valid()
    modifies p
    ensures p.Valid() && p.lamportCounter == old(p.lamportCounter) && p.events.Keys == old(p.events.Keys)
    ensures p.View() == After(old(p.View()), PutEdge(from, to))
    ensures p.pendingEdges == if Present(p.events.Keys, (from, to)) || (from, to) in old(p.pendingEdges)
                              then old(p.pendingEdges) else old(p.pendingEdges) + [(from, to)]
    ensures fate.Pending? <==> p.pendingEdges != old(p.pendingEdges)
    ensures p.View() == old(p.View()) && p.pendingEdges == old(p.pendingEdges) ==> unchanged(p)
    ensures LeastLawful(p.View(), old(p.Stamping()), p.Stamping())
    ensures issue <==> !Takes(old(p.View()), PutEdge(from, to))
  {
    hide Sound, Lawful, ViewOf, Consistent, EdgeFits, LeastLawful;
    KeysFacts(p.Stored());
    LawfulIsLeast(p.View(), p.Stamping());
    if from !in p.events || to !in p.events {
      NothingFits(p.View(), from, to);
      if (from, to) in p.pendingEdges {
        return Skipped, false;
      }
      p.pendingEdges := p.pendingEdges + [(from, to)];
      return Pending, false;
    }
    var added;
    added, issue := ImportKnownEdge(p, from, to);
    return if added then Added else Skipped, issue;
  }

  lemma NothingFits(v: View, from: EventID, to: EventID)
    requires from !in v.contents || to !in v.contents
    ensures AfterEdge(v, from, to) == v
  {
    hide Consistent;
  }

  /** An edge between known events: already there, tried and added, or refused. */
  method ImportKnownEdge(p: Poset, from: EventID, to: EventID) returns (added: bool, issue: bool)
    requires p.Valid() && from in p.events && to in p.events
    modifies p`events, p`causalEdges, p`reverseCausal
    ensures p.Valid() && p.events.Keys == old(p.events.Keys)
    ensures p.View() == AfterEdge(old(p.View()), from, to)
    ensures p.View() == old(p.View()) ==> unchanged(p)
    ensures LeastLawful(p.View(), old(p.Stamping()), p.Stamping())
    ensures issue <==> !EdgeFits(old(p.View()), from, to)
  {
    hide Sound, Lawful, ViewOf, Consistent, LeastLawful, Equivalent;
    ghost var v := p.View();
    LawfulIsLeast(v, p.Stamping());
    SoundConsistent(p.Stored());
    KeysFacts(p.Stored());
    ClassFacts(p.Stored(), from);
    ClassFacts(p.Stored(), to);
    var fromHead, toHead := p.Representative(from), p.Representative(to);
    EdgeStored(p.Stored(), fromHead, toHead);
    SameClassIff(v, from, to);
    if fromHead == toHead {
      return false, true;
    }
    if toHead in p.causalEdges[fromHead] {
      assert WithEdge(v, from, to) == v;
      return false, false;
    }
    EdgeOutcomeIff(v, from, to);
    var r := p.AddCausal(from, to);
    AfterKeys(v, PutEdge(from, to));
    KeysFacts(p.Stored());
    return r.Ok?, r.Fail?;
  }

  lemma SameClassIff(v: View, from: EventID, to: EventID)
    requires from in v.contents && to in v.contents
    ensures Equivalent(v, from, to) <==> Rep(v, from) == Rep(v, to)
  {}

  method MergeEdges(p: Poset, edges: seq<seq<EventID>>)
    returns (added: nat, skipped: nat, pending: nat, issues: nat)
    requires p.Valid()
    modifies p
    ensures p.Valid() && p.lamportCounter == old(p.lamportCounter) && p.events.Keys == old(p.events.Keys)
    ensures LeastLawful(p.View(), old(p.Stamping()), p.Stamping())
    ensures var accepted := AcceptedEdges(edges, {});
            && p.View() == Run(old(p.View()), EdgeOps(accepted))
            && p.pendingEdges == WithMissing(old(p.events.Keys), old(p.pendingEdges), accepted)
            && (AllIdle(old(p.View()), EdgeOps(accepted)) && p.pendingEdges == old(p.pendingEdges) ==> unchanged(p))
    ensures added + skipped + pending == |edges| && |p.pendingEdges| == |old(p.pendingEdges)| + pending
    ensures issues == 0 <==> EdgesClean(old(p.View()), edges, {})
  {
    hide Sound, Lawful, ViewOf, Run, AllIdle, After, EdgeKey, Present, EdgesClean, Takes, LeastLawful, Consistent;
    LawfulIsLeast(p.View(), p.Stamping());
    added, skipped, pending, issues := 0, 0, 0, 0;
    ghost var v, keys, pend := p.View(), p.events.Keys, p.pendingEdges;
    ghost var accepted := AcceptedEdges(edges, {});
    var seenKeys: set<Text> := {};
    assert edges[0..] == edges;
    for index := 0 to |edges|
      invariant p.Valid() && p.lamportCounter == old(p.lamportCounter) && p.events.Keys == keys
      invariant LeastLawful(p.View(), old(p.Stamping()), p.Stamping())
      invariant Run(p.View(), EdgeOps(AcceptedEdges(edges[index..], seenKeys))) == Run(v, EdgeOps(accepted))
      invariant WithMissing(keys, p.pendingEdges, AcceptedEdges(edges[index..], seenKeys)) ==
                WithMissing(keys, pend, accepted)
      invariant AllIdle(v, EdgeOps(accepted)) && p.pendingEdges == pend ==> unchanged(p)
      invariant AllIdle(v, EdgeOps(accepted)) ==>
                  p.View() == v && AllIdle(v, EdgeOps(AcceptedEdges(edges[index..], seenKeys)))
      invariant added + skipped + pending == index && |p.pendingEdges| == |pend| + pending
      invariant issues == 0 && EdgesClean(p.View(), edges[index..], seenKeys) <==> EdgesClean(v, edges, {})
    {
      var edge := edges[index];
      EdgesCleanStep(p.View(), edges, index, seenKeys);
      assert edges[index..][1..] == edges[index + 1..];
      if |edge| != 2 || edge[0] == [] || edge[1] == [] || edge[0] == edge[1] {
        skipped, issues := skipped + 1, issues + 1;
      } else if EdgeKey(edge) in seenKeys {
        skipped := skipped + 1;
      } else {
        seenKeys := seenKeys + {EdgeKey(edge)};
        ghost var e, rest := (edge[0], edge[1]), AcceptedEdges(edges[index + 1..], seenKeys);
        EdgeOpsStep(e, rest);
        RunCons(p.View(), PutEdge(e.0, e.1), EdgeOps(rest));
        if AllIdle(v, [PutEdge(e.0, e.1)] + EdgeOps(rest)) {
          AllIdleCons(v, PutEdge(e.0, e.1), EdgeOps(rest));
        }
        assert ([e] + rest)[1..] == rest;
        ghost var before, stamps := p.View(), p.Stamping();
        SoundConsistent(p.Stored());
        var fate, issue := ImportEdge(p, edge[0], edge[1]);
        RepairsCompose(before, PutEdge(e.0, e.1), old(p.Stamping()), stamps, p.Stamping());
        issues := issues + if issue then 1 else 0;
        match fate {
          case Added => added := added + 1;
          case Skipped => skipped := skipped + 1;
          case Pending => pending := pending + 1;
        }
      }
    }
    assert edges[|edges|..] == [];
    NoEdgesUnclean(p.View(), seenKeys);
    RunNil(p.View());
  }

  lemma EdgesCleanStep(v: View, edges: seq<seq<EventID>>, index: nat, seenKeys: set<Text>)
    requires index < |edges|
    ensures var e := edges[index];
            EdgesClean(v, edges[index..], seenKeys) <==>
            && WellFormedEdge(e)
            && if EdgeKey(e) in seenKeys then EdgesClean(v, edges[index + 1..], seenKeys)
               else
                 && Takes(v, PutEdge(e[0], e[1]))
                 && EdgesClean(After(v, PutEdge(e[0], e[1])), edges[index + 1..], seenKeys + {EdgeKey(e)})
  {
    hide EdgeKey, Takes, After;
    assert edges[index..][0] == edges[index] && edges[index..][1..] == edges[index + 1..];
  }

  lemma NoEdgesUnclean(v: View, seenKeys: set<Text>)
    ensures EdgesClean(v, [], seenKeys)
  {}

  // ----- Whole merges -----

  /** MergeSnapshot: the view becomes what merging the snapshot's statement yields, edges
      with unknown endpoints wait, and every listed object is accounted for once. */
  method MergeSnapshot(p: Poset, s: Snapshot) returns (result: MergeResult)
    requires p.Valid()
    modifies p
    ensures p.Valid()
    ensures ReplicaState(p) == MergeInto(old(ReplicaState(p)), Described(s, old(p.View()).contents.Keys))
    ensures var (start, counter) := Stamped(old(p.Stamping()), old(p.lamportCounter), s.events, SortedEvents(s));
            && LeastLawful(p.View(), start, p.Stamping())
            && p.lamportCounter == if s.highWater > counter then s.highWater else counter
    ensures result.issues == 0 <==> MergesCleanly(s, old(p.View()))
    ensures |p.View().contents| == |old(p.View()).contents| + result.eventsAdded
    ensures |p.pendingEdges| == |old(p.pendingEdges)| + result.edgesPending
    ensures result.eventsAdded + result.eventsSkipped == |s.events|
    ensures result.equivalencesAdded + result.equivalencesSkipped == |s.classes|
    ensures result.edgesAdded + result.edgesSkipped + result.edgesPending == |s.edges|
    ensures (AllIdle(old(p.View()), MergeOps(Described(s, old(p.View()).contents.Keys)))
             && p.pendingEdges == old(p.pendingEdges) && s.highWater <= old(p.lamportCounter)) ==> unchanged(p)
  {
    hide Sound, Lawful, ViewOf, Run, AllIdle, EventsClean, ClassesClean, EdgesClean, MergesCleanly, Described, SortedEvents, SortedClasses, SortedEdges, Stamped, LeastLawful;
    StampedFacts(p.Stamping(), p.lamportCounter, s.events, SortedEvents(s));
    var highWaterIssues := HighWaterIssues(s);
    ghost var v1, v2;
    result, v1, v2 := MergePhases(p, s);
    PhasesCompose(old(p.View()), v1, v2, p.View(), Described(s, old(p.View()).contents.Keys));
    CleanlyIff(s, old(p.View()), v1, v2);
    if s.highWater > p.lamportCounter {
      p.lamportCounter := s.highWater;
    }
    result := result.(issues := result.issues + highWaterIssues);
  }

  /** Events, then classes, then edges. */
  method MergePhases(p: Poset, s: Snapshot) returns (result: MergeResult, ghost v1: View, ghost v2: View)
    requires p.Valid()
    modifies p
    ensures p.Valid()
    ensures var (start, counter) := Stamped(old(p.Stamping()), old(p.lamportCounter), s.events, SortedEvents(s));
            LeastLawful(p.View(), start, p.Stamping()) && p.lamportCounter == counter
    ensures var d := Described(s, old(p.View()).contents.Keys);
            && v1 == Run(old(p.View()), EventOps(d.events)) && v2 == Run(v1, ClassOps(d.classes)) && p.View() == Run(v2, EdgeOps(d.edges))
            && p.pendingEdges == WithMissing(p.View().contents.Keys, old(p.pendingEdges), d.edges)
            && ((AllIdle(old(p.View()), EventOps(d.events)) && AllIdle(v1, ClassOps(d.classes)) && AllIdle(v2, EdgeOps(d.edges))
                 && p.pendingEdges == old(p.pendingEdges)) ==> unchanged(p))
    ensures result.issues == 0 <==>
              && EventsClean(old(p.View()), s.events, SortedEvents(s))
              && ClassesClean(v1, SortedClasses(s), v1.contents.Keys, {}, {}) && EdgesClean(v2, SortedEdges(s), {})
    ensures |p.View().contents| == |old(p.View()).contents| + result.eventsAdded
    ensures |p.pendingEdges| == |old(p.pendingEdges)| + result.edgesPending
    ensures result.eventsAdded + result.eventsSkipped == |s.events|
    ensures result.equivalencesAdded + result.equivalencesSkipped == |s.classes|
    ensures result.edgesAdded + result.edgesSkipped + result.edgesPending == |s.edges|
  {
    hide Sound, Lawful, ViewOf, Run, AllIdle, EventsClean, ClassesClean, EdgesClean, Described, SortedEvents, SortedClasses, SortedEdges, AcceptedClasses, AcceptedEdges, AcceptedEvents, Ids, WithMissing, Stamped, LeastLawful, Consistent;
    DescribedParts(s, p.View());
    EventsKeys(p.View(), s.events, SortedEvents(s));
    SortedLengths(s);
    KeysFacts(p.Stored());
    var eventsAdded, eventsSkipped, eventIssues := MergeEvents(p, s.events, SortedEvents(s));
    v1 := p.View();
    KeysFacts(p.Stored());
    ghost var start := p.Stamping();
    SoundConsistent(p.Stored());
    var classesAdded, classesSkipped, classIssues := MergeClasses(p, SortedClasses(s));
    v2 := p.View();
    ghost var middle := p.Stamping();
    SoundConsistent(p.Stored());
    KeysFacts(p.Stored());
    var edgesAdded, edgesSkipped, edgesPending, edgeIssues := MergeEdges(p, SortedEdges(s));
    EdgesCompose(v2, AcceptedEdges(SortedEdges(s), {}), start, middle, p.Stamping());
    KeysFacts(p.Stored());
    result := MergeResult(eventsAdded, eventsSkipped, classesAdded, classesSkipped,
                          edgesAdded, edgesSkipped, edgesPending, eventIssues + classIssues + edgeIssues);
  }

  lemma EdgesCompose(v: View, edges: seq<(EventID, EventID)>, low: Stamping, middle: Stamping, f: Stamping)
    requires Consistent(v) && LeastLawful(v, low, middle) && LeastLawful(Run(v, EdgeOps(edges)), middle, f)
    ensures LeastLawful(Run(v, EdgeOps(edges)), low, f)
  {
    OnlyEdges(edges);
    RunRepairs(v, EdgeOps(edges), low, middle, f);
  }

  lemma DescribedParts(s: Snapshot, v: View)
    ensures var d := Described(s, v.contents.Keys);
            && d.events == AcceptedEvents(s.events, SortedEvents(s)) && d.edges == AcceptedEdges(SortedEdges(s), {})
            && d.classes == AcceptedClasses(SortedClasses(s), v.contents.Keys + Ids(d.events), {}, {})
  {
    hide SortedEvents, SortedClasses, SortedEdges, AcceptedClasses, AcceptedEdges, AcceptedEvents, Ids;
  }

  lemma CleanlyIff(s: Snapshot, v: View, v1: View, v2: View)
    requires v1 == Run(v, EventOps(Described(s, v.contents.Keys).events))
    requires v2 == Run(v1, ClassOps(Described(s, v.contents.Keys).classes))
    ensures MergesCleanly(s, v) <==>
            && (forall e :: e in s.events ==> e.lamport <= s.highWater) && EventsClean(v, s.events, SortedEvents(s))
            && ClassesClean(v1, SortedClasses(s), v1.contents.Keys, {}, {}) && EdgesClean(v2, SortedEdges(s), {})
  {
    hide Run, Described, EventsClean, ClassesClean, EdgesClean, SortedEvents, SortedClasses, SortedEdges;
  }

  /** The merge still applies when the high-water mark lies below some event's stamp. */
  method HighWaterIssues(s: Snapshot) returns (issues: nat)
    ensures issues == if forall e :: e in s.events ==> e.lamport <= s.highWater then 0 else 1
  {
    var maximum := 0;
    for index := 0 to |s.events|
      invariant forall i :: 0 <= i < index ==> s.events[i].lamport <= maximum
      invariant maximum == 0 || exists i :: 0 <= i < index && s.events[i].lamport == maximum
    {
      if s.events[index].lamport > maximum {
        maximum := s.events[index].lamport;
      }
    }
    if s.highWater < maximum {
      return 1;
    }
    return 0;
  }

  lemma {:induction false} CleanClassesTaken(
      v: View, classes: seq<seq<EventID>>, keys: set<EventID>, seen: set<EventID>, seenKeys: set<Text>)
    requires ClassesClean(v, classes, keys, seen, seenKeys)
    ensures TakesAll(v, ClassOps(AcceptedClasses(classes, keys, seen, seenKeys)))
    decreases |classes|
  {
    if classes != [] {
      hide Takes, After, ValidClass, ClassKey;
      var c := classes[0];
      if ClassKey(c) in seenKeys {
        CleanClassesTaken(v, classes[1..], keys, seen, seenKeys);
      } else {
        var op := PutClass(Members(c));
        CleanClassesTaken(After(v, op), classes[1..], keys, seen + Members(c), seenKeys + {ClassKey(c)});
        var rest := AcceptedClasses(classes[1..], keys, seen + Members(c), seenKeys + {ClassKey(c)});
        ClassOpsStep(Members(c), rest);
        TakesFirst(v, op, ClassOps(rest));
      }
    }
  }

  lemma {:induction false} CleanEdgesTaken(v: View, edges: seq<seq<EventID>>, seenKeys: set<Text>)
    requires EdgesClean(v, edges, seenKeys)
    ensures TakesAll(v, EdgeOps(AcceptedEdges(edges, seenKeys)))
    decreases |edges|
  {
    if edges != [] {
      hide Takes, After, EdgeKey;
      var e := edges[0];
      if EdgeKey(e) in seenKeys {
        CleanEdgesTaken(v, edges[1..], seenKeys);
      } else {
        var op := PutEdge(e[0], e[1]);
        CleanEdgesTaken(After(v, op), edges[1..], seenKeys + {EdgeKey(e)});
        var rest := AcceptedEdges(edges[1..], seenKeys + {EdgeKey(e)});
        EdgeOpsStep((e[0], e[1]), rest);
        TakesFirst(v, op, EdgeOps(rest));
      }
    }
  }

  lemma TakesFirst(v: View, op: Op, ops: seq<Op>)
    requires Takes(v, op) && TakesAll(After(v, op), ops)
    ensures TakesAll(v, [op] + ops)
  {
    hide Takes, After;
    assert ([op] + ops)[1..] == ops;
  }

  lemma {:induction false} CleanEventsListed(v: View, all: seq<EventExport>, events: seq<EventExport>)
    requires EventsClean(v, all, events)
    ensures |AcceptedEvents(all, events)| == |events|
    decreases |events|
  {
    if events != [] {
      hide AcceptableEvent, Contradicts, After, Canonized, Imported;
      CleanEventsListed(After(v, PutEvent(events[0].id, Canonized(Imported(events[0])))), all, events[1..]);
    }
  }

  /** A merge that reports nothing has taken in every event, every class and every edge stated. */
  lemma CleanMergeTakesAll(s: Snapshot, v: View)
    requires MergesCleanly(s, v)
    ensures var d := Described(s, v.contents.Keys);
            var v1 := Run(v, EventOps(d.events));
            |d.events| == |s.events| && TakesAll(v1, ClassOps(d.classes)) && TakesAll(Run(v1, ClassOps(d.classes)), EdgeOps(d.edges))
  {
    hide Run, EventsClean, ClassesClean, EdgesClean, SortedEvents, SortedClasses, SortedEdges, AcceptedClasses, AcceptedEdges, AcceptedEvents, Ids, TakesAll;
    var d := Described(s, v.contents.Keys);
    var v1 := Run(v, EventOps(d.events));
    DescribedParts(s, v);
    EventsKeys(v, s.events, SortedEvents(s));
    SortedLengths(s);
    CleanEventsListed(v, s.events, SortedEvents(s));
    CleanClassesTaken(v1, SortedClasses(s), v1.contents.Keys, {}, {});
    CleanEdgesTaken(Run(v1, ClassOps(d.classes)), SortedEdges(s), {});
  }

  lemma SortedLengths(s: Snapshot)
    ensures |SortedEvents(s)| == |s.events| && |SortedClasses(s)| == |s.classes| && |SortedEdges(s)| == |s.edges|
  {}

  lemma {:induction false} EventsKeys(v: View, all: seq<EventExport>, events: seq<EventExport>)
    ensures Run(v, EventPlan(all, events)).contents.Keys == v.contents.Keys + Ids(AcceptedEvents(all, events))
    decreases |events|
  {
    if events != [] {
      var rest := AcceptedEvents(all, events[1..]);
      EventPlanStep(all, events);
      if AcceptableEvent(all, events[0]) {
        hide AcceptableEvent, Admissible, Canonical;
        var op := PutEvent(events[0].id, Canonized(Imported(events[0])));
        RunCons(v, op, EventPlan(all, events[1..]));
        EventsKeys(After(v, op), all, events[1..]);
        AcceptedTakes(v, all, events[0]);
        IdsStep([(events[0].id, Canonized(Imported(events[0])))] + rest);
        assert ([(events[0].id, Canonized(Imported(events[0])))] + rest)[1..] == rest;
      } else {
        EventsKeys(v, all, events[1..]);
        assert [] + rest == rest;
        assert [] + EventPlan(all, events[1..]) == EventPlan(all, events[1..]);
      }
    }
  }

  lemma AcceptedTakes(v: View, all: seq<EventExport>, e: EventExport)
    requires AcceptableEvent(all, e)
    ensures After(v, PutEvent(e.id, Canonized(Imported(e)))).contents.Keys == v.contents.Keys + {e.id}
  {
    AdmissibleSorts(e.timings);
  }

  lemma PhasesCompose(v: View, v1: View, v2: View, v3: View, d: Description)
    requires v1 == Run(v, EventOps(d.events)) && v2 == Run(v1, ClassOps(d.classes)) && v3 == Run(v2, EdgeOps(d.edges))
    ensures v3 == Run(v, MergeOps(d))
    ensures AllIdle(v, MergeOps(d)) ==>
              AllIdle(v, EventOps(d.events)) && AllIdle(v, ClassOps(d.classes)) && AllIdle(v, EdgeOps(d.edges))
              && v1 == v && v2 == v
  {
    RunAppend(v, EventOps(d.events), ClassOps(d.classes) + EdgeOps(d.edges));
    RunAppend(v1, ClassOps(d.classes), EdgeOps(d.edges));
    if AllIdle(v, MergeOps(d)) {
      AllIdleSplit(v, EventOps(d.events), ClassOps(d.classes) + EdgeOps(d.edges));
      AllIdleSplit(v, ClassOps(d.classes), EdgeOps(d.edges));
      IdleRun(v, EventOps(d.events));
      IdleRun(v, ClassOps(d.classes));
    }
  }

  lemma AllIdleSplit(v: View, xs: seq<Op>, ys: seq<Op>)
    requires AllIdle(v, xs + ys)
    ensures AllIdle(v, xs) && AllIdle(v, ys)
  {
    forall k | 0 <= k < |xs| ensures After(v, xs[k]) == v {
      assert (xs + ys)[k] == xs[k];
    }
    forall k | 0 <= k < |ys| ensures After(v, ys[k]) == v {
      assert (xs + ys)[|xs| + k] == ys[k];
    }
  }

  // ----- Merging twice -----

  lemma {:induction false} EventsThenRest(events: seq<(EventID, Content)>, rest: seq<Op>)
    requires NoEvents(rest)
    ensures Phased(EventOps(events) + rest)
    decreases |events|
  {
    if events == [] {
      assert EventOps(events) + rest == rest;
    } else {
      hide NoEvents;
      EventsThenRest(events[1..], rest);
      var ops := EventOps(events) + rest;
      assert ops == [PutEvent(events[0].0, events[0].1)] + (EventOps(events[1..]) + rest);
      assert ops[1..] == EventOps(events[1..]) + rest;
    }
  }

  lemma {:induction false} ClassesThenEdges(classes: seq<set<EventID>>, edges: seq<(EventID, EventID)>)
    ensures NoEvents(ClassOps(classes) + EdgeOps(edges))
    decreases |classes|
  {
    if classes == [] {
      OnlyEdges(edges);
      assert ClassOps(classes) + EdgeOps(edges) == EdgeOps(edges);
    } else {
      ClassesThenEdges(classes[1..], edges);
      var rest := ClassOps(classes[1..]) + EdgeOps(edges);
      assert ClassOps(classes) + EdgeOps(edges) == [PutClass(classes[0])] + rest;
    }
  }

  lemma {:induction false} OnlyEdges(edges: seq<(EventID, EventID)>)
    ensures NoEvents(EdgeOps(edges))
    decreases |edges|
  {
    if edges != [] {
      OnlyEdges(edges[1..]);
    }
  }

  lemma MergeOpsPhased(d: Description)
    ensures Phased(MergeOps(d))
  {
    ClassesThenEdges(d.classes, d.edges);
    EventsThenRest(d.events, ClassOps(d.classes) + EdgeOps(d.edges));
  }

  lemma {:induction false} MissingOnce(
      keys: set<EventID>, pending: seq<(EventID, EventID)>, edges: seq<(EventID, EventID)>)
    requires forall e :: e in edges && !Present(keys, e) ==> e in pending
    ensures WithMissing(keys, pending, edges) == pending
    decreases |edges|
  {
    if edges != [] {
      assert edges[0] in edges;
      MissingOnce(keys, pending, edges[1..]);
    }
  }

  /** A second merge of the same statement finds every operation without effect and every
      missing edge already waiting, even when parts of the statement were refused. */
  lemma MergeTwiceIdle(r: Replica, s: Snapshot)
    requires Consistent(r.view)
    ensures var m := MergeInto(r, Described(s, r.view.contents.Keys));
            && Described(s, m.view.contents.Keys) == Described(s, r.view.contents.Keys)
            && AllIdle(m.view, MergeOps(Described(s, m.view.contents.Keys)))
            && MergeInto(m, Described(s, m.view.contents.Keys)) == m
  {
    hide Consistent, SortedEvents, SortedClasses, SortedEdges, After, Ids, Present, Run, AcceptedClasses, AcceptedEdges, AcceptedEvents;
    var keys := r.view.contents.Keys;
    var d := Described(s, keys);
    var m := MergeInto(r, d);
    MergedKeys(r.view, s, d);
    assert keys + Ids(d.events) + Ids(d.events) == keys + Ids(d.events);
    MergeOpsPhased(d);
    forall k | 0 <= k < |MergeOps(d)| ensures After(m.view, MergeOps(d)[k]) == m.view {
      RunLeavesIdle(r.view, MergeOps(d), k);
    }
    IdleRun(m.view, MergeOps(d));
    MissingMembers(m.view.contents.Keys, r.pending, d.edges);
    forall e | e in d.edges && !Present(m.view.contents.Keys, e) ensures e in m.pending {
      assert e in Members(m.pending);
    }
    MissingOnce(m.view.contents.Keys, m.pending, d.edges);
  }

  lemma MergedKeys(v: View, s: Snapshot, d: Description)
    requires d == Described(s, v.contents.Keys)
    ensures Run(v, MergeOps(d)).contents.Keys == v.contents.Keys + Ids(d.events)
  {
    hide SortedEvents, SortedClasses, SortedEdges, Ids, Run, AcceptedClasses, AcceptedEdges;
    EventsKeys(v, s.events, SortedEvents(s));
    RunAppend(v, EventOps(d.events), ClassOps(d.classes) + EdgeOps(d.edges));
    ClassesThenEdges(d.classes, d.edges);
    RunKeys(Run(v, EventOps(d.events)), ClassOps(d.classes) + EdgeOps(d.edges));
  }

  /** Merging a snapshot again changes nothing at all: not the five structures, the stamps,
      the counter or the pending edges.  r is the poset as it was before the first merge. */
  method MergeAgain(p: Poset, s: Snapshot, ghost r: Replica) returns (again: MergeResult)
    requires p.Valid() && Consistent(r.view)
    requires ReplicaState(p) == MergeInto(r, Described(s, r.view.contents.Keys)) && p.lamportCounter >= s.highWater
    modifies p
    ensures unchanged(p) && again.eventsAdded == 0 && again.edgesPending == 0
  {
    hide Sound, Lawful, ViewOf, MergeInto, Described, MergeOps, AllIdle;
    MergeTwiceIdle(r, s);
    again := MergeSnapshot(p, s);
  }

  // ----- Draining -----

  lemma StillMissingStep(keys: set<EventID>, pending: seq<(EventID, EventID)>)
    requires pending != []
    ensures StillMissing(keys, pending) ==
            (if Present(keys, pending[0]) then [] else [pending[0]]) + StillMissing(keys, pending[1..])
  {}

  lemma AbsentEdgeIdle(v: View, e: (EventID, EventID))
    requires !Present(v.contents.Keys, e)
    ensures After(v, PutEdge(e.0, e.1)) == v
  {}

  /** DrainPendingEdges: every edge whose endpoints have arrived is tried once and leaves
      the list; the others keep waiting. */
  method DrainPendingEdges(p: Poset) returns (resolved: nat, errors: nat)
    requires p.Valid()
    modifies p
    ensures p.Valid() && ReplicaState(p) == Drain(old(ReplicaState(p)))
    ensures p.lamportCounter == old(p.lamportCounter) && LeastLawful(p.View(), old(p.Stamping()), p.Stamping())
    ensures resolved + errors + |p.pendingEdges| == |old(p.pendingEdges)|
    ensures errors == 0 <==> TakesAll(old(p.View()), EdgeOps(old(p.pendingEdges)))
  {
    hide Sound, Lawful, ViewOf, Run, After, Present, PresentNow, StillMissing, EdgeOps, TakesAll, Takes, LeastLawful, Consistent;
    LawfulIsLeast(p.View(), p.Stamping());
    resolved, errors := 0, 0;
    ghost var v, keys := p.View(), p.View().contents.Keys;
    var pending := p.pendingEdges;
    var remaining: seq<PendingEdge> := [];
    assert pending[0..] == pending;
    for index := 0 to |pending|
      invariant p.Valid() && p.View().contents.Keys == keys && p.pendingEdges == pending
      invariant p.lamportCounter == old(p.lamportCounter) && LeastLawful(p.View(), old(p.Stamping()), p.Stamping())
      invariant Run(p.View(), EdgeOps(pending[index..])) == Run(v, EdgeOps(pending))
      invariant remaining + StillMissing(keys, pending[index..]) == StillMissing(keys, pending)
      invariant resolved + errors + |remaining| == index
      invariant errors == 0 && TakesAll(p.View(), EdgeOps(pending[index..])) <==> TakesAll(v, EdgeOps(pending))
    {
      var (from, to) := pending[index];
      KeysFacts(p.Stored());
      StillMissingStep(keys, pending[index..]);
      assert pending[index..][1..] == pending[index + 1..];
      EdgeOpsStep(pending[index], pending[index + 1..]);
      assert pending[index..] == [pending[index]] + pending[index + 1..];
      RunCons(p.View(), PutEdge(from, to), EdgeOps(pending[index + 1..]));
      TakesBoth(p.View(), PutEdge(from, to), EdgeOps(pending[index + 1..]));
      AfterKeys(p.View(), PutEdge(from, to));
      PresentIs(p, from, to);
      if !PresentNow(p, from, to) {
        AbsentEdgeIdle(p.View(), (from, to));
        AbsentEdgeTaken(p.View(), (from, to));
        remaining := remaining + [(from, to)];
      } else {
        ghost var before, stamps := p.View(), p.Stamping();
        SoundConsistent(p.Stored());
        var r := TryEdge(p, from, to);
        RepairsCompose(before, PutEdge(from, to), old(p.Stamping()), stamps, p.Stamping());
        if r.Ok? {
          resolved := resolved + 1;
        } else {
          errors := errors + 1;
        }
      }
    }
    assert pending[|pending|..] == [];
    NothingLeft(keys);
    assert TakesAll(p.View(), []);
    RunNil(p.View());
    p.pendingEdges := remaining;
  }

  predicate PresentNow(p: Poset, from: EventID, to: EventID)
    reads p
  {
    from in p.events && to in p.events
  }

  lemma PresentIs(p: Poset, from: EventID, to: EventID)
    requires Sound(p.Stored())
    ensures PresentNow(p, from, to) <==> Present(p.View().contents.Keys, (from, to))
  {
    hide Sound;
  }

  lemma NothingLeft(keys: set<EventID>)
    ensures StillMissing(keys, []) == [] && EdgeOps([]) == [] && forall v :: TakesAll(v, [])
  {}

  lemma TakesBoth(v: View, op: Op, ops: seq<Op>)
    ensures TakesAll(v, [op] + ops) <==> Takes(v, op) && TakesAll(After(v, op), ops)
  {
    hide Takes, After;
    assert ([op] + ops)[1..] == ops;
  }

  lemma AbsentEdgeTaken(v: View, e: (EventID, EventID))
    requires !Present(v.contents.Keys, e)
    ensures Takes(v, PutEdge(e.0, e.1))
  {
    hide EdgeFits;
  }

  method TryEdge(p: Poset, from: EventID, to: EventID) returns (r: Outcome)
    requires p.Valid() && PresentNow(p, from, to)
    modifies p
    ensures p.Valid() && p.View() == After(old(p.View()), PutEdge(from, to))
    ensures r.Ok? <==> Takes(old(p.View()), PutEdge(from, to))
    ensures LeastLawful(p.View(), old(p.Stamping()), p.Stamping())
    ensures p.pendingEdges == old(p.pendingEdges) && p.lamportCounter == old(p.lamportCounter)
  {
    hide Sound, Lawful, ViewOf, EdgeFits, LeastLawful, Consistent, EdgeOutcome;
    SoundConsistent(p.Stored());
    KeysFacts(p.Stored());
    EdgeOutcomeIff(p.View(), from, to);
    r := p.AddCausal(from, to);
  }

  // ----- Merging in either order -----

  /** Every class names only occurrences the snapshot itself carries. */
  ghost predicate CarriesMembers(s: Snapshot) {
    forall c :: c in SortedClasses(s) ==> Members(c) <= Ids(AcceptedEvents(s.events, SortedEvents(s)))
  }

  lemma {:induction false} ClassesCarried(
      classes: seq<seq<EventID>>, own: set<EventID>, keys: set<EventID>, seen: set<EventID>, seenKeys: set<Text>)
    requires forall c :: c in classes ==> Members(c) <= own
    ensures AcceptedClasses(classes, keys + own, seen, seenKeys) == AcceptedClasses(classes, own, seen, seenKeys)
    decreases |classes|
  {
    if classes != [] {
      hide ClassKey;
      var c := classes[0];
      assert c in classes;
      assert forall i :: 0 <= i < |c| ==> c[i] in Members(c);
      assert ValidClass(c, keys + own, seen) <==> ValidClass(c, own, seen);
      ClassesCarried(classes[1..], own, keys, seen, seenKeys);
      ClassesCarried(classes[1..], own, keys, seen + Members(c), seenKeys + {ClassKey(c)});
      ClassesCarried(classes[1..], own, keys, seen, seenKeys + {ClassKey(c)});
    }
  }

  /** Such a snapshot states the same to every poset. */
  lemma StatesTheSame(s: Snapshot, keys: set<EventID>)
    requires CarriesMembers(s)
    ensures Described(s, keys) == Described(s, {})
  {
    hide SortedClasses, SortedEvents, SortedEdges, AcceptedClasses, AcceptedEdges, Ids, AcceptedEvents;
    var own := Ids(AcceptedEvents(s.events, SortedEvents(s)));
    ClassesCarried(SortedClasses(s), own, keys, {}, {});
    assert {} + own == own;
  }

  /** Observed in the primary role only. */
  ghost predicate Primary(c: Content) {
    c.observations == [Observation(c.source, c.name, c.params)]
  }

  lemma {:induction false} AcceptedPrimary(all: seq<EventExport>, events: seq<EventExport>)
    ensures forall id, c :: (id, c) in AcceptedEvents(all, events) ==> Primary(c)
    decreases |events|
  {
    if events != [] {
      hide AcceptableEvent;
      AcceptedPrimary(all, events[1..]);
    }
  }

  /** Snapshots of one computation state every occurrence alike: its other roles are not exported. */
  lemma ImportsAlike(u: View, s: Snapshot, t: Snapshot)
    requires Describes(u, Described(s, {})) && Describes(u, Described(t, {}))
    ensures StateAlike(Described(s, {}).events, Described(t, {}).events)
  {
    hide AcceptedClasses, AcceptedEdges, SortedEvents, SortedClasses, SortedEdges, AcceptedEvents, Canonical, Ids, EdgesVouched;
    var d, e := Described(s, {}), Described(t, {});
    AcceptedPrimary(s.events, SortedEvents(s));
    AcceptedPrimary(t.events, SortedEvents(t));
    forall id, c, k | (id, c) in d.events + e.events && (id, k) in d.events + e.events ensures c == k {
      DescribedOnce(u, d, e, id, c);
      DescribedOnce(u, d, e, id, k);
    }
  }

  lemma DescribedOnce(u: View, d: Description, e: Description, id: EventID, c: Content)
    requires Describes(u, d) && Describes(u, e) && (id, c) in d.events + e.events
    ensures id in u.contents && SameOccurrence(c, u.contents[id])
  {
    hide Canonical, Ids, EdgesVouched;
    if (id, c) in d.events {
      var i :| 0 <= i < |d.events| && d.events[i] == (id, c);
      assert Vouches(u, PutEvent(d.events[i].0, d.events[i].1));
    } else {
      var i :| 0 <= i < |e.events| && e.events[i] == (id, c);
      assert Vouches(u, PutEvent(e.events[i].0, e.events[i].1));
    }
  }

  /** Two equal replicas that merge two snapshots of one computation in opposite orders and
      then drain hold the same occurrences, classes, edges and waiting edges. */
  method MergeInBothOrders(p: Poset, q: Poset, s: Snapshot, t: Snapshot, ghost u: View, ghost raw: Raw)
    requires p != q && p.Valid() && q.Valid() && ReplicaState(p) == ReplicaState(q)
    requires Consistent(u) && ReplicaOf(ReplicaState(p), u, raw)
    requires CarriesMembers(s) && CarriesMembers(t)
    requires Describes(u, Described(s, {})) && Describes(u, Described(t, {}))
    modifies p, q
    ensures p.Valid() && q.Valid()
    ensures p.View() == q.View() && Members(p.pendingEdges) == Members(q.pendingEdges)
  {
    hide Sound, Lawful, ViewOf, Consistent, ReplicaOf, Describes, Described, MergeInto, Drain, CarriesMembers;
    ghost var r, d, e := ReplicaState(p), Described(s, {}), Described(t, {});
    ImportsAlike(u, s, t);
    StatesTheSame(s, p.View().contents.Keys);
    StatesTheSame(t, q.View().contents.Keys);
    var a := MergeSnapshot(p, s);
    StatesTheSame(t, p.View().contents.Keys);
    var b := MergeSnapshot(p, t);
    var resolvedP, errorsP := DrainPendingEdges(p);
    var c := MergeSnapshot(q, t);
    StatesTheSame(s, q.View().contents.Keys);
    var f := MergeSnapshot(q, s);
    var resolvedQ, errorsQ := DrainPendingEdges(q);
    MergesConverge(r, u, raw, d, e);
  }
}
