/** The event poset (poset.go, causal_equivalence.go, event_observation.go).

    The causal preorder is stored five times over: events, forward and reverse edges, the
    class of every event and the members of every class.  `Valid` says the five agree,
    denote a consistent `View` and carry lawful Lamport stamps.  Every operation's
    contract is stated on that view, on the stamping and on the remaining fields. */
module Posets {
  import opened Texts
  import opened Timings
  import opened Values
  import opened Reachability
  import opened CausalOrder
  import opened Stamps
  import opened Stores
  import opened Observations
  import opened Operations
  import opened EmptyIdentity

  class Poset {
    var events: map<EventID, Event>
    var causalEdges: map<EventID, set<EventID>>
    var reverseCausal: map<EventID, set<EventID>>
    var causalClass: map<EventID, EventID>
    var classMembers: map<EventID, seq<EventID>>
    var timedEvents: nat
    var lamportCounter: nat
    var pendingEdges: seq<PendingEdge>

    ghost function Stored(): Store
      reads this
    {
      Store(events, causalEdges, reverseCausal, causalClass, classMembers, timedEvents)
    }

    ghost function View(): View
      reads this
    {
      ViewOf(Stored())
    }

    ghost function Stamping(): Stamping
      reads this
    {
      Lamports(events)
    }

    ghost predicate Valid()
      reads this
    {
      Sound(Stored()) && Lawful(View(), Stamping())
    }

    constructor ()
      ensures Valid() && View() == Empty && lamportCounter == 0 && pendingEdges == []
    {
      events := map[];
      causalEdges := map[];
      reverseCausal := map[];
      causalClass := map[];
      classMembers := map[];
      timedEvents := 0;
      lamportCounter := 0;
      pendingEdges := [];
    }

    // ----- Class index -----

    function Representative(id: EventID): EventID
      reads this
    {
      Read(causalClass, id)
    }

    /** causalClassSuccessorsLocked and its mirror, whatever the state of the index. */
    method ReadNeighbours(edges: map<EventID, set<EventID>>, representative: EventID) returns (r: seq<EventID>)
      requires representative in classMembers && forall m :: m in classMembers[representative] ==> m in edges
      ensures StrictlySorted(r)
      ensures forall x :: x in r <==> IsReadNeighbour(edges, causalClass, classMembers[representative], representative, x)
    {
      var seen: set<EventID> := {};
      var members := classMembers[representative];
      for index := 0 to |members|
        invariant forall x :: x in seen <==> exists k :: 0 <= k < index && LeadsOut(edges, causalClass, members[k], representative, x)
      {
        seen := seen + set to | to in edges[members[index]] && Representative(to) != representative :: Representative(to);
      }
      r := Sort(seen);
      assert forall x :: x in r <==> x in Members(r);
    }

    method Successors(representative: EventID) returns (r: seq<EventID>)
      requires Sound(Stored()) && representative in classMembers
      ensures StrictlySorted(r)
      ensures forall b :: b in r <==> (representative, b) in View().edges
    {
      hide Sound, IsReadNeighbour;
      MemberFacts(Stored(), representative);
      r := ReadNeighbours(causalEdges, representative);
      forall b ensures IsReadNeighbour(causalEdges, causalClass, classMembers[representative], representative, b)
                       <==> (representative, b) in View().edges {
        ReadSuccessorIff(Stored(), representative, b);
      }
    }

    method Predecessors(representative: EventID) returns (r: seq<EventID>)
      requires Sound(Stored()) && representative in classMembers
      ensures StrictlySorted(r)
      ensures forall a :: a in r <==> (a, representative) in View().edges
    {
      hide Sound, IsReadNeighbour;
      MemberFacts(Stored(), representative);
      r := ReadNeighbours(reverseCausal, representative);
      forall a ensures IsReadNeighbour(reverseCausal, causalClass, classMembers[representative], representative, a)
                       <==> (a, representative) in View().edges {
        ReadPredecessorIff(Stored(), representative, a);
      }
    }

    // ----- Reachability queries -----

    method CanReachClass(start: EventID, target: EventID) returns (reachable: bool)
      requires Sound(Stored()) && start in events && target in events
      ensures reachable <==> Before(View(), start, target)
    {
      hide Sound;
      ghost var v := View();
      var from, goal := Representative(start), Representative(target);
      ClassFacts(Stored(), start);
      ClassFacts(Stored(), target);
      if from == goal {
        return false;
      }
      var visited: set<EventID> := {};
      var queue := [from];
      while queue != []
        invariant visited <= classMembers.Keys && goal !in visited
        invariant forall x :: x in queue ==> x in classMembers && x != goal && Reach(v.edges, from, x)
        invariant from in visited || from in queue
        invariant forall x, y :: x in visited && (x, y) in v.edges ==> y in visited || y in queue
        decreases classMembers.Keys - visited, |queue|
      {
        var current := queue[0];
        queue := queue[1..];
        if current in visited {
          continue;
        }
        visited := visited + {current};
        var successors := Successors(current);
        for index := 0 to |successors|
          invariant forall x :: x in queue ==> x in classMembers && x != goal && Reach(v.edges, from, x)
          invariant from in visited || from in queue
          invariant forall i :: 0 <= i < index ==> successors[i] in visited || successors[i] in queue
          invariant forall x, y :: x in visited && x != current && (x, y) in v.edges ==> y in visited || y in queue
        {
          assert (current, successors[index]) in v.edges;
          EdgeHeads(Stored(), current, successors[index]);
          ReachStep(v.edges, from, current, successors[index]);
          if successors[index] == goal {
            return true;
          }
          if successors[index] !in visited {
            queue := queue + [successors[index]];
          }
        }
      }
      if Reach(v.edges, from, goal) {
        ReachWithin(v.edges, from, goal, iset x | x in visited);
      }
      return false;
    }

    /** reachableCausalClassesLocked, forward or backward. */
    method ReachableClasses(start: EventID, forward: bool) returns (r: set<EventID>)
      requires Sound(Stored()) && start in events
      ensures r <= classMembers.Keys
      ensures forall x :: x in r <==>
                if forward then Reach(View().edges, Rep(View(), start), x) else Reach(View().edges, x, Rep(View(), start))
    {
      hide Sound;
      ghost var edges := if forward then View().edges else Reversed(View().edges);
      var from := Representative(start);
      ClassFacts(Stored(), start);
      r := {from};
      var queue := [from];
      while queue != []
        invariant r <= classMembers.Keys && from in r
        invariant forall x :: x in queue ==> x in r
        invariant forall x :: x in r ==> Reach(edges, from, x)
        invariant forall x, y :: x in r && x !in queue && (x, y) in edges ==> y in r
        decreases classMembers.Keys - r, |queue|
      {
        var current := queue[0];
        queue := queue[1..];
        var neighbours;
        if forward {
          neighbours := Successors(current);
        } else {
          neighbours := Predecessors(current);
        }
        assert forall y :: y in neighbours <==> (current, y) in edges;
        ghost var before, rest := r, queue;
        for index := 0 to |neighbours|
          invariant r <= classMembers.Keys && from in r && current in r
          invariant forall x :: x in queue ==> x in r
          invariant forall x :: x in r ==> Reach(edges, from, x)
          invariant forall i :: 0 <= i < index ==> neighbours[i] in r
          invariant forall x, y :: x in r && x != current && x !in queue && (x, y) in edges ==> y in r
          invariant before <= r && (r == before ==> queue == rest)
        {
          var neighbour := neighbours[index];
          assert (current, neighbour) in edges;
          if forward {
            EdgeHeads(Stored(), current, neighbour);
          } else {
            EdgeHeads(Stored(), neighbour, current);
          }
          ReachStep(edges, from, current, neighbour);
          if neighbour !in r {
            r := r + {neighbour};
            queue := queue + [neighbour];
          }
        }
      }
      forall x ensures x in r <==> Reach(edges, from, x) {
        if Reach(edges, from, x) {
          ReachWithin(edges, from, x, iset y | y in r);
        }
      }
      forall x | !forward ensures Reach(edges, from, x) <==> Reach(View().edges, x, from) {
        ReachReversed(View().edges, from, x);
      }
    }

    method EventIDs(classes: set<EventID>) returns (r: seq<EventID>)
      requires Sound(Stored())
      ensures StrictlySorted(r)
      ensures forall x :: x in r <==> x in events && Rep(View(), x) in classes
    {
      hide Sound;
      SoundReads(Stored());
      var found := set id | id in events && Representative(id) in classes;
      r := Sort(found);
      assert forall x :: x in r <==> x in Members(r);
    }

    method CausalPredecessorIDs(id: EventID) returns (r: seq<EventID>)
      requires Sound(Stored()) && id in events
      ensures forall x :: x in r <==> Leq(View(), x, id)
    {
      hide Sound;
      var classes := ReachableClasses(id, false);
      r := EventIDs(classes);
    }

    method CausalSuccessorIDs(id: EventID) returns (r: seq<EventID>)
      requires Sound(Stored()) && id in events
      ensures forall x :: x in r <==> Leq(View(), id, x)
    {
      hide Sound;
      var classes := ReachableClasses(id, true);
      r := EventIDs(classes);
    }

    /** Some left event clashes with some right event. */
    method CrossConflict(left: seq<EventID>, right: seq<EventID>) returns (conflict: bool)
      requires Sound(Stored())
      requires forall x :: x in left || x in right ==> x in events
      ensures conflict <==> exists a, b :: a in left && b in right && Clashing(View(), a, b)
    {
      hide Sound, Conflict;
      StoredTimings(Stored());
      for i := 0 to |left|
        invariant forall k, b :: 0 <= k < i && b in right ==> !Clashing(View(), left[k], b)
      {
        for j := 0 to |right|
          invariant forall k :: 0 <= k < j ==> !Clashing(View(), left[i], right[k])
        {
          conflict := SharedTimingConflict(events[left[i]].content.timings, events[right[j]].content.timings);
          if conflict {
            assert Clashing(View(), left[i], right[j]);
            return;
          }
        }
      }
      return false;
    }

    /** validateTimingClosureLocked, with its fast path when no event is timed. */
    method TimingClosureConflict(from: EventID, to: EventID) returns (conflict: bool)
      requires Sound(Stored()) && from in events && to in events
      ensures conflict <==> exists a, b :: Bridged(View(), from, to, a, b) && Clashing(View(), a, b)
    {
      hide Sound, Clashing;
      if timedEvents == 0 {
        NothingTimed(Stored());
        return false;
      }
      var left := CausalPredecessorIDs(from);
      var right := CausalSuccessorIDs(to);
      conflict := CrossConflict(left, right);
      assert forall a, b :: Bridged(View(), from, to, a, b) <==> a in left && b in right;
    }

    // ----- Lamport stamps -----

    method MaximumClassLamport(representative: EventID) returns (maximum: nat)
      requires Sound(Stored()) && representative in classMembers
      requires Uniform(View(), Stamping())
      ensures maximum == Stamping()[representative]
    {
      hide Sound;
      maximum := 0;
      var members := classMembers[representative];
      MemberFacts(Stored(), representative);
      ClassFacts(Stored(), representative);
      for index := 0 to |members|
        invariant maximum == if index == 0 then 0 else Stamping()[representative]
      {
        assert members[index] in members;
        if events[members[index]].lamport > maximum {
          maximum := events[members[index]].lamport;
        }
      }
    }

    method SetClassLamport(representative: EventID, value: nat)
      requires Sound(Stored()) && representative in classMembers
      modifies this`events
      ensures Sound(Stored()) && View() == old(View())
      ensures Stamping() == Raised(old(View()), old(Stamping()), representative, value)
    {
      hide Sound, Contents, EdgeSet;
      ghost var s := Stored();
      MemberFacts(s, representative);
      ghost var target := Raised(View(), Stamping(), representative, value);
      Restamp(classMembers[representative], value);
      assert events == Restamped(s.events, target);
      RestampKeeps(s, target);
    }

    /** The listed events take one stamp. */
    method Restamp(members: seq<EventID>, value: nat)
      requires forall m :: m in members ==> m in events
      modifies this`events
      ensures events.Keys == old(events.Keys)
      ensures forall id :: id in events ==>
                events[id] == if id in members then old(events[id]).(lamport := value) else old(events[id])
    {
      for index := 0 to |members|
        invariant events.Keys == old(events.Keys)
        invariant forall id :: id in events ==>
                    events[id] == if id in members[..index] then old(events[id]).(lamport := value) else old(events[id])
      {
        assert members[index] in members;
        events := events[members[index] := events[members[index]].(lamport := value)];
      }
      assert members[..|members|] == members;
    }

    /** One visit of the repair: a successor not yet above `current` is raised and queued. */
    method RaiseSuccessor(
        current: EventID, successor: EventID, queue: seq<EventID>, queued: set<EventID>,
        ghost v: View, ghost start: Stamping)
      returns (queue': seq<EventID>, queued': set<EventID>)
      requires Sound(Stored()) && View() == v && (current, successor) in v.edges && current in events
      requires QueueOf(queue, queued) && queued <= classMembers.Keys
      requires Repairing(v, start, Stamping(), queued + {current})
      modifies this`events
      ensures Sound(Stored()) && View() == v && events.Keys == old(events.Keys)
      ensures QueueOf(queue', queued') && queued' <= classMembers.Keys
      ensures Repairing(v, start, Stamping(), queued' + {current})
      ensures AtLeast(Stamping(), old(Stamping()))
      ensures Stamping()[current] == old(Stamping()[current])
      ensures successor in events && Stamping()[current] < Stamping()[successor]
      ensures Total(Stamping()) >= old(Total(Stamping()))
      ensures Total(Stamping()) == old(Total(Stamping())) ==> queue' == queue
    {
      hide Sound, Shaped, Headed, EdgesJoinHeads, Acyclic, ViewOf, Repairing, Uniform, QueueOf, Total, Raised, Reach;
      queue', queued' := queue, queued;
      EdgeHeads(Stored(), current, successor);
      KeysFacts(Stored());
      SoundView(Stored());
      RepairFacts(v, start, Stamping(), queued + {current});
      var currentLamport := MaximumClassLamport(current);
      var successorLamport := MaximumClassLamport(successor);
      if currentLamport + 1 > successorLamport {
        RaiseStep(v, start, Stamping(), queued + {current}, current, successor);
        SetClassLamport(successor, currentLamport + 1);
        KeysFacts(Stored());
        if successor !in queued {
          QueuePush(queue, queued, successor);
          queue' := queue + [successor];
          queued' := queued + {successor};
        }
        assert queued + {current} + {successor} == queued' + {current};
      }
    }

    /** The inner loop: every successor of `current` ends above it, so it no longer waits. */
    method RaiseSuccessors(
        current: EventID, queue: seq<EventID>, queued: set<EventID>, ghost v: View, ghost start: Stamping)
      returns (queue': seq<EventID>, queued': set<EventID>)
      requires Sound(Stored()) && View() == v && current in classMembers
      requires QueueOf(queue, queued) && queued <= classMembers.Keys
      requires Repairing(v, start, Stamping(), queued + {current})
      modifies this`events
      ensures Sound(Stored()) && View() == v && events.Keys == old(events.Keys)
      ensures QueueOf(queue', queued') && queued' <= classMembers.Keys
      ensures Repairing(v, start, Stamping(), queued')
      ensures Total(Stamping()) >= old(Total(Stamping()))
      ensures Total(Stamping()) == old(Total(Stamping())) ==> queue' == queue
    {
      hide Sound, ViewOf, Repairing, Uniform, QueueOf, Total, StrictlySorted, AtLeast, BelowAll;
      queue', queued' := queue, queued;
      KeysFacts(Stored());
      var successors := Successors(current);
      BelowNone(Stamping(), current);
      for index := 0 to |successors|
        invariant Sound(Stored()) && View() == v && events.Keys == old(events.Keys)
        invariant QueueOf(queue', queued') && queued' <= classMembers.Keys
        invariant Repairing(v, start, Stamping(), queued' + {current})
        invariant old(Total(Stamping())) <= Total(Stamping())
        invariant old(Total(Stamping())) == Total(Stamping()) ==> queue' == queue
        invariant BelowAll(Stamping(), current, successors[..index])
      {
        ghost var was := Stamping();
        queue', queued' := RaiseSuccessor(current, successors[index], queue', queued', v, start);
        BelowAllGrows(was, Stamping(), current, successors[..index], successors[index]);
        TakeOneMore(successors, index);
      }
      TakeAll(successors);
      StopWaiting(v, start, Stamping(), queued', current, successors);
    }

    /** Breadth-first repair of the stamps downstream of one class.  Whatever the order of
        the queue, the result is the pointwise least lawful stamping above the start. */
    method PropagateLamport(id: EventID)
      requires Sound(Stored()) && id in events
      requires LawfulBut(View(), Stamping(), {Rep(View(), id)})
      modifies this`events
      ensures Sound(Stored()) && View() == old(View())
      ensures LeastLawful(View(), old(Stamping()), Stamping())
      ensures forall g :: LeastLawful(View(), old(Stamping()), g) ==> g == Stamping()
    {
      hide Sound, Shaped, Acyclic, ViewOf, LeastLawful, Repairing, Uniform, IncreasingBut, QueueOf, Total;
      ghost var v, start := View(), Stamping();
      SoundView(Stored());
      ClassFacts(Stored(), id);
      ghost var bound := LawfulExists(v, start);
      var first := Representative(id);
      QueueOfOne(first);
      var queue := [first];
      var queued := {first};
      RepairStarts(v, start, queued);
      while queue != []
        invariant Sound(Stored()) && View() == v
        invariant QueueOf(queue, queued) && queued <= classMembers.Keys
        invariant Repairing(v, start, Stamping(), queued)
        decreases Total(bound) - Total(Stamping()), |queue|
      {
        RepairBounded(v, start, Stamping(), queued, bound);
        QueuePop(queue, queued);
        var current := queue[0];
        queue, queued := RaiseSuccessors(current, queue[1..], queued - {current}, v, start);
      }
      QueueEmpty(queued);
      RepairDone(v, start, Stamping());
      forall g | LeastLawful(v, start, g) ensures g == Stamping() {
        LeastLawfulUnique(v, start, g, Stamping());
      }
    }

    /** One class set to a value every lawful stamping above `low` must reach, then repaired. */
    method RaiseAndPropagate(head: EventID, value: nat, ghost low: Stamping)
      requires Sound(Stored()) && head in classMembers
      requires LawfulBut(View(), Raised(View(), Stamping(), head, value), {head})
      requires Forced(View(), low, Raised(View(), Stamping(), head, value))
      modifies this`events
      ensures Valid() && View() == old(View())
      ensures LeastLawful(View(), low, Stamping())
    {
      hide Sound, Consistent, ViewOf, Lawful, Lamports, LeastLawful, Forced, LawfulBut, Raised;
      KeysFacts(Stored());
      HeadFacts(Stored(), head);
      SetClassLamport(head, value);
      KeysFacts(Stored());
      ghost var raised := Stamping();
      PropagateLamport(head);
      LeastThrough(View(), low, raised, Stamping());
      LeastIsLawful(View(), low, Stamping());
    }

    // ----- Adding events -----

    method StoreNewEvent(id: EventID, e: Event)
      requires Valid() && id !in events && e.immutable && Canonical(e.content.timings)
      modifies this`events, this`causalEdges, this`reverseCausal, this`causalClass, this`classMembers, this`timedEvents
      ensures Valid() && View() == WithEvent(old(View()), id, e.content)
      ensures Stamping() == old(Stamping())[id := e.lamport]
    {
      hide Sound, Lawful, ViewOf, Lamports, WithEvent;
      StoredEventLamports(events, id, e);
      StoredEventKeeps(Stored(), id, e);
      SoundView(Stored());
      EventStays(View(), id, e.content, Stamping(), e.lamport);
      if e.content.timings != [] {
        timedEvents := timedEvents + 1;
      }
      events := events[id := e];
      causalEdges := causalEdges[id := {}];
      reverseCausal := reverseCausal[id := {}];
      causalClass := causalClass[id := id];
      classMembers := classMembers[id := [id]];
      assert Stored() == StoredEvent(old(Stored()), id, e);
    }

    /** AddEvent: an event that recorded causes may not be added without them. */
    method AddEvent(e: Offer) returns (r: Outcome)
      requires Valid()
      modifies this
      ensures Valid() && pendingEdges == old(pendingEdges)
      ensures r == if e.expectedCauses != [] then Fail(CauseMismatch)
                   else if e.id in old(View()).contents then Fail(EventExists)
                   else if !Admissible(e.content.timings) then Fail(InvalidTiming) else Ok
      ensures r.Ok? ==>
                && View() == WithEvent(old(View()), e.id, Canonized(e.content))
                && lamportCounter == old(lamportCounter) + 1
                && Stamping() == old(Stamping())[e.id := lamportCounter]
      ensures r.Fail? ==> unchanged(this)
    {
      if |e.expectedCauses| > 0 {
        return Fail(CauseMismatch);
      }
      r := AddEventLocked(e.id, e.content);
    }

    /** addEventLocked: a fresh identity with admissible timings enters unrelated to everything,
        one stamp above the counter. */
    method AddEventLocked(id: EventID, content: Content) returns (r: Outcome)
      requires Valid()
      modifies this
      ensures Valid() && pendingEdges == old(pendingEdges)
      ensures r == if id in old(View()).contents then Fail(EventExists)
                   else if !Admissible(content.timings) then Fail(InvalidTiming) else Ok
      ensures r.Ok? ==>
                && View() == WithEvent(old(View()), id, Canonized(content))
                && lamportCounter == old(lamportCounter) + 1
                && Stamping() == old(Stamping())[id := lamportCounter]
      ensures r.Fail? ==> unchanged(this)
    {
      hide Sound, Lawful, ViewOf;
      KeysFacts(Stored());
      if id in events {
        return Fail(EventExists);
      }
      var timings := CanonicalizeEventTimings(content.timings);
      if timings.None? {
        return Fail(InvalidTiming);
      }
      lamportCounter := lamportCounter + 1;
      StoreNewEvent(id, Event(content.(timings := timings.value), lamportCounter, true));
      return Ok;
    }

    /** mergeEventLocked: like AddEvent, but the event keeps the stamp it came with. */
    method MergeEvent(id: EventID, content: Content, lamport: nat) returns (r: Outcome)
      requires Valid()
      modifies this
      ensures Valid() && pendingEdges == old(pendingEdges)
      ensures r == if id in old(View()).contents then Fail(EventExists)
                   else if !Admissible(content.timings) then Fail(InvalidTiming) else Ok
      ensures r.Ok? ==>
                && View() == WithEvent(old(View()), id, Canonized(content))
                && Stamping() == old(Stamping())[id := lamport]
                && lamportCounter == if lamport > old(lamportCounter) then lamport else old(lamportCounter)
      ensures r.Fail? ==> unchanged(this)
    {
      hide Sound, Lawful, ViewOf;
      KeysFacts(Stored());
      if id in events {
        return Fail(EventExists);
      }
      var timings := CanonicalizeEventTimings(content.timings);
      if timings.None? {
        return Fail(InvalidTiming);
      }
      StoreNewEvent(id, Event(content.(timings := timings.value), lamport, true));
      if lamport > lamportCounter {
        lamportCounter := lamport;
      }
      return Ok;
    }

    // ----- Adding edges -----

    /** addCausalLocked: accepts exactly the edges that keep the preorder consistent,
        bridges exactly what lies up to `from` and from `to` on, and leaves the least
        lawful stamping above the old one; otherwise nothing changes. */
    method AddCausal(from: EventID, to: EventID) returns (r: Outcome)
      requires Valid()
      modifies this`events, this`causalEdges, this`reverseCausal
      ensures Valid()
      ensures r == EdgeOutcome(old(View()), from, to)
      ensures View() == AfterEdge(old(View()), from, to)
      ensures LeastLawful(View(), old(Stamping()), Stamping())
      ensures View() == old(View()) ==> unchanged(this)
    {
      hide Sound, Lawful, LeastLawful, ViewOf, Consistent, WithEdge, Bridged, Clashing, Reach;
      ghost var v := View();
      SoundConsistent(Stored());
      SoundView(Stored());
      LawfulIsLeast(v, Stamping());
      KeysFacts(Stored());
      if from == to {
        return Fail(SelfCausal);
      }
      if from !in events || to !in events {
        return Fail(EventNotFound);
      }
      var fromHead, toHead := Representative(from), Representative(to);
      ClassFacts(Stored(), from);
      ClassFacts(Stored(), to);
      HeadsStand(v, from, to);
      if fromHead == toHead {
        return Fail(SelfCausal);
      }
      EdgeConsistentIff(v, from, to);
      EdgeStored(Stored(), fromHead, toHead);
      if toHead in causalEdges[fromHead] {
        EdgeOrders(v, from, to);
        return Ok;
      }
      var cyclic := CanReachClass(toHead, fromHead);
      if cyclic {
        return Fail(CyclicCausal);
      }
      var conflict := TimingClosureConflict(fromHead, toHead);
      if conflict {
        return Fail(TimingCausality);
      }
      StoreEdge(fromHead, toHead);
      return Ok;
    }

    method StoreEdge(fromHead: EventID, toHead: EventID)
      requires Valid() && fromHead in classMembers && toHead in classMembers && fromHead != toHead
      requires (fromHead, toHead) !in View().edges
      requires Consistent(WithEdge(View(), fromHead, toHead))
      modifies this`events, this`causalEdges, this`reverseCausal
      ensures Valid()
      ensures View() == WithEdge(old(View()), fromHead, toHead) && View() != old(View())
      ensures LeastLawful(View(), old(Stamping()), Stamping())
    {
      hide Sound, Consistent, Acyclic, Shaped, ViewOf, WithEdge, LeastLawful, Forced, LawfulBut, IncreasingBut, Uniform, Raised, Headed, EdgesJoinHeads;
      ghost var v, start := View(), Stamping();
      KeysFacts(Stored());
      SoundView(Stored());
      HeadFacts(Stored(), fromHead);
      HeadFacts(Stored(), toHead);
      WithEdgeUniform(v, start, fromHead, toHead);
      StoredEdgeKeeps(Stored(), fromHead, toHead);
      causalEdges := causalEdges[fromHead := causalEdges[fromHead] + {toHead}];
      reverseCausal := reverseCausal[toHead := reverseCausal[toHead] + {fromHead}];
      assert Stored() == StoredEdge(old(Stored()), fromHead, toHead);
      var fromLamport := MaximumClassLamport(fromHead);
      var toLamport := MaximumClassLamport(toHead);
      if fromLamport + 1 > toLamport {
        EdgeRaise(v, start, fromHead, toHead);
        RaiseAndPropagate(toHead, fromLamport + 1, start);
      } else {
        EdgeAlreadyAbove(v, start, fromHead, toHead);
      }
    }

    // ----- Merging classes -----

    /** Some pair of the listed classes is strictly ordered. */
    method AnyOrdered(ordered: seq<EventID>) returns (found: bool)
      requires Sound(Stored()) && forall h :: h in ordered ==> h in classMembers
      ensures found <==> !Unordered(View().edges, Members(ordered))
    {
      hide Sound, ViewOf, Reach;
      ghost var v := View();
      KeysFacts(Stored());
      for i := 0 to |ordered|
        invariant forall k, l :: 0 <= k < i && 0 <= l < |ordered| && ordered[k] != ordered[l] ==>
                    !Reach(v.edges, ordered[k], ordered[l]) && !Reach(v.edges, ordered[l], ordered[k])
      {
        HeadFacts(Stored(), ordered[i]);
        for j := i + 1 to |ordered|
          invariant forall l :: i < l < j && ordered[i] != ordered[l] ==>
                      !Reach(v.edges, ordered[i], ordered[l]) && !Reach(v.edges, ordered[l], ordered[i])
        {
          HeadFacts(Stored(), ordered[j]);
          found := CanReachClass(ordered[i], ordered[j]);
          if found {
            return;
          }
          found := CanReachClass(ordered[j], ordered[i]);
          if found {
            return;
          }
        }
      }
      return false;
    }

    /** Heads outside the participating classes that lead into them, and that they lead to. */
    method GatherAround(participating: set<EventID>) returns (before: set<EventID>, after: set<EventID>)
      requires Sound(Stored()) && AreHeads(View(), participating)
      ensures forall x :: x in before <==>
                x in classMembers && x !in participating && LeadsInto(View().edges, participating, x)
      ensures forall x :: x in after <==>
                x in classMembers && x !in participating && LedFrom(View().edges, participating, x)
    {
      hide Sound, ViewOf, Reach, LeadsInto, LedFrom;
      ghost var edges := View().edges;
      KeysFacts(Stored());
      before, after := {}, {};
      var rest := participating;
      NoHeads(edges);
      assert participating - rest == {};
      while rest != {}
        invariant rest <= participating
        invariant forall x :: x in before <==>
                    x in classMembers && x !in participating && LeadsInto(edges, participating - rest, x)
        invariant forall x :: x in after <==>
                    x in classMembers && x !in participating && LedFrom(edges, participating - rest, x)
        decreases rest
      {
        var head :| head in rest;
        var behind := ReachableClasses(head, false);
        var ahead := ReachableClasses(head, true);
        before := before + (behind - participating);
        after := after + (ahead - participating);
        forall x ensures LeadsInto(edges, participating - (rest - {head}), x) <==>
                         LeadsInto(edges, participating - rest, x) || Reach(edges, x, head)
                 ensures LedFrom(edges, participating - (rest - {head}), x) <==>
                         LedFrom(edges, participating - rest, x) || Reach(edges, head, x)
        {
          assert participating - (rest - {head}) == (participating - rest) + {head};
          OneMoreHead(edges, participating - rest, head, x);
        }
        rest := rest - {head};
      }
      assert participating - rest == participating;
    }

    /** validateCausalEquivalenceTimingLocked. */
    method ClassTimingConflict(participating: set<EventID>) returns (conflict: bool)
      requires Sound(Stored()) && AreHeads(View(), participating)
      ensures conflict <==> exists a, b :: Scanned(View(), participating, a, b) && Clashing(View(), a, b)
    {
      hide Sound, ViewOf, Reach, Clashing, LeadsInto, LedFrom;
      var before, after := GatherAround(participating);
      var predecessors := EventIDs(before);
      var merged := EventIDs(participating);
      var successors := EventIDs(after);
      KeysFacts(Stored());
      forall x | x in events
        ensures x in predecessors <==> Ahead(View(), participating, x)
        ensures x in successors <==> Behind(View(), participating, x)
      {
        ClassFacts(Stored(), x);
      }
      conflict := CrossConflict(predecessors, merged);
      if conflict {
        return;
      }
      conflict := CrossConflict(predecessors, successors);
      if conflict {
        return;
      }
      conflict := CrossConflict(merged, successors);
    }

    method RepresentativesOf(ids: seq<EventID>) returns (known: bool, representatives: set<EventID>)
      requires Sound(Stored())
      ensures known <==> Members(ids) <= events.Keys
      ensures known ==> representatives == Heads(View(), Members(ids))
    {
      hide Sound, ViewOf, Heads;
      ghost var v := View();
      representatives := {};
      NoneHeaded(v);
      assert Members(ids[..0]) == {};
      for index := 0 to |ids|
        invariant representatives == Heads(v, Members(ids[..index]))
        invariant Members(ids[..index]) <= events.Keys
      {
        TakeOneMore(ids, index);
        if ids[index] !in events {
          return false, {};
        }
        ClassFacts(Stored(), ids[index]);
        HeadsGrow(v, Members(ids[..index]), ids[index]);
        representatives := representatives + {Representative(ids[index])};
      }
      TakeAll(ids);
      return true, representatives;
    }

    method MaximumLamport(members: seq<EventID>) returns (maximum: nat)
      requires forall id :: id in members ==> id in events
      ensures IsMaximumOver(members, Stamping(), maximum)
    {
      maximum := 0;
      for index := 0 to |members|
        invariant forall i :: 0 <= i < index ==> Stamping()[members[i]] <= maximum
        invariant maximum == 0 || exists i :: 0 <= i < index && Stamping()[members[i]] == maximum
      {
        if events[members[index]].lamport > maximum {
          maximum := events[members[index]].lamport;
        }
      }
    }

    lemma FirstIsLeast(ordered: seq<EventID>, heads: set<EventID>)
      requires StrictlySorted(ordered) && |ordered| > 1 && Members(ordered) == heads
      ensures heads != {} && ordered[0] in heads && ordered[1] in heads && ordered[0] == LeastHead(heads)
      ensures [] in heads <==> ordered[0] == []
    {
      HeadIsLeast(ordered);
      LeastUnique(ordered[0], LeastHead(heads), heads);
      if [] in heads {
        EmptyIsLeast(heads);
      }
    }

    lemma SingletonEmpty(ordered: seq<EventID>)
      requires |ordered| == 1
      ensures [] in Members(ordered) ==> Members(ordered) == {[]}
    {
      SingletonMembers(ordered);
    }

    lemma TwoHeads(ordered: seq<EventID>, heads: set<EventID>)
      requires StrictlySorted(ordered) && Members(ordered) == heads && heads != {}
      ensures |ordered| >= 1 && (|ordered| > 1 ==> heads != {[]})
    {
      if |ordered| > 1 {
        SortedDistinct(ordered, 0, 1);
        assert ordered[0] in heads && ordered[1] in heads;
      }
    }

    lemma HeadsStored(heads: set<EventID>)
      requires Sound(Stored()) && AreHeads(View(), heads)
      ensures heads <= classMembers.Keys
    {
      hide Sound, ViewOf;
      KeysFacts(Stored());
      forall h | h in heads ensures h in classMembers {
        HeadFacts(Stored(), h);
      }
    }

    /** addCausalEquivalenceClassLocked: merges exactly the classes that keep the preorder
        consistent and loses no ordered pair; otherwise nothing changes.  The invariant is
        kept exactly when the merger does not join the empty identity with another class. */
    method AddCausalEquivalenceClass(ids: seq<EventID>) returns (r: Outcome)
      requires Valid()
      modifies this`events, this`causalEdges, this`reverseCausal, this`causalClass, this`classMembers
      ensures r == ClassOutcome(old(View()), Members(ids))
      ensures Valid() <==> !JoinsEmpty(old(View()), Members(ids))
      ensures Valid() ==>
                && View() == AfterClass(old(View()), Members(ids))
                && LeastLawful(View(), old(Stamping()), Stamping())
                && (View() == old(View()) ==> unchanged(this))
      ensures !Valid() ==> Torn(old(Stored()), Stored(), Heads(old(View()), Members(ids)))
    {
      hide Sound, Lawful, LeastLawful, ViewOf, Consistent, WithClass, Unordered, Torn, Readable, ClassOutcome, Heads;
      ghost var v, s := View(), Stored();
      SoundConsistent(s);
      SoundView(s);
      LawfulIsLeast(v, Stamping());
      var ordered;
      r, ordered := CheckClass(ids);
      ClassOutcomeIff(v, Members(ids));
      if r.Fail? {
        return;
      }
      var representatives := Members(ordered);
      EmptyHeads(v, Members(ids));
      TwoHeads(ordered, representatives);
      if |ordered| == 1 {
        SingletonMembers(ordered);
        SingleClass(v, ordered[0]);
        SingletonEmpty(ordered);
        return;
      }
      MergeClasses(representatives, ordered);
      if [] in representatives {
        TornUnreadable(s, Stored(), representatives);
      }
    }

    /** Its checks, in order; on success the participating classes by representative. */
    method CheckClass(ids: seq<EventID>) returns (r: Outcome, ordered: seq<EventID>)
      requires Valid()
      ensures r == ClassOutcome(View(), Members(ids))
      ensures r.Ok? ==>
                && StrictlySorted(ordered) && Members(ordered) == Heads(View(), Members(ids))
                && AreHeads(View(), Members(ordered)) && Unordered(View().edges, Members(ordered))
    {
      hide Sound, Lawful, ViewOf, Consistent, WithClass, Unordered, Scanned, Clashing;
      ghost var v := View();
      ordered := [];
      SoundConsistent(Stored());
      SoundView(Stored());
      KeysFacts(Stored());
      MembersEmpty(ids);
      if ids == [] {
        return Fail(EventNotFound), ordered;
      }
      var known, representatives := RepresentativesOf(ids);
      if !known {
        return Fail(EventNotFound), ordered;
      }
      HeadsAreHeads(v, Members(ids));
      ordered := Sort(representatives);
      HeadsStored(representatives);
      var conflict := AnyOrdered(ordered);
      if conflict {
        return Fail(EquivalenceConflict), ordered;
      }
      if |ordered| == 1 {
        SingletonMembers(ordered);
        SingleClass(v, ordered[0]);
        return Ok, ordered;
      }
      conflict := ClassTimingConflict(representatives);
      ClassTimingIff(v, representatives);
      ClassConsistentIff(v, representatives);
      return if conflict then Fail(TimingCausality) else Ok, ordered;
    }

    /** The mutating half of the class merge.  The empty identity, when it takes part, is the
        least head, and the index left behind cannot be read back. */
    method MergeClasses(representatives: set<EventID>, ordered: seq<EventID>)
      requires Valid() && AreHeads(View(), representatives) && Unordered(View().edges, representatives)
      requires StrictlySorted(ordered) && Members(ordered) == representatives && |ordered| > 1
      requires Consistent(WithClass(View(), representatives))
      modifies this`events, this`causalEdges, this`reverseCausal, this`causalClass, this`classMembers
      ensures [] !in representatives ==>
                && Valid() && View() == WithClass(old(View()), representatives) && View() != old(View())
                && LeastLawful(View(), old(Stamping()), Stamping())
      ensures [] in representatives ==> Torn(old(Stored()), Stored(), representatives)
    {
      hide Sound, ViewOf, Consistent, WithClass, LeastLawful, Lawful, Unordered, Torn;
      ghost var v := View();
      KeysFacts(Stored());
      SoundView(Stored());
      SortedDistinct(ordered, 0, 1);
      FirstIsLeast(ordered, representatives);
      var representative := ordered[0];
      var members := EventIDs(representatives);
      var maximumLamport := MaximumLamport(members);
      ClassMaximumFrom(v, representatives, Stamping(), members, maximumLamport);
      if representative == [] {
        MergeIntoEmpty(representatives, members, maximumLamport);
      } else {
        MergeChanges(v, representatives, ordered[0], ordered[1]);
        MergeIntoHead(representatives, representative, members, maximumLamport);
      }
    }

    method MergeIntoHead(
        representatives: set<EventID>, representative: EventID, members: seq<EventID>, maximumLamport: nat)
      requires Valid() && AreHeads(View(), representatives) && Consistent(WithClass(View(), representatives))
      requires [] !in representatives && representative == LeastHead(representatives)
      requires StrictlySorted(members) && forall id :: id in members <==> id in View().contents && Rep(View(), id) in representatives
      requires IsClassMaximum(representatives, Stamping(), maximumLamport)
      modifies this`events, this`causalEdges, this`reverseCausal, this`causalClass, this`classMembers
      ensures Valid() && View() == WithClass(old(View()), representatives)
      ensures LeastLawful(View(), old(Stamping()), Stamping())
    {
      hide Sound, ViewOf, Consistent, WithClass, LeastLawful, Forced, LawfulBut, Raised;
      ghost var v, start := View(), Stamping();
      KeysFacts(Stored());
      SoundView(Stored());
      ClassRaise(v, representatives, start, maximumLamport);
      StoredClassKeeps(Stored(), representatives, members);
      FoldClasses(representatives, representative, members);
      RaiseAndPropagate(representative, maximumLamport, start);
    }

    /** The same statements when the class is headed by the empty identity: only that
        identity reads as a member, so it alone takes the maximum. */
    method MergeIntoEmpty(representatives: set<EventID>, members: seq<EventID>, maximumLamport: nat)
      requires Valid() && AreHeads(View(), representatives) && Unordered(View().edges, representatives)
      requires [] in representatives
      requires forall id :: id in members <==> id in View().contents && Rep(View(), id) in representatives
      requires IsClassMaximum(representatives, Stamping(), maximumLamport)
      modifies this`events, this`causalEdges, this`reverseCausal, this`causalClass, this`classMembers
      ensures Torn(old(Stored()), Stored(), representatives)
    {
      hide Sound, ViewOf, Consistent, Lawful, Unordered, IsClassMaximum, Torn, TornMembers, TornStamps, NormalEdges, MergedClass, Read, WithClass, AreHeads, Contents, StoredClass, Members;
      ghost var s, v := Stored(), View();
      KeysFacts(s);
      SoundConsistent(s);
      ghost var bound := TornStart(v, representatives, Stamping(), maximumLamport);
      FoldClasses(representatives, [], members);
      StampEmpty(s, representatives, members, maximumLamport);
      RepairTorn(s, representatives, bound, maximumLamport);
    }

    method StampEmpty(ghost s: Store, ghost heads: set<EventID>, ghost members: seq<EventID>, maximumLamport: nat)
      requires Sound(s) && AreHeads(ViewOf(s), heads) && [] in heads && Stored() == StoredClass(s, heads, [], members)
      requires forall id :: id in members <==> id in ViewOf(s).contents && Rep(ViewOf(s), id) in heads
      modifies this`events
      ensures Torn(s, Stored(), heads) && TornMembers(ViewOf(s), Stored(), heads)
      ensures Stamping() == Lamports(s.events)[[] := maximumLamport]
    {
      hide Sound, ViewOf, Torn, TornMembers, NormalEdges, MergedClass, Read, AreHeads, Contents, StoredClass, Members, Lamports;
      ghost var folded := Stored();
      var own := Sort(set id | id in events && Representative(id) == []);
      OnlyEmptyReadsEmpty(s, folded, heads, members, own);
      Restamp(own, maximumLamport);
      JustTorn(s, folded, Stored(), heads, members, own, maximumLamport);
    }

    /** propagateLamportLocked from a torn class: it ends, and touches nothing but stamps. */
    method RepairTorn(ghost s: Store, ghost heads: set<EventID>, ghost bound: Stamping, ghost top: nat)
      requires Sound(s) && AreHeads(ViewOf(s), heads) && Unordered(ViewOf(s).edges, heads) && [] in heads
      requires Torn(s, Stored(), heads) && TornMembers(ViewOf(s), Stored(), heads)
      requires Lawful(WithClass(ViewOf(s), heads), bound) && TornStamps(ViewOf(s), heads, Stamping(), bound, top)
      modifies this`events
      ensures Torn(s, Stored(), heads)
    {
      hide Sound, ViewOf, Lawful, Unordered, Torn, TornMembers, TornStamps, Below, Follows, Total, IsReadNeighbour, WithClass, AreHeads;
      ghost var v := ViewOf(s);
      SoundView(s);
      TornBounded(v, heads, Stamping(), bound, top);
      EmptyBelow(v, heads);
      var first: EventID := [];
      var queue, queued := [first], {first};
      while queue != []
        invariant Torn(s, Stored(), heads) && TornMembers(v, Stored(), heads) && TornStamps(v, heads, Stamping(), bound, top)
        invariant forall x :: x in queue ==> Below(v, heads, x)
        invariant Total(Stamping()) <= Total(bound)
        decreases Total(bound) - Total(Stamping()), |queue|
      {
        var current := queue[0];
        queue, queued := queue[1..], queued - {current};
        TornClass(s, Stored(), heads, current);
        var successors := ReadNeighbours(causalEdges, Representative(current));
        ghost var rest, total := queue, Total(Stamping());
        for index := 0 to |successors|
          invariant Torn(s, Stored(), heads) && TornMembers(v, Stored(), heads) && TornStamps(v, heads, Stamping(), bound, top)
          invariant forall x :: x in queue ==> Below(v, heads, x)
          invariant total <= Total(Stamping()) <= Total(bound)
          invariant Total(Stamping()) == total ==> queue == rest
        {
          assert successors[index] in successors;
          TornFollows(s, Stored(), heads, current, successors[index]);
          FollowsBelow(v, heads, current, successors[index]);
          var raised := RaiseTorn(s, heads, bound, top, current, successors[index]);
          TornBounded(v, heads, Stamping(), bound, top);
          if raised && successors[index] !in queued {
            queue, queued := queue + [successors[index]], queued + {successors[index]};
          }
        }
      }
    }

    /** One visit of that repair. */
    method RaiseTorn(
        ghost s: Store, ghost heads: set<EventID>, ghost bound: Stamping, ghost top: nat, current: EventID, successor: EventID)
      returns (raised: bool)
      requires Sound(s) && AreHeads(ViewOf(s), heads) && [] in heads
      requires Torn(s, Stored(), heads) && TornMembers(ViewOf(s), Stored(), heads)
      requires Lawful(WithClass(ViewOf(s), heads), bound) && TornStamps(ViewOf(s), heads, Stamping(), bound, top)
      requires Below(ViewOf(s), heads, current) && Below(ViewOf(s), heads, successor) && successor != []
      requires (current, successor) in WithClass(ViewOf(s), heads).edges
      modifies this`events
      ensures Torn(s, Stored(), heads) && TornMembers(ViewOf(s), Stored(), heads)
      ensures TornStamps(ViewOf(s), heads, Stamping(), bound, top)
      ensures if raised then old(Total(Stamping())) < Total(Stamping()) else unchanged(this)
    {
      hide Sound, ViewOf, Lawful, Torn, TornMembers, TornStamps, Below, Total, WithClass, AreHeads, Raised, IsMaximumOver, Shaped, Headed, EdgesJoinHeads, Acyclic;
      ghost var v := ViewOf(s);
      SoundView(s);
      TornClass(s, Stored(), heads, current);
      TornClass(s, Stored(), heads, successor);
      var currentLamport := MaximumLamport(classMembers[Representative(current)]);
      var successorLamport := MaximumLamport(classMembers[Representative(successor)]);
      TornMaximum(s, Stored(), heads, bound, top, current, currentLamport);
      TornMaximum(s, Stored(), heads, bound, top, successor, successorLamport);
      raised := currentLamport + 1 > successorLamport;
      if raised {
        TornRaise(v, heads, Stamping(), bound, top, current, successor);
        Restamp(classMembers[Representative(successor)], currentLamport + 1);
        TornRestamped(s, old(Stored()), Stored(), heads, successor, currentLamport + 1);
      }
    }

    method FoldClasses(representatives: set<EventID>, representative: EventID, members: seq<EventID>)
      modifies this`causalEdges, this`reverseCausal, this`causalClass, this`classMembers
      ensures Stored() == StoredClass(old(Stored()), representatives, representative, members)
    {
      classMembers := (classMembers - (representatives - {representative}))[representative := members];
      causalClass := MergedClass(causalClass, representatives, representative);
      causalEdges := NormalEdges(causalEdges, causalClass, events.Keys);
      reverseCausal := NormalEdges(reverseCausal, causalClass, events.Keys);
    }

    // ----- Adding an event with its causes -----

    method ClashesWithCauses(causes: seq<EventID>, content: Content) returns (conflict: bool)
      requires Sound(Stored()) && Members(causes) <= events.Keys && Canonical(content.timings)
      ensures conflict <==> CausesClash(View(), content, Members(causes))
    {
      hide Sound, Conflict, Canonical, Leq;
      StoredTimings(Stored());
      if content.timings == [] {
        UntimedNeverClashes(View(), content, Members(causes));
        return false;
      }
      var checked: set<EventID> := {};
      for i := 0 to |causes|
        invariant forall x :: x in checked ==> x in events && !Conflict(events[x].content.timings, content.timings)
        invariant forall l, x :: 0 <= l < i && Leq(View(), x, causes[l]) ==> x in checked
      {
        assert causes[i] in Members(causes);
        var past := CausalPredecessorIDs(causes[i]);
        LeqKnown(View(), causes[i]);
        for j := 0 to |past|
          invariant forall x :: x in checked ==> x in events && !Conflict(events[x].content.timings, content.timings)
          invariant forall l, x :: 0 <= l < i && Leq(View(), x, causes[l]) ==> x in checked
          invariant forall l :: 0 <= l < j ==> past[l] in checked
        {
          assert past[j] in past;
          if past[j] !in checked {
            conflict := SharedTimingConflict(events[past[j]].content.timings, content.timings);
            if conflict {
              assert Leq(View(), past[j], causes[i]);
              return;
            }
            checked := checked + {past[j]};
          }
        }
      }
      return false;
    }

    method AllKnown(ids: seq<EventID>) returns (known: bool)
      ensures known <==> Members(ids) <= events.Keys
    {
      for index := 0 to |ids|
        invariant Members(ids[..index]) <= events.Keys
      {
        TakeOneMore(ids, index);
        if ids[index] !in events {
          return false;
        }
      }
      TakeAll(ids);
      return true;
    }

    /** The edge loop of AddEventWithCause: no insertion fails. */
    method AddCauses(id: EventID, causes: seq<EventID>, ghost v: View, ghost content: Content)
      requires Valid() && View() == WithEvent(v, id, content)
      requires Consistent(v) && id !in v.contents && Members(causes) <= v.contents.Keys
      requires Canonical(content.timings) && !CausesClash(v, content, Members(causes))
      modifies this`events, this`causalEdges, this`reverseCausal
      ensures Valid() && View() == WithCausedEvent(v, id, content, Members(causes))
      ensures LeastLawful(View(), old(Stamping()), Stamping())
    {
      hide Sound, Lawful, LeastLawful, ViewOf, Consistent, Canonical, Leq, Conflict, WithCausedEvent, WithEvent, WithEdge, CausesClash;
      ghost var start := Stamping();
      NoCauses(v, id, content);
      assert Members(causes[..0]) == {};
      LawfulIsLeast(View(), start);
      for index := 0 to |causes|
        invariant Valid()
        invariant View() == WithCausedEvent(v, id, content, Members(causes[..index]))
        invariant LeastLawful(View(), start, Stamping())
      {
        TakeOneMore(causes, index);
        ghost var before, middle := View(), Stamping();
        NextCauseFits(v, id, content, Members(causes[..index]), Members(causes), causes[index]);
        EdgeOutcomeIff(before, causes[index], id);
        var added := AddCausal(causes[index], id);
        EdgeComposes(before, causes[index], id, start, middle, Stamping());
      }
      TakeAll(causes);
    }

    /** AddEventWithCause: all or nothing.  Once the pre-checks and the insertion have
        succeeded no edge insertion can fail, and the event follows exactly what is at or
        before one of its causes. */
    method AddEventWithCause(e: Offer, causes: seq<EventID>) returns (r: Outcome)
      requires Valid()
      modifies this
      ensures Valid() && pendingEdges == old(pendingEdges)
      ensures r == CausedOutcome(old(View()), e, Members(causes))
      ensures r.Ok? ==>
                && View() == WithCausedEvent(old(View()), e.id, Canonized(e.content), Members(causes))
                && lamportCounter == old(lamportCounter) + 1
                && LeastLawful(View(), old(Stamping())[e.id := lamportCounter], Stamping())
      ensures r.Fail? ==> unchanged(this)
    {
      hide Sound, Lawful, LeastLawful, ViewOf, Consistent, Canonical, CausesClash, WithCausedEvent;
      ghost var v := View();
      SoundConsistent(Stored());
      KeysFacts(Stored());
      var timings := CanonicalizeEventTimings(e.content.timings);
      if timings.None? {
        return Fail(InvalidTiming);
      }
      var content := e.content.(timings := timings.value);
      if e.expectedCauses != [] {
        var normalized := Sort(Members(causes));
        if normalized != e.expectedCauses {
          if CausesMatch(e.expectedCauses, Members(causes)) {
            SortedUnique(normalized, e.expectedCauses);
          }
          return Fail(CauseMismatch);
        }
      }
      var known := AllKnown(causes);
      if !known {
        return Fail(EventNotFound);
      }
      var conflict := ClashesWithCauses(causes, content);
      if conflict {
        return Fail(TimingCausality);
      }
      if e.id in events {
        return Fail(EventExists);
      }
      lamportCounter := lamportCounter + 1;
      StoreNewEvent(e.id, Event(content, lamportCounter, true));
      AddCauses(e.id, causes, v, content);
      return Ok;
    }

    // ----- Adding an observation -----

    method NeighbourConflict(id: EventID, timings: seq<EventTiming>) returns (conflict: bool)
      requires Sound(Stored()) && id in events && Canonical(timings)
      ensures conflict <==> NeighbourClash(View(), id, timings)
    {
      hide Sound, Conflict, Canonical, Leq;
      StoredTimings(Stored());
      KeysFacts(Stored());
      var past := CausalPredecessorIDs(id);
      var future := CausalSuccessorIDs(id);
      LeqKnown(View(), id);
      LeqFromKnown(View(), id);
      for i := 0 to |past|
        invariant forall k :: 0 <= k < i && past[k] != id ==> !Conflict(View().contents[past[k]].timings, timings)
      {
        assert past[i] in past;
        if past[i] != id {
          conflict := SharedTimingConflict(events[past[i]].content.timings, timings);
          if conflict {
            assert Leq(View(), past[i], id);
            return;
          }
        }
      }
      for i := 0 to |future|
        invariant forall k :: 0 <= k < i && future[k] != id ==> !Conflict(timings, View().contents[future[k]].timings)
      {
        assert future[i] in future;
        if future[i] != id {
          conflict := SharedTimingConflict(timings, events[future[i]].content.timings);
          if conflict {
            assert Leq(View(), id, future[i]);
            return;
          }
        }
      }
      return false;
    }

    /** AddObservationWithTimings: a further qualified role, and possibly further
        intervals, for a stored occurrence.  Order, classes and stamps stay as they are. */
    method AddObservationWithTimings(id: EventID, o: Observation, timings: seq<EventTiming>) returns (r: Outcome)
      requires Valid()
      modifies this`events, this`timedEvents
      ensures Valid()
      ensures r == ObservationOutcome(old(View()), id, o, timings)
      ensures r.Ok? ==> View() == WithContent(old(View()), id, Observed(old(View()).contents[id], o, timings))
      ensures r.Ok? && RolesAgree(old(View()).contents[id]) ==>
                RolesAgree(View().contents[id]) && HasRole(View().contents[id], o)
      ensures Stamping() == old(Stamping())
      ensures r.Fail? ==> unchanged(this)
    {
      hide Sound, Lawful, Consistent, NeighbourClash, Roles, SortRoles, FreshTimings, EdgeSet, Admissible, Canonical, Agrees, RolesAgree;
      ghost var v := View();
      if o.name == [] {
        return Fail(EmptyName);
      }
      KeysFacts(Stored());
      if id !in events {
        return Fail(EventNotFound);
      }
      var c := events[id].content;
      StoredTimings(Stored());
      var merged := MergeTimings(c.timings, timings);
      if merged.None? {
        return Fail(InvalidTiming);
      }
      var conflict := NeighbourConflict(id, merged.value);
      if conflict {
        return Fail(TimingCausality);
      }
      var existing := FindRole(Roles(c), o);
      if existing.Some? && existing.value.params != o.params {
        return Fail(ObservationConflict);
      }
      var observed := c.(timings := merged.value,
                         observations := if existing.Some? then c.observations else SortRoles(Roles(c) + [o]));
      ReplaceContent(id, observed);
      if RolesAgree(c) {
        ObservedRolesAgree(c, o, timings);
      }
      return Ok;
    }

    /** storeEventLocked for a replacement: the timed-event count stays exact. */
    method ReplaceContent(id: EventID, c: Content)
      requires Valid() && id in events && Canonical(c.timings) && !NeighbourClash(View(), id, c.timings)
      modifies this`events, this`timedEvents
      ensures Valid() && View() == WithContent(old(View()), id, c) && Stamping() == old(Stamping())
    {
      hide Sound, Lawful, ViewOf, Consistent, NeighbourClash, Canonical, Lamports;
      SoundConsistent(Stored());
      KeysFacts(Stored());
      ContentKeepsConsistent(View(), id, c);
      StoredContentKeeps(Stored(), id, c);
      ContentLawful(View(), id, c, Stamping());
      ghost var target := StoredContent(Stored(), id, c);
      var previous := events[id];
      assert target.events == events[id := previous.(content := c)];
      if previous.content.timings != [] {
        timedEvents := timedEvents - 1;
      }
      if c.timings != [] {
        timedEvents := timedEvents + 1;
      }
      events := events[id := previous.(content := c)];
      assert Stored().events == target.events && Stored().timedEvents == target.timedEvents;
      assert Stored() == target;
    }
  }
}
