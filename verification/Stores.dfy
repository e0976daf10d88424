/** The poset's redundant storage as a value: what makes its five structures agree, and
    that each elementary update keeps them in agreement. */
module Stores {
  import opened Texts
  import opened Timings
  import opened Reachability
  import opened CausalOrder
  import opened Stamps

  datatype Event = Event(content: Content, lamport: nat, immutable: bool)

  datatype Store = Store(
    events: map<EventID, Event>,
    causalEdges: map<EventID, set<EventID>>,
    reverseCausal: map<EventID, set<EventID>>,
    causalClass: map<EventID, EventID>,
    classMembers: map<EventID, seq<EventID>>,
    timedEvents: nat)

  function EdgeSet(m: map<EventID, set<EventID>>): set<(EventID, EventID)> {
    set a, b | a in m && b in m[a] :: (a, b)
  }

  function Contents(events: map<EventID, Event>): map<EventID, Content> {
    map id | id in events :: events[id].content
  }

  function Lamports(events: map<EventID, Event>): Stamping {
    map id | id in events :: events[id].lamport
  }

  function Timed(events: map<EventID, Event>): set<EventID> {
    set id | id in events && events[id].content.timings != []
  }

  function ViewOf(s: Store): View {
    View(Contents(s.events), s.causalClass, EdgeSet(s.causalEdges))
  }

  ghost predicate ClassesAgree(s: Store) {
    s.causalClass.Keys == s.events.Keys && MembersInvert(s.causalClass, s.classMembers)
  }

  /** classMembers lists, sorted and complete, the class of every head. */
  ghost predicate MembersInvert(cls: map<EventID, EventID>, mem: map<EventID, seq<EventID>>) {
    && (forall r :: r in mem <==> r in cls && cls[r] == r)
    && (forall r :: r in mem ==> StrictlySorted(mem[r]))
    && (forall r, id :: r in mem ==> (id in mem[r] <==> id in cls && cls[id] == r))
  }

  ghost predicate EdgesAgree(s: Store) {
    && s.causalEdges.Keys == s.events.Keys
    && s.reverseCausal.Keys == s.events.Keys
    && (forall a, b :: a in s.causalEdges && b in s.causalEdges[a] ==> b in s.reverseCausal && a in s.reverseCausal[b])
    && (forall a, b :: b in s.reverseCausal && a in s.reverseCausal[b] ==> a in s.causalEdges && b in s.causalEdges[a])
  }

  ghost predicate EventsAgree(s: Store) {
    && s.timedEvents == |Timed(s.events)|
    && (forall id :: id in s.events ==> s.events[id].immutable)
  }

  ghost predicate Agree(s: Store) {
    ClassesAgree(s) && EdgesAgree(s) && EventsAgree(s)
  }

  ghost predicate Sound(s: Store) {
    Agree(s) && Consistent(ViewOf(s)) && Readable(ViewOf(s))
  }

  /** causalRepresentativeLocked: an entry holding the empty identity reads as absent. */
  function Read(cls: map<EventID, EventID>, id: EventID): EventID {
    if id in cls && cls[id] != [] then cls[id] else id
  }

  // ----- Reading the indexes -----

  lemma ClassFacts(s: Store, id: EventID)
    requires Sound(s) && id in s.events
    ensures var r := Rep(ViewOf(s), id);
            && r == Read(s.causalClass, id)
            && r in s.events && r in s.classMembers && Rep(ViewOf(s), r) == r
            && id in s.causalEdges && id in s.reverseCausal && id in s.causalClass && id in s.classMembers[r]
  {
    hide TimingRule, Acyclic;
  }

  lemma MemberFacts(s: Store, r: EventID)
    requires Sound(s) && r in s.classMembers
    ensures r in s.events && Rep(ViewOf(s), r) == r
    ensures StrictlySorted(s.classMembers[r])
    ensures forall id :: id in s.classMembers[r] <==> id in s.events && Rep(ViewOf(s), id) == r
    ensures forall id :: id in s.classMembers[r] ==> id in s.causalEdges && id in s.reverseCausal
  {
    hide TimingRule, Acyclic, Shaped, EventsAgree;
  }

  lemma EdgeHeads(s: Store, a: EventID, b: EventID)
    requires Sound(s) && (a, b) in ViewOf(s).edges
    ensures a in s.classMembers && b in s.classMembers && a != b
  {
    hide TimingRule, EventsAgree;
    assert Reach(ViewOf(s).edges, a, a);
  }

  lemma EdgeStored(s: Store, a: EventID, b: EventID)
    requires Sound(s)
    ensures (a, b) in ViewOf(s).edges <==> a in s.causalEdges && b in s.causalEdges[a]
    ensures (a, b) in ViewOf(s).edges <==> b in s.reverseCausal && a in s.reverseCausal[b]
  {
    hide Consistent, ClassesAgree, EventsAgree;
  }

  lemma KeysFacts(s: Store)
    requires Sound(s)
    ensures s.causalEdges.Keys == s.reverseCausal.Keys == s.causalClass.Keys == s.events.Keys
    ensures ViewOf(s).contents.Keys == s.events.Keys
    ensures s.classMembers.Keys <= s.events.Keys
  {
    hide Consistent, EventsAgree;
  }

  lemma HeadFacts(s: Store, r: EventID)
    requires Sound(s)
    ensures r in s.classMembers <==> r in s.events && Rep(ViewOf(s), r) == r
  {
    hide Consistent, EventsAgree, EdgesAgree;
  }

  /** Only the head of a class carries edges, and they lead to other heads. */
  lemma HeadEdges(s: Store, id: EventID)
    requires Sound(s) && id in s.events
    ensures id in s.causalEdges && id in s.reverseCausal
    ensures Rep(ViewOf(s), id) != id ==> s.causalEdges[id] == {} && s.reverseCausal[id] == {}
    ensures forall b :: b in s.causalEdges[id] ==> Rep(ViewOf(s), b) == b && b != id && b in s.classMembers
    ensures forall a :: a in s.reverseCausal[id] ==> Rep(ViewOf(s), a) == a && a != id && a in s.classMembers
    ensures forall b :: b in s.causalEdges[id] <==> (id, b) in ViewOf(s).edges
    ensures forall a :: a in s.reverseCausal[id] <==> (a, id) in ViewOf(s).edges
  {
    hide Sound, ViewOf;
    KeysFacts(s);
    HeadFacts(s, id);
    forall b ensures b in s.causalEdges[id] <==> (id, b) in ViewOf(s).edges
             ensures (id, b) in ViewOf(s).edges ==>
               Rep(ViewOf(s), b) == b && b != id && b in s.classMembers && Rep(ViewOf(s), id) == id
    {
      EdgeStored(s, id, b);
      HeadFacts(s, b);
      if (id, b) in ViewOf(s).edges {
        EdgeHeads(s, id, b);
      }
    }
    forall a ensures a in s.reverseCausal[id] <==> (a, id) in ViewOf(s).edges
             ensures (a, id) in ViewOf(s).edges ==>
               Rep(ViewOf(s), a) == a && a != id && a in s.classMembers && Rep(ViewOf(s), id) == id
    {
      EdgeStored(s, a, id);
      HeadFacts(s, a);
      if (a, id) in ViewOf(s).edges {
        EdgeHeads(s, a, id);
      }
    }
  }

  lemma SoundView(s: Store)
    requires Sound(s)
    ensures Shaped(ViewOf(s)) && Headed(ViewOf(s)) && EdgesJoinHeads(ViewOf(s)) && Acyclic(ViewOf(s).edges)
    ensures ViewOf(s).contents.Keys == s.events.Keys
  {
    hide Agree, TimingRule;
  }

  lemma SoundReads(s: Store)
    requires Sound(s)
    ensures forall id :: Read(s.causalClass, id) == Rep(ViewOf(s), id)
  {
    hide Agree, Consistent;
  }

  lemma SoundConsistent(s: Store)
    requires Sound(s)
    ensures Agree(s) && Consistent(ViewOf(s)) && Readable(ViewOf(s))
    ensures forall id :: Read(s.causalClass, id) == Rep(ViewOf(s), id)
  {
    hide Agree, Consistent;
  }

  lemma StoredTimings(s: Store)
    requires Sound(s)
    ensures forall id :: id in s.events ==> Canonical(s.events[id].content.timings)
  {
    hide Canonical, Agree, TimingRule, Acyclic;
    forall id | id in s.events ensures Canonical(s.events[id].content.timings) {
      assert id in ViewOf(s).contents;
    }
  }

  /** The counter's fast path is exact: with no timed event nothing can clash. */
  lemma NothingTimed(s: Store)
    requires Sound(s) && s.timedEvents == 0
    ensures forall a, b :: !Clashing(ViewOf(s), a, b)
  {
    hide Consistent, ClassesAgree, EdgesAgree;
    forall a | a in s.events ensures s.events[a].content.timings == [] {
      assert a !in Timed(s.events);
    }
  }

  // ----- Elementary updates -----

  /** Restamping leaves the view and every index alone. */
  function Restamped(events: map<EventID, Event>, stamps: Stamping): map<EventID, Event> {
    map id | id in events :: if id in stamps then events[id].(lamport := stamps[id]) else events[id]
  }

  lemma RestampedFacts(events: map<EventID, Event>, stamps: Stamping)
    ensures var e := Restamped(events, stamps);
            && e.Keys == events.Keys
            && Timed(e) == Timed(events)
            && Contents(e) == Contents(events)
            && (stamps.Keys == events.Keys ==> Lamports(e) == stamps)
            && forall id :: id in events ==> e[id].immutable == events[id].immutable
  {}

  lemma RestampKeeps(s: Store, stamps: Stamping)
    requires Sound(s)
    ensures var t := s.(events := Restamped(s.events, stamps));
            Sound(t) && ViewOf(t) == ViewOf(s) && (stamps.Keys == s.events.Keys ==> Lamports(t.events) == stamps)
  {
    hide Consistent, Restamped, Timed, Contents, Lamports, Agree, EdgeSet, Readable;
    RestampedFacts(s.events, stamps);
    RestampAgrees(s, stamps);
  }

  lemma RestampAgrees(s: Store, stamps: Stamping)
    requires Agree(s)
    ensures Agree(s.(events := Restamped(s.events, stamps)))
  {
    hide Restamped, Timed, MembersInvert;
    RestampedFacts(s.events, stamps);
  }

  function StoredEvent(s: Store, id: EventID, e: Event): Store {
    s.(events := s.events[id := e],
       causalEdges := s.causalEdges[id := {}],
       reverseCausal := s.reverseCausal[id := {}],
       causalClass := s.causalClass[id := id],
       classMembers := s.classMembers[id := [id]],
       timedEvents := s.timedEvents + if e.content.timings != [] then 1 else 0)
  }

  lemma StoredEventLamports(events: map<EventID, Event>, id: EventID, e: Event)
    ensures Lamports(events[id := e]) == Lamports(events)[id := e.lamport]
  {}

  lemma StoredEventView(s: Store, id: EventID, e: Event)
    requires s.causalEdges.Keys == s.events.Keys && id !in s.events
    ensures ViewOf(StoredEvent(s, id, e)) == WithEvent(ViewOf(s), id, e.content)
  {
    assert EdgeSet(s.causalEdges[id := {}]) == EdgeSet(s.causalEdges);
    assert Contents(s.events[id := e]) == Contents(s.events)[id := e.content];
  }

  lemma StoredEventClasses(s: Store, id: EventID, e: Event)
    requires ClassesAgree(s) && Headed(ViewOf(s)) && id !in s.events
    ensures ClassesAgree(StoredEvent(s, id, e))
  {
    hide AtMost, MembersInvert;
    forall x | x in s.causalClass ensures s.causalClass[x] in s.causalClass {
      assert IsHead(ViewOf(s), s.causalClass[x]);
    }
    OwnListInverts(s.causalClass, s.classMembers, id, s.causalClass[id := id], s.classMembers[id := [id]]);
  }

  lemma OneSorted(id: EventID)
    ensures StrictlySorted([id])
  {}

  lemma OwnListInverts(
      cls: map<EventID, EventID>, mem: map<EventID, seq<EventID>>, id: EventID,
      cls': map<EventID, EventID>, mem': map<EventID, seq<EventID>>)
    requires MembersInvert(cls, mem) && id !in cls && forall x :: x in cls ==> cls[x] in cls
    requires cls' == cls[id := id] && mem' == mem[id := [id]]
    ensures MembersInvert(cls', mem')
  {
    hide StrictlySorted, MembersInvert;
    forall r, x
      ensures r in mem' <==> r in cls' && cls'[r] == r
      ensures r in mem' ==> StrictlySorted(mem'[r]) && (x in mem'[r] <==> x in cls' && cls'[x] == r)
    {
      OwnListAt(cls, mem, id, cls', mem', r, x);
    }
    InvertIntro(cls', mem');
  }

  lemma InvertIntro(cls: map<EventID, EventID>, mem: map<EventID, seq<EventID>>)
    requires forall r :: r in mem <==> r in cls && cls[r] == r
    requires forall r :: r in mem ==> StrictlySorted(mem[r])
    requires forall r, x :: r in mem ==> (x in mem[r] <==> x in cls && cls[x] == r)
    ensures MembersInvert(cls, mem)
  {
    hide StrictlySorted;
  }

  lemma OwnListAt(
      cls: map<EventID, EventID>, mem: map<EventID, seq<EventID>>, id: EventID,
      cls': map<EventID, EventID>, mem': map<EventID, seq<EventID>>, r: EventID, x: EventID)
    requires MembersInvert(cls, mem) && id !in cls && forall y :: y in cls ==> cls[y] in cls
    requires cls' == cls[id := id] && mem' == mem[id := [id]]
    ensures r in mem' <==> r in cls' && cls'[r] == r
    ensures r in mem' ==> StrictlySorted(mem'[r]) && (x in mem'[r] <==> x in cls' && cls'[x] == r)
  {
    hide StrictlySorted;
    OneSorted(id);
  }

  lemma StoredEventEdges(s: Store, id: EventID, e: Event)
    requires EdgesAgree(s) && id !in s.events
    ensures EdgesAgree(StoredEvent(s, id, e))
  {}

  lemma StoredEventEvents(s: Store, id: EventID, e: Event)
    requires EventsAgree(s) && id !in s.events && e.immutable
    ensures EventsAgree(StoredEvent(s, id, e))
  {
    var t := StoredEvent(s, id, e);
    assert Timed(t.events) == Timed(s.events) + if e.content.timings != [] then {id} else {};
  }

  lemma StoredEventKeeps(s: Store, id: EventID, e: Event)
    requires Sound(s) && id !in s.events && e.immutable && Canonical(e.content.timings)
    ensures var t := StoredEvent(s, id, e);
            Sound(t) && ViewOf(t) == WithEvent(ViewOf(s), id, e.content)
  {
    hide ClassesAgree, EventsAgree, EdgesAgree, TimingRule, Headed, ViewOf, StoredEvent;
    KeysFacts(s);
    StoredEventView(s, id, e);
    StoredEventClasses(s, id, e);
    StoredEventEdges(s, id, e);
    StoredEventEvents(s, id, e);
    EventKeepsConsistent(ViewOf(s), id, e.content);
  }

  function StoredEdge(s: Store, from: EventID, to: EventID): Store
    requires from in s.causalEdges && to in s.reverseCausal
  {
    s.(causalEdges := s.causalEdges[from := s.causalEdges[from] + {to}],
       reverseCausal := s.reverseCausal[to := s.reverseCausal[to] + {from}])
  }

  function StoredContent(s: Store, id: EventID, c: Content): Store
    requires id in s.events
  {
    var before := if s.events[id].content.timings != [] then 1 else 0;
    var after := if c.timings != [] then 1 else 0;
    s.(events := s.events[id := s.events[id].(content := c)],
       timedEvents := if s.timedEvents >= before then s.timedEvents - before + after else after)
  }

  lemma TimedAfter(events: map<EventID, Event>, id: EventID, c: Content)
    requires id in events
    ensures |Timed(events[id := events[id].(content := c)])| + (if events[id].content.timings != [] then 1 else 0) ==
            |Timed(events)| + (if c.timings != [] then 1 else 0)
  {
    var others := Timed(events) - {id};
    var after := Timed(events[id := events[id].(content := c)]);
    assert Timed(events) == if events[id].content.timings != [] then others + {id} else others;
    assert after == if c.timings != [] then others + {id} else others;
  }

  lemma StoredContentEvents(s: Store, id: EventID, c: Content)
    requires EventsAgree(s) && id in s.events
    ensures EventsAgree(StoredContent(s, id, c))
    ensures s.events[id].content.timings != [] ==> s.timedEvents > 0
  {
    hide Timed;
    TimedAfter(s.events, id, c);
    if s.events[id].content.timings != [] {
      TimedMember(s.events, id);
    }
  }

  lemma TimedMember(events: map<EventID, Event>, id: EventID)
    requires id in events && events[id].content.timings != []
    ensures |Timed(events)| > 0
  {
    assert id in Timed(events);
  }

  lemma StoredContentMaps(events: map<EventID, Event>, id: EventID, c: Content)
    requires id in events
    ensures var t := events[id := events[id].(content := c)];
            Lamports(t) == Lamports(events) && Contents(t) == Contents(events)[id := c]
  {}

  lemma StoredContentKeeps(s: Store, id: EventID, c: Content)
    requires Sound(s) && id in s.events && Consistent(WithContent(ViewOf(s), id, c))
    ensures var t := StoredContent(s, id, c);
            && Sound(t) && ViewOf(t) == WithContent(ViewOf(s), id, c) && Lamports(t.events) == Lamports(s.events)
    ensures s.events[id].content.timings != [] ==> s.timedEvents > 0
  {
    hide EventsAgree, Consistent, MembersInvert, Contents, Lamports;
    StoredContentEvents(s, id, c);
    StoredContentMaps(s.events, id, c);
  }

  lemma StoredEdgeView(s: Store, from: EventID, to: EventID)
    requires EdgesAgree(s) && from in s.events && to in s.events
    ensures from in s.causalEdges && to in s.reverseCausal
    ensures ViewOf(StoredEdge(s, from, to)) == ViewOf(s).(edges := ViewOf(s).edges + {(from, to)})
  {
    var t := StoredEdge(s, from, to);
    forall e | e in EdgeSet(s.causalEdges) + {(from, to)} ensures e in EdgeSet(t.causalEdges) {
      assert e.0 in t.causalEdges && e.1 in t.causalEdges[e.0];
    }
  }

  lemma StoredEdgeEdges(s: Store, from: EventID, to: EventID)
    requires EdgesAgree(s) && from in s.events && to in s.events
    ensures EdgesAgree(StoredEdge(s, from, to))
  {}

  lemma StoredEdgeKeeps(s: Store, from: EventID, to: EventID)
    requires Sound(s) && from in s.classMembers && to in s.classMembers
    requires Consistent(WithEdge(ViewOf(s), from, to))
    ensures from in s.causalEdges && to in s.reverseCausal
    ensures Sound(StoredEdge(s, from, to))
    ensures ViewOf(StoredEdge(s, from, to)) == WithEdge(ViewOf(s), from, to)
    ensures WithEdge(ViewOf(s), from, to) == ViewOf(s).(edges := ViewOf(s).edges + {(from, to)})
  {
    hide EdgesAgree, Consistent, ViewOf;
    KeysFacts(s);
    HeadFacts(s, from);
    HeadFacts(s, to);
    StoredEdgeView(s, from, to);
    StoredEdgeEdges(s, from, to);
  }

  function MergedClass(cls: map<EventID, EventID>, heads: set<EventID>, onto: EventID): map<EventID, EventID> {
    map id | id in cls :: if cls[id] in heads then onto else cls[id]
  }

  /** A class merge rewrites the class map and both edge maps, and folds the member lists. */
  function StoredClass(s: Store, heads: set<EventID>, onto: EventID, members: seq<EventID>): Store {
    var cls := MergedClass(s.causalClass, heads, onto);
    s.(causalClass := cls,
       classMembers := (s.classMembers - (heads - {onto}))[onto := members],
       causalEdges := NormalEdges(s.causalEdges, cls, s.events.Keys),
       reverseCausal := NormalEdges(s.reverseCausal, cls, s.events.Keys))
  }

  /** normalizeCausalEdgesLocked for one direction: edges rekeyed by current heads. */
  function NormalEdges(
      edges: map<EventID, set<EventID>>, cls: map<EventID, EventID>, ids: set<EventID>): (r: map<EventID, set<EventID>>)
    ensures r.Keys == ids
  {
    map id | id in ids ::
      set from, to | from in edges && Read(cls, from) == id && to in edges[from] && Read(cls, to) != id :: Read(cls, to)
  }

  lemma StoredClassHeads(s: Store, heads: set<EventID>, members: seq<EventID>)
    requires ClassesAgree(s) && Headed(ViewOf(s)) && AreHeads(ViewOf(s), heads)
    ensures var t, m := StoredClass(s, heads, LeastHead(heads), members), LeastHead(heads);
            && t.causalClass.Keys == s.causalClass.Keys
            && m in heads
            && (forall id :: id in s.causalClass ==>
                  && t.causalClass[id] == (if s.causalClass[id] in heads then m else s.causalClass[id])
                  && s.causalClass[id] in s.causalClass && s.causalClass[s.causalClass[id]] == s.causalClass[id])
            && (forall h :: h in heads ==> h in s.causalClass && s.causalClass[h] == h)
  {
    hide AtMost, Less, Image, NormalEdges;
    forall id | id in s.causalClass
      ensures s.causalClass[id] in s.causalClass && s.causalClass[s.causalClass[id]] == s.causalClass[id]
    {
      assert IsHead(ViewOf(s), s.causalClass[id]);
    }
    forall h | h in heads ensures h in s.causalClass && s.causalClass[h] == h {
      assert Rep(ViewOf(s), h) == h;
    }
  }

  lemma FoldedMembers(
      cls: map<EventID, EventID>, mem: map<EventID, seq<EventID>>, cls': map<EventID, EventID>,
      heads: set<EventID>, m: EventID, members: seq<EventID>)
    requires MembersInvert(cls, mem)
    requires cls'.Keys == cls.Keys && m in heads
    requires forall id :: id in cls ==> cls'[id] == if cls[id] in heads then m else cls[id]
    requires forall h :: h in heads ==> h in cls && cls[h] == h
    requires StrictlySorted(members) && forall id :: id in members <==> id in cls && cls[id] in heads
    ensures MembersInvert(cls', (mem - (heads - {m}))[m := members])
  {
    hide Less;
    var mem' := (mem - (heads - {m}))[m := members];
    assert mem'.Keys == mem.Keys - heads + {m};
    forall r | r in mem' ensures r != m ==> r in mem && mem'[r] == mem[r] && r !in heads {}
    forall r ensures r in mem' <==> r in cls' && cls'[r] == r {}
    forall r, id | r in mem' ensures id in mem'[r] <==> id in cls' && cls'[id] == r {
      if r != m {
        assert id in mem[r] <==> id in cls && cls[id] == r;
      }
    }
  }

  lemma StoredClassClasses(s: Store, heads: set<EventID>, members: seq<EventID>)
    requires ClassesAgree(s) && Headed(ViewOf(s)) && AreHeads(ViewOf(s), heads)
    requires StrictlySorted(members)
    requires forall id :: id in members <==> id in s.events && Rep(ViewOf(s), id) in heads
    ensures ClassesAgree(StoredClass(s, heads, LeastHead(heads), members))
  {
    hide Image, NormalEdges, LeastHead, Collapse, StrictlySorted, AreHeads, Headed, MembersInvert;
    StoredClassHeads(s, heads, members);
    forall id ensures id in members <==> id in s.causalClass && s.causalClass[id] in heads {}
    FoldedMembers(s.causalClass, s.classMembers, StoredClass(s, heads, LeastHead(heads), members).causalClass,
                  heads, LeastHead(heads), members);
  }

  lemma NormalEdgesSet(
      edges: map<EventID, set<EventID>>, cls: map<EventID, EventID>, ids: set<EventID>, a: EventID, b: EventID)
    requires forall id :: id in ids ==> Read(cls, id) in ids
    requires edges.Keys == ids
    ensures a in NormalEdges(edges, cls, ids) && b in NormalEdges(edges, cls, ids)[a] <==>
            RenamedEdge(EdgeSet(edges), cls, a, b)
  {
    var n := NormalEdges(edges, cls, ids);
    if a in n && b in n[a] {
      var from, to :| from in edges && Read(cls, from) == a && to in edges[from] && Read(cls, to) != a && b == Read(cls, to);
      assert (from, to) in EdgeSet(edges);
    }
    if RenamedEdge(EdgeSet(edges), cls, a, b) {
      var from, to :| (from, to) in EdgeSet(edges) && Read(cls, from) == a && Read(cls, to) == b;
      assert a in ids;
    }
  }

  /** Some stored edge is renamed to (a, b). */
  ghost predicate RenamedEdge(
      edges: set<(EventID, EventID)>, cls: map<EventID, EventID>, a: EventID, b: EventID)
  {
    a != b && exists from, to :: (from, to) in edges && Read(cls, from) == a && Read(cls, to) == b
  }

  lemma NormalPair(s: Store, heads: set<EventID>, members: seq<EventID>, a: EventID, b: EventID)
    requires Sound(s) && AreHeads(ViewOf(s), heads) && [] !in heads
    ensures var t := StoredClass(s, heads, LeastHead(heads), members);
            && (a in t.causalEdges && b in t.causalEdges[a] <==> (a, b) in Image(ViewOf(s).edges, Collapse(heads)))
            && (b in t.reverseCausal && a in t.reverseCausal[b] <==> (a, b) in Image(ViewOf(s).edges, Collapse(heads)))
  {
    hide Sound, LeastHead, Collapse, NormalEdges, Image, RenamedEdge, Apply, Read, MergedClass, EdgeSet;
    KeysFacts(s);
    var t := StoredClass(s, heads, LeastHead(heads), members);
    MergedReads(s, heads);
    forall id | id in s.events ensures Read(t.causalClass, id) in s.events {
      MergedHeadStored(s, heads, id);
    }
    NormalEdgesSet(s.causalEdges, t.causalClass, s.events.Keys, a, b);
    NormalEdgesSet(s.reverseCausal, t.causalClass, s.events.Keys, b, a);
    BothDirections(s, t.causalClass, a, b);
    RenamedInImage(s, heads, members, a, b);
  }

  lemma StoredClassEdges(s: Store, heads: set<EventID>, members: seq<EventID>)
    requires Sound(s) && AreHeads(ViewOf(s), heads) && [] !in heads
    ensures EdgesAgree(StoredClass(s, heads, LeastHead(heads), members))
    ensures ViewOf(StoredClass(s, heads, LeastHead(heads), members)) == WithClass(ViewOf(s), heads)
  {
    hide Sound, LeastHead, Collapse, NormalEdges, Image, Apply, EdgeSet, MergedClass;
    KeysFacts(s);
    var t, image := StoredClass(s, heads, LeastHead(heads), members), Image(ViewOf(s).edges, Collapse(heads));
    forall a, b
      ensures a in t.causalEdges && b in t.causalEdges[a] <==> (a, b) in image
      ensures b in t.reverseCausal && a in t.reverseCausal[b] <==> (a, b) in image
    {
      NormalPair(s, heads, members, a, b);
    }
    SamePairs(t.causalEdges, image);
    MergedClassCollapses(s.causalClass, heads);
  }

  lemma MergedClassCollapses(cls: map<EventID, EventID>, heads: set<EventID>)
    requires heads != {}
    ensures MergedClass(cls, heads, LeastHead(heads)) == map id | id in cls :: Apply(Collapse(heads), cls[id])
  {}

  lemma SamePairs(m: map<EventID, set<EventID>>, edges: set<(EventID, EventID)>)
    requires forall a, b :: a in m && b in m[a] <==> (a, b) in edges
    ensures EdgeSet(m) == edges
  {
    forall e ensures e in EdgeSet(m) <==> e in edges {
      var (a, b) := e;
    }
  }

  /** A merger the empty identity takes no part in leaves the class index readable. */
  lemma MergedReads(s: Store, heads: set<EventID>)
    requires Sound(s) && AreHeads(ViewOf(s), heads) && [] !in heads
    ensures var cls := MergedClass(s.causalClass, heads, LeastHead(heads));
            forall id :: Read(cls, id) == Apply(cls, id) && (id in cls && cls[id] == [] ==> id == [])
  {
    hide Agree, Consistent;
    LeastHeadIn(heads);
  }

  lemma LeastHeadIn(heads: set<EventID>)
    requires heads != {}
    ensures LeastHead(heads) in heads
  {}

  lemma MergedHeadStored(s: Store, heads: set<EventID>, id: EventID)
    requires Sound(s) && AreHeads(ViewOf(s), heads) && id in s.events
    ensures Apply(StoredClass(s, heads, LeastHead(heads), []).causalClass, id) in s.events
    ensures Apply(StoredClass(s, heads, LeastHead(heads), []).causalClass, id) == Apply(Collapse(heads), Rep(ViewOf(s), id))
  {
    hide Sound, NormalEdges, Image;
    KeysFacts(s);
    ClassFacts(s, id);
  }

  lemma BothDirections(s: Store, cls: map<EventID, EventID>, a: EventID, b: EventID)
    requires Sound(s)
    ensures RenamedEdge(EdgeSet(s.reverseCausal), cls, b, a) <==> RenamedEdge(ViewOf(s).edges, cls, a, b)
  {
    hide Sound;
    forall from, to ensures (to, from) in EdgeSet(s.reverseCausal) <==> (from, to) in ViewOf(s).edges {
      EdgeStored(s, from, to);
    }
  }

  lemma RenamedInImage(s: Store, heads: set<EventID>, members: seq<EventID>, a: EventID, b: EventID)
    requires Sound(s) && AreHeads(ViewOf(s), heads) && [] !in heads
    ensures (a, b) in Image(ViewOf(s).edges, Collapse(heads)) <==>
            RenamedEdge(ViewOf(s).edges, StoredClass(s, heads, LeastHead(heads), members).causalClass, a, b)
  {
    hide Sound, NormalEdges, Collapse;
    KeysFacts(s);
    MergedReads(s, heads);
    var f, cls := Collapse(heads), StoredClass(s, heads, LeastHead(heads), members).causalClass;
    forall from, to | (from, to) in ViewOf(s).edges
      ensures Read(cls, from) == Apply(f, from) && Read(cls, to) == Apply(f, to)
    {
      EdgeHeads(s, from, to);
      HeadFacts(s, from);
      HeadFacts(s, to);
      MergedHeadStored(s, heads, from);
      MergedHeadStored(s, heads, to);
    }
    if RenamedEdge(ViewOf(s).edges, cls, a, b) {
      var from, to :| (from, to) in ViewOf(s).edges && Read(cls, from) == a && Read(cls, to) == b;
      assert (from, to).0 == from && (from, to).1 == to;
      assert (Apply(f, from), Apply(f, to)) in Image(ViewOf(s).edges, f);
    }
    if (a, b) in Image(ViewOf(s).edges, f) {
      var e :| e in ViewOf(s).edges && Apply(f, e.0) == a && Apply(f, e.1) == b;
      assert (e.0, e.1) in ViewOf(s).edges;
    }
  }

  lemma StoredClassKeeps(s: Store, heads: set<EventID>, members: seq<EventID>)
    requires Sound(s) && AreHeads(ViewOf(s), heads) && Consistent(WithClass(ViewOf(s), heads)) && [] !in heads
    requires StrictlySorted(members)
    requires forall id :: id in members <==> id in s.events && Rep(ViewOf(s), id) in heads
    ensures Sound(StoredClass(s, heads, LeastHead(heads), members))
    ensures ViewOf(StoredClass(s, heads, LeastHead(heads), members)) == WithClass(ViewOf(s), heads)
  {
    hide Consistent, EdgesAgree, ClassesAgree, LeastHead, Collapse, AreHeads, NormalEdges, StrictlySorted, ViewOf, Readable, WithClass;
    SoundView(s);
    KeysFacts(s);
    StoredClassEdges(s, heads, members);
    StoredClassClasses(s, heads, members);
    MergedReadable(s, heads, members);
  }

  lemma MergedReadable(s: Store, heads: set<EventID>, members: seq<EventID>)
    requires Sound(s) && AreHeads(ViewOf(s), heads) && [] !in heads
    ensures Readable(ViewOf(StoredClass(s, heads, LeastHead(heads), members)))
  {
    hide Sound, LeastHead, NormalEdges, EdgeSet;
    MergedReads(s, heads);
  }
}
