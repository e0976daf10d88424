/** The canonical form of a poset and its parser (canonical.go): the form depends only on
    what the poset means, and rebuilding a poset from it loses nothing. */
module Canonicals {
  import opened Texts
  import opened JoinedKeys
  import opened Timings
  import opened Reachability
  import opened CausalOrder
  import opened Stores
  import opened Observations
  import opened Operations
  import opened Merging
  import opened Convergence
  import opened Posets
  import opened Depths

  datatype CanonicalEvent = CanonicalEvent(id: EventID, depth: nat, observations: seq<Observation>, timings: seq<EventTiming>)

  /** `preorder` and `timed` together are the format name. */
  datatype CanonicalPoset = CanonicalPoset(
    preorder: bool, timed: bool, events: seq<CanonicalEvent>, classes: seq<seq<EventID>>, edges: seq<(EventID, EventID)>)

  function EdgeKey(e: (EventID, EventID)): Text {
    PairKey(e.0, e.1)
  }

  function RoleKey(o: Observation): Text {
    PairKey(o.source, o.name)
  }

  function EventIds(events: seq<CanonicalEvent>): (ids: seq<EventID>)
    ensures |ids| == |events| && forall i :: 0 <= i < |ids| ==> ids[i] == events[i].id
  {
    seq(|events|, i requires 0 <= i < |events| => events[i].id)
  }

  // ----- What a canonical form states -----

  ghost predicate EventStated(v: View, e: CanonicalEvent) {
    && e.id in v.contents && IsDepth(v.edges, Rep(v, e.id), e.depth)
    && e.observations == Roles(v.contents[e.id]) && e.timings == v.contents[e.id].timings
  }

  /** Every event once, by identity. */
  ghost predicate EventsStated(v: View, events: seq<CanonicalEvent>) {
    && StrictlySorted(EventIds(events)) && Members(EventIds(events)) == v.contents.Keys
    && forall e :: e in events ==> EventStated(v, e)
  }

  ghost predicate ClassStated(v: View, class_: seq<EventID>) {
    |class_| >= 2 && StrictlySorted(class_) && class_[0] in v.contents && Members(class_) == ClassOf(v, class_[0])
  }

  function FirstOf(class_: seq<EventID>): EventID {
    if class_ == [] then [] else class_[0]
  }

  function Firsts(classes: seq<seq<EventID>>): (r: seq<EventID>)
    ensures |r| == |classes| && forall i :: 0 <= i < |r| ==> r[i] == FirstOf(classes[i])
  {
    seq(|classes|, i requires 0 <= i < |classes| => FirstOf(classes[i]))
  }

  /** Every class of two or more once, by least member. */
  ghost predicate ClassesStated(v: View, classes: seq<seq<EventID>>) {
    && StrictlySorted(Firsts(classes))
    && (forall c :: c in classes ==> ClassStated(v, c))
    && (forall id :: id in v.contents && ClassOf(v, id) != {id} ==> exists c :: c in classes && id in c)
  }

  function Keyed(edges: seq<(EventID, EventID)>): (r: seq<Text>)
    ensures |r| == |edges| && forall i :: 0 <= i < |r| ==> r[i] == EdgeKey(edges[i])
  {
    seq(|edges|, i requires 0 <= i < |edges| => EdgeKey(edges[i]))
  }

  /** Every edge once, by key. */
  ghost predicate EdgesStated(v: View, edges: seq<(EventID, EventID)>) {
    StrictlySorted(Keyed(edges)) && Members(edges) == v.edges
  }

  ghost predicate IsCanonical(v: View, c: CanonicalPoset) {
    && EventsStated(v, c.events) && ClassesStated(v, c.classes) && EdgesStated(v, c.edges)
    && (c.preorder <==> c.classes != [])
    && (c.timed <==> exists e :: e in c.events && e.timings != [])
  }

  /** What the form keeps of a view: everything but wall time and which role is primary. */
  ghost predicate SameMeaning(v: View, w: View) {
    && v.contents.Keys == w.contents.Keys && v.cls == w.cls && v.edges == w.edges
    && forall id :: id in v.contents ==>
         Roles(v.contents[id]) == Roles(w.contents[id]) && v.contents[id].timings == w.contents[id].timings
  }

  // ----- The form determines the meaning and the meaning the form -----

  lemma SameEvents(v: View, w: View, a: seq<CanonicalEvent>, b: seq<CanonicalEvent>)
    requires EventsStated(v, a) && EventsStated(w, b) && SameMeaning(v, w)
    ensures a == b
  {
    hide Roles, IsDepth;
    SortedUnique(EventIds(a), EventIds(b));
    forall i | 0 <= i < |a| ensures a[i] == b[i] {
      assert EventIds(a)[i] == EventIds(b)[i];
      assert a[i] in a && b[i] in b;
      IsDepthUnique(v.edges, Rep(v, a[i].id), a[i].depth, b[i].depth);
    }
  }

  lemma ClassFromFirst(v: View, w: View, c: seq<EventID>, d: seq<EventID>)
    requires ClassStated(v, c) && ClassStated(w, d) && SameMeaning(v, w) && c[0] == d[0]
    ensures c == d
  {
    hide Roles;
    SortedUnique(c, d);
  }

  /** The least members of the classes of two or more. */
  ghost function ClassHeads(v: View): set<EventID> {
    set id | id in v.contents && Rep(v, id) == id && ClassOf(v, id) != {id}
  }

  lemma FirstIsHead(v: View, c: seq<EventID>)
    requires Shaped(v) && ClassStated(v, c)
    ensures Rep(v, c[0]) == c[0] && ClassOf(v, c[0]) != {c[0]}
  {
    hide CanonicalTimings, EdgesJoinHeads;
    HeadIsLeast(c);
    SortedDistinct(c, 0, 1);
    assert c[0] in Members(c) && c[1] in Members(c);
    var h := Rep(v, c[0]);
    assert IsHead(v, v.cls[c[0]]) && h in ClassOf(v, c[0]);
    assert AtMost(c[0], h) && AtMost(h, c[0]);
    LessAsymmetric(c[0], h);
  }

  lemma FirstsAreHeads(v: View, classes: seq<seq<EventID>>)
    requires Shaped(v) && ClassesStated(v, classes)
    ensures Members(Firsts(classes)) == ClassHeads(v)
  {
    hide CanonicalTimings, EdgesJoinHeads, AtMost, StrictlySorted;
    forall i | 0 <= i < |classes| ensures Firsts(classes)[i] in ClassHeads(v) {
      assert classes[i] in classes;
      FirstIsHead(v, classes[i]);
    }
    forall id | id in ClassHeads(v) ensures id in Firsts(classes) {
      var c :| c in classes && id in c;
      FirstIsHead(v, c);
      assert id in Members(c);
      var i :| 0 <= i < |classes| && classes[i] == c;
      assert Firsts(classes)[i] == c[0] == id;
    }
  }

  lemma SameClasses(v: View, w: View, a: seq<seq<EventID>>, b: seq<seq<EventID>>)
    requires Shaped(v) && Shaped(w) && ClassesStated(v, a) && ClassesStated(w, b) && SameMeaning(v, w)
    ensures a == b
  {
    hide Shaped, Roles, StrictlySorted, ClassStated;
    FirstsAreHeads(v, a);
    FirstsAreHeads(w, b);
    assert ClassHeads(v) == ClassHeads(w);
    SortedUnique(Firsts(a), Firsts(b));
    forall i | 0 <= i < |a| ensures a[i] == b[i] {
      assert a[i] in a && b[i] in b && Firsts(a)[i] == Firsts(b)[i];
      StatedNonempty(v, a[i]);
      StatedNonempty(w, b[i]);
      ClassFromFirst(v, w, a[i], b[i]);
    }
  }

  lemma StatedNonempty(v: View, c: seq<EventID>)
    requires ClassStated(v, c)
    ensures |c| >= 2
  {}

  lemma SameEdgeLists(a: seq<(EventID, EventID)>, b: seq<(EventID, EventID)>)
    requires StrictlySorted(Keyed(a)) && StrictlySorted(Keyed(b)) && Members(a) == Members(b)
    ensures a == b
  {
    hide StrictlySorted, EdgeKey;
    KeyedMembers(a);
    KeyedMembers(b);
    assert forall e :: e in a <==> e in Members(a);
    assert forall e :: e in b <==> e in Members(b);
    SortedUnique(Keyed(a), Keyed(b));
    forall i | 0 <= i < |a| ensures a[i] == b[i] {
      assert a[i] in Members(b);
      var j :| 0 <= j < |b| && b[j] == a[i];
      KeyOnce(a, b, i, j);
    }
  }

  lemma KeyedMembers(edges: seq<(EventID, EventID)>)
    ensures Members(Keyed(edges)) == set e | e in edges :: EdgeKey(e)
  {
    hide EdgeKey;
    forall i | 0 <= i < |edges| ensures Keyed(edges)[i] in set e | e in edges :: EdgeKey(e) {
      assert edges[i] in edges;
    }
    forall e | e in edges ensures EdgeKey(e) in Keyed(edges) {
      var i :| 0 <= i < |edges| && edges[i] == e;
      assert Keyed(edges)[i] == EdgeKey(e);
    }
  }

  lemma KeyOnce(a: seq<(EventID, EventID)>, b: seq<(EventID, EventID)>, i: nat, j: nat)
    requires i < |a| && j < |b| && b[j] == a[i] && Keyed(a) == Keyed(b) && StrictlySorted(Keyed(b)) && |a| == |b|
    ensures i == j
  {
    assert Keyed(a)[i] == Keyed(b)[i] && Keyed(b)[j] == EdgeKey(b[j]);
    LessIrreflexive(Keyed(b)[j]);
  }

  /** Two posets have one canonical form exactly when they mean the same: insertion order,
      wall time and storage leave no trace, and nothing else is lost. */
  lemma CanonicalIffSameMeaning(v: View, w: View, c: CanonicalPoset, d: CanonicalPoset)
    requires Shaped(v) && Shaped(w) && IsCanonical(v, c) && IsCanonical(w, d)
    ensures c == d <==> SameMeaning(v, w)
  {
    hide Shaped, EventsStated, ClassesStated, EdgesStated, SameMeaning;
    if SameMeaning(v, w) {
      assert c.events == d.events by { SameEvents(v, w, c.events, d.events); }
      assert c.classes == d.classes by { SameClasses(v, w, c.classes, d.classes); }
      assert c.edges == d.edges by { MeaningEdges(v, w, c.edges, d.edges); }
    }
    if c == d {
      FormMeaning(v, w, c);
    }
  }

  lemma MeaningEdges(v: View, w: View, a: seq<(EventID, EventID)>, b: seq<(EventID, EventID)>)
    requires EdgesStated(v, a) && EdgesStated(w, b) && SameMeaning(v, w)
    ensures a == b
  {
    hide Roles, StrictlySorted;
    SameEdgeLists(a, b);
  }

  lemma FormMeaning(v: View, w: View, c: CanonicalPoset)
    requires Shaped(v) && Shaped(w) && IsCanonical(v, c) && IsCanonical(w, c)
    ensures SameMeaning(v, w)
  {
    hide Shaped, Roles, ClassesStated, StrictlySorted, IsDepth;
    forall id | id in v.contents
      ensures Roles(v.contents[id]) == Roles(w.contents[id]) && v.contents[id].timings == w.contents[id].timings
    {
      assert id in Members(EventIds(c.events));
      var i :| 0 <= i < |c.events| && EventIds(c.events)[i] == id;
      assert c.events[i] in c.events;
    }
    FormClasses(v, w, c.classes);
  }

  lemma FormClasses(v: View, w: View, classes: seq<seq<EventID>>)
    requires Shaped(v) && Shaped(w) && ClassesStated(v, classes) && ClassesStated(w, classes)
    requires v.contents.Keys == w.contents.Keys
    ensures v.cls == w.cls
  {
    hide CanonicalTimings, EdgesJoinHeads, AtMost, StrictlySorted, ClassStated, ClassOf;
    forall id | id in v.contents ensures Rep(v, id) == Rep(w, id) {
      if c :| c in classes && id in c {
        ListedRep(v, c, id);
        ListedRep(w, c, id);
      } else {
        LoneRep(v, id);
        LoneRep(w, id);
      }
    }
    assert v.cls.Keys == w.cls.Keys;
  }

  lemma ListedRep(v: View, c: seq<EventID>, id: EventID)
    requires Shaped(v) && ClassStated(v, c) && id in c
    ensures Rep(v, id) == c[0]
  {
    FirstIsHead(v, c);
    assert id in Members(c);
  }

  lemma LoneRep(v: View, id: EventID)
    requires Shaped(v) && id in v.contents && ClassOf(v, id) == {id}
    ensures Rep(v, id) == id
  {
    RepFacts(v, id);
    assert Rep(v, id) in ClassOf(v, id);
  }

  // ----- Building the form -----

  method CanonicalEvents(p: Poset, depths: map<EventID, nat>) returns (events: seq<CanonicalEvent>, timed: bool)
    requires Sound(p.Stored()) && depths.Keys == p.events.Keys
    requires forall id :: id in p.events ==> IsDepth(p.View().edges, Rep(p.View(), id), depths[id])
    ensures EventsStated(p.View(), events)
    ensures timed <==> exists e :: e in events && e.timings != []
  {
    hide Sound, IsDepth, Roles;
    KeysFacts(p.Stored());
    var ids := Sort(p.events.Keys);
    events, timed := [], false;
    for i := 0 to |ids|
      invariant EventIds(events) == ids[..i]
      invariant forall e :: e in events ==> EventStated(p.View(), e)
      invariant timed <==> exists e :: e in events && e.timings != []
    {
      TakeOneMore(ids, i);
      var c := p.events[ids[i]].content;
      var e := CanonicalEvent(ids[i], depths[ids[i]], Roles(c), c.timings);
      ghost var before := events;
      events := events + [e];
      assert e in events;
      if c.timings != [] {
        timed := true;
      }
      assert EventIds(events) == EventIds(before) + [e.id];
    }
    TakeAll(ids);
  }

  method CanonicalClasses(p: Poset) returns (classes: seq<seq<EventID>>)
    requires Sound(p.Stored())
    ensures ClassesStated(p.View(), classes)
  {
    hide Sound, ViewOf, ClassStated, StrictlySorted;
    var heads := Sort(p.classMembers.Keys);
    classes := [];
    ghost var listed: seq<EventID> := [];
    assert StrictlySorted(Firsts([])) by { NothingSorted(); }
    for i := 0 to |heads|
      invariant forall c :: c in classes ==> ClassStated(p.View(), c)
      invariant StrictlySorted(Firsts(classes)) && forall c :: c in classes ==> FirstOf(c) in heads[..i]
      invariant forall k :: 0 <= k < i && |p.classMembers[heads[k]]| >= 2 ==> p.classMembers[heads[k]] in classes
    {
      TakeOneMore(heads, i);
      var members := p.classMembers[heads[i]];
      if |members| > 1 {
        MembersStated(p, heads[i]);
        FirstsGrow(classes, members, heads, i);
        classes := classes + [members];
      }
    }
    AllClassesListed(p, heads, classes);
  }

  lemma NothingSorted()
    ensures StrictlySorted(Firsts([]))
  {}

  lemma MembersStated(p: Poset, head: EventID)
    requires Sound(p.Stored()) && head in p.classMembers && |p.classMembers[head]| > 1
    ensures ClassStated(p.View(), p.classMembers[head]) && p.classMembers[head][0] == head
  {
    hide Sound, ViewOf, StrictlySorted;
    KeysFacts(p.Stored());
    MemberFacts(p.Stored(), head);
    OwnClassLeast(p, head);
    assert Members(p.classMembers[head]) == ClassOf(p.View(), head);
  }

  lemma FirstsGrow(classes: seq<seq<EventID>>, members: seq<EventID>, heads: seq<EventID>, i: nat)
    requires StrictlySorted(heads) && i < |heads| && members != [] && members[0] == heads[i]
    requires StrictlySorted(Firsts(classes)) && forall c :: c in classes ==> FirstOf(c) in heads[..i]
    ensures StrictlySorted(Firsts(classes + [members]))
  {
    var grown := Firsts(classes + [members]);
    forall a, b | 0 <= a < b < |grown| ensures Less(grown[a], grown[b]) {
      if b < |classes| {
        assert grown[a] == Firsts(classes)[a] && grown[b] == Firsts(classes)[b];
      } else {
        assert classes[a] in classes;
        var k :| 0 <= k < i && heads[..i][k] == FirstOf(classes[a]);
      }
    }
  }

  lemma SmallMembers(members: seq<EventID>, id: EventID)
    requires id in members
    ensures |members| < 2 ==> Members(members) == {id}
  {
    if |members| == 1 {
      assert members == [id];
    }
  }

  lemma AllClassesListed(p: Poset, heads: seq<EventID>, classes: seq<seq<EventID>>)
    requires Sound(p.Stored()) && Members(heads) == p.classMembers.Keys
    requires forall k :: 0 <= k < |heads| && |p.classMembers[heads[k]]| >= 2 ==> p.classMembers[heads[k]] in classes
    ensures forall id :: id in p.View().contents && ClassOf(p.View(), id) != {id} ==> exists c :: c in classes && id in c
  {
    hide Sound, ViewOf, StrictlySorted;
    KeysFacts(p.Stored());
    forall id | id in p.View().contents && ClassOf(p.View(), id) != {id} ensures exists c :: c in classes && id in c {
      ClassFacts(p.Stored(), id);
      var r := Rep(p.View(), id);
      MemberFacts(p.Stored(), r);
      var members := p.classMembers[r];
      assert id in members && Members(members) == ClassOf(p.View(), id);
      assert r in Members(heads);
      var k :| 0 <= k < |heads| && heads[k] == r;
      SmallMembers(members, id);
    }
  }

  // ----- Edge keys -----

  /** Identities without NUL bytes, as keys joined by NUL need. */
  ghost predicate PlainIds(v: View) {
    forall id :: id in v.contents ==> NulFree(id)
  }

  /** No two edges share a key. */
  ghost predicate EdgeKeysApart(edges: set<(EventID, EventID)>) {
    forall e, f :: e in edges && f in edges && EdgeKey(e) == EdgeKey(f) ==> e == f
  }

  /** Identities without NUL bytes suffice. */
  lemma PlainEdgesApart(v: View)
    requires Shaped(v) && PlainIds(v)
    ensures EdgeKeysApart(v.edges)
  {
    hide NulFree, CanonicalTimings, AtMost;
    forall e, f | e in v.edges && f in v.edges && EdgeKey(e) == EdgeKey(f) ensures e == f {
      assert (e.0, e.1) in v.edges && (f.0, f.1) in v.edges;
      assert IsHead(v, e.0) && IsHead(v, f.0);
      PlainPairs(e.0, e.1, f.0, f.1);
    }
  }

  /** The edges by key: the last writer of a key wins. */
  method EdgesByKey(edges: set<(EventID, EventID)>) returns (byKey: map<Text, (EventID, EventID)>)
    ensures forall k :: k in byKey ==> byKey[k] in edges && EdgeKey(byKey[k]) == k
    ensures forall e :: e in edges ==> EdgeKey(e) in byKey
  {
    hide EdgeKey;
    byKey := map[];
    var rest := edges;
    while rest != {}
      invariant rest <= edges
      invariant forall k :: k in byKey ==> byKey[k] in edges && EdgeKey(byKey[k]) == k
      invariant forall e :: e in edges && e !in rest ==> EdgeKey(e) in byKey
      decreases rest
    {
      var e :| e in rest;
      rest := rest - {e};
      byKey := byKey[EdgeKey(e) := e];
    }
  }

  /** Some of the edges, each once by key. */
  ghost predicate EdgesListed(v: View, edges: seq<(EventID, EventID)>) {
    StrictlySorted(Keyed(edges)) && Members(edges) <= v.edges
  }

  method CanonicalEdges(p: Poset) returns (edges: seq<(EventID, EventID)>)
    requires Sound(p.Stored())
    ensures EdgesListed(p.View(), edges)
    ensures EdgesStated(p.View(), edges) <==> EdgeKeysApart(p.View().edges)
  {
    hide Sound, EdgeKey, StrictlySorted;
    var stored := set a, b | a in p.causalEdges && b in p.causalEdges[a] && p.Representative(a) != p.Representative(b)
                    :: (p.Representative(a), p.Representative(b));
    StoredEdges(p, stored);
    var byKey := EdgesByKey(stored);
    var keys := Sort(byKey.Keys);
    assert forall i :: 0 <= i < |keys| ==> keys[i] in Members(keys);
    edges := seq(|keys|, i requires 0 <= i < |keys| => byKey[keys[i]]);
    assert Keyed(edges) == keys;
    if EdgeKeysApart(stored) {
      forall e | e in stored ensures e in edges {
        assert EdgeKey(e) in Members(keys);
        var i :| 0 <= i < |keys| && keys[i] == EdgeKey(e);
        assert edges[i] in stored && EdgeKey(edges[i]) == EdgeKey(e);
      }
      assert Members(edges) == stored;
    }
    if EdgesStated(p.View(), edges) {
      StatedApart(p.View(), edges);
    }
  }

  lemma StatedApart(v: View, edges: seq<(EventID, EventID)>)
    requires EdgesStated(v, edges)
    ensures EdgeKeysApart(v.edges)
  {
    hide EdgeKey, StrictlySorted;
    forall e, f | e in v.edges && f in v.edges && EdgeKey(e) == EdgeKey(f) ensures e == f {
      assert e in Members(edges) && f in Members(edges);
      var i :| 0 <= i < |edges| && edges[i] == e;
      var j :| 0 <= j < |edges| && edges[j] == f;
      if i != j {
        SortedDistinct(Keyed(edges), if i < j then i else j, if i < j then j else i);
      }
    }
  }

  /** As many edges as are listed by key are all there are. */
  lemma ListedAll(v: View, edges: seq<(EventID, EventID)>)
    requires EdgesListed(v, edges) && |v.edges| <= |edges|
    ensures EdgesStated(v, edges)
  {
    hide EdgeKey, StrictlySorted;
    forall i, j | 0 <= i < j < |edges| ensures edges[i] != edges[j] {
      SortedDistinct(Keyed(edges), i, j);
    }
    DistinctCount(edges);
    if e :| e in v.edges && e !in Members(edges) {
      StrictSubsetSmaller(Members(edges), v.edges, e);
    }
  }

  /** What is stored under representatives is the view's edges. */
  lemma StoredEdges(p: Poset, stored: set<(EventID, EventID)>)
    requires Sound(p.Stored())
    requires stored == set a, b | a in p.causalEdges && b in p.causalEdges[a] && p.Representative(a) != p.Representative(b)
                         :: (p.Representative(a), p.Representative(b))
    ensures stored == p.View().edges
  {
    hide Sound, ViewOf;
    forall a, b | a in p.causalEdges && b in p.causalEdges[a]
      ensures p.Representative(a) == a && p.Representative(b) == b && a != b && (a, b) in p.View().edges
    {
      EdgeStored(p.Stored(), a, b);
      EdgeHeads(p.Stored(), a, b);
      KeysFacts(p.Stored());
      MemberFacts(p.Stored(), a);
      MemberFacts(p.Stored(), b);
      ClassFacts(p.Stored(), a);
      ClassFacts(p.Stored(), b);
    }
    forall e | e in p.View().edges ensures e in stored {
      assert (e.0, e.1) in p.View().edges;
      EdgeStored(p.Stored(), e.0, e.1);
    }
  }

  /** A form that may leave out edges whose key another edge took. */
  ghost predicate IsForm(v: View, c: CanonicalPoset) {
    && EventsStated(v, c.events) && ClassesStated(v, c.classes) && EdgesListed(v, c.edges)
    && (c.preorder <==> c.classes != [])
    && (c.timed <==> exists e :: e in c.events && e.timings != [])
  }

  /** Canonical: never fails on a poset reached through its operations, and states it in
      full exactly when no two of its edges share a key. */
  method CanonicalForm(p: Poset) returns (cyclic: bool, c: CanonicalPoset)
    requires Sound(p.Stored())
    ensures !cyclic && IsForm(p.View(), c) && (IsCanonical(p.View(), c) <==> EdgeKeysApart(p.View().edges))
  {
    hide Sound, ViewOf, EventsStated, ClassesStated, EdgesStated, EdgesListed, EdgeKeysApart;
    var depths;
    cyclic, depths := CausalDepths(p);
    c := CanonicalPoset(false, false, [], [], []);
    if !cyclic {
      var classes := CanonicalClasses(p);
      var events, timed := CanonicalEvents(p, depths);
      var edges := CanonicalEdges(p);
      c := CanonicalPoset(classes != [], timed, events, classes, edges);
    }
  }
}
