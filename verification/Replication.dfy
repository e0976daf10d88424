/** Replication by full snapshots (merge.go): what a fresh poset becomes by merging the
    snapshot of another, and when it reports nothing. */
module Replication {
  import opened Texts
  import opened JoinedKeys
  import opened Timings
  import opened Reachability
  import opened CausalOrder
  import opened Stamps
  import opened Stores
  import opened Operations
  import opened Merging
  import opened Convergence
  import opened Posets
  import opened Snapshots
  import opened Exports
  import Canonicals

  // ----- Framed keys -----

  lemma ColonPlace(a: Text, b: Text, s: Text, t: Text)
    requires a + [COLON] + s == b + [COLON] + t && COLON !in b
    ensures |a| >= |b|
  {
    assert (a + [COLON] + s)[|a|] == COLON;
  }

  /** The colon ends the length. */
  lemma LengthFramed(m: nat, n: nat, s: Text, t: Text)
    requires Decimal(m) + [COLON] + s == Decimal(n) + [COLON] + t
    ensures m == n && s == t
  {
    var a, b := Decimal(m), Decimal(n);
    DecimalDigits(m);
    DecimalDigits(n);
    ColonPlace(a, b, s, t);
    ColonPlace(b, a, t, s);
    var left, right := a + [COLON] + s, b + [COLON] + t;
    assert a == left[..|a|] == right[..|b|] == b;
    DecimalInjective(m, n);
    assert s == left[|a| + 1..] == right[|b| + 1..] == t;
  }

  lemma {:induction false} EndpointsInjective(a: seq<EventID>, b: seq<EventID>)
    requires |a| == |b| && EndpointKeys(a) == EndpointKeys(b)
    ensures a == b
  {
    if a != [] {
      hide Decimal;
      var x, y := EndpointKeys(a[1..]), EndpointKeys(b[1..]);
      assert EndpointKeys(a) == Decimal(|a[0]|) + [COLON] + (a[0] + x);
      assert EndpointKeys(b) == Decimal(|b[0]|) + [COLON] + (b[0] + y);
      LengthFramed(|a[0]|, |b[0]|, a[0] + x, b[0] + y);
      assert a[0] == (a[0] + x)[..|a[0]|] && b[0] == (b[0] + y)[..|b[0]|];
      assert x == (a[0] + x)[|a[0]|..] && y == (b[0] + y)[|b[0]|..];
      EndpointsInjective(a[1..], b[1..]);
      assert a == [a[0]] + a[1..] && b == [b[0]] + b[1..];
    }
  }

  /** Edge keys never confuse two edges, whatever bytes their endpoints hold. */
  lemma EdgeKeyInjective(a: seq<EventID>, b: seq<EventID>)
    requires EdgeKey(a) == EdgeKey(b)
    ensures a == b
  {
    hide Decimal, EndpointKeys;
    LengthFramed(|a|, |b|, EndpointKeys(a), EndpointKeys(b));
    EndpointsInjective(a, b);
  }

  // ----- Primary roles -----

  function InPrimaryRole(c: Content): Content {
    c.(observations := [Observation(c.source, c.name, c.params)])
  }

  function InPrimaryRoles(v: View): View {
    View(map id | id in v.contents :: InPrimaryRole(v.contents[id]), v.cls, v.edges)
  }

  lemma PrimaryRolesKeep(v: View)
    requires Consistent(v)
    ensures Consistent(InPrimaryRoles(v))
    ensures InPrimaryRoles(v) == v <==> forall id :: id in v.contents ==> Primary(v.contents[id])
  {
    hide Reach, Acyclic, Canonical, AtMost;
    var w := InPrimaryRoles(v);
    assert w.contents.Keys == v.contents.Keys;
    forall a, b ensures Before(w, a, b) <==> Before(v, a, b) {
    }
    forall a, b | Before(w, a, b) ensures !Clashing(w, a, b) {
      assert !Clashing(v, a, b);
    }
    if w == v {
      forall id | id in v.contents ensures Primary(v.contents[id]) {
        assert w.contents[id] == v.contents[id];
      }
    }
    if forall id :: id in v.contents ==> Primary(v.contents[id]) {
      forall id | id in v.contents ensures w.contents[id] == v.contents[id] {
      }
      assert w.contents == v.contents;
    }
  }

  // ----- The occurrences of a full snapshot -----

  /** The occurrence's export decodes and is not refused. */
  predicate Restorable(id: EventID, c: Content, readable: set<EventID>) {
    id != [] && c.name != [] && id in readable
  }

  ghost predicate AllRestorable(v: View, readable: set<EventID>) {
    forall id :: id in v.contents ==> Restorable(id, v.contents[id], readable)
  }

  lemma {:induction false} OccurrencesNone(events: seq<EventExport>, id: EventID)
    requires forall i :: 0 <= i < |events| ==> events[i].id != id
    ensures Occurrences(events, id) == 0
  {
    if events != [] {
      OccurrencesNone(events[1..], id);
    }
  }

  lemma {:induction false} OccurrencesOnce(events: seq<EventExport>, id: EventID)
    requires forall i, j :: 0 <= i < j < |events| ==> events[i].id != events[j].id
    ensures Occurrences(events, id) <= 1
  {
    if events != [] {
      if events[0].id == id {
        OccurrencesNone(events[1..], id);
      } else {
        OccurrencesOnce(events[1..], id);
      }
    }
  }

  lemma ExportedOnce(events: map<EventID, Event>, readable: set<EventID>, exports: seq<EventExport>, i: nat, j: nat)
    requires EventsExported(events, readable, exports) && i < j < |exports|
    ensures exports[i].id != exports[j].id
  {
    LessIrreflexive(exports[i].id);
    assert ExportLess(exports[i], exports[j]);
  }

  lemma StoredCanonical(v: View, events: map<EventID, Event>, id: EventID)
    requires Consistent(v) && v.contents == Contents(events) && id in events
    ensures id in v.contents && v.contents[id] == events[id].content && Canonical(v.contents[id].timings)
  {}

  lemma ExportAcceptable(v: View, events: map<EventID, Event>, readable: set<EventID>, exports: seq<EventExport>, e: EventExport)
    requires Consistent(v) && v.contents == Contents(events) && EventsExported(events, readable, exports) && e in exports
    ensures e.id in v.contents && (AcceptableEvent(exports, e) <==> Restorable(e.id, v.contents[e.id], readable))
    ensures Canonized(Imported(e)) == InPrimaryRole(v.contents[e.id]) && Canonical(e.timings)
    ensures e.lamport == events[e.id].lamport
  {
    hide Canonical, Admissible, Acyclic, TimingRule, Headed, EdgesJoinHeads;
    var i :| 0 <= i < |exports| && exports[i] == e;
    assert exports[i] == Exported(exports[i].id, events[exports[i].id], readable);
    forall j, k | 0 <= j < k < |exports| ensures exports[j].id != exports[k].id {
      ExportedOnce(events, readable, exports, j, k);
    }
    OccurrencesOnce(exports, e.id);
    StoredCanonical(v, events, e.id);
    CanonicalTimingsAdmissible(e.timings);
  }

  lemma {:induction false} AcceptedMembers(all: seq<EventExport>, events: seq<EventExport>)
    ensures forall id, c :: (id, c) in AcceptedEvents(all, events) <==>
              exists e :: e in events && AcceptableEvent(all, e) && e.id == id && Canonized(Imported(e)) == c
    decreases |events|
  {
    if events != [] {
      hide AcceptableEvent, Canonized, Imported;
      AcceptedMembers(all, events[1..]);
      assert events == [events[0]] + events[1..];
      forall id, c
        ensures (id, c) in AcceptedEvents(all, events) <==>
                exists e :: e in events && AcceptableEvent(all, e) && e.id == id && Canonized(Imported(e)) == c
      {
      }
    }
  }

  // ----- The classes of a full snapshot -----

  /** Classes of one view, each listed once. */
  ghost predicate ClassList(v: View, classes: seq<seq<EventID>>) {
    && (forall i :: 0 <= i < |classes| ==> Canonicals.ClassStated(v, classes[i]))
    && forall i, j :: 0 <= i < j < |classes| ==> classes[i] != classes[j]
  }

  lemma EachSorted(v: View, s: Snapshot)
    requires Canonicals.ClassesStated(v, s.classes)
    ensures seq(|s.classes|, i requires 0 <= i < |s.classes| => SortBy(Less, s.classes[i])) == s.classes
  {
    hide Canonicals.ClassStated, SortBy;
    forall i | 0 <= i < |s.classes| ensures SortBy(Less, s.classes[i]) == s.classes[i] {
      assert s.classes[i] in s.classes;
      StatedSorted(v, s.classes[i]);
      SortedAlready(s.classes[i]);
    }
  }

  lemma SortedClassList(v: View, s: Snapshot)
    requires Canonicals.ClassesStated(v, s.classes)
    ensures ClassList(v, SortedClasses(s)) && forall c :: c in SortedClasses(s) <==> c in s.classes
  {
    hide Canonicals.ClassStated, ClassKey, SortBy;
    EachSorted(v, s);
    FirstsDistinct(s.classes);
    SameList(s.classes, SortedClasses(s));
    forall i | 0 <= i < |SortedClasses(s)| ensures Canonicals.ClassStated(v, SortedClasses(s)[i]) {
      assert SortedClasses(s)[i] in SortedClasses(s);
    }
  }

  lemma StatedSorted(v: View, c: seq<EventID>)
    requires Canonicals.ClassStated(v, c)
    ensures |c| >= 2 && StrictlySorted(c) && Members(c) == ClassOf(v, c[0]) && c[0] in v.contents
  {}

  lemma FirstsDistinct(classes: seq<seq<EventID>>)
    requires StrictlySorted(Canonicals.Firsts(classes))
    ensures forall i, j :: 0 <= i < j < |classes| ==> classes[i] != classes[j]
  {
    hide StrictlySorted;
    forall i, j | 0 <= i < j < |classes| ensures classes[i] != classes[j] {
      SortedDistinct(Canonicals.Firsts(classes), i, j);
    }
  }

  lemma StatedApart(v: View, c: seq<EventID>, d: seq<EventID>)
    requires Canonicals.ClassStated(v, c) && Canonicals.ClassStated(v, d) && c != d
    ensures Members(c) !! Members(d)
  {
    hide StrictlySorted;
    if x :| x in Members(c) && x in Members(d) {
      assert Rep(v, c[0]) == Rep(v, x) == Rep(v, d[0]);
      assert Members(c) == Members(d);
      SortedUnique(c, d);
    }
  }

  /** No earlier class has this key. */
  ghost predicate FirstOfKey(classes: seq<seq<EventID>>, seenKeys: set<Text>, i: nat)
    requires i < |classes|
  {
    ClassKey(classes[i]) !in seenKeys && forall k :: 0 <= k < i ==> ClassKey(classes[k]) != ClassKey(classes[i])
  }

  ghost predicate AcceptedAt(classes: seq<seq<EventID>>, seenKeys: set<Text>, m: set<EventID>, i: nat)
    requires i < |classes|
  {
    Members(classes[i]) == m && FirstOfKey(classes, seenKeys, i)
  }

  ghost predicate Unseen(classes: seq<seq<EventID>>, seen: set<EventID>) {
    forall i :: 0 <= i < |classes| ==> Members(classes[i]) !! seen
  }

  lemma StatedValid(v: View, c: seq<EventID>, seen: set<EventID>)
    requires Canonicals.ClassStated(v, c) && [] !in v.contents && Members(c) !! seen
    ensures ValidClass(c, v.contents.Keys, seen)
  {
    forall i | 0 <= i < |c|
      ensures c[i] != [] && c[i] in v.contents && c[i] !in seen && (i > 0 ==> c[i] != c[i - 1])
    {
      assert c[i] in Members(c);
      if i > 0 {
        SortedDistinct(c, i - 1, i);
      }
    }
  }

  lemma LaterUnseen(v: View, classes: seq<seq<EventID>>, seen: set<EventID>)
    requires ClassList(v, classes) && classes != [] && Unseen(classes, seen)
    ensures ClassList(v, classes[1..]) && Unseen(classes[1..], seen) && Unseen(classes[1..], seen + Members(classes[0]))
  {
    hide Canonicals.ClassStated;
    forall i | 0 <= i < |classes[1..]| ensures Members(classes[1..][i]) !! seen + Members(classes[0]) {
      StatedApart(v, classes[0], classes[i + 1]);
    }
  }

  /** A class is dropped exactly when an earlier one has the same key. */
  lemma {:induction false} AcceptedFirsts(
      v: View, classes: seq<seq<EventID>>, seen: set<EventID>, seenKeys: set<Text>, m: set<EventID>)
    requires ClassList(v, classes) && [] !in v.contents && Unseen(classes, seen)
    ensures m in AcceptedClasses(classes, v.contents.Keys, seen, seenKeys) <==>
            exists i: nat :: i < |classes| && AcceptedAt(classes, seenKeys, m, i)
    decreases |classes|
  {
    if classes != [] {
      hide Canonicals.ClassStated, ClassKey, ValidClass, Unseen, ClassList;
      var c, rest := classes[0], classes[1..];
      LaterUnseen(v, classes, seen);
      FirstStated(v, classes, seen);
      StatedSorted(v, c);
      StatedValid(v, c, seen);
      var seenKeys' := if ClassKey(c) in seenKeys then seenKeys else seenKeys + {ClassKey(c)};
      AcceptedFirsts(v, rest, if ClassKey(c) in seenKeys then seen else seen + Members(c), seenKeys', m);
      forall i: nat | i < |rest| ensures AcceptedAt(rest, seenKeys', m, i) <==> AcceptedAt(classes, seenKeys, m, i + 1) {
        FirstShifts(classes, seenKeys, i);
      }
      assert AcceptedAt(classes, seenKeys, m, 0) <==> ClassKey(c) !in seenKeys && Members(c) == m;
      forall i: nat | 0 < i < |classes| && AcceptedAt(classes, seenKeys, m, i) ensures AcceptedAt(rest, seenKeys', m, i - 1) {
      }
    }
  }

  lemma FirstStated(v: View, classes: seq<seq<EventID>>, seen: set<EventID>)
    requires ClassList(v, classes) && classes != [] && Unseen(classes, seen)
    ensures Canonicals.ClassStated(v, classes[0]) && Members(classes[0]) !! seen
  {}

  lemma FirstShifts(classes: seq<seq<EventID>>, seenKeys: set<Text>, i: nat)
    requires classes != [] && i < |classes[1..]|
    ensures FirstOfKey(classes, seenKeys, i + 1) <==>
            FirstOfKey(classes[1..], if ClassKey(classes[0]) in seenKeys then seenKeys else seenKeys + {ClassKey(classes[0])}, i)
  {
    hide ClassKey;
    if FirstOfKey(classes, seenKeys, i + 1) {
      forall k | 0 <= k < i ensures ClassKey(classes[1..][k]) != ClassKey(classes[1..][i]) {
        assert ClassKey(classes[k + 1]) != ClassKey(classes[i + 1]);
      }
      assert ClassKey(classes[0]) != ClassKey(classes[i + 1]);
    }
    if FirstOfKey(classes[1..], if ClassKey(classes[0]) in seenKeys then seenKeys else seenKeys + {ClassKey(classes[0])}, i) {
      forall k | 0 <= k < i + 1 ensures ClassKey(classes[k]) != ClassKey(classes[i + 1]) {
        if k > 0 {
          assert ClassKey(classes[1..][k - 1]) != ClassKey(classes[1..][i]);
        }
      }
    }
  }

  /** Valid classes of which the first of every key merges raise no issue, dropped ones included. */
  lemma {:induction false} TakenClassesClean(
      w: View, v: View, classes: seq<seq<EventID>>, seen: set<EventID>, seenKeys: set<Text>)
    requires ClassList(v, classes) && [] !in v.contents && Unseen(classes, seen)
    requires TakesAll(w, ClassOps(AcceptedClasses(classes, v.contents.Keys, seen, seenKeys)))
    ensures ClassesClean(w, classes, v.contents.Keys, seen, seenKeys)
    decreases |classes|
  {
    if classes != [] {
      hide Canonicals.ClassStated, ClassKey, ValidClass, Unseen, ClassList, Takes, After;
      var c, rest := classes[0], classes[1..];
      LaterUnseen(v, classes, seen);
      FirstStated(v, classes, seen);
      StatedSorted(v, c);
      StatedValid(v, c, seen);
      if ClassKey(c) in seenKeys {
        TakenClassesClean(w, v, rest, seen, seenKeys);
      } else {
        var accepted := AcceptedClasses(rest, v.contents.Keys, seen + Members(c), seenKeys + {ClassKey(c)});
        ClassOpsStep(Members(c), accepted);
        TakesBoth(w, PutClass(Members(c)), ClassOps(accepted));
        TakenClassesClean(After(w, PutClass(Members(c))), v, rest, seen + Members(c), seenKeys + {ClassKey(c)});
      }
    }
  }

  // ----- The edges of a full snapshot -----

  ghost predicate EdgeList(edges: seq<seq<EventID>>) {
    forall e :: e in edges ==> WellFormedEdge(e)
  }

  lemma {:induction false} AcceptedEdgeMembers(edges: seq<seq<EventID>>, seenKeys: set<Text>, a: EventID, b: EventID)
    requires EdgeList(edges)
    ensures (a, b) in AcceptedEdges(edges, seenKeys) <==> [a, b] in edges && EdgeKey([a, b]) !in seenKeys
    decreases |edges|
  {
    if edges != [] {
      hide EdgeKey;
      var e, rest := edges[0], edges[1..];
      assert edges == [e] + rest && e in edges;
      assert EdgeList(rest);
      assert e == [e[0], e[1]];
      if EdgeKey(e) in seenKeys {
        AcceptedEdgeMembers(rest, seenKeys, a, b);
      } else {
        AcceptedEdgeMembers(rest, seenKeys + {EdgeKey(e)}, a, b);
        if EdgeKey([a, b]) == EdgeKey(e) {
          EdgeKeyInjective([a, b], e);
        }
      }
    }
  }

  lemma {:induction false} TakenEdgesClean(w: View, edges: seq<seq<EventID>>, seenKeys: set<Text>)
    requires EdgeList(edges) && TakesAll(w, EdgeOps(AcceptedEdges(edges, seenKeys)))
    ensures EdgesClean(w, edges, seenKeys)
    decreases |edges|
  {
    if edges != [] {
      hide EdgeKey, Takes, After;
      var e, rest := edges[0], edges[1..];
      assert e in edges && EdgeList(rest);
      if EdgeKey(e) in seenKeys {
        TakenEdgesClean(w, rest, seenKeys);
      } else {
        var accepted := AcceptedEdges(rest, seenKeys + {EdgeKey(e)});
        EdgeOpsStep((e[0], e[1]), accepted);
        TakesBoth(w, PutEdge(e[0], e[1]), EdgeOps(accepted));
        TakenEdgesClean(After(w, PutEdge(e[0], e[1])), rest, seenKeys + {EdgeKey(e)});
      }
    }
  }

  // ----- What a full snapshot states to a fresh poset -----

  ghost predicate StatesAll(v: View, events: map<EventID, Event>, readable: set<EventID>, s: Snapshot) {
    && v.contents == Contents(events) && EventsExported(events, readable, s.events)
    && Canonicals.ClassesStated(v, s.classes) && EdgesExported(v.edges, s.edges)
  }

  lemma StatedEvent(v: View, events: map<EventID, Event>, readable: set<EventID>, s: Snapshot, id: EventID, c: Content)
    requires Consistent(v) && StatesAll(v, events, readable, s)
    ensures (id, c) in Described(s, {}).events <==>
            id in v.contents && Restorable(id, v.contents[id], readable) && c == InPrimaryRole(v.contents[id])
  {
    hide Consistent, EventsExported, EdgesExported, Canonicals.ClassesStated, AcceptableEvent, Canonized, Imported, InPrimaryRole, AcceptedEvents, AcceptedClasses, AcceptedEdges, Ids, Restorable;
    AcceptedMembers(s.events, SortedEvents(s));
    SameMembers(SortedEvents(s), s.events);
    assert (id, c) in Described(s, {}).events <==> (id, c) in AcceptedEvents(s.events, SortedEvents(s));
    if (id, c) in AcceptedEvents(s.events, SortedEvents(s)) {
      var e :| e in SortedEvents(s) && AcceptableEvent(s.events, e) && e.id == id && Canonized(Imported(e)) == c;
      ExportAcceptable(v, events, readable, s.events, e);
    }
    if id in v.contents && Restorable(id, v.contents[id], readable) && c == InPrimaryRole(v.contents[id]) {
      var e := ExportOf(v, events, readable, s, id);
      ExportAcceptable(v, events, readable, s.events, e);
      assert e in SortedEvents(s);
    }
  }

  lemma ExportOf(v: View, events: map<EventID, Event>, readable: set<EventID>, s: Snapshot, id: EventID) returns (e: EventExport)
    requires StatesAll(v, events, readable, s) && id in v.contents
    ensures e in s.events && e.id == id
  {
    e :| e in s.events && e.id == id;
  }

  lemma StatedIds(v: View, events: map<EventID, Event>, readable: set<EventID>, s: Snapshot)
    requires Consistent(v) && StatesAll(v, events, readable, s)
    ensures Ids(Described(s, {}).events) == set id | id in v.contents && Restorable(id, v.contents[id], readable)
  {
    hide Consistent, StatesAll, InPrimaryRole, Described, Restorable;
    var listed := Described(s, {}).events;
    forall id ensures id in Ids(listed) <==> id in v.contents && Restorable(id, v.contents[id], readable) {
      if id in Ids(listed) {
        var i :| 0 <= i < |listed| && listed[i].0 == id;
        assert (id, listed[i].1) in listed;
        StatedEvent(v, events, readable, s, id, listed[i].1);
      }
      if id in v.contents && Restorable(id, v.contents[id], readable) {
        StatedEvent(v, events, readable, s, id, InPrimaryRole(v.contents[id]));
        var i :| 0 <= i < |listed| && listed[i] == (id, InPrimaryRole(v.contents[id]));
      }
    }
  }

  lemma RestorableIds(v: View, events: map<EventID, Event>, readable: set<EventID>, s: Snapshot)
    requires Consistent(v) && StatesAll(v, events, readable, s)
    ensures AllRestorable(v, readable) <==> Ids(Described(s, {}).events) == v.contents.Keys
    ensures AllRestorable(v, readable) ==> [] !in v.contents
  {
    hide Consistent, StatesAll, Described;
    StatedIds(v, events, readable, s);
    if Ids(Described(s, {}).events) == v.contents.Keys {
      forall id | id in v.contents ensures Restorable(id, v.contents[id], readable) {
        assert id in Ids(Described(s, {}).events);
      }
    }
  }

  lemma StatedEdges(v: View, s: Snapshot)
    requires Consistent(v) && EdgesExported(v.edges, s.edges) && [] !in v.contents
    ensures EdgeList(SortedEdges(s)) && Members(Described(s, {}).edges) == v.edges
  {
    hide Consistent, AcceptedEdges, AcceptedClasses, AcceptedEvents, EdgeKey;
    ConsistentShaped(v);
    SameMembers(SortedEdges(s), s.edges);
    forall e | e in SortedEdges(s) ensures WellFormedEdge(e) {
      assert IsEdgeExport(v.edges, e);
      EdgeJoins(v, e[0], e[1]);
    }
    forall a, b ensures (a, b) in AcceptedEdges(SortedEdges(s), {}) <==> (a, b) in v.edges {
      AcceptedEdgeMembers(SortedEdges(s), {}, a, b);
      if [a, b] in s.edges {
        assert IsEdgeExport(v.edges, [a, b]);
      }
    }
    forall e ensures e in Described(s, {}).edges <==> e in v.edges {
      var (a, b) := e;
    }
  }

  lemma EdgeJoins(v: View, a: EventID, b: EventID)
    requires Consistent(v) && (a, b) in v.edges
    ensures a in v.contents && b in v.contents && a != b
  {
    hide TimingRule, CanonicalTimings, AtMost;
    assert IsHead(v, a) && IsHead(v, b);
    assert Reach(v.edges, b, b);
  }

  /** No two listed classes share a key. */
  ghost predicate KeysApart(classes: seq<seq<EventID>>) {
    forall c, d :: c in classes && d in classes && ClassKey(c) == ClassKey(d) ==> c == d
  }

  /** What is stated of the classes is never more than the classes, and all of them exactly
      when their keys are apart. */
  lemma StatedClasses(v: View, events: map<EventID, Event>, readable: set<EventID>, s: Snapshot)
    requires Consistent(v) && StatesAll(v, events, readable, s) && AllRestorable(v, readable)
    ensures Described(s, {}).classes == AcceptedClasses(SortedClasses(s), v.contents.Keys, {}, {})
    ensures ClassList(v, SortedClasses(s)) && Unseen(SortedClasses(s), {})
    ensures forall m :: m in Described(s, {}).classes ==> exists c :: c in s.classes && Members(c) == m
    ensures KeysApart(s.classes) ==> forall c :: c in s.classes ==> Members(c) in Described(s, {}).classes
    ensures !KeysApart(s.classes) ==> exists c :: c in s.classes && Members(c) !in Described(s, {}).classes
  {
    hide Consistent, EventsExported, EdgesExported, AcceptedEvents, AcceptedClasses, AcceptedEdges, ClassKey, SortedClasses, SortedEvents, SortedEdges, Canonicals.ClassesStated, Restorable, Ids, ClassList;
    var sorted := SortedClasses(s);
    RestorableIds(v, events, readable, s);
    SortedClassList(v, s);
    assert {} + Ids(Described(s, {}).events) == v.contents.Keys;
    forall m ensures m in Described(s, {}).classes <==> exists i: nat :: i < |sorted| && AcceptedAt(sorted, {}, m, i) {
      AcceptedFirsts(v, sorted, {}, {}, m);
    }
    forall m | m in Described(s, {}).classes ensures exists c :: c in s.classes && Members(c) == m {
      var i: nat :| i < |sorted| && AcceptedAt(sorted, {}, m, i);
      assert sorted[i] in sorted;
    }
    if KeysApart(s.classes) {
      forall c | c in s.classes ensures Members(c) in Described(s, {}).classes {
        var i := ApartAccepted(v, sorted, c);
      }
    } else {
      var c, d :| c in s.classes && d in s.classes && ClassKey(c) == ClassKey(d) && c != d;
      CollidingDropped(v, sorted, c, d);
    }
  }

  lemma ApartAccepted(v: View, sorted: seq<seq<EventID>>, c: seq<EventID>) returns (i: nat)
    requires ClassList(v, sorted) && KeysApart(sorted) && c in sorted
    ensures i < |sorted| && AcceptedAt(sorted, {}, Members(c), i)
  {
    hide ClassKey;
    i :| 0 <= i < |sorted| && sorted[i] == c;
    forall k | 0 <= k < i ensures ClassKey(sorted[k]) != ClassKey(sorted[i]) {
      assert sorted[k] in sorted && sorted[i] in sorted;
    }
  }

  lemma AcceptedClassIs(v: View, sorted: seq<seq<EventID>>, i: nat, j: nat)
    requires ClassList(v, sorted) && i < |sorted| && j < |sorted| && Members(sorted[i]) == Members(sorted[j])
    ensures i == j
  {
    hide ClassKey, StrictlySorted;
    StatedSorted(v, sorted[i]);
    StatedSorted(v, sorted[j]);
    SortedUnique(sorted[i], sorted[j]);
  }

  /** Of two classes with one key, one is dropped. */
  lemma CollidingDropped(v: View, sorted: seq<seq<EventID>>, c: seq<EventID>, d: seq<EventID>)
    requires ClassList(v, sorted) && c in sorted && d in sorted && c != d && ClassKey(c) == ClassKey(d)
    ensures (forall i: nat :: i < |sorted| ==> !AcceptedAt(sorted, {}, Members(c), i)) ||
            (forall i: nat :: i < |sorted| ==> !AcceptedAt(sorted, {}, Members(d), i))
  {
    hide ClassKey, ClassList;
    var i :| 0 <= i < |sorted| && sorted[i] == c;
    var j :| 0 <= j < |sorted| && sorted[j] == d;
    var later := if i < j then j else i;
    forall k: nat | k < |sorted| ensures !AcceptedAt(sorted, {}, Members(sorted[later]), k) {
      if Members(sorted[k]) == Members(sorted[later]) {
        AcceptedClassIs(v, sorted, k, later);
      }
    }
  }

  // ----- The fresh poset after the merge -----

  ghost function Rebuilt(s: Snapshot): Replica {
    MergeInto(Replica(Empty, []), Described(s, {}))
  }

  lemma EventsVouched(v: View, events: map<EventID, Event>, readable: set<EventID>, s: Snapshot, i: nat)
    requires Consistent(v) && StatesAll(v, events, readable, s) && i < |Described(s, {}).events|
    ensures var (id, c) := Described(s, {}).events[i];
            id in v.contents && c == InPrimaryRoles(v).contents[id] && Canonical(c.timings)
  {
    hide Consistent, StatesAll, InPrimaryRole, Described, Restorable, Canonical;
    var (id, c) := Described(s, {}).events[i];
    assert (id, c) in Described(s, {}).events;
    StatedEvent(v, events, readable, s, id, c);
    PrimaryRolesKeep(v);
    HeldCanonical(InPrimaryRoles(v), id);
  }

  lemma ClassVouchedFor(v: View, s: Snapshot, c: seq<EventID>)
    requires Consistent(v) && Canonicals.ClassesStated(v, s.classes) && c in s.classes
    ensures Vouches(InPrimaryRoles(v), PutClass(Members(c))) && Members(c) <= v.contents.Keys
  {
    hide Consistent, Canonicals.ClassesStated, Equivalent;
    var w := InPrimaryRoles(v);
    PrimaryRolesKeep(v);
    ListedClass(v, s, c);
    ConsistentShaped(w);
    OwnClassVouched(w, c[0]);
    assert ClassOf(w, c[0]) == Members(c);
  }

  lemma EventsDescribed(v: View, events: map<EventID, Event>, readable: set<EventID>, s: Snapshot)
    requires Consistent(v) && StatesAll(v, events, readable, s)
    ensures var listed := Described(s, {}).events;
            forall i :: 0 <= i < |listed| ==> Vouches(InPrimaryRoles(v), PutEvent(listed[i].0, listed[i].1))
  {
    hide Consistent, StatesAll, Described, Canonical;
    var listed := Described(s, {}).events;
    forall i | 0 <= i < |listed| ensures Vouches(InPrimaryRoles(v), PutEvent(listed[i].0, listed[i].1)) {
      EventsVouched(v, events, readable, s, i);
    }
  }

  lemma ClassesDescribed(v: View, events: map<EventID, Event>, readable: set<EventID>, s: Snapshot)
    requires Consistent(v) && StatesAll(v, events, readable, s) && AllRestorable(v, readable)
    ensures forall m :: m in Described(s, {}).classes ==> Vouches(InPrimaryRoles(v), PutClass(m)) && m <= v.contents.Keys
  {
    hide Consistent, StatesAll, Described, AllRestorable, Vouches, KeysApart, Unseen, ClassList, InPrimaryRoles;
    StatedClasses(v, events, readable, s);
    StatesClasses(v, events, readable, s);
    forall m | m in Described(s, {}).classes ensures Vouches(InPrimaryRoles(v), PutClass(m)) && m <= v.contents.Keys {
      var c :| c in s.classes && Members(c) == m;
      ClassVouchedFor(v, s, c);
    }
  }

  lemma EdgesDescribed(v: View, events: map<EventID, Event>, readable: set<EventID>, s: Snapshot)
    requires Consistent(v) && StatesAll(v, events, readable, s) && AllRestorable(v, readable)
    ensures EdgesVouched(InPrimaryRoles(v), Described(s, {}).edges)
  {
    hide Consistent, StatesAll, Described, AllRestorable, Before, EdgeList, SortedEdges;
    var w, d := InPrimaryRoles(v), Described(s, {});
    PrimaryRolesKeep(v);
    OwnEdges(w);
    StatesEdges(v, events, readable, s);
    forall e | e in d.edges ensures Vouches(w, PutEdge(e.0, e.1)) {
      assert e in Members(d.edges);
      assert (e.0, e.1) in w.edges;
    }
  }

  lemma SnapshotDescribes(v: View, events: map<EventID, Event>, readable: set<EventID>, s: Snapshot)
    requires Consistent(v) && StatesAll(v, events, readable, s) && AllRestorable(v, readable)
    ensures Describes(InPrimaryRoles(v), Described(s, {}))
  {
    hide Consistent, StatesAll, Described, Ids, AllRestorable, Vouches, EdgesVouched, InPrimaryRoles;
    RestorableIds(v, events, readable, s);
    EventsDescribed(v, events, readable, s);
    ClassesDescribed(v, events, readable, s);
    EdgesDescribed(v, events, readable, s);
  }

  lemma StatesClasses(v: View, events: map<EventID, Event>, readable: set<EventID>, s: Snapshot)
    requires StatesAll(v, events, readable, s)
    ensures Canonicals.ClassesStated(v, s.classes)
  {}

  lemma HeldCanonical(w: View, id: EventID)
    requires Consistent(w) && id in w.contents
    ensures Canonical(w.contents[id].timings)
  {
    hide Canonical, Acyclic, TimingRule;
  }

  lemma StatesEdges(v: View, events: map<EventID, Event>, readable: set<EventID>, s: Snapshot)
    requires Consistent(v) && StatesAll(v, events, readable, s) && AllRestorable(v, readable)
    ensures EdgeList(SortedEdges(s)) && Members(Described(s, {}).edges) == v.edges
  {
    hide Consistent, EdgesExported, EventsExported, Canonicals.ClassesStated, Described, SortedEdges;
    RestorableIds(v, events, readable, s);
    StatedEdges(v, s);
  }

  lemma ListedClass(v: View, s: Snapshot, c: seq<EventID>)
    requires Canonicals.ClassesStated(v, s.classes) && c in s.classes
    ensures |c| >= 2 && c[0] in v.contents && Members(c) == ClassOf(v, c[0]) && c[0] != c[1] && c[1] in ClassOf(v, c[0])
  {
    hide StrictlySorted;
    assert Canonicals.ClassStated(v, c);
    SortedDistinct(c, 0, 1);
    assert c[1] in Members(c);
  }

  lemma ClassesInFull(v: View, events: map<EventID, Event>, readable: set<EventID>, s: Snapshot)
    requires Consistent(v) && StatesAll(v, events, readable, s) && AllRestorable(v, readable) && KeysApart(s.classes)
    ensures var w := InPrimaryRoles(v);
            forall m :: m in Described(s, {}).classes <==> exists id :: id in w.contents && m == ClassOf(w, id) && m != {id}
  {
    hide Consistent, StatesAll, Described, AllRestorable, KeysApart, Canonicals.ClassesStated, Unseen, ClassList;
    var w := InPrimaryRoles(v);
    StatedClasses(v, events, readable, s);
    StatesClasses(v, events, readable, s);
    forall m ensures m in Described(s, {}).classes <==> exists id :: id in w.contents && m == ClassOf(w, id) && m != {id} {
      if m in Described(s, {}).classes {
        var c :| c in s.classes && Members(c) == m;
        ListedClass(v, s, c);
        assert m == ClassOf(w, c[0]) && m != {c[0]};
      }
      if id :| id in w.contents && m == ClassOf(w, id) && m != {id} {
        ClassListed(v, s, id);
      }
    }
  }

  lemma SnapshotDescribesFully(v: View, events: map<EventID, Event>, readable: set<EventID>, s: Snapshot)
    requires Consistent(v) && StatesAll(v, events, readable, s) && AllRestorable(v, readable) && KeysApart(s.classes)
    ensures DescribesFully(InPrimaryRoles(v), Described(s, {}))
  {
    hide Consistent, StatesAll, Described, Ids, AllRestorable, KeysApart, Canonical, EdgeList, SortedEdges, ClassOf;
    var w, d := InPrimaryRoles(v), Described(s, {});
    forall i | 0 <= i < |d.events| ensures d.events[i].0 in w.contents && w.contents[d.events[i].0] == d.events[i].1 {
      EventsVouched(v, events, readable, s, i);
    }
    RestorableIds(v, events, readable, s);
    StatesEdges(v, events, readable, s);
    ClassesInFull(v, events, readable, s);
  }

  lemma ClassListed(v: View, s: Snapshot, id: EventID)
    requires Canonicals.ClassesStated(v, s.classes) && id in v.contents && ClassOf(v, id) != {id}
    ensures exists c :: c in s.classes && Members(c) == ClassOf(InPrimaryRoles(v), id)
  {
    hide StrictlySorted;
    var c :| c in s.classes && id in c;
    assert Canonicals.ClassStated(v, c) && id in Members(c);
    assert ClassOf(v, c[0]) == ClassOf(v, id) == ClassOf(InPrimaryRoles(v), id);
  }

  lemma RebuiltReplica(v: View, events: map<EventID, Event>, readable: set<EventID>, s: Snapshot)
    requires Consistent(v) && StatesAll(v, events, readable, s) && AllRestorable(v, readable)
    ensures TakesAll(Empty, MergeOps(Described(s, {}))) && Consistent(Rebuilt(s).view)
    ensures JoinsNoMore(Rebuilt(s).view, Members(Described(s, {}).classes))
  {
    hide Consistent, StatesAll, Described, Describes, AllRestorable, TakesAll, MergeOps, Within;
    var w, nothing := InPrimaryRoles(v), Raw(map[], {}, {});
    PrimaryRolesKeep(v);
    SnapshotDescribes(v, events, readable, s);
    EmptyConsistent();
    EmptyGenerated(w);
    MergeReplica(Replica(Empty, []), w, nothing, Described(s, {}));
  }

  /** The view's classes, but with one occurrence of `c` apart. */
  ghost function Split(v: View, c: seq<EventID>): map<EventID, EventID>
    requires |c| >= 2
  {
    map x | x in v.contents :: if x == c[1] then c[1] else if Rep(v, x) == Rep(v, c[0]) then c[0] else Rep(v, x)
  }

  lemma SplitConstant(v: View, s: Snapshot, c: seq<EventID>, d: seq<EventID>, a: EventID, b: EventID)
    requires Canonicals.ClassesStated(v, s.classes) && c in s.classes && d in s.classes && Members(c) != Members(d)
    requires |c| >= 2 && a in Members(d) && b in Members(d) && a in v.contents && b in v.contents
    ensures Split(v, c)[a] == Split(v, c)[b]
  {
    hide Canonicals.ClassesStated;
    ListedClass(v, s, c);
    ListedClass(v, s, d);
    assert Rep(v, a) == Rep(v, d[0]) == Rep(v, b);
    assert ClassOf(v, d[0]) != ClassOf(v, c[0]);
    assert Rep(v, c[1]) == Rep(v, c[0]);
  }

  /** A dropped class falls apart in the fresh poset. */
  lemma DroppedNotJoined(v: View, w: View, s: Snapshot, classes: set<set<EventID>>, c: seq<EventID>)
    requires Canonicals.ClassesStated(v, s.classes) && c in s.classes
    requires w.contents.Keys == v.contents.Keys && JoinsNoMore(w, classes)
    requires Members(c) !in classes && forall m :: m in classes ==> exists d :: d in s.classes && Members(d) == m
    ensures w.cls != v.cls
  {
    hide Canonicals.ClassesStated, Split;
    ListedClass(v, s, c);
    var g := Split(v, c);
    SplitApart(v, c);
    forall m, a, b | m in classes && a in m && b in m && a in g && b in g ensures g[a] == g[b] {
      var d :| d in s.classes && Members(d) == m;
      SplitConstant(v, s, c, d, a, b);
    }
    assert Coarser(classes, g);
    assert !Equivalent(w, c[0], c[1]);
  }

  lemma SplitApart(v: View, c: seq<EventID>)
    requires |c| >= 2 && c[0] in v.contents && c[1] in ClassOf(v, c[0]) && c[0] != c[1]
    ensures Split(v, c).Keys == v.contents.Keys && Split(v, c)[c[0]] != Split(v, c)[c[1]]
  {}

  /** Replication is exact, up to the roles a snapshot does not carry, precisely when every
      occurrence can be restored and no two classes share a key. */
  lemma SnapshotRebuilds(v: View, events: map<EventID, Event>, readable: set<EventID>, s: Snapshot)
    requires Consistent(v) && StatesAll(v, events, readable, s)
    ensures Rebuilt(s) == Replica(InPrimaryRoles(v), []) <==> AllRestorable(v, readable) && KeysApart(s.classes)
  {
    hide Consistent, StatesAll, Described, AllRestorable, KeysApart, DescribesFully, Canonicals.ClassesStated, TakesAll, Ids, JoinsNoMore, MergeOps, Run;
    var w := InPrimaryRoles(v);
    RestorableIds(v, events, readable, s);
    assert Empty.contents.Keys == {};
    MergedKeys(Empty, s, Described(s, {}));
    assert w.contents.Keys == v.contents.Keys;
    assert Rebuilt(s).view.contents.Keys == Ids(Described(s, {}).events);
    if AllRestorable(v, readable) {
      if KeysApart(s.classes) {
        SnapshotDescribesFully(v, events, readable, s);
        PrimaryRolesKeep(v);
        RebuildsExactly(w, Described(s, {}));
      } else {
        StatesClasses(v, events, readable, s);
        StatedClasses(v, events, readable, s);
        RebuiltReplica(v, events, readable, s);
        var c :| c in s.classes && Members(c) !in Described(s, {}).classes;
        DroppedNotJoined(v, Rebuilt(s).view, s, Members(Described(s, {}).classes), c);
      }
    }
  }

  // ----- What is reported -----

  lemma {:induction false} CleanAcceptable(v: View, all: seq<EventExport>, events: seq<EventExport>)
    requires EventsClean(v, all, events)
    ensures forall e :: e in events ==> AcceptableEvent(all, e)
    decreases |events|
  {
    if events != [] {
      hide AcceptableEvent, Contradicts, After;
      CleanAcceptable(After(v, PutEvent(events[0].id, Canonized(Imported(events[0])))), all, events[1..]);
      forall i | 0 <= i < |events| ensures AcceptableEvent(all, events[i]) {
        assert i > 0 ==> events[1..][i - 1] == events[i];
      }
    }
  }

  lemma {:induction false} AcceptableClean(v: View, all: seq<EventExport>, events: seq<EventExport>)
    requires forall e :: e in events ==> AcceptableEvent(all, e) && e.id !in v.contents
    requires forall i, j :: 0 <= i < j < |events| ==> events[i].id != events[j].id
    ensures EventsClean(v, all, events)
    decreases |events|
  {
    if events != [] {
      hide AcceptableEvent, Canonized, Imported;
      var e, rest := events[0], events[1..];
      assert events == [e] + rest && e in events;
      var w := After(v, PutEvent(e.id, Canonized(Imported(e))));
      AcceptedTakes(v, all, e);
      forall f | f in rest ensures AcceptableEvent(all, f) && f.id !in w.contents {
        assert f in events;
        var i :| 0 <= i < |rest| && rest[i] == f;
        assert events[0].id != events[i + 1].id;
      }
      AcceptableClean(w, all, rest);
    }
  }

  lemma ExportsReported(v: View, events: map<EventID, Event>, readable: set<EventID>, s: Snapshot)
    requires Consistent(v) && StatesAll(v, events, readable, s)
    ensures EventsClean(Empty, s.events, SortedEvents(s)) <==> AllRestorable(v, readable)
    ensures (forall e :: e in s.events ==> e.lamport <= s.highWater) <==> forall id :: id in events ==> events[id].lamport <= s.highWater
  {
    hide Consistent, AcceptableEvent, Restorable, EventsExported, EdgesExported, Canonicals.ClassesStated, EventsClean, ExportLess, Canonized, Imported, InPrimaryRole, SortedEvents;
    SortedOnce(events, readable, s);
    forall e | e in s.events
      ensures e.id in v.contents && (AcceptableEvent(s.events, e) <==> Restorable(e.id, v.contents[e.id], readable))
      ensures e.id in events && e.lamport == events[e.id].lamport
    {
      ExportAcceptable(v, events, readable, s.events, e);
    }
    if EventsClean(Empty, s.events, SortedEvents(s)) {
      CleanAcceptable(Empty, s.events, SortedEvents(s));
      forall id | id in v.contents ensures Restorable(id, v.contents[id], readable) {
        var e := ExportOf(v, events, readable, s, id);
        assert e in SortedEvents(s);
      }
    }
    if AllRestorable(v, readable) {
      AcceptableClean(Empty, s.events, SortedEvents(s));
    }
    forall id | id in events ensures exists e :: e in s.events && e.id == id {
      var e := ExportOf(v, events, readable, s, id);
    }
  }

  lemma SortedOnce(events: map<EventID, Event>, readable: set<EventID>, s: Snapshot)
    requires EventsExported(events, readable, s.events)
    ensures forall e :: e in SortedEvents(s) <==> e in s.events
    ensures forall i, j :: 0 <= i < j < |SortedEvents(s)| ==> SortedEvents(s)[i].id != SortedEvents(s)[j].id
  {
    hide EventsExported, ExportLess;
    forall i, j | 0 <= i < j < |s.events| ensures s.events[i].id != s.events[j].id {
      ExportedOnce(events, readable, s.events, i, j);
    }
    var sorted := SortedEvents(s);
    SameList(s.events, sorted);
    forall i, j | 0 <= i < j < |sorted| ensures sorted[i].id != sorted[j].id {
      assert sorted[i] in s.events && sorted[j] in s.events && sorted[i] != sorted[j];
    }
  }

  /** The merge into a fresh poset reports nothing precisely when every occurrence can be
      restored and no stamp exceeds the counter.  Classes lost to a shared key go unreported. */
  lemma SnapshotReports(v: View, events: map<EventID, Event>, readable: set<EventID>, s: Snapshot)
    requires Consistent(v) && StatesAll(v, events, readable, s)
    ensures MergesCleanly(s, Empty) <==>
            AllRestorable(v, readable) && forall id :: id in events ==> events[id].lamport <= s.highWater
  {
    hide Consistent, StatesAll, Described, AllRestorable, EventsClean, ClassesClean, EdgesClean, TakesAll, Run, SortedEvents, SortedClasses, SortedEdges, JoinsNoMore, ClassList, Unseen, KeysApart, EdgeList;
    assert Empty.contents.Keys == {};
    var d := Described(s, {});
    ExportsReported(v, events, readable, s);
    if AllRestorable(v, readable) {
      var v1 := Run(Empty, EventOps(d.events));
      RestorableIds(v, events, readable, s);
      RestoredKeys(s);
      RebuiltReplica(v, events, readable, s);
      TakesAppend(Empty, EventOps(d.events), ClassOps(d.classes) + EdgeOps(d.edges));
      TakesAppend(v1, ClassOps(d.classes), EdgeOps(d.edges));
      StatedClasses(v, events, readable, s);
      TakenClassesClean(v1, v, SortedClasses(s), {}, {});
      StatesEdges(v, events, readable, s);
      DescribedParts(s, Empty);
      TakenEdgesClean(Run(v1, ClassOps(d.classes)), SortedEdges(s), {});
    }
  }

  lemma RestoredKeys(s: Snapshot)
    ensures Run(Empty, EventOps(Described(s, {}).events)).contents.Keys == Ids(Described(s, {}).events)
  {
    hide Run, Ids, SortedEvents;
    EventsKeys(Empty, s.events, SortedEvents(s));
  }

  // ----- Stamps -----

  lemma {:induction false} StampedAll(f: Stamping, counter: nat, all: seq<EventExport>, events: seq<EventExport>)
    requires forall e :: e in events ==> AcceptableEvent(all, e) && e.id !in f
    requires forall i, j :: 0 <= i < j < |events| ==> events[i].id != events[j].id
    ensures var g := Stamped(f, counter, all, events).0;
            && (forall id :: id in f ==> id in g && g[id] == f[id])
            && (forall e :: e in events ==> e.id in g && g[e.id] == e.lamport)
            && (forall id :: id in g ==> id in f || exists e :: e in events && e.id == id)
    decreases |events|
  {
    if events != [] {
      hide AcceptableEvent;
      var e, rest := events[0], events[1..];
      assert events == [e] + rest && e in events;
      forall x | x in rest ensures AcceptableEvent(all, x) && x.id !in f[e.id := e.lamport] {
        assert x in events;
        var i :| 0 <= i < |rest| && rest[i] == x;
        assert events[0].id != events[i + 1].id;
      }
      StampedAll(f[e.id := e.lamport], if e.lamport > counter then e.lamport else counter, all, rest);
    }
  }

  /** The stamps a full snapshot carries are those of the poset. */
  lemma SnapshotStamps(v: View, events: map<EventID, Event>, readable: set<EventID>, s: Snapshot)
    requires Consistent(v) && StatesAll(v, events, readable, s) && AllRestorable(v, readable)
    ensures Stamped(map[], 0, s.events, SortedEvents(s)).0 == Lamports(events)
  {
    hide Consistent, AcceptableEvent, Restorable, EventsExported, EdgesExported, Canonicals.ClassesStated, ExportLess, Canonized, Imported, InPrimaryRole, SortedEvents, Stamped;
    SortedOnce(events, readable, s);
    forall e | e in SortedEvents(s)
      ensures AcceptableEvent(s.events, e) && e.id in events && e.lamport == events[e.id].lamport
    {
      ExportAcceptable(v, events, readable, s.events, e);
    }
    StampedAll(map[], 0, s.events, SortedEvents(s));
    var g := Stamped(map[], 0, s.events, SortedEvents(s)).0;
    forall id | id in events ensures id in g && g[id] == events[id].lamport {
      var e := ExportOf(v, events, readable, s, id);
      assert e in SortedEvents(s);
    }
  }

  lemma PrimaryRolesLawful(v: View, f: Stamping)
    requires Lawful(v, f)
    ensures Lawful(InPrimaryRoles(v), f)
  {
    var w := InPrimaryRoles(v);
    assert w.contents.Keys == v.contents.Keys;
    assert forall id :: Rep(w, id) == Rep(v, id);
    assert IncreasingBut(w, f, {}) && Uniform(w, f);
  }

  lemma SameStamps(v: View, f: Stamping, g: Stamping)
    requires Lawful(v, f) && LeastLawful(InPrimaryRoles(v), f, g)
    ensures g == f
  {
    hide Lawful, LeastLawful, InPrimaryRoles;
    PrimaryRolesLawful(v, f);
    LawfulIsLeast(InPrimaryRoles(v), f);
    LeastLawfulUnique(InPrimaryRoles(v), f, f, g);
  }

  // ----- Replication -----

  /** CreateSnapshot merged into a new poset: when the copy is exact, stamps included, and
      when the merge reports nothing. */
  method Replicate(p: Poset, readable: set<EventID>) returns (q: Poset, s: Snapshot, result: MergeResult)
    requires p.Valid()
    ensures fresh(q) && q.Valid() && IsSnapshotOf(p, readable, s)
    ensures ReplicaState(q) == Replica(InPrimaryRoles(p.View()), []) && q.Stamping() == p.Stamping() <==>
            AllRestorable(p.View(), readable) && KeysApart(s.classes)
    ensures result.issues == 0 <==>
              AllRestorable(p.View(), readable) && forall id :: id in p.events ==> p.events[id].lamport <= p.lamportCounter
  {
    hide Sound, Lawful, EventsExported, EdgesExported, AllRestorable, KeysApart, MergesCleanly, Described, InPrimaryRoles, Canonicals.ClassesStated, Stamped, LeastLawful;
    s := CreateSnapshot(p, readable);
    SoundConsistent(p.Stored());
    assert StatesAll(p.View(), p.events, readable, s);
    SnapshotRebuilds(p.View(), p.events, readable, s);
    SnapshotReports(p.View(), p.events, readable, s);
    q := new Poset();
    assert q.View().contents.Keys == {} && q.Stamping() == map[];
    result := MergeSnapshot(q, s);
    if AllRestorable(p.View(), readable) && KeysApart(s.classes) {
      SnapshotStamps(p.View(), p.events, readable, s);
      SameStamps(p.View(), p.Stamping(), q.Stamping());
    }
  }

  /** Two unrelated untimed events. */
  ghost function TwoEvents(a: EventID, b: EventID, content: Content): View {
    WithEvent(WithEvent(Empty, a, content), b, content)
  }

  /** Ordering the later one first is accepted, and raises the earlier one past it. */
  lemma AgainstOrder(a: EventID, b: EventID, content: Content, low: Stamping, f: Stamping)
    requires a != b && content.timings == [] && Consistent(TwoEvents(a, b, content))
    ensures var v := TwoEvents(a, b, content);
            && EdgeOutcome(v, b, a).Ok? && AfterEdge(v, b, a).contents == v.contents
            && (LeastLawful(AfterEdge(v, b, a), low, f) && b in low && b in f && a in f ==> f[a] > low[b])
  {
    hide Consistent, LeastLawful;
    var v := TwoEvents(a, b, content);
    assert !Reach(v.edges, a, b) by {
      var only: iset<EventID> := iset{a};
      assert Closed(v.edges, only) && b !in only;
    }
    EdgeConsistentIff(v, b, a);
    if LeastLawful(AfterEdge(v, b, a), low, f) && b in low && b in f && a in f {
      assert (b, a) in AfterEdge(v, b, a).edges;
      EdgeLifts(AfterEdge(v, b, a), low, f, b, a);
    }
  }

  lemma EdgeLifts(v: View, low: Stamping, f: Stamping, tail: EventID, head: EventID)
    requires LeastLawful(v, low, f) && (tail, head) in v.edges && tail in low && tail in f && head in f
    ensures f[head] > low[tail]
  {}

  lemma AddedPlain(v: View, id: EventID, content: Content)
    requires content.timings == []
    ensures Admissible(content.timings) && Canonized(content) == content
    ensures WithEvent(v, id, content).contents.Keys == v.contents.Keys + {id}
  {
    assert SortByClock([]) == [];
  }

  method AddTwo(a: EventID, b: EventID, content: Content) returns (p: Poset)
    requires a != b && content.timings == []
    ensures fresh(p) && p.Valid() && p.View() == TwoEvents(a, b, content)
    ensures b in p.Stamping() && p.Stamping()[b] == p.lamportCounter
  {
    hide Sound, ViewOf, Lawful, WithEvent, Canonized, Admissible;
    p := new Poset();
    AddedPlain(Empty, a, content);
    var first := p.AddEvent(Offer(a, content, []));
    AddedPlain(p.View(), b, content);
    var second := p.AddEvent(Offer(b, content, []));
  }

  /** Two events and one edge against their insertion order: a stamp outruns the counter. */
  method StampOutrunsCounter(a: EventID, b: EventID, content: Content) returns (p: Poset)
    requires a != b && content.timings == []
    ensures fresh(p) && p.Valid() && a in p.events && p.events[a].lamport > p.lamportCounter
  {
    hide Sound, ViewOf, Lawful, WithEvent, Consistent, EdgeOutcome, AfterEdge, LeastLawful;
    p := AddTwo(a, b, content);
    SoundConsistent(p.Stored());
    AddedPlain(Empty, a, content);
    AddedPlain(WithEvent(Empty, a, content), b, content);
    KeysFacts(p.Stored());
    ghost var low := p.Stamping();
    var third := p.AddCausal(b, a);
    KeysFacts(p.Stored());
    AgainstOrder(a, b, content, low, p.Stamping());
  }

  /** The snapshot of such a poset is reported, although nothing about it is malformed. */
  method OrdinarySnapshotReported(a: EventID, b: EventID, content: Content) returns (result: MergeResult)
    requires a != b && content.timings == []
    ensures result.issues > 0
  {
    hide Sound, ViewOf, Lawful, AllRestorable, KeysApart, IsSnapshotOf, InPrimaryRoles;
    var p := StampOutrunsCounter(a, b, content);
    var q, s;
    q, s, result := Replicate(p, {a, b});
  }
}
