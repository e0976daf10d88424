/** What merging a snapshot takes over and what it reports (merge.go), field by field, without
    regard to the order of its passes. */
module SnapshotLaws {
  import opened Texts
  import opened JoinedKeys
  import opened Timings
  import opened CausalOrder
  import opened Operations
  import opened Merging
  import opened Convergence
  import opened Snapshots
  import opened Replication

  // ----- Events -----

  /** An occurrence as an export states it, roles aside. */
  ghost predicate States(e: EventExport, c: Content) {
    && c.name == e.name && c.source == e.source && c.params == e.params && c.wallTime == e.wallTime
    && Canonical(c.timings) && multiset(c.timings) == multiset(e.timings)
  }

  /** What a single export must be like, whatever else is listed. */
  ghost predicate WellFormedExport(e: EventExport) {
    e.id != [] && e.decodable && e.name != [] && Admissible(e.timings)
  }

  ghost predicate ListedOnce(events: seq<EventExport>) {
    forall i, j :: 0 <= i < j < |events| ==> events[i].id != events[j].id
  }

  lemma SortedStates(e: EventExport, ts: seq<EventTiming>)
    requires Admissible(e.timings) && Canonical(ts)
    ensures ts == SortByClock(e.timings) <==> multiset(ts) == multiset(e.timings)
  {
    hide Canonical, Admissible, SortByClock;
    AdmissibleSorts(e.timings);
    if multiset(ts) == multiset(e.timings) {
      CanonicalUnique(ts, SortByClock(e.timings));
    }
  }

  /** A known occurrence contradicts an export exactly when they differ in name, source,
      parameters, intervals or wall time: roles do not matter. */
  lemma ContradictsIff(v: View, e: EventExport)
    requires Consistent(v) && Admissible(e.timings)
    ensures Contradicts(v, e) <==> e.id in v.contents && !States(e, v.contents[e.id])
    ensures Contradicts(v, e) <==> e.id in v.contents && !SameOccurrence(Canonized(Imported(e)), v.contents[e.id])
  {
    hide Consistent, Canonical, Admissible, SortByClock;
    if e.id in v.contents {
      KnownCanonical(v, e.id);
      SortedStates(e, v.contents[e.id].timings);
    }
  }

  lemma KnownCanonical(v: View, id: EventID)
    requires Consistent(v) && id in v.contents
    ensures Canonical(v.contents[id].timings)
  {
    hide Canonical;
    ConsistentShaped(v);
  }

  lemma ImportStates(e: EventExport)
    requires Admissible(e.timings)
    ensures States(e, Canonized(Imported(e)))
    ensures Canonized(Imported(e)).observations == [Observation(e.source, e.name, e.params)]
  {
    hide Canonical, Admissible, SortByClock;
    AdmissibleSorts(e.timings);
  }

  lemma {:induction false} CountIff(events: seq<EventExport>, id: EventID)
    ensures Occurrences(events, id) >= 1 <==> exists i :: 0 <= i < |events| && events[i].id == id
    ensures Occurrences(events, id) >= 2 <==> exists i, j :: 0 <= i < j < |events| && events[i].id == id && events[j].id == id
    decreases |events|
  {
    if events != [] {
      var rest := events[1..];
      CountIff(rest, id);
      if events[0].id == id && Occurrences(rest, id) >= 1 {
        var i :| 0 <= i < |rest| && rest[i].id == id;
        assert events[0].id == id && events[i + 1].id == id;
      }
      if Occurrences(rest, id) >= 2 {
        var i, j :| 0 <= i < j < |rest| && rest[i].id == id && rest[j].id == id;
        assert events[i + 1].id == id && events[j + 1].id == id;
      }
      if Occurrences(rest, id) >= 1 {
        var i :| 0 <= i < |rest| && rest[i].id == id;
        assert events[i + 1].id == id;
      }
      forall i | 0 <= i < |events| && events[i].id == id ensures Occurrences(events, id) >= 1 {
        assert i > 0 ==> rest[i - 1].id == id;
      }
      forall i, j | 0 <= i < j < |events| && events[i].id == id && events[j].id == id ensures Occurrences(events, id) >= 2 {
        assert rest[j - 1].id == id;
        assert i > 0 ==> rest[i - 1].id == id;
      }
    }
  }

  lemma ListedOnceIff(events: seq<EventExport>)
    ensures ListedOnce(events) <==> forall e :: e in events ==> Occurrences(events, e.id) <= 1
  {
    forall e | e in events && ListedOnce(events) ensures Occurrences(events, e.id) <= 1 {
      CountIff(events, e.id);
    }
    forall i, j | 0 <= i < j < |events| && (forall e :: e in events ==> Occurrences(events, e.id) <= 1)
      ensures events[i].id != events[j].id
    {
      CountIff(events, events[i].id);
    }
  }

  lemma SortKeepsOnce(s: Snapshot)
    ensures forall e :: e in SortedEvents(s) <==> e in s.events
    ensures ListedOnce(s.events) ==> ListedOnce(SortedEvents(s))
  {
    hide ExportLess;
    SameMembers(SortedEvents(s), s.events);
    if ListedOnce(s.events) {
      SameList(s.events, SortedEvents(s));
      forall i, j | 0 <= i < j < |SortedEvents(s)| ensures SortedEvents(s)[i].id != SortedEvents(s)[j].id {
        assert SortedEvents(s)[i] in s.events && SortedEvents(s)[j] in s.events;
      }
    }
  }

  ghost predicate ComesFirst(a: EventExport, b: EventExport) {
    a.lamport <= b.lamport && (a.lamport == b.lamport ==> AtMost(a.id, b.id))
  }

  lemma ExportTies(a: EventExport, b: EventExport, c: EventExport)
    ensures !ExportLess(b, a) <==> ComesFirst(a, b)
    ensures ComesFirst(a, b) && ComesFirst(b, c) ==> ComesFirst(a, c)
    ensures ExportLess(a, b) ==> !ExportLess(b, a)
  {
    hide Less, AtMost;
    TextTies(a.id, b.id, c.id);
    LessAsymmetric(a.id, b.id);
  }

  /** Events are taken in ascending order of stamp and then identity. */
  lemma EventsInOrder(s: Snapshot)
    ensures var sorted := SortedEvents(s); forall i, j :: 0 <= i < j < |sorted| ==> ComesFirst(sorted[i], sorted[j])
  {
    hide ExportLess, ComesFirst;
    var all, sorted := Members(s.events), SortedEvents(s);
    forall a, b, c | a in all && b in all && c in all
      ensures ExportLess(a, b) ==> !ExportLess(b, a)
      ensures !ExportLess(b, a) && !ExportLess(c, b) ==> !ExportLess(c, a)
    {
      ExportTies(a, b, c);
      ExportTies(b, c, a);
      ExportTies(a, c, b);
    }
    SortByAscends(ExportLess, s.events, all);
    forall i, j | 0 <= i < j < |sorted| ensures ComesFirst(sorted[i], sorted[j]) {
      ExportTies(sorted[i], sorted[j], sorted[j]);
    }
  }

  lemma AfterOther(v: View, e: EventExport, id: EventID)
    requires id != e.id
    ensures var w := After(v, PutEvent(e.id, Canonized(Imported(e))));
            (id in w.contents <==> id in v.contents) && (id in v.contents ==> w.contents[id] == v.contents[id])
  {}

  lemma {:induction false} CleanIffEach(v: View, all: seq<EventExport>, events: seq<EventExport>)
    requires ListedOnce(events)
    ensures EventsClean(v, all, events) <==> forall e :: e in events ==> AcceptableEvent(all, e) && !Contradicts(v, e)
    decreases |events|
  {
    if events != [] {
      hide AcceptableEvent, After, Canonized, Imported, EventConflict;
      var w := After(v, PutEvent(events[0].id, Canonized(Imported(events[0]))));
      assert events == [events[0]] + events[1..];
      CleanIffEach(w, all, events[1..]);
      forall e | e in events[1..] ensures Contradicts(w, e) <==> Contradicts(v, e) {
        AfterOther(v, events[0], e.id);
      }
    }
  }

  lemma {:induction false} CleanAcceptable(v: View, all: seq<EventExport>, events: seq<EventExport>)
    requires EventsClean(v, all, events)
    ensures forall e :: e in events ==> AcceptableEvent(all, e)
    decreases |events|
  {
    if events != [] {
      hide AcceptableEvent, After, Canonized, Imported, Contradicts;
      assert events == [events[0]] + events[1..];
      CleanAcceptable(After(v, PutEvent(events[0].id, Canonized(Imported(events[0])))), all, events[1..]);
    }
  }

  /** No event is reported exactly when every listed one is well formed, listed once, and
      states what is known of it. */
  lemma EventsCleanIff(v: View, s: Snapshot)
    requires Consistent(v)
    ensures EventsClean(v, s.events, SortedEvents(s)) <==>
            && ListedOnce(s.events)
            && (forall e :: e in s.events ==> WellFormedExport(e) && (e.id in v.contents ==> States(e, v.contents[e.id])))
  {
    hide Consistent, EventsClean, SortedEvents, Contradicts, States, ListedOnce, Admissible, Occurrences;
    SortKeepsOnce(s);
    ListedOnceIff(s.events);
    if EventsClean(v, s.events, SortedEvents(s)) {
      CleanAcceptable(v, s.events, SortedEvents(s));
      assert ListedOnce(s.events);
    }
    if ListedOnce(s.events) {
      CleanIffEach(v, s.events, SortedEvents(s));
      forall e | e in s.events && WellFormedExport(e)
        ensures Contradicts(v, e) <==> e.id in v.contents && !States(e, v.contents[e.id])
      {
        ContradictsIff(v, e);
      }
    }
  }

  ghost predicate AcceptedFrom(all: seq<EventExport>, events: seq<EventExport>, id: EventID, c: Content) {
    exists e :: e in events && TakenAs(all, e, id, c)
  }

  ghost predicate TakenAs(all: seq<EventExport>, e: EventExport, id: EventID, c: Content) {
    e.id == id && AcceptableEvent(all, e) && c == Canonized(Imported(e))
  }

  lemma AcceptedCons(all: seq<EventExport>, events: seq<EventExport>, id: EventID, c: Content)
    requires events != []
    ensures AcceptedFrom(all, events, id, c) <==> TakenAs(all, events[0], id, c) || AcceptedFrom(all, events[1..], id, c)
  {
    hide TakenAs;
    assert events == [events[0]] + events[1..];
  }

  lemma {:induction false} AcceptedExactly(all: seq<EventExport>, events: seq<EventExport>, id: EventID, c: Content)
    ensures (id, c) in AcceptedEvents(all, events) <==> AcceptedFrom(all, events, id, c)
    decreases |events|
  {
    if events != [] {
      hide AcceptableEvent, Canonized, Imported, AcceptedFrom;
      AcceptedExactly(all, events[1..], id, c);
      AcceptedCons(all, events, id, c);
    } else {
      assert !AcceptedFrom(all, events, id, c);
    }
  }

  /** The one export of this identity is well formed and states the content, in one role. */
  ghost predicate StatedAt(s: Snapshot, i: nat, id: EventID, c: Content) {
    && i < |s.events| && s.events[i].id == id && WellFormedExport(s.events[i])
    && (forall j :: 0 <= j < |s.events| && s.events[j].id == id ==> j == i)
    && States(s.events[i], c)
    && c.observations == [Observation(s.events[i].source, s.events[i].name, s.events[i].params)]
  }

  /** Exactly the well-formed exports without a namesake are taken over, as stated. */
  lemma DescribedEvents(s: Snapshot, keys: set<EventID>, id: EventID, c: Content)
    ensures (id, c) in Described(s, keys).events <==> exists i: nat :: StatedAt(s, i, id, c)
  {
    hide SortedEvents, Admissible, Canonized, Imported, States, Occurrences, AcceptedEvents;
    SortKeepsOnce(s);
    AcceptedExactly(s.events, SortedEvents(s), id, c);
    if (id, c) in Described(s, keys).events {
      var e :| e in SortedEvents(s) && TakenAs(s.events, e, id, c);
      var i :| 0 <= i < |s.events| && s.events[i] == e;
      ImportStates(e);
      CountIff(s.events, id);
      assert StatedAt(s, i, id, c);
    }
    forall i: nat | StatedAt(s, i, id, c) ensures (id, c) in Described(s, keys).events {
      CountIff(s.events, id);
      ImportUnique(s.events[i], c);
      assert TakenAs(s.events, s.events[i], id, c);
    }
  }

  lemma ImportUnique(e: EventExport, c: Content)
    requires Admissible(e.timings)
    ensures States(e, c) && c.observations == [Observation(e.source, e.name, e.params)] ==> c == Canonized(Imported(e))
  {
    hide Canonical, Admissible, SortByClock;
    if Canonical(c.timings) {
      SortedStates(e, c.timings);
    }
  }

  // ----- After the merge -----

  lemma {:induction false} EventsArrive(v: View, all: seq<EventExport>, events: seq<EventExport>, e: EventExport)
    requires Consistent(v) && ListedOnce(events) && e in events && AcceptableEvent(all, e)
    ensures var w := Run(v, EventPlan(all, events));
            e.id in w.contents && w.contents[e.id] == if e.id in v.contents then v.contents[e.id] else Canonized(Imported(e))
    decreases |events|
  {
    hide AcceptableEvent, After, Canonized, Imported, Consistent, Run, Admissible, Canonical, ListedOnce, EventPlan;
    EventPlanStep(all, events);
    ListedOnceRest(events, e);
    var rest := EventPlan(all, events[1..]);
    var op := PutEvent(events[0].id, Canonized(Imported(events[0])));
    if AcceptableEvent(all, events[0]) {
      RunCons(v, op, rest);
      AfterConsistent(v, op);
      if e == events[0] {
        EventArrives(v, all, e);
        RunKeepsContents(After(v, op), rest, e.id);
      } else {
        EventsArrive(After(v, op), all, events[1..], e);
        AfterOther(v, events[0], e.id);
      }
    } else {
      assert [] + rest == rest;
      EventsArrive(v, all, events[1..], e);
    }
  }

  lemma ListedOnceRest(events: seq<EventExport>, e: EventExport)
    requires ListedOnce(events) && e in events
    ensures ListedOnce(events[1..]) && (e != events[0] ==> e in events[1..] && e.id != events[0].id)
  {
    assert events == [events[0]] + events[1..];
  }

  lemma EventArrives(v: View, all: seq<EventExport>, e: EventExport)
    requires AcceptableEvent(all, e)
    ensures var w := After(v, PutEvent(e.id, Canonized(Imported(e))));
            e.id in w.contents && w.contents[e.id] == if e.id in v.contents then v.contents[e.id] else Canonized(Imported(e))
  {
    hide Admissible, Canonical;
    AdmissibleSorts(e.timings);
  }

  lemma RunKeepsContents(v: View, ops: seq<Op>, id: EventID)
    requires Consistent(v) && id in v.contents
    ensures id in Run(v, ops).contents && Run(v, ops).contents[id] == v.contents[id]
  {
    hide Consistent, Run, Equivalent, Before, Readable, EverJoinsEmpty;
    RunKeeps(v, ops);
  }

  /** A merge that reports nothing leaves every listed event in the poset as stated, and with
      the one stated role if it is new. */
  lemma CleanMergeKeepsStated(s: Snapshot, v: View, e: EventExport)
    requires Consistent(v) && MergesCleanly(s, v) && e in s.events
    ensures var w := Run(v, MergeOps(Described(s, v.contents.Keys)));
            && e.id in w.contents && States(e, w.contents[e.id])
            && (e.id in v.contents ==> w.contents[e.id] == v.contents[e.id])
            && (e.id !in v.contents ==> w.contents[e.id].observations == [Observation(e.source, e.name, e.params)])
  {
    hide Consistent, Run, EventsClean, ClassesClean, EdgesClean, SortedEvents, SortedClasses, SortedEdges,
      AcceptedClasses, AcceptedEdges, AcceptedEvents, States, ListedOnce, Admissible, Occurrences, Canonized, Imported;
    var d := Described(s, v.contents.Keys);
    EventsCleanIff(v, s);
    SortKeepsOnce(s);
    ListedOnceIff(s.events);
    EventsArrive(v, s.events, SortedEvents(s), e);
    RunAppend(v, EventOps(d.events), ClassOps(d.classes) + EdgeOps(d.edges));
    RunIsConsistent(v, EventOps(d.events));
    RunKeepsContents(Run(v, EventOps(d.events)), ClassOps(d.classes) + EdgeOps(d.edges), e.id);
    ImportStates(e);
  }

  lemma RunIsConsistent(v: View, ops: seq<Op>)
    requires Consistent(v)
    ensures Consistent(Run(v, ops))
  {
    hide Consistent, Run, Extends, Readable, EverJoinsEmpty;
    RunKeeps(v, ops);
  }

  // ----- Classes -----

  /** At least two known events, each named once. */
  ghost predicate WellFormedClass(c: seq<EventID>, keys: set<EventID>) {
    && |c| >= 2 && (forall i, j :: 0 <= i < j < |c| ==> c[i] != c[j])
    && (forall i :: 0 <= i < |c| ==> c[i] != [] && c[i] in keys)
  }

  /** No event in two listed classes. */
  ghost predicate Apart(classes: seq<seq<EventID>>) {
    forall i, j :: 0 <= i < j < |classes| ==> Members(classes[i]) !! Members(classes[j])
  }

  /** Listed classes with one joined key have the same members, as they do without NUL bytes. */
  ghost predicate ClassKeysTell(classes: seq<seq<EventID>>) {
    forall c, d :: c in classes && d in classes && ClassKey(SortBy(Less, c)) == ClassKey(SortBy(Less, d)) ==>
      Members(c) == Members(d)
  }

  lemma SortedDiffers(c: seq<Text>)
    requires forall i :: 0 < i < |c| ==> SortBy(Less, c)[i] != SortBy(Less, c)[i - 1]
    ensures forall i, j :: 0 <= i < j < |c| ==> c[i] != c[j]
  {
    hide Less, SortBy, Rising;
    SortRises(c);
    RisingDistinct(SortBy(Less, c));
    SameList(SortBy(Less, c), c);
  }

  lemma ValidIff(c: seq<EventID>, keys: set<EventID>, seen: set<EventID>)
    ensures |SortBy(Less, c)| >= 2 && ValidClass(SortBy(Less, c), keys, seen) <==> WellFormedClass(c, keys) && Members(c) !! seen
    ensures Members(SortBy(Less, c)) == Members(c)
  {
    hide Less, SortBy;
    var r := SortBy(Less, c);
    SameMembers(r, c);
    if ValidClass(r, keys, seen) {
      SortedDiffers(c);
      forall i | 0 <= i < |c| ensures c[i] != [] && c[i] in keys && c[i] !in seen {
        assert c[i] in r;
      }
    }
    if WellFormedClass(c, keys) && Members(c) !! seen {
      SameList(c, r);
      forall i | 0 <= i < |r| ensures r[i] != [] && r[i] in keys && r[i] !in seen {
        assert r[i] in c;
      }
    }
  }

  /** The sorted form of each class; `originals` names what each was sorted from. */
  ghost predicate SortedForms(classes: seq<seq<EventID>>, originals: seq<seq<EventID>>) {
    |classes| == |originals| && forall i :: 0 <= i < |classes| ==> classes[i] == SortBy(Less, originals[i])
  }

  lemma ApartForms(classes: seq<seq<EventID>>, originals: seq<seq<EventID>>)
    requires SortedForms(classes, originals)
    ensures Apart(classes) <==> Apart(originals)
  {
    hide Less, SortBy;
    forall i | 0 <= i < |classes| ensures Members(classes[i]) == Members(originals[i]) {
      SameMembers(classes[i], originals[i]);
    }
  }

  lemma ApartCons(c: seq<EventID>, rest: seq<seq<EventID>>)
    ensures Apart([c] + rest) <==> Apart(rest) && forall d :: d in rest ==> Members(c) !! Members(d)
  {
    var all := [c] + rest;
    if Apart(all) {
      forall i, j | 0 <= i < j < |rest| ensures Members(rest[i]) !! Members(rest[j]) {
        assert all[i + 1] == rest[i] && all[j + 1] == rest[j];
      }
      forall d | d in rest ensures Members(c) !! Members(d) {
        var j :| 0 <= j < |rest| && rest[j] == d;
        assert all[0] == c && all[j + 1] == d;
      }
    }
  }

  lemma {:induction false} ApartInsert(less: (seq<EventID>, seq<EventID>) -> bool, c: seq<EventID>, rest: seq<seq<EventID>>)
    ensures Apart(InsertBy(less, c, rest)) <==> Apart([c] + rest)
  {
    hide Apart;
    if rest != [] && less(rest[0], c) {
      var d, tail := rest[0], rest[1..];
      assert rest == [d] + tail;
      ApartInsert(less, c, tail);
      SameMembers(InsertBy(less, c, tail), [c] + tail);
      ApartCons(d, InsertBy(less, c, tail));
      ApartCons(c, tail);
      ApartCons(d, tail);
      ApartCons(c, rest);
    } else {
      assert InsertBy(less, c, rest) == [c] + rest;
    }
  }

  lemma {:induction false} ApartSort(less: (seq<EventID>, seq<EventID>) -> bool, classes: seq<seq<EventID>>)
    ensures Apart(SortBy(less, classes)) <==> Apart(classes)
  {
    hide Apart;
    if classes != [] {
      var rest := classes[1..];
      assert classes == [classes[0]] + rest;
      ApartSort(less, rest);
      ApartInsert(less, classes[0], SortBy(less, rest));
      SameMembers(SortBy(less, rest), rest);
      ApartCons(classes[0], SortBy(less, rest));
      ApartCons(classes[0], rest);
    }
  }

  /** Keys seen so far belong to classes whose members have been seen. */
  ghost predicate KeysTellSeen(classes: seq<seq<EventID>>, seen: set<EventID>, seenKeys: set<Text>) {
    forall c :: c in classes && ClassKey(c) in seenKeys ==> Members(c) <= seen
  }

  ghost predicate KeysTell(classes: seq<seq<EventID>>) {
    forall c, d :: c in classes && d in classes && ClassKey(c) == ClassKey(d) ==> Members(c) == Members(d)
  }

  ghost predicate AllValid(classes: seq<seq<EventID>>, keys: set<EventID>, seen: set<EventID>) {
    forall c :: c in classes ==> |c| >= 2 && ValidClass(c, keys, seen)
  }

  lemma ValidLater(classes: seq<seq<EventID>>, keys: set<EventID>, seen: set<EventID>, c: seq<EventID>)
    ensures AllValid(classes, keys, seen + Members(c)) <==>
            AllValid(classes, keys, seen) && forall d :: d in classes ==> Members(c) !! Members(d)
  {
    forall d | d in classes && AllValid(classes, keys, seen + Members(c)) ensures Members(c) !! Members(d) {
      forall x | x in Members(d) ensures x !in Members(c) {
        var i :| 0 <= i < |d| && d[i] == x;
      }
    }
    forall d | d in classes && AllValid(classes, keys, seen + Members(c)) ensures |d| >= 2 && ValidClass(d, keys, seen) {}
    if AllValid(classes, keys, seen) && forall d :: d in classes ==> Members(c) !! Members(d) {
      forall d, i | d in classes && 0 <= i < |d| ensures d[i] !in seen + Members(c) {
        assert d[i] in Members(d);
      }
    }
  }

  lemma {:induction false} CleanClassesIff(
      v: View, classes: seq<seq<EventID>>, keys: set<EventID>, seen: set<EventID>, seenKeys: set<Text>)
    requires KeysTell(classes) && KeysTellSeen(classes, seen, seenKeys)
    ensures ClassesClean(v, classes, keys, seen, seenKeys) <==>
            && AllValid(classes, keys, seen) && Apart(classes)
            && TakesAll(v, ClassOps(AcceptedClasses(classes, keys, seen, seenKeys)))
    decreases |classes|
  {
    if classes != [] {
      hide Apart, Takes, After, ClassKey, ValidClass, KeysTell, KeysTellSeen, AllValid, ClassOps, TakesAll, Members, ClassesClean,
        AcceptedClasses;
      var c, rest := classes[0], classes[1..];
      assert classes == [c] + rest;
      ApartCons(c, rest);
      ValidFirst(c, rest, keys, seen);
      CleanUnfolds(v, c, rest, keys, seen, seenKeys);
      if |c| >= 2 && ValidClass(c, keys, seen) {
        KeysStillTell(c, rest, keys, seen, seenKeys);
        CleanClassesIff(After(v, PutClass(Members(c))), rest, keys, seen + Members(c), seenKeys + {ClassKey(c)});
        var accepted := AcceptedClasses(rest, keys, seen + Members(c), seenKeys + {ClassKey(c)});
        ClassOpsStep(Members(c), accepted);
        FirstTaken(v, PutClass(Members(c)), ClassOps(accepted));
      }
    } else {
      NoneTaken(v);
    }
  }

  lemma NoneTaken(v: View)
    ensures TakesAll(v, ClassOps([])) && Apart([])
  {}

  /** One class: refused, dropped for its key, or merged. */
  lemma CleanUnfolds(v: View, c: seq<EventID>, rest: seq<seq<EventID>>, keys: set<EventID>, seen: set<EventID>, seenKeys: set<Text>)
    ensures ClassesClean(v, [c] + rest, keys, seen, seenKeys) ==> |c| >= 2 && ValidClass(c, keys, seen)
    ensures |c| >= 2 && ValidClass(c, keys, seen) && ClassKey(c) !in seenKeys ==>
              && (ClassesClean(v, [c] + rest, keys, seen, seenKeys) <==>
                    && Takes(v, PutClass(Members(c)))
                    && ClassesClean(After(v, PutClass(Members(c))), rest, keys, seen + Members(c), seenKeys + {ClassKey(c)}))
              && AcceptedClasses([c] + rest, keys, seen, seenKeys) ==
                   [Members(c)] + AcceptedClasses(rest, keys, seen + Members(c), seenKeys + {ClassKey(c)})
  {
    hide Takes, After, ClassKey, ValidClass, Members;
    var all := [c] + rest;
    assert all[0] == c && all[1..] == rest;
  }

  lemma ValidFirst(c: seq<EventID>, rest: seq<seq<EventID>>, keys: set<EventID>, seen: set<EventID>)
    ensures AllValid([c] + rest, keys, seen) <==> |c| >= 2 && ValidClass(c, keys, seen) && AllValid(rest, keys, seen)
    ensures AllValid(rest, keys, seen + Members(c)) <==>
            AllValid(rest, keys, seen) && forall d :: d in rest ==> Members(c) !! Members(d)
  {
    ValidLater(rest, keys, seen, c);
  }

  lemma KeysTellRest(c: seq<EventID>, rest: seq<seq<EventID>>)
    requires KeysTell([c] + rest)
    ensures KeysTell(rest) && forall d :: d in rest && ClassKey(d) == ClassKey(c) ==> Members(d) == Members(c)
  {
    hide ClassKey, Members;
    forall d ensures d in [c] + rest <==> d == c || d in rest {}
  }

  lemma KeysStillTell(
      c: seq<EventID>, rest: seq<seq<EventID>>, keys: set<EventID>, seen: set<EventID>, seenKeys: set<Text>)
    requires KeysTell([c] + rest) && KeysTellSeen([c] + rest, seen, seenKeys) && |c| >= 2 && ValidClass(c, keys, seen)
    ensures KeysTell(rest) && KeysTellSeen(rest, seen + Members(c), seenKeys + {ClassKey(c)})
    ensures ClassKey(c) !in seenKeys
  {
    hide ClassKey, ValidClass, Members, KeysTell;
    NotSeen(c, keys, seen);
    KeysTellRest(c, rest);
    forall d ensures d in [c] + rest <==> d == c || d in rest {}
  }

  lemma NotSeen(c: seq<EventID>, keys: set<EventID>, seen: set<EventID>)
    requires |c| >= 2 && ValidClass(c, keys, seen)
    ensures !(Members(c) <= seen)
  {
    assert c[0] in Members(c);
  }

  lemma FirstTaken(v: View, op: Op, ops: seq<Op>)
    ensures TakesAll(v, [op] + ops) <==> Takes(v, op) && TakesAll(After(v, op), ops)
  {
    hide Takes, After;
    assert ([op] + ops)[1..] == ops;
  }

  /** No class is reported exactly when every listed one is well formed, no event is in two of
      them, and the poset takes them one after another. */
  lemma ClassesCleanIff(v: View, s: Snapshot, keys: set<EventID>)
    requires ClassKeysTell(s.classes)
    ensures ClassesClean(v, SortedClasses(s), keys, {}, {}) <==>
            && (forall c :: c in s.classes ==> WellFormedClass(c, keys)) && Apart(s.classes)
            && TakesAll(v, ClassOps(AcceptedClasses(SortedClasses(s), keys, {}, {})))
  {
    hide Less, ClassKey, Apart, ValidClass, WellFormedClass, ClassesClean, AcceptedClasses, TakesAll;
    var forms := seq(|s.classes|, i requires 0 <= i < |s.classes| => SortBy(Less, s.classes[i]));
    var sorted := SortedClasses(s);
    SameMembers(sorted, forms);
    ApartSort((a, b) => Less(ClassKey(a), ClassKey(b)), forms);
    ApartForms(forms, s.classes);
    FormsTell(s, forms);
    assert KeysTell(sorted);
    CleanClassesIff(v, sorted, keys, {}, {});
    FormsValid(s, forms, keys);
    assert AllValid(sorted, keys, {}) <==> AllValid(forms, keys, {});
  }

  lemma SortedMembers(c: seq<EventID>)
    ensures Members(SortBy(Less, c)) == Members(c)
  {
    SameMembers(SortBy(Less, c), c);
  }

  lemma FormsTell(s: Snapshot, forms: seq<seq<EventID>>)
    requires SortedForms(forms, s.classes) && ClassKeysTell(s.classes)
    ensures KeysTell(forms)
  {
    hide Less, SortBy, ClassKey;
    forall c, d | c in forms && d in forms && ClassKey(c) == ClassKey(d) ensures Members(c) == Members(d) {
      var i :| 0 <= i < |forms| && forms[i] == c;
      var j :| 0 <= j < |forms| && forms[j] == d;
      assert s.classes[i] in s.classes && s.classes[j] in s.classes;
      assert Members(s.classes[i]) == Members(s.classes[j]);
      SortedMembers(s.classes[i]);
      SortedMembers(s.classes[j]);
    }
  }

  lemma FormsValid(s: Snapshot, forms: seq<seq<EventID>>, keys: set<EventID>)
    requires SortedForms(forms, s.classes)
    ensures AllValid(forms, keys, {}) <==> forall c :: c in s.classes ==> WellFormedClass(c, keys)
  {
    hide Less, SortBy, ValidClass, WellFormedClass;
    forall i | 0 <= i < |forms|
      ensures |forms[i]| >= 2 && ValidClass(forms[i], keys, {}) <==> WellFormedClass(s.classes[i], keys)
    {
      ValidIff(s.classes[i], keys, {});
    }
    if AllValid(forms, keys, {}) {
      forall c | c in s.classes ensures WellFormedClass(c, keys) {
        var i :| 0 <= i < |s.classes| && s.classes[i] == c;
        assert forms[i] in forms;
      }
    } else {
      var c :| c in forms && !(|c| >= 2 && ValidClass(c, keys, {}));
      var i :| 0 <= i < |forms| && forms[i] == c;
      assert s.classes[i] in s.classes;
    }
  }

  // ----- Edges -----

  /** Two endpoints, named and different. */
  ghost predicate IsPair(e: seq<EventID>) {
    |e| == 2 && e[0] != [] && e[1] != [] && e[0] != e[1]
  }

  /** Exactly the well-formed edges are taken over, wherever and however often listed. */
  lemma {:induction false} AcceptedEdgesExactly(edges: seq<seq<EventID>>, seenKeys: set<Text>, a: EventID, b: EventID)
    ensures (a, b) in AcceptedEdges(edges, seenKeys) <==>
            [a, b] in edges && IsPair([a, b]) && EdgeKey([a, b]) !in seenKeys
    decreases |edges|
  {
    if edges != [] {
      hide EdgeKey;
      var e, rest := edges[0], edges[1..];
      assert edges == [e] + rest;
      if AcceptableEdge(e, seenKeys) {
        assert e == [e[0], e[1]];
        AcceptedEdgesExactly(rest, seenKeys + {EdgeKey(e)}, a, b);
        if EdgeKey([a, b]) == EdgeKey(e) {
          EdgeKeyInjective([a, b], e);
        }
      } else {
        AcceptedEdgesExactly(rest, seenKeys, a, b);
      }
    }
  }

  lemma {:induction false} CleanEdgesIff(v: View, edges: seq<seq<EventID>>, seenKeys: set<Text>)
    ensures EdgesClean(v, edges, seenKeys) <==>
            (forall e :: e in edges ==> IsPair(e)) && TakesAll(v, EdgeOps(AcceptedEdges(edges, seenKeys)))
    decreases |edges|
  {
    if edges != [] {
      hide EdgeKey, Takes, After;
      var e, rest := edges[0], edges[1..];
      assert edges == [e] + rest;
      if IsPair(e) && EdgeKey(e) !in seenKeys {
        var accepted := AcceptedEdges(rest, seenKeys + {EdgeKey(e)});
        CleanEdgesIff(After(v, PutEdge(e[0], e[1])), rest, seenKeys + {EdgeKey(e)});
        EdgeOpsStep((e[0], e[1]), accepted);
        FirstTaken(v, PutEdge(e[0], e[1]), EdgeOps(accepted));
      } else {
        CleanEdgesIff(v, rest, seenKeys);
      }
    }
  }

  // ----- The whole merge -----

  ghost function Known(s: Snapshot, v: View): set<EventID> {
    v.contents.Keys + set e | e in s.events :: e.id
  }

  /** A merge reports nothing exactly when the mark covers every stamp, every event, class and
      edge is well formed and consistent with what is known and with the others, and the
      poset takes the classes and then the edges. */
  lemma CleanMergeIff(s: Snapshot, v: View)
    requires Consistent(v) && ClassKeysTell(s.classes)
    ensures var d := Described(s, v.contents.Keys);
            var v1 := Run(v, EventOps(d.events));
            MergesCleanly(s, v) <==>
              && (forall e :: e in s.events ==> e.lamport <= s.highWater)
              && ListedOnce(s.events)
              && (forall e :: e in s.events ==> WellFormedExport(e) && (e.id in v.contents ==> States(e, v.contents[e.id])))
              && (forall c :: c in s.classes ==> WellFormedClass(c, Known(s, v))) && Apart(s.classes)
              && (forall e :: e in s.edges ==> IsPair(e))
              && TakesAll(v1, ClassOps(d.classes)) && TakesAll(Run(v1, ClassOps(d.classes)), EdgeOps(d.edges))
  {
    hide Consistent, Run, EventsClean, ClassesClean, EdgesClean, SortedEvents, SortedClasses, SortedEdges,
      AcceptedClasses, AcceptedEdges, AcceptedEvents, States, ListedOnce, Admissible, WellFormedClass, Apart, IsPair, TakesAll, ClassKeysTell;
    var d := Described(s, v.contents.Keys);
    var v1 := Run(v, EventOps(d.events));
    DescribedParts(s, v);
    EventsKeys(v, s.events, SortedEvents(s));
    EventsCleanIff(v, s);
    ClassesCleanIff(v1, s, v1.contents.Keys);
    CleanEdgesIff(Run(v1, ClassOps(d.classes)), SortedEdges(s), {});
    SortedEdgeMembers(s);
    if EventsClean(v, s.events, SortedEvents(s)) {
      AllKnown(s, v);
    }
  }

  lemma SortedEdgeMembers(s: Snapshot)
    ensures forall e :: e in SortedEdges(s) <==> e in s.edges
  {
    SameMembers(SortedEdges(s), s.edges);
  }

  lemma AllKnown(s: Snapshot, v: View)
    requires Consistent(v) && EventsClean(v, s.events, SortedEvents(s))
    ensures Run(v, EventPlan(s.events, SortedEvents(s))).contents.Keys == Known(s, v)
  {
    hide Consistent, Run, EventsClean, SortedEvents, Admissible, Canonized, Imported, AcceptedEvents, AcceptableEvent;
    var w := Run(v, EventPlan(s.events, SortedEvents(s)));
    EventsKeys(v, s.events, SortedEvents(s));
    CleanAcceptable(v, s.events, SortedEvents(s));
    SortKeepsOnce(s);
    forall e | e in s.events ensures e.id in Ids(AcceptedEvents(s.events, SortedEvents(s))) {
      assert TakenAs(s.events, e, e.id, Canonized(Imported(e)));
      AcceptedExactly(s.events, SortedEvents(s), e.id, Canonized(Imported(e)));
      var accepted := AcceptedEvents(s.events, SortedEvents(s));
      var i :| 0 <= i < |accepted| && accepted[i] == (e.id, Canonized(Imported(e)));
      assert accepted[i].0 in Ids(accepted);
    }
    forall id | id in Ids(AcceptedEvents(s.events, SortedEvents(s))) ensures id in Known(s, v) {
      var accepted := AcceptedEvents(s.events, SortedEvents(s));
      var i :| 0 <= i < |accepted| && accepted[i].0 == id;
      AcceptedExactly(s.events, SortedEvents(s), accepted[i].0, accepted[i].1);
    }
  }

  // ----- Waiting edges -----

  lemma {:induction false} MissingExactly(
      keys: set<EventID>, pending: seq<(EventID, EventID)>, edges: seq<(EventID, EventID)>, e: (EventID, EventID))
    ensures e in WithMissing(keys, pending, edges) <==> e in pending || (e in edges && !(e.0 in keys && e.1 in keys))
    decreases |edges|
  {
    if edges != [] {
      var next := if Present(keys, edges[0]) || edges[0] in pending then pending else pending + [edges[0]];
      assert edges == [edges[0]] + edges[1..];
      MissingExactly(keys, next, edges[1..], e);
    }
  }

  /** After a merge exactly those edges wait that waited before or are listed and lack an
      endpoint. */
  lemma WaitingAfterMerge(r: Replica, s: Snapshot, a: EventID, b: EventID)
    ensures var d := Described(s, r.view.contents.Keys);
            var after := MergeInto(r, d);
            (a, b) in after.pending <==>
              || (a, b) in r.pending
              || ([a, b] in s.edges && IsPair([a, b]) && (a !in after.view.contents || b !in after.view.contents))
  {
    hide Run, MergeOps, SortedEvents, SortedClasses, AcceptedClasses, AcceptedEvents, SortedEdges, AcceptedEdges, IsPair;
    var d := Described(s, r.view.contents.Keys);
    MissingExactly(MergeInto(r, d).view.contents.Keys, r.pending, d.edges, (a, b));
    AcceptedEdgesExactly(SortedEdges(s), {}, a, b);
    SortedEdgeMembers(s);
  }

  lemma {:induction false} StillMissingExactly(keys: set<EventID>, pending: seq<(EventID, EventID)>, e: (EventID, EventID))
    ensures e in StillMissing(keys, pending) <==> e in pending && !(e.0 in keys && e.1 in keys)
  {
    if pending != [] {
      assert pending == [pending[0]] + pending[1..];
      StillMissingExactly(keys, pending[1..], e);
    }
  }
}
