/** Full snapshots (merge.go): what CreateSnapshot states, and what a fresh poset that merges
    it becomes. */
module Exports {
  import opened Texts
  import opened Timings
  import opened Reachability
  import opened CausalOrder
  import opened Stamps
  import opened Stores
  import opened Operations
  import opened Merging
  import opened Convergence
  import opened Posets
  import opened Snapshots
  import Canonicals

  // ----- Sorting by Lamport stamp -----

  predicate LamportLess(events: map<EventID, Event>, a: EventID, b: EventID) {
    a in events && b in events &&
    if events[a].lamport != events[b].lamport then events[a].lamport < events[b].lamport else Less(a, b)
  }

  function LamportOrder(events: map<EventID, Event>): (EventID, EventID) -> bool {
    (a, b) => LamportLess(events, a, b)
  }

  ghost predicate LamportSorted(events: map<EventID, Event>, ids: seq<EventID>) {
    forall i, j :: 0 <= i < j < |ids| ==> LamportLess(events, ids[i], ids[j])
  }

  lemma LamportTotal(events: map<EventID, Event>, a: EventID, b: EventID, c: EventID)
    requires a in events && b in events && c in events
    ensures a == b || LamportLess(events, a, b) || LamportLess(events, b, a)
    ensures LamportLess(events, a, b) && LamportLess(events, b, c) ==> LamportLess(events, a, c)
    ensures !LamportLess(events, a, a)
  {
    LessTotal(a, b);
    LessIrreflexive(a);
    if Less(a, b) && Less(b, c) {
      LessTransitive(a, b, c);
    }
  }

  lemma {:induction false} InsertLamport(events: map<EventID, Event>, x: EventID, s: seq<EventID>)
    requires x in events && (forall y :: y in s ==> y in events && y != x) && LamportSorted(events, s)
    ensures LamportSorted(events, InsertBy(LamportOrder(events), x, s))
  {
    hide LamportLess;
    var r := InsertBy(LamportOrder(events), x, s);
    SameMembers(r, [x] + s);
    if s != [] {
      LamportTotal(events, x, s[0], x);
      if LamportLess(events, s[0], x) {
        var rest := InsertBy(LamportOrder(events), x, s[1..]);
        InsertLamport(events, x, s[1..]);
        SameMembers(rest, [x] + s[1..]);
        forall j | 0 <= j < |rest| ensures LamportLess(events, s[0], rest[j]) {
          assert rest[j] in rest;
          assert rest[j] in [x] + s[1..];
        }
      } else {
        forall j | 0 <= j < |s| ensures LamportLess(events, x, s[j]) {
          assert s[j] in s;
          LamportTotal(events, x, s[0], s[j]);
        }
      }
    }
  }

  lemma {:induction false} SortLamport(events: map<EventID, Event>, s: seq<EventID>)
    requires (forall y :: y in s ==> y in events) && forall i, j :: 0 <= i < j < |s| ==> s[i] != s[j]
    ensures LamportSorted(events, SortBy(LamportOrder(events), s))
    decreases |s|
  {
    if s != [] {
      SortLamport(events, s[1..]);
      SameMembers(SortBy(LamportOrder(events), s[1..]), s[1..]);
      InsertLamport(events, s[0], SortBy(LamportOrder(events), s[1..]));
    }
  }

  /** sortEventIDsByLamport. */
  method SortEventIDsByLamport(ids: set<EventID>, events: map<EventID, Event>) returns (r: seq<EventID>)
    requires ids <= events.Keys
    ensures Members(r) == ids && LamportSorted(events, r)
  {
    hide LamportLess, StrictlySorted, LamportSorted;
    var s := Sort(ids);
    assert forall y :: y in s ==> y in Members(s);
    forall i, j | 0 <= i < j < |s| ensures s[i] != s[j] {
      SortedDistinct(s, i, j);
    }
    r := SortBy(LamportOrder(events), s);
    SortLamport(events, s);
    SameMembers(r, s);
  }

  // ----- What a full snapshot states -----

  /** The occurrence in its primary role, with its stamp.  `readable` are the occurrences
      whose texts, wall time, parameters and vector clock decode again. */
  function Exported(id: EventID, e: Event, readable: set<EventID>): EventExport {
    var c := e.content;
    EventExport(id, c.name, c.source, c.params, c.timings, c.wallTime, e.lamport, id in readable)
  }

  /** Every occurrence once, by stamp and identity. */
  ghost predicate EventsExported(events: map<EventID, Event>, readable: set<EventID>, exports: seq<EventExport>) {
    && (forall i :: 0 <= i < |exports| ==> exports[i].id in events && exports[i] == Exported(exports[i].id, events[exports[i].id], readable))
    && (forall i, j :: 0 <= i < j < |exports| ==> ExportLess(exports[i], exports[j]))
    && (forall id :: id in events ==> exists e :: e in exports && e.id == id)
  }

  ghost predicate IsEdgeExport(edges: set<(EventID, EventID)>, e: seq<EventID>) {
    |e| == 2 && (e[0], e[1]) in edges
  }

  /** Every edge once. */
  ghost predicate EdgesExported(edges: set<(EventID, EventID)>, exports: seq<seq<EventID>>) {
    && (forall e :: e in exports ==> IsEdgeExport(edges, e))
    && (forall a, b :: (a, b) in edges ==> [a, b] in exports)
    && (forall i, j :: 0 <= i < j < |exports| ==> exports[i] != exports[j])
  }

  /** The snapshot of a poset: every occurrence, every class of two or more and every edge
      once, and the counter as high-water mark. */
  ghost predicate IsSnapshotOf(p: Poset, readable: set<EventID>, s: Snapshot)
    reads p
  {
    && EventsExported(p.events, readable, s.events)
    && Canonicals.ClassesStated(p.View(), s.classes)
    && EdgesExported(p.View().edges, s.edges)
    && s.highWater == p.lamportCounter
  }

  method ExportEvents(ids: seq<EventID>, events: map<EventID, Event>, readable: set<EventID>) returns (exports: seq<EventExport>)
    requires Members(ids) == events.Keys && LamportSorted(events, ids)
    ensures EventsExported(events, readable, exports) && |exports| == |ids|
    ensures forall i :: 0 <= i < |ids| ==> exports[i].id == ids[i]
  {
    hide LamportLess;
    exports := [];
    for index := 0 to |ids|
      invariant |exports| == index
      invariant forall i :: 0 <= i < index ==> ids[i] in events && exports[i] == Exported(ids[i], events[ids[i]], readable)
    {
      assert ids[index] in Members(ids);
      exports := exports + [Exported(ids[index], events[ids[index]], readable)];
    }
    forall i, j | 0 <= i < j < |exports| ensures ExportLess(exports[i], exports[j]) {
      SameLess(events, readable, ids[i], ids[j]);
    }
    forall id | id in events ensures exists e :: e in exports && e.id == id {
      assert id in Members(ids);
      var i :| 0 <= i < |ids| && ids[i] == id;
      assert exports[i] in exports;
    }
  }

  lemma SameLess(events: map<EventID, Event>, readable: set<EventID>, a: EventID, b: EventID)
    requires LamportLess(events, a, b)
    ensures ExportLess(Exported(a, events[a], readable), Exported(b, events[b], readable))
  {}

  /** The edges out of `sources`, each once. */
  ghost predicate EdgesOutOf(edges: set<(EventID, EventID)>, sources: seq<EventID>, exports: seq<seq<EventID>>) {
    && (forall e :: e in exports ==> IsEdgeExport(edges, e) && e[0] in sources)
    && (forall a, b :: (a, b) in edges && a in sources ==> [a, b] in exports)
    && (forall i, j :: 0 <= i < j < |exports| ==> exports[i] != exports[j])
  }

  lemma NextSource(
      edges: set<(EventID, EventID)>, sources: seq<EventID>, from: EventID, successors: seq<EventID>,
      exports: seq<seq<EventID>>, more: seq<seq<EventID>>)
    requires EdgesOutOf(edges, sources, exports) && from !in sources
    requires |more| == |successors| && forall j :: 0 <= j < |successors| ==> more[j] == [from, successors[j]]
    requires forall b :: b in successors <==> (from, b) in edges
    requires forall j, k :: 0 <= j < k < |successors| ==> successors[j] != successors[k]
    ensures EdgesOutOf(edges, sources + [from], exports + more)
  {
    var all := exports + more;
    forall e | e in all ensures IsEdgeExport(edges, e) && e[0] in sources + [from] {
      if e !in exports {
        var j :| 0 <= j < |more| && more[j] == e;
        assert successors[j] in successors;
      }
    }
    forall a, b | (a, b) in edges && a in sources + [from] ensures [a, b] in all {
      if a == from {
        assert b in successors;
        var j :| 0 <= j < |successors| && successors[j] == b;
        assert more[j] in more;
      } else {
        assert [a, b] in exports;
      }
    }
    forall i, j | 0 <= i < j < |all| ensures all[i] != all[j] {
      if i < |exports| <= j {
        assert exports[i] in exports;
        assert more[j - |exports|][0] == from;
      } else if |exports| <= i {
        assert more[i - |exports|][1] == successors[i - |exports|] && more[j - |exports|][1] == successors[j - |exports|];
      }
    }
  }

  method ExportEdges(p: Poset, ids: seq<EventID>) returns (edges: seq<seq<EventID>>)
    requires Sound(p.Stored()) && Members(ids) == p.events.Keys && LamportSorted(p.events, ids)
    ensures EdgesExported(p.View().edges, edges)
  {
    hide Sound, ViewOf, LamportLess, LamportSorted, EdgesOutOf;
    KeysFacts(p.Stored());
    edges := [];
    NoSources(p.View().edges);
    for i := 0 to |ids|
      invariant EdgesOutOf(p.View().edges, ids[..i], edges)
    {
      assert ids[i] in Members(ids);
      assert ids[..i + 1] == ids[..i] + [ids[i]];
      OutEdgesKnown(p.Stored(), ids[i]);
      NotBefore(p.events, ids, i);
      var successors := SortEventIDsByLamport(p.causalEdges[ids[i]], p.events);
      var more: seq<seq<EventID>> := [];
      for j := 0 to |successors|
        invariant |more| == j && forall k :: 0 <= k < j ==> more[k] == [ids[i], successors[k]]
      {
        more := more + [[ids[i], successors[j]]];
      }
      SuccessorsListed(p.Stored(), ids[i], successors);
      NextSource(p.View().edges, ids[..i], ids[i], successors, edges, more);
      edges := edges + more;
    }
    TakeAll(ids);
    AllSources(p.Stored(), ids, edges);
  }

  lemma NoSources(edges: set<(EventID, EventID)>)
    ensures EdgesOutOf(edges, [], [])
  {}

  lemma SuccessorsListed(s: Store, from: EventID, successors: seq<EventID>)
    requires Sound(s) && from in s.causalEdges && Members(successors) == s.causalEdges[from] && LamportSorted(s.events, successors)
    ensures forall b :: b in successors <==> (from, b) in ViewOf(s).edges
    ensures forall j, k :: 0 <= j < k < |successors| ==> successors[j] != successors[k]
  {
    hide Sound, ViewOf, LamportLess, LamportSorted;
    OutEdgesKnown(s, from);
    forall b ensures b in successors <==> (from, b) in ViewOf(s).edges {
      EdgeStored(s, from, b);
      assert b in successors <==> b in Members(successors);
    }
    forall j, k | 0 <= j < k < |successors| ensures successors[j] != successors[k] {
      assert successors[k] in Members(successors);
      NotBefore(s.events, successors, k);
      assert successors[j] in successors[..k];
    }
  }

  lemma AllSources(s: Store, ids: seq<EventID>, edges: seq<seq<EventID>>)
    requires Sound(s) && Members(ids) == s.events.Keys && EdgesOutOf(ViewOf(s).edges, ids, edges)
    ensures EdgesExported(ViewOf(s).edges, edges)
  {
    hide Sound, ViewOf;
    KeysFacts(s);
    forall a, b | (a, b) in ViewOf(s).edges ensures [a, b] in edges {
      EdgeStored(s, a, b);
      assert a in Members(ids);
    }
  }

  lemma OutEdgesKnown(s: Store, a: EventID)
    requires Sound(s) && a in s.causalEdges
    ensures s.causalEdges[a] <= s.events.Keys
  {
    hide Sound, ViewOf;
    KeysFacts(s);
    forall b | b in s.causalEdges[a] ensures b in s.events {
      EdgeStored(s, a, b);
      EdgeHeads(s, a, b);
    }
  }

  lemma NotBefore(events: map<EventID, Event>, ids: seq<EventID>, i: nat)
    requires LamportSorted(events, ids) && i < |ids| && ids[i] in events
    ensures ids[i] !in ids[..i]
  {
    hide LamportLess;
    LamportTotal(events, ids[i], ids[i], ids[i]);
    forall k | 0 <= k < i ensures ids[k] != ids[i] {
      assert LamportLess(events, ids[k], ids[i]);
    }
  }

  method CreateSnapshot(p: Poset, readable: set<EventID>) returns (s: Snapshot)
    requires p.Valid()
    ensures IsSnapshotOf(p, readable, s)
  {
    hide Sound, Lawful, ViewOf, LamportSorted, EventsExported, EdgesExported;
    var ids := SortEventIDsByLamport(p.events.Keys, p.events);
    var events := ExportEvents(ids, p.events, readable);
    var classes := Canonicals.CanonicalClasses(p);
    var edges := ExportEdges(p, ids);
    s := Snapshot(events, classes, edges, p.lamportCounter);
  }
}
