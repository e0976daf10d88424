/** Parsing a canonical form (canonical.go): events, then classes, then edges, then the form
    of what was built compared with what was read. */
module CanonicalParser {
  import opened Texts
  import opened JoinedKeys
  import opened Timings
  import opened Reachability
  import opened CausalOrder
  import opened Stamps
  import opened Stores
  import opened Observations
  import opened Operations
  import opened Merging
  import opened Convergence
  import opened Posets
  import opened Canonicals

  // ----- What can be written and read back -----

  /** Observations as the parser demands them: named, and in strictly ascending key order. */
  ghost predicate RolesWritable(os: seq<Observation>) {
    && os != [] && (forall i :: 0 <= i < |os| ==> os[i].name != [])
    && (forall i, j :: 0 <= i < j < |os| ==> RoleLess(os[i], os[j]) && Less(RoleKey(os[i]), RoleKey(os[j])))
  }

  /** A view whose edges have keys apart and whose identities are nonempty, with writable observations. */
  ghost predicate Writable(v: View) {
    && EdgeKeysApart(v.edges)
    && forall id :: id in v.contents ==> id != [] && RolesWritable(Roles(v.contents[id]))
  }

  /** An event's content as the parser restores it: its first observation is primary. */
  function Restored(observations: seq<Observation>, timings: seq<EventTiming>): Content
    requires observations != []
  {
    Content(observations[0].name, observations[0].source, observations[0].params, observations, timings, 0)
  }

  ghost predicate IsRestored(v: View, w: View) {
    && w.contents.Keys == v.contents.Keys && w.cls == v.cls && w.edges == v.edges
    && forall id :: id in v.contents ==>
         Roles(v.contents[id]) != [] && w.contents[id] == Restored(Roles(v.contents[id]), v.contents[id].timings)
  }

  lemma {:induction false} SortedStays(os: seq<Observation>)
    requires forall i, j :: 0 <= i < j < |os| ==> RoleLess(os[i], os[j])
    ensures SortRoles(os) == os
  {
    if os != [] {
      SortedStays(os[1..]);
      if |os| > 1 {
        RoleLessAsymmetric(os[0], os[1]);
      }
      assert os == [os[0]] + os[1..];
    }
  }

  lemma RoleLessAsymmetric(a: Observation, b: Observation)
    ensures !(RoleLess(a, b) && RoleLess(b, a))
  {
    LessAsymmetric(a.source, b.source);
    LessAsymmetric(a.name, b.name);
  }

  lemma RestoredConsistent(v: View, w: View)
    requires Consistent(v) && IsRestored(v, w)
    ensures Consistent(w)
  {
    hide Roles, Reach, AtMost, Canonical, Conflict;
    assert forall x :: Rep(w, x) == Rep(v, x);
    assert forall id :: id in w.contents ==> w.contents[id].timings == v.contents[id].timings;
    assert Headed(w) && EdgesJoinHeads(w) by {
      forall id | id in w.cls ensures IsHead(w, w.cls[id]) && AtMost(w.cls[id], id) {
        assert IsHead(v, v.cls[id]);
      }
      forall a, b | (a, b) in w.edges ensures IsHead(w, a) && IsHead(w, b) {
        assert IsHead(v, a) && IsHead(v, b);
      }
    }
    forall a, b | Before(w, a, b) ensures !Clashing(w, a, b) {
      assert Before(v, a, b) && !Clashing(v, a, b);
    }
  }

  /** Restoring keeps the meaning, hence the canonical form. */
  lemma RestoredMeaning(v: View, w: View)
    requires Consistent(v) && Writable(v) && IsRestored(v, w)
    ensures Consistent(w) && SameMeaning(v, w)
  {
    hide Less, RoleKey, Consistent, SortRoles, NulFree;
    RestoredConsistent(v, w);
    forall id | id in v.contents ensures Roles(w.contents[id]) == Roles(v.contents[id]) {
      SortedStays(Roles(v.contents[id]));
    }
  }

  lemma SameMeaningForm(v: View, w: View, c: CanonicalPoset)
    requires SameMeaning(v, w) && IsCanonical(v, c)
    ensures IsCanonical(w, c)
  {
    hide IsDepth, StrictlySorted, Roles;
    forall e | e in c.events ensures EventStated(w, e) {
      assert EventStated(v, e);
    }
    forall k | k in c.classes ensures ClassStated(w, k) {
      assert ClassStated(v, k);
      assert ClassOf(w, k[0]) == ClassOf(v, k[0]);
    }
    forall id | id in w.contents && ClassOf(w, id) != {id} ensures exists k :: k in c.classes && id in k {
      assert ClassOf(w, id) == ClassOf(v, id);
    }
  }

  // ----- What a form describes -----

  ghost predicate EventReadable(e: CanonicalEvent) {
    e.id != [] && RolesWritable(e.observations) && Canonical(e.timings)
  }

  function PairsOf(events: seq<CanonicalEvent>): seq<(EventID, Content)>
    requires forall i :: 0 <= i < |events| ==> events[i].observations != []
  {
    if events == [] then []
    else [(events[0].id, Restored(events[0].observations, events[0].timings))] + PairsOf(events[1..])
  }

  function ClassSets(classes: seq<seq<EventID>>): seq<set<EventID>> {
    if classes == [] then [] else [Members(classes[0])] + ClassSets(classes[1..])
  }

  lemma {:induction false} PairAt(events: seq<CanonicalEvent>, i: nat)
    requires (forall k :: 0 <= k < |events| ==> events[k].observations != []) && i < |events|
    ensures |PairsOf(events)| == |events|
    ensures PairsOf(events)[i] == (events[i].id, Restored(events[i].observations, events[i].timings))
  {
    if i > 0 {
      PairAt(events[1..], i - 1);
    } else if |events| > 1 {
      PairAt(events[1..], 0);
    }
  }

  lemma {:induction false} ClassSetMembers(classes: seq<seq<EventID>>)
    ensures forall s :: s in ClassSets(classes) <==> exists k :: k in classes && Members(k) == s
  {
    if classes != [] {
      ClassSetMembers(classes[1..]);
      assert classes == [classes[0]] + classes[1..];
    }
  }

  ghost function DescriptionOf(c: CanonicalPoset): Description
    requires forall i :: 0 <= i < |c.events| ==> c.events[i].observations != []
  {
    Description(PairsOf(c.events), ClassSets(c.classes), c.edges)
  }

  lemma FormDescribes(v: View, c: CanonicalPoset)
    requires Shaped(v) && IsCanonical(v, c) && Writable(v)
    requires forall id :: id in v.contents ==> Roles(v.contents[id]) != [] && v.contents[id] == Restored(Roles(v.contents[id]), v.contents[id].timings)
    ensures forall i :: 0 <= i < |c.events| ==> c.events[i].observations != []
    ensures DescribesFully(v, DescriptionOf(c))
  {
    hide IsDepth, StrictlySorted, Roles, Shaped, RolesWritable;
    forall i | 0 <= i < |c.events| ensures c.events[i].observations != [] && EventStated(v, c.events[i]) {
      assert c.events[i] in c.events;
      WritableRoles(v, c.events[i].id);
    }
    var d := DescriptionOf(c);
    if c.events != [] {
      PairAt(c.events, 0);
    }
    forall i | 0 <= i < |d.events| ensures d.events[i].0 in v.contents && v.contents[d.events[i].0] == d.events[i].1 {
      PairAt(c.events, i);
    }
    assert Ids(d.events) == v.contents.Keys by {
      forall id | id in v.contents ensures id in Ids(d.events) {
        assert id in Members(EventIds(c.events));
        var i :| 0 <= i < |c.events| && EventIds(c.events)[i] == id;
        PairAt(c.events, i);
      }
      forall i | 0 <= i < |d.events| ensures d.events[i].0 in v.contents.Keys {
        PairAt(c.events, i);
      }
    }
    DescribedClasses(v, c.classes);
  }

  lemma WritableRoles(v: View, id: EventID)
    requires Writable(v) && id in v.contents
    ensures Roles(v.contents[id]) != [] && RolesWritable(Roles(v.contents[id])) && id != []
  {}

  lemma DescribedClasses(v: View, classes: seq<seq<EventID>>)
    requires ClassesStated(v, classes)
    ensures forall s :: s in ClassSets(classes) <==> exists id :: id in v.contents && s == ClassOf(v, id) && s != {id}
  {
    hide StrictlySorted;
    ClassSetMembers(classes);
    forall s ensures s in ClassSets(classes) <==> exists id :: id in v.contents && s == ClassOf(v, id) && s != {id} {
      if s in ClassSets(classes) {
        var k :| k in classes && Members(k) == s;
        assert ClassStated(v, k);
        TwoMembers(k);
      }
      if id :| id in v.contents && s == ClassOf(v, id) && s != {id} {
        var k :| k in classes && id in k;
        assert ClassStated(v, k) && id in Members(k);
        assert ClassOf(v, k[0]) == ClassOf(v, id);
      }
    }
  }

  lemma TwoMembers(k: seq<EventID>)
    requires |k| >= 2 && StrictlySorted(k)
    ensures Members(k) != {k[0]}
  {
    SortedDistinct(k, 0, 1);
  }

  // ----- Parsing -----

  /** The form is that of some consistent, writable view with restored content. */
  ghost predicate FormOf(v: View, c: CanonicalPoset) {
    && Consistent(v) && Writable(v) && IsCanonical(v, c)
    && forall id :: id in v.contents ==> Roles(v.contents[id]) != [] && v.contents[id] == Restored(Roles(v.contents[id]), v.contents[id].timings)
  }

  /** What the parser checks of an event's observations. */
  ghost predicate KeyedRoles(os: seq<Observation>) {
    && os != [] && forall i :: 0 <= i < |os| ==> os[i].name != [] && (i > 0 ==> Less(RoleKey(os[i - 1]), RoleKey(os[i])))
  }

  method ObservationsReadable(os: seq<Observation>) returns (ok: bool)
    ensures ok <==> KeyedRoles(os)
  {
    hide RoleKey;
    if |os| == 0 {
      return false;
    }
    for i := 0 to |os|
      invariant forall k :: 0 <= k < i ==> os[k].name != [] && (k > 0 ==> Less(RoleKey(os[k - 1]), RoleKey(os[k])))
    {
      if os[i].name == [] || (i > 0 && !Less(RoleKey(os[i - 1]), RoleKey(os[i]))) {
        return false;
      }
    }
    return true;
  }

  lemma WritableKeyed(os: seq<Observation>)
    requires RolesWritable(os)
    ensures KeyedRoles(os)
  {
    hide RoleKey, RoleLess;
  }

  lemma {:induction false} KeysAscend(os: seq<Observation>, i: nat, j: nat)
    requires KeyedRoles(os) && i < j < |os|
    ensures Less(RoleKey(os[i]), RoleKey(os[j]))
  {
    hide RoleKey;
    if i + 1 < j {
      KeysAscend(os, i, j - 1);
      LessTransitive(RoleKey(os[i]), RoleKey(os[j - 1]), RoleKey(os[j]));
    }
  }

  ghost predicate RolesInOrder(os: seq<Observation>) {
    forall i, j :: 0 <= i < j < |os| ==> !RoleLess(os[j], os[i])
  }

  lemma RoleTotal(a: Observation, b: Observation, c: Observation)
    ensures RoleLess(a, b) || RoleLess(b, a) || SameRole(a, b)
    ensures !RoleLess(b, a) && !RoleLess(c, b) ==> !RoleLess(c, a)
  {
    LessTotal(a.source, b.source);
    LessTotal(a.name, b.name);
    LessTotal(b.source, c.source);
    LessTotal(b.name, c.name);
    LessAsymmetric(a.source, c.source);
    LessAsymmetric(a.name, c.name);
    if Less(a.source, b.source) && Less(b.source, c.source) {
      LessTransitive(a.source, b.source, c.source);
    }
    if Less(a.name, b.name) && Less(b.name, c.name) {
      LessTransitive(a.name, b.name, c.name);
    }
    LessIrreflexive(a.name);
  }

  lemma {:induction false} InsertInOrder(o: Observation, os: seq<Observation>)
    requires RolesInOrder(os)
    ensures RolesInOrder(InsertRole(o, os))
  {
    hide RoleLess;
    if os != [] {
      var r := InsertRole(o, os);
      if RoleLess(os[0], o) {
        var rest := InsertRole(o, os[1..]);
        InsertInOrder(o, os[1..]);
        RoleLessAsymmetric(os[0], o);
        forall j | 0 <= j < |rest| ensures !RoleLess(rest[j], os[0]) {
          assert rest[j] in multiset(rest);
          assert rest[j] == o || rest[j] in os[1..];
        }
      } else {
        forall j | 0 <= j < |os| ensures !RoleLess(os[j], o) {
          RoleTotal(o, os[0], os[j]);
        }
      }
    }
  }

  lemma {:induction false} SortInOrder(os: seq<Observation>)
    ensures RolesInOrder(SortRoles(os))
  {
    if os != [] {
      SortInOrder(os[1..]);
      InsertInOrder(os[0], SortRoles(os[1..]));
    }
  }

  /** Sorted roles in ascending key order can be written. */
  lemma KeyedWritable(os: seq<Observation>)
    requires KeyedRoles(os) && SortRoles(os) == os
    ensures RolesWritable(os)
  {
    hide RoleLess;
    SortInOrder(os);
    forall i, j | 0 <= i < j < |os| ensures RoleLess(os[i], os[j]) && Less(RoleKey(os[i]), RoleKey(os[j])) {
      KeysAscend(os, i, j);
      RoleTotal(os[i], os[j], os[j]);
      LessIrreflexive(RoleKey(os[i]));
    }
  }

  lemma EventFormFacts(v: View, c: CanonicalPoset, i: nat)
    requires FormOf(v, c) && i < |c.events|
    ensures EventReadable(c.events[i]) && (!c.timed ==> c.events[i].timings == [])
    ensures i > 0 ==> Less(c.events[i - 1].id, c.events[i].id)
    ensures c.events[i].id !in Members(EventIds(c.events)[..i])
  {
    hide Roles, IsDepth, RolesWritable;
    assert c.events[i] in c.events && EventStated(v, c.events[i]);
    WritableRoles(v, c.events[i].id);
    assert i > 0 ==> Less(EventIds(c.events)[i - 1], EventIds(c.events)[i]);
    forall k | 0 <= k < i ensures EventIds(c.events)[k] != EventIds(c.events)[i] {
      LessIrreflexive(EventIds(c.events)[i]);
    }
  }

  lemma PairsStep(events: seq<CanonicalEvent>)
    requires events != [] && forall i :: 0 <= i < |events| ==> events[i].observations != []
    ensures EventOps(PairsOf(events)) ==
            [PutEvent(events[0].id, Restored(events[0].observations, events[0].timings))] + EventOps(PairsOf(events[1..]))
  {
    assert PairsOf(events)[1..] == PairsOf(events[1..]);
  }

  lemma RunStep(v: View, op: Op, ops: seq<Op>)
    ensures Run(v, [op] + ops) == Run(After(v, op), ops)
  {
    assert ([op] + ops)[1..] == ops;
  }

  /** The first n events are in the poset as restored, and nothing else is. */
  ghost predicate EventsHeld(v: View, events: seq<CanonicalEvent>, n: nat)
    requires n <= |events|
  {
    && v.edges == {} && v.contents.Keys == Members(EventIds(events)[..n])
    && forall k :: 0 <= k < n ==> EventHeld(v.contents, events[k])
  }

  ghost predicate EventHeld(contents: map<EventID, Content>, e: CanonicalEvent) {
    && e.id != [] && KeyedRoles(e.observations)
    && e.id in contents && contents[e.id] == Restored(e.observations, e.timings)
  }

  lemma NextHeld(v: View, w: View, events: seq<CanonicalEvent>, i: nat)
    requires i < |events| && EventsHeld(v, events, i)
    requires events[i].id != [] && KeyedRoles(events[i].observations) && events[i].id !in v.contents
    requires w == WithEvent(v, events[i].id, Restored(events[i].observations, events[i].timings))
    ensures EventsHeld(w, events, i + 1)
  {
    hide KeyedRoles;
    TakeOneMore(EventIds(events), i);
  }

  /** The event pass. */
  method ParseEvents(p: Poset, c: CanonicalPoset, ghost v: View, ghost good: bool) returns (ok: bool)
    requires p.Valid() && p.View() == Empty && (good ==> FormOf(v, c))
    requires good ==> forall i :: 0 <= i < |c.events| ==> c.events[i].observations != []
    modifies p
    ensures p.Valid()
    ensures good ==> ok && p.View() == Run(Empty, EventOps(PairsOf(c.events)))
    ensures good ==> p.View().contents.Keys == Members(EventIds(c.events))
    ensures ok ==> EventsHeld(p.View(), c.events, |c.events|)
  {
    hide EventsHeld, KeyedRoles, Sound, ViewOf, Lawful, FormOf, RolesWritable, Admissible, Canonical, EventOps, PairsOf, Run, WithEvent, SortByClock, After, Canonized;
    assert c.events[0..] == c.events;
    assert EventIds(c.events)[..0] == [] && Members<EventID>([]) == {};
    NothingHeld(c.events);
    for i := 0 to |c.events|
      invariant p.Valid() && EventsHeld(p.View(), c.events, i)
      invariant good ==> Run(p.View(), EventOps(PairsOf(c.events[i..]))) == Run(Empty, EventOps(PairsOf(c.events)))
      invariant good ==> p.View().contents.Keys == Members(EventIds(c.events)[..i])
    {
      var e := c.events[i];
      if good {
        EventFormFacts(v, c, i);
        WritableKeyed(e.observations);
      }
      if e.id == [] || (i > 0 && !Less(c.events[i - 1].id, e.id)) {
        return false;
      }
      var readable := ObservationsReadable(e.observations);
      if !readable || (!c.timed && e.timings != []) {
        return false;
      }
      var normalized := CanonicalizeEventTimings(e.timings);
      if good {
        CanonicalTimingsAdmissible(e.timings);
      }
      if normalized.None? || normalized.value != e.timings {
        return false;
      }
      KeyedNonempty(e.observations);
      ghost var before := p.View();
      var added := p.AddEvent(Offer(e.id, Restored(e.observations, e.timings), []));
      if good {
        ParsedEvent(v, c, i, before, added, p.View(), Restored(e.observations, e.timings));
        NextEvent(c.events, i, before);
      }
      if added.Fail? {
        return false;
      }
      CanonicalStays(Restored(e.observations, e.timings));
      NextHeld(before, p.View(), c.events, i);
    }
    assert c.events[|c.events|..] == [] && EventIds(c.events)[..|c.events|] == EventIds(c.events);
    ok := true;
    NothingToRun(p.View());
  }

  lemma KeyedNonempty(os: seq<Observation>)
    requires KeyedRoles(os)
    ensures os != []
  {}

  lemma NothingHeld(events: seq<CanonicalEvent>)
    ensures EventsHeld(Empty, events, 0)
  {
    assert EventIds(events)[..0] == [];
  }

  lemma CanonicalStays(content: Content)
    ensures Canonical(content.timings) ==> Canonized(content) == content
  {
    if Canonical(content.timings) {
      CanonicalTimingsAdmissible(content.timings);
    }
  }

  lemma NothingToRun(v: View)
    ensures Run(v, EventOps(PairsOf([]))) == v
  {
    assert PairsOf([]) == [] && EventOps([]) == [];
  }

  lemma PutFresh(v: View, id: EventID, content: Content)
    requires id !in v.contents && Canonical(content.timings)
    ensures Admissible(content.timings) && Canonized(content) == content
    ensures After(v, PutEvent(id, content)) == WithEvent(v, id, content)
    ensures WithEvent(v, id, content).contents.Keys == v.contents.Keys + {id}
  {
    CanonicalTimingsAdmissible(content.timings);
  }

  lemma NextEvent(events: seq<CanonicalEvent>, i: nat, before: View)
    requires i < |events| && forall k :: 0 <= k < |events| ==> events[k].observations != []
    ensures var e := events[i];
            Run(before, EventOps(PairsOf(events[i..]))) ==
            Run(After(before, PutEvent(e.id, Restored(e.observations, e.timings))), EventOps(PairsOf(events[i + 1..])))
  {
    hide After, Run, EventOps, PairsOf;
    var rest := events[i..];
    assert rest[1..] == events[i + 1..] && rest[0] == events[i];
    PairsStep(rest);
    RunStep(before, PutEvent(events[i].id, Restored(events[i].observations, events[i].timings)), EventOps(PairsOf(events[i + 1..])));
  }

  /** An event of a good form is fresh, admissible and stored as restored. */
  lemma ParsedEvent(v: View, c: CanonicalPoset, i: nat, before: View, added: Outcome, after: View, content: Content)
    requires FormOf(v, c) && i < |c.events| && content.timings == c.events[i].timings
    requires before.contents.Keys == Members(EventIds(c.events)[..i])
    requires added == if c.events[i].id in before.contents then Fail(EventExists)
                      else if !Admissible(content.timings) then Fail(InvalidTiming) else Ok
    requires added.Ok? ==> after == WithEvent(before, c.events[i].id, Canonized(content))
    ensures added.Ok? && after.contents.Keys == Members(EventIds(c.events)[..i + 1])
    ensures after == After(before, PutEvent(c.events[i].id, content))
  {
    hide FormOf, Admissible, Canonical, After, WithEvent, Canonized, RolesWritable;
    EventFormFacts(v, c, i);
    PutFresh(before, c.events[i].id, content);
    TakeOneMore(EventIds(c.events), i);
  }

  // ----- Classes and edges -----

  lemma ClassOpsStep(classes: seq<seq<EventID>>)
    requires classes != []
    ensures ClassOps(ClassSets(classes)) == [PutClass(Members(classes[0]))] + ClassOps(ClassSets(classes[1..]))
  {
    assert ClassSets(classes)[1..] == ClassSets(classes[1..]);
  }

  lemma TakesStep(v: View, op: Op, ops: seq<Op>)
    requires TakesAll(v, [op] + ops)
    ensures Takes(v, op) && TakesAll(After(v, op), ops)
  {
    assert ([op] + ops)[1..] == ops;
  }

  /** A listed class: nonempty, ascending, known and not listed before. */
  method ClassReadable(p: Poset, members: seq<EventID>, seen: set<EventID>) returns (ok: bool)
    ensures ok <==> |members| >= 2 && forall i :: 0 <= i < |members| ==>
                      && members[i] != [] && (i > 0 ==> Less(members[i - 1], members[i]))
                      && members[i] in p.events && members[i] !in seen
  {
    if |members| < 2 {
      return false;
    }
    for i := 0 to |members|
      invariant forall k :: 0 <= k < i ==>
                  && members[k] != [] && (k > 0 ==> Less(members[k - 1], members[k]))
                  && members[k] in p.events && members[k] !in seen
    {
      if members[i] == [] || (i > 0 && !Less(members[i - 1], members[i])) || members[i] !in p.events || members[i] in seen {
        return false;
      }
    }
    return true;
  }

  ghost function SeenIn(classes: seq<seq<EventID>>, i: nat): set<EventID>
    requires i <= |classes|
  {
    set k, id | 0 <= k < i && id in classes[k] :: id
  }

  lemma ClassFormFacts(v: View, c: CanonicalPoset, i: nat)
    requires FormOf(v, c) && i < |c.classes|
    ensures |c.classes[i]| >= 2
    ensures forall k :: 0 <= k < |c.classes[i]| ==>
              && c.classes[i][k] != [] && (k > 0 ==> Less(c.classes[i][k - 1], c.classes[i][k]))
              && c.classes[i][k] in v.contents && c.classes[i][k] !in SeenIn(c.classes, i)
    ensures i > 0 ==> |c.classes[i - 1]| >= 2 && Less(c.classes[i - 1][0], c.classes[i][0])
  {
    hide Roles, EventsStated, EdgesStated, RolesWritable, Less;
    var members := c.classes[i];
    assert members in c.classes && ClassStated(v, members);
    if i > 0 {
      assert c.classes[i - 1] in c.classes && ClassStated(v, c.classes[i - 1]);
      assert Less(Firsts(c.classes)[i - 1], Firsts(c.classes)[i]);
    }
    forall k | 0 <= k < |members|
      ensures members[k] != [] && members[k] in v.contents && members[k] !in SeenIn(c.classes, i)
    {
      assert members[k] in Members(members);
      if members[k] in SeenIn(c.classes, i) {
        var l :| 0 <= l < i && members[k] in c.classes[l];
        ClassesDisjoint(v, c.classes, l, i, members[k]);
      }
    }
  }

  lemma ClassesDisjoint(v: View, classes: seq<seq<EventID>>, l: nat, i: nat, id: EventID)
    requires Shaped(v) && ClassesStated(v, classes) && l < i < |classes| && id in classes[l]
    ensures id !in classes[i]
  {
    hide Shaped, ClassStated, StrictlySorted;
    assert classes[l] in classes && classes[i] in classes;
    if id in classes[i] {
      ListedRep(v, classes[l], id);
      ListedRep(v, classes[i], id);
      StatedNonempty(v, classes[l]);
      StatedNonempty(v, classes[i]);
      assert Firsts(classes)[l] == Firsts(classes)[i];
      SortedApartAt(Firsts(classes), l, i);
    }
  }

  lemma SortedApartAt(s: seq<Text>, l: nat, i: nat)
    requires StrictlySorted(s) && l < i < |s|
    ensures s[l] != s[i]
  {
    LessIrreflexive(s[i]);
  }

  /** The class pass: every class takes effect when the form is good. */
  method ParseClasses(p: Poset, c: CanonicalPoset, ghost v: View, ghost good: bool) returns (ok: bool)
    requires p.Valid()
    requires good ==> FormOf(v, c) && TakesAll(p.View(), ClassOps(ClassSets(c.classes))) && p.View().contents.Keys == v.contents.Keys
    modifies p
    ensures p.Valid()
    ensures good ==> ok && p.View() == Run(old(p.View()), ClassOps(ClassSets(c.classes)))
    ensures good ==> p.View().contents.Keys == v.contents.Keys
    ensures ok ==> p.View().contents == old(p.View()).contents && (old(p.View()).edges == {} ==> p.View().edges == {})
  {
    hide Sound, ViewOf, Lawful, FormOf, TakesAll, ClassOps, ClassSets, Run, ClassOutcome, AfterClass, LeastLawful, Consistent;
    ghost var start := p.View();
    var seen: set<EventID> := {};
    assert c.classes[0..] == c.classes;
    for i := 0 to |c.classes|
      invariant p.Valid() && p.View().contents == start.contents && (start.edges == {} ==> p.View().edges == {})
      invariant good ==> Run(p.View(), ClassOps(ClassSets(c.classes[i..]))) == Run(start, ClassOps(ClassSets(c.classes)))
      invariant good ==> TakesAll(p.View(), ClassOps(ClassSets(c.classes[i..])))
      invariant good ==> p.View().contents.Keys == v.contents.Keys
      invariant seen == SeenIn(c.classes, i)
    {
      ghost var before, rest := p.View(), c.classes[i..];
      assert rest[1..] == c.classes[i + 1..] && rest[0] == c.classes[i];
      KeysFacts(p.Stored());
      if good {
        ClassFormFacts(v, c, i);
        ClassOpsStep(rest);
        TakesStep(before, PutClass(Members(c.classes[i])), ClassOps(ClassSets(c.classes[i + 1..])));
        RunStep(before, PutClass(Members(c.classes[i])), ClassOps(ClassSets(c.classes[i + 1..])));
        TakenClass(before, c.classes[i]);
      }
      var readable := ClassReadable(p, c.classes[i], seen);
      if !readable || (i > 0 && (|c.classes[i - 1]| == 0 || !Less(c.classes[i - 1][0], c.classes[i][0]))) {
        return false;
      }
      SeenGrows(c.classes, i);
      seen := seen + Members(c.classes[i]);
      ClassKeeps(before, Members(c.classes[i]));
      var merged := p.AddCausalEquivalenceClass(c.classes[i]);
      if merged.Fail? {
        return false;
      }
    }
    assert c.classes[|c.classes|..] == [];
    ok := true;
    NoClassesToRun(p.View());
  }

  lemma ClassKeeps(v: View, ids: set<EventID>)
    ensures AfterClass(v, ids).contents == v.contents && (v.edges == {} ==> AfterClass(v, ids).edges == {})
  {
    hide ClassFits;
  }

  lemma SeenGrows(classes: seq<seq<EventID>>, i: nat)
    requires i < |classes|
    ensures SeenIn(classes, i + 1) == SeenIn(classes, i) + Members(classes[i])
  {}

  lemma NoClassesToRun(v: View)
    ensures Run(v, ClassOps(ClassSets([]))) == v
  {
    assert ClassSets([]) == [] && ClassOps([]) == [];
  }

  lemma TakenClass(v: View, members: seq<EventID>)
    requires Takes(v, PutClass(Members(members)))
    ensures ClassOutcome(v, Members(members)).Ok?
    ensures After(v, PutClass(Members(members))) == AfterClass(v, Members(members))
    ensures AfterClass(v, Members(members)).contents == v.contents
  {
    hide Consistent, Unordered, Heads;
    WithClassContents(v, Heads(v, Members(members)));
  }

  lemma EdgeOpsStep(edges: seq<(EventID, EventID)>)
    requires edges != []
    ensures EdgeOps(edges) == [PutEdge(edges[0].0, edges[0].1)] + EdgeOps(edges[1..])
  {}

  lemma TakenEdge(v: View, w: View, e: (EventID, EventID))
    requires Consistent(v) && Takes(v, PutEdge(e.0, e.1)) && v.contents.Keys == w.contents.Keys
    requires Shaped(w) && e in w.edges
    ensures EdgeOutcome(v, e.0, e.1).Ok? && AfterEdge(v, e.0, e.1).contents == v.contents
  {
    hide Consistent, Reach;
    EdgeReps(w, e.0, e.1);
    EdgeOutcomeIff(v, e.0, e.1);
  }

  lemma EdgeFormFacts(v: View, c: CanonicalPoset, i: nat)
    requires FormOf(v, c) && i < |c.edges|
    ensures Shaped(v) && c.edges[i] in v.edges && c.edges[i].0 != [] && c.edges[i].1 != []
    ensures i > 0 ==> Less(EdgeKey(c.edges[i - 1]), EdgeKey(c.edges[i]))
  {
    hide Roles, EventsStated, ClassesStated, RolesWritable, EdgeKey;
    assert c.edges[i] in Members(c.edges);
    assert i > 0 ==> Less(Keyed(c.edges)[i - 1], Keyed(c.edges)[i]);
    assert (c.edges[i].0, c.edges[i].1) in v.edges;
    EdgeReps(v, c.edges[i].0, c.edges[i].1);
  }

  /** The edge pass. */
  method ParseEdges(p: Poset, c: CanonicalPoset, ghost v: View, ghost good: bool) returns (ok: bool)
    requires p.Valid()
    requires good ==> FormOf(v, c) && TakesAll(p.View(), EdgeOps(c.edges)) && p.View().contents.Keys == v.contents.Keys
    modifies p
    ensures p.Valid()
    ensures good ==> ok && p.View() == Run(old(p.View()), EdgeOps(c.edges))
    ensures ok ==> p.View().contents == old(p.View()).contents && |p.View().edges| <= |old(p.View()).edges| + |c.edges|
  {
    hide Sound, ViewOf, Lawful, FormOf, TakesAll, EdgeOps, Run, EdgeOutcome, AfterEdge, LeastLawful, Consistent, EdgeKey;
    ghost var start := p.View();
    assert c.edges[0..] == c.edges;
    for i := 0 to |c.edges|
      invariant p.Valid() && p.View().contents == start.contents && |p.View().edges| <= |start.edges| + i
      invariant good ==> Run(p.View(), EdgeOps(c.edges[i..])) == Run(start, EdgeOps(c.edges))
      invariant good ==> TakesAll(p.View(), EdgeOps(c.edges[i..])) && p.View().contents.Keys == v.contents.Keys
    {
      ghost var before, rest, e := p.View(), c.edges[i..], c.edges[i];
      assert rest[1..] == c.edges[i + 1..] && rest[0] == e;
      SoundConsistent(p.Stored());
      if good {
        EdgeFormFacts(v, c, i);
        EdgeOpsStep(rest);
        TakesStep(before, PutEdge(e.0, e.1), EdgeOps(c.edges[i + 1..]));
        RunStep(before, PutEdge(e.0, e.1), EdgeOps(c.edges[i + 1..]));
        TakenEdge(before, v, e);
      }
      if c.edges[i].0 == [] || c.edges[i].1 == [] || (i > 0 && !Less(EdgeKey(c.edges[i - 1]), EdgeKey(c.edges[i]))) {
        return false;
      }
      EdgeKeeps(before, e.0, e.1);
      var added := p.AddCausal(c.edges[i].0, c.edges[i].1);
      if added.Fail? {
        return false;
      }
    }
    assert c.edges[|c.edges|..] == [];
    ok := true;
    NoEdgesToRun(p.View());
  }

  lemma EdgeKeeps(v: View, from: EventID, to: EventID)
    ensures AfterEdge(v, from, to).contents == v.contents && |AfterEdge(v, from, to).edges| <= |v.edges| + 1
  {
    hide EdgeFits;
  }

  lemma NoEdgesToRun(v: View)
    ensures Run(v, EdgeOps([])) == v
  {
    assert EdgeOps([]) == [];
  }

  // ----- The parser -----

  /** The passes on a good form rebuild its view. */
  lemma PassesRebuild(v: View, c: CanonicalPoset)
    requires FormOf(v, c)
    ensures forall i :: 0 <= i < |c.events| ==> c.events[i].observations != []
    ensures var built := Run(Empty, EventOps(PairsOf(c.events)));
            && TakesAll(built, ClassOps(ClassSets(c.classes)))
            && TakesAll(Run(built, ClassOps(ClassSets(c.classes))), EdgeOps(c.edges))
            && Run(Run(built, ClassOps(ClassSets(c.classes))), EdgeOps(c.edges)) == v
  {
    hide Writable, IsCanonical, Run, TakesAll, EventOps, ClassOps, EdgeOps, PairsOf, ClassSets, Consistent, DescribesFully;
    ConsistentShaped(v);
    FormDescribes(v, c);
    var d := DescriptionOf(c);
    var xs, ys, zs := EventOps(d.events), ClassOps(d.classes), EdgeOps(d.edges);
    RebuildsExactly(v, d);
    TakesAppend(Empty, xs, ys + zs);
    TakesAppend(Run(Empty, xs), ys, zs);
    RunAppend(Empty, xs, ys + zs);
    RunAppend(Run(Empty, xs), ys, zs);
  }


  /** The listed identities are the built view's. */
  lemma BuiltKeys(v: View, c: CanonicalPoset)
    requires FormOf(v, c)
    ensures Members(EventIds(c.events)) == v.contents.Keys
  {
    hide Roles, RolesWritable, Consistent, StrictlySorted;
  }

  ghost predicate AsRestored(c: Content) {
    Roles(c) != [] && RolesWritable(Roles(c)) && c == Restored(Roles(c), c.timings)
  }

  lemma HeldAsRestored(contents: map<EventID, Content>, e: CanonicalEvent)
    requires EventHeld(contents, e) && e.observations == Roles(contents[e.id])
    ensures e.id != [] && AsRestored(contents[e.id])
  {
    hide KeyedRoles, RolesWritable;
    KeyedNonempty(e.observations);
    KeyedWritable(e.observations);
  }

  lemma AllAsRestored(v: View, events: seq<CanonicalEvent>, id: EventID)
    requires EventsStated(v, events) && id in v.contents
    requires forall k :: 0 <= k < |events| ==> EventHeld(v.contents, events[k])
    ensures id != [] && AsRestored(v.contents[id])
  {
    hide AsRestored, Roles, IsDepth, StrictlySorted, EventHeld;
    assert id in Members(EventIds(events));
    var k :| 0 <= k < |events| && EventIds(events)[k] == id;
    assert EventHeld(v.contents, events[k]) && events[k] in events;
    HeldAsRestored(v.contents, events[k]);
  }

  /** Whatever was read back and has the form that was read is the restored view of that form. */
  lemma AcceptedForm(v: View, c: CanonicalPoset)
    requires Consistent(v) && IsForm(v, c) && |v.edges| <= |c.edges|
    requires forall k :: 0 <= k < |c.events| ==> EventHeld(v.contents, c.events[k])
    ensures FormOf(v, c)
  {
    hide Consistent, EventHeld, EventsStated, ClassesStated, EdgesListed, EdgesStated, EdgeKeysApart, Roles, RolesWritable;
    ListedAll(v, c.edges);
    StatedApart(v, c.edges);
    forall id | id in v.contents ensures id != [] && AsRestored(v.contents[id]) {
      AllAsRestored(v, c.events, id);
    }
  }

  /** ParseCanonicalPoset accepts exactly the forms of consistent writable views with restored
      content, and rebuilds the view. */
  method ParseCanonicalPoset(c: CanonicalPoset, ghost v: View) returns (r: Option<Poset>)
    ensures r.Some? ==> fresh(r.value) && r.value.Valid() && FormOf(r.value.View(), c)
    ensures FormOf(v, c) ==> r.Some? && r.value.View() == v
  {
    hide Sound, ViewOf, Lawful, FormOf, IsCanonical, IsForm, EventHeld, TakesAll, Run, EventOps, ClassOps, EdgeOps, PairsOf, ClassSets, EdgeKeysApart;
    ghost var good := FormOf(v, c);
    if good {
      PassesRebuild(v, c);
      BuiltKeys(v, c);
      GoodFlags(v, c);
    }
    if c.preorder != (c.classes != []) {
      return None;
    }
    var p := new Poset();
    var ok := ParseEvents(p, c, v, good);
    if !ok {
      return None;
    }
    ok := ParseClasses(p, c, v, good);
    if !ok {
      return None;
    }
    ok := ParseEdges(p, c, v, good);
    if !ok {
      return None;
    }
    var cyclic, again := CanonicalForm(p);
    if good {
      SameForm(v, c, again);
    }
    if cyclic || again != c {
      return None;
    }
    SoundConsistent(p.Stored());
    AcceptedForm(p.View(), c);
    return Some(p);
  }

  lemma GoodFlags(v: View, c: CanonicalPoset)
    requires FormOf(v, c)
    ensures (c.preorder <==> c.classes != []) && EdgeKeysApart(v.edges) && IsCanonical(v, c) && Shaped(v)
  {
    hide Roles, RolesWritable, EventsStated, ClassesStated, EdgesStated, EdgeKeysApart;
  }

  lemma SameForm(v: View, c: CanonicalPoset, again: CanonicalPoset)
    requires FormOf(v, c) && (EdgeKeysApart(v.edges) ==> IsCanonical(v, again))
    ensures again == c
  {
    hide IsCanonical, FormOf, EdgeKeysApart;
    GoodFlags(v, c);
    SameItself(v);
    CanonicalIffSameMeaning(v, v, again, c);
  }

  lemma SameItself(v: View)
    ensures SameMeaning(v, v)
  {}

  ghost function RestoredView(v: View): (w: View)
    requires Writable(v)
  {
    View(map id | id in v.contents :: Restored(Roles(v.contents[id]), v.contents[id].timings), v.cls, v.edges)
  }

  lemma RestoredForm(v: View, c: CanonicalPoset)
    requires Consistent(v) && Writable(v) && IsCanonical(v, c)
    ensures FormOf(RestoredView(v), c) && SameMeaning(v, RestoredView(v))
  {
    hide Consistent, IsCanonical, Roles, RolesWritable, NulFree;
    var w := RestoredView(v);
    forall id | id in v.contents ensures Roles(v.contents[id]) != [] {
      WritableRoles(v, id);
    }
    RestoredMeaning(v, w);
    SameMeaningForm(v, w, c);
  }

  /** Writing a poset and reading it back gives a valid poset of the same meaning and form
      exactly when the poset is writable. */
  method RoundTrip(p: Poset) returns (c: CanonicalPoset, q: Option<Poset>)
    requires p.Valid()
    ensures q.Some? ==> fresh(q.value) && q.value.Valid() && IsCanonical(q.value.View(), c)
    ensures q.Some? && SameMeaning(p.View(), q.value.View()) <==> Writable(p.View())
    ensures Writable(p.View()) ==> IsCanonical(p.View(), c)
  {
    hide Sound, ViewOf, Lawful, FormOf, IsCanonical, IsForm, SameMeaning, Consistent, RestoredView, EdgeKeysApart, Writable;
    SoundConsistent(p.Stored());
    var cyclic;
    cyclic, c := CanonicalForm(p);
    ghost var v := p.View();
    ghost var restored := v;
    if Writable(v) {
      WritableApart(v);
      RestoredForm(v, c);
      restored := RestoredView(v);
    }
    q := ParseCanonicalPoset(c, restored);
    if q.Some? {
      FormIsCanonical(q.value.View(), c);
      if SameMeaning(v, q.value.View()) {
        SameWritable(v, q.value.View());
      }
    }
  }

  lemma WritableApart(v: View)
    requires Writable(v)
    ensures EdgeKeysApart(v.edges)
  {
    hide EdgeKeysApart;
  }

  lemma SameWritable(v: View, w: View)
    requires SameMeaning(v, w) && Writable(w)
    ensures Writable(v)
  {
    hide RolesWritable, EdgeKeysApart, Roles;
  }

  lemma FormIsCanonical(v: View, c: CanonicalPoset)
    requires FormOf(v, c)
    ensures IsCanonical(v, c) && Writable(v)
  {}
}
