/** Qualified roles of an occurrence (event_observation.go): how a basic connection's view
    of an existing event is admitted. */
module Observations {
  import opened Texts
  import opened Timings
  import opened CausalOrder

  predicate SameRole(a: Observation, b: Observation) {
    a.source == b.source && a.name == b.name
  }

  /** observationLess: by source, then by name. */
  predicate RoleLess(a: Observation, b: Observation) {
    if a.source != b.source then Less(a.source, b.source) else Less(a.name, b.name)
  }

  function InsertRole(o: Observation, os: seq<Observation>): (r: seq<Observation>)
    ensures multiset(r) == multiset{o} + multiset(os)
  {
    if os == [] then [o]
    else if !RoleLess(os[0], o) then [o] + os
    else
      assert os == [os[0]] + os[1..];
      [os[0]] + InsertRole(o, os[1..])
  }

  function SortRoles(os: seq<Observation>): (r: seq<Observation>)
    ensures multiset(r) == multiset(os)
  {
    if os == [] then []
    else
      assert os == [os[0]] + os[1..];
      InsertRole(os[0], SortRoles(os[1..]))
  }

  /** EventObservations: the stored roles, or the event's own when none are stored, sorted. */
  function Roles(c: Content): seq<Observation> {
    SortRoles(if c.observations == [] then [Observation(c.source, c.name, c.params)] else c.observations)
  }

  /** The offered intervals on clocks the event is not yet related to. */
  function FreshTimings(known: seq<EventTiming>, offered: seq<EventTiming>): (r: seq<EventTiming>) {
    if offered == [] then []
    else
      var rest := FreshTimings(known, offered[1..]);
      if exists i :: 0 <= i < |known| && known[i].clock == offered[0].clock then rest else [offered[0]] + rest
  }

  /** Offered intervals on known clocks must repeat what is known. */
  ghost predicate Agrees(known: seq<EventTiming>, offered: seq<EventTiming>) {
    forall t, u :: t in known && u in offered && t.clock == u.clock ==> t == u
  }

  /** The first listed role with o's qualified name, which alone decides. */
  ghost function FirstRole(roles: seq<Observation>, o: Observation): Option<Observation> {
    if roles == [] then None
    else if SameRole(roles[0], o) then Some(roles[0])
    else FirstRole(roles[1..], o)
  }

  ghost predicate RoleConflict(c: Content, o: Observation) {
    FirstRole(Roles(c), o).Some? && FirstRole(Roles(c), o).value.params != o.params
  }

  ghost predicate HasRole(c: Content, o: Observation) {
    FirstRole(Roles(c), o).Some?
  }

  lemma {:induction false} FirstRoleFound(roles: seq<Observation>, o: Observation)
    ensures FirstRole(roles, o).Some? <==> exists r :: r in roles && SameRole(r, o)
    ensures FirstRole(roles, o).Some? ==> FirstRole(roles, o).value in roles && SameRole(FirstRole(roles, o).value, o)
  {
    if roles != [] && !SameRole(roles[0], o) {
      FirstRoleFound(roles[1..], o);
      forall r | r in roles && SameRole(r, o) ensures r in roles[1..] {
        assert roles == [roles[0]] + roles[1..];
      }
    }
  }

  method FindRole(roles: seq<Observation>, o: Observation) returns (r: Option<Observation>)
    ensures r == FirstRole(roles, o)
  {
    for index := 0 to |roles|
      invariant FirstRole(roles, o) == FirstRole(roles[index..], o)
    {
      if SameRole(roles[index], o) {
        return Some(roles[index]);
      }
    }
    return None;
  }

  /** What an admitted observation leaves in the occurrence. */
  ghost function Observed(c: Content, o: Observation, offered: seq<EventTiming>): Content {
    c.(timings := SortByClock(c.timings + FreshTimings(c.timings, offered)),
       observations := if HasRole(c, o) then c.observations else SortRoles(Roles(c) + [o]))
  }

  /** One role per qualified name: admitted observations never give one role two values. */
  ghost predicate RolesAgree(c: Content) {
    forall r, s :: r in Roles(c) && s in Roles(c) && SameRole(r, s) ==> r == s
  }

  lemma SortedSameRoles(os: seq<Observation>)
    ensures forall r :: r in SortRoles(os) <==> r in os
  {
    forall r ensures r in SortRoles(os) <==> r in os {
      assert r in SortRoles(os) <==> r in multiset(SortRoles(os));
      assert r in os <==> r in multiset(os);
    }
  }

  lemma RolesAfter(c: Content, o: Observation, offered: seq<EventTiming>)
    ensures forall r :: r in Roles(Observed(c, o, offered)) <==> r in Roles(c) || (!HasRole(c, o) && r == o)
  {
    var d := Observed(c, o, offered);
    if !HasRole(c, o) {
      var all := Roles(c) + [o];
      SortedSameRoles(all);
      assert o in all && o in d.observations;
      SortedSameRoles(d.observations);
    }
  }

  lemma ObservedRolesAgree(c: Content, o: Observation, offered: seq<EventTiming>)
    requires RolesAgree(c) && !RoleConflict(c, o)
    ensures RolesAgree(Observed(c, o, offered)) && HasRole(Observed(c, o, offered), o)
  {
    hide Roles, Observed;
    RolesAfter(c, o, offered);
    FirstRoleFound(Roles(c), o);
    FirstRoleFound(Roles(Observed(c, o, offered)), o);
    assert SameRole(o, o);
  }

  method MergeTimings(known: seq<EventTiming>, offered: seq<EventTiming>) returns (r: Option<seq<EventTiming>>)
    requires Canonical(known)
    ensures r.Some? <==> Agrees(known, offered) && Admissible(known + FreshTimings(known, offered))
    ensures r.Some? ==> Canonical(r.value) && r.value == SortByClock(known + FreshTimings(known, offered))
  {
    var merged := known;
    for index := 0 to |offered|
      invariant forall t, i :: t in known && 0 <= i < index && t.clock == offered[i].clock ==> t == offered[i]
      invariant merged + FreshTimings(known, offered[index..]) == known + FreshTimings(known, offered)
    {
      var existing := Timing(known, offered[index].clock);
      assert offered[index..][1..] == offered[index + 1..];
      if existing.Some? {
        if existing.value != offered[index] {
          return None;
        }
        SameClockSame(known, existing.value);
      } else {
        merged := merged + [offered[index]];
      }
    }
    assert offered[|offered|..] == [] && merged + [] == merged;
    r := CanonicalizeEventTimings(merged);
  }

  lemma SameClockSame(ts: seq<EventTiming>, t: EventTiming)
    requires Canonical(ts) && t in ts
    ensures forall u :: u in ts && u.clock == t.clock ==> u == t
  {
    CanonicalDistinct(ts);
  }

  // ----- In plain terms -----

  ghost predicate RoleBefore(a: Observation, b: Observation) {
    AtMost(a.source, b.source) && (a.source == b.source ==> AtMost(a.name, b.name))
  }

  ghost predicate RolesRise(os: seq<Observation>) {
    forall i, j :: 0 <= i < j < |os| ==> RoleBefore(os[i], os[j])
  }

  lemma RoleTies(a: Observation, b: Observation, c: Observation)
    ensures !RoleLess(b, a) <==> RoleBefore(a, b)
    ensures RoleBefore(a, b) && RoleBefore(b, c) ==> RoleBefore(a, c)
    ensures RoleLess(a, b) ==> RoleBefore(a, b)
  {
    hide Less, AtMost;
    TextTies(a.source, b.source, c.source);
    TextTies(a.name, b.name, c.name);
    LessAsymmetric(a.source, b.source);
    LessAsymmetric(a.name, b.name);
    LessAsymmetric(b.source, c.source);
  }

  lemma {:induction false} InsertRoleInOrder(o: Observation, os: seq<Observation>)
    requires RolesRise(os)
    ensures RolesRise(InsertRole(o, os))
  {
    hide RoleBefore, RoleLess;
    if os != [] {
      RoleTies(o, os[0], os[0]);
      RoleTies(os[0], o, o);
      assert RolesRise(os[1..]);
      if RoleLess(os[0], o) {
        var rest := InsertRole(o, os[1..]);
        InsertRoleInOrder(o, os[1..]);
        SameMembers(rest, [o] + os[1..]);
        forall j | 0 <= j < |rest| ensures RoleBefore(os[0], rest[j]) {
          assert rest[j] in [o] + os[1..];
        }
      } else {
        forall j | 0 <= j < |os| ensures RoleBefore(o, os[j]) {
          RoleTies(o, os[0], os[j]);
        }
      }
    }
  }

  lemma {:induction false} SortedRolesInOrder(os: seq<Observation>)
    ensures RolesRise(SortRoles(os))
  {
    hide RoleBefore;
    if os != [] {
      SortedRolesInOrder(os[1..]);
      InsertRoleInOrder(os[0], SortRoles(os[1..]));
    }
  }

  /** The roles of an occurrence are those stored, or its own when none is, by source and then
      by name. */
  lemma RolesInOrder(c: Content)
    ensures RolesRise(Roles(c))
    ensures forall o :: o in Roles(c) <==>
              if c.observations == [] then o == Observation(c.source, c.name, c.params) else o in c.observations
  {
    hide RolesRise, SortRoles;
    var own := [Observation(c.source, c.name, c.params)];
    SortedRolesInOrder(if c.observations == [] then own else c.observations);
    SortedSameRoles(if c.observations == [] then own else c.observations);
  }

  lemma {:induction false} FreshExactly(known: seq<EventTiming>, offered: seq<EventTiming>, t: EventTiming)
    ensures t in FreshTimings(known, offered) <==> t in offered && forall u :: u in known ==> u.clock != t.clock
  {
    if offered != [] {
      FreshExactly(known, offered[1..], t);
      assert offered == [offered[0]] + offered[1..];
      if exists i :: 0 <= i < |known| && known[i].clock == offered[0].clock {
        var i :| 0 <= i < |known| && known[i].clock == offered[0].clock;
        assert known[i] in known;
      }
    }
  }

  /** Accepted intervals are those known and those offered. */
  lemma UnionOfTimings(known: seq<EventTiming>, offered: seq<EventTiming>, t: EventTiming)
    requires Agrees(known, offered)
    ensures t in SortByClock(known + FreshTimings(known, offered)) <==> t in known || t in offered
  {
    var all := known + FreshTimings(known, offered);
    SameMembers(SortByClock(all), all);
    FreshExactly(known, offered, t);
  }

  /** A second observation in a known role must repeat its values, whatever comes first. */
  lemma ConflictIff(c: Content, o: Observation)
    requires RolesAgree(c)
    ensures RoleConflict(c, o) <==> exists r :: r in Roles(c) && r.source == o.source && r.name == o.name && r.params != o.params
  {
    hide Roles;
    FirstRoleFound(Roles(c), o);
  }
}
