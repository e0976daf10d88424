/** Induced-dependency policies of event-pattern maps (arch/deterministic_map.go): six
    ways to lift the causal order of domain events to the matches that consumed them. */
module MapPolicies {
  import opened Texts
  import opened Reachability
  import opened CausalOrder
  import opened Stores
  import opened Posets
  import opened FiringOrders

  datatype Policy = NoInduced | Strong | Maxima | Dominance | Overlook | Diff

  // ----- What each policy means -----

  ghost predicate AllBefore(v: View, left: set<EventID>, right: set<EventID>) {
    left != {} && forall l, r :: l in left && r in right ==> Before(v, l, r)
  }

  ghost predicate BeforeSome(v: View, l: EventID, right: set<EventID>) {
    exists r :: r in right && Before(v, l, r)
  }

  ghost predicate AfterSome(v: View, left: set<EventID>, r: EventID) {
    exists l :: l in left && Before(v, l, r)
  }

  /** The events of a match that no other event of the match precedes. */
  ghost function Earliest(v: View, events: set<EventID>): set<EventID> {
    set x | x in events && !AfterSome(v, events, x)
  }

  ghost predicate Induces(v: View, left: set<EventID>, right: set<EventID>, policy: Policy) {
    left != {} && right != {} &&
    match policy
    case NoInduced => false
    case Strong => AllBefore(v, left, right)
    case Maxima => AllBefore(v, Earliest(v, left), Earliest(v, right))
    case Dominance => right - left != {} && forall l :: l in left ==> BeforeSome(v, l, right - left)
    case Overlook => forall r :: r in right ==> AfterSome(v, left, r)
    case Diff => AllBefore(v, left, right - left)
  }

  // ----- Deciding a policy -----

  /** IsCausallyBefore, false also for absent and equal events. */
  method CausallyBefore(domain: Poset, before: EventID, after: EventID) returns (r: bool)
    requires domain.Valid()
    ensures r <==> Before(domain.View(), before, after)
  {
    hide Sound, ViewOf;
    KeysFacts(domain.Stored());
    if before == after || before !in domain.events || after !in domain.events {
      return false;
    }
    r := domain.CanReachClass(before, after);
  }

  method AnyAfter(domain: Poset, before: EventID, afters: seq<EventID>) returns (found: bool)
    requires domain.Valid()
    ensures found <==> BeforeSome(domain.View(), before, Members(afters))
  {
    hide Sound, ViewOf, Before;
    for index := 0 to |afters|
      invariant forall i :: 0 <= i < index ==> !Before(domain.View(), before, afters[i])
    {
      found := CausallyBefore(domain, before, afters[index]);
      if found {
        assert afters[index] in Members(afters);
        return;
      }
    }
    return false;
  }

  method AnyBefore(domain: Poset, befores: seq<EventID>, after: EventID) returns (found: bool)
    requires domain.Valid()
    ensures found <==> AfterSome(domain.View(), Members(befores), after)
  {
    hide Sound, ViewOf, Before;
    for index := 0 to |befores|
      invariant forall i :: 0 <= i < index ==> !Before(domain.View(), befores[i], after)
    {
      found := CausallyBefore(domain, befores[index], after);
      if found {
        assert befores[index] in Members(befores);
        return;
      }
    }
    return false;
  }

  method AllEventsBefore(domain: Poset, left: seq<EventID>, right: seq<EventID>) returns (all: bool)
    requires domain.Valid()
    ensures all <==> AllBefore(domain.View(), Members(left), Members(right))
  {
    hide Sound, ViewOf, Before;
    MembersEmpty(left);
    if |left| == 0 {
      return false;
    }
    for i := 0 to |left|
      invariant forall k, r :: 0 <= k < i && r in right ==> Before(domain.View(), left[k], r)
    {
      for j := 0 to |right|
        invariant forall k :: 0 <= k < j ==> Before(domain.View(), left[i], right[k])
      {
        all := CausallyBefore(domain, left[i], right[j]);
        if !all {
          assert left[i] in Members(left) && right[j] in Members(right);
          return;
        }
      }
    }
    return true;
  }

  method EventSetDifference(left: seq<EventID>, right: seq<EventID>) returns (r: seq<EventID>)
    ensures Members(r) == Members(left) - Members(right)
  {
    r := [];
    for index := 0 to |left|
      invariant Members(r) == Members(left[..index]) - Members(right)
    {
      TakeOneMore(left, index);
      if left[index] !in right {
        assert Members(r + [left[index]]) == Members(r) + {left[index]};
        r := r + [left[index]];
      }
    }
    TakeAll(left);
  }

  method MatchMaxima(domain: Poset, events: seq<EventID>) returns (r: seq<EventID>)
    requires domain.Valid()
    ensures Members(r) == Earliest(domain.View(), Members(events))
  {
    hide Sound, ViewOf, Before, AfterSome;
    ghost var v := domain.View();
    r := [];
    for index := 0 to |events|
      invariant Members(r) == set x | x in Members(events[..index]) && !AfterSome(v, Members(events), x)
    {
      TakeOneMore(events, index);
      var preceded := AnyBefore(domain, events, events[index]);
      if !preceded {
        assert Members(r + [events[index]]) == Members(r) + {events[index]};
        r := r + [events[index]];
      }
    }
    TakeAll(events);
  }

  method Dominates(domain: Poset, left: seq<EventID>, right: seq<EventID>) returns (r: bool)
    requires domain.Valid()
    ensures r <==> right != [] && forall l :: l in Members(left) ==> BeforeSome(domain.View(), l, Members(right))
  {
    hide Sound, ViewOf, BeforeSome;
    if |right| == 0 {
      return false;
    }
    for index := 0 to |left|
      invariant forall i :: 0 <= i < index ==> BeforeSome(domain.View(), left[i], Members(right))
    {
      r := AnyAfter(domain, left[index], right);
      if !r {
        assert left[index] in Members(left);
        return;
      }
    }
    return true;
  }

  method Overlooks(domain: Poset, left: seq<EventID>, right: seq<EventID>) returns (r: bool)
    requires domain.Valid()
    ensures r <==> forall x :: x in Members(right) ==> AfterSome(domain.View(), Members(left), x)
  {
    hide Sound, ViewOf, AfterSome;
    for index := 0 to |right|
      invariant forall i :: 0 <= i < index ==> AfterSome(domain.View(), Members(left), right[i])
    {
      r := AnyBefore(domain, left, right[index]);
      if !r {
        assert right[index] in Members(right);
        return;
      }
    }
    return true;
  }

  /** mapMatchInduces. */
  method MatchInduces(domain: Poset, left: seq<EventID>, right: seq<EventID>, policy: Policy) returns (r: bool)
    requires domain.Valid()
    ensures r <==> Induces(domain.View(), Members(left), Members(right), policy)
  {
    hide Sound, ViewOf, AllBefore, BeforeSome, AfterSome, Earliest;
    MembersEmpty(left);
    MembersEmpty(right);
    if |left| == 0 || |right| == 0 {
      return false;
    }
    match policy
    case NoInduced => r := false;
    case Strong => r := AllEventsBefore(domain, left, right);
    case Maxima =>
      var l := MatchMaxima(domain, left);
      var m := MatchMaxima(domain, right);
      r := AllEventsBefore(domain, l, m);
    case Dominance =>
      var rightOnly := EventSetDifference(right, left);
      MembersEmpty(rightOnly);
      r := Dominates(domain, left, rightOnly);
    case Overlook => r := Overlooks(domain, left, right);
    case Diff =>
      var rightOnly := EventSetDifference(right, left);
      r := AllEventsBefore(domain, left, rightOnly);
  }

  ghost predicate IsFiringRow(v: View, matches: seq<seq<EventID>>, policy: Policy, i: nat, row: seq<bool>)
    requires i < |matches|
  {
    |row| == |matches| &&
    forall j: nat :: j < |matches| ==>
      (row[j] <==> i != j && Induces(v, Members(matches[i]), Members(matches[j]), policy))
  }

  /** relation[i][j] for distinct firings: the match of i induces that of j. */
  ghost predicate IsFiringRelation(v: View, matches: seq<seq<EventID>>, policy: Policy, relation: Matrix) {
    |relation| == |matches| &&
    forall i: nat :: i < |matches| ==> IsFiringRow(v, matches, policy, i, relation[i])
  }

  method FiringRow(domain: Poset, matches: seq<seq<EventID>>, policy: Policy, i: nat) returns (row: seq<bool>)
    requires domain.Valid() && i < |matches|
    ensures IsFiringRow(domain.View(), matches, policy, i, row)
  {
    hide Sound, ViewOf, Induces;
    row := [];
    for j := 0 to |matches|
      invariant |row| == j
      invariant forall k: nat :: k < j ==>
                  (row[k] <==> i != k && Induces(domain.View(), Members(matches[i]), Members(matches[k]), policy))
    {
      var induced := false;
      if i != j {
        induced := MatchInduces(domain, matches[i], matches[j], policy);
      }
      row := row + [induced];
    }
  }

  /** mapFiringRelation. */
  method FiringRelation(domain: Poset, matches: seq<seq<EventID>>, policy: Policy) returns (relation: Matrix)
    requires domain.Valid()
    ensures Square(relation, |matches|) && IsFiringRelation(domain.View(), matches, policy, relation)
  {
    hide Sound, ViewOf, IsFiringRow;
    relation := [];
    for i := 0 to |matches|
      invariant |relation| == i
      invariant forall k: nat :: k < i ==> IsFiringRow(domain.View(), matches, policy, k, relation[k])
    {
      var row := FiringRow(domain, matches, policy, i);
      relation := relation + [row];
    }
    RowsSquare(domain.View(), matches, policy, relation);
  }

  lemma RowsSquare(v: View, matches: seq<seq<EventID>>, policy: Policy, relation: Matrix)
    requires IsFiringRelation(v, matches, policy, relation)
    ensures Square(relation, |matches|)
  {
    hide Induces;
  }

  lemma RelatedMatches(v: View, matches: seq<seq<EventID>>, policy: Policy, relation: Matrix, i: nat, j: nat)
    requires IsFiringRelation(v, matches, policy, relation)
    ensures Related(relation, i, j) <==>
            i < |matches| && j < |matches| && i != j && Induces(v, Members(matches[i]), Members(matches[j]), policy)
  {
    hide Induces;
    if i < |matches| {
      assert IsFiringRow(v, matches, policy, i, relation[i]);
    }
  }

  // ----- Five policies are strict orders -----

  ghost predicate Toward(v: View, later: bool, a: EventID, b: EventID) {
    if later then Before(v, a, b) else Before(v, b, a)
  }

  lemma TowardIsStrict(v: View, later: bool, a: EventID, b: EventID, c: EventID)
    requires Consistent(v)
    ensures !Toward(v, later, a, a)
    ensures Toward(v, later, a, b) && Toward(v, later, b, c) ==> Toward(v, later, a, c)
  {
    hide Consistent;
    BeforeIsStrictOrder(v, a, b, c);
    BeforeIsStrictOrder(v, c, b, a);
  }

  /** A nonempty finite set has a latest member, and an earliest one. */
  lemma {:induction false} ExtremeExists(v: View, later: bool, s: set<EventID>) returns (x: EventID)
    requires Consistent(v) && s != {}
    ensures x in s && forall y :: y in s ==> !Toward(v, later, x, y)
    decreases |s|
  {
    hide Consistent, Toward;
    var first :| first in s;
    var further := set y | y in s && Toward(v, later, first, y);
    if further == {} {
      x := first;
      forall y | y in s ensures !Toward(v, later, x, y) {
        assert y !in further;
      }
    } else {
      TowardIsStrict(v, later, first, first, first);
      StrictSubsetSmaller(further, s, first);
      x := ExtremeExists(v, later, further);
      forall y | y in s ensures !Toward(v, later, x, y) {
        TowardIsStrict(v, later, first, x, y);
      }
    }
  }

  lemma EarliestExists(v: View, s: set<EventID>)
    requires Consistent(v) && s != {}
    ensures Earliest(v, s) != {}
  {
    hide Consistent, Before;
    var x := ExtremeExists(v, false, s);
    forall y | y in s ensures !Before(v, y, x) {
      assert !Toward(v, false, x, y);
    }
    assert x in Earliest(v, s);
  }

  lemma AllBeforeChains(v: View, l: set<EventID>, m: set<EventID>, r: set<EventID>)
    requires Consistent(v) && m != {}
    ensures AllBefore(v, l, m) && AllBefore(v, m, r) ==> AllBefore(v, l, r)
    ensures !(AllBefore(v, l, m) && AllBefore(v, m, l))
  {
    hide Consistent, Before;
    var middle :| middle in m;
    forall x, y | x in l && y in r && AllBefore(v, l, m) && AllBefore(v, m, r) ensures Before(v, x, y) {
      TowardIsStrict(v, true, x, middle, y);
    }
    if l != {} {
      var x :| x in l;
      TowardIsStrict(v, true, x, middle, x);
    }
  }

  lemma BeforeSomeOf(v: View, left: set<EventID>, right: set<EventID>, l: EventID) returns (r: EventID)
    requires forall x :: x in left ==> BeforeSome(v, x, right)
    requires l in left
    ensures r in right && Before(v, l, r)
  {
    assert BeforeSome(v, l, right);
    r :| r in right && Before(v, l, r);
  }

  /** Two matches cannot each dominate the other: their latest common event has no successor. */
  lemma DominanceAsymmetric(v: View, l: set<EventID>, m: set<EventID>)
    requires Consistent(v) && l != {}
    ensures !(Induces(v, l, m, Dominance) && Induces(v, m, l, Dominance))
  {
    hide Consistent, Before, BeforeSome;
    if Induces(v, l, m, Dominance) && Induces(v, m, l, Dominance) {
      var x := ExtremeExists(v, true, l + m);
      assert !(exists y :: y in l + m && Before(v, x, y)) by {
        forall y | y in l + m ensures !Before(v, x, y) {
          assert !Toward(v, true, x, y);
        }
      }
      if x in l {
        var y := BeforeSomeOf(v, l, m - l, x);
      } else {
        var y := BeforeSomeOf(v, m, l - m, x);
      }
    }
  }

  /** The latest event of `right` beyond a given one is new to `right`: were it also in
      `left`, dominance twice over would give a later one. */
  lemma DominanceReaches(v: View, left: set<EventID>, middle: set<EventID>, right: set<EventID>, l: EventID)
    requires Consistent(v) && l in left
    requires Induces(v, left, middle, Dominance) && Induces(v, middle, right, Dominance)
    ensures BeforeSome(v, l, right - left)
  {
    hide Consistent, Before, BeforeSome;
    var m := BeforeSomeOf(v, left, middle - left, l);
    var r := BeforeSomeOf(v, middle, right - middle, m);
    TowardIsStrict(v, true, l, m, r);
    var beyond := set x | x in right - middle && Before(v, l, x);
    assert r in beyond;
    var x := ExtremeExists(v, true, beyond);
    if x in left {
      var m' := BeforeSomeOf(v, left, middle - left, x);
      var r' := BeforeSomeOf(v, middle, right - middle, m');
      TowardIsStrict(v, true, x, m', r');
      TowardIsStrict(v, true, l, x, r');
    }
    BeforeSomeIntro(v, l, x, right - left);
  }

  lemma BeforeSomeIntro(v: View, l: EventID, r: EventID, right: set<EventID>)
    requires r in right && Before(v, l, r)
    ensures BeforeSome(v, l, right)
  {}

  lemma DominanceTransitive(v: View, left: set<EventID>, middle: set<EventID>, right: set<EventID>)
    requires Consistent(v)
    requires Induces(v, left, middle, Dominance) && Induces(v, middle, right, Dominance)
    ensures Induces(v, left, right, Dominance)
  {
    hide Consistent, Before, BeforeSome;
    forall l | l in left ensures BeforeSome(v, l, right - left) {
      DominanceReaches(v, left, middle, right, l);
    }
    var l :| l in left;
    var r := BeforeSomeOf(v, left, right - left, l);
    assert r in right - left;
  }

  lemma AfterSomeOf(v: View, left: set<EventID>, right: set<EventID>, r: EventID) returns (l: EventID)
    requires forall x :: x in right ==> AfterSome(v, left, x)
    requires r in right
    ensures l in left && Before(v, l, r)
  {
    assert AfterSome(v, left, r);
    l :| l in left && Before(v, l, r);
  }

  lemma OverlookAsymmetric(v: View, l: set<EventID>, m: set<EventID>)
    requires Consistent(v) && l != {}
    ensures !(Induces(v, l, m, Overlook) && Induces(v, m, l, Overlook))
  {
    hide Consistent, Before, AfterSome;
    if Induces(v, l, m, Overlook) && Induces(v, m, l, Overlook) {
      var x := ExtremeExists(v, false, l + m);
      assert !(exists y :: y in l + m && Before(v, y, x)) by {
        forall y | y in l + m ensures !Before(v, y, x) {
          assert !Toward(v, false, x, y);
        }
      }
      if x in l {
        var y := AfterSomeOf(v, m, l, x);
      } else {
        var y := AfterSomeOf(v, l, m, x);
      }
    }
  }

  lemma OverlookTransitive(v: View, left: set<EventID>, middle: set<EventID>, right: set<EventID>)
    requires Consistent(v)
    requires Induces(v, left, middle, Overlook) && Induces(v, middle, right, Overlook)
    ensures Induces(v, left, right, Overlook)
  {
    hide Consistent, Before, AfterSome;
    forall r | r in right ensures AfterSome(v, left, r) {
      var m := AfterSomeOf(v, middle, right, r);
      var l := AfterSomeOf(v, left, middle, m);
      TowardIsStrict(v, true, l, m, r);
      AfterSomeIntro(v, l, r, left);
    }
  }

  lemma AfterSomeIntro(v: View, l: EventID, r: EventID, left: set<EventID>)
    requires l in left && Before(v, l, r)
    ensures AfterSome(v, left, r)
  {}

  lemma InducesAsymmetric(v: View, l: set<EventID>, m: set<EventID>, policy: Policy)
    requires Consistent(v) && policy != Diff
    ensures !(Induces(v, l, m, policy) && Induces(v, m, l, policy))
  {
    hide Consistent, AllBefore, Earliest;
    if l != {} && m != {} {
      match policy
      case NoInduced =>
      case Strong => AllBeforeChains(v, l, m, l);
      case Maxima =>
        EarliestExists(v, m);
        AllBeforeChains(v, Earliest(v, l), Earliest(v, m), Earliest(v, l));
      case Dominance => DominanceAsymmetric(v, l, m);
      case Overlook => OverlookAsymmetric(v, l, m);
    }
  }

  lemma InducesTransitive(v: View, l: set<EventID>, m: set<EventID>, r: set<EventID>, policy: Policy)
    requires Consistent(v) && policy != Diff
    requires Induces(v, l, m, policy) && Induces(v, m, r, policy)
    ensures Induces(v, l, r, policy)
  {
    hide Consistent, AllBefore, Earliest;
    match policy
    case NoInduced =>
    case Strong => AllBeforeChains(v, l, m, r);
    case Maxima =>
      EarliestExists(v, m);
      AllBeforeChains(v, Earliest(v, l), Earliest(v, m), Earliest(v, r));
    case Dominance => DominanceTransitive(v, l, m, r);
    case Overlook => OverlookTransitive(v, l, m, r);
  }

  /** Under every policy but Diff the firing relation is a strict partial order, for any
      matches, overlapping or not; a cycle is never reported. */
  lemma FiringsStrictlyOrdered(v: View, matches: seq<seq<EventID>>, policy: Policy, relation: Matrix)
    requires Consistent(v) && policy != Diff && IsFiringRelation(v, matches, policy, relation)
    ensures StrictOrder(relation) && !Stuck(relation)
  {
    hide Consistent, Induces, Stuck, Related, IsFiringRelation;
    forall i: nat ensures !Related(relation, i, i) {
      RelatedMatches(v, matches, policy, relation, i, i);
    }
    forall i: nat, j: nat, k: nat | Related(relation, i, j) && Related(relation, j, k)
      ensures Related(relation, i, k)
    {
      RelatedMatches(v, matches, policy, relation, i, j);
      RelatedMatches(v, matches, policy, relation, j, k);
      RelatedMatches(v, matches, policy, relation, i, k);
      InducesTransitive(v, Members(matches[i]), Members(matches[j]), Members(matches[k]), policy);
      InducesAsymmetric(v, Members(matches[i]), Members(matches[j]), policy);
    }
    StrictOrderNeverStuck(relation);
  }

  // ----- Diff need not be -----

  ghost predicate Absorbs(v: View, left: set<EventID>, right: set<EventID>) {
    right <= left && forall r, l :: r in right && l in left - right ==> Before(v, r, l)
  }

  /** Diff makes two nonempty matches induce each other exactly when one contains the other
      and precedes the rest of it; equal matches always do. */
  lemma DiffMutualIff(v: View, left: set<EventID>, right: set<EventID>)
    requires Consistent(v) && left != {} && right != {}
    ensures Induces(v, left, right, Diff) && Induces(v, right, left, Diff) <==>
            Absorbs(v, left, right) || Absorbs(v, right, left)
    ensures Absorbs(v, left, left)
  {
    hide Consistent, Before;
    if Induces(v, left, right, Diff) && Induces(v, right, left, Diff) && !(right <= left) && !(left <= right) {
      var l :| l in left && l !in right;
      var r :| r in right && r !in left;
      TowardIsStrict(v, true, l, r, l);
    }
  }

  /** Some nonempty match lies within another and precedes the rest of it. */
  ghost predicate SomeAbsorbed(v: View, matches: seq<seq<EventID>>) {
    exists i: nat, j: nat :: i < |matches| && j < |matches| && AbsorbedAt(v, matches, i, j)
  }

  ghost predicate AbsorbedAt(v: View, matches: seq<seq<EventID>>, i: nat, j: nat)
    requires i < |matches| && j < |matches|
  {
    i != j && matches[j] != [] && Absorbs(v, Members(matches[i]), Members(matches[j]))
  }

  ghost predicate InAll(matches: seq<seq<EventID>>, s: set<nat>, x: EventID) {
    forall i :: i in s && i < |matches| ==> x in Members(matches[i])
  }

  /** The events that some but not all of the matches consume. */
  ghost function Contested(matches: seq<seq<EventID>>, s: set<nat>): set<EventID> {
    set i, x | i in s && i < |matches| && x in Members(matches[i]) && !InAll(matches, s, x) :: x
  }

  ghost function Consumers(matches: seq<seq<EventID>>, s: set<nat>, y: EventID): set<nat> {
    set i | i in s && i < |matches| && y in Members(matches[i])
  }

  lemma StuckMember(v: View, matches: seq<seq<EventID>>, relation: Matrix, s: set<nat>, j: nat) returns (p: nat)
    requires IsFiringRelation(v, matches, Diff, relation) && StuckOn(relation, s) && j in s
    ensures p in s && Related(relation, p, j) && p < |matches| && j < |matches| && p != j
    ensures Induces(v, Members(matches[p]), Members(matches[j]), Diff)
  {
    hide IsFiringRelation, Related, Induces;
    assert PrecededWithin(relation, s, j);
    p :| p in s && Related(relation, p, j);
    RelatedMatches(v, matches, Diff, relation, p, j);
  }

  /** A stuck set holds an absorbed match.  Take an earliest contested event: either the
      matches that consume it are stuck among themselves, or one of them is preceded by a
      match without it, which can only consist of the uncontested events. */
  lemma {:induction false} StuckAbsorbs(v: View, matches: seq<seq<EventID>>, relation: Matrix, s: set<nat>)
    requires Consistent(v) && IsFiringRelation(v, matches, Diff, relation) && StuckOn(relation, s)
    ensures SomeAbsorbed(v, matches)
    decreases |s|
  {
    hide Consistent, IsFiringRelation, Related, Induces, Absorbs, PrecededWithin, Toward;
    var contested := Contested(matches, s);
    if contested == {} {
      var j :| j in s;
      var p := StuckMember(v, matches, relation, s, j);
      AllAlike(v, matches, s, p, j);
    } else {
      var y := ExtremeExists(v, false, contested);
      var within := Consumers(matches, s, y);
      var left: nat :| left in s && left < |matches| && y !in Members(matches[left]);
      var right: nat :| right in s && right < |matches| && y in Members(matches[right]);
      assert right in within;
      StrictSubsetSmaller(within, s, left);
      if forall j :: j in within ==> PrecededWithin(relation, within, j) {
        StuckAbsorbs(v, matches, relation, within);
      } else {
        var j :| j in within && !PrecededWithin(relation, within, j);
        var p := StuckMember(v, matches, relation, s, j);
        assert p !in within by { PrecededIntro(relation, within, p, j); }
        EarliestContested(v, matches, s, p, j, y);
      }
    }
  }

  lemma PrecededIntro(relation: Matrix, s: set<nat>, p: nat, j: nat)
    ensures p in s && Related(relation, p, j) ==> PrecededWithin(relation, s, j)
  {}

  lemma ContestedIntro(matches: seq<seq<EventID>>, s: set<nat>, p: nat, j: nat, x: EventID)
    requires p in s && j in s && p < |matches| && j < |matches|
    ensures x in Members(matches[p]) && x !in Members(matches[j]) ==> x in Contested(matches, s)
  {
    assert x !in Members(matches[j]) ==> !InAll(matches, s, x);
  }

  lemma AllAlike(v: View, matches: seq<seq<EventID>>, s: set<nat>, p: nat, j: nat)
    requires Contested(matches, s) == {} && p in s && j in s && p < |matches| && j < |matches| && p != j
    requires Induces(v, Members(matches[p]), Members(matches[j]), Diff)
    ensures SomeAbsorbed(v, matches)
  {
    hide Before;
    forall x ensures x in Members(matches[p]) <==> x in Members(matches[j]) {
      ContestedIntro(matches, s, p, j, x);
      ContestedIntro(matches, s, j, p, x);
    }
    MembersEmpty(matches[j]);
    assert AbsorbedAt(v, matches, p, j);
  }

  lemma EarliestContested(v: View, matches: seq<seq<EventID>>, s: set<nat>, p: nat, j: nat, y: EventID)
    requires p in s && j in s && p < |matches| && j < |matches| && p != j
    requires y in Members(matches[j]) && y !in Members(matches[p])
    requires forall x :: x in Contested(matches, s) ==> !Toward(v, false, y, x)
    requires Induces(v, Members(matches[p]), Members(matches[j]), Diff)
    ensures SomeAbsorbed(v, matches)
  {
    hide Before;
    forall x | x in Members(matches[p]) ensures x in Members(matches[j]) {
      assert Before(v, x, y) && !(x in Contested(matches, s));
      assert InAll(matches, s, x);
    }
    MembersEmpty(matches[p]);
    assert AbsorbedAt(v, matches, j, p);
  }

  /** A Diff run meets a cycle exactly when some nonempty match lies within another and
      precedes the rest of it, as two equal matches do. */
  lemma DiffStuckIff(v: View, matches: seq<seq<EventID>>, relation: Matrix)
    requires Consistent(v) && IsFiringRelation(v, matches, Diff, relation)
    ensures Stuck(relation) <==> SomeAbsorbed(v, matches)
  {
    hide Consistent, IsFiringRelation, Related, Induces, Absorbs, SomeAbsorbed;
    forall s | StuckOn(relation, s) ensures SomeAbsorbed(v, matches) {
      StuckAbsorbs(v, matches, relation, s);
    }
    if SomeAbsorbed(v, matches) {
      var i, j := AbsorbedPair(v, matches);
      DiffMutualIff(v, Members(matches[i]), Members(matches[j]));
      RelatedMatches(v, matches, Diff, relation, i, j);
      RelatedMatches(v, matches, Diff, relation, j, i);
      PrecededIntro(relation, {i, j}, i, j);
      PrecededIntro(relation, {i, j}, j, i);
      assert StuckOn(relation, {i, j});
    }
  }

  lemma AbsorbedPair(v: View, matches: seq<seq<EventID>>) returns (i: nat, j: nat)
    requires SomeAbsorbed(v, matches)
    ensures i < |matches| && j < |matches| && i != j && Members(matches[i]) != {} && Members(matches[j]) != {}
    ensures Absorbs(v, Members(matches[i]), Members(matches[j]))
  {
    i, j :| i < |matches| && j < |matches| && AbsorbedAt(v, matches, i, j);
    MembersEmpty(matches[j]);
  }

  /** Diff is transitive except past a match that contains the next one. */
  lemma DiffComposes(v: View, l: set<EventID>, m: set<EventID>, r: set<EventID>)
    requires Consistent(v) && Induces(v, l, m, Diff) && Induces(v, m, r, Diff)
    ensures Induces(v, l, r, Diff) || m <= l
  {
    hide Consistent, Before;
    if !(m <= l) {
      var middle :| middle in m && middle !in l;
      forall x, y | x in l && y in r - l ensures Before(v, x, y) {
        if y !in m {
          TowardIsStrict(v, true, x, middle, y);
        }
      }
    }
  }

  /** An acyclic firing relation shortens, whatever the policy. */
  lemma DiffShortens(v: View, matches: seq<seq<EventID>>, relation: Matrix)
    requires Consistent(v) && IsFiringRelation(v, matches, Diff, relation) && !Stuck(relation)
    ensures Acyclic(EdgesOf(relation)) && Shortens(relation)
  {
    hide Consistent, IsFiringRelation, Related, Induces, Stuck;
    NotStuckAcyclic(relation);
    forall a: nat, b: nat, c: nat, d: nat
      | Related(relation, a, b) && Related(relation, b, c) && Related(relation, c, d)
      ensures Related(relation, a, c) || Related(relation, b, d)
    {
      NoTwoCycle(relation, a, b);
      NoTwoCycle(relation, b, c);
      RelatedMatches(v, matches, Diff, relation, a, b);
      RelatedMatches(v, matches, Diff, relation, b, c);
      RelatedMatches(v, matches, Diff, relation, c, d);
      RelatedMatches(v, matches, Diff, relation, a, c);
      RelatedMatches(v, matches, Diff, relation, b, d);
      DiffThreeSteps(v, Members(matches[a]), Members(matches[b]), Members(matches[c]), Members(matches[d]));
    }
  }

  lemma DiffThreeSteps(v: View, a: set<EventID>, b: set<EventID>, c: set<EventID>, d: set<EventID>)
    requires Consistent(v)
    requires Induces(v, a, b, Diff) && Induces(v, b, c, Diff) && Induces(v, c, d, Diff)
    ensures Induces(v, a, c, Diff) || Induces(v, b, d, Diff)
  {
    hide Consistent, Before;
    DiffComposes(v, a, b, c);
    DiffComposes(v, b, c, d);
    assert b <= a && c <= b ==> c - a == {};
  }

  lemma NoTwoCycle(relation: Matrix, a: nat, b: nat)
    requires Acyclic(EdgesOf(relation)) && Related(relation, a, b)
    ensures !Related(relation, b, a)
  {
    if Related(relation, b, a) {
      assert (a, b) in EdgesOf(relation) && (b, a) in EdgesOf(relation);
      EdgeReaches(EdgesOf(relation), b, a);
    }
  }

  /** Cycles are reported under Diff only, and there exactly for an absorbed match. */
  lemma CyclicIff(v: View, matches: seq<seq<EventID>>, policy: Policy, relation: Matrix)
    requires Consistent(v) && IsFiringRelation(v, matches, policy, relation)
    ensures Stuck(relation) <==> policy == Diff && SomeAbsorbed(v, matches)
  {
    hide Consistent, IsFiringRelation, Stuck, SomeAbsorbed, StrictOrder;
    if policy == Diff {
      DiffStuckIff(v, matches, relation);
    } else {
      FiringsStrictlyOrdered(v, matches, policy, relation);
    }
  }

  /** Without a cycle the closure over live firings is a strict order, and it reduces to the
      same direct predecessors as the policy's own relation. */
  lemma ClosureFits(v: View, matches: seq<seq<EventID>>, policy: Policy, relation: Matrix, live: seq<bool>)
    requires Consistent(v) && IsFiringRelation(v, matches, policy, relation) && !Stuck(relation)
    ensures StrictOrder(LiveClosure(relation, live)) && SameReduction(relation, LiveClosure(relation, live), live)
  {
    hide Consistent, IsFiringRelation, Stuck, StrictOrder, Direct, Acyclic, Shortens;
    NotStuckAcyclic(relation);
    assert Shortens(relation) by {
      if policy == Diff {
        DiffShortens(v, matches, relation);
      } else {
        FiringsStrictlyOrdered(v, matches, policy, relation);
        StrictOrderShortens(relation);
      }
    }
    LiveClosureStrict(relation, live);
    forall p: nat, g: nat ensures Direct(LiveClosure(relation, live), live, p, g) <==> Direct(relation, live, p, g) {
      LiveClosureDirect(relation, live, p, g);
    }
  }

  lemma StrictOrderShortens(relation: Matrix)
    requires StrictOrder(relation)
    ensures Shortens(relation)
  {
    hide Related;
  }
}
