/** What the dependency policies of event-pattern maps mean in terms of the causal order
    alone (arch/deterministic_map.go), and how they compare. */
module PolicyLaws {
  import opened Texts
  import opened CausalOrder
  import opened MapPolicies

  /** x is in s and nothing in s precedes it; the library's "maxima". */
  ghost predicate IsFirst(v: View, s: set<EventID>, x: EventID) {
    x in s && forall z :: z in s ==> !Before(v, z, x)
  }

  ghost predicate IsLast(v: View, s: set<EventID>, x: EventID) {
    x in s && forall z :: z in s ==> !Before(v, x, z)
  }

  /** Below or at y there is a first member. */
  lemma FirstBelow(v: View, s: set<EventID>, y: EventID) returns (x: EventID)
    requires Consistent(v) && y in s
    ensures IsFirst(v, s, x) && (x == y || Before(v, x, y))
  {
    hide Consistent, Before;
    var below := set z | z in s && (z == y || Before(v, z, y));
    assert y in below;
    x := ExtremeExists(v, false, below);
    forall z | z in s ensures !Before(v, z, x) {
      assert z in below ==> !Toward(v, false, x, z);
      TowardIsStrict(v, true, z, x, y);
    }
  }

  lemma LastAbove(v: View, s: set<EventID>, y: EventID) returns (x: EventID)
    requires Consistent(v) && y in s
    ensures IsLast(v, s, x) && (x == y || Before(v, y, x))
  {
    hide Consistent, Before;
    var above := set z | z in s && (z == y || Before(v, y, z));
    assert y in above;
    x := ExtremeExists(v, true, above);
    forall z | z in s ensures !Before(v, x, z) {
      assert z in above ==> !Toward(v, true, x, z);
      TowardIsStrict(v, true, y, x, z);
    }
  }

  /** Maxima: whatever is first in the one match precedes the whole of the other. */
  lemma MaximaIff(v: View, l: set<EventID>, r: set<EventID>)
    requires Consistent(v) && l != {} && r != {}
    ensures Induces(v, l, r, Maxima) <==>
            forall x, y :: x in l && y in r && (forall z :: z in l ==> !Before(v, z, x)) ==> Before(v, x, y)
  {
    hide Consistent, Before;
    EarliestExists(v, l);
    EarliestAreFirst(v, l);
    EarliestAreFirst(v, r);
    if Induces(v, l, r, Maxima) {
      forall x, y | IsFirst(v, l, x) && y in r ensures Before(v, x, y) {
        var first := FirstBelow(v, r, y);
        assert x in Earliest(v, l) && first in Earliest(v, r);
        TowardIsStrict(v, true, x, first, y);
      }
    }
  }

  lemma EarliestAreFirst(v: View, s: set<EventID>)
    ensures forall x :: x in Earliest(v, s) <==> IsFirst(v, s, x)
  {
    hide Before;
  }

  /** Strong: the last of the one match precede the first of the other. */
  lemma StrongIff(v: View, l: set<EventID>, r: set<EventID>)
    requires Consistent(v) && l != {} && r != {}
    ensures Induces(v, l, r, Strong) <==> forall x, y :: IsLast(v, l, x) && IsFirst(v, r, y) ==> Before(v, x, y)
  {
    hide Consistent, Before;
    if forall x, y :: IsLast(v, l, x) && IsFirst(v, r, y) ==> Before(v, x, y) {
      forall x, y | x in l && y in r ensures Before(v, x, y) {
        EndsPrecede(v, l, r, x, y);
      }
    }
  }

  lemma EndsPrecede(v: View, l: set<EventID>, r: set<EventID>, x: EventID, y: EventID)
    requires Consistent(v) && x in l && y in r
    requires forall x, y :: IsLast(v, l, x) && IsFirst(v, r, y) ==> Before(v, x, y)
    ensures Before(v, x, y)
  {
    hide Consistent, Before;
    var last := LastAbove(v, l, x);
    var first := FirstBelow(v, r, y);
    TowardIsStrict(v, true, x, last, first);
    TowardIsStrict(v, true, x, first, y);
  }

  /** Diff: the same of what is new to the other match, if anything is. */
  lemma DiffIff(v: View, l: set<EventID>, r: set<EventID>)
    requires Consistent(v) && l != {} && r != {}
    ensures Induces(v, l, r, Diff) <==> forall x, y :: IsLast(v, l, x) && IsFirst(v, r - l, y) ==> Before(v, x, y)
  {
    hide Consistent, Before;
    if forall x, y :: IsLast(v, l, x) && IsFirst(v, r - l, y) ==> Before(v, x, y) {
      forall x, y | x in l && y in r - l ensures Before(v, x, y) {
        EndsPrecede(v, l, r - l, x, y);
      }
    }
  }

  /** Dominance: something is new to the other match, and every last event of the one
      precedes something new. */
  lemma DominanceIff(v: View, l: set<EventID>, r: set<EventID>)
    requires Consistent(v) && l != {} && r != {}
    ensures Induces(v, l, r, Dominance) <==>
            !(r <= l) && forall x :: IsLast(v, l, x) ==> exists y :: y in r && y !in l && Before(v, x, y)
  {
    hide Consistent, Before;
    if forall x :: IsLast(v, l, x) ==> exists y :: y in r && y !in l && Before(v, x, y) {
      forall x | x in l ensures BeforeSome(v, x, r - l) {
        var last := LastAbove(v, l, x);
        var y :| y in r && y !in l && Before(v, last, y);
        TowardIsStrict(v, true, x, last, y);
        assert y in r - l;
      }
    }
    forall x | x in l && BeforeSome(v, x, r - l) ensures exists y :: y in r && y !in l && Before(v, x, y) {
      var y :| y in r - l && Before(v, x, y);
    }
  }

  /** Overlook: every first event of the other match follows something of the one. */
  lemma OverlookIff(v: View, l: set<EventID>, r: set<EventID>)
    requires Consistent(v) && l != {} && r != {}
    ensures Induces(v, l, r, Overlook) <==>
            forall y :: IsFirst(v, r, y) ==> exists x :: x in l && Before(v, x, y)
  {
    hide Consistent, Before;
    if forall y :: IsFirst(v, r, y) ==> exists x :: x in l && Before(v, x, y) {
      forall y | y in r ensures AfterSome(v, l, y) {
        var first := FirstBelow(v, r, y);
        var x :| x in l && Before(v, x, first);
        TowardIsStrict(v, true, x, first, y);
      }
    }
    forall y | y in r && AfterSome(v, l, y) ensures exists x :: x in l && Before(v, x, y) {}
  }

  lemma MaximaBetween(v: View, l: set<EventID>, r: set<EventID>)
    requires Consistent(v)
    ensures Induces(v, l, r, Strong) ==> Induces(v, l, r, Maxima)
    ensures Induces(v, l, r, Maxima) ==> Induces(v, l, r, Overlook)
  {
    hide Consistent, Before;
    if l != {} && r != {} {
      MaximaIff(v, l, r);
      OverlookIff(v, l, r);
      var first := FirstOf(v, l);
    }
  }

  lemma StrongIsDisjointDiff(v: View, l: set<EventID>, r: set<EventID>)
    requires Consistent(v)
    ensures Induces(v, l, r, Strong) <==> l !! r && Induces(v, l, r, Diff)
  {
    hide Consistent, Before;
    if l !! r {
      assert r - l == r;
    }
    if x :| x in l && x in r {
      BeforeIsStrictOrder(v, x, x, x);
    }
  }

  lemma DiffDominates(v: View, l: set<EventID>, r: set<EventID>)
    requires Consistent(v) && Induces(v, l, r, Diff) && !(r <= l)
    ensures Induces(v, l, r, Dominance)
  {
    hide Consistent, Before;
    var y :| y in r && y !in l;
    assert y in r - l;
  }

  /** Strong is stronger than Maxima and Maxima than Overlook; for disjoint matches Strong is
      Diff, and Diff is stronger than Dominance where anything is new. */
  lemma PoliciesCompare(v: View, l: set<EventID>, r: set<EventID>)
    requires Consistent(v)
    ensures Induces(v, l, r, Strong) ==> Induces(v, l, r, Maxima)
    ensures Induces(v, l, r, Maxima) ==> Induces(v, l, r, Overlook)
    ensures Induces(v, l, r, Strong) <==> l !! r && Induces(v, l, r, Diff)
    ensures Induces(v, l, r, Diff) && !(r <= l) ==> Induces(v, l, r, Dominance)
  {
    hide Consistent, Induces;
    MaximaBetween(v, l, r);
    StrongIsDisjointDiff(v, l, r);
    if Induces(v, l, r, Diff) && !(r <= l) {
      DiffDominates(v, l, r);
    }
  }

  lemma FirstOf(v: View, s: set<EventID>) returns (x: EventID)
    requires Consistent(v) && s != {}
    ensures IsFirst(v, s, x)
  {
    hide Consistent, Before;
    var y :| y in s;
    x := FirstBelow(v, s, y);
  }

  /** For matches of one event each the five policies are one: the causal order. */
  lemma SingleEvents(v: View, x: EventID, y: EventID, policy: Policy)
    requires Consistent(v) && x != y && policy != NoInduced
    ensures Induces(v, {x}, {y}, policy) <==> Before(v, x, y)
  {
    hide Consistent, Before;
    BeforeIsStrictOrder(v, x, x, x);
    BeforeIsStrictOrder(v, y, y, y);
    assert {y} - {x} == {y};
    MaximaIff(v, {x}, {y});
    DominanceIff(v, {x}, {y});
  }
}
