/** A rule body whose two classes share a joined key (arch/deterministic_map.go): it passes every
    check before the run, and the run it finishes fails its own artifact check. */
module MapCollisions {
  import opened Texts
  import opened JoinedKeys
  import opened Reachability
  import opened CausalOrder
  import opened Stores
  import opened Posets
  import opened FiringOrders
  import opened MapPolicies
  import opened MapBodies
  import opened MapExecution
  import opened MapArtifacts

  // "a", "a\0b", "b\0c" and "c"
  const A: Text := [97]
  const AB: Text := [97, 0, 98]
  const BC: Text := [98, 0, 99]
  const C: Text := [99]

  /** Outputs a, a\0b and b\0c without causes and c caused by a; a is equivalent to b\0c, and
      a\0b to c.  Their occurrences carry the same names. */
  ghost function Colliding(content: Content): seq<Output> {
    [Output(A, [], [BC], A, content), Output(AB, [], [C], AB, content),
     Output(BC, [], [A], BC, content), Output(C, [A], [AB], C, content)]
  }

  lemma CollidingOutput(content: Content, o: Output)
    requires o in Colliding(content)
    ensures o.id == o.event && o.id in {A, AB, BC, C} && MembersOnce(o) && o.equivalent != [] && o.content == content
    ensures ClassIds(o) == if o.id in {A, BC} then {A, BC} else {AB, C}
    ensures o.causes == if o.id == C then [A] else []
    ensures o == Colliding(content)[if o.id == A then 0 else if o.id == AB then 1 else if o.id == BC then 2 else 3]
  {
    var outputs := Colliding(content);
    assert o == outputs[0] || o == outputs[1] || o == outputs[2] || o == outputs[3];
    assert Members(o.equivalent) == {o.equivalent[0]};
  }

  lemma OneKey(content: Content, o: Output)
    requires o in Colliding(content)
    ensures BodyKey(o) == [97, 0, 98, 0, 99]
  {
    hide Colliding, MemberList;
    CollidingOutput(content, o);
    MemberListOf(o);
    var members := if o.id in {A, BC} then [A, BC] else [AB, C];
    TwoSorted(members);
    SortedUnique(MemberList(o), members);
    assert members[1..] == [members[1]];
    assert ClassKey(members) == PairKey(members[0], members[1]);
    assert PairKey(A, BC) == [97, 0, 98, 0, 99] == PairKey(AB, C);
  }

  lemma TwoSorted(members: seq<Text>)
    requires members == [A, BC] || members == [AB, C]
    ensures StrictlySorted(members) && Members(members) == {members[0], members[1]}
  {}

  /** The class of a\0b and c is skipped: its key came first with the other class. */
  lemma SecondSkipped(content: Content, o: Output)
    requires o in Colliding(content) && o.id in {AB, C}
    ensures Skipped(Colliding(content), o)
  {
    hide BodyKey, ClassIds;
    var outputs := Colliding(content);
    assert outputs[0] in outputs && outputs[0].id == A;
    CollidingOutput(content, o);
    CollidingOutput(content, outputs[0]);
    OneKey(content, o);
    OneKey(content, outputs[0]);
    assert FirstOfBodyKey(outputs, 0);
    assert TakenBy(outputs, 0, o);
    assert AB in ClassIds(o) && AB !in ClassIds(outputs[0]);
  }

  lemma CollidingWellFormed(content: Content)
    requires content.timings == []
    ensures WellFormedBody(Colliding(content))
  {
    hide ClassIds;
    var outputs := Colliding(content);
    assert outputs[0].id == A && outputs[1].id == AB && outputs[2].id == BC && outputs[3].id == C;
    forall k, c | 0 <= k < |outputs| && c in outputs[k].causes ensures IsListed(outputs, k, c) {
      assert k == 3 && c == A;
    }
    forall o | o in outputs ensures o.event != [] && o.content.timings == [] && MembersOnce(o) {
      CollidingOutput(content, o);
    }
    forall o, c | o in outputs && c in o.equivalent ensures IsListed(outputs, |outputs|, c) {
    }
    forall o, q | o in outputs && q in outputs && q.id in ClassIds(o) ensures ClassIds(q) == ClassIds(o) {
      CollidingOutput(content, o);
      CollidingOutput(content, q);
    }
  }

  lemma CollidingLayered(content: Content)
    requires content.timings == []
    ensures Layered(Colliding(content))
  {
    hide ClassIds, Skipped, Colliding;
    var outputs := Colliding(content);
    var rank: map<Text, nat> := map[A := 0, AB := 0, BC := 0, C := 1];
    forall o | o in outputs ensures o.id in rank {
      CollidingOutput(content, o);
    }
    forall o, q | o in outputs && q in outputs && q.id in KeptIds(outputs, o) ensures rank[q.id] == rank[o.id] {
      CollidingOutput(content, o);
      CollidingOutput(content, q);
      KeptItself(outputs, o);
      if o.id in {AB, C} {
        SecondSkipped(content, o);
      }
    }
    forall o, q | o in outputs && q in outputs && q.id in o.causes ensures rank[q.id] < rank[o.id] {
      CollidingOutput(content, o);
      CollidingOutput(content, q);
    }
    assert Ranks(outputs, rank);
  }

  lemma CollidingUnordered(content: Content)
    ensures ClassesUnordered(Colliding(content))
  {
    hide ClassIds, Colliding;
    var outputs := Colliding(content);
    var edges := LocalEdges(outputs);
    forall x, y | (x, y) in edges ensures x == A && y == C {
      var o :| o in outputs && x in o.causes && o.id == y;
      CollidingOutput(content, o);
    }
    forall o, q | o in outputs && q in outputs && q.id in ClassIds(o) && q.id != o.id ensures !Reach(edges, o.id, q.id) {
      CollidingOutput(content, o);
      CollidingOutput(content, q);
      var reached := iset{o.id} + (if o.id == A then iset{C} else iset{});
      assert Closed(edges, reached);
      assert o.id in reached && q.id !in reached;
    }
  }

  /** The body is well formed, passes the per-class check and has layers, yet a\0b is an orphan:
      no cause reaches it, not even Start. */
  lemma CollidingOrphan(content: Content)
    requires content.timings == []
    ensures var outputs := Colliding(content);
            && WellFormedBody(outputs) && ClassesUnordered(outputs) && Layered(outputs)
            && Orphan(outputs, outputs[1]) && !NoOrphans(outputs)
  {
    hide ClassIds, Skipped, ClassesUnordered, Layered, WellFormedBody, Colliding;
    var outputs := Colliding(content);
    CollidingWellFormed(content);
    CollidingUnordered(content);
    CollidingLayered(content);
    CollidingListed(content);
    CollidingOutput(content, outputs[1]);
    CollidingOutput(content, outputs[3]);
    SecondSkipped(content, outputs[1]);
    assert outputs[3].id in ClassIds(outputs[1]) && outputs[3].causes != [];
  }

  lemma CollidingListed(content: Content)
    ensures var outputs := Colliding(content);
            |outputs| == 4 && outputs[1] in outputs && outputs[3] in outputs && outputs[1].id == AB && outputs[3].id == C
  {}

  /** A map run of one such firing finishes and then fails its own artifact check, whatever
      its match. */
  method CollidingRunFails(domain: Poset, consumed: seq<EventID>, start: EventID, content: Content, policy: Policy)
    returns (run: Run, ok: bool)
    requires domain.Valid() && content.timings == [] && start != [] && start !in {A, AB, BC, C}
    ensures run.Executed? && !ok
  {
    hide ClassIds, Skipped, Layered, WellFormedBody, Induces, Absorbs, Orphan, NoOrphans;
    var outputs := [Output(A, [], [BC], A, content), Output(AB, [], [C], AB, content),
                    Output(BC, [], [A], BC, content), Output(C, [A], [AB], C, content)];
    var firings := [Firing([1], [1], consumed, outputs)];
    ghost var own: map<EventID, nat> := map[A := 0, AB := 0, BC := 0, C := 0];
    CollidingOrphan(content);
    CollidingFirings(firings, own, start, content);
    assert !NoOrphans(firings[0].outputs);
    run, ok := ExecuteAndCheck(domain, firings, policy, start, content, own);
  }

  lemma CollidingFirings(firings: seq<Firing>, own: map<EventID, nat>, start: EventID, content: Content)
    requires content.timings == [] && start != [] && start !in {A, AB, BC, C}
    requires |firings| == 1 && firings[0].outputs == Colliding(content)
    requires own == map[A := 0, AB := 0, BC := 0, C := 0]
    ensures WellFormedFirings(firings, own, start) && AllLayered(firings)
    ensures forall v :: !SomeAbsorbed(v, Matches(firings))
  {
    hide ClassIds, Skipped, Layered, WellFormedBody, Colliding;
    CollidingWellFormed(content);
    CollidingLayered(content);
    forall o | o in firings[0].outputs ensures o.event in own && own[o.event] == 0 {
      CollidingOutput(content, o);
    }
  }
}
