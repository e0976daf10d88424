/** Which events of a rule body are caused by what, and which are last (arch/deterministic_map.go):
    read off the outputs, and off the range the body is placed in. */
module MapBodyLaws {
  import opened Texts
  import opened Reachability
  import opened Timings
  import opened CausalOrder
  import opened Operations
  import opened MapBodies
  import opened MapExecution
  import opened Merging

  // ----- Read off the outputs -----

  /** x is o itself or listed as equivalent to it. */
  ghost predicate Peer(o: Output, x: Output) {
    x.id == o.id || x.id in o.equivalent
  }

  /** An event is caused by the events of its listed causes, and by the base exactly when
      neither it nor a peer lists a cause. */
  lemma CausesExactly(outputs: seq<Output>, o: Output, base: set<EventID>, x: EventID)
    ensures x in CauseSet(outputs, o, base) <==>
            || (exists q :: q in outputs && q.id in o.causes && q.event == x)
            || (x in base && forall q :: q in outputs && Peer(o, q) ==> q.causes == [])
  {
    assert RootClass(outputs, o) <==> forall q :: q in outputs && Peer(o, q) ==> q.causes == [];
  }

  /** p lists c as a cause, and o is c or its peer. */
  ghost predicate CausesByClass(outputs: seq<Output>, o: Output, p: Output, c: Output) {
    p in outputs && c in outputs && c.id in p.causes && Peer(c, o)
  }

  /** A childless output: no output lists it or a peer as a cause. */
  ghost predicate Childless(outputs: seq<Output>, o: Output) {
    o in outputs && forall p, c :: !CausesByClass(outputs, o, p, c)
  }

  lemma ChildlessIff(outputs: seq<Output>, o: Output)
    requires o in outputs
    ensures Childless(outputs, o) <==> !IsChild(outputs, o.id)
  {
    if !Childless(outputs, o) {
      var p, c :| CausesByClass(outputs, o, p, c);
      assert CausedBy(outputs, p, o.id);
    }
    if IsChild(outputs, o.id) {
      var p :| p in outputs && CausedBy(outputs, p, o.id);
      var c :| c in outputs && c.id in p.causes && o.id in ClassIds(c);
      assert CausesByClass(outputs, o, p, c);
    }
  }

  lemma FrontierIff(outputs: seq<Output>, x: EventID)
    ensures x in Frontier(outputs) <==> exists o :: Childless(outputs, o) && o.event == x
  {
    hide IsChild, Childless;
    forall o | o in outputs ensures Childless(outputs, o) <==> !IsChild(outputs, o.id) {
      ChildlessIff(outputs, o);
    }
    assert forall o :: Childless(outputs, o) ==> o in outputs by { ChildlessListed(outputs); }
  }

  lemma ChildlessListed(outputs: seq<Output>)
    ensures forall o :: Childless(outputs, o) ==> o in outputs
  {}

  /** Peers are childless together. */
  lemma ChildlessPeers(outputs: seq<Output>, o: Output, q: Output)
    requires WellFormedBody(outputs) && Childless(outputs, o) && q in outputs && q.id in ClassIds(o)
    ensures Childless(outputs, q)
  {
    hide WellFormedBody, CausesByClass;
    forall p, c ensures CausesByClass(outputs, q, p, c) ==> CausesByClass(outputs, o, p, c) {
      PeerCause(outputs, o, q, p, c);
    }
  }

  lemma PeerCause(outputs: seq<Output>, o: Output, q: Output, p: Output, c: Output)
    requires WellFormedBody(outputs) && o in outputs && q in outputs && q.id in ClassIds(o)
    ensures CausesByClass(outputs, q, p, c) ==> CausesByClass(outputs, o, p, c)
  {
    hide WellFormedBody;
    SameClasses(outputs, o, q);
    if CausesByClass(outputs, q, p, c) {
      SameClasses(outputs, c, q);
    }
  }

  lemma SameClasses(outputs: seq<Output>, o: Output, q: Output)
    requires WellFormedBody(outputs) && o in outputs && q in outputs && q.id in ClassIds(o)
    ensures ClassIds(q) == ClassIds(o) && o.id in ClassIds(q)
  {}

  // ----- Read off the range -----

  /** The range u with the first k outputs: shaped, and nothing later in it yet. */
  ghost predicate Grown(u: View, outputs: seq<Output>, base: set<EventID>, k: nat) {
    && k <= |outputs| && Shaped(EmitBody(u, outputs, base, k))
    && (forall x :: x in EmitBody(u, outputs, base, k).contents <==>
          x in u.contents || exists i :: 0 <= i < k && outputs[i].event == x)
  }

  /** What a body needs of the range it is placed in. */
  ghost predicate Placeable(u: View, outputs: seq<Output>, base: set<EventID>) {
    && Shaped(u) && WellFormedBody(outputs) && base <= u.contents.Keys
    && forall o :: o in outputs ==> o.event !in u.contents
  }

  lemma {:induction false} Grows(u: View, outputs: seq<Output>, base: set<EventID>, k: nat)
    requires Placeable(u, outputs, base) && k <= |outputs|
    ensures Grown(u, outputs, base, k)
    ensures k < |outputs| ==> outputs[k].event !in EmitBody(u, outputs, base, k).contents
    ensures k < |outputs| ==> CauseSet(outputs, outputs[k], base) <= EmitBody(u, outputs, base, k).contents.Keys
  {
    hide Shaped, WithCausedEvent, CauseSet, WellFormedBody;
    if k > 0 {
      var v, o := EmitBody(u, outputs, base, k - 1), outputs[k - 1];
      Grows(u, outputs, base, k - 1);
      CausedKeys(v, o.event, o.content, CauseSet(outputs, o, base));
      NoTimings(outputs, o);
      WithCausedEventShaped(v, o.event, o.content, CauseSet(outputs, o, base));
    }
    if k < |outputs| {
      NextIsNew(u, outputs, base, k);
    }
  }

  lemma NoTimings(outputs: seq<Output>, o: Output)
    requires WellFormedBody(outputs) && o in outputs
    ensures Canonical(o.content.timings)
  {}

  lemma NextIsNew(u: View, outputs: seq<Output>, base: set<EventID>, k: nat)
    requires Placeable(u, outputs, base) && k < |outputs| && Grown(u, outputs, base, k)
    ensures outputs[k].event !in EmitBody(u, outputs, base, k).contents
    ensures CauseSet(outputs, outputs[k], base) <= EmitBody(u, outputs, base, k).contents.Keys
  {
    hide Shaped, EmitBody, RootClass, ClassIds;
    forall x | x in CauseSet(outputs, outputs[k], base) ensures x in EmitBody(u, outputs, base, k).contents {
      CausesExactly(outputs, outputs[k], base, x);
      if q :| q in outputs && q.id in outputs[k].causes && q.event == x {
        var c := ListedOutput(outputs, k, q.id);
        SameOutput(outputs, q, c);
        var i :| 0 <= i < k && outputs[i].id == q.id;
        SameOutput(outputs, q, outputs[i]);
      }
    }
  }

  /** Nothing follows a childless event while the body is added. */
  lemma {:induction false} NothingFollows(u: View, outputs: seq<Output>, base: set<EventID>, k: nat, o: Output, b: EventID)
    requires Placeable(u, outputs, base) && k <= |outputs| && Childless(outputs, o)
    ensures Leq(EmitBody(u, outputs, base, k), o.event, b) ==> b == o.event
  {
    hide Shaped, WithCausedEvent, CauseSet, WellFormedBody, Leq, Childless;
    var v := EmitBody(u, outputs, base, k);
    if k > 0 {
      var w, p := EmitBody(u, outputs, base, k - 1), outputs[k - 1];
      Grows(u, outputs, base, k - 1);
      LeqWithCauses(w, p.event, p.content, CauseSet(outputs, p, base), o.event, b);
      NothingFollows(u, outputs, base, k - 1, o, b);
      if Leq(v, o.event, b) && b == p.event && o.event != b {
        var c :| c in CauseSet(outputs, p, base) && Leq(w, o.event, c);
        NothingFollows(u, outputs, base, k - 1, o, c);
        ChildlessCausesNothing(u, outputs, base, o, p);
      }
    } else {
      NotInBase(u, outputs, o, b);
    }
  }

  lemma NotInBase(u: View, outputs: seq<Output>, o: Output, b: EventID)
    requires (forall o :: o in outputs ==> o.event !in u.contents) && Childless(outputs, o)
    ensures !Leq(u, o.event, b)
  {}

  lemma ChildlessCausesNothing(u: View, outputs: seq<Output>, base: set<EventID>, o: Output, p: Output)
    requires Placeable(u, outputs, base) && Childless(outputs, o) && p in outputs
    ensures o.event !in CauseSet(outputs, p, base)
  {
    hide Shaped, WellFormedBody, Childless, CauseSet;
    CausesExactly(outputs, p, base, o.event);
    ChildlessListed(outputs);
    forall q | q in outputs && q.event == o.event ensures q == o {
      SameOutput(outputs, q, o);
    }
    ItsOwnPeer(o);
    NeverCauses(outputs, o, p);
  }

  lemma NeverCauses(outputs: seq<Output>, o: Output, p: Output)
    requires Childless(outputs, o) && p in outputs
    ensures o.id !in p.causes
  {
    assert o.id in p.causes ==> CausesByClass(outputs, o, p, o);
  }

  /** A childless event leads to its peers only, as equals. */
  ghost predicate LeadsNowhere(v: View, outputs: seq<Output>, o: Output) {
    forall b :: Leq(v, o.event, b) ==>
      Equivalent(v, o.event, b) && exists q :: q in outputs && q.event == b && q.id in ClassIds(o)
  }

  ghost predicate AllLeadNowhere(v: View, outputs: seq<Output>) {
    forall o :: Childless(outputs, o) ==> LeadsNowhere(v, outputs, o)
  }

  lemma NowherePeer(v: View, outputs: seq<Output>, o: Output, b: EventID) returns (q: Output)
    requires AllLeadNowhere(v, outputs) && Childless(outputs, o) && Leq(v, o.event, b)
    ensures q in outputs && q.event == b && q.id in ClassIds(o) && Equivalent(v, o.event, b)
  {
    hide Leq, Equivalent, Childless, ClassIds;
    assert LeadsNowhere(v, outputs, o);
    q :| q in outputs && q.event == b && q.id in ClassIds(o);
  }

  /** Merging the class of a childless output merges childless outputs only. */
  lemma StillNowhere(v: View, outputs: seq<Output>, p: Output)
    requires Shaped(v) && WellFormedBody(outputs) && p in outputs && AllLeadNowhere(v, outputs)
    requires ClassFits(v, ClassEvents(outputs, ClassIds(p)))
    ensures AllLeadNowhere(WithClass(v, Heads(v, ClassEvents(outputs, ClassIds(p)))), outputs)
  {
    hide Shaped, WithClass, WellFormedBody, Leq, Equivalent, Childless, ClassIds, LeadsNowhere, Heads;
    var ids := ClassEvents(outputs, ClassIds(p));
    var w := WithClass(v, Heads(v, ids));
    HeadsAreHeads(v, ids);
    forall o | Childless(outputs, o) ensures LeadsNowhere(w, outputs, o) {
      forall b | Leq(w, o.event, b)
        ensures Equivalent(w, o.event, b) && exists q :: q in outputs && q.event == b && q.id in ClassIds(o)
      {
        LeqWithClass(v, Heads(v, ids), o.event, b);
        if Leq(v, o.event, b) {
          var q := NowherePeer(v, outputs, o, b);
          StillEquivalent(v, ids, o.event, b);
        } else {
          var q := PassThrough(v, outputs, p, o, b);
        }
      }
      assert LeadsNowhere(w, outputs, o) by { NowhereIntro(w, outputs, o); }
    }
  }

  lemma NowhereIntro(v: View, outputs: seq<Output>, o: Output)
    requires forall b :: Leq(v, o.event, b) ==>
               Equivalent(v, o.event, b) && exists q :: q in outputs && q.event == b && q.id in ClassIds(o)
    ensures LeadsNowhere(v, outputs, o)
  {}

  lemma StillEquivalent(v: View, ids: set<EventID>, a: EventID, b: EventID)
    requires Shaped(v) && AreHeads(v, Heads(v, ids)) && Equivalent(v, a, b)
    ensures Equivalent(WithClass(v, Heads(v, ids)), a, b)
  {
    hide Shaped, WithClass, Heads, AreHeads;
    WithClassRep(v, Heads(v, ids), a);
    WithClassRep(v, Heads(v, ids), b);
    WithClassContents(v, Heads(v, ids));
  }

  lemma PassThrough(v: View, outputs: seq<Output>, p: Output, o: Output, b: EventID) returns (q: Output)
    requires Shaped(v) && WellFormedBody(outputs) && p in outputs && AllLeadNowhere(v, outputs) && Childless(outputs, o)
    requires ClassFits(v, ClassEvents(outputs, ClassIds(p)))
    requires Through(v, Heads(v, ClassEvents(outputs, ClassIds(p))), o.event, b)
    ensures q in outputs && q.event == b && q.id in ClassIds(o)
    ensures Equivalent(WithClass(v, Heads(v, ClassEvents(outputs, ClassIds(p)))), o.event, b)
  {
    hide Shaped, WithClass, WellFormedBody, Childless, ClassIds, AllLeadNowhere, Equivalent, Reach;
    var ids := ClassEvents(outputs, ClassIds(p));
    HeadsAreHeads(v, ids);
    var x, y := ThroughMembers(v, ids, o.event, b);
    var ox :| ox in outputs && ox.id in ClassIds(p) && ox.event == x;
    var oy :| oy in outputs && oy.id in ClassIds(p) && oy.event == y;
    ChildlessListed(outputs);
    var r := NowherePeer(v, outputs, o, x);
    SameOutput(outputs, r, ox);
    SameClasses(outputs, o, ox);
    SameClasses(outputs, p, ox);
    ChildlessPeers(outputs, o, oy);
    q := NowherePeer(v, outputs, oy, b);
    SameClasses(outputs, o, oy);
    BecomeEquivalent(v, ids, o.event, x, y, b);
  }

  lemma ThroughMembers(v: View, ids: set<EventID>, a: EventID, b: EventID) returns (x: EventID, y: EventID)
    requires Shaped(v) && ids <= v.contents.Keys && Through(v, Heads(v, ids), a, b)
    ensures x in ids && y in ids && Leq(v, a, x) && Leq(v, y, b)
  {
    hide Shaped, Reach;
    var r, s :| r in Heads(v, ids) && s in Heads(v, ids) && Reach(v.edges, Rep(v, a), r) && Reach(v.edges, s, Rep(v, b));
    x :| x in ids && Rep(v, x) == r;
    y :| y in ids && Rep(v, y) == s;
  }

  lemma BecomeEquivalent(v: View, ids: set<EventID>, a: EventID, x: EventID, y: EventID, b: EventID)
    requires Shaped(v) && AreHeads(v, Heads(v, ids)) && ids <= v.contents.Keys && x in ids && y in ids
    requires Equivalent(v, a, x) && Equivalent(v, y, b)
    ensures Equivalent(WithClass(v, Heads(v, ids)), a, b)
  {
    hide Shaped, WithClass, AreHeads;
    WithClassRep(v, Heads(v, ids), a);
    WithClassRep(v, Heads(v, ids), b);
    WithClassContents(v, Heads(v, ids));
    assert Rep(v, x) in Heads(v, ids) && Rep(v, y) in Heads(v, ids);
  }

  lemma {:induction false} MergingNowhere(w: View, outputs: seq<Output>, k: nat)
    requires Shaped(w) && WellFormedBody(outputs) && k <= |outputs| && AllLeadNowhere(w, outputs)
    ensures Shaped(MergeBody(w, outputs, k)) && AllLeadNowhere(MergeBody(w, outputs, k), outputs)
  {
    hide Shaped, WithClass, WellFormedBody, AllLeadNowhere, ClassIds, ClassEvents, FirstOfBodyKey, ClassFits, Heads;
    if k > 0 {
      MergingNowhere(w, outputs, k - 1);
      var v, ids := MergeBody(w, outputs, k - 1), ClassEvents(outputs, ClassIds(outputs[k - 1]));
      if FirstOfBodyKey(outputs, k - 1) && ClassFits(v, ids) {
        FitsShaped(v, ids);
        StillNowhere(v, outputs, outputs[k - 1]);
      }
    }
  }

  lemma FitsShaped(v: View, ids: set<EventID>)
    requires ClassFits(v, ids)
    ensures Shaped(WithClass(v, Heads(v, ids)))
  {
    hide Shaped, WithClass, Heads;
  }

  lemma AddedNowhere(u: View, outputs: seq<Output>, base: set<EventID>)
    requires Placeable(u, outputs, base)
    ensures AllLeadNowhere(EmitBody(u, outputs, base, |outputs|), outputs)
  {
    hide Shaped, WellFormedBody, Leq, Childless, EmitBody, Placeable, ClassIds;
    var v := EmitBody(u, outputs, base, |outputs|);
    forall o | Childless(outputs, o) ensures LeadsNowhere(v, outputs, o) {
      ChildlessListed(outputs);
      assert o.id in ClassIds(o) by { ItsOwnPeer(o); }
      forall b | Leq(v, o.event, b) ensures b == o.event && Equivalent(v, o.event, b) {
        NothingFollows(u, outputs, base, |outputs|, o, b);
        LeqItself(v, o.event);
      }
    }
  }

  lemma ItsOwnPeer(o: Output)
    ensures o.id in ClassIds(o)
  {}

  lemma LeqItself(v: View, a: EventID)
    ensures Leq(v, a, a) ==> Equivalent(v, a, a)
  {}

  /** In the range a body is placed in, nothing comes after its frontier. */
  lemma FrontierIsLast(u: View, outputs: seq<Output>, base: set<EventID>, x: EventID, b: EventID)
    requires Placeable(u, outputs, base) && x in Frontier(outputs)
    ensures !Before(MergeBody(EmitBody(u, outputs, base, |outputs|), outputs, |outputs|), x, b)
  {
    hide Shaped, WellFormedBody, Childless, EmitBody, MergeBody, ClassIds, AllLeadNowhere, Frontier;
    var w := EmitBody(u, outputs, base, |outputs|);
    Grows(u, outputs, base, |outputs|);
    AddedNowhere(u, outputs, base);
    MergingNowhere(w, outputs, |outputs|);
    FrontierIff(outputs, x);
    var o :| Childless(outputs, o) && o.event == x;
    var v := MergeBody(w, outputs, |outputs|);
    if Before(v, x, b) {
      var q := NowherePeer(v, outputs, o, b);
    }
  }
}
