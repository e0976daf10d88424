/** What materialising a firing's body does to the range preorder (arch/deterministic_map.go,
    arch/rule.go): the facts that make the induced relation recoverable from the range. */
module MapBodies {
  import opened Texts
  import opened JoinedKeys
  import opened Reachability
  import opened Timings
  import opened CausalOrder
  import opened Stamps
  import opened Operations
  import opened Merging
  import opened FiringOrders

  /** One output of a generator body; `event` is the occurrence it becomes. */
  datatype Output = Output(id: Text, causes: seq<Text>, equivalent: seq<Text>, event: EventID, content: Content)

  /** A selected match of one rule together with the body it generates. */
  datatype Firing = Firing(firingID: Text, key: Text, consumed: seq<EventID>, outputs: seq<Output>)

  // ----- Bodies -----

  /** An output's causal-equivalence class in its body. */
  function ClassIds(o: Output): set<Text> {
    {o.id} + Members(o.equivalent)
  }

  /** ruleBodyRootClasses: no member of the class has a local cause. */
  predicate RootClass(outputs: seq<Output>, o: Output) {
    forall q :: q in outputs && q.id in ClassIds(o) ==> q.causes == []
  }

  /** Some output is caused by this one or by a class peer of it. */
  predicate IsChild(outputs: seq<Output>, id: Text) {
    exists x :: x in outputs && CausedBy(outputs, x, id)
  }

  predicate CausedBy(outputs: seq<Output>, x: Output, id: Text) {
    exists q :: q in outputs && q.id in x.causes && id in ClassIds(q)
  }

  predicate IsListed(outputs: seq<Output>, k: nat, id: Text) {
    exists j :: 0 <= j < k && j < |outputs| && outputs[j].id == id
  }

  /** A normalised body in topological order: outputs have their own names, causes come
      first, equivalence classes partition the outputs and list no member twice, and nothing
      is timed. */
  ghost predicate WellFormedBody(outputs: seq<Output>) {
    && (forall i, j :: 0 <= i < j < |outputs| ==> outputs[i].id != outputs[j].id && outputs[i].event != outputs[j].event)
    && (forall k, c :: 0 <= k < |outputs| && c in outputs[k].causes ==> IsListed(outputs, k, c))
    && (forall o, c :: o in outputs && c in o.equivalent ==> IsListed(outputs, |outputs|, c))
    && (forall o, q :: o in outputs && q in outputs && q.id in ClassIds(o) ==> ClassIds(q) == ClassIds(o))
    && (forall o :: o in outputs ==> MembersOnce(o))
    && (forall o :: o in outputs ==> o.event != [] && o.content.timings == [])
  }

  predicate MembersOnce(o: Output) {
    o.id !in o.equivalent && forall i, j :: 0 <= i < j < |o.equivalent| ==> o.equivalent[i] != o.equivalent[j]
  }

  // ----- The classes a run merges -----

  /** ruleOutputEquivalenceClass: the sorted members. */
  function MemberList(o: Output): seq<Text> {
    SortBy(Less, [o.id] + o.equivalent)
  }

  function BodyKey(o: Output): Text {
    ClassKey(MemberList(o))
  }

  ghost predicate FirstOfBodyKey(outputs: seq<Output>, k: nat) {
    k < |outputs| && outputs[k].equivalent != [] &&
    forall j :: 0 <= j < k ==> outputs[j].equivalent == [] || BodyKey(outputs[j]) != BodyKey(outputs[k])
  }

  ghost predicate TakenBy(outputs: seq<Output>, k: nat, o: Output) {
    k < |outputs| && FirstOfBodyKey(outputs, k) && BodyKey(outputs[k]) == BodyKey(o)
  }

  /** Classes are told apart by their keys: one whose key an earlier class has is skipped. */
  ghost predicate Skipped(outputs: seq<Output>, o: Output) {
    o.equivalent != [] && exists k: nat :: TakenBy(outputs, k, o) && ClassIds(outputs[k]) != ClassIds(o)
  }

  /** The class an output is merged into. */
  ghost function KeptIds(outputs: seq<Output>, o: Output): set<Text> {
    if Skipped(outputs, o) then {o.id} else ClassIds(o)
  }

  /** No two classes share a key. */
  ghost predicate BodyKeysApart(outputs: seq<Output>) {
    forall o, q :: o in outputs && q in outputs && o.equivalent != [] && q.equivalent != [] && BodyKey(o) == BodyKey(q) ==>
      ClassIds(o) == ClassIds(q)
  }

  lemma ApartKeepsAll(outputs: seq<Output>, o: Output)
    requires BodyKeysApart(outputs) && o in outputs
    ensures KeptIds(outputs, o) == ClassIds(o)
  {
    hide BodyKey, ClassIds;
  }

  lemma MemberListOf(o: Output)
    requires MembersOnce(o)
    ensures StrictlySorted(MemberList(o)) && Members(MemberList(o)) == ClassIds(o) && |MemberList(o)| == |o.equivalent| + 1
  {
    var s := [o.id] + o.equivalent;
    forall i, j | 0 <= i < j < |s| ensures s[i] != s[j] {
      assert i > 0 ==> s[i] == o.equivalent[i - 1];
      assert s[j] == o.equivalent[j - 1];
      assert i == 0 ==> s[j] in o.equivalent;
    }
    SortAscends(s);
  }

  /** Members without NUL bytes keep the keys of a body apart. */
  lemma PlainBodyKeys(outputs: seq<Output>)
    requires WellFormedBody(outputs) && forall o, id :: o in outputs && id in ClassIds(o) ==> NulFree(id)
    ensures BodyKeysApart(outputs)
  {
    hide ClassIds, MemberList, NulFree, StrictlySorted, ClassKey;
    forall o, q | o in outputs && q in outputs && BodyKey(o) == BodyKey(q) ensures ClassIds(o) == ClassIds(q) {
      MemberListOf(o);
      MemberListOf(q);
      assert forall i :: 0 <= i < |MemberList(o)| ==> MemberList(o)[i] in Members(MemberList(o));
      assert forall i :: 0 <= i < |MemberList(q)| ==> MemberList(q)[i] in Members(MemberList(q));
      PlainKeysApart(MemberList(o), MemberList(q));
    }
  }

  /** Peers share their key, and are skipped or kept together. */
  lemma PeersTogether(outputs: seq<Output>, o: Output, q: Output)
    requires WellFormedBody(outputs) && o in outputs && q in outputs && q.id in ClassIds(o)
    ensures ClassIds(q) == ClassIds(o) && BodyKey(q) == BodyKey(o) && (q.equivalent == [] <==> o.equivalent == [])
    ensures Skipped(outputs, q) <==> Skipped(outputs, o)
  {
    hide MemberList, StrictlySorted, ClassIds, FirstOfBodyKey, ClassKey;
    MemberListOf(o);
    MemberListOf(q);
    SortedUnique(MemberList(o), MemberList(q));
    assert BodyKey(q) == BodyKey(o);
    if Skipped(outputs, q) {
      var k: nat :| TakenBy(outputs, k, q) && ClassIds(outputs[k]) != ClassIds(q);
      assert TakenBy(outputs, k, o);
    }
    if Skipped(outputs, o) {
      var k: nat :| TakenBy(outputs, k, o) && ClassIds(outputs[k]) != ClassIds(o);
      assert TakenBy(outputs, k, q);
    }
  }

  lemma KeptPeers(outputs: seq<Output>, o: Output, q: Output)
    requires WellFormedBody(outputs) && o in outputs && q in outputs && q.id in KeptIds(outputs, o)
    ensures KeptIds(outputs, q) == KeptIds(outputs, o) && q.id in ClassIds(o)
  {
    hide Skipped, WellFormedBody;
    if Skipped(outputs, o) {
      SameOutput(outputs, o, q);
    } else {
      PeersTogether(outputs, o, q);
    }
  }

  lemma KeptItself(outputs: seq<Output>, o: Output)
    ensures o.id in KeptIds(outputs, o) && KeptIds(outputs, o) <= ClassIds(o)
  {
    hide Skipped;
  }

  // ----- Layers -----

  ghost predicate Ranks(outputs: seq<Output>, rank: map<Text, nat>) {
    && (forall o :: o in outputs ==> o.id in rank)
    && (forall o, q :: o in outputs && q in outputs && q.id in KeptIds(outputs, o) ==> rank[q.id] == rank[o.id])
    && (forall o, q :: o in outputs && q in outputs && q.id in o.causes ==> rank[q.id] < rank[o.id])
  }

  /** The body's merged classes can be layered: its causes stay acyclic once they are identified. */
  ghost predicate Layered(outputs: seq<Output>) {
    exists rank :: Ranks(outputs, rank)
  }

  lemma SameOutput(outputs: seq<Output>, o: Output, q: Output)
    requires WellFormedBody(outputs) && o in outputs && q in outputs
    ensures o.id == q.id ==> o == q
    ensures o.event == q.event ==> o == q
  {
    var i :| 0 <= i < |outputs| && outputs[i] == o;
    var j :| 0 <= j < |outputs| && outputs[j] == q;
    assert i < j ==> outputs[i].id != outputs[j].id;
    assert j < i ==> outputs[j].id != outputs[i].id;
  }

  lemma ListedOutput(outputs: seq<Output>, k: nat, id: Text) returns (q: Output)
    requires IsListed(outputs, k, id)
    ensures q in outputs && q.id == id
  {
    var j :| 0 <= j < k && j < |outputs| && outputs[j].id == id;
    q := outputs[j];
  }

  // ----- Order only flows along the induced relation -----

  /** An output of a skipped class that has no cause of its own although its class is no root. */
  ghost predicate Orphan(outputs: seq<Output>, o: Output) {
    Skipped(outputs, o) && o.causes == [] && !RootClass(outputs, o)
  }

  /** An output of a skipped class that causes nothing itself, only through its class. */
  ghost predicate Stranded(outputs: seq<Output>, o: Output) {
    Skipped(outputs, o) && IsChild(outputs, o.id) && forall x :: x in outputs ==> o.id !in x.causes
  }

  ghost predicate NoOrphans(outputs: seq<Output>) {
    forall o :: o in outputs ==> !Orphan(outputs, o)
  }

  ghost predicate NoneStranded(outputs: seq<Output>) {
    forall o :: o in outputs ==> !Stranded(outputs, o)
  }

  /** With keys apart no class is skipped. */
  lemma ApartSkipsNone(outputs: seq<Output>)
    requires BodyKeysApart(outputs)
    ensures NoOrphans(outputs) && NoneStranded(outputs)
  {
    hide BodyKey, ClassIds, RootClass, IsChild;
  }

  /** Which firing generates which range event, what induces what, the Start event, and the
      events nothing leads to or from. */
  datatype Plan = Plan(
    own: map<EventID, nat>, relation: Matrix, start: EventID, orphans: set<EventID>, stranded: set<EventID>)

  ghost predicate Flows(plan: Plan, a: EventID, b: EventID) {
    a == b ||
    (b !in plan.orphans && a !in plan.stranded &&
     (a == plan.start ||
      (b != plan.start && a in plan.own && b in plan.own &&
       (plan.own[a] == plan.own[b] || Related(plan.relation, plan.own[a], plan.own[b])))))
  }

  /** Whatever is at or before another event comes from Start, its own firing or an inducing one. */
  ghost predicate Flowing(v: View, plan: Plan) {
    forall a, b :: Leq(v, a, b) ==> Flows(plan, a, b)
  }

  lemma FlowsOn(plan: Plan, a: EventID, b: EventID, c: EventID)
    requires StrictOrder(plan.relation) && Flows(plan, a, b) && Flows(plan, b, c)
    ensures Flows(plan, a, c)
  {}

  lemma EventFlows(v: View, plan: Plan, id: EventID, c: Content, causes: set<EventID>)
    requires Shaped(v) && StrictOrder(plan.relation) && Flowing(v, plan)
    requires id !in v.contents && causes <= v.contents.Keys
    requires forall k :: k in causes ==> Flows(plan, k, id)
    ensures Flowing(WithCausedEvent(v, id, c, causes), plan)
  {
    hide Shaped, Leq, StrictOrder, Flows, WithCausedEvent;
    var w := WithCausedEvent(v, id, c, causes);
    assert Flows(plan, id, id) by { FlowsToItself(plan, id); }
    forall a, b | Leq(w, a, b) ensures Flows(plan, a, b) {
      LeqWithCauses(v, id, c, causes, a, b);
      if b == id && a != id {
        var k :| k in causes && Leq(v, a, k);
        FlowsOn(plan, a, k, id);
      }
    }
  }

  lemma FlowsToItself(plan: Plan, id: EventID)
    ensures Flows(plan, id, id)
  {}

  lemma ClassFlows(v: View, plan: Plan, ids: set<EventID>, g: nat)
    requires Shaped(v) && StrictOrder(plan.relation) && Flowing(v, plan)
    requires ids != {} && ids <= v.contents.Keys
    requires forall x :: x in ids ==>
               x in plan.own && plan.own[x] == g && x != plan.start && x !in plan.orphans && x !in plan.stranded
    ensures Flowing(WithClass(v, Heads(v, ids)), plan)
  {
    hide Shaped, StrictOrder, WithClass, Reach;
    HeadsAreHeads(v, ids);
    forall a, b | Leq(WithClass(v, Heads(v, ids)), a, b) ensures Flows(plan, a, b) {
      LeqWithClass(v, Heads(v, ids), a, b);
      if !Leq(v, a, b) {
        var r, s :| r in Heads(v, ids) && s in Heads(v, ids) && Reach(v.edges, Rep(v, a), r) && Reach(v.edges, s, Rep(v, b));
        var x :| x in ids && Rep(v, x) == r;
        var y :| y in ids && Rep(v, y) == s;
        assert Leq(v, a, x) && Leq(v, y, b);
        FlowsOn(plan, a, x, y);
        FlowsOn(plan, a, y, b);
      }
    }
  }

  // ----- A placed body -----

  /** The body's own causes, merged classes and base causes hold in the range. */
  ghost predicate Placed(v: View, outputs: seq<Output>, base: set<EventID>) {
    && PlacedUpTo(v, outputs, base, |outputs|)
    && ClassesKept(v, outputs)
  }

  /** The classes kept are one class each in the range. */
  ghost predicate ClassesKept(v: View, outputs: seq<Output>) {
    forall o, q :: o in outputs && q in outputs && q.id in KeptIds(outputs, o) ==> Equivalent(v, o.event, q.event)
  }

  /** The first k outputs follow their causes, classes aside. */
  ghost predicate PlacedUpTo(v: View, outputs: seq<Output>, base: set<EventID>, k: nat)
    requires k <= |outputs|
  {
    && (forall i :: 0 <= i < k ==> outputs[i].event in v.contents)
    && (forall i, q :: 0 <= i < k && q in outputs && q.id in outputs[i].causes ==> Before(v, q.event, outputs[i].event))
    && (forall i, b :: 0 <= i < k && b in base && RootClass(outputs, outputs[i]) ==> Before(v, b, outputs[i].event))
  }

  lemma PlacedStays(v: View, w: View, outputs: seq<Output>, base: set<EventID>, k: nat)
    requires Refines(v, w) && k <= |outputs|
    ensures PlacedUpTo(v, outputs, base, k) ==> PlacedUpTo(w, outputs, base, k)
    ensures Placed(v, outputs, base) ==> Placed(w, outputs, base)
  {
    hide Before, Equivalent, RootClass, KeptIds;
  }

  lemma PlacedCause(v: View, outputs: seq<Output>, base: set<EventID>, o: Output, q: Output)
    requires Placed(v, outputs, base) && o in outputs && q in outputs && q.id in o.causes
    ensures Before(v, q.event, o.event)
  {
    var i :| 0 <= i < |outputs| && outputs[i] == o;
  }

  lemma PlacedPeer(v: View, outputs: seq<Output>, base: set<EventID>, o: Output, q: Output)
    requires Placed(v, outputs, base) && o in outputs && q in outputs && q.id in KeptIds(outputs, o)
    ensures Equivalent(v, o.event, q.event)
  {
    hide KeptIds;
  }

  lemma PlacedRoot(v: View, outputs: seq<Output>, base: set<EventID>, o: Output, b: EventID)
    requires Placed(v, outputs, base) && o in outputs && b in base && RootClass(outputs, o)
    ensures Before(v, b, o.event)
  {
    var i :| 0 <= i < |outputs| && outputs[i] == o;
  }

  lemma PlacedKnown(v: View, outputs: seq<Output>, base: set<EventID>, o: Output)
    requires Placed(v, outputs, base) && o in outputs
    ensures o.event in v.contents
  {
    var i :| 0 <= i < |outputs| && outputs[i] == o;
  }

  /** An output outside the root classes has a local cause, its own or a merged peer's, unless
      it is an orphan. */
  lemma LocalCause(outputs: seq<Output>, o: Output) returns (q: Output, c: Output)
    requires WellFormedBody(outputs) && o in outputs && !RootClass(outputs, o) && !Orphan(outputs, o)
    ensures q in outputs && c in outputs && q.id in KeptIds(outputs, o) && c.id in q.causes
  {
    hide Skipped, ClassIds;
    KeptItself(outputs, o);
    if o.causes != [] {
      q := o;
    } else {
      q :| q in outputs && q.id in ClassIds(o) && q.causes != [];
    }
    var k :| 0 <= k < |outputs| && outputs[k] == q;
    c := ListedOutput(outputs, k, q.causes[0]);
  }

  /** Every event of a placed body without orphans follows every base cause. */
  lemma {:induction false} AfterBase(v: View, f: Stamping, outputs: seq<Output>, base: set<EventID>, o: Output, b: EventID)
    requires Consistent(v) && Lawful(v, f) && WellFormedBody(outputs) && Placed(v, outputs, base) && NoOrphans(outputs)
    requires o in outputs && b in base && o.event in f
    ensures Before(v, b, o.event)
    decreases f[o.event]
  {
    hide Consistent, Lawful, WellFormedBody, Placed, RootClass, KeptIds, Orphan, Before, Equivalent;
    if RootClass(outputs, o) {
      PlacedRoot(v, outputs, base, o, b);
    } else {
      var q, c := LocalCause(outputs, o);
      PlacedCause(v, outputs, base, q, c);
      PlacedPeer(v, outputs, base, o, q);
      PlacedKnown(v, outputs, base, c);
      LawfulKeys(v, f);
      ConsistentShaped(v);
      LawfulFollowsOrder(v, f, c.event, q.event);
      LawfulFollowsOrder(v, f, o.event, q.event);
      EquivalentKnown(v, o.event, q.event);
      AfterBase(v, f, outputs, base, c, b);
      Through3(v, b, c.event, q.event, o.event);
    }
  }

  lemma EquivalentKnown(v: View, a: EventID, b: EventID)
    requires Equivalent(v, a, b)
    ensures Equivalent(v, b, a) && a in v.contents && b in v.contents
  {}

  lemma Through3(v: View, a: EventID, b: EventID, c: EventID, d: EventID)
    requires Consistent(v) && Before(v, a, b) && Before(v, b, c) && Equivalent(v, d, c)
    ensures Before(v, a, d)
  {
    hide Consistent, Before;
    EquivalentKnown(v, d, c);
    BeforeIsStrictOrder(v, b, c, c);
    BeforeIsStrictOrder(v, a, b, c);
    BeforeIsStrictOrder(v, c, d, d);
    BeforeIsStrictOrder(v, a, c, d);
  }

  /** What an output that is a child leads to, by itself or through a merged peer, unless it is
      stranded. */
  lemma ChildOf(outputs: seq<Output>, o: Output) returns (q: Output, x: Output)
    requires WellFormedBody(outputs) && o in outputs && IsChild(outputs, o.id) && !Stranded(outputs, o)
    ensures q in outputs && x in outputs && o.id in KeptIds(outputs, q) && q.id in x.causes
  {
    hide Skipped, ClassIds, WellFormedBody, IsChild;
    if x' :| x' in outputs && o.id in x'.causes {
      KeptItself(outputs, o);
      return o, x';
    }
    q, x := ThroughClass(outputs, o);
    PeersTogether(outputs, q, o);
  }

  lemma ThroughClass(outputs: seq<Output>, o: Output) returns (q: Output, x: Output)
    requires IsChild(outputs, o.id)
    ensures q in outputs && x in outputs && q.id in x.causes && o.id in ClassIds(q)
  {
    x :| x in outputs && CausedBy(outputs, x, o.id);
    q :| q in outputs && q.id in x.causes && o.id in ClassIds(q);
  }

  /** Every event of a placed body without stranded outputs is at or before one without children. */
  lemma {:induction false} BeforeFrontier(v: View, f: Stamping, outputs: seq<Output>, base: set<EventID>, o: Output) returns (t: Output)
    requires Consistent(v) && Lawful(v, f) && WellFormedBody(outputs) && Placed(v, outputs, base) && NoneStranded(outputs)
    requires o in outputs && o.event in f
    ensures t in outputs && !IsChild(outputs, t.id) && Leq(v, o.event, t.event)
    decreases Bound(f) - f[o.event]
  {
    hide Consistent, Lawful, WellFormedBody, Placed, KeptIds, Stranded, IsChild, Before, Equivalent, Leq;
    PlacedKnown(v, outputs, base, o);
    if !IsChild(outputs, o.id) {
      t := o;
      LeqItself(v, o.event);
    } else {
      var q, x := ChildOf(outputs, o);
      PlacedCause(v, outputs, base, x, q);
      PlacedPeer(v, outputs, base, q, o);
      PlacedKnown(v, outputs, base, x);
      LawfulKeys(v, f);
      ConsistentShaped(v);
      LawfulFollowsOrder(v, f, q.event, x.event);
      LawfulFollowsOrder(v, f, q.event, o.event);
      t := BeforeFrontier(v, f, outputs, base, x);
      EquivalentKnown(v, q.event, o.event);
      BeforeIsStrictOrder(v, o.event, q.event, x.event);
      BeforeIsStrictOrder(v, o.event, x.event, t.event);
      LeqOn(v, o.event, x.event, t.event);
    }
  }

  lemma LeqItself(v: View, a: EventID)
    requires a in v.contents
    ensures Leq(v, a, a)
  {}

  lemma LeqOn(v: View, a: EventID, b: EventID, c: EventID)
    requires (Before(v, a, b) || Leq(v, a, b)) && Leq(v, b, c)
    ensures Leq(v, a, c)
  {}

  // ----- Emitting one output -----

  function EventsOf(outputs: seq<Output>): set<EventID> {
    set o | o in outputs :: o.event
  }

  function LocalCauses(outputs: seq<Output>, ids: seq<Text>): set<EventID> {
    set q | q in outputs && q.id in ids :: q.event
  }

  /** The direct causes an output is added with. */
  ghost function CauseSet(outputs: seq<Output>, o: Output, base: set<EventID>): set<EventID> {
    LocalCauses(outputs, o.causes) + (if RootClass(outputs, o) then base else {})
  }

  /** The first k outputs have been added to the range u, now v. */
  ghost predicate Emitted(u: View, v: View, outputs: seq<Output>, base: set<EventID>, k: nat)
    requires k <= |outputs|
  {
    && Refines(u, v)
    && v.contents.Keys == u.contents.Keys + EventsOf(outputs[..k])
    && PlacedUpTo(v, outputs, base, k)
  }

  lemma NoneEmitted(u: View, outputs: seq<Output>, base: set<EventID>)
    ensures Emitted(u, u, outputs, base, 0)
  {
    assert EventsOf(outputs[..0]) == {};
  }

  lemma CausedRefines(v: View, id: EventID, c: Content, causes: set<EventID>)
    requires Consistent(v) && id !in v.contents && causes <= v.contents.Keys
    ensures Refines(v, WithCausedEvent(v, id, c, causes))
    ensures forall k :: k in causes ==> Before(WithCausedEvent(v, id, c, causes), k, id)
  {
    hide Consistent, Before, WithCausedEvent;
    var w := WithCausedEvent(v, id, c, causes);
    ConsistentShaped(v);
    CausedKeys(v, id, c, causes);
    forall a, b ensures Before(v, a, b) ==> Before(w, a, b) {
      CausedBefore(v, id, c, causes, a, b);
    }
    forall a, b | Equivalent(v, a, b) ensures Equivalent(w, a, b) {
      CausedReps(v, id, c, causes, a);
      CausedReps(v, id, c, causes, b);
    }
    forall k | k in causes ensures Before(w, k, id) {
      CausedBefore(v, id, c, causes, k, k);
    }
  }

  lemma CausedBefore(v: View, id: EventID, c: Content, causes: set<EventID>, a: EventID, b: EventID)
    requires Shaped(v) && id !in v.contents && causes <= v.contents.Keys
    ensures Before(v, a, b) ==> Before(WithCausedEvent(v, id, c, causes), a, b)
    ensures a in causes ==> Before(WithCausedEvent(v, id, c, causes), a, id)
  {
    hide Shaped, Leq, WithCausedEvent;
    LeqKnown(v, b);
    LeqFromKnown(v, a);
    if a in v.contents {
      LeqItself(v, a);
      CausedReps(v, id, c, causes, a);
      LeqWithCauses(v, id, c, causes, a, id);
      if b in v.contents {
        CausedReps(v, id, c, causes, b);
        LeqWithCauses(v, id, c, causes, a, b);
      }
    }
  }

  lemma EventsStep(outputs: seq<Output>, k: nat)
    requires k < |outputs|
    ensures EventsOf(outputs[..k + 1]) == EventsOf(outputs[..k]) + {outputs[k].event}
  {
    assert outputs[..k + 1] == outputs[..k] + [outputs[k]];
    assert outputs[k] in outputs[..k + 1];
  }

  lemma CausesEmitted(u: View, v: View, outputs: seq<Output>, base: set<EventID>, k: nat)
    requires WellFormedBody(outputs) && k < |outputs| && Emitted(u, v, outputs, base, k)
    requires base <= u.contents.Keys
    ensures CauseSet(outputs, outputs[k], base) <= v.contents.Keys
  {
    hide ClassIds, RootClass, Refines;
    assert u.contents.Keys <= v.contents.Keys by { RefinesKnown(u, v); }
    forall q | q in outputs && q.id in outputs[k].causes ensures q.event in v.contents {
      var j :| 0 <= j < k && outputs[j].id == q.id;
      SameOutput(outputs, q, outputs[j]);
      assert outputs[j].event in v.contents;
    }
  }

  lemma EmitOutput(u: View, v: View, outputs: seq<Output>, base: set<EventID>, k: nat, c: Content)
    requires Consistent(v) && WellFormedBody(outputs) && k < |outputs| && Emitted(u, v, outputs, base, k)
    requires outputs[k].event !in v.contents && CauseSet(outputs, outputs[k], base) <= v.contents.Keys
    ensures Emitted(u, WithCausedEvent(v, outputs[k].event, c, CauseSet(outputs, outputs[k], base)), outputs, base, k + 1)
  {
    hide Consistent, WellFormedBody, Before, Equivalent, RootClass, ClassIds, WithCausedEvent;
    var o := outputs[k];
    var w := WithCausedEvent(v, o.event, c, CauseSet(outputs, o, base));
    CausedRefines(v, o.event, c, CauseSet(outputs, o, base));
    PlacedStays(v, w, outputs, base, k);
    EventsStep(outputs, k);
    CausedKeys(v, o.event, c, CauseSet(outputs, o, base));
  }

  // ----- A layered body's classes can always be merged -----

  /** The stamps of the range before the body, and above them the body's layers. */
  ghost function LayerStamps(low: Stamping, outputs: seq<Output>, k: nat, rank: map<Text, nat>): Stamping
    requires k <= |outputs| && forall o :: o in outputs ==> o.id in rank
  {
    if k == 0 then low
    else LayerStamps(low, outputs, k - 1, rank)[outputs[k - 1].event := Bound(low) + 1 + rank[outputs[k - 1].id]]
  }

  lemma {:induction false} LayerStamp(low: Stamping, outputs: seq<Output>, k: nat, rank: map<Text, nat>, x: EventID)
    requires WellFormedBody(outputs) && k <= |outputs| && Ranks(outputs, rank)
    requires forall o :: o in outputs ==> o.event !in low
    ensures var f := LayerStamps(low, outputs, k, rank);
            && (x in low ==> x in f && f[x] == low[x])
            && (forall i :: 0 <= i < k && outputs[i].event == x ==> x in f && f[x] == Bound(low) + 1 + rank[outputs[i].id])
  {
    hide KeptIds;
    if k > 0 {
      LayerStamp(low, outputs, k - 1, rank, x);
    }
  }

  lemma CausedLawful(v: View, f: Stamping, id: EventID, c: Content, causes: set<EventID>, stamp: nat)
    requires Shaped(v) && Lawful(v, f) && id !in v.contents && causes <= v.contents.Keys
    requires forall k :: k in causes ==> f[k] < stamp
    ensures Lawful(WithCausedEvent(v, id, c, causes), f[id := stamp])
  {
    hide AtMost, CanonicalTimings;
    var w, g := WithCausedEvent(v, id, c, causes), f[id := stamp];
    EventStays(v, id, c, f, stamp);
    SameClassesUniform(WithEvent(v, id, c), w, g);
    forall a, b | (a, b) in w.edges ensures g[a] < g[b] {
      if (a, b) in v.edges {
        assert IsHead(v, a) && IsHead(v, b);
      } else {
        var k :| k in causes && (Rep(v, k), id) == (a, b);
        assert f[k] == f[Rep(v, k)] by { assert IsHead(v, v.cls[k]); }
      }
    }
  }

  lemma EmitLayer(
      v: View, low: Stamping, outputs: seq<Output>, base: set<EventID>, k: nat, rank: map<Text, nat>, c: Content)
    requires Shaped(v) && WellFormedBody(outputs) && k < |outputs| && Ranks(outputs, rank)
    requires forall o :: o in outputs ==> o.event !in low
    requires Lawful(v, LayerStamps(low, outputs, k, rank)) && base <= low.Keys
    requires outputs[k].event !in v.contents && CauseSet(outputs, outputs[k], base) <= v.contents.Keys
    ensures Lawful(WithCausedEvent(v, outputs[k].event, c, CauseSet(outputs, outputs[k], base)), LayerStamps(low, outputs, k + 1, rank))
  {
    hide Shaped, Lawful, LayerStamps, KeptIds, RootClass, WithCausedEvent;
    var o, f := outputs[k], LayerStamps(low, outputs, k, rank);
    var stamp := Bound(low) + 1 + rank[o.id];
    LawfulKeys(v, f);
    forall x | x in CauseSet(outputs, o, base) ensures f[x] < stamp {
      LayerStamp(low, outputs, k, rank, x);
      if x !in base {
        var q :| q in outputs && q.id in o.causes && q.event == x;
        assert q.id in outputs[k].causes;
        var j :| 0 <= j < k && outputs[j].id == q.id;
        SameOutput(outputs, q, outputs[j]);
      }
    }
    CausedLawful(v, f, o.event, c, CauseSet(outputs, o, base), stamp);
    LayerStep(low, outputs, k, rank);
  }

  lemma LayerStep(low: Stamping, outputs: seq<Output>, k: nat, rank: map<Text, nat>)
    requires k < |outputs| && forall o :: o in outputs ==> o.id in rank
    ensures LayerStamps(low, outputs, k + 1, rank) ==
            LayerStamps(low, outputs, k, rank)[outputs[k].event := Bound(low) + 1 + rank[outputs[k].id]]
  {}

  /** Events on one layer are unordered, and merging them keeps the layering. */
  lemma SameLayerMerges(v: View, f: Stamping, ids: set<EventID>, stamp: nat)
    requires Consistent(v) && Untimed(v) && Lawful(v, f) && ids != {} && ids <= v.contents.Keys
    requires forall x :: x in ids ==> f[x] == stamp
    ensures ClassFits(v, ids) && Lawful(WithClass(v, Heads(v, ids)), f)
  {
    hide Consistent, WithClass, Lawful, Reach;
    var heads := Heads(v, ids);
    ConsistentShaped(v);
    LawfulKeys(v, f);
    HeadsAreHeads(v, ids);
    forall h | h in heads ensures h in f && f[h] == stamp {
      var x :| x in ids && Rep(v, x) == h;
      LawfulFollowsOrder(v, f, x, h);
    }
    forall r, s | r in heads && s in heads && r != s ensures !Reach(v.edges, r, s) {
      LawfulFollowsOrder(v, f, r, s);
    }
    ClassConsistentIff(v, heads);
    WithClassContents(v, heads);
    UntimedRule(WithClass(v, heads));
    MergedLawful(v, heads, f, stamp);
  }

  ghost predicate Untimed(v: View) {
    forall id :: id in v.contents ==> v.contents[id].timings == []
  }

  lemma UntimedRule(v: View)
    requires Untimed(v)
    ensures TimingRule(v)
  {}

  lemma MergedLawful(v: View, heads: set<EventID>, f: Stamping, stamp: nat)
    requires Shaped(v) && AreHeads(v, heads) && Lawful(v, f)
    requires forall h :: h in heads ==> h in f && f[h] == stamp
    ensures Lawful(WithClass(v, heads), f)
  {
    hide CanonicalTimings, AtMost, LeastHead;
    var w, m := WithClass(v, heads), LeastHead(heads);
    forall id | id in f && Rep(w, id) in f ensures f[id] == f[Rep(w, id)] {
      WithClassRep(v, heads, id);
      assert IsHead(v, v.cls[id]);
    }
    forall a, b | (a, b) in w.edges && a in f && b in f ensures f[a] < f[b] {
      var e :| e in v.edges && Apply(Collapse(heads), e.0) == a && Apply(Collapse(heads), e.1) == b;
      assert (e.0, e.1) in v.edges && IsHead(v, e.0) && IsHead(v, e.1);
    }
  }

  ghost function StampRanks(f: Stamping, outputs: seq<Output>, k: nat): map<Text, nat>
    requires k <= |outputs| && forall o :: o in outputs ==> o.event in f
  {
    if k == 0 then map[] else StampRanks(f, outputs, k - 1)[outputs[k - 1].id := f[outputs[k - 1].event]]
  }

  lemma {:induction false} StampRank(f: Stamping, outputs: seq<Output>, k: nat, i: nat)
    requires WellFormedBody(outputs) && i < k <= |outputs| && forall o :: o in outputs ==> o.event in f
    ensures outputs[i].id in StampRanks(f, outputs, k) && StampRanks(f, outputs, k)[outputs[i].id] == f[outputs[i].event]
  {
    if i < k - 1 {
      StampRank(f, outputs, k - 1, i);
    }
  }

  /** A placed body is layered: the stamps of its events layer it. */
  lemma PlacedLayers(v: View, f: Stamping, outputs: seq<Output>, base: set<EventID>)
    requires Consistent(v) && Lawful(v, f) && WellFormedBody(outputs) && Placed(v, outputs, base)
    ensures Layered(outputs)
  {
    hide Consistent, Lawful, WellFormedBody, KeptIds, Placed, Before, Equivalent, StampRanks;
    ConsistentShaped(v);
    LawfulKeys(v, f);
    forall o | o in outputs ensures o.event in f {
      PlacedKnown(v, outputs, base, o);
    }
    var rank := StampRanks(f, outputs, |outputs|);
    forall o | o in outputs ensures o.id in rank && rank[o.id] == f[o.event] {
      var i :| 0 <= i < |outputs| && outputs[i] == o;
      StampRank(f, outputs, |outputs|, i);
    }
    forall o, q | o in outputs && q in outputs && q.id in KeptIds(outputs, o) ensures rank[q.id] == rank[o.id] {
      PlacedPeer(v, outputs, base, o, q);
      LawfulFollowsOrder(v, f, o.event, q.event);
    }
    forall o, q | o in outputs && q in outputs && q.id in o.causes ensures rank[q.id] < rank[o.id] {
      PlacedCause(v, outputs, base, o, q);
      LawfulFollowsOrder(v, f, q.event, o.event);
    }
    assert Ranks(outputs, rank);
  }

  // ----- When layers exist -----

  /** The causes between merged classes. */
  ghost function ClassEdges(outputs: seq<Output>): set<(set<Text>, set<Text>)> {
    set o, q | o in outputs && q in outputs && q.id in o.causes :: (KeptIds(outputs, q), KeptIds(outputs, o))
  }

  ghost function ClassAncestors(outputs: seq<Output>, n: set<Text>): set<set<Text>> {
    set o | o in outputs && Reach(ClassEdges(outputs), KeptIds(outputs, o), n) :: KeptIds(outputs, o)
  }

  lemma AncestorsGrow(outputs: seq<Output>, o: Output, q: Output)
    requires Acyclic(ClassEdges(outputs)) && o in outputs && q in outputs && q.id in o.causes
    ensures |ClassAncestors(outputs, KeptIds(outputs, q))| < |ClassAncestors(outputs, KeptIds(outputs, o))|
  {
    hide Reach, KeptIds;
    var edges := ClassEdges(outputs);
    var p, n := KeptIds(outputs, q), KeptIds(outputs, o);
    assert (p, n) in edges;
    ReachItself(edges, n);
    forall m | m in ClassAncestors(outputs, p) ensures m in ClassAncestors(outputs, n) {
      ReachStep(edges, m, p, n);
    }
    assert n !in ClassAncestors(outputs, p) && n in ClassAncestors(outputs, n);
    StrictSubsetSmaller(ClassAncestors(outputs, p), ClassAncestors(outputs, n), n);
  }

  lemma RankMap(outputs: seq<Output>)
    requires WellFormedBody(outputs)
    ensures forall o, q :: o in outputs && q in outputs && o.id == q.id ==> o == q
  {
    hide WellFormedBody;
    forall o, q | o in outputs && q in outputs && o.id == q.id ensures o == q {
      SameOutput(outputs, o, q);
    }
  }

  ghost function Depth(outputs: seq<Output>, o: Output): nat {
    |ClassAncestors(outputs, KeptIds(outputs, o))|
  }

  /** A rank by id may be read off a rank by output. */
  lemma RanksIntro(outputs: seq<Output>, rank: map<Text, nat>)
    requires forall o :: o in outputs ==> o.id in rank && rank[o.id] == Depth(outputs, o)
    requires forall o, q :: o in outputs && q in outputs && q.id in KeptIds(outputs, o) ==> Depth(outputs, q) == Depth(outputs, o)
    requires forall o, q :: o in outputs && q in outputs && q.id in o.causes ==> Depth(outputs, q) < Depth(outputs, o)
    ensures Ranks(outputs, rank)
  {
    hide Depth, KeptIds;
  }

  lemma AcyclicRanks(outputs: seq<Output>)
    requires WellFormedBody(outputs) && Acyclic(ClassEdges(outputs))
    ensures Layered(outputs)
  {
    hide Acyclic, KeptIds, ClassAncestors, WellFormedBody, Ranks, ClassEdges;
    RankMap(outputs);
    var rank := map o | o in outputs :: o.id := Depth(outputs, o);
    forall o, q | o in outputs && q in outputs && q.id in o.causes ensures Depth(outputs, q) < Depth(outputs, o) {
      AncestorsGrow(outputs, o, q);
    }
    forall o, q | o in outputs && q in outputs && q.id in KeptIds(outputs, o) ensures Depth(outputs, q) == Depth(outputs, o) {
      KeptPeers(outputs, o, q);
    }
    RanksIntro(outputs, rank);
  }

  ghost predicate NotBelow(outputs: seq<Output>, rank: map<Text, nat>, b: set<Text>, n: set<Text>) {
    forall o, p :: o in outputs && p in outputs && KeptIds(outputs, o) == b && KeptIds(outputs, p) == n ==>
      o.id in rank && p.id in rank && rank[o.id] <= rank[p.id]
  }

  lemma EdgeRanks(outputs: seq<Output>, rank: map<Text, nat>, x: set<Text>, y: set<Text>) returns (c: Output, p: Output)
    requires Ranks(outputs, rank) && (x, y) in ClassEdges(outputs)
    ensures c in outputs && p in outputs && KeptIds(outputs, c) == x && KeptIds(outputs, p) == y && c.id in rank && p.id in rank
    ensures rank[c.id] < rank[p.id]
    ensures forall q :: q in outputs && KeptIds(outputs, q) == y ==> q.id in rank && rank[q.id] == rank[p.id]
  {
    hide KeptIds;
    p, c :| p in outputs && c in outputs && c.id in p.causes && KeptIds(outputs, c) == x && KeptIds(outputs, p) == y;
    forall q | q in outputs && KeptIds(outputs, q) == y ensures q.id in KeptIds(outputs, p) {
      KeptItself(outputs, q);
    }
  }

  lemma RanksAcyclic(outputs: seq<Output>, rank: map<Text, nat>)
    requires Ranks(outputs, rank)
    ensures Acyclic(ClassEdges(outputs))
  {
    hide Reach, KeptIds, Ranks, ClassEdges;
    var edges := ClassEdges(outputs);
    forall a, b | (a, b) in edges ensures !Reach(edges, b, a) {
      var c, p := EdgeRanks(outputs, rank, a, b);
      var later := iset n | NotBelow(outputs, rank, b, n);
      assert b in later;
      forall x, y | (x, y) in edges && x in later ensures y in later {
        var d, q := EdgeRanks(outputs, rank, x, y);
      }
      if Reach(edges, b, a) {
        ReachWithin(edges, b, a, later);
      }
    }
  }

  /** A body has layers exactly when its causes stay acyclic between the classes. */
  lemma LayeredIff(outputs: seq<Output>)
    requires WellFormedBody(outputs)
    ensures Layered(outputs) <==> Acyclic(ClassEdges(outputs))
  {
    hide Acyclic, WellFormedBody, ClassEdges, Ranks;
    if Layered(outputs) {
      var rank :| Ranks(outputs, rank);
      RanksAcyclic(outputs, rank);
    }
    if Acyclic(ClassEdges(outputs)) {
      AcyclicRanks(outputs);
    }
  }

  // ----- The check made when a body is normalised -----

  ghost function LocalEdges(outputs: seq<Output>): set<(Text, Text)> {
    set o, c | o in outputs && c in o.causes :: (c, o.id)
  }

  /** normalizeRuleOutputEquivalences: no class holds two outputs of which local causes lead
      from one to the other. */
  ghost predicate ClassesUnordered(outputs: seq<Output>) {
    forall o, q :: o in outputs && q in outputs && q.id in ClassIds(o) && q.id != o.id ==>
      !Reach(LocalEdges(outputs), o.id, q.id)
  }

  /** No merged class of a body with layers holds ordered outputs, so with keys apart the body
      passes the check. */
  lemma LayeredPasses(outputs: seq<Output>)
    requires WellFormedBody(outputs) && Layered(outputs)
    ensures forall o, q :: o in outputs && q in outputs && q.id in KeptIds(outputs, o) && q.id != o.id ==>
              !Reach(LocalEdges(outputs), o.id, q.id)
    ensures BodyKeysApart(outputs) ==> ClassesUnordered(outputs)
  {
    hide WellFormedBody, KeptIds, BodyKeysApart, ClassIds, Reach;
    var rank :| Ranks(outputs, rank);
    forall o, q | o in outputs && q in outputs && q.id in KeptIds(outputs, o) && q.id != o.id
      ensures !Reach(LocalEdges(outputs), o.id, q.id)
    {
      RankedApart(outputs, rank, o, q);
    }
    if BodyKeysApart(outputs) {
      forall o | o in outputs ensures KeptIds(outputs, o) == ClassIds(o) {
        ApartKeepsAll(outputs, o);
      }
    }
  }

  lemma RankedApart(outputs: seq<Output>, rank: map<Text, nat>, o: Output, q: Output)
    requires WellFormedBody(outputs) && Ranks(outputs, rank) && o in outputs && q in outputs
    requires q.id in KeptIds(outputs, o) && q.id != o.id
    ensures !Reach(LocalEdges(outputs), o.id, q.id)
  {
    hide WellFormedBody, KeptIds;
    var edges := LocalEdges(outputs);
    if Reach(edges, o.id, q.id) {
      var above := iset x | x == o.id || (x in rank && rank[o.id] < rank[x]);
      forall x, y | (x, y) in edges && x in above ensures y in above {
        var p :| p in outputs && x in p.causes && p.id == y;
        var c := CauseOutput(outputs, p, x);
      }
      ReachWithin(edges, o.id, q.id, above);
    }
  }

  lemma CauseOutput(outputs: seq<Output>, p: Output, x: Text) returns (c: Output)
    requires WellFormedBody(outputs) && p in outputs && x in p.causes
    ensures c in outputs && c.id == x
  {
    var k :| 0 <= k < |outputs| && outputs[k] == p;
    assert IsListed(outputs, k, x);
    c := ListedOutput(outputs, k, x);
  }

  /** Outputs a and d without causes, b caused by d and equivalent to a, c caused by a and
      equivalent to d; their occurrences carry the same names. */
  ghost function Crossed(content: Content): seq<Output> {
    [Output([97], [], [[98]], [97], content),
     Output([100], [], [[99]], [100], content),
     Output([98], [[100]], [[97]], [98], content),
     Output([99], [[97]], [[100]], [99], content)]
  }

  /** The check is not enough: two classes can cause each other crosswise although no class
      holds two ordered outputs, and then no layering exists. */
  lemma CrossedClasses(content: Content)
    requires content.timings == []
    ensures WellFormedBody(Crossed(content)) && ClassesUnordered(Crossed(content)) && !Layered(Crossed(content))
  {
    hide ClassIds, BodyKeysApart, KeptIds, WellFormedBody, ClassesUnordered;
    var outputs := Crossed(content);
    CrossedWellFormed(content);
    CrossedUnordered(content);
    CrossedKept(content);
    forall rank ensures !Ranks(outputs, rank) {
      assert outputs[0] in outputs && outputs[1] in outputs && outputs[2] in outputs && outputs[3] in outputs;
      CrossedClassIds(content, outputs[0]);
      CrossedClassIds(content, outputs[1]);
      assert outputs[2].id in KeptIds(outputs, outputs[0]) && outputs[3].id in KeptIds(outputs, outputs[1]);
      assert outputs[0].id in outputs[3].causes && outputs[1].id in outputs[2].causes;
    }
  }

  lemma CrossedKept(content: Content)
    requires content.timings == []
    ensures forall o :: o in Crossed(content) ==> KeptIds(Crossed(content), o) == ClassIds(o)
  {
    hide ClassIds, BodyKeysApart, KeptIds, WellFormedBody, Crossed;
    CrossedWellFormed(content);
    forall o, id | o in Crossed(content) && id in ClassIds(o) ensures NulFree(id) {
      CrossedClassIds(content, o);
    }
    PlainBodyKeys(Crossed(content));
    forall o | o in Crossed(content) ensures KeptIds(Crossed(content), o) == ClassIds(o) {
      ApartKeepsAll(Crossed(content), o);
    }
  }

  lemma CrossedClassIds(content: Content, o: Output)
    requires o in Crossed(content)
    ensures ClassIds(o) == (if o.id == [97] || o.id == [98] then {[97], [98]} else {[99], [100]})
    ensures o.id in {[97], [98], [99], [100]} && MembersOnce(o)
  {
    assert o == Crossed(content)[0] || o == Crossed(content)[1] || o == Crossed(content)[2] || o == Crossed(content)[3];
    assert Members(o.equivalent) == {o.equivalent[0]};
  }

  lemma CrossedListed(content: Content, id: Text)
    requires id in {[97], [98], [99], [100]}
    ensures IsListed(Crossed(content), 4, id)
    ensures id == [100] ==> IsListed(Crossed(content), 2, id)
    ensures id == [97] ==> IsListed(Crossed(content), 3, id)
  {
    var outputs := Crossed(content);
    assert outputs[0].id == [97] && outputs[1].id == [100] && outputs[2].id == [98] && outputs[3].id == [99];
  }

  lemma CrossedWellFormed(content: Content)
    requires content.timings == []
    ensures WellFormedBody(Crossed(content))
  {
    hide ClassIds, IsListed;
    var outputs := Crossed(content);
    forall k, c | 0 <= k < |outputs| && c in outputs[k].causes ensures IsListed(outputs, k, c) {
      CrossedListed(content, c);
    }
    forall o, c | o in outputs && c in o.equivalent ensures IsListed(outputs, |outputs|, c) {
      CrossedListed(content, c);
    }
    forall o, q | o in outputs && q in outputs && q.id in ClassIds(o) ensures ClassIds(q) == ClassIds(o) {
      CrossedClassIds(content, o);
      CrossedClassIds(content, q);
    }
    forall o | o in outputs ensures MembersOnce(o) {
      CrossedClassIds(content, o);
    }
  }

  lemma CrossedCauses(content: Content, o: Output)
    requires o in Crossed(content)
    ensures o.causes == if o.id == [98] then [[100]] else if o.id == [99] then [[97]] else []
  {
    assert o == Crossed(content)[0] || o == Crossed(content)[1] || o == Crossed(content)[2] || o == Crossed(content)[3];
  }

  lemma CrossedUnordered(content: Content)
    ensures ClassesUnordered(Crossed(content))
  {
    hide ClassIds, Crossed;
    var outputs := Crossed(content);
    var edges := LocalEdges(outputs);
    var a: Text, b: Text, c: Text, d: Text := [97], [98], [99], [100];
    forall x, y | (x, y) in edges ensures (x == a && y == c) || (x == d && y == b) {
      var o :| o in outputs && x in o.causes && o.id == y;
      CrossedCauses(content, o);
    }
    forall o, q | o in outputs && q in outputs && q.id in ClassIds(o) && q.id != o.id ensures !Reach(edges, o.id, q.id) {
      CrossedClassIds(content, o);
      CrossedClassIds(content, q);
      var reached := iset{o.id} + (if o.id == a then iset{c} else if o.id == d then iset{b} else iset{});
      assert Closed(edges, reached);
      assert o.id in reached && q.id !in reached;
    }
  }
}
