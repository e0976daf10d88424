/** Causality-preserving embeddings (arch/behavior_conformance.go): does a service's observed
    computation contain a copy of the behaviour's? */
module Embeddings {
  import opened Texts
  import opened Timings
  import opened CausalOrder
  import opened Stores
  import opened Posets
  import opened MapPolicies
  import Kahn
  import Reachability

  /** An occurrence as one poset shows it; `params` is its canonical parameter encoding. */
  datatype Seen = Seen(id: EventID, name: Text, params: Text)

  /** A folded qualified name and the parameters: what an image must share. */
  datatype Signature = Signature(name: Text, params: Text)

  datatype Item = Item(id: EventID, signature: Signature, candidates: seq<EventID>)

  function Lower(x: byte): byte {
    if 65 <= x <= 90 then x + 32 else x
  }

  /** ASCII case folding of names. */
  function Fold(t: Text): (r: Text)
    ensures |r| == |t|
  {
    if t == [] then [] else [Lower(t[0])] + Fold(t[1..])
  }

  /** One letter in the other case, in ASCII. */
  predicate OtherCase(x: byte, y: byte) {
    (65 <= x <= 90 && y == x + 32) || (65 <= y <= 90 && x == y + 32)
  }

  lemma {:induction false} FoldAt(t: Text, i: nat)
    requires i < |t|
    ensures Fold(t)[i] == Lower(t[i])
  {
    hide Lower;
    if i > 0 {
      FoldAt(t[1..], i - 1);
    }
  }

  /** Folding identifies exactly the names that are equal up to case. */
  lemma FoldIff(a: Text, b: Text)
    ensures Fold(a) == Fold(b) <==>
            |a| == |b| && forall i :: 0 <= i < |a| ==> a[i] == b[i] || OtherCase(a[i], b[i])
  {
    hide Fold;
    if |a| == |b| {
      forall i | 0 <= i < |a| ensures Fold(a)[i] == Fold(b)[i] <==> a[i] == b[i] || OtherCase(a[i], b[i]) {
        FoldAt(a, i);
        FoldAt(b, i);
      }
    }
  }

  // ----- Embeddings -----

  ghost predicate OrderKept(e: View, a: View, f: map<EventID, EventID>, x: EventID, y: EventID)
    requires x in f && y in f
  {
    Before(e, x, y) <==> Before(a, f[x], f[y])
  }

  function ItemIds(items: seq<Item>, k: nat): set<EventID>
    requires k <= |items|
  {
    set i | 0 <= i < k :: items[i].id
  }

  /** The first k items have candidate images, no image used twice, causal order kept in both
      directions. */
  ghost predicate Embeds(e: View, a: View, items: seq<Item>, k: nat, f: map<EventID, EventID>)
    requires k <= |items|
  {
    && f.Keys == ItemIds(items, k)
    && (forall i :: 0 <= i < k ==> f[items[i].id] in items[i].candidates)
    && (forall x, y :: x in f && y in f && x != y ==> f[x] != f[y])
    && KeepsOrder(e, a, f)
  }

  ghost predicate KeepsOrder(e: View, a: View, f: map<EventID, EventID>) {
    forall x, y :: x in f && y in f && x != y ==> OrderKept(e, a, f, x, y)
  }

  ghost predicate Agrees(small: map<EventID, EventID>, large: map<EventID, EventID>) {
    forall x :: x in small ==> x in large && large[x] == small[x]
  }

  ghost predicate DistinctItems(items: seq<Item>) {
    forall i, j :: 0 <= i < j < |items| ==> items[i].id != items[j].id
  }

  /** x keeps its order with everything mapped. */
  ghost predicate Fits(e: View, a: View, mapped: map<EventID, EventID>, x: EventID, image: EventID) {
    && (forall y :: y in mapped ==> (Before(e, y, x) <==> Before(a, mapped[y], image)))
    && (forall y :: y in mapped ==> (Before(e, x, y) <==> Before(a, image, mapped[y])))
  }

  lemma IdsStep(items: seq<Item>, k: nat)
    requires DistinctItems(items) && k < |items|
    ensures ItemIds(items, k + 1) == ItemIds(items, k) + {items[k].id} && items[k].id !in ItemIds(items, k)
  {}

  lemma OrderStep(e: View, a: View, mapped: map<EventID, EventID>, x: EventID, image: EventID)
    requires x !in mapped
    ensures KeepsOrder(e, a, mapped[x := image]) <==> KeepsOrder(e, a, mapped) && Fits(e, a, mapped, x, image)
  {
    hide Before;
    var next := mapped[x := image];
    if KeepsOrder(e, a, next) {
      forall y | y in mapped
        ensures Before(e, y, x) <==> Before(a, mapped[y], image)
        ensures Before(e, x, y) <==> Before(a, image, mapped[y])
      {
        assert OrderKept(e, a, next, y, x) && OrderKept(e, a, next, x, y);
      }
      forall y, z | y in mapped && z in mapped && y != z ensures OrderKept(e, a, mapped, y, z) {
        assert OrderKept(e, a, next, y, z);
      }
    }
    if KeepsOrder(e, a, mapped) && Fits(e, a, mapped, x, image) {
      forall y, z | y in next && z in next && y != z ensures OrderKept(e, a, next, y, z) {
        assert y != x && z != x ==> OrderKept(e, a, mapped, y, z);
      }
    }
  }

  /** A partial embedding extends by one image exactly when it is a fresh candidate that fits. */
  lemma EmbedsStep(e: View, a: View, items: seq<Item>, k: nat, mapped: map<EventID, EventID>, image: EventID)
    requires DistinctItems(items) && k < |items| && Embeds(e, a, items, k, mapped)
    ensures items[k].id !in mapped
    ensures Embeds(e, a, items, k + 1, mapped[items[k].id := image]) <==>
            image in items[k].candidates && image !in mapped.Values && Fits(e, a, mapped, items[k].id, image)
  {
    hide KeepsOrder, Fits;
    var next := mapped[items[k].id := image];
    IdsStep(items, k);
    OrderStep(e, a, mapped, items[k].id, image);
    if Embeds(e, a, items, k + 1, next) {
      forall y | y in mapped ensures mapped[y] != image {
        assert next[y] != next[items[k].id];
      }
    }
  }

  lemma KeepsOrderPart(e: View, a: View, small: map<EventID, EventID>, f: map<EventID, EventID>)
    requires KeepsOrder(e, a, f) && Agrees(small, f)
    ensures KeepsOrder(e, a, small)
  {
    hide Before;
    forall y, z | y in small && z in small && y != z ensures OrderKept(e, a, small, y, z) {
      assert OrderKept(e, a, f, y, z);
    }
  }

  /** A whole embedding extends every partial one it agrees with. */
  lemma EmbedsPrefix(e: View, a: View, items: seq<Item>, f: map<EventID, EventID>, k: nat, mapped: map<EventID, EventID>)
    requires DistinctItems(items) && k < |items| && Embeds(e, a, items, |items|, f)
    requires Embeds(e, a, items, k, mapped) && Agrees(mapped, f)
    ensures items[k].id in f && items[k].id !in mapped
    ensures Agrees(mapped[items[k].id := f[items[k].id]], f)
    ensures Embeds(e, a, items, k + 1, mapped[items[k].id := f[items[k].id]])
  {
    hide KeepsOrder;
    IdsStep(items, k);
    assert items[k].id in ItemIds(items, |items|);
    KeepsOrderPart(e, a, mapped[items[k].id := f[items[k].id]], f);
  }

  // ----- The search -----

  datatype Verdict = Found | NotFound | OutOfAttempts

  /** Whether a depth-first search ends with an embedding, and at how many candidates it looks. */
  datatype Tally = Tally(found: bool, looked: nat)

  /** What follows from one candidate: nothing if it is used or does not fit. */
  ghost function Beyond(e: View, a: View, items: seq<Item>, index: nat, mapped: map<EventID, EventID>, image: EventID): Tally
    requires index < |items|
    decreases |items| - index, 0
  {
    if image in mapped.Values || !Fits(e, a, mapped, items[index].id, image) then Tally(false, 0)
    else Walk(e, a, items, index + 1, mapped[items[index].id := image], 0)
  }

  /** Candidates of each item in order, from the c-th of the current one, going deeper at each
      that fits. */
  ghost function Walk(e: View, a: View, items: seq<Item>, index: nat, mapped: map<EventID, EventID>, c: nat): Tally
    requires index <= |items| && (index < |items| ==> c <= |items[index].candidates|)
    decreases |items| - index, 1, if index < |items| then |items[index].candidates| - c else 0
  {
    if index == |items| then Tally(true, 0)
    else if c == |items[index].candidates| then Tally(false, 0)
    else
      var first := Beyond(e, a, items, index, mapped, items[index].candidates[c]);
      if first.found then Tally(true, 1 + first.looked)
      else
        var rest := Walk(e, a, items, index, mapped, c + 1);
        Tally(rest.found, 1 + first.looked + rest.looked)
  }

  /** The most candidates an exhaustive search looks at: n items left, at most m candidates each. */
  function Trials(n: nat, m: nat): nat {
    if n == 0 then 0 else m * (1 + Trials(n - 1, m))
  }

  ghost predicate Narrow(items: seq<Item>, width: nat) {
    forall i :: 0 <= i < |items| ==> |items[i].candidates| <= width
  }

  lemma TrialsLeft(n: nat, m: nat, k: nat)
    requires n > 0
    ensures (k + 1) * (1 + Trials(n - 1, m)) == k * (1 + Trials(n - 1, m)) + 1 + Trials(n - 1, m)
    ensures k <= m ==> k * (1 + Trials(n - 1, m)) <= Trials(n, m)
  {
    var each := 1 + Trials(n - 1, m);
    if k <= m {
      assert m * each == k * each + (m - k) * each;
    }
  }

  /** A search looks at no more candidates than there are ways, and at one per item at least
      when it succeeds. */
  lemma {:induction false} WalkBounds(
      e: View, a: View, items: seq<Item>, index: nat, mapped: map<EventID, EventID>, c: nat, width: nat)
    requires index <= |items| && (index < |items| ==> c <= |items[index].candidates|) && Narrow(items, width)
    ensures index < |items| ==>
              Walk(e, a, items, index, mapped, c).looked <=
                (|items[index].candidates| - c) * (1 + Trials(|items| - index - 1, width))
    ensures c == 0 ==> Walk(e, a, items, index, mapped, c).looked <= Trials(|items| - index, width)
    ensures Walk(e, a, items, index, mapped, c).found ==> Walk(e, a, items, index, mapped, c).looked >= |items| - index
    ensures index < |items| && !Walk(e, a, items, index, mapped, c).found ==>
              Walk(e, a, items, index, mapped, c).looked >= |items[index].candidates| - c
    decreases |items| - index, if index < |items| then |items[index].candidates| - c else 0
  {
    hide Fits, Trials;
    if index < |items| {
      var n := |items| - index;
      var left := |items[index].candidates| - c;
      TrialsLeft(n, width, left);
      if left > 0 {
        var image := items[index].candidates[c];
        WalkBounds(e, a, items, index, mapped, c + 1, width);
        if !(image in mapped.Values || !Fits(e, a, mapped, items[index].id, image)) {
          WalkBounds(e, a, items, index + 1, mapped[items[index].id := image], 0, width);
        }
        TrialsLeft(n, width, left - 1);
      }
    }
  }

  class EmbeddingSearch {
    const expected: Poset
    const actual: Poset
    const items: seq<Item>
    const maxEmbeddings: nat
    var mapped: map<EventID, EventID>
    var used: set<EventID>
    var attempts: nat

    constructor (expected: Poset, actual: Poset, items: seq<Item>, maxEmbeddings: nat)
      ensures this.expected == expected && this.actual == actual && this.items == items && this.maxEmbeddings == maxEmbeddings
      ensures mapped == map[] && used == {} && attempts == 0
    {
      this.expected := expected;
      this.actual := actual;
      this.items := items;
      this.maxEmbeddings := maxEmbeddings;
      mapped := map[];
      used := {};
      attempts := 0;
    }

    /** preservesBehaviorCausality. */
    method PreservesCausality(expectedID: EventID, actualID: EventID) returns (r: bool)
      requires expected.Valid() && actual.Valid()
      ensures r <==> Fits(expected.View(), actual.View(), mapped, expectedID, actualID)
    {
      hide Sound, ViewOf, Before;
      var rest := mapped.Keys;
      while rest != {}
        invariant rest <= mapped.Keys
        invariant forall y :: y in mapped && y !in rest ==>
                (Before(expected.View(), y, expectedID) <==> Before(actual.View(), mapped[y], actualID)) &&
                (Before(expected.View(), expectedID, y) <==> Before(actual.View(), actualID, mapped[y]))
        decreases rest
      {
        var previous :| previous in rest;
        rest := rest - {previous};
        var eb := CausallyBefore(expected, previous, expectedID);
        var ab := CausallyBefore(actual, mapped[previous], actualID);
        if eb != ab {
          return false;
        }
        var ea := CausallyBefore(expected, expectedID, previous);
        var aa := CausallyBefore(actual, actualID, mapped[previous]);
        if ea != aa {
          return false;
        }
      }
      return true;
    }

    ghost predicate Placed(index: nat)
      requires index <= |items|
      reads this, expected, actual
    {
      && expected.Valid() && actual.Valid() && DistinctItems(items)
      && Embeds(expected.View(), actual.View(), items, index, mapped)
      && used == mapped.Values && attempts <= maxEmbeddings
    }

    /** What the search from here looks at. */
    ghost function Ahead(index: nat): Tally
      requires index <= |items|
      reads this, expected, actual
    {
      Walk(expected.View(), actual.View(), items, index, mapped, 0)
    }

    ghost function BeyondImage(index: nat, candidate: EventID): Tally
      requires index < |items|
      reads this, expected, actual
    {
      Beyond(expected.View(), actual.View(), items, index, mapped, candidate)
    }

    /** The bound was hit exactly when that many candidates are one too many; otherwise they
        were looked at and the verdict is the tally's. */
    ghost predicate Concludes(verdict: Verdict, before: nat, tally: Tally)
      reads this
    {
      && (verdict.OutOfAttempts? <==> before + tally.looked > maxEmbeddings)
      && (!verdict.OutOfAttempts? ==> attempts == before + tally.looked && (verdict.Found? <==> tally.found))
    }

    /** One candidate: refused, searched to a dead end, or the end of the search. */
    method TryCandidate(index: nat, candidate: EventID) returns (verdict: Verdict)
      requires index < |items| && Placed(index) && candidate in items[index].candidates
      modifies this
      ensures verdict.Found? ==> Placed(|items|) && Agrees(old(mapped), mapped)
      ensures verdict.NotFound? ==>
                && DeadEnd(expected.View(), actual.View(), items, index, old(mapped), candidate)
                && mapped == old(mapped) && used == old(used) && Placed(index)
      ensures Concludes(verdict, old(attempts), old(BeyondImage(index, candidate)))
      decreases |items| - index, 0
    {
      hide Sound, ViewOf, Embeds, DistinctItems, Fits, Completable, DeadEnd;
      ghost var e, a, before := expected.View(), actual.View(), mapped;
      var id := items[index].id;
      EmbedsStep(e, a, items, index, mapped, candidate);
      var fits := PreservesCausality(id, candidate);
      if candidate in used || !fits {
        Misfit(e, a, items, index, mapped, candidate);
        return NotFound;
      }
      UsedValues(mapped, id, candidate);
      mapped := mapped[id := candidate];
      used := used + {candidate};
      verdict := Search(index + 1);
      if verdict.NotFound? {
        ImageDead(e, a, items, index, before, candidate);
        mapped := mapped - {id};
        used := used - {candidate};
      } else if verdict.Found? {
        AgreesOn(before, id, candidate, mapped);
      }
    }

    method Search(index: nat) returns (verdict: Verdict)
      requires index <= |items| && Placed(index)
      modifies this
      ensures verdict.Found? ==> Placed(|items|) && Agrees(old(mapped), mapped)
      ensures verdict.NotFound? ==>
                && !Completable(expected.View(), actual.View(), items, old(mapped))
                && mapped == old(mapped) && used == old(used) && Placed(index)
      ensures Concludes(verdict, old(attempts), old(Ahead(index)))
      decreases |items| - index, 1
    {
      hide Sound, ViewOf, Embeds, DistinctItems, Fits, Completable, DeadEnd, Beyond;
      ghost var e, a := expected.View(), actual.View();
      if index == |items| {
        AgreesItself(mapped);
        return Found;
      }
      var current := items[index];
      ghost var whole := Walk(e, a, items, index, mapped, 0);
      for k := 0 to |current.candidates|
        invariant Placed(index) && mapped == old(mapped) && used == old(used)
        invariant expected.View() == e && actual.View() == a
        invariant forall l :: 0 <= l < k ==> DeadEnd(e, a, items, index, mapped, current.candidates[l])
        invariant whole.found == Walk(e, a, items, index, mapped, k).found
        invariant attempts >= old(attempts) && whole.looked == attempts - old(attempts) + Walk(e, a, items, index, mapped, k).looked
      {
        attempts := attempts + 1;
        if attempts > maxEmbeddings {
          return OutOfAttempts;
        }
        verdict := TryCandidate(index, current.candidates[k]);
        if !verdict.NotFound? {
          return;
        }
      }
      NoWayLeft(e, a, items, index, mapped);
      return NotFound;
    }
  }

  /** No embedding that completes the mapping sends the item to `image`. */
  ghost predicate DeadEnd(e: View, a: View, items: seq<Item>, index: nat, mapped: map<EventID, EventID>, image: EventID)
    requires index < |items|
  {
    forall f :: Embeds(e, a, items, |items|, f) && Agrees(mapped, f) && items[index].id in f ==> f[items[index].id] != image
  }

  /** Some embedding completes the mapping. */
  ghost predicate Completable(e: View, a: View, items: seq<Item>, mapped: map<EventID, EventID>) {
    exists f :: Embeds(e, a, items, |items|, f) && Agrees(mapped, f)
  }

  lemma Misfit(e: View, a: View, items: seq<Item>, index: nat, mapped: map<EventID, EventID>, image: EventID)
    requires DistinctItems(items) && index < |items| && Embeds(e, a, items, index, mapped)
    requires image in mapped.Values || !Fits(e, a, mapped, items[index].id, image)
    ensures DeadEnd(e, a, items, index, mapped, image)
  {
    hide Embeds, DistinctItems, Fits, Agrees;
    EmbedsStep(e, a, items, index, mapped, image);
    forall f | Embeds(e, a, items, |items|, f) && Agrees(mapped, f) && items[index].id in f ensures f[items[index].id] != image {
      EmbedsPrefix(e, a, items, f, index, mapped);
    }
  }

  lemma ImageDead(e: View, a: View, items: seq<Item>, index: nat, mapped: map<EventID, EventID>, image: EventID)
    requires DistinctItems(items) && index < |items| && Embeds(e, a, items, index, mapped)
    requires !Completable(e, a, items, mapped[items[index].id := image])
    ensures DeadEnd(e, a, items, index, mapped, image)
  {
    hide Embeds, DistinctItems, Agrees;
    forall f | Embeds(e, a, items, |items|, f) && Agrees(mapped, f) && items[index].id in f ensures f[items[index].id] != image {
      EmbedsPrefix(e, a, items, f, index, mapped);
    }
  }

  lemma NoWayLeft(e: View, a: View, items: seq<Item>, index: nat, mapped: map<EventID, EventID>)
    requires DistinctItems(items) && index < |items| && Embeds(e, a, items, index, mapped)
    requires forall l :: 0 <= l < |items[index].candidates| ==> DeadEnd(e, a, items, index, mapped, items[index].candidates[l])
    ensures !Completable(e, a, items, mapped)
  {
    hide Embeds, DistinctItems, Agrees, Fits;
    forall f | Embeds(e, a, items, |items|, f) ensures !Agrees(mapped, f) {
      if Agrees(mapped, f) {
        EmbedsPrefix(e, a, items, f, index, mapped);
        EmbedsStep(e, a, items, index, mapped, f[items[index].id]);
      }
    }
  }

  lemma AgreesItself(f: map<EventID, EventID>)
    ensures Agrees(f, f)
  {}

  lemma AgreesOn(before: map<EventID, EventID>, id: EventID, image: EventID, after: map<EventID, EventID>)
    requires id !in before && Agrees(before[id := image], after)
    ensures Agrees(before, after)
  {
    forall x | x in before ensures x in after && after[x] == before[x] {
      assert before[id := image][x] == before[x];
    }
  }

  lemma UsedValues(before: map<EventID, EventID>, id: EventID, image: EventID)
    requires id !in before && image !in before.Values
    ensures before[id := image].Values == before.Values + {image}
    ensures before.Values + {image} - {image} == before.Values
    ensures before[id := image] - {id} == before
  {
    var after := before[id := image];
    forall v | v in before.Values ensures v in after.Values {
      var k :| k in before && before[k] == v;
      assert after[k] == v;
    }
    assert after[id] == image;
  }

  // ----- Behaviour conformance -----

  /** Each shadow event has a visible image with its action's qualified name and its
      parameters; no image twice; causal order the same both ways. */
  ghost predicate IsEmbedding(
      e: View, a: View, shadow: seq<Seen>, visible: seq<Seen>, actions: map<Text, Text>, f: map<EventID, EventID>)
  {
    && f.Keys == (set s | s in shadow :: s.id)
    && (forall s :: s in shadow ==> HasImage(visible, actions, s, f[s.id]))
    && (forall x, y :: x in f && y in f && x != y ==> f[x] != f[y])
    && KeepsOrder(e, a, f)
  }

  ghost predicate HasImage(visible: seq<Seen>, actions: map<Text, Text>, s: Seen, image: EventID) {
    Fold(s.name) in actions &&
    exists v :: v in visible && v.id == image && Fold(v.name) == actions[Fold(s.name)] && v.params == s.params
  }

  predicate SignatureLess(s: Signature, t: Signature) {
    if s.name != t.name then Less(s.name, t.name) else Less(s.params, t.params)
  }

  predicate ItemLess(s: Item, t: Item) {
    if |s.candidates| != |t.candidates| then |s.candidates| < |t.candidates|
    else if s.signature != t.signature then SignatureLess(s.signature, t.signature)
    else Less(s.id, t.id)
  }

  datatype Conformance = Unmapped | Decided(embeds: bool) | LimitReached

  /** What an event of this signature may be mapped to. */
  ghost function Images(visible: seq<Seen>, signature: Signature): set<EventID> {
    set v | v in visible && Fold(v.name) == signature.name && v.params == signature.params :: v.id
  }

  ghost function ItemFor(visible: seq<Seen>, actions: map<Text, Text>, s: Seen): Item
    requires Fold(s.name) in actions
  {
    var signature := Signature(actions[Fold(s.name)], s.params);
    Item(s.id, signature, SortedKeys(Images(visible, signature)))
  }

  /** The event names an action of the service, and something visible has its signature. */
  ghost predicate HasImages(visible: seq<Seen>, actions: map<Text, Text>, s: Seen) {
    Fold(s.name) in actions && Images(visible, Signature(actions[Fold(s.name)], s.params)) != {}
  }

  /** The order of the search: fewest candidates first. */
  ghost function SearchPlan(visible: seq<Seen>, actions: map<Text, Text>, shadow: seq<Seen>): seq<Item>
    requires forall s :: s in shadow ==> Fold(s.name) in actions
  {
    SortBy(ItemLess, ItemsFor(visible, actions, shadow))
  }

  ghost function ItemsFor(visible: seq<Seen>, actions: map<Text, Text>, shadow: seq<Seen>): (items: seq<Item>)
    requires forall s :: s in shadow ==> Fold(s.name) in actions
    ensures |items| == |shadow| && forall i :: 0 <= i < |items| ==> items[i] == ItemFor(visible, actions, shadow[i])
  {
    seq(|shadow|, i requires 0 <= i < |shadow| => ItemFor(visible, actions, shadow[i]))
  }

  /** Fewest candidates first, then by signature and identity. */
  ghost predicate MayGoBefore(s: Item, t: Item) {
    && |s.candidates| <= |t.candidates|
    && (|s.candidates| == |t.candidates| ==> AtMost(s.signature.name, t.signature.name))
    && (|s.candidates| == |t.candidates| && s.signature.name == t.signature.name ==> AtMost(s.signature.params, t.signature.params))
    && (|s.candidates| == |t.candidates| && s.signature == t.signature ==> AtMost(s.id, t.id))
  }

  lemma ItemTies(s: Item, t: Item, u: Item)
    ensures !ItemLess(t, s) <==> MayGoBefore(s, t)
    ensures MayGoBefore(s, t) && MayGoBefore(t, u) ==> MayGoBefore(s, u)
    ensures ItemLess(s, t) ==> !ItemLess(t, s)
  {
    hide Less, AtMost;
    TextTies(s.signature.name, t.signature.name, u.signature.name);
    TextTies(s.signature.params, t.signature.params, u.signature.params);
    TextTies(s.id, t.id, u.id);
    LessAsymmetric(s.signature.name, t.signature.name);
    LessAsymmetric(s.signature.params, t.signature.params);
    LessAsymmetric(s.id, t.id);
    TextTies(t.signature.name, s.signature.name, t.signature.name);
  }

  /** The plan holds one item per shadow event, hardest first. */
  lemma PlanOrder(visible: seq<Seen>, actions: map<Text, Text>, shadow: seq<Seen>)
    requires forall s :: s in shadow ==> Fold(s.name) in actions
    ensures var plan := SearchPlan(visible, actions, shadow);
            && multiset(plan) == multiset(ItemsFor(visible, actions, shadow))
            && forall i, j :: 0 <= i < j < |plan| ==> MayGoBefore(plan[i], plan[j])
  {
    hide ItemLess, MayGoBefore, ItemFor;
    var items := ItemsFor(visible, actions, shadow);
    var all, plan := Members(items), SearchPlan(visible, actions, shadow);
    forall a, b, c | a in all && b in all && c in all
      ensures ItemLess(a, b) ==> !ItemLess(b, a)
      ensures !ItemLess(b, a) && !ItemLess(c, b) ==> !ItemLess(c, a)
    {
      ItemTies(a, b, c);
      ItemTies(b, c, a);
      ItemTies(a, c, b);
    }
    SortByAscends(ItemLess, items, all);
    forall i, j | 0 <= i < j < |plan| ensures MayGoBefore(plan[i], plan[j]) {
      ItemTies(plan[i], plan[j], plan[j]);
    }
  }

  ghost function Effort(e: View, a: View, items: seq<Item>): nat {
    Walk(e, a, items, 0, map[], 0).looked
  }

  /** The first event without images names no action at all. */
  ghost predicate MeetsUnmapped(visible: seq<Seen>, actions: map<Text, Text>, shadow: seq<Seen>) {
    exists k: nat :: UnmappedAt(visible, actions, shadow, k)
  }

  ghost predicate UnmappedAt(visible: seq<Seen>, actions: map<Text, Text>, shadow: seq<Seen>, k: nat) {
    k < |shadow| && Fold(shadow[k].name) !in actions && forall i :: 0 <= i < k ==> HasImages(visible, actions, shadow[i])
  }

  ghost predicate AllHaveImages(visible: seq<Seen>, actions: map<Text, Text>, shadow: seq<Seen>) {
    forall s :: s in shadow ==> HasImages(visible, actions, s)
  }

  method CandidatesOf(visible: seq<Seen>, signature: Signature) returns (candidates: seq<EventID>)
    ensures candidates == SortedKeys(Images(visible, signature))
    ensures candidates == [] <==> Images(visible, signature) == {}
    ensures forall id :: id in candidates <==> exists v :: v in visible && v.id == id && Signature(Fold(v.name), v.params) == signature
    ensures |candidates| <= |visible|
  {
    var ids := set v | v in visible && Signature(Fold(v.name), v.params) == signature :: v.id;
    candidates := Sort(ids);
    assert ids == Images(visible, signature);
    SortedUnique(candidates, SortedKeys(ids));
    MembersEmpty(candidates);
    assert forall id :: id in candidates <==> id in Members(candidates);
    FewIds(visible, candidates);
  }

  lemma {:induction false} FewIds(visible: seq<Seen>, candidates: seq<EventID>)
    requires StrictlySorted(candidates) && forall id :: id in candidates ==> exists v :: v in visible && v.id == id
    ensures |candidates| <= |visible|
  {
    Kahn.SortedCount(candidates);
    var ids := seq(|visible|, i requires 0 <= i < |visible| => visible[i].id);
    forall id | id in Members(candidates) ensures id in Members(ids) {
      var i :| 0 <= i < |visible| && visible[i].id == id;
      assert ids[i] == id;
    }
    Reachability.SubsetNotLarger(Members(candidates), Members(ids));
    MembersFew(ids);
  }

  lemma {:induction false} MembersFew<T>(s: seq<T>)
    ensures |Members(s)| <= |s|
  {
    if s != [] {
      MembersFew(s[1..]);
      assert Members(s) == {s[0]} + Members(s[1..]);
    }
  }

  /** The item searched for one shadow event. */
  ghost predicate IsItem(visible: seq<Seen>, actions: map<Text, Text>, s: Seen, item: Item) {
    item.id == s.id && forall id :: id in item.candidates <==> HasImage(visible, actions, s, id)
  }

  ghost predicate AreItems(visible: seq<Seen>, actions: map<Text, Text>, shadow: seq<Seen>, items: seq<Item>) {
    |items| == |shadow| && forall i :: 0 <= i < |items| ==> IsItem(visible, actions, shadow[i], items[i])
  }

  lemma Unsorted(items: seq<Item>, sorted: seq<Item>, i: nat) returns (k: nat)
    requires multiset(sorted) == multiset(items) && i < |sorted|
    ensures k < |items| && items[k] == sorted[i]
  {
    assert sorted[i] in multiset(sorted);
    k :| 0 <= k < |items| && items[k] == sorted[i];
  }

  lemma Resorted(items: seq<Item>, sorted: seq<Item>, k: nat) returns (i: nat)
    requires multiset(sorted) == multiset(items) && k < |items|
    ensures i < |sorted| && sorted[i] == items[k]
  {
    i := Unsorted(sorted, items, k);
  }

  lemma AreItemsAt(visible: seq<Seen>, actions: map<Text, Text>, shadow: seq<Seen>, items: seq<Item>, k: nat)
    requires AreItems(visible, actions, shadow, items) && k < |items|
    ensures k < |shadow| && shadow[k] in shadow && IsItem(visible, actions, shadow[k], items[k])
  {}

  lemma ItemOf(visible: seq<Seen>, actions: map<Text, Text>, shadow: seq<Seen>, items: seq<Item>, s: Seen) returns (k: nat)
    requires AreItems(visible, actions, shadow, items) && s in shadow
    ensures k < |items| && IsItem(visible, actions, s, items[k])
  {
    k :| 0 <= k < |shadow| && shadow[k] == s;
  }

  lemma SameIds(visible: seq<Seen>, actions: map<Text, Text>, shadow: seq<Seen>, items: seq<Item>, sorted: seq<Item>)
    requires AreItems(visible, actions, shadow, items) && multiset(sorted) == multiset(items)
    ensures ItemIds(sorted, |sorted|) == set s | s in shadow :: s.id
  {
    hide AreItems, HasImage;
    forall i | 0 <= i < |sorted| ensures sorted[i].id in set s | s in shadow :: s.id {
      var k := Unsorted(items, sorted, i);
      AreItemsAt(visible, actions, shadow, items, k);
    }
    forall s | s in shadow ensures s.id in ItemIds(sorted, |sorted|) {
      var k := ItemOf(visible, actions, shadow, items, s);
      var i := Resorted(items, sorted, k);
    }
  }

  lemma SameImages(
      visible: seq<Seen>, actions: map<Text, Text>, shadow: seq<Seen>, items: seq<Item>, sorted: seq<Item>, f: map<EventID, EventID>)
    requires AreItems(visible, actions, shadow, items) && multiset(sorted) == multiset(items)
    requires f.Keys == ItemIds(sorted, |sorted|) == set s | s in shadow :: s.id
    ensures (forall i :: 0 <= i < |sorted| ==> f[sorted[i].id] in sorted[i].candidates) <==>
            (forall s :: s in shadow ==> HasImage(visible, actions, s, f[s.id]))
  {
    hide AreItems, HasImage;
    if forall i :: 0 <= i < |sorted| ==> f[sorted[i].id] in sorted[i].candidates {
      forall s | s in shadow ensures HasImage(visible, actions, s, f[s.id]) {
        var k := ItemOf(visible, actions, shadow, items, s);
        var i := Resorted(items, sorted, k);
      }
    }
    if forall s :: s in shadow ==> HasImage(visible, actions, s, f[s.id]) {
      forall i | 0 <= i < |sorted| ensures f[sorted[i].id] in sorted[i].candidates {
        var k := Unsorted(items, sorted, i);
        AreItemsAt(visible, actions, shadow, items, k);
      }
    }
  }

  /** Embedding the sorted items is embedding the shadow. */
  lemma ItemsEmbedShadow(
      e: View, a: View, shadow: seq<Seen>, visible: seq<Seen>, actions: map<Text, Text>,
      items: seq<Item>, sorted: seq<Item>, f: map<EventID, EventID>)
    requires AreItems(visible, actions, shadow, items) && multiset(sorted) == multiset(items)
    ensures Embeds(e, a, sorted, |sorted|, f) <==> IsEmbedding(e, a, shadow, visible, actions, f)
  {
    hide AreItems, HasImage, KeepsOrder, ItemIds;
    SameIds(visible, actions, shadow, items, sorted);
    if f.Keys == ItemIds(sorted, |sorted|) {
      SameImages(visible, actions, shadow, items, sorted, f);
    }
  }

  lemma ItemsDistinct(visible: seq<Seen>, actions: map<Text, Text>, shadow: seq<Seen>, items: seq<Item>, sorted: seq<Item>)
    requires AreItems(visible, actions, shadow, items) && multiset(sorted) == multiset(items) && |sorted| == |items|
    requires forall i, j :: 0 <= i < j < |shadow| ==> shadow[i].id != shadow[j].id
    ensures DistinctItems(sorted)
  {
    hide HasImage;
    assert DistinctItems(items);
    if !DistinctItems(sorted) {
      var i, j :| 0 <= i < j < |sorted| && sorted[i].id == sorted[j].id;
      var k := Unsorted(items, sorted, i);
      var l := Unsorted(items, sorted, j);
      assert k == l;
      TwiceListed(sorted, i, j);
      OnceListed(items, k);
    }
  }

  /** embeds: answers true exactly when the shadow embeds into the observed computation,
      unless the search would look at more candidates than allowed or a shadow event names no
      action of the service. */
  method BehaviourEmbeds(
      expected: Poset, shadow: seq<Seen>, actual: Poset, visible: seq<Seen>, actions: map<Text, Text>, maxEmbeddings: nat)
    returns (r: Conformance)
    requires expected.Valid() && actual.Valid()
    requires forall i, j :: 0 <= i < j < |shadow| ==> shadow[i].id != shadow[j].id
    ensures r.Decided? ==>
              (r.embeds <==> exists f :: IsEmbedding(expected.View(), actual.View(), shadow, visible, actions, f))
    ensures r.Unmapped? <==> MeetsUnmapped(visible, actions, shadow)
    ensures r.LimitReached? <==>
              && AllHaveImages(visible, actions, shadow)
              && maxEmbeddings < Effort(expected.View(), actual.View(), SearchPlan(visible, actions, shadow))
    ensures r.LimitReached? ==> maxEmbeddings < Trials(|shadow|, |visible|)
  {
    hide Sound, ViewOf, HasImage, Embeds, IsEmbedding, Trials, Images, SearchPlan, Effort, AllHaveImages, Collected;
    var items: seq<Item> := [];
    assert Collected(visible, actions, shadow, []) by { NothingCollected(visible, actions, shadow); }
    for k := 0 to |shadow|
      invariant |items| == k && Collected(visible, actions, shadow, items)
    {
      if Fold(shadow[k].name) !in actions {
        FirstUnmapped(visible, actions, shadow, items);
        return Unmapped;
      }
      var signature := Signature(actions[Fold(shadow[k].name)], shadow[k].params);
      var candidates := CandidatesOf(visible, signature);
      CandidatesAreImages(visible, actions, shadow[k], signature, candidates);
      CollectNext(visible, actions, shadow, items, candidates);
      if |candidates| == 0 {
        NoImage(expected.View(), actual.View(), shadow, visible, actions, shadow[k]);
        return Decided(false);
      }
      items := items + [Item(shadow[k].id, signature, candidates)];
    }
    r := SearchItems(expected, shadow, actual, visible, actions, maxEmbeddings, items);
  }

  /** The items of the first shadow events. */
  ghost predicate Collected(visible: seq<Seen>, actions: map<Text, Text>, shadow: seq<Seen>, items: seq<Item>) {
    |items| <= |shadow| && forall i :: 0 <= i < |items| ==> IsCollected(visible, actions, shadow[i], items[i])
  }

  ghost predicate IsCollected(visible: seq<Seen>, actions: map<Text, Text>, s: Seen, item: Item) {
    HasImages(visible, actions, s) && item == ItemFor(visible, actions, s) &&
    IsItem(visible, actions, s, item) && |item.candidates| <= |visible|
  }

  lemma NothingCollected(visible: seq<Seen>, actions: map<Text, Text>, shadow: seq<Seen>)
    ensures Collected(visible, actions, shadow, [])
  {}

  /** The first event without images decides. */
  lemma CollectNext(visible: seq<Seen>, actions: map<Text, Text>, shadow: seq<Seen>, items: seq<Item>, candidates: seq<EventID>)
    requires Collected(visible, actions, shadow, items) && |items| < |shadow| && |candidates| <= |visible|
    requires var s := shadow[|items|];
             Fold(s.name) in actions &&
             var signature := Signature(actions[Fold(s.name)], s.params);
             && candidates == SortedKeys(Images(visible, signature)) && (candidates == [] <==> Images(visible, signature) == {})
             && IsItem(visible, actions, s, Item(s.id, signature, candidates))
    ensures var s := shadow[|items|];
            candidates != [] ==>
              Collected(visible, actions, shadow, items + [Item(s.id, Signature(actions[Fold(s.name)], s.params), candidates)])
    ensures candidates == [] ==> !AllHaveImages(visible, actions, shadow) && !MeetsUnmapped(visible, actions, shadow)
  {
    hide Images, IsItem;
    var k := |items|;
    assert shadow[k] in shadow;
    forall i | 0 <= i < k ensures Fold(shadow[i].name) in actions {
      assert IsCollected(visible, actions, shadow[i], items[i]);
    }
    forall j: nat | candidates == [] ensures !UnmappedAt(visible, actions, shadow, j) {}
  }

  lemma FirstUnmapped(visible: seq<Seen>, actions: map<Text, Text>, shadow: seq<Seen>, items: seq<Item>)
    requires Collected(visible, actions, shadow, items) && |items| < |shadow| && Fold(shadow[|items|].name) !in actions
    ensures MeetsUnmapped(visible, actions, shadow) && !AllHaveImages(visible, actions, shadow)
  {
    hide Images, IsItem;
    assert shadow[|items|] in shadow && !HasImages(visible, actions, shadow[|items|]);
    forall i | 0 <= i < |items| ensures HasImages(visible, actions, shadow[i]) {
      assert IsCollected(visible, actions, shadow[i], items[i]);
    }
    assert UnmappedAt(visible, actions, shadow, |items|);
  }

  lemma CollectedAll(visible: seq<Seen>, actions: map<Text, Text>, shadow: seq<Seen>, items: seq<Item>)
    requires Collected(visible, actions, shadow, items) && |items| == |shadow|
    ensures AreItems(visible, actions, shadow, items)
    ensures forall i :: 0 <= i < |items| ==> |items[i].candidates| <= |visible|
    ensures forall i :: 0 <= i < |items| ==> HasImages(visible, actions, shadow[i]) && items[i] == ItemFor(visible, actions, shadow[i])
    ensures AllHaveImages(visible, actions, shadow) && !MeetsUnmapped(visible, actions, shadow)
  {
    hide Images, IsItem, ItemFor;
    forall i | 0 <= i < |items| ensures IsCollected(visible, actions, shadow[i], items[i]) {}
    AllHave(visible, actions, shadow);
  }

  lemma AllHave(visible: seq<Seen>, actions: map<Text, Text>, shadow: seq<Seen>)
    requires forall i :: 0 <= i < |shadow| ==> HasImages(visible, actions, shadow[i])
    ensures AllHaveImages(visible, actions, shadow) && !MeetsUnmapped(visible, actions, shadow)
  {
    hide Images;
  }

  /** The search itself, once every shadow event has candidates. */
  method SearchItems(
      expected: Poset, shadow: seq<Seen>, actual: Poset, visible: seq<Seen>, actions: map<Text, Text>, maxEmbeddings: nat,
      items: seq<Item>)
    returns (r: Conformance)
    requires expected.Valid() && actual.Valid() && Collected(visible, actions, shadow, items) && |items| == |shadow|
    requires forall i, j :: 0 <= i < j < |shadow| ==> shadow[i].id != shadow[j].id
    ensures r.Decided? ==>
              (r.embeds <==> exists f :: IsEmbedding(expected.View(), actual.View(), shadow, visible, actions, f))
    ensures !r.Unmapped? && !MeetsUnmapped(visible, actions, shadow) && AllHaveImages(visible, actions, shadow)
    ensures r.LimitReached? <==> maxEmbeddings < Effort(expected.View(), actual.View(), SearchPlan(visible, actions, shadow))
    ensures r.LimitReached? ==> maxEmbeddings < Trials(|shadow|, |visible|)
  {
    hide Sound, ViewOf, AreItems, HasImage, Embeds, IsEmbedding, ItemLess, Trials, Narrow, SortBy, DistinctItems, HasImages, ItemFor,
      SearchPlan, AllHaveImages, MeetsUnmapped, Walk;
    var sorted := SortBy(ItemLess, items);
    CollectedAll(visible, actions, shadow, items);
    assert |sorted| == |items| == |shadow| by { SameCount(visible, actions, shadow, items, sorted); }
    PlanIs(visible, actions, shadow, items);
    ItemsDistinct(visible, actions, shadow, items, sorted);
    forall f ensures Embeds(expected.View(), actual.View(), sorted, |sorted|, f) <==>
                     IsEmbedding(expected.View(), actual.View(), shadow, visible, actions, f) {
      ItemsEmbedShadow(expected.View(), actual.View(), shadow, visible, actions, items, sorted, f);
    }
    SortedNarrow(items, sorted, |visible|);
    var search := new EmbeddingSearch(expected, actual, sorted, maxEmbeddings);
    NothingMapped(expected.View(), actual.View(), sorted);
    WalkBounds(expected.View(), actual.View(), sorted, 0, map[], 0, |visible|);
    var verdict := search.Search(0);
    match verdict
    case Found => r := Decided(true);
    case NotFound => r := Decided(false);
    case OutOfAttempts => r := LimitReached;
  }

  lemma PlanIs(visible: seq<Seen>, actions: map<Text, Text>, shadow: seq<Seen>, items: seq<Item>)
    requires |items| == |shadow|
    requires forall i :: 0 <= i < |shadow| ==> HasImages(visible, actions, shadow[i]) && items[i] == ItemFor(visible, actions, shadow[i])
    ensures forall s :: s in shadow ==> Fold(s.name) in actions
    ensures SearchPlan(visible, actions, shadow) == SortBy(ItemLess, items)
  {
    hide SortBy, ItemFor, ItemsFor, Images;
    assert items == ItemsFor(visible, actions, shadow);
  }

  lemma SameCount(visible: seq<Seen>, actions: map<Text, Text>, shadow: seq<Seen>, items: seq<Item>, sorted: seq<Item>)
    requires AreItems(visible, actions, shadow, items) && multiset(sorted) == multiset(items)
    ensures |sorted| == |items| == |shadow|
  {
    hide IsItem;
    assert |multiset(sorted)| == |sorted| && |multiset(items)| == |items|;
  }

  lemma SortedNarrow(items: seq<Item>, sorted: seq<Item>, width: nat)
    requires multiset(sorted) == multiset(items) && forall i :: 0 <= i < |items| ==> |items[i].candidates| <= width
    ensures Narrow(sorted, width)
  {
    forall i | 0 <= i < |sorted| ensures |sorted[i].candidates| <= width {
      var k := Unsorted(items, sorted, i);
    }
  }

  lemma CandidatesAreImages(visible: seq<Seen>, actions: map<Text, Text>, s: Seen, signature: Signature, candidates: seq<EventID>)
    requires Fold(s.name) in actions && signature == Signature(actions[Fold(s.name)], s.params)
    requires forall id :: id in candidates <==> exists v :: v in visible && v.id == id && Signature(Fold(v.name), v.params) == signature
    ensures IsItem(visible, actions, s, Item(s.id, signature, candidates))
    ensures candidates == [] ==> forall id :: !HasImage(visible, actions, s, id)
  {
    forall id ensures id in candidates <==> HasImage(visible, actions, s, id) {
    }
  }

  lemma NoImage(e: View, a: View, shadow: seq<Seen>, visible: seq<Seen>, actions: map<Text, Text>, s: Seen)
    requires s in shadow && forall id :: !HasImage(visible, actions, s, id)
    ensures forall f :: !IsEmbedding(e, a, shadow, visible, actions, f)
  {
    hide HasImage;
  }

  lemma NothingMapped(e: View, a: View, items: seq<Item>)
    ensures Embeds(e, a, items, 0, map[])
  {
    assert ItemIds(items, 0) == {};
  }

  // ----- What an embedding preserves -----

  /** f backwards. */
  ghost predicate Inverts(g: map<EventID, EventID>, f: map<EventID, EventID>) {
    && (forall x :: x in f ==> f[x] in g && g[f[x]] == x)
    && (forall y :: y in g ==> g[y] in f && f[g[y]] == y)
  }

  /** Order is kept in both directions: read backwards, an embedding keeps it again. */
  lemma InverseKeepsOrder(e: View, a: View, f: map<EventID, EventID>, g: map<EventID, EventID>)
    requires KeepsOrder(e, a, f) && Inverts(g, f)
    ensures KeepsOrder(a, e, g)
  {
    hide Before;
    forall x, y | x in g && y in g && x != y ensures OrderKept(a, e, g, x, y) {
      assert OrderKept(e, a, f, g[x], g[y]);
    }
  }

  /** An image has the parameters of its event, and up to case the name of its action. */
  lemma EmbeddingShares(
      e: View, a: View, shadow: seq<Seen>, visible: seq<Seen>, actions: map<Text, Text>, f: map<EventID, EventID>, s: Seen)
    returns (v: Seen)
    requires IsEmbedding(e, a, shadow, visible, actions, f) && s in shadow
    ensures v in visible && v.id == f[s.id] && v.params == s.params
    ensures forall n, q :: n in actions && q in actions.Values && Fold(s.name) == n && actions[n] == q ==>
              |q| == |v.name| && forall i :: 0 <= i < |q| ==> q[i] == Lower(v.name[i])
  {
    hide KeepsOrder, Fold;
    assert HasImage(visible, actions, s, f[s.id]);
    v :| v in visible && v.id == f[s.id] && Fold(v.name) == actions[Fold(s.name)] && v.params == s.params;
    forall i | 0 <= i < |v.name| ensures Fold(v.name)[i] == Lower(v.name[i]) {
      FoldAt(v.name, i);
    }
  }
}
