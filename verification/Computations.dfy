/** Augmented computations (arch/consistent_cut.go): events and Ref operations with their
    causal dependencies, the cuts at which a match can be observed, and the state at each. */
module Computations {
  import opened Texts
  import opened JoinedKeys
  import opened Timings
  import opened Values
  import opened Reachability
  import opened Kahn
  import opened Cuts

  datatype OperationKind = Create | Dereference | Assign

  datatype RefOperation = RefOperation(
    component: Text, name: Text, owner: Text, kind: OperationKind, version: nat, value: Value,
    causes: seq<Text>, dependencies: seq<Text>, predecessor: Text, valueSource: Text, effects: seq<Text>)

  datatype Occurrence = EventOccurrence | RefOccurrence(initial: bool, operation: RefOperation)

  type Nodes = map<Text, Occurrence>

  /** Refs are told apart by their component and name joined with a NUL byte. */
  type RefKey = Text

  function KeyOf(o: RefOperation): RefKey {
    PairKey(o.component, o.name)
  }

  function BeforeValues(o: RefOperation): seq<Text> {
    o.causes + o.dependencies + [o.predecessor, o.valueSource]
  }

  /** The dependencies an operation itself declares. */
  function OperationEdges(nodes: Nodes): Edges {
    (set id, b | id in nodes && nodes[id].RefOccurrence? && b in BeforeValues(nodes[id].operation) && b != [] :: (b, id)) +
    (set id, a | id in nodes && nodes[id].RefOccurrence? && a in nodes[id].operation.effects :: (id, a))
  }

  predicate WellFormedOperation(o: RefOperation, initial: bool) {
    && o.component != [] && o.name != [] && o.owner != []
    && (o.kind.Create? ==> o.version == 0) && (initial ==> o.kind.Create?)
  }

  predicate WellFormedIdentity(id: Text) {
    id != [] && 0 !in id
  }

  datatype Answer =
    | Witnesses(cuts: map<set<Text>, Witness>)
    | InvalidComputation
    | LimitExceeded

  /** The maximum matched events a cut is valid at, and the latest write of every Ref key. */
  datatype Witness = Witness(anchors: set<Text>, state: map<RefKey, Text>)

  // ----- State at a cut -----

  predicate IsWrite(nodes: Nodes, id: Text, name: RefKey) {
    && id in nodes && nodes[id].RefOccurrence? && !nodes[id].operation.kind.Dereference?
    && KeyOf(nodes[id].operation) == name
  }

  /** Consecutive writes of one Ref key in the cut, i before j in topological order. */
  ghost predicate NextWrite(nodes: Nodes, topological: seq<Text>, cut: set<Text>, name: RefKey, i: nat, j: nat) {
    && i < j < |topological| && topological[i] in cut && topological[j] in cut
    && IsWrite(nodes, topological[i], name) && IsWrite(nodes, topological[j], name)
    && forall k :: i < k < j ==> !(topological[k] in cut && IsWrite(nodes, topological[k], name))
  }

  /** The versions of each Ref key in the cut count up by one. */
  ghost predicate ValidHistory(nodes: Nodes, topological: seq<Text>, cut: set<Text>, limit: nat) {
    forall name, i: nat, j: nat :: j < limit && NextWrite(nodes, topological, cut, name, i, j) ==>
      nodes[topological[j]].operation.version == nodes[topological[i]].operation.version + 1
  }

  /** The write at position p is the last of the first k, and has the highest version. */
  ghost predicate LastWrite(nodes: Nodes, topological: seq<Text>, cut: set<Text>, name: RefKey, p: nat, k: nat) {
    && p < k <= |topological| && topological[p] in cut && IsWrite(nodes, topological[p], name)
    && forall q :: 0 <= q < k && q != p && topological[q] in cut && IsWrite(nodes, topological[q], name) ==>
         q < p && nodes[topological[q]].operation.version < nodes[topological[p]].operation.version
  }

  ghost predicate NoWrite(nodes: Nodes, topological: seq<Text>, cut: set<Text>, name: RefKey, k: nat) {
    forall q :: 0 <= q < k && q < |topological| && topological[q] in cut ==> !IsWrite(nodes, topological[q], name)
  }

  ghost predicate StateUpTo(nodes: Nodes, topological: seq<Text>, cut: set<Text>, k: nat, latest: map<RefKey, Text>) {
    && (forall name :: name in latest ==>
          exists p: nat :: LastWrite(nodes, topological, cut, name, p, k) && latest[name] == topological[p])
    && (forall name :: name !in latest ==> NoWrite(nodes, topological, cut, name, k))
  }

  /** The state a cut determines: the highest version of each written Ref key there. */
  ghost predicate IsStateAt(nodes: Nodes, cut: set<Text>, state: map<RefKey, Text>) {
    forall name ::
      && (name in state <==> exists id :: id in cut && IsWrite(nodes, id, name))
      && (name in state ==>
            && state[name] in cut && IsWrite(nodes, state[name], name)
            && forall id :: id in cut && id != state[name] && IsWrite(nodes, id, name) ==>
                 nodes[id].operation.version < nodes[state[name]].operation.version)
  }

  lemma OtherOccurrence(
      nodes: Nodes, topological: seq<Text>, cut: set<Text>, k: nat, latest: map<RefKey, Text>)
    requires k < |topological| && StateUpTo(nodes, topological, cut, k, latest) && ValidHistory(nodes, topological, cut, k)
    requires topological[k] !in cut || forall name :: !IsWrite(nodes, topological[k], name)
    ensures StateUpTo(nodes, topological, cut, k + 1, latest) && ValidHistory(nodes, topological, cut, k + 1)
  {
    forall name | name in latest
      ensures exists p: nat :: LastWrite(nodes, topological, cut, name, p, k + 1) && latest[name] == topological[p]
    {
      var p: nat :| LastWrite(nodes, topological, cut, name, p, k) && latest[name] == topological[p];
      assert LastWrite(nodes, topological, cut, name, p, k + 1);
    }
  }

  /** A write either continues its Ref's versions or proves the history invalid. */
  lemma NewWrite(
      nodes: Nodes, topological: seq<Text>, cut: set<Text>, k: nat, latest: map<RefKey, Text>, name: RefKey)
    requires k < |topological| && StateUpTo(nodes, topological, cut, k, latest) && ValidHistory(nodes, topological, cut, k)
    requires topological[k] in cut && IsWrite(nodes, topological[k], name)
    ensures name in latest ==> latest[name] in nodes && nodes[latest[name]].RefOccurrence?
    ensures ValidHistory(nodes, topological, cut, k + 1) <==>
            (name in latest ==> nodes[topological[k]].operation.version == nodes[latest[name]].operation.version + 1)
    ensures ValidHistory(nodes, topological, cut, k + 1) ==>
              StateUpTo(nodes, topological, cut, k + 1, latest[name := topological[k]])
  {
    hide StateUpTo;
    var id := topological[k];
    if name in latest {
      var p := LatestAt(nodes, topological, cut, k, latest, name);
      assert NextWrite(nodes, topological, cut, name, p, k);
      forall other, i: nat | NextWrite(nodes, topological, cut, other, i, k) ensures other == name && i == p {
        assert topological[i] in cut && IsWrite(nodes, topological[i], name);
      }
    } else {
      NotYetWritten(nodes, topological, cut, k, latest, name);
      assert forall other, i: nat :: !NextWrite(nodes, topological, cut, other, i, k);
    }
    if ValidHistory(nodes, topological, cut, k + 1) {
      WriteUpdates(nodes, topological, cut, k, latest, name);
    }
  }

  lemma LatestAt(
      nodes: Nodes, topological: seq<Text>, cut: set<Text>, k: nat, latest: map<RefKey, Text>, name: RefKey) returns (p: nat)
    requires StateUpTo(nodes, topological, cut, k, latest) && name in latest
    ensures LastWrite(nodes, topological, cut, name, p, k) && latest[name] == topological[p]
  {
    p :| LastWrite(nodes, topological, cut, name, p, k) && latest[name] == topological[p];
  }

  lemma NotYetWritten(
      nodes: Nodes, topological: seq<Text>, cut: set<Text>, k: nat, latest: map<RefKey, Text>, name: RefKey)
    requires StateUpTo(nodes, topological, cut, k, latest) && name !in latest
    ensures NoWrite(nodes, topological, cut, name, k)
  {}

  lemma WriteUpdates(
      nodes: Nodes, topological: seq<Text>, cut: set<Text>, k: nat, latest: map<RefKey, Text>, name: RefKey)
    requires k < |topological| && StateUpTo(nodes, topological, cut, k, latest)
    requires topological[k] in cut && IsWrite(nodes, topological[k], name)
    requires name in latest ==> latest[name] in nodes && nodes[latest[name]].RefOccurrence?
    requires name in latest ==> nodes[topological[k]].operation.version == nodes[latest[name]].operation.version + 1
    ensures StateUpTo(nodes, topological, cut, k + 1, latest[name := topological[k]])
  {
    var updated := latest[name := topological[k]];
    forall other | other in updated
      ensures exists p: nat :: LastWrite(nodes, topological, cut, other, p, k + 1) && updated[other] == topological[p]
    {
      if other != name {
        var p := LatestAt(nodes, topological, cut, k, latest, other);
        assert LastWrite(nodes, topological, cut, other, p, k + 1);
      } else {
        if name in latest {
          var p := LatestAt(nodes, topological, cut, k, latest, name);
        } else {
          NotYetWritten(nodes, topological, cut, k, latest, name);
        }
        assert LastWrite(nodes, topological, cut, name, k, k + 1);
      }
    }
  }

  /** stateAt: succeeds exactly on valid version histories, and then gives each Ref key its
      highest version in the cut. */
  method StateAt(nodes: Nodes, topological: seq<Text>, cut: set<Text>) returns (r: Option<map<RefKey, Text>>)
    requires cut <= Members(topological) && Members(topological) == nodes.Keys
    ensures r.Some? <==> ValidHistory(nodes, topological, cut, |topological|)
    ensures r.Some? ==> IsStateAt(nodes, cut, r.value)
  {
    hide StateUpTo, ValidHistory;
    var latest: map<RefKey, Text> := map[];
    NothingWritten(nodes, topological, cut);
    for k := 0 to |topological|
      invariant StateUpTo(nodes, topological, cut, k, latest) && ValidHistory(nodes, topological, cut, k)
    {
      var id := topological[k];
      if id !in cut || !nodes[id].RefOccurrence? || nodes[id].operation.kind.Dereference? {
        OtherOccurrence(nodes, topological, cut, k, latest);
        continue;
      }
      var operation := nodes[id].operation;
      var name := KeyOf(operation);
      NewWrite(nodes, topological, cut, k, latest, name);
      if name in latest && operation.version != nodes[latest[name]].operation.version + 1 {
        ShorterHistory(nodes, topological, cut, k + 1);
        return None;
      }
      latest := latest[name := id];
    }
    AllWritten(nodes, topological, cut, latest);
    return Some(latest);
  }

  lemma NothingWritten(nodes: Nodes, topological: seq<Text>, cut: set<Text>)
    ensures StateUpTo(nodes, topological, cut, 0, map[]) && ValidHistory(nodes, topological, cut, 0)
  {}

  lemma ShorterHistory(nodes: Nodes, topological: seq<Text>, cut: set<Text>, k: nat)
    requires k <= |topological|
    ensures ValidHistory(nodes, topological, cut, |topological|) ==> ValidHistory(nodes, topological, cut, k)
  {}

  lemma AllWritten(nodes: Nodes, topological: seq<Text>, cut: set<Text>, latest: map<RefKey, Text>)
    requires StateUpTo(nodes, topological, cut, |topological|, latest)
    requires cut <= Members(topological)
    ensures IsStateAt(nodes, cut, latest)
  {
    forall id | id in cut ensures exists q :: 0 <= q < |topological| && topological[q] == id {
      assert id in Members(topological);
    }
    forall name | name in latest
      ensures latest[name] in cut && IsWrite(nodes, latest[name], name)
      ensures forall id :: id in cut && id != latest[name] && IsWrite(nodes, id, name) ==>
                nodes[id].operation.version < nodes[latest[name]].operation.version
    {
      var p := LatestAt(nodes, topological, cut, |topological|, latest, name);
    }
    forall name | name !in latest ensures forall id :: id in cut ==> !IsWrite(nodes, id, name) {
      NotYetWritten(nodes, topological, cut, |topological|, latest, name);
    }
  }

  // ----- What the state tells of each Ref -----

  predicate IsRefWrite(nodes: Nodes, id: Text, component: Text, name: Text) {
    && id in nodes && nodes[id].RefOccurrence? && !nodes[id].operation.kind.Dereference?
    && nodes[id].operation.component == component && nodes[id].operation.name == name
  }

  /** No two different Refs written in the cut share a key. */
  ghost predicate RefKeysApart(nodes: Nodes, cut: set<Text>) {
    forall x, y, name :: x in cut && y in cut && IsWrite(nodes, x, name) && IsWrite(nodes, y, name) ==>
      nodes[x].operation.component == nodes[y].operation.component && nodes[x].operation.name == nodes[y].operation.name
  }

  /** The Ref's highest version in the cut. */
  ghost predicate IsLatest(nodes: Nodes, cut: set<Text>, component: Text, name: Text, id: Text) {
    && id in cut && IsRefWrite(nodes, id, component, name)
    && forall x :: x in cut && x != id && IsRefWrite(nodes, x, component, name) ==>
         nodes[x].operation.version < nodes[id].operation.version
  }

  ghost predicate ShowsRef(nodes: Nodes, cut: set<Text>, state: map<RefKey, Text>, component: Text, name: Text) {
    exists key :: key in state && IsLatest(nodes, cut, component, name, state[key])
  }

  /** The state holds the highest version of every Ref written in the cut. */
  ghost predicate ShowsEveryRef(nodes: Nodes, cut: set<Text>, state: map<RefKey, Text>) {
    forall x :: x in cut && x in nodes && nodes[x].RefOccurrence? && !nodes[x].operation.kind.Dereference? ==>
      ShowsRef(nodes, cut, state, nodes[x].operation.component, nodes[x].operation.name)
  }

  /** It does exactly when no two of them share a key. */
  lemma ShowsEveryRefIff(nodes: Nodes, cut: set<Text>, state: map<RefKey, Text>)
    requires IsStateAt(nodes, cut, state)
    ensures ShowsEveryRef(nodes, cut, state) <==> RefKeysApart(nodes, cut)
  {
    hide PairKey;
    if RefKeysApart(nodes, cut) {
      forall x | x in cut && x in nodes && nodes[x].RefOccurrence? && !nodes[x].operation.kind.Dereference?
        ensures ShowsRef(nodes, cut, state, nodes[x].operation.component, nodes[x].operation.name)
      {
        LatestShown(nodes, cut, state, x);
      }
    }
    if ShowsEveryRef(nodes, cut, state) {
      forall x, y, name | x in cut && y in cut && IsWrite(nodes, x, name) && IsWrite(nodes, y, name)
        ensures nodes[x].operation.component == nodes[y].operation.component && nodes[x].operation.name == nodes[y].operation.name
      {
        OneShown(nodes, cut, state, x, name);
        OneShown(nodes, cut, state, y, name);
      }
    }
  }

  lemma LatestShown(nodes: Nodes, cut: set<Text>, state: map<RefKey, Text>, x: Text)
    requires IsStateAt(nodes, cut, state) && RefKeysApart(nodes, cut) && x in cut
    requires x in nodes && nodes[x].RefOccurrence? && !nodes[x].operation.kind.Dereference?
    ensures ShowsRef(nodes, cut, state, nodes[x].operation.component, nodes[x].operation.name)
  {
    hide PairKey;
    var key := KeyOf(nodes[x].operation);
    assert IsWrite(nodes, x, key);
    var id := state[key];
    forall y | y in cut && y != id && IsRefWrite(nodes, y, nodes[x].operation.component, nodes[x].operation.name)
      ensures nodes[y].operation.version < nodes[id].operation.version
    {
      assert IsWrite(nodes, y, key);
    }
    assert IsLatest(nodes, cut, nodes[x].operation.component, nodes[x].operation.name, id);
  }

  /** What the state shows of a Ref sits under its key. */
  lemma OneShown(nodes: Nodes, cut: set<Text>, state: map<RefKey, Text>, x: Text, name: RefKey)
    requires IsStateAt(nodes, cut, state) && x in cut && IsWrite(nodes, x, name)
    requires ShowsRef(nodes, cut, state, nodes[x].operation.component, nodes[x].operation.name)
    ensures name in state && state[name] in nodes && nodes[state[name]].RefOccurrence?
    ensures nodes[state[name]].operation.component == nodes[x].operation.component
    ensures nodes[state[name]].operation.name == nodes[x].operation.name
  {
    hide PairKey;
    var key :| key in state && IsLatest(nodes, cut, nodes[x].operation.component, nodes[x].operation.name, state[key]);
    assert IsWrite(nodes, state[key], key);
  }

  /** Consecutive writes of one Ref. */
  ghost predicate NextRefWrite(nodes: Nodes, topological: seq<Text>, cut: set<Text>, component: Text, name: Text, i: nat, j: nat) {
    && i < j < |topological| && topological[i] in cut && topological[j] in cut
    && IsRefWrite(nodes, topological[i], component, name) && IsRefWrite(nodes, topological[j], component, name)
    && forall k :: i < k < j ==> !(topological[k] in cut && IsRefWrite(nodes, topological[k], component, name))
  }

  /** Each Ref's versions in the cut count up by one. */
  ghost predicate ValidRefHistory(nodes: Nodes, topological: seq<Text>, cut: set<Text>) {
    forall component, name, i: nat, j: nat :: NextRefWrite(nodes, topological, cut, component, name, i, j) ==>
      nodes[topological[j]].operation.version == nodes[topological[i]].operation.version + 1
  }

  /** With keys apart the history is judged Ref by Ref. */
  lemma RefHistoryIff(nodes: Nodes, topological: seq<Text>, cut: set<Text>)
    requires RefKeysApart(nodes, cut)
    ensures ValidHistory(nodes, topological, cut, |topological|) <==> ValidRefHistory(nodes, topological, cut)
  {
    hide PairKey, RefKeysApart;
    forall component, name, i: nat, j: nat | NextRefWrite(nodes, topological, cut, component, name, i, j)
      ensures NextWrite(nodes, topological, cut, PairKey(component, name), i, j)
    {
      forall k | i < k < j && topological[k] in cut
        ensures !IsWrite(nodes, topological[k], PairKey(component, name))
      {
        SameRef(nodes, cut, topological[i], topological[k], PairKey(component, name));
      }
    }
    forall key, i: nat, j: nat | NextWrite(nodes, topological, cut, key, i, j)
      ensures var o := nodes[topological[i]].operation; NextRefWrite(nodes, topological, cut, o.component, o.name, i, j)
    {
      SameRef(nodes, cut, topological[i], topological[j], key);
    }
  }

  lemma SameRef(nodes: Nodes, cut: set<Text>, x: Text, y: Text, key: RefKey)
    requires RefKeysApart(nodes, cut) && x in cut && y in cut && IsWrite(nodes, x, key)
    ensures IsWrite(nodes, y, key) ==>
              IsRefWrite(nodes, y, nodes[x].operation.component, nodes[x].operation.name)
  {
    hide PairKey;
  }

  /** Components without NUL bytes keep the keys apart. */
  lemma PlainRefKeys(nodes: Nodes, cut: set<Text>)
    requires forall id :: id in cut && id in nodes && nodes[id].RefOccurrence? ==> NulFree(nodes[id].operation.component)
    ensures RefKeysApart(nodes, cut)
  {
    hide PairKey, NulFree;
    forall x, y, name | x in cut && y in cut && IsWrite(nodes, x, name) && IsWrite(nodes, y, name)
      ensures nodes[x].operation.component == nodes[y].operation.component && nodes[x].operation.name == nodes[y].operation.name
    {
      PlainPairs(nodes[x].operation.component, nodes[x].operation.name, nodes[y].operation.component, nodes[y].operation.name);
    }
  }

  /** A write of the Ref named b\0c of component a, or c of component a\0b: one key. */
  function SharedKeyWrite(first: bool, kind: OperationKind, version: nat, value: Value): RefOperation {
    RefOperation(if first then [97] else [97, 0, 98], if first then [98, 0, 99] else [99], [111], kind, version, value,
                 [], [], [], [], [])
  }

  lemma OneRefKey(first: bool, kind: OperationKind, version: nat, value: Value)
    ensures KeyOf(SharedKeyWrite(first, kind, version, value)) == [97, 0, 98, 0, 99]
  {
    assert PairKey([97], [98, 0, 99]) == [97, 0, 98, 0, 99] == PairKey([97, 0, 98], [99]);
  }

  /** Two different Refs, each only created, with one key: the cut is refused although each
      Ref's history is in order. */
  method SharedKeyRefused(x: Text, y: Text, value: Value) returns (r: Option<map<RefKey, Text>>, ghost nodes: Nodes)
    requires x != y
    ensures nodes == map[x := RefOccurrence(true, SharedKeyWrite(true, Create, 0, value)), y := RefOccurrence(true, SharedKeyWrite(false, Create, 0, value))]
    ensures ValidRefHistory(nodes, [x, y], {x, y}) && r.None?
  {
    var occurrences := map[x := RefOccurrence(true, SharedKeyWrite(true, Create, 0, value)),
                           y := RefOccurrence(true, SharedKeyWrite(false, Create, 0, value))];
    nodes := occurrences;
    OneRefKey(true, Create, 0, value);
    OneRefKey(false, Create, 0, value);
    assert NextWrite(nodes, [x, y], {x, y}, [97, 0, 98, 0, 99], 0, 1);
    r := StateAt(occurrences, [x, y], {x, y});
  }

  /** One of them created and the other assigned at version 1: the cut is accepted and the
      created Ref is missing from its state. */
  method SharedKeyDropped(x: Text, y: Text, value: Value) returns (r: Option<map<RefKey, Text>>, ghost nodes: Nodes)
    requires x != y
    ensures nodes == map[x := RefOccurrence(true, SharedKeyWrite(true, Create, 0, value)), y := RefOccurrence(false, SharedKeyWrite(false, Assign, 1, value))]
    ensures r.Some? && x !in r.value.Values && !ShowsRef(nodes, {x, y}, r.value, [97], [98, 0, 99])
  {
    var occurrences := map[x := RefOccurrence(true, SharedKeyWrite(true, Create, 0, value)),
                           y := RefOccurrence(false, SharedKeyWrite(false, Assign, 1, value))];
    nodes := occurrences;
    OneRefKey(true, Create, 0, value);
    OneRefKey(false, Assign, 1, value);
    r := StateAt(occurrences, [x, y], {x, y});
    if r.Some? {
      assert IsWrite(nodes, x, [97, 0, 98, 0, 99]) && IsWrite(nodes, y, [97, 0, 98, 0, 99]);
      forall key | key in r.value ensures r.value[key] == y {
        assert IsWrite(nodes, r.value[key], key);
      }
    }
  }

  // ----- Cuts of a match -----

  ghost predicate Joins(nodes: set<Text>, edges: Edges) {
    forall a, b :: (a, b) in edges ==> a in nodes && b in nodes && a != b
  }

  /** validate accepts: something is registered, every dependency joins two distinct
      registered occurrences, and there is no cycle. */
  ghost predicate Acceptable(nodes: Nodes, edges: Edges) {
    nodes != map[] && Joins(nodes.Keys, edges) && Acyclic(edges)
  }

  function Initial(nodes: Nodes): set<Text> {
    set id | id in nodes && nodes[id].RefOccurrence? && nodes[id].initial
  }

  /** A matched event from which no other matched event is reachable. */
  ghost predicate IsMaximum(edges: Edges, matched: set<Text>, anchor: Text) {
    anchor in matched && forall other :: other in matched && other != anchor ==> !Reach(edges, anchor, other)
  }

  /** s is a state cut of the match at this anchor. */
  ghost predicate IsMatchCut(nodes: Nodes, edges: Edges, matched: set<Text>, anchor: Text, s: set<Text>) {
    IsMaximum(edges, matched, anchor) && IsCut(edges, nodes.Keys, matched + Initial(nodes), anchor, s)
  }

  /** The cuts found are exactly the match's cuts, each once and with exactly its anchors. */
  ghost predicate Exact(nodes: Nodes, edges: Edges, matched: set<Text>, anchors: set<Text>, found: Found) {
    forall s ::
      && (s in found <==> exists anchor :: anchor in anchors && IsMatchCut(nodes, edges, matched, anchor, s))
      && (s in found ==> forall anchor :: anchor in found[s] <==> anchor in anchors && IsMatchCut(nodes, edges, matched, anchor, s))
  }

  /** More cuts than allowed. */
  ghost predicate TooMany(nodes: Nodes, edges: Edges, matched: set<Text>, limit: nat) {
    exists many: set<set<Text>> :: |many| > limit &&
      forall s :: s in many ==> exists anchor :: IsMatchCut(nodes, edges, matched, anchor, s)
  }

  /** What a cut at this anchor may include or leave out. */
  ghost predicate IsOptional(nodes: Nodes, edges: Edges, matched: set<Text>, anchor: Text, x: Text) {
    x in nodes && !LeadsTo(edges, matched + Initial(nodes), x) && !Reach(edges, anchor, x)
  }

  /** More optional occurrences than allowed, at an anchor some cut exists for. */
  ghost predicate TooOpen(nodes: Nodes, edges: Edges, matched: set<Text>, limit: nat) {
    exists anchor :: OpenAt(nodes, edges, matched, anchor, limit)
  }

  ghost predicate OpenAt(nodes: Nodes, edges: Edges, matched: set<Text>, anchor: Text, limit: nat) {
    (exists s :: IsMatchCut(nodes, edges, matched, anchor, s)) &&
    exists open: set<Text> :: |open| > limit && forall x :: x in open ==> IsOptional(nodes, edges, matched, anchor, x)
  }

  lemma OneAnchor(
      nodes: Nodes, edges: Edges, matched: set<Text>, anchors: set<Text>, anchor: Text, topological: seq<Text>,
      base: set<Text>, forbidden: set<Text>, before: Found, after: Found)
    requires Exact(nodes, edges, matched, anchors, before) && IsMaximum(edges, matched, anchor) && anchor !in anchors
    requires Members(topological) == nodes.Keys && matched + Initial(nodes) <= nodes.Keys
    requires forall x :: x in base <==> x in nodes && LeadsTo(edges, matched + Initial(nodes), x)
    requires forall x :: x in forbidden <==> x != anchor && Reach(edges, anchor, x)
    requires Records(edges, topological, base, forbidden, anchor, 0, base, before, after)
    ensures Exact(nodes, edges, matched, anchors + {anchor}, after)
  {
    hide Reach, LeadsTo, Initial, IsMaximum;
    forall s ensures Completes(edges, topological, base, forbidden, 0, base, s) <==> IsMatchCut(nodes, edges, matched, anchor, s) {
      CompletesIsCut(nodes, edges, matched, anchor, topological, base, forbidden, s);
    }
    ExactStep(nodes, edges, matched, anchors, anchor, topological, base, forbidden, before, after);
  }

  lemma CompletesIsCut(
      nodes: Nodes, edges: Edges, matched: set<Text>, anchor: Text, topological: seq<Text>,
      base: set<Text>, forbidden: set<Text>, s: set<Text>)
    requires IsMaximum(edges, matched, anchor)
    requires Members(topological) == nodes.Keys && matched + Initial(nodes) <= nodes.Keys
    requires forall x :: x in base <==> x in nodes && LeadsTo(edges, matched + Initial(nodes), x)
    requires forall x :: x in forbidden <==> x != anchor && Reach(edges, anchor, x)
    ensures Completes(edges, topological, base, forbidden, 0, base, s) <==> IsMatchCut(nodes, edges, matched, anchor, s)
  {
    hide Reach, LeadsTo, Initial, IsMaximum, IsCut;
    CutContainsBase(edges, nodes.Keys, matched + Initial(nodes), base, anchor, s);
  }

  lemma ExactStep(
      nodes: Nodes, edges: Edges, matched: set<Text>, anchors: set<Text>, anchor: Text, topological: seq<Text>,
      base: set<Text>, forbidden: set<Text>, before: Found, after: Found)
    requires Exact(nodes, edges, matched, anchors, before) && anchor !in anchors
    requires Records(edges, topological, base, forbidden, anchor, 0, base, before, after)
    requires forall s :: Completes(edges, topological, base, forbidden, 0, base, s) <==> IsMatchCut(nodes, edges, matched, anchor, s)
    ensures Exact(nodes, edges, matched, anchors + {anchor}, after)
  {
    hide Completes, IsMatchCut;
    forall s
      ensures s in after <==> exists x :: x in anchors + {anchor} && IsMatchCut(nodes, edges, matched, x, s)
      ensures s in after ==> forall x :: x in after[s] <==> x in anchors + {anchor} && IsMatchCut(nodes, edges, matched, x, s)
    {
      assert s in after <==> s in before || Completes(edges, topological, base, forbidden, 0, base, s);
      assert s in before <==> exists x :: x in anchors && IsMatchCut(nodes, edges, matched, x, s);
      assert anchor in anchors + {anchor};
    }
  }

  /** An anchor whose strict future meets the base has no cut at all. */
  lemma NoCutAt(
      nodes: Nodes, edges: Edges, matched: set<Text>, anchors: set<Text>, anchor: Text,
      base: set<Text>, forbidden: set<Text>, found: Found)
    requires Exact(nodes, edges, matched, anchors, found) && IsMaximum(edges, matched, anchor)
    requires matched + Initial(nodes) <= nodes.Keys
    requires forall x :: x in base <==> x in nodes && LeadsTo(edges, matched + Initial(nodes), x)
    requires forall x :: x in forbidden <==> x != anchor && Reach(edges, anchor, x)
    requires base * forbidden != {}
    ensures Exact(nodes, edges, matched, anchors + {anchor}, found)
  {
    hide Reach, LeadsTo, Initial, IsMaximum, IsCut;
    forall s ensures !IsMatchCut(nodes, edges, matched, anchor, s) {
      CutContainsBase(edges, nodes.Keys, matched + Initial(nodes), base, anchor, s);
      var x :| x in base && x in forbidden;
    }
    forall s
      ensures s in found <==> exists x :: x in anchors + {anchor} && IsMatchCut(nodes, edges, matched, x, s)
    {
      assert s in found <==> exists x :: x in anchors && IsMatchCut(nodes, edges, matched, x, s);
      if y :| y in anchors && IsMatchCut(nodes, edges, matched, y, s) {
        assert y in anchors + {anchor};
      }
    }
  }

  lemma OverflowIsTooMany(
      nodes: Nodes, edges: Edges, matched: set<Text>, anchors: set<Text>, anchor: Text, topological: seq<Text>,
      base: set<Text>, forbidden: set<Text>, before: Found, after: Found, extra: set<Text>, limit: nat)
    requires Exact(nodes, edges, matched, anchors, before)
    requires forall s :: Completes(edges, topological, base, forbidden, 0, base, s) <==> IsMatchCut(nodes, edges, matched, anchor, s)
    requires Overflows(edges, topological, base, forbidden, 0, base, before, after, extra, limit)
    ensures TooMany(nodes, edges, matched, limit)
  {
    hide Completes, IsMatchCut, Exact, TooMany;
    var many := after.Keys + {extra};
    forall s | s in many ensures exists x :: IsMatchCut(nodes, edges, matched, x, s) {
      if s in before {
        FoundIsCut(nodes, edges, matched, anchors, before, s);
      } else {
        assert Completes(edges, topological, base, forbidden, 0, base, s);
        assert IsMatchCut(nodes, edges, matched, anchor, s);
      }
    }
    ManyCuts(nodes, edges, matched, many, limit);
  }

  lemma ManyCuts(nodes: Nodes, edges: Edges, matched: set<Text>, many: set<set<Text>>, limit: nat)
    requires |many| > limit && forall s :: s in many ==> exists x :: IsMatchCut(nodes, edges, matched, x, s)
    ensures TooMany(nodes, edges, matched, limit)
  {
    hide IsMatchCut;
  }

  lemma FoundIsCut(nodes: Nodes, edges: Edges, matched: set<Text>, anchors: set<Text>, found: Found, s: set<Text>)
    requires Exact(nodes, edges, matched, anchors, found) && s in found
    ensures exists x :: IsMatchCut(nodes, edges, matched, x, s)
  {
    hide IsMatchCut;
  }

  // ----- Validation -----

  /** Neighbour lists in canonical order. */
  method Adjacency(nodes: set<Text>, edges: Edges) returns (predecessors: map<Text, seq<Text>>, successors: map<Text, seq<Text>>)
    requires Joins(nodes, edges)
    ensures predecessors.Keys == nodes && successors.Keys == nodes
    ensures forall x :: x in nodes ==> StrictlySorted(predecessors[x]) && forall a :: a in predecessors[x] <==> (a, x) in edges
    ensures forall x :: x in nodes ==> StrictlySorted(successors[x]) && forall b :: b in successors[x] <==> (x, b) in edges
  {
    hide StrictlySorted;
    predecessors, successors := map[], map[];
    var rest := nodes;
    while rest != {}
      invariant rest <= nodes && predecessors.Keys == nodes - rest && successors.Keys == nodes - rest
      invariant forall x :: x in nodes - rest ==> StrictlySorted(predecessors[x]) && forall a :: a in predecessors[x] <==> (a, x) in edges
      invariant forall x :: x in nodes - rest ==> StrictlySorted(successors[x]) && forall b :: b in successors[x] <==> (x, b) in edges
      decreases rest
    {
      var x :| x in rest;
      rest := rest - {x};
      var before := Sort(set a | a in nodes && (a, x) in edges);
      var after := Sort(set b | b in nodes && (x, b) in edges);
      assert forall a :: a in before <==> a in Members(before);
      assert forall b :: b in after <==> b in Members(after);
      predecessors := predecessors[x := before];
      successors := successors[x := after];
    }
  }

  ghost predicate Listed(edges: Edges, visited: set<Text>, topological: seq<Text>) {
    && Members(topological) == visited && ListsTopologically(edges, topological)
    && (forall i, j :: 0 <= i < j < |topological| ==> topological[i] != topological[j])
  }

  lemma ListNext(edges: Edges, visited: set<Text>, topological: seq<Text>, next: Text)
    requires Listed(edges, visited, topological) && next !in visited && (next, next) !in edges
    requires forall a, b :: (a, b) in edges && b in visited ==> a in visited
    ensures Listed(edges, visited + {next}, topological + [next])
  {
    var longer := topological + [next];
    forall i, j | 0 <= i < |longer| && 0 <= j < |longer| && (longer[i], longer[j]) in edges ensures i < j {
      assert j < |topological| ==> longer[j] in visited;
    }
    assert forall i :: 0 <= i < |topological| ==> topological[i] in visited;
  }

  lemma InvariantClosed(edges: Edges, nodes: set<Text>, visited: set<Text>, inDegree: map<Text, nat>, ready: set<Text>)
    requires PassInvariant(edges, nodes, visited, inDegree, ready)
    ensures forall a, b :: (a, b) in edges && b in visited ==> a in visited
    ensures ready <= nodes - visited && visited <= nodes
  {}

  /** The order the pass takes: always the least occurrence whose predecessors are all listed. */
  ghost predicate LeastFirst(edges: Edges, nodes: set<Text>, topological: seq<Text>) {
    forall k :: 0 <= k < |topological| ==> IsLeast(topological[k], Waiting(edges, nodes, Members(topological[..k])))
  }

  ghost function Waiting(edges: Edges, nodes: set<Text>, listed: set<Text>): set<Text> {
    set x | x in nodes && x !in listed && Open(edges, listed, x) == {}
  }

  lemma LeastFirstNext(
      edges: Edges, nodes: set<Text>, visited: set<Text>, inDegree: map<Text, nat>, ready: set<Text>, topological: seq<Text>, next: Text)
    requires PassInvariant(edges, nodes, visited, inDegree, ready) && Members(topological) == visited
    requires LeastFirst(edges, nodes, topological) && IsLeast(next, ready)
    ensures LeastFirst(edges, nodes, topological + [next])
  {
    hide IsLeast, Open, Members;
    var longer := topological + [next];
    assert Waiting(edges, nodes, visited) == ready;
    forall k | 0 <= k < |longer| ensures IsLeast(longer[k], Waiting(edges, nodes, Members(longer[..k]))) {
      assert longer[..k] == topological[..k];
      assert topological[..|topological|] == topological;
    }
  }

  /** Only one listing of all occurrences is taken in that order. */
  lemma {:induction false} LeastFirstUnique(edges: Edges, nodes: set<Text>, s: seq<Text>, t: seq<Text>, k: nat)
    requires LeastFirst(edges, nodes, s) && LeastFirst(edges, nodes, t) && k <= |s| && k <= |t|
    ensures s[..k] == t[..k]
  {
    if k > 0 {
      LeastFirstUnique(edges, nodes, s, t, k - 1);
      LeastUnique(s[k - 1], t[k - 1], Waiting(edges, nodes, Members(s[..k - 1])));
      assert s[..k] == s[..k - 1] + [s[k - 1]] && t[..k] == t[..k - 1] + [t[k - 1]];
    }
  }

  lemma LeastFirstSame(edges: Edges, nodes: set<Text>, s: seq<Text>, t: seq<Text>)
    requires LeastFirst(edges, nodes, s) && LeastFirst(edges, nodes, t) && Listed(edges, nodes, s) && Listed(edges, nodes, t)
    ensures s == t
  {
    DistinctCount(s);
    DistinctCount(t);
    LeastFirstUnique(edges, nodes, s, t, |s|);
    assert s[..|s|] == s && t[..|t|] == t;
  }

  /** Kahn's pass over the whole computation. */
  method TopologicalPass(nodes: set<Text>, edges: Edges, predecessors: map<Text, seq<Text>>, successors: map<Text, seq<Text>>)
    returns (topological: seq<Text>)
    requires Joins(nodes, edges) && predecessors.Keys == nodes && successors.Keys == nodes
    requires forall x :: x in nodes ==> StrictlySorted(predecessors[x]) && forall a :: a in predecessors[x] <==> (a, x) in edges
    requires forall x :: x in nodes ==> StrictlySorted(successors[x]) && forall b :: b in successors[x] <==> (x, b) in edges
    ensures exists visited :: visited <= nodes && Listed(edges, visited, topological)
    ensures Acyclic(edges) ==> Members(topological) == nodes
    ensures LeastFirst(edges, nodes, topological)
  {
    hide StrictlySorted, PassInvariant, Listed, Acyclic, LeastFirst, IsLeast;
    var inDegree: map<Text, nat> := map id | id in nodes :: |predecessors[id]|;
    var ready := set id | id in nodes && |predecessors[id]| == 0;
    topological := [];
    ghost var visited: set<Text> := {};
    PassStarts(nodes, edges, predecessors, inDegree, ready);
    NoneListed(edges, nodes);
    while ready != {}
      invariant PassInvariant(edges, nodes, visited, inDegree, ready) && Listed(edges, visited, topological) && visited <= nodes
      invariant LeastFirst(edges, nodes, topological)
      decreases nodes - visited
    {
      InvariantClosed(edges, nodes, visited, inDegree, ready);
      var id := LeastOf(ready);
      PassReady(edges, nodes, visited, inDegree, ready, id);
      ListedMembers(edges, visited, topological);
      ListNext(edges, visited, topological, id);
      LeastFirstNext(edges, nodes, visited, inDegree, ready, topological, id);
      inDegree, ready := Lower(successors[id], id, edges, nodes, visited, inDegree, ready);
      topological := topological + [id];
      visited := visited + {id};
    }
    if Acyclic(edges) {
      PassEnds(edges, nodes, visited, inDegree);
    }
    assert Members(topological) == visited by { ListedMembers(edges, visited, topological); }
  }

  lemma ListedMembers(edges: Edges, visited: set<Text>, topological: seq<Text>)
    requires Listed(edges, visited, topological)
    ensures Members(topological) == visited
  {}

  lemma NoneListed(edges: Edges, nodes: set<Text>)
    ensures Listed(edges, {}, []) && LeastFirst(edges, nodes, [])
  {}

  lemma PassStarts(nodes: set<Text>, edges: Edges, predecessors: map<Text, seq<Text>>, inDegree: map<Text, nat>, ready: set<Text>)
    requires predecessors.Keys == nodes && inDegree == map id | id in nodes :: |predecessors[id]|
    requires ready == set id | id in nodes && |predecessors[id]| == 0
    requires forall x :: x in nodes ==> StrictlySorted(predecessors[x]) && forall a :: a in predecessors[x] <==> (a, x) in edges
    ensures PassInvariant(edges, nodes, {}, inDegree, ready)
  {
    hide StrictlySorted;
    forall x | x in nodes ensures |Open(edges, {}, x)| == |predecessors[x]| {
      OpenIsListed(edges, x, predecessors[x]);
    }
  }

  /** A listing with every source before its target rules cycles out. */
  lemma ListingAcyclic(edges: Edges, nodes: set<Text>, topological: seq<Text>)
    requires Joins(nodes, edges) && Listed(edges, nodes, topological)
    ensures Acyclic(edges)
  {
    forall a, b | (a, b) in edges ensures !Reach(edges, b, a) {
      var i :| 0 <= i < |topological| && topological[i] == a;
      var j :| 0 <= j < |topological| && topological[j] == b;
      assert i < j;
      var rest := topological[j..];
      var later := iset x | x in rest;
      assert rest[0] == b && a !in later;
      forall x, y | (x, y) in edges && x in later ensures y in later {
        var k :| 0 <= k < |rest| && rest[k] == x;
        assert y in Members(topological);
        var l :| 0 <= l < |topological| && topological[l] == y;
        assert (topological[j + k], topological[l]) in edges;
        assert rest[l - j] == y;
      }
    }
  }

  lemma SizesTell(s: set<Text>, t: set<Text>, listing: seq<Text>)
    requires s <= t && Members(listing) == s
    requires forall i, j :: 0 <= i < j < |listing| ==> listing[i] != listing[j]
    ensures |listing| == |t| <==> s == t
  {
    DistinctCount(listing);
    if s != t {
      var x :| x in t && x !in s;
      StrictSubsetSmaller(s, t, x);
    }
  }

  // ----- The computation -----

  ghost predicate AllRegistered(nodes: set<Text>, edges: map<Text, set<Text>>) {
    forall a :: a in edges ==> edges[a] == {} || (a in nodes && edges[a] <= nodes - {a})
  }

  lemma StaysRegistered(nodes: set<Text>, nodes': set<Text>, edges: map<Text, set<Text>>)
    requires nodes <= nodes' && AllRegistered(nodes, edges)
    ensures AllRegistered(nodes', edges)
  {
  }

  class AugmentedComputation {
    var nodes: Nodes
    var edges: map<Text, set<Text>>

    constructor ()
      ensures nodes == map[] && edges == map[] && Registered()
    {
      nodes := map[];
      edges := map[];
    }

    /** Every dependency: registered edges and what operations declare. */
    function Dependencies(): Edges
      reads this
    {
      (set a, b | a in edges && b in edges[a] :: (a, b)) + OperationEdges(nodes)
    }

    /** Every registered dependency joins two distinct registered occurrences. */
    ghost predicate Registered()
      reads this
    {
      AllRegistered(nodes.Keys, edges)
    }

    method AddEventOccurrence(id: Text) returns (ok: bool)
      modifies this`nodes
      ensures ok <==> id != [] && 0 !in id && id !in old(nodes)
      ensures nodes == if ok then old(nodes)[id := EventOccurrence] else old(nodes)
      ensures forall x :: x in old(nodes) ==> x in nodes && nodes[x] == old(nodes)[x]
      ensures old(Registered()) ==> Registered()
    {
      ok := WellFormedIdentity(id) && id !in nodes;
      if ok {
        nodes := nodes[id := EventOccurrence];
      }
      if old(Registered()) {
        StaysRegistered(old(nodes.Keys), nodes.Keys, edges);
      }
    }

    method AddRefOperation(id: Text, operation: RefOperation, initial: bool) returns (ok: bool)
      modifies this`nodes
      ensures ok <==>
                && id != [] && 0 !in id && id !in old(nodes)
                && operation.component != [] && operation.name != [] && operation.owner != []
                && (operation.kind == Create ==> operation.version == 0) && (initial ==> operation.kind == Create)
      ensures nodes == if ok then old(nodes)[id := RefOccurrence(initial, operation)] else old(nodes)
      ensures forall x :: x in old(nodes) ==> x in nodes && nodes[x] == old(nodes)[x]
      ensures old(Registered()) ==> Registered()
    {
      ok := WellFormedIdentity(id) && id !in nodes && WellFormedOperation(operation, initial);
      if ok {
        nodes := nodes[id := RefOccurrence(initial, operation)];
      }
      if old(Registered()) {
        StaysRegistered(old(nodes.Keys), nodes.Keys, edges);
      }
    }

    method AddCausalDependency(before: Text, after: Text) returns (ok: bool)
      modifies this`edges
      ensures ok <==> before in nodes && after in nodes && before != after
      ensures ok ==> Dependencies() == old(Dependencies()) + {(before, after)}
      ensures !ok ==> edges == old(edges)
      ensures old(Registered()) ==> Registered()
    {
      ok := before in nodes && after in nodes && before != after;
      if ok {
        var targets := if before in edges then edges[before] else {};
        edges := edges[before := targets + {after}];
        forall a, b ensures (a in edges && b in edges[a]) <==> (a in old(edges) && b in old(edges)[a]) || (a, b) == (before, after) {
        }
        assert old(Registered()) ==> AllRegistered(nodes.Keys, edges);
      }
    }

    /** validate. */
    method Validate() returns (g: Option<Graph>)
      ensures g.Some? <==> Acceptable(nodes, Dependencies())
      ensures g.Some? ==> Represents(g.value, nodes.Keys, Dependencies()) && LeastFirst(Dependencies(), nodes.Keys, g.value.topological)
    {
      hide StrictlySorted, Acyclic, ListsTopologically, OperationEdges, LeastFirst;
      if |nodes| == 0 {
        return None;
      }
      var all := Dependencies();
      var bad := set e | e in all && (e.0 !in nodes || e.1 !in nodes || e.0 == e.1);
      assert bad == {} <==> Joins(nodes.Keys, all) by {
        forall a, b | (a, b) in all && (a !in nodes || b !in nodes || a == b) ensures bad != {} {
          assert (a, b) in bad;
        }
      }
      if bad != {} {
        return None;
      }
      var predecessors, successors := Adjacency(nodes.Keys, all);
      var topological := TopologicalPass(nodes.Keys, all, predecessors, successors);
      ghost var visited :| visited <= nodes.Keys && Listed(all, visited, topological);
      SizesTell(visited, nodes.Keys, topological);
      if |topological| != |nodes| {
        return None;
      }
      ListingAcyclic(all, nodes.Keys, topological);
      return Some(Graph(predecessors, successors, topological));
    }
  
    /** The maximum matched events. */
    method Anchors(g: Graph, matched: seq<Text>) returns (anchors: seq<Text>)
      requires Represents(g, nodes.Keys, Dependencies()) && Members(matched) <= nodes.Keys && StrictlySorted(matched)
      ensures forall a :: a in anchors <==> IsMaximum(Dependencies(), Members(matched), a)
      ensures forall i, j :: 0 <= i < j < |anchors| ==> anchors[i] != anchors[j]
    {
      hide Reach, Represents, Dependencies;
      anchors := [];
      for i := 0 to |matched|
        invariant forall a :: a in anchors <==> a in matched[..i] && IsMaximum(Dependencies(), Members(matched), a)
        invariant forall k, l :: 0 <= k < l < |anchors| ==> anchors[k] != anchors[l]
      {
        TakeOneMore(matched, i);
        NotYetListed(matched, i);
        var maximum := true;
        for j := 0 to |matched|
          invariant maximum <==> forall k :: 0 <= k < j && matched[k] != matched[i] ==> !Reach(Dependencies(), matched[i], matched[k])
        {
          if maximum && matched[i] != matched[j] {
            assert matched[i] in Members(matched);
            var further := Reachable(g, matched[i], matched[j], nodes.Keys, Dependencies());
            maximum := !further;
          }
        }
        if maximum {
          anchors := anchors + [matched[i]];
        }
      }
      TakeAll(matched);
    }

    /** The search below one anchor, with its optional-occurrence limit. */
    method CutsAt(
        g: Graph, anchor: Text, base: set<Text>, maxCuts: nat, maxOptional: nat, found: Found,
        ghost matched: set<Text>, ghost done: set<Text>)
      returns (ok: bool, found': Found)
      requires Represents(g, nodes.Keys, Dependencies()) && anchor in nodes
      requires IsMaximum(Dependencies(), matched, anchor) && anchor !in done && matched + Initial(nodes) <= nodes.Keys
      requires forall x :: x in base <==> x in nodes && LeadsTo(Dependencies(), matched + Initial(nodes), x)
      requires PrefixClosed(Dependencies(), base)
      requires Exact(nodes, Dependencies(), matched, done, found)
      ensures ok ==> Exact(nodes, Dependencies(), matched, done + {anchor}, found')
      ensures ok ==> !OpenAt(nodes, Dependencies(), matched, anchor, maxOptional)
      ensures ok && |found| <= maxCuts ==> |found'| <= maxCuts
      ensures !ok ==> TooOpen(nodes, Dependencies(), matched, maxOptional) || TooMany(nodes, Dependencies(), matched, maxCuts)
    {
      hide Reach, Dependencies, LeadsTo, Initial, IsMaximum, Exact, TooMany, TooOpen, OpenAt, PrefixClosed, StrictlySorted, ListsTopologically, Completes, IsMatchCut;
      ghost var deps := Dependencies();
      found' := found;
      MaximumMatched(deps, matched, anchor);
      var forbidden := StrictSuccessors(g, anchor, nodes.Keys, deps);
      if base * forbidden != {} {
        NoCutAt(nodes, deps, matched, done, anchor, base, forbidden, found);
        NeverOpen(nodes, deps, matched, done, anchor, found, maxOptional);
        return true, found;
      }
      var optional := set x | x in g.topological && x !in base && x !in forbidden;
      if |optional| > maxOptional {
        OpenWitness(nodes, deps, matched, anchor, base, forbidden, optional, maxOptional);
        return false, found;
      }
      NotOpen(nodes, deps, matched, anchor, base, forbidden, optional, g.topological, maxOptional);
      assert Selected(deps, g.topological, base, forbidden, 0, base) by {
        forall x | x in base ensures x in nodes && x !in forbidden {
          assert x in forbidden ==> x in base * forbidden;
        }
      }
      var search := new CutSearch(g, base, forbidden, anchor, maxCuts, found);
      ghost var extra;
      ok, extra := search.Enumerate(0, nodes.Keys, deps);
      found' := search.byKey;
      forall s ensures Completes(deps, g.topological, base, forbidden, 0, base, s) <==> IsMatchCut(nodes, deps, matched, anchor, s) {
        CompletesIsCut(nodes, deps, matched, anchor, g.topological, base, forbidden, s);
      }
      if ok {
        OneAnchor(nodes, deps, matched, done, anchor, g.topological, base, forbidden, found, found');
      } else {
        OverflowIsTooMany(nodes, deps, matched, done, anchor, g.topological, base, forbidden, found, found', extra, maxCuts);
      }
    }

    /** The state at every cut found. */
    method StatesAt(g: Graph, found: Found) returns (states: Option<map<set<Text>, Witness>>)
      requires Represents(g, nodes.Keys, Dependencies()) && forall s :: s in found ==> s <= nodes.Keys
      ensures states.Some? <==> forall s :: s in found ==> ValidHistory(nodes, g.topological, s, |g.topological|)
      ensures states.Some? ==> states.value.Keys == found.Keys
      ensures states.Some? ==> forall s :: s in found ==>
                states.value[s].anchors == found[s] && IsStateAt(nodes, s, states.value[s].state)
    {
      hide Reach, Dependencies, ValidHistory, IsStateAt, ListsTopologically, StrictlySorted;
      var cuts: map<set<Text>, Witness> := map[];
      var rest := found.Keys;
      while rest != {}
        invariant rest <= found.Keys && cuts.Keys == found.Keys - rest
        invariant forall s :: s in cuts ==> ValidHistory(nodes, g.topological, s, |g.topological|)
        invariant forall s :: s in cuts ==> cuts[s].anchors == found[s] && IsStateAt(nodes, s, cuts[s].state)
        decreases rest
      {
        var s :| s in rest;
        rest := rest - {s};
        var state := StateAt(nodes, g.topological, s);
        if state.None? {
          return None;
        }
        cuts := cuts[s := Witness(found[s], state.value)];
      }
      return Some(cuts);
    }

    /** ConsistentCutStateWitnesses: exactly the cuts of the match, each once, with exactly its
        anchors and the state there; or a limit, or an invalid computation or Ref history. */
    method ConsistentCutStateWitnesses(matchEventIDs: seq<Text>, maxCuts: nat, maxOptional: nat) returns (r: Answer)
      ensures r.Witnesses? ==>
                && AcceptsMatch(nodes, Dependencies(), matchEventIDs, maxCuts, maxOptional)
                && AllCuts(nodes, Dependencies(), Members(matchEventIDs) - {[]}, r.cuts)
      ensures r.LimitExceeded? <==>
                && AcceptsMatch(nodes, Dependencies(), matchEventIDs, maxCuts, maxOptional)
                && (TooOpen(nodes, Dependencies(), Members(matchEventIDs) - {[]}, maxOptional) ||
                    TooMany(nodes, Dependencies(), Members(matchEventIDs) - {[]}, maxCuts))
      ensures r.InvalidComputation? <==>
                || !AcceptsMatch(nodes, Dependencies(), matchEventIDs, maxCuts, maxOptional)
                || (!r.LimitExceeded? && BrokenHistory(nodes, Dependencies(), Members(matchEventIDs) - {[]}))
    {
      hide LeastFirst, Reach, Dependencies, Acceptable, TooMany, TooOpen, AllCuts, BrokenHistory;
      if maxCuts == 0 || maxOptional == 0 {
        return InvalidComputation;
      }
      var validated := Validate();
      if validated.None? {
        return InvalidComputation;
      }
      var g := validated.value;
      var matched := Sort(Members(matchEventIDs) - {[]});
      if |matched| == 0 {
        assert Members(matched) == {};
        return InvalidComputation;
      }
      for index := 0 to |matched|
        invariant forall k :: 0 <= k < index ==> matched[k] in nodes && nodes[matched[k]].EventOccurrence?
      {
        if matched[index] !in nodes || !nodes[matched[index]].EventOccurrence? {
          assert matched[index] in Members(matched);
          return InvalidComputation;
        }
      }
      assert Members(matched) != {} by { MembersEmpty(matched); }
      r := Search(g, matched, maxCuts, maxOptional);
    }

    method Search(g: Graph, matched: seq<Text>, maxCuts: nat, maxOptional: nat) returns (r: Answer)
      requires Represents(g, nodes.Keys, Dependencies()) && LeastFirst(Dependencies(), nodes.Keys, g.topological)
      requires StrictlySorted(matched) && Members(matched) <= nodes.Keys
      ensures r.Witnesses? ==> AllCuts(nodes, Dependencies(), Members(matched), r.cuts)
      ensures r.LimitExceeded? <==>
                TooOpen(nodes, Dependencies(), Members(matched), maxOptional) || TooMany(nodes, Dependencies(), Members(matched), maxCuts)
      ensures r.InvalidComputation? ==> BrokenHistory(nodes, Dependencies(), Members(matched))
      ensures r.Witnesses? ==> !BrokenHistory(nodes, Dependencies(), Members(matched))
    {
      hide LeastFirst, Reach, Dependencies, IsMaximum, TooMany, TooOpen, OpenAt, IsMatchCut, IsStateAt, ValidHistory, LeadsTo, StrictlySorted, PrefixClosed, Exact, AllCuts, BrokenHistory;
      ghost var deps, all := Dependencies(), Members(matched);
      var anchors := Anchors(g, matched);
      var base := BaseOf(g, Members(matched) + Initial(nodes), nodes.Keys, deps);
      var found: Found := map[];
      NothingFound(nodes, deps, all);
      assert Members(anchors[..0]) == {};
      for i := 0 to |anchors|
        invariant Exact(nodes, deps, all, Members(anchors[..i]), found) && |found| <= maxCuts
        invariant forall a :: a in anchors[..i] ==> !OpenAt(nodes, deps, all, a, maxOptional)
      {
        TakeOneMore(anchors, i);
        MaximumMatched(deps, all, anchors[i]);
        var ok, found' := CutsAt(g, anchors[i], base, maxCuts, maxOptional, found, all, Members(anchors[..i]));
        if !ok {
          return LimitExceeded;
        }
        found := found';
      }
      TakeAll(anchors);
      ExactAll(nodes, deps, all, Members(anchors), found);
      WithinLimits(nodes, deps, all, anchors, found, maxCuts, maxOptional);
      var states := StatesAt(g, found);
      if states.None? {
        ghost var s :| s in found && !ValidHistory(nodes, g.topological, s, |g.topological|);
        BreaksHistory(nodes, deps, all, g, s);
        return InvalidComputation;
      }
      NothingBroken(nodes, deps, all, g, found);
      CutsWitnessed(nodes, deps, all, found, states.value);
      return Witnesses(states.value);
    }
  }

  ghost predicate AcceptsMatch(nodes: Nodes, edges: Edges, matchEventIDs: seq<Text>, maxCuts: nat, maxOptional: nat) {
    && maxCuts > 0 && maxOptional > 0 && Acceptable(nodes, edges) && Members(matchEventIDs) - {[]} != {}
    && forall id :: id in Members(matchEventIDs) - {[]} ==> id in nodes && nodes[id].EventOccurrence?
  }

  /** The answer lists exactly the cuts of the match, each with exactly its anchors, and the
      state there. */
  ghost predicate AllCuts(nodes: Nodes, edges: Edges, matched: set<Text>, cuts: map<set<Text>, Witness>) {
    && (forall s :: s in cuts <==> exists anchor :: IsMatchCut(nodes, edges, matched, anchor, s))
    && (forall s :: s in cuts ==>
          && (forall anchor :: anchor in cuts[s].anchors <==> IsMatchCut(nodes, edges, matched, anchor, s))
          && IsStateAt(nodes, s, cuts[s].state))
  }

  /** Some cut of the match holds a Ref key whose versions do not count up by one. */
  ghost predicate BrokenHistory(nodes: Nodes, edges: Edges, matched: set<Text>) {
    exists anchor, s, topological ::
      && IsMatchCut(nodes, edges, matched, anchor, s)
      && Listed(edges, nodes.Keys, topological) && LeastFirst(edges, nodes.Keys, topological)
      && !ValidHistory(nodes, topological, s, |topological|)
  }

  /** The same said Ref by Ref. */
  ghost predicate BrokenRefHistory(nodes: Nodes, edges: Edges, matched: set<Text>) {
    exists anchor, s, topological ::
      && IsMatchCut(nodes, edges, matched, anchor, s)
      && Listed(edges, nodes.Keys, topological) && LeastFirst(edges, nodes.Keys, topological)
      && !ValidRefHistory(nodes, topological, s)
  }

  /** With keys apart an answer is invalid exactly for some Ref's broken history, and the
      states show every Ref. */
  lemma AnswersPerRef(nodes: Nodes, edges: Edges, matched: set<Text>)
    requires RefKeysApart(nodes, nodes.Keys)
    ensures BrokenHistory(nodes, edges, matched) <==> BrokenRefHistory(nodes, edges, matched)
    ensures forall cuts: map<set<Text>, Witness>, s :: AllCuts(nodes, edges, matched, cuts) && s in cuts ==> ShowsEveryRef(nodes, s, cuts[s].state)
  {
    hide IsMatchCut, LeastFirst, Listed, ValidHistory, ValidRefHistory, IsStateAt, ShowsEveryRef, RefKeysApart;
    forall s ensures RefKeysApart(nodes, s) {
      FewerApart(nodes, s);
    }
    forall s, topological
      ensures ValidHistory(nodes, topological, s, |topological|) <==> ValidRefHistory(nodes, topological, s)
    {
      RefHistoryIff(nodes, topological, s);
    }
    forall cuts: map<set<Text>, Witness>, s | AllCuts(nodes, edges, matched, cuts) && s in cuts ensures ShowsEveryRef(nodes, s, cuts[s].state) {
      ShowsEveryRefIff(nodes, s, cuts[s].state);
    }
  }

  lemma FewerApart(nodes: Nodes, s: set<Text>)
    requires RefKeysApart(nodes, nodes.Keys)
    ensures RefKeysApart(nodes, s)
  {
    hide KeyOf;
  }

  lemma BreaksHistory(nodes: Nodes, edges: Edges, matched: set<Text>, g: Graph, s: set<Text>)
    requires Represents(g, nodes.Keys, edges) && LeastFirst(edges, nodes.Keys, g.topological)
    requires !ValidHistory(nodes, g.topological, s, |g.topological|)
    requires exists anchor :: IsMatchCut(nodes, edges, matched, anchor, s)
    ensures BrokenHistory(nodes, edges, matched)
  {
    hide ValidHistory, IsMatchCut, ListsTopologically, StrictlySorted;
    var anchor :| IsMatchCut(nodes, edges, matched, anchor, s);
    assert Listed(edges, nodes.Keys, g.topological);
  }

  lemma NothingBroken(nodes: Nodes, edges: Edges, matched: set<Text>, g: Graph, found: Found)
    requires Represents(g, nodes.Keys, edges) && LeastFirst(edges, nodes.Keys, g.topological)
    requires forall s :: s in found <==> exists anchor :: IsMatchCut(nodes, edges, matched, anchor, s)
    requires forall s :: s in found ==> ValidHistory(nodes, g.topological, s, |g.topological|)
    ensures !BrokenHistory(nodes, edges, matched)
  {
    hide ValidHistory, IsMatchCut, StrictlySorted, LeastFirst;
    forall anchor, s, topological
      | IsMatchCut(nodes, edges, matched, anchor, s) && Listed(edges, nodes.Keys, topological) && LeastFirst(edges, nodes.Keys, topological)
      ensures ValidHistory(nodes, topological, s, |topological|)
    {
      LeastFirstSame(edges, nodes.Keys, g.topological, topological);
    }
  }

  lemma CutsWitnessed(nodes: Nodes, edges: Edges, matched: set<Text>, found: Found, cuts: map<set<Text>, Witness>)
    requires forall s :: s in found <==> exists anchor :: IsMatchCut(nodes, edges, matched, anchor, s)
    requires forall s :: s in found ==> forall anchor :: anchor in found[s] <==> IsMatchCut(nodes, edges, matched, anchor, s)
    requires cuts.Keys == found.Keys
    requires forall s :: s in found ==> cuts[s].anchors == found[s] && IsStateAt(nodes, s, cuts[s].state)
    ensures AllCuts(nodes, edges, matched, cuts)
  {
    hide IsMatchCut, IsStateAt;
  }

  lemma OpenWitness(
      nodes: Nodes, edges: Edges, matched: set<Text>, anchor: Text, base: set<Text>, forbidden: set<Text>, optional: set<Text>, limit: nat)
    requires IsMaximum(edges, matched, anchor) && |optional| > limit && anchor in matched && anchor in nodes
    requires matched + Initial(nodes) <= nodes.Keys && PrefixClosed(edges, base) && base * forbidden == {}
    requires forall x :: x in base <==> x in nodes && LeadsTo(edges, matched + Initial(nodes), x)
    requires forall x :: x in forbidden <==> x != anchor && Reach(edges, anchor, x)
    requires forall x :: x in optional ==> x in nodes && x !in base && x !in forbidden
    ensures TooOpen(nodes, edges, matched, limit)
  {
    hide Reach, Initial, IsMaximum, IsCut, PrefixClosed, IsOptional;
    BaseIsCut(nodes, edges, matched, anchor, base, forbidden);
    forall x | x in optional ensures IsOptional(nodes, edges, matched, anchor, x) {
      OptionalIff(nodes, edges, matched, anchor, base, forbidden, x);
    }
    assert OpenAt(nodes, edges, matched, anchor, limit);
  }

  lemma OptionalIff(
      nodes: Nodes, edges: Edges, matched: set<Text>, anchor: Text, base: set<Text>, forbidden: set<Text>, x: Text)
    requires anchor in matched && anchor in nodes
    requires forall x :: x in base <==> x in nodes && LeadsTo(edges, matched + Initial(nodes), x)
    requires forall x :: x in forbidden <==> x != anchor && Reach(edges, anchor, x)
    ensures IsOptional(nodes, edges, matched, anchor, x) <==> x in nodes && x !in base && x !in forbidden
  {
    hide Reach, Initial;
    assert anchor in base && Reach(edges, anchor, anchor) by { ReachItself(edges, anchor); }
  }

  lemma BaseIsCut(nodes: Nodes, edges: Edges, matched: set<Text>, anchor: Text, base: set<Text>, forbidden: set<Text>)
    requires IsMaximum(edges, matched, anchor) && matched + Initial(nodes) <= nodes.Keys
    requires PrefixClosed(edges, base) && base * forbidden == {}
    requires forall x :: x in base <==> x in nodes && LeadsTo(edges, matched + Initial(nodes), x)
    requires forall x :: x in forbidden <==> x != anchor && Reach(edges, anchor, x)
    ensures IsMatchCut(nodes, edges, matched, anchor, base)
  {
    hide Reach, Initial, LeadsTo, IsMaximum, IsCut, PrefixClosed;
    CutContainsBase(edges, nodes.Keys, matched + Initial(nodes), base, anchor, base);
    forall x | x in base && Reach(edges, anchor, x) ensures x == anchor {
      assert x in forbidden ==> x in base * forbidden;
    }
  }

  lemma NotOpen(
      nodes: Nodes, edges: Edges, matched: set<Text>, anchor: Text, base: set<Text>, forbidden: set<Text>,
      optional: set<Text>, topological: seq<Text>, limit: nat)
    requires anchor in matched && anchor in nodes && |optional| <= limit && Members(topological) == nodes.Keys
    requires forall x :: x in base <==> x in nodes && LeadsTo(edges, matched + Initial(nodes), x)
    requires forall x :: x in forbidden <==> x != anchor && Reach(edges, anchor, x)
    requires optional == set x | x in topological && x !in base && x !in forbidden
    ensures !OpenAt(nodes, edges, matched, anchor, limit)
  {
    hide Reach, Initial, IsOptional, IsMatchCut;
    forall open: set<Text> | forall x :: x in open ==> IsOptional(nodes, edges, matched, anchor, x) ensures |open| <= limit {
      forall x | x in open ensures x in optional {
        OptionalIff(nodes, edges, matched, anchor, base, forbidden, x);
        assert x in Members(topological);
      }
      SubsetNotLarger(open, optional);
    }
  }

  lemma FoundAt(
      nodes: Nodes, edges: Edges, matched: set<Text>, anchors: set<Text>, anchor: Text, found: Found, s: set<Text>)
    requires Exact(nodes, edges, matched, anchors, found)
    requires anchor in anchors && IsMatchCut(nodes, edges, matched, anchor, s)
    ensures s in found && anchor in found[s]
  {
    hide IsMatchCut;
  }

  lemma OnlySearched(
      nodes: Nodes, edges: Edges, matched: set<Text>, anchors: set<Text>, anchor: Text, found: Found, s: set<Text>)
    requires Exact(nodes, edges, matched, anchors, found) && s in found && anchor in found[s]
    ensures anchor in anchors
  {
    hide IsMatchCut;
  }

  lemma NeverOpen(
      nodes: Nodes, edges: Edges, matched: set<Text>, anchors: set<Text>, anchor: Text, found: Found, limit: nat)
    requires anchor !in anchors
    requires Exact(nodes, edges, matched, anchors, found) && Exact(nodes, edges, matched, anchors + {anchor}, found)
    ensures !OpenAt(nodes, edges, matched, anchor, limit)
  {
    hide IsMatchCut, Exact;
    forall s ensures !IsMatchCut(nodes, edges, matched, anchor, s) {
      if IsMatchCut(nodes, edges, matched, anchor, s) {
        FoundAt(nodes, edges, matched, anchors + {anchor}, anchor, found, s);
        OnlySearched(nodes, edges, matched, anchors, anchor, found, s);
      }
    }
  }

  /** An answer within the limits rules both limits out. */
  lemma WithinLimits(
      nodes: Nodes, edges: Edges, matched: set<Text>, anchors: seq<Text>, found: Found, maxCuts: nat, maxOptional: nat)
    requires |found| <= maxCuts && forall s :: s in found <==> exists anchor :: IsMatchCut(nodes, edges, matched, anchor, s)
    requires forall a :: a in anchors <==> IsMaximum(edges, matched, a)
    requires forall a :: a in anchors ==> !OpenAt(nodes, edges, matched, a, maxOptional)
    ensures !TooOpen(nodes, edges, matched, maxOptional) && !TooMany(nodes, edges, matched, maxCuts)
  {
    hide IsMaximum, IsCut, IsOptional;
    forall many: set<set<Text>> | forall s :: s in many ==> exists anchor :: IsMatchCut(nodes, edges, matched, anchor, s)
      ensures |many| <= maxCuts
    {
      SubsetNotLarger(many, found.Keys);
    }
  }

  lemma NothingFound(nodes: Nodes, edges: Edges, matched: set<Text>)
    ensures Exact(nodes, edges, matched, {}, map[])
  {}

  lemma MaximumMatched(edges: Edges, matched: set<Text>, anchor: Text)
    requires IsMaximum(edges, matched, anchor)
    ensures anchor in matched
  {}

  lemma ExactAll(nodes: Nodes, edges: Edges, matched: set<Text>, anchors: set<Text>, found: Found)
    requires Exact(nodes, edges, matched, anchors, found)
    requires forall a :: a in anchors <==> IsMaximum(edges, matched, a)
    ensures forall s :: s in found <==> exists anchor :: IsMatchCut(nodes, edges, matched, anchor, s)
    ensures forall s :: s in found ==> s <= nodes.Keys && forall anchor :: anchor in found[s] <==> IsMatchCut(nodes, edges, matched, anchor, s)
  {
    hide IsMaximum, Reach, LeadsTo;
    forall s ensures s in found <==> exists anchor :: IsMatchCut(nodes, edges, matched, anchor, s) {
      assert s in found <==> exists anchor :: anchor in anchors && IsMatchCut(nodes, edges, matched, anchor, s);
    }
  }
}
