/** Finite dependency relations between firings (arch/deterministic_map.go): the
    topological order by Kahn's rule and the reduction to direct predecessors. */
module FiringOrders {
  import opened Texts
  import opened Reachability

  /** relation[i][j]: i must precede j. */
  type Matrix = seq<seq<bool>>

  predicate Square(relation: Matrix, n: nat) {
    |relation| == n && forall i :: 0 <= i < n ==> |relation[i]| == n
  }

  predicate Related(relation: Matrix, i: nat, j: nat) {
    i < |relation| && j < |relation[i]| && relation[i][j]
  }

  ghost predicate StrictOrder(relation: Matrix) {
    && (forall i: nat :: !Related(relation, i, i))
    && (forall i: nat, j: nat, k: nat :: Related(relation, i, j) && Related(relation, j, k) ==> Related(relation, i, k))
  }

  ghost function EdgesOf(relation: Matrix): set<(nat, nat)> {
    set i: nat, j: nat | i < |relation| && j < |relation[i]| && Related(relation, i, j) :: (i, j)
  }

  lemma StrictOrderReach(relation: Matrix, a: nat, b: nat)
    requires StrictOrder(relation)
    ensures Reach(EdgesOf(relation), a, b) <==> a == b || Related(relation, a, b)
  {
    var edges := EdgesOf(relation);
    if Reach(edges, a, b) {
      var s := iset x: nat | x == a || Related(relation, a, x);
      forall x, y | (x, y) in edges && x in s ensures y in s {
        assert Related(relation, x, y);
      }
      ReachWithin(edges, a, b, s);
    }
    if Related(relation, a, b) {
      assert (a, b) in edges;
      ReachStep(edges, a, a, b);
    }
  }

  lemma StrictOrderAcyclic(relation: Matrix)
    requires StrictOrder(relation)
    ensures Acyclic(EdgesOf(relation))
  {
    forall a, b | (a, b) in EdgesOf(relation) ensures !Reach(EdgesOf(relation), b, a) {
      StrictOrderReach(relation, b, a);
    }
  }

  // ----- Kahn's rule -----

  /** The unselected predecessors of i. */
  function Blockers(relation: Matrix, listed: seq<nat>, i: nat): set<nat> {
    set j: nat | j < |relation| && j !in listed && Related(relation, j, i)
  }

  /** Not listed, and every predecessor is. */
  ghost predicate Available(relation: Matrix, listed: seq<nat>, i: nat) {
    i < |relation| && i !in listed && forall j: nat :: Related(relation, j, i) ==> j in listed
  }

  /** Each entry is the available one with the least key, so the order is determined. */
  ghost predicate ListedByKey(relation: Matrix, keys: seq<Text>, listed: seq<nat>)
    requires |keys| == |relation|
  {
    forall k :: 0 <= k < |listed| ==> LeastAvailable(relation, keys, listed[..k], listed[k])
  }

  ghost predicate LeastAvailable(relation: Matrix, keys: seq<Text>, listed: seq<nat>, next: nat)
    requires |keys| == |relation|
  {
    Available(relation, listed, next) &&
    forall i: nat :: Available(relation, listed, i) ==> AtMost(keys[next], keys[i])
  }

  /** Some nonempty set of firings each has a predecessor within the set. */
  ghost predicate Stuck(relation: Matrix) {
    exists blocked: set<nat> :: StuckOn(relation, blocked)
  }

  ghost predicate StuckOn(relation: Matrix, blocked: set<nat>) {
    blocked != {} && forall i :: i in blocked ==> PrecededWithin(relation, blocked, i)
  }

  ghost predicate PrecededWithin(relation: Matrix, blocked: set<nat>, i: nat) {
    exists j: nat :: j in blocked && Related(relation, j, i)
  }

  lemma {:induction false} Distinct(relation: Matrix, keys: seq<Text>, listed: seq<nat>)
    requires |keys| == |relation| && ListedByKey(relation, keys, listed)
    ensures forall i, j :: 0 <= i < j < |listed| ==> listed[i] != listed[j]
    ensures forall x :: x in listed ==> x < |relation|
  {
    forall i, j | 0 <= i < j < |listed| ensures listed[i] != listed[j] {
      assert LeastAvailable(relation, keys, listed[..j], listed[j]);
      assert listed[i] in listed[..j];
    }
    forall x | x in listed ensures x < |relation| {
      var k :| 0 <= k < |listed| && listed[k] == x;
      assert LeastAvailable(relation, keys, listed[..k], listed[k]);
    }
  }

  lemma BlockersShrink(relation: Matrix, listed: seq<nat>, selected: nat, i: nat)
    requires selected < |relation| && selected !in listed
    ensures Blockers(relation, listed + [selected], i) == Blockers(relation, listed, i) - {selected}
    ensures selected in Blockers(relation, listed, i) <==> Related(relation, selected, i)
  {}

  /** The first sweep: how many predecessors each firing has. */
  method Degrees(relation: Matrix) returns (degree: array<int>)
    requires Square(relation, |relation|)
    ensures fresh(degree) && degree.Length == |relation|
    ensures forall i :: 0 <= i < |relation| ==> degree[i] == |Blockers(relation, [], i)|
  {
    var n := |relation|;
    degree := new int[n];
    for i := 0 to n
      invariant forall k :: 0 <= k < i ==> degree[k] == |Blockers(relation, [], k)|
    {
      degree[i] := 0;
      ghost var counted: set<nat> := {};
      for j := 0 to n
        invariant counted == set k: nat | k < j && Related(relation, k, i)
        invariant degree[i] == |counted|
        invariant forall k :: 0 <= k < i ==> degree[k] == |Blockers(relation, [], k)|
      {
        if relation[j][i] {
          degree[i] := degree[i] + 1;
          counted := counted + {j};
        }
      }
      assert counted == Blockers(relation, [], i);
    }
  }

  ghost predicate DegreesCount(relation: Matrix, listed: seq<nat>, degree: seq<int>) {
    |degree| == |relation| &&
    forall i :: 0 <= i < |relation| ==>
      if i in listed then degree[i] < 0 else degree[i] == |Blockers(relation, listed, i)|
  }

  /** The least-key firing without unlisted predecessors. */
  method Ready(relation: Matrix, keys: seq<Text>, ghost listed: seq<nat>, degree: array<int>)
    returns (found: bool, selected: nat)
    requires |keys| == |relation| && DegreesCount(relation, listed, degree[..])
    ensures found ==> LeastAvailable(relation, keys, listed, selected)
    ensures !found ==> forall i: nat :: !Available(relation, listed, i)
  {
    found, selected := false, 0;
    for i := 0 to degree.Length
      invariant found ==> Available(relation, listed, selected)
      invariant found ==> forall k :: 0 <= k < i && Available(relation, listed, k) ==> AtMost(keys[selected], keys[k])
      invariant !found ==> forall k :: 0 <= k < i ==> !Available(relation, listed, k)
    {
      assert degree[i] == degree[..][i];
      NoBlockers(relation, listed, i);
      if degree[i] == 0 {
        if !found || Less(keys[i], keys[selected]) {
          KeyOrder(keys, selected, i, found);
          found, selected := true, i;
        } else {
          LessTotal(keys[selected], keys[i]);
        }
      }
    }
  }

  lemma KeyOrder(keys: seq<Text>, selected: nat, i: nat, found: bool)
    requires found ==> selected < |keys|
    requires i < |keys| && (found ==> Less(keys[i], keys[selected]))
    ensures found ==> forall k :: 0 <= k < |keys| && AtMost(keys[selected], keys[k]) ==> AtMost(keys[i], keys[k])
  {
    forall k | found && 0 <= k < |keys| && AtMost(keys[selected], keys[k]) ensures AtMost(keys[i], keys[k]) {
      if Less(keys[selected], keys[k]) {
        LessTransitive(keys[i], keys[selected], keys[k]);
      }
    }
  }

  lemma NoBlockers(relation: Matrix, listed: seq<nat>, i: nat)
    requires i < |relation|
    ensures Available(relation, listed, i) <==> i !in listed && |Blockers(relation, listed, i)| == 0
  {
    if i !in listed && |Blockers(relation, listed, i)| == 0 {
      forall j | Related(relation, j, i) ensures j in listed {
        assert j !in Blockers(relation, listed, i);
      }
    }
    if Available(relation, listed, i) {
      assert Blockers(relation, listed, i) == {};
    }
  }

  method Select(relation: Matrix, ghost listed: seq<nat>, degree: array<int>, selected: nat)
    requires Square(relation, |relation|) && degree.Length == |relation|
    requires DegreesCount(relation, listed, degree[..]) && Available(relation, listed, selected)
    modifies degree
    ensures DegreesCount(relation, listed + [selected], degree[..])
  {
    var n := |relation|;
    ghost var before := degree[..];
    degree[selected] := -1;
    for j := 0 to n
      invariant degree[selected] < 0
      invariant forall i :: 0 <= i < n && i != selected ==>
                  degree[i] == before[i] - (if i < j && Related(relation, selected, i) then 1 else 0)
    {
      if relation[selected][j] {
        degree[j] := degree[j] - 1;
      }
    }
    forall i | 0 <= i < n
      ensures if i in listed + [selected] then degree[i] < 0
              else degree[i] == |Blockers(relation, listed + [selected], i)|
    {
      BlockersShrink(relation, listed, selected, i);
      assert i in listed ==> before[i] < 0;
    }
  }

  /** mapFiringTopologicalOrder: lists every firing once, least key first among those whose
      predecessors are all listed, or reports a cycle when some are never available. */
  method TopologicalOrder(relation: Matrix, keys: seq<Text>) returns (cyclic: bool, result: seq<nat>)
    requires Square(relation, |relation|) && |keys| == |relation|
    ensures cyclic <==> Stuck(relation)
    ensures !cyclic ==>
              && |result| == |relation| && ListedByKey(relation, keys, result)
              && forall i :: 0 <= i < |relation| ==> i in result
  {
    var n := |relation|;
    var degree := Degrees(relation);
    result := [];
    while |result| < n
      invariant degree.Length == n && fresh(degree) && |result| <= n
      invariant ListedByKey(relation, keys, result)
      invariant DegreesCount(relation, result, degree[..])
    {
      var found, selected := Ready(relation, keys, result, degree);
      if !found {
        NothingAvailable(relation, keys, result);
        return true, result;
      }
      Select(relation, result, degree, selected);
      assert forall k :: 0 <= k < |result| ==> (result + [selected])[..k] == result[..k];
      assert (result + [selected])[..|result|] == result;
      result := result + [selected];
    }
    Distinct(relation, keys, result);
    AllListed(n, result);
    forall blocked ensures !StuckOn(relation, blocked) {
      NeverStuck(relation, keys, result, blocked);
    }
    return false, result;
  }

  lemma NothingAvailable(relation: Matrix, keys: seq<Text>, listed: seq<nat>)
    requires |keys| == |relation| && ListedByKey(relation, keys, listed) && |listed| < |relation|
    requires forall i: nat :: !Available(relation, listed, i)
    ensures Stuck(relation)
  {
    var blocked := set i | i in Indices(|relation|) && i !in listed;
    Distinct(relation, keys, listed);
    SomeUnlisted(|relation|, listed);
    var free: nat :| free < |relation| && free !in listed;
    assert free in blocked;
    forall i | i in blocked ensures PrecededWithin(relation, blocked, i) {
      assert !Available(relation, listed, i);
      var j: nat :| Related(relation, j, i) && j !in listed;
      assert j in blocked;
    }
    assert StuckOn(relation, blocked);
  }

  function Indices(n: nat): (r: set<nat>)
    ensures |r| == n && forall i: nat :: i in r <==> i < n
  {
    if n == 0 then {} else Indices(n - 1) + {n - 1}
  }

  lemma SomeUnlisted(n: nat, listed: seq<nat>)
    requires |listed| < n
    ensures exists i: nat :: i < n && i !in listed
  {
    if Indices(n) <= Members(listed) {
      SubsetNotLarger(Indices(n), Members(listed));
      MembersCount(listed);
    }
    var i :| i in Indices(n) && i !in Members(listed);
  }

  lemma {:induction false} MembersCount(s: seq<nat>)
    ensures |Members(s)| <= |s|
    decreases |s|
  {
    if s != [] {
      MembersCount(s[1..]);
      assert s == [s[0]] + s[1..];
      assert Members(s) == {s[0]} + Members(s[1..]);
    }
  }

  lemma AllListed(n: nat, listed: seq<nat>)
    requires |listed| == n && forall x :: x in listed ==> x < n
    requires forall i, j :: 0 <= i < j < |listed| ==> listed[i] != listed[j]
    ensures forall i :: 0 <= i < n ==> i in listed
  {
    DistinctCount(listed);
    forall i | 0 <= i < n ensures i in listed {
      if i !in listed {
        StrictSubsetSmaller(Members(listed), Indices(n), i);
      }
    }
  }

  /** A full listing leaves no blocked set: its members would never have been listed. */
  lemma NeverStuck(relation: Matrix, keys: seq<Text>, listed: seq<nat>, blocked: set<nat>)
    requires Square(relation, |relation|) && |keys| == |relation|
    requires ListedByKey(relation, keys, listed) && forall i :: 0 <= i < |relation| ==> i in listed
    ensures !StuckOn(relation, blocked)
  {
    hide ListedByKey;
    TakeAll(listed);
    if StuckOn(relation, blocked) {
      var x :| x in blocked;
      var j: nat :| j in blocked && Related(relation, j, x);
      NoneListed(relation, keys, listed, blocked, |listed|);
    }
  }

  lemma {:induction false} NoneListed(relation: Matrix, keys: seq<Text>, listed: seq<nat>, blocked: set<nat>, k: nat)
    requires |keys| == |relation| && ListedByKey(relation, keys, listed) && StuckOn(relation, blocked)
    requires k <= |listed|
    ensures forall i :: i in blocked ==> i !in listed[..k]
  {
    if k > 0 {
      NoneListed(relation, keys, listed, blocked, k - 1);
      assert LeastAvailable(relation, keys, listed[..k - 1], listed[k - 1]);
      assert listed[..k] == listed[..k - 1] + [listed[k - 1]];
      assert listed[k - 1] in blocked ==> PrecededWithin(relation, blocked, listed[k - 1]);
    }
  }

  /** A strict order is never stuck: every nonempty set of firings has a source. */
  lemma StrictOrderNeverStuck(relation: Matrix)
    requires StrictOrder(relation)
    ensures !Stuck(relation)
  {
    hide StrictOrder;
    StrictOrderAcyclic(relation);
    forall blocked ensures !StuckOn(relation, blocked) {
      if blocked != {} {
        var source := SourceExists(EdgesOf(relation), blocked);
        forall j | j in blocked ensures !Related(relation, j, source) {
          assert (j, source) !in EdgesOf(relation);
        }
      }
    }
  }

  /** The order extends the relation. */
  lemma ListsInOrder(relation: Matrix, keys: seq<Text>, listed: seq<nat>, i: nat, j: nat)
    requires |keys| == |relation| && ListedByKey(relation, keys, listed)
    requires i < |listed| && j < |listed| && Related(relation, listed[i], listed[j])
    ensures i < j
  {
    assert LeastAvailable(relation, keys, listed[..j], listed[j]);
    Distinct(relation, keys, listed);
    var k :| 0 <= k < j && listed[..j][k] == listed[i];
    assert listed[k] == listed[i];
  }

  /** With distinct keys only one listing obeys the rule. */
  lemma {:induction false} ListingUnique(relation: Matrix, keys: seq<Text>, s: seq<nat>, t: seq<nat>)
    requires |keys| == |relation| && |s| == |t|
    requires forall i, j :: 0 <= i < j < |keys| ==> keys[i] != keys[j]
    requires ListedByKey(relation, keys, s) && ListedByKey(relation, keys, t)
    ensures s == t
    decreases |s|
  {
    if s != [] {
      hide LeastAvailable;
      var n := |s| - 1;
      ListedPrefix(relation, keys, s, n);
      ListedPrefix(relation, keys, t, n);
      ListingUnique(relation, keys, s[..n], t[..n]);
      LeastAvailableUnique(relation, keys, s[..n], s[n], t[n]);
      assert s == s[..n] + [s[n]] && t == t[..n] + [t[n]];
    }
  }

  lemma ListedPrefix(relation: Matrix, keys: seq<Text>, s: seq<nat>, n: nat)
    requires |keys| == |relation| && n <= |s| && ListedByKey(relation, keys, s)
    ensures ListedByKey(relation, keys, s[..n])
  {
    hide LeastAvailable;
    forall k | 0 <= k < n ensures LeastAvailable(relation, keys, s[..n][..k], s[..n][k]) {
      assert s[..n][..k] == s[..k];
    }
  }

  lemma LeastAvailableUnique(relation: Matrix, keys: seq<Text>, listed: seq<nat>, a: nat, b: nat)
    requires |keys| == |relation| && forall i, j :: 0 <= i < j < |keys| ==> keys[i] != keys[j]
    requires LeastAvailable(relation, keys, listed, a) && LeastAvailable(relation, keys, listed, b)
    ensures a == b
  {
    LessAsymmetric(keys[a], keys[b]);
  }

  // ----- Reduction to direct predecessors -----

  /** p is a live direct predecessor of i: no live firing lies strictly between them. */
  ghost predicate Direct(relation: Matrix, live: seq<bool>, p: nat, i: nat) {
    && p < |live| && i < |live| && live[p] && live[i] && Related(relation, p, i)
    && forall m: nat :: m < |live| && live[m] ==> !(Related(relation, p, m) && Related(relation, m, i))
  }

  ghost function DirectEdges(relation: Matrix, live: seq<bool>): set<(nat, nat)> {
    set p, i | p in Indices(|live|) && i in Indices(|live|) && Direct(relation, live, p, i) :: (p, i)
  }

  ghost function Between(relation: Matrix, live: seq<bool>, a: nat, b: nat): set<nat> {
    set m | m in Indices(|live|) && live[m] && Related(relation, a, m) && Related(relation, m, b)
  }

  lemma {:induction false} DirectReaches(relation: Matrix, live: seq<bool>, a: nat, b: nat)
    requires StrictOrder(relation) && a < |live| && b < |live| && live[a] && live[b]
    requires Related(relation, a, b)
    ensures Reach(DirectEdges(relation, live), a, b)
    decreases |Between(relation, live, a, b)|
  {
    var middle, edges := Between(relation, live, a, b), DirectEdges(relation, live);
    if middle == {} {
      forall m: nat | m < |live| && live[m] ensures !(Related(relation, a, m) && Related(relation, m, b)) {
        assert m !in middle;
      }
      assert (a, b) in edges;
      ReachStep(edges, a, a, b);
    } else {
      var m :| m in middle;
      StrictSubsetSmaller(Between(relation, live, a, m), middle, m);
      StrictSubsetSmaller(Between(relation, live, m, b), middle, m);
      DirectReaches(relation, live, a, m);
      DirectReaches(relation, live, m, b);
      ReachTrans(edges, a, m, b);
    }
  }

  /** Nothing is lost by the reduction: its closure is the relation on live firings. */
  lemma DirectClosure(relation: Matrix, live: seq<bool>, a: nat, b: nat)
    requires StrictOrder(relation)
    ensures Reach(DirectEdges(relation, live), a, b) && a != b <==>
            a < |live| && b < |live| && live[a] && live[b] && Related(relation, a, b)
  {
    var edges := DirectEdges(relation, live);
    if Reach(edges, a, b) && a != b {
      var first := ReachFirst(edges, a, b);
      var s := iset x: nat | x < |live| && live[x] && Related(relation, a, x);
      assert (a, first) in edges && first in s;
      forall x, y | (x, y) in edges && x in s ensures y in s {
        assert Direct(relation, live, x, y);
      }
      ReachWithin(edges, first, b, s);
    }
    if a < |live| && b < |live| && live[a] && live[b] && Related(relation, a, b) {
      DirectReaches(relation, live, a, b);
    }
  }

  // ----- Relations that need not be transitive -----

  /** Of any three steps in a row, two neighbouring ones compose. */
  ghost predicate Shortens(relation: Matrix) {
    forall a: nat, b: nat, c: nat, d: nat ::
      Related(relation, a, b) && Related(relation, b, c) && Related(relation, c, d) ==>
        Related(relation, a, c) || Related(relation, b, d)
  }

  ghost function LiveEdges(relation: Matrix, live: seq<bool>): set<(nat, nat)> {
    set i, j | i in Indices(|live|) && j in Indices(|live|) && live[i] && live[j] && Related(relation, i, j) :: (i, j)
  }

  /** What the relation orders by way of live firings. */
  ghost function LiveClosure(relation: Matrix, live: seq<bool>): (closure: Matrix)
    ensures |closure| == |live|
    ensures forall i: nat, j: nat :: Related(closure, i, j) <==>
              i < |live| && j < |live| && i != j && Reach(LiveEdges(relation, live), i, j)
  {
    hide Reach;
    var closure := seq(|live|, i requires 0 <= i < |live| => LiveRow(relation, live, i));
    assert forall i: nat :: i < |live| ==> closure[i] == LiveRow(relation, live, i);
    closure
  }

  ghost predicate Beyond(relation: Matrix, live: seq<bool>, i: nat, j: nat) {
    i != j && Reach(LiveEdges(relation, live), i, j)
  }

  ghost function LiveRow(relation: Matrix, live: seq<bool>, i: nat): (row: seq<bool>)
    ensures |row| == |live| && forall j: nat :: j < |live| ==> (row[j] <==> Beyond(relation, live, i, j))
  {
    seq(|live|, j requires 0 <= j < |live| => Beyond(relation, live, i, j))
  }

  ghost function OnCycle(edges: set<(nat, nat)>, a: nat): set<nat> {
    set e | e in edges && Reach(edges, a, e.1) && Reach(edges, e.1, a) :: e.1
  }

  /** A cycle is a set in which everything is preceded. */
  lemma NotStuckAcyclic(relation: Matrix)
    requires !Stuck(relation)
    ensures Acyclic(EdgesOf(relation))
  {
    hide Reach, Related;
    var edges := EdgesOf(relation);
    forall a, b | (a, b) in edges ensures !Reach(edges, b, a) {
      if Reach(edges, b, a) {
        var cycle := OnCycle(edges, a);
        EdgeReaches(edges, a, b);
        assert (a, b).1 in cycle;
        forall x | x in cycle ensures PrecededWithin(relation, cycle, x) {
          var y := CyclePreceded(edges, a, b, x);
        }
        StuckIntro(relation, cycle);
      }
    }
  }

  lemma StuckIntro(relation: Matrix, blocked: set<nat>)
    requires StuckOn(relation, blocked)
    ensures Stuck(relation)
  {}

  lemma EdgeReaches(edges: set<(nat, nat)>, a: nat, b: nat)
    requires (a, b) in edges
    ensures Reach(edges, a, b)
  {
    ReachItself(edges, a);
    ReachStep(edges, a, a, b);
  }

  /** Everything on a cycle through a is entered by an edge from the cycle. */
  lemma CycleEntered(edges: set<(nat, nat)>, a: nat, b: nat, x: nat) returns (y: nat)
    requires (a, b) in edges && Reach(edges, b, a) && Reach(edges, a, x)
    ensures (y, x) in edges && Reach(edges, a, y)
  {
    hide Reach;
    if x != a {
      y := ReachLast(edges, a, x);
    } else if b != a {
      y := ReachLast(edges, b, a);
      EdgeReaches(edges, a, b);
      ReachTrans(edges, a, b, y);
    } else {
      y := a;
    }
  }

  lemma CyclePreceded(edges: set<(nat, nat)>, a: nat, b: nat, x: nat) returns (y: nat)
    requires (a, b) in edges && Reach(edges, b, a) && x in OnCycle(edges, a)
    ensures y in OnCycle(edges, a) && (y, x) in edges
  {
    hide Reach;
    y := CycleEntered(edges, a, b, x);
    var z := CycleEntered(edges, a, b, y);
    EdgeReaches(edges, y, x);
    ReachTrans(edges, y, x, a);
    assert (z, y).1 in OnCycle(edges, a);
  }

  lemma LiveClosureStrict(relation: Matrix, live: seq<bool>)
    requires Acyclic(EdgesOf(relation))
    ensures StrictOrder(LiveClosure(relation, live))
  {
    hide Reach;
    var edges, closure := LiveEdges(relation, live), LiveClosure(relation, live);
    assert edges <= EdgesOf(relation);
    forall a, b | (a, b) in edges ensures !Reach(edges, b, a) {
      if Reach(edges, b, a) {
        ReachMono(edges, EdgesOf(relation), b, a);
      }
    }
    forall i: nat, j: nat, k: nat | Related(closure, i, j) && Related(closure, j, k) ensures Related(closure, i, k) {
      ReachTrans(edges, i, j, k);
      if i == k {
        ReachAntisymmetric(edges, i, j);
      }
    }
  }

  /** For a strict order the closure adds nothing. */
  lemma LiveClosureSame(relation: Matrix, live: seq<bool>, a: nat, b: nat)
    requires StrictOrder(relation)
    ensures Related(LiveClosure(relation, live), a, b) <==>
            a < |live| && b < |live| && live[a] && live[b] && Related(relation, a, b)
  {
    hide Reach;
    var edges := LiveEdges(relation, live);
    if a < |live| && b < |live| && a != b && Reach(edges, a, b) {
      assert edges <= EdgesOf(relation);
      ReachMono(edges, EdgesOf(relation), a, b);
      StrictOrderReach(relation, a, b);
      var first := ReachFirst(edges, a, b);
      var last := ReachLast(edges, a, b);
    }
    if a < |live| && b < |live| && live[a] && live[b] && Related(relation, a, b) {
      EdgeReaches(edges, a, b);
    }
  }

  /** A path of three or more firings holds a two-step detour from end to end: while it is
      longer, one of its first two corners can be cut. */
  lemma {:induction false} Detour(relation: Matrix, live: seq<bool>, p: seq<nat>) returns (m: nat)
    requires Shortens(relation) && IsPath(LiveEdges(relation, live), p) && |p| > 2
    ensures (p[0], m) in LiveEdges(relation, live) && (m, p[|p| - 1]) in LiveEdges(relation, live)
    decreases |p|
  {
    var edges := LiveEdges(relation, live);
    assert (p[1 - 1], p[1]) in edges && (p[2 - 1], p[2]) in edges;
    if |p| == 3 {
      m := p[1];
    } else {
      assert (p[3 - 1], p[3]) in edges;
      var q := if Related(relation, p[0], p[2]) then [p[0]] + p[2..] else p[..2] + p[3..];
      forall i | 0 < i < |q| ensures (q[i - 1], q[i]) in edges {
        assert i + 1 < |p| && (p[i + 1 - 1], p[i + 1]) in edges;
      }
      m := Detour(relation, live, q);
    }
  }

  /** The reduction of an acyclic relation that shortens is the reduction of its closure. */
  lemma LiveClosureDirect(relation: Matrix, live: seq<bool>, p: nat, g: nat)
    requires Acyclic(EdgesOf(relation)) && Shortens(relation)
    ensures Direct(LiveClosure(relation, live), live, p, g) <==> Direct(relation, live, p, g)
  {
    hide Reach, Acyclic, Shortens;
    var edges, closure := LiveEdges(relation, live), LiveClosure(relation, live);
    LiveClosureStrict(relation, live);
    assert forall i: nat :: !Related(closure, i, i);
    forall a: nat, b: nat | (a, b) in edges ensures Related(closure, a, b) && a != b {
      EdgeReaches(edges, a, b);
      NoLoop(relation, a);
    }
    if Direct(closure, live, p, g) {
      var first := ReachFirst(edges, p, g);
      forall m: nat | m < |live| && live[m] ensures !(Related(relation, p, m) && Related(relation, m, g)) {
        assert Related(relation, p, m) ==> (p, m) in edges;
      }
    }
    if Direct(relation, live, p, g) {
      assert (p, g) in edges;
      forall m: nat | m < |live| && live[m] ensures !(Related(closure, p, m) && Related(closure, m, g)) {
        if Related(closure, p, m) && Related(closure, m, g) {
          var left := ReachHasPath(edges, p, m);
          var right := ReachHasPath(edges, m, g);
          var path := left + right[1..];
          forall i | 0 < i < |path| ensures (path[i - 1], path[i]) in edges {
            if i < |left| {
              assert (left[i - 1], left[i]) in edges;
            } else {
              var k := i - |left| + 1;
              assert (right[k - 1], right[k]) in edges;
            }
          }
          var d := Detour(relation, live, path);
        }
      }
    }
  }

  /** Both relations reduce to the same direct predecessors. */
  ghost predicate SameReduction(relation: Matrix, closure: Matrix, live: seq<bool>) {
    forall p: nat, g: nat :: Direct(closure, live, p, g) <==> Direct(relation, live, p, g)
  }

  lemma NoLoop(relation: Matrix, a: nat)
    requires Acyclic(EdgesOf(relation))
    ensures !Related(relation, a, a)
  {
    if Related(relation, a, a) {
      assert (a, a) in EdgesOf(relation);
      ReachItself(EdgesOf(relation), a);
    }
  }

  // ----- Sorting by key -----

  ghost predicate Ascending(keys: seq<Text>, s: seq<nat>) {
    && (forall i :: 0 <= i < |s| ==> s[i] < |keys|)
    && forall i, j :: 0 <= i < j < |s| ==> AtMost(keys[s[i]], keys[s[j]])
  }

  function InsertByKey(keys: seq<Text>, x: nat, s: seq<nat>): (r: seq<nat>)
    requires x < |keys| && forall i :: 0 <= i < |s| ==> s[i] < |keys|
    ensures |r| == |s| + 1 && forall i :: 0 <= i < |r| ==> r[i] < |keys|
    ensures forall y :: y in r <==> y == x || y in s
  {
    if s == [] then [x]
    else if Less(keys[x], keys[s[0]]) then [x] + s
    else [s[0]] + InsertByKey(keys, x, s[1..])
  }

  lemma {:induction false} InsertAscending(keys: seq<Text>, x: nat, s: seq<nat>)
    requires x < |keys| && Ascending(keys, s)
    ensures Ascending(keys, InsertByKey(keys, x, s))
  {
    if s != [] {
      var r := InsertByKey(keys, x, s);
      if Less(keys[x], keys[s[0]]) {
        forall j | 0 <= j < |s| ensures AtMost(keys[x], keys[s[j]]) {
          if Less(keys[s[0]], keys[s[j]]) {
            LessTransitive(keys[x], keys[s[0]], keys[s[j]]);
          }
        }
      } else {
        var rest := InsertByKey(keys, x, s[1..]);
        InsertAscending(keys, x, s[1..]);
        LessTotal(keys[x], keys[s[0]]);
        forall j | 0 <= j < |rest| ensures AtMost(keys[s[0]], keys[rest[j]]) {
          assert rest[j] in rest;
        }
      }
    }
  }

  /** Is some live firing strictly between the two? */
  method Dominated(relation: Matrix, live: seq<bool>, predecessor: nat, index: nat) returns (dominated: bool)
    requires Square(relation, |live|) && predecessor < |live| && index < |live|
    ensures dominated <==> exists m: nat :: m < |live| && m != predecessor && m != index && live[m] &&
                                            Related(relation, predecessor, m) && Related(relation, m, index)
  {
    for middle := 0 to |live|
      invariant forall m: nat :: m < middle && m != predecessor && m != index && live[m] ==>
                  !(Related(relation, predecessor, m) && Related(relation, m, index))
    {
      if middle == predecessor || middle == index || !live[middle] {
        continue;
      }
      if relation[predecessor][middle] && relation[middle][index] {
        assert Related(relation, predecessor, middle) && Related(relation, middle, index);
        return true;
      }
    }
    return false;
  }

  /** directNonEmptyMapPredecessors, and directArtifactMapPredecessors which repeats it. */
  method DirectPredecessors(index: nat, live: seq<bool>, relation: Matrix, keys: seq<Text>) returns (result: seq<nat>)
    requires Square(relation, |live|) && |keys| == |live| && index < |live|
    requires forall i: nat :: !Related(relation, i, i)
    ensures Ascending(keys, result)
    ensures forall p: nat :: p in result <==> Direct(relation, live, p, index)
  {
    result := [];
    if !live[index] {
      return;
    }
    for predecessor := 0 to |live|
      invariant Ascending(keys, result)
      invariant forall p: nat :: p in result <==> p < predecessor && Direct(relation, live, p, index)
    {
      if !live[predecessor] || !relation[predecessor][index] {
        continue;
      }
      var dominated := Dominated(relation, live, predecessor, index);
      if !dominated {
        InsertAscending(keys, predecessor, result);
        result := InsertByKey(keys, predecessor, result);
      }
    }
  }
}
