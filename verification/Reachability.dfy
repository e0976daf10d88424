/** Reachability in finite directed graphs.

    The causal order, the firing order of a map and the augmented computation are all
    finite graphs whose breadth-first searches and topological passes rest on the facts
    proved here.  `Reach` is the reflexive-transitive closure, stated as membership in
    every set closed under edges; `ReachIffPath` ties it to explicit paths. */
module Reachability {

  ghost predicate Closed<T(!new)>(edges: set<(T, T)>, s: iset<T>) {
    forall a, b :: (a, b) in edges && a in s ==> b in s
  }

  ghost predicate Reach<T(!new)>(edges: set<(T, T)>, a: T, b: T) {
    forall s: iset<T> :: a in s && Closed(edges, s) ==> b in s
  }

  ghost predicate Acyclic<T(!new)>(edges: set<(T, T)>) {
    forall a, b :: (a, b) in edges ==> !Reach(edges, b, a)
  }

  ghost function Reversed<T(!new)>(edges: set<(T, T)>): set<(T, T)> {
    set e | e in edges :: (e.1, e.0)
  }

  // ----- Paths -----

  ghost predicate IsPath<T(!new)>(edges: set<(T, T)>, p: seq<T>) {
    |p| > 0 && forall i :: 0 < i < |p| ==> (p[i - 1], p[i]) in edges
  }

  ghost predicate PathBetween<T(!new)>(edges: set<(T, T)>, p: seq<T>, a: T, b: T) {
    IsPath(edges, p) && p[0] == a && p[|p| - 1] == b
  }

  ghost predicate HasPath<T(!new)>(edges: set<(T, T)>, a: T, b: T) {
    exists p :: PathBetween(edges, p, a, b)
  }

  lemma {:induction false} PathReaches<T(!new)>(edges: set<(T, T)>, p: seq<T>, a: T, b: T)
    requires PathBetween(edges, p, a, b)
    ensures Reach(edges, a, b)
  {
    if |p| > 1 {
      var q := p[..|p| - 1];
      assert IsPath(edges, q) by {
        forall i | 0 < i < |q| ensures (q[i - 1], q[i]) in edges {
          assert (p[i - 1], p[i]) in edges;
        }
      }
      PathReaches(edges, q, a, q[|q| - 1]);
      ReachStep(edges, a, q[|q| - 1], b);
    }
  }

  lemma ReachHasPath<T(!new)>(edges: set<(T, T)>, a: T, b: T) returns (p: seq<T>)
    requires Reach(edges, a, b)
    ensures PathBetween(edges, p, a, b)
  {
    var s := iset x | HasPath(edges, a, x);
    assert PathBetween(edges, [a], a, a);
    forall x, y | (x, y) in edges && x in s ensures y in s {
      var q :| PathBetween(edges, q, a, x);
      var r := q + [y];
      forall i | 0 < i < |r| ensures (r[i - 1], r[i]) in edges {
        if i < |q| {
          assert (q[i - 1], q[i]) in edges;
        }
      }
      assert PathBetween(edges, r, a, y);
    }
    ReachWithin(edges, a, b, s);
    p :| PathBetween(edges, p, a, b);
  }

  /** The closure used throughout is the usual one: some path leads from a to b. */
  lemma ReachIffPath<T(!new)>(edges: set<(T, T)>, a: T, b: T)
    ensures Reach(edges, a, b) <==> HasPath(edges, a, b)
  {
    if Reach(edges, a, b) {
      var p := ReachHasPath(edges, a, b);
    }
    forall p | PathBetween(edges, p, a, b) ensures Reach(edges, a, b) {
      PathReaches(edges, p, a, b);
    }
  }

  // ----- Closure laws -----

  lemma ReachWithin<T(!new)>(edges: set<(T, T)>, a: T, b: T, s: iset<T>)
    requires Reach(edges, a, b) && a in s && Closed(edges, s)
    ensures b in s
  {}

  lemma ReachItself<T(!new)>(edges: set<(T, T)>, a: T)
    ensures Reach(edges, a, a)
  {}

  lemma ReachStep<T(!new)>(edges: set<(T, T)>, a: T, b: T, c: T)
    requires Reach(edges, a, b) && (b, c) in edges
    ensures Reach(edges, a, c)
  {}

  lemma ReachTrans<T(!new)>(edges: set<(T, T)>, a: T, b: T, c: T)
    requires Reach(edges, a, b) && Reach(edges, b, c)
    ensures Reach(edges, a, c)
  {}

  lemma ReachMono<T(!new)>(small: set<(T, T)>, large: set<(T, T)>, a: T, b: T)
    requires small <= large && Reach(small, a, b)
    ensures Reach(large, a, b)
  {
    forall s: iset<T> | a in s && Closed(large, s) ensures b in s {
      assert Closed(small, s);
    }
  }

  ghost predicate LeavesBy<T(!new)>(edges: set<(T, T)>, a: T, b: T) {
    exists c :: (a, c) in edges && Reach(edges, c, b)
  }

  ghost predicate ArrivesBy<T(!new)>(edges: set<(T, T)>, a: T, b: T) {
    exists c :: Reach(edges, a, c) && (c, b) in edges
  }

  /** A nontrivial journey has a first and a last edge. */
  lemma ReachFirst<T(!new)>(edges: set<(T, T)>, a: T, b: T) returns (c: T)
    requires Reach(edges, a, b) && a != b
    ensures (a, c) in edges && Reach(edges, c, b)
  {
    var s := iset x | x == a || LeavesBy(edges, a, x);
    forall x, y | (x, y) in edges && x in s ensures y in s {
      if x == a {
        assert Reach(edges, y, y);
      } else {
        var c :| (a, c) in edges && Reach(edges, c, x);
        ReachStep(edges, c, x, y);
      }
    }
    ReachWithin(edges, a, b, s);
    c :| (a, c) in edges && Reach(edges, c, b);
  }

  lemma ReachLast<T(!new)>(edges: set<(T, T)>, a: T, b: T) returns (c: T)
    requires Reach(edges, a, b) && a != b
    ensures Reach(edges, a, c) && (c, b) in edges
  {
    var s := iset x | x == a || ArrivesBy(edges, a, x);
    forall x, y | (x, y) in edges && x in s ensures y in s {
      if x == a {
        assert Reach(edges, a, a);
      } else {
        var c :| Reach(edges, a, c) && (c, x) in edges;
        ReachStep(edges, a, c, x);
      }
    }
    ReachWithin(edges, a, b, s);
    c :| Reach(edges, a, c) && (c, b) in edges;
  }

  lemma ReachAntisymmetric<T(!new)>(edges: set<(T, T)>, a: T, b: T)
    requires Acyclic(edges) && Reach(edges, a, b) && Reach(edges, b, a)
    ensures a == b
  {
    if a != b {
      var c := ReachFirst(edges, a, b);
      ReachTrans(edges, c, b, a);
    }
  }

  lemma ReachReversed<T(!new)>(edges: set<(T, T)>, a: T, b: T)
    ensures Reach(Reversed(edges), a, b) <==> Reach(edges, b, a)
  {
    if Reach(edges, b, a) {
      ReachReversedOneWay(edges, b, a);
    }
    if Reach(Reversed(edges), a, b) {
      ReachReversedOneWay(Reversed(edges), a, b);
      assert Reversed(Reversed(edges)) == edges by {
        forall a, b | (a, b) in edges ensures (a, b) in Reversed(Reversed(edges)) {
          assert (b, a) in Reversed(edges);
        }
      }
    }
  }

  lemma ReachReversedOneWay<T(!new)>(edges: set<(T, T)>, a: T, b: T)
    requires Reach(edges, a, b)
    ensures Reach(Reversed(edges), b, a)
  {
    var back := Reversed(edges);
    var s := iset x | Reach(back, x, a);
    forall x, y | (x, y) in edges && x in s ensures y in s {
      assert (y, x) in back;
      assert Reach(back, y, y);
      ReachStep(back, y, y, x);
      ReachTrans(back, y, x, a);
    }
    ReachWithin(edges, a, b, s);
  }

  // ----- Finite acyclic graphs -----

  /** Every nonempty finite set of nodes has a member no other member leads to. */
  lemma {:induction false} SourceExists<T(!new)>(edges: set<(T, T)>, nodes: set<T>) returns (source: T)
    requires Acyclic(edges) && nodes != {}
    ensures source in nodes && forall x :: x in nodes && Reach(edges, x, source) ==> x == source
    decreases |nodes|
  {
    var u :| u in nodes;
    var below := set x | x in nodes && Reach(edges, x, u) && x != u;
    if below == {} {
      source := u;
      forall x | x in nodes && Reach(edges, x, u) ensures x == u {
        assert x in below || x == u;
      }
    } else {
      assert below <= nodes - {u};
      StrictSubsetSmaller(below, nodes, u);
      source := SourceExists(edges, below);
      forall x | x in nodes && Reach(edges, x, source) ensures x == source {
        ReachTrans(edges, x, source, u);
        if x == u {
          ReachAntisymmetric(edges, source, u);
        }
      }
    }
  }

  lemma StrictSubsetSmaller<T>(small: set<T>, large: set<T>, extra: T)
    requires small <= large && extra in large && extra !in small
    ensures |small| < |large|
  {
    SubsetNotLarger(small, large - {extra});
  }

  lemma {:induction false} SubsetNotLarger<T>(small: set<T>, large: set<T>)
    requires small <= large
    ensures |small| <= |large|
  {
    if small != {} {
      var x :| x in small;
      SubsetNotLarger(small - {x}, large - {x});
    }
  }

  // ----- Kahn's pass -----

  /** The predecessors of x not yet visited. */
  function Open<T>(edges: set<(T, T)>, visited: set<T>, x: T): set<T> {
    set e | e in edges && e.1 == x && e.0 !in visited :: e.0
  }

  lemma OpenAfterVisit<T>(edges: set<(T, T)>, visited: set<T>, current: T, x: T)
    requires current !in visited
    ensures |Open(edges, visited + {current}, x)| ==
            |Open(edges, visited, x)| - if (current, x) in edges then 1 else 0
  {
    var before, after := Open(edges, visited, x), Open(edges, visited + {current}, x);
    if (current, x) in edges {
      assert (current, x).0 == current && (current, x).1 == x;
      assert before == after + {current};
      assert current !in after;
    } else {
      assert before == after by {
        forall a | a in before ensures a in after {
          var e :| e in edges && e.1 == x && e.0 !in visited && e.0 == a;
          assert e == (a, x);
        }
      }
    }
  }

  lemma OpenEmpty<T>(edges: set<(T, T)>, visited: set<T>, x: T)
    ensures Open(edges, visited, x) == {} <==> forall a :: (a, x) in edges ==> a in visited
  {
    forall a | (a, x) in edges && a !in visited ensures Open(edges, visited, x) != {} {
      assert (a, x).0 == a && (a, x).1 == x;
      assert a in Open(edges, visited, x);
    }
  }

  /** In an acyclic graph some unvisited node has only visited predecessors. */
  lemma KahnProgress<T(!new)>(edges: set<(T, T)>, nodes: set<T>, visited: set<T>) returns (x: T)
    requires Acyclic(edges) && visited <= nodes && visited != nodes
    requires forall a, b :: (a, b) in edges ==> a in nodes
    ensures x in nodes && x !in visited && Open(edges, visited, x) == {}
  {
    assert nodes == visited + (nodes - visited);
    x := SourceExists(edges, nodes - visited);
    forall a | (a, x) in edges ensures a in visited {
      assert Reach(edges, a, a);
      ReachStep(edges, a, a, x);
      assert a == x ==> !Reach(edges, x, a);
    }
    OpenEmpty(edges, visited, x);
  }

  /** A listing in which every node follows all its predecessors proves the graph acyclic. */
  ghost predicate ListsTopologically<T(!new)>(edges: set<(T, T)>, listing: seq<T>) {
    forall i, j :: 0 <= i < |listing| && 0 <= j < |listing| && (listing[i], listing[j]) in edges ==> i < j
  }

  // ----- Chains -----

  /** d is the number of nodes on a longest chain ending at x. */
  ghost predicate IsDepth<T(!new)>(edges: set<(T, T)>, x: T, d: nat) {
    && (exists p :: IsPath(edges, p) && p[|p| - 1] == x && |p| == d)
    && (forall p :: IsPath(edges, p) && p[|p| - 1] == x ==> |p| <= d)
  }

  lemma IsDepthUnique<T(!new)>(edges: set<(T, T)>, x: T, d: nat, e: nat)
    requires IsDepth(edges, x, d) && IsDepth(edges, x, e)
    ensures d == e
  {
    var p :| IsPath(edges, p) && p[|p| - 1] == x && |p| == d;
    var q :| IsPath(edges, q) && q[|q| - 1] == x && |q| == e;
  }

  /** One more than the deepest predecessor, or one without any. */
  lemma DepthStep<T(!new)>(edges: set<(T, T)>, depths: map<T, nat>, x: T, d: nat)
    requires forall a :: (a, x) in edges ==> a in depths && IsDepth(edges, a, depths[a]) && depths[a] + 1 <= d
    requires (d == 1) || exists a :: (a, x) in edges && depths[a] + 1 == d
    requires d >= 1
    ensures IsDepth(edges, x, d)
  {
    if d == 1 {
      assert IsPath(edges, [x]) && [x][0] == x;
    } else {
      var a :| (a, x) in edges && depths[a] + 1 == d;
      var p :| IsPath(edges, p) && p[|p| - 1] == a && |p| == depths[a];
      var q := p + [x];
      forall i | 0 < i < |q| ensures (q[i - 1], q[i]) in edges {
        if i < |p| {
          assert (p[i - 1], p[i]) in edges;
        }
      }
      assert IsPath(edges, q) && q[|q| - 1] == x && |q| == d;
    }
    forall p | IsPath(edges, p) && p[|p| - 1] == x ensures |p| <= d {
      if |p| > 1 {
        var q := p[..|p| - 1];
        forall i | 0 < i < |q| ensures (q[i - 1], q[i]) in edges {
          assert (p[i - 1], p[i]) in edges;
        }
        assert (p[|p| - 2], p[|p| - 1]) in edges;
        assert IsPath(edges, q) && q[|q| - 1] == p[|p| - 2];
      }
    }
  }

  // ----- One new edge -----

  /** Adding an edge orders exactly the pairs that can use it. */
  lemma ReachWithEdge<T(!new)>(edges: set<(T, T)>, from: T, to: T, a: T, b: T)
    ensures Reach(edges + {(from, to)}, a, b) <==>
            Reach(edges, a, b) || (Reach(edges, a, from) && Reach(edges, to, b))
  {
    var grown := edges + {(from, to)};
    if Reach(grown, a, b) {
      var s := iset x | Reach(edges, a, x) || (Reach(edges, a, from) && Reach(edges, to, x));
      assert Reach(edges, a, a);
      forall x, y | (x, y) in grown && x in s ensures y in s {
        assert Reach(edges, to, to);
        if (x, y) in edges {
          if Reach(edges, a, x) {
            ReachStep(edges, a, x, y);
          } else {
            ReachStep(edges, to, x, y);
          }
        }
      }
      ReachWithin(grown, a, b, s);
    }
    if Reach(edges, a, b) {
      ReachMono(edges, grown, a, b);
    }
    if Reach(edges, a, from) && Reach(edges, to, b) {
      ReachMono(edges, grown, a, from);
      ReachMono(edges, grown, to, b);
      ReachStep(grown, a, from, to);
      ReachTrans(grown, a, to, b);
    }
  }

  lemma AcyclicWithEdge<T(!new)>(edges: set<(T, T)>, from: T, to: T)
    requires Acyclic(edges)
    ensures Acyclic(edges + {(from, to)}) <==> !Reach(edges, to, from)
  {
    var grown := edges + {(from, to)};
    if Reach(edges, to, from) {
      ReachMono(edges, grown, to, from);
      assert (from, to) in grown;
    } else {
      forall a, b | (a, b) in grown ensures !Reach(grown, b, a) {
        ReachWithEdge(edges, from, to, b, a);
        if (a, b) in edges && Reach(edges, b, from) && Reach(edges, to, a) {
          ReachStep(edges, to, a, b);
          ReachTrans(edges, to, b, from);
        }
      }
    }
  }

  // ----- A new sink -----

  /** `sink` is isolated in `edges`, and every extra edge leads to it from elsewhere. */
  ghost predicate NewSink<T(!new)>(edges: set<(T, T)>, extra: set<(T, T)>, sink: T) {
    && (forall a, b :: (a, b) in edges ==> a != sink && b != sink)
    && (forall a, b :: (a, b) in extra ==> a != sink && b == sink)
  }

  ghost predicate FeedsSink<T(!new)>(edges: set<(T, T)>, extra: set<(T, T)>, a: T) {
    exists c, d :: (c, d) in extra && Reach(edges, a, c)
  }

  lemma ReachWithSink<T(!new)>(edges: set<(T, T)>, extra: set<(T, T)>, sink: T, a: T, b: T)
    requires NewSink(edges, extra, sink)
    ensures b != sink ==> (Reach(edges + extra, a, b) <==> Reach(edges, a, b))
    ensures a == sink ==> (Reach(edges + extra, a, b) <==> a == b)
    ensures a != sink ==> (Reach(edges + extra, a, sink) <==> FeedsSink(edges, extra, a))
  {
    var all := edges + extra;
    if Reach(all, a, b) {
      ReachWithin(all, a, b, iset x | x == sink || Reach(edges, a, x));
      if a == sink {
        ReachWithin(all, a, b, iset{sink});
      }
    }
    if Reach(edges, a, b) {
      ReachMono(edges, all, a, b);
    }
    if a != sink && Reach(all, a, sink) {
      var c := ReachLast(all, a, sink);
      ReachWithin(all, a, c, iset x | x == sink || Reach(edges, a, x));
      assert (c, sink) in extra;
    }
    if FeedsSink(edges, extra, a) {
      var c, d :| (c, d) in extra && Reach(edges, a, c);
      ReachMono(edges, all, a, c);
      ReachStep(all, a, c, d);
    }
  }

  lemma AcyclicWithSink<T(!new)>(edges: set<(T, T)>, extra: set<(T, T)>, sink: T)
    requires NewSink(edges, extra, sink) && Acyclic(edges)
    ensures Acyclic(edges + extra)
  {
    forall a, b | (a, b) in edges + extra ensures !Reach(edges + extra, b, a) {
      ReachWithSink(edges, extra, sink, b, a);
    }
  }

  // ----- Identifying nodes -----

  /** The image of a graph under a renaming of its nodes, loops dropped. */
  ghost function Image<T(!new)>(edges: set<(T, T)>, f: map<T, T>): set<(T, T)> {
    set e | e in edges && Apply(f, e.0) != Apply(f, e.1) :: (Apply(f, e.0), Apply(f, e.1))
  }

  function Apply<T>(f: map<T, T>, x: T): T {
    if x in f then f[x] else x
  }

  lemma ImageEdge<T(!new)>(edges: set<(T, T)>, f: map<T, T>, a: T, b: T)
    requires (a, b) in edges && Apply(f, a) != Apply(f, b)
    ensures (Apply(f, a), Apply(f, b)) in Image(edges, f)
  {
    assert (a, b).0 == a && (a, b).1 == b;
  }

  ghost predicate Unordered<T(!new)>(edges: set<(T, T)>, merged: set<T>) {
    forall r, s :: r in merged && s in merged && r != s ==> !Reach(edges, r, s)
  }

  /** `f` sends every merged node to one of them and fixes all others. */
  ghost predicate Collapses<T(!new)>(f: map<T, T>, merged: set<T>, onto: T) {
    onto in merged && forall x :: Apply(f, x) == if x in merged then onto else x
  }

  ghost predicate Joined<T(!new)>(edges: set<(T, T)>, merged: set<T>, a: T, b: T) {
    exists r, s :: r in merged && s in merged && Reach(edges, a, r) && Reach(edges, s, b)
  }

  /** Collapsing a set of nodes orders exactly the pairs already ordered and those
      that can pass through the collapsed node. */
  lemma ReachCollapsed<T(!new)>(edges: set<(T, T)>, f: map<T, T>, merged: set<T>, onto: T, a: T, b: T)
    requires Collapses(f, merged, onto)
    ensures Reach(Image(edges, f), Apply(f, a), Apply(f, b)) <==>
            Reach(edges, a, b) || Joined(edges, merged, a, b)
  {
    var image := Image(edges, f);
    if Reach(image, Apply(f, a), Apply(f, b)) {
      CollapsedOnlyIf(edges, f, merged, onto, a, b);
    }
    if Reach(edges, a, b) {
      ImageReach(edges, f, a, b);
    }
    if Joined(edges, merged, a, b) {
      var r, s :| r in merged && s in merged && Reach(edges, a, r) && Reach(edges, s, b);
      ImageReach(edges, f, a, r);
      ImageReach(edges, f, s, b);
      assert Apply(f, r) == Apply(f, s);
      ReachTrans(image, Apply(f, a), Apply(f, r), Apply(f, b));
    }
  }

  lemma ImageReach<T(!new)>(edges: set<(T, T)>, f: map<T, T>, a: T, b: T)
    requires Reach(edges, a, b)
    ensures Reach(Image(edges, f), Apply(f, a), Apply(f, b))
  {
    var image := Image(edges, f);
    var s := iset x | Reach(image, Apply(f, a), Apply(f, x));
    forall x, y | (x, y) in edges && x in s ensures y in s {
      if Apply(f, x) != Apply(f, y) {
        assert (x, y) in edges;
        assert (Apply(f, x), Apply(f, y)) in image;
        ReachStep(image, Apply(f, a), Apply(f, x), Apply(f, y));
      }
    }
    ReachWithin(edges, a, b, s);
  }

  ghost predicate FibreOrdered<T(!new)>(edges: set<(T, T)>, f: map<T, T>, merged: set<T>, a: T, z: T) {
    forall x :: Apply(f, x) == z ==> Reach(edges, a, x) || Joined(edges, merged, a, x)
  }

  lemma CollapsedOnlyIf<T(!new)>(edges: set<(T, T)>, f: map<T, T>, merged: set<T>, onto: T, a: T, b: T)
    requires Collapses(f, merged, onto)
    requires Reach(Image(edges, f), Apply(f, a), Apply(f, b))
    ensures Reach(edges, a, b) || Joined(edges, merged, a, b)
  {
    var image := Image(edges, f);
    var s := iset z | FibreOrdered(edges, f, merged, a, z);
    assert Apply(f, a) in s by {
      forall x | Apply(f, x) == Apply(f, a) ensures Reach(edges, a, x) || Joined(edges, merged, a, x) {
        if x != a {
          assert x in merged && a in merged;
          assert Reach(edges, a, a) && Reach(edges, x, x);
        }
      }
    }
    forall u, v | (u, v) in image && u in s ensures v in s {
      var e :| e in edges && Apply(f, e.0) == u && Apply(f, e.1) == v;
      var (p, q) := e;
      StepAlong(edges, merged, a, p, q);
      forall x | Apply(f, x) == v ensures Reach(edges, a, x) || Joined(edges, merged, a, x) {
        if x != q {
          assert x in merged && q in merged;
          assert Reach(edges, x, x);
          if Reach(edges, a, q) {
            assert Joined(edges, merged, a, x);
          } else {
            var r, t :| r in merged && t in merged && Reach(edges, a, r) && Reach(edges, t, q);
            assert Joined(edges, merged, a, x);
          }
        }
      }
    }
    ReachWithin(image, Apply(f, a), Apply(f, b), s);
  }

  lemma StepAlong<T(!new)>(edges: set<(T, T)>, merged: set<T>, a: T, p: T, q: T)
    requires (p, q) in edges
    requires Reach(edges, a, p) || Joined(edges, merged, a, p)
    ensures Reach(edges, a, q) || Joined(edges, merged, a, q)
  {
    if Reach(edges, a, p) {
      ReachStep(edges, a, p, q);
    } else {
      var r, t :| r in merged && t in merged && Reach(edges, a, r) && Reach(edges, t, p);
      ReachStep(edges, t, p, q);
    }
  }

  /** Identifying pairwise unordered nodes creates no cycle. */
  lemma AcyclicCollapsed<T(!new)>(edges: set<(T, T)>, f: map<T, T>, merged: set<T>, onto: T)
    requires Acyclic(edges) && Collapses(f, merged, onto) && Unordered(edges, merged)
    ensures Acyclic(Image(edges, f))
  {
    var image := Image(edges, f);
    forall u, v | (u, v) in image ensures !Reach(image, v, u) {
      var e :| e in edges && Apply(f, e.0) == u && Apply(f, e.1) == v;
      var (p, q) := e;
      if Reach(image, v, u) {
        CollapsedOnlyIf(edges, f, merged, onto, q, p);
        if Joined(edges, merged, q, p) {
          var r, s :| r in merged && s in merged && Reach(edges, q, r) && Reach(edges, s, p);
          ReachStep(edges, s, p, q);
          ReachTrans(edges, s, q, r);
          assert s == r;
          ReachTrans(edges, q, s, p);
        }
      }
    }
  }
}
