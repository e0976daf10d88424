/** An overload that fools the memoising checker (rapide_type.go): a verdict kept under a
    provisional pair outlives the refusal of that pair. */
module SubtypeOverloads {
  import opened Texts
  import opened Timings
  import opened Reachability
  import opened Descriptors
  import opened SubtypeChecker
  import opened SubtypeLaws

  /** Interface 0 overloads f with 2 and 3, interface 1 wants f of type 4.  Checking 2 against 4
      needs 5 against 6, which leads back to 2 against 4, and then fails for want of y. */
  ghost function OverloadGraph(): Graph {
    [Interface([F(2), F(3)]),
     Interface([F(4)]),
     Interface([X(5)]),
     Interface([X(5), Y(7)]),
     Interface([X(6), Y(7)]),
     Interface([Z(2)]),
     Interface([Z(4)]),
     Library(FLOAT)]
  }

  ghost function F(typ: nat): Member { Named(102, Provides, typ) }
  ghost function X(typ: nat): Member { Named(120, Provides, typ) }
  ghost function Y(typ: nat): Member { Named(121, Provides, typ) }
  ghost function Z(typ: nat): Member { Named(122, Provides, typ) }

  // ----- The rules of object-only interfaces -----

  ghost predicate ObjectsOnly(ms: seq<Member>) {
    forall m :: m in ms ==> m.kind.ObjectMember? && m.region.Provides?
  }

  lemma {:induction false} OtherPassesEmpty(g: Graph, ss: seq<Member>, ts: seq<Member>, pass: Pass)
    requires ObjectsOnly(ts) && pass != Provided
    ensures Covers(g, ss, ts, pass) == []
  {
    if ts != [] {
      assert ts[0] in ts;
      OtherPassesEmpty(g, ss, ts[1..], pass);
    }
  }

  lemma {:induction false} NoRequirementsListed(ss: seq<Member>, ts: seq<Member>)
    requires ObjectsOnly(ss)
    ensures Requirements(ss, ts) == []
  {
    if ss != [] {
      assert ss[0] in ss;
      NoRequirementsListed(ss[1..], ts);
    }
  }

  lemma ObjectsRule(g: Graph, ss: seq<Member>, ts: seq<Member>)
    requires ObjectsOnly(ss) && ObjectsOnly(ts)
    ensures InterfaceRule(g, ss, ts) == All(Covers(g, ss, ts, Provided))
  {
    hide Covers, Requirements;
    OtherPassesEmpty(g, ss, ts, TypeNames);
    OtherPassesEmpty(g, ss, ts, Constructors);
    OtherPassesEmpty(g, ss, ts, Hidden);
    OtherPassesEmpty(g, ss, ts, Actions);
    NoRequirementsListed(ss, ts);
    assert [] + [] + Covers(g, ss, ts, Provided) + [] + [] + [] == Covers(g, ss, ts, Provided);
  }

  lemma NextTarget(g: Graph, ss: seq<Member>, t: Member, ts: seq<Member>)
    requires ObjectsOnly([t])
    ensures Covers(g, ss, [t] + ts, Provided) == [Any(Choices(g, ss, t))] + Covers(g, ss, ts, Provided)
  {
    hide Choices;
    assert t in [t] && ([t] + ts)[1..] == ts;
  }

  lemma LastTarget(g: Graph, ss: seq<Member>, t: Member)
    requires ObjectsOnly([t])
    ensures Covers(g, ss, [t], Provided) == [Any(Choices(g, ss, t))]
  {
    hide Choices;
    assert [t] + [] == [t];
    NextTarget(g, ss, t, []);
  }

  lemma OneTarget(g: Graph, ss: seq<Member>, t: Member)
    requires ObjectsOnly(ss) && ObjectsOnly([t])
    ensures InterfaceRule(g, ss, [t]) == All([Any(Choices(g, ss, t))])
  {
    hide Choices, InterfaceRule, Covers;
    ObjectsRule(g, ss, [t]);
    LastTarget(g, ss, t);
  }

  lemma TwoTargets(g: Graph, ss: seq<Member>, t: Member, u: Member)
    requires ObjectsOnly(ss) && ObjectsOnly([t, u])
    ensures InterfaceRule(g, ss, [t, u]) == All([Any(Choices(g, ss, t)), Any(Choices(g, ss, u))])
  {
    hide Choices, InterfaceRule, Covers;
    ObjectsRule(g, ss, [t, u]);
    assert t in [t, u] && u in [t, u] && [t] + [u] == [t, u];
    NextTarget(g, ss, t, [u]);
    LastTarget(g, ss, u);
    assert [Any(Choices(g, ss, t))] + [Any(Choices(g, ss, u))] == [Any(Choices(g, ss, t)), Any(Choices(g, ss, u))];
  }

  lemma OverloadNodes(g: Graph)
    requires g == OverloadGraph()
    ensures |g| == 8 && g[0] == Interface([F(2), F(3)]) && g[1] == Interface([F(4)]) && g[2] == Interface([X(5)])
    ensures g[3] == Interface([X(5), Y(7)]) && g[4] == Interface([X(6), Y(7)])
    ensures g[5] == Interface([Z(2)]) && g[6] == Interface([Z(4)]) && g[7] == Library(FLOAT)
  {}

  lemma FTarget(g: Graph)
    ensures InterfaceRule(g, [F(2), F(3)], [F(4)]) == All([Any([Goal(2, 4), Goal(3, 4)])])
  {
    hide InterfaceRule, Choices;
    OneTarget(g, [F(2), F(3)], F(4));
    TwoChoices(g, F(2), F(3), F(4));
    assert [Goal(2, 4)] + [Goal(3, 4)] == [Goal(2, 4), Goal(3, 4)];
  }

  lemma ZTarget(g: Graph)
    ensures InterfaceRule(g, [Z(2)], [Z(4)]) == All([Any([Goal(2, 4)])])
  {
    hide InterfaceRule, Choices;
    OneTarget(g, [Z(2)], Z(4));
    OneChoice(g, Z(2), Z(4));
  }

  lemma XYTarget(g: Graph)
    ensures InterfaceRule(g, [X(5)], [X(6), Y(7)]) == All([Any([Goal(5, 6)]), Any([])])
  {
    hide InterfaceRule, Choices;
    TwoTargets(g, [X(5)], X(6), Y(7));
    OneChoice(g, X(5), X(6));
    OneChoice(g, X(5), Y(7));
  }

  lemma XYBothTarget(g: Graph)
    ensures InterfaceRule(g, [X(5), Y(7)], [X(6), Y(7)]) == All([Any([Goal(5, 6)]), Any([Goal(7, 7)])])
  {
    hide InterfaceRule, Choices;
    TwoTargets(g, [X(5), Y(7)], X(6), Y(7));
    TwoChoices(g, X(5), Y(7), X(6));
    TwoChoices(g, X(5), Y(7), Y(7));
    assert [Goal(5, 6)] + [] == [Goal(5, 6)] && [] + [Goal(7, 7)] == [Goal(7, 7)];
  }

  /** What the five pairs that matter need. */
  lemma OverloadRules(g: Graph)
    requires g == OverloadGraph()
    ensures |g| == 8
    ensures Rule(g, 0, 1) == All([Any([Goal(2, 4), Goal(3, 4)])])
    ensures Rule(g, 2, 4) == All([Any([Goal(5, 6)]), Any([])])
    ensures Rule(g, 3, 4) == All([Any([Goal(5, 6)]), Any([Goal(7, 7)])])
    ensures Rule(g, 5, 6) == All([Any([Goal(2, 4)])])
    ensures Rule(g, 7, 7) == Constant(true)
  {
    hide OverloadGraph, InterfaceRule, F, X, Y, Z;
    OverloadNodes(g);
    FTarget(g);
    XYTarget(g);
    XYBothTarget(g);
    ZTarget(g);
  }

  lemma OneChoice(g: Graph, a: Member, t: Member)
    ensures Choices(g, [a], t) == if Candidate(a, t) then [MemberRule(g, a, t)] else []
  {
    assert [a][1..] == [] && Choices(g, [], t) == [];
  }

  lemma TwoChoices(g: Graph, a: Member, b: Member, t: Member)
    ensures Choices(g, [a, b], t) ==
            (if Candidate(a, t) then [MemberRule(g, a, t)] else []) + (if Candidate(b, t) then [MemberRule(g, b, t)] else [])
  {
    assert [a, b][1..] == [b] && [b][1..] == [];
    assert Choices(g, [b], t) == if Candidate(b, t) then [MemberRule(g, b, t)] else [];
  }

  // ----- The search on small formulas -----

  lemma AllOne(g: Graph, memo: Memo, f: Formula)
    ensures Check(g, memo, All([f])) == Check(g, memo, f)
  {
    var (holds, after) := Check(g, memo, f);
    assert [f][1..] == [] && CheckAll(g, after, []) == (true, after);
  }

  lemma AllTwo(g: Graph, memo: Memo, f: Formula, h: Formula)
    ensures var (holds, after) := Check(g, memo, f);
            Check(g, memo, All([f, h])) == if holds then Check(g, after, h) else (false, after)
  {
    var (holds, after) := Check(g, memo, f);
    assert [f, h][1..] == [h];
    AllOne(g, after, h);
  }

  lemma AnyOne(g: Graph, memo: Memo, f: Formula)
    ensures Check(g, memo, Any([f])) == Check(g, memo, f)
  {
    var (holds, after) := Check(g, memo, f);
    assert [f][1..] == [] && CheckAny(g, after, []) == (false, after);
  }

  lemma AnyTwo(g: Graph, memo: Memo, f: Formula, h: Formula)
    ensures var (holds, after) := Check(g, memo, f);
            Check(g, memo, Any([f, h])) == if holds then (true, after) else Check(g, after, h)
  {
    var (holds, after) := Check(g, memo, f);
    assert [f, h][1..] == [h];
    AnyOne(g, after, h);
  }

  lemma GoalOpens(g: Graph, memo: Memo, l: nat, r: nat)
    requires (l, r) !in memo && l < |g| && r < |g|
    ensures var (holds, after) := Check(g, memo[(l, r) := Visiting], Rule(g, l, r));
            Check(g, memo, Goal(l, r)) == (holds, after[(l, r) := if holds then Yes else No])
  {}

  /** Checking 2 against 4 refuses that pair but leaves 5 against 6 established. */
  lemma FirstOverload(g: Graph, memo: Memo)
    requires g == OverloadGraph() && (2, 4) !in memo && (5, 6) !in memo
    ensures Check(g, memo, Goal(2, 4)) == (false, memo[(2, 4) := Visiting][(5, 6) := Yes][(2, 4) := No])
  {
    hide Rule, Check;
    OverloadRules(g);
    var m1 := memo[(2, 4) := Visiting];
    var m2 := m1[(5, 6) := Visiting];
    GoalOpens(g, memo, 2, 4);
    AllTwo(g, m1, Any([Goal(5, 6)]), Any([]));
    AnyOne(g, m1, Goal(5, 6));
    GoalOpens(g, m1, 5, 6);
    AllOne(g, m2, Any([Goal(2, 4)]));
    AnyOne(g, m2, Goal(2, 4));
    GoalKnown(g, m2, 2, 4);
    var m3 := m2[(5, 6) := Yes];
    assert Check(g, m1, Goal(5, 6)) == (true, m3);
    AnyNone(g, m3);
    assert m3[(2, 4) := No] == memo[(2, 4) := Visiting][(5, 6) := Yes][(2, 4) := No];
  }

  lemma GoalKnown(g: Graph, memo: Memo, l: nat, r: nat)
    requires (l, r) in memo
    ensures Check(g, memo, Goal(l, r)) == (!memo[(l, r)].No?, memo)
  {}

  lemma AnyNone(g: Graph, memo: Memo)
    ensures Check(g, memo, Any([])) == (false, memo)
  {}

  /** The second overload then leans on the stale verdict and is accepted. */
  lemma SecondOverload(g: Graph, memo: Memo)
    requires g == OverloadGraph() && (3, 4) !in memo && (7, 7) !in memo && (5, 6) in memo && memo[(5, 6)].Yes?
    ensures Check(g, memo, Goal(3, 4)).0
  {
    hide Rule, Check;
    OverloadRules(g);
    var m1 := memo[(3, 4) := Visiting];
    GoalOpens(g, memo, 3, 4);
    AllTwo(g, m1, Any([Goal(5, 6)]), Any([Goal(7, 7)]));
    AnyOne(g, m1, Goal(5, 6));
    GoalKnown(g, m1, 5, 6);
    AnyOne(g, m1, Goal(7, 7));
    GoalOpens(g, m1, 7, 7);
    assert Check(g, m1[(7, 7) := Visiting], Constant(true)).0 by { TrueChecks(g, m1[(7, 7) := Visiting]); }
  }

  lemma TrueChecks(g: Graph, memo: Memo)
    ensures Check(g, memo, Constant(true)) == (true, memo)
  {}

  lemma NotReallySubtype(g: Graph)
    requires g == OverloadGraph()
    ensures !IsSubtype(g, 0, 1)
  {
    hide Rule;
    OverloadRules(g);
    forall s: iset<Pair> | (0, 1) in s ensures !PostFixed(g, s) {
      var goals := [Goal(2, 4), Goal(3, 4)];
      assert Sem(Rule(g, 0, 1), s) ==> Sem(Any(goals), s) by { OnePart(Any(goals), s); }
      assert Sem(Any(goals), s) ==> (2, 4) in s || (3, 4) in s;
      assert !Sem(Rule(g, 2, 4), s) by { TwoParts(Any([Goal(5, 6)]), Any([]), s); }
      assert Sem(Rule(g, 3, 4), s) ==> (5, 6) in s by {
        TwoParts(Any([Goal(5, 6)]), Any([Goal(7, 7)]), s);
        OneOf(5, 6, s);
      }
      assert Sem(Rule(g, 5, 6), s) ==> (2, 4) in s by {
        OnePart(Any([Goal(2, 4)]), s);
        OneOf(2, 4, s);
      }
    }
  }

  lemma OnePart(f: Formula, s: iset<Pair>)
    ensures Sem(All([f]), s) ==> Sem(f, s)
  {
    var fs := [f];
    if Sem(All(fs), s) {
      AllAt(fs, s, 0);
    }
  }

  lemma TwoParts(f: Formula, h: Formula, s: iset<Pair>)
    ensures Sem(All([f, h]), s) ==> Sem(f, s) && Sem(h, s)
  {
    var fs := [f, h];
    if Sem(All(fs), s) {
      AllAt(fs, s, 0);
      AllAt(fs, s, 1);
    }
  }

  lemma OneOf(l: nat, r: nat, s: iset<Pair>)
    ensures Sem(Any([Goal(l, r)]), s) ==> (l, r) in s
  {
    var fs := [Goal(l, r)];
    if Sem(Any(fs), s) {
      var f := AnyGives(fs, s);
    }
  }

  /** With overloads that lead into a cycle of goals a true answer can be wrong. */
  lemma OverloadsFoolTheChecker()
    ensures var g := OverloadGraph(); Check(g, map[], Goal(0, 1)).0 && !IsSubtype(g, 0, 1) && !OverloadFree(g) && !GroundedOverloads(g)
  {
    hide Rule, Check, IsSubtype, GroundedOverloads;
    var g := OverloadGraph();
    OverloadRules(g);
    var memo: Memo := map[(0, 1) := Visiting];
    GoalOpens(g, map[], 0, 1);
    assert map[][(0, 1) := Visiting] == memo;
    AllOne(g, memo, Any([Goal(2, 4), Goal(3, 4)]));
    AnyTwo(g, memo, Goal(2, 4), Goal(3, 4));
    FirstOverload(g, memo);
    SecondOverload(g, Check(g, memo, Goal(2, 4)).1);
    NotReallySubtype(g);
    CheckerDecides(g, 0, 1);
    assert !DistinctMembers(g[0].members) by {
      assert g[0].members[0].name == g[0].members[1].name;
    }
    assert !OverloadFree(g) by {
      assert g[0].Interface?;
    }
  }
}
