/** Laws of the subtype relation (rapide_type.go): reflexive always, transitive exactly when
    three gaps around requirements and defaults are absent, and concrete graphs that have one. */
module SubtypeLaws {
  import opened Texts
  import opened Timings
  import opened Reachability
  import opened Descriptors
  import opened SubtypeChecker

  // ----- Well-formed graphs -----

  ghost predicate WellFormedMember(g: Graph, m: Member) {
    match m.kind
    case TypeName => m.spec.AnyDenotation? || m.typ.Some?
    case TypeConstructor => m.typ.Some? && (m.spec.AnyDenotation? || m.result.Some?)
    case _ => m.typ.Some?
  }

  ghost predicate WellFormedParameter(p: Parameter) {
    p.name != [] && (p.kind.ObjectParameter? ==> p.typ.Some?)
  }

  /** What the descriptor constructors guarantee of one node. */
  ghost predicate WellFormedNode(g: Graph, n: Node) {
    match n
    case Function(ps, r) => r < |g| && forall p :: p in ps ==> WellFormedParameter(p) && (p.typ.Some? ==> p.typ.value < |g|)
    case Event(fs) => forall f :: f in fs ==> f.typ < |g|
    case Interface(ms) =>
      forall m :: m in ms ==>
        && WellFormedMember(g, m)
        && (m.typ.Some? ==> m.typ.value < |g|) && (m.result.Some? ==> m.result.value < |g|)
        && (m.region.Requires? ==> IsObjectLike(m))
    case _ => true
  }

  ghost predicate WellFormed(g: Graph) {
    forall n :: 0 <= n < |g| ==> WellFormedNode(g, g[n])
  }

  // ----- Reflexivity -----

  ghost function Diagonal(g: Graph): iset<Pair> {
    iset l: nat | l < |g| :: (l, l)
  }

  lemma SameGoal(g: Graph, t: Option<nat>)
    requires t.Some? && t.value < |g|
    ensures Sem(OptionalGoal(t, t), Diagonal(g)) && Sem(BothWays(t, t), Diagonal(g))
  {
    assert (t.value, t.value) in Diagonal(g);
  }

  lemma SameConstructorReflexive(g: Graph, m: Member)
    requires WellFormed(g) && m.result.Some? && m.result.value < |g|
    ensures Sem(SameConstructors(g, m, m), Diagonal(g))
  {
    var ps := ParametersOf(g, m.typ);
    var fs := SameParameters(ps, ps) + [BothWays(m.result, m.result)];
    SameGoal(g, m.result);
    forall i | 0 <= i < |fs| ensures Sem(fs[i], Diagonal(g)) {
      if i < |ps| {
        assert ps[i] in ps && WellFormedNode(g, g[m.typ.value]);
        if ps[i].typ.Some? {
          SameGoal(g, ps[i].typ);
        }
      }
    }
  }

  lemma MemberReflexive(g: Graph, ms: seq<Member>, m: Member)
    requires WellFormed(g) && Interface(ms) in g && m in ms
    ensures Sem(MemberRule(g, m, m), Diagonal(g))
  {
    hide WellFormed, SameConstructors;
    assert WellFormedNode(g, Interface(ms)) by { NodeOf(g, Interface(ms)); }
    if m.typ.Some? {
      SameGoal(g, m.typ);
    }
    if m.kind.TypeConstructor? && !m.spec.AnyDenotation? {
      SameGoal(g, m.result);
      SameConstructorReflexive(g, m);
    }
  }

  lemma NodeOf(g: Graph, n: Node)
    requires WellFormed(g) && n in g
    ensures WellFormedNode(g, n)
  {
    var i :| 0 <= i < |g| && g[i] == n;
  }

  lemma ChosenHolds(fs: seq<Formula>, f: Formula, s: iset<Pair>)
    requires f in fs && Sem(f, s)
    ensures Sem(Any(fs), s)
  {
    var i :| 0 <= i < |fs| && fs[i] == f;
  }

  lemma CoverReflexive(g: Graph, ms: seq<Member>, t: Member, pass: Pass)
    requires WellFormed(g) && Interface(ms) in g && t in ms && InPass(t, pass)
    ensures Sem(Any(Choices(g, ms, t)), Diagonal(g))
  {
    hide WellFormed, MemberRule, Sem, Choices, Candidate;
    MemberReflexive(g, ms, t);
    assert t.region.Provides? || t.region.Private? || t.kind.ActionMember? by {
      NodeOf(g, Interface(ms));
      assert WellFormedNode(g, Interface(ms));
    }
    ItsOwnCandidate(g, ms, t);
    ChosenHolds(Choices(g, ms, t), MemberRule(g, t, t), Diagonal(g));
  }

  lemma ItsOwnCandidate(g: Graph, ms: seq<Member>, t: Member)
    requires t in ms && (t.region.Provides? || t.region.Private? || t.kind.ActionMember?)
    ensures MemberRule(g, t, t) in Choices(g, ms, t)
  {
    hide MemberRule;
    assert Candidate(t, t);
  }

  lemma CoversReflexive(g: Graph, ms: seq<Member>, pass: Pass)
    requires WellFormed(g) && Interface(ms) in g
    ensures forall f :: f in Covers(g, ms, ms, pass) ==> Sem(f, Diagonal(g))
  {
    hide WellFormed, MemberRule, Sem, Choices, InPass, Covers;
    forall f | f in Covers(g, ms, ms, pass) ensures Sem(f, Diagonal(g)) {
      var t :| t in ms && InPass(t, pass) && f == Any(Choices(g, ms, t));
      CoverReflexive(g, ms, t, pass);
    }
  }

  lemma RequirementReflexive(g: Graph, ms: seq<Member>, s: Member)
    requires WellFormed(g) && Interface(ms) in g && s in ms && IsRequirement(s)
    ensures Sem(Any(RequirementChoices(s, ms)), Diagonal(g))
  {
    hide WellFormed, Sem;
    NodeOf(g, Interface(ms));
    SameGoal(g, s.typ);
    ChosenHolds(RequirementChoices(s, ms), OptionalGoal(s.typ, s.typ), Diagonal(g));
  }

  lemma RequirementsReflexive(g: Graph, ms: seq<Member>)
    requires WellFormed(g) && Interface(ms) in g
    ensures forall f :: f in Requirements(ms, ms) ==> Sem(f, Diagonal(g))
  {
    hide WellFormed, Sem, RequirementChoices, IsRequirement, Requirements;
    forall f | f in Requirements(ms, ms) ensures Sem(f, Diagonal(g)) {
      var s :| s in ms && IsRequirement(s) && f == Any(RequirementChoices(s, ms));
      RequirementReflexive(g, ms, s);
    }
  }

  lemma AllOf(fs: seq<Formula>, s: iset<Pair>)
    requires forall f :: f in fs ==> Sem(f, s)
    ensures Sem(All(fs), s)
  {
    hide Sem;
    assert forall i :: 0 <= i < |fs| ==> fs[i] in fs;
    AllByIndex(fs, s);
  }

  lemma AllByIndex(fs: seq<Formula>, s: iset<Pair>)
    requires forall i :: 0 <= i < |fs| ==> Sem(fs[i], s)
    ensures Sem(All(fs), s)
  {}

  lemma FunctionReflexive(g: Graph, ps: seq<Parameter>, r: nat)
    requires WellFormed(g) && Function(ps, r) in g
    ensures Sem(FunctionRule(ps, r, ps, r), Diagonal(g))
  {
    NodeOf(g, Function(ps, r));
    var fs := ParameterRules(ps, ps) + [Goal(r, r)];
    forall i | 0 <= i < |fs| ensures Sem(fs[i], Diagonal(g)) {
      if i < |ps| {
        assert ps[i] in ps && WellFormedParameter(ps[i]);
        if ps[i].typ.Some? {
          SameGoal(g, ps[i].typ);
        }
      }
    }
  }

  lemma EventReflexive(g: Graph, fs: seq<EventField>)
    requires WellFormed(g) && Event(fs) in g
    ensures Sem(All(FieldRules(fs, fs)), Diagonal(g))
  {
    NodeOf(g, Event(fs));
    forall i | 0 <= i < |fs| ensures Sem(FieldRules(fs, fs)[i], Diagonal(g)) {
      assert fs[i] in fs && (fs[i].typ, fs[i].typ) in Diagonal(g);
      ChosenHolds(FieldChoices(fs, fs[i].name, fs[i].typ), Goal(fs[i].typ, fs[i].typ), Diagonal(g));
    }
  }

  /** Every descriptor is a subtype of itself. */
  lemma Reflexive(g: Graph, n: nat)
    requires WellFormed(g) && n < |g|
    ensures IsSubtype(g, n, n)
  {
    hide WellFormed, Sem, InterfaceRule, FunctionRule;
    var s := Diagonal(g);
    forall l: nat, r: nat | (l, r) in s ensures Sem(Rule(g, l, r), s) {
      assert l == r < |g| && g[l] in g;
      RuleReflexive(g, l);
    }
    assert (n, n) in s && PostFixed(g, s);
  }

  lemma RuleReflexive(g: Graph, n: nat)
    requires WellFormed(g) && n < |g|
    ensures Sem(Rule(g, n, n), Diagonal(g))
  {
    hide WellFormed, Covers, Requirements, Sem;
    assert g[n] in g;
    match g[n]
    case Function(ps, r) => FunctionReflexive(g, ps, r);
    case Event(fs) => EventReflexive(g, fs);
    case Interface(ms) =>
      CoversReflexive(g, ms, TypeNames);
      CoversReflexive(g, ms, Constructors);
      CoversReflexive(g, ms, Provided);
      CoversReflexive(g, ms, Hidden);
      CoversReflexive(g, ms, Actions);
      RequirementsReflexive(g, ms);
      AllOf(InterfaceRule(g, ms, ms).parts, Diagonal(g));
    case Library(_) => ConstantHolds(Diagonal(g));
    case Reference(_) => ConstantHolds(Diagonal(g));
  }

  lemma ConstantHolds(s: iset<Pair>)
    ensures Sem(Constant(true), s)
  {}

  // ----- Transitivity -----

  /** No function parameter has a default. */
  ghost predicate NoDefaults(g: Graph) {
    forall ps: seq<Parameter>, r: nat, p: Parameter :: Function(ps, r) in g && p in ps ==> !p.hasDefault
  }

  ghost predicate RequiresOnly(ms: seq<Member>) {
    ms != [] && forall m :: m in ms ==> IsRequirement(m)
  }

  /** A predefined type conforms to an empty interface, and that to any interface that only
      requires; the predefined type does not. */
  ghost predicate LibraryGap(g: Graph, l: nat, m: nat, r: nat) {
    && l < |g| && m < |g| && r < |g|
    && g[l].Library? && g[m] == Interface([]) && g[r].Interface? && RequiresOnly(g[r].members)
  }

  ghost predicate RequiresOther(ms: seq<Member>) {
    exists m :: m in ms && IsRequirement(m) && !m.kind.ObjectMember?
  }

  /** An event record conforms to an interface, and that to one that also requires something
      other than an object; the event record does not. */
  ghost predicate EventGap(g: Graph, l: nat, m: nat, r: nat) {
    && l < |g| && m < |g| && r < |g|
    && g[l].Event? && g[m].Interface? && g[r].Interface? && RequiresOther(g[r].members)
    && IsSubtype(g, l, m) && IsSubtype(g, m, r)
  }

  /** A parameter that may be left out where the target has none, though the source insists
      on it; or one left out and then asked for again with a type the source does not take. */
  ghost predicate ParameterLost(g: Graph, xs: seq<Parameter>, ys: seq<Parameter>, zs: seq<Parameter>) {
    || (exists i: nat :: |zs| <= i < |xs| && i < |ys| && !xs[i].hasDefault)
    || (exists i: nat :: |ys| <= i < |xs| && i < |zs| && !Sem(ParameterRule(xs[i], zs[i]), Greatest(g)))
  }

  ghost predicate DefaultGap(g: Graph, l: nat, m: nat, r: nat) {
    && l < |g| && m < |g| && r < |g| && g[l].Function? && g[m].Function? && g[r].Function?
    && ParameterLost(g, g[l].parameters, g[m].parameters, g[r].parameters)
    && IsSubtype(g, l, m) && IsSubtype(g, m, r)
  }

  ghost predicate Gapless(g: Graph) {
    forall l: nat, m: nat, r: nat :: !LibraryGap(g, l, m, r) && !EventGap(g, l, m, r) && !DefaultGap(g, l, m, r)
  }

  ghost predicate Composes(g: Graph, l: nat, r: nat) {
    exists m: nat :: (l, m) in Greatest(g) && (m, r) in Greatest(g)
  }

  ghost function Composed(g: Graph): iset<Pair> {
    iset p: Pair | Composes(g, p.0, p.1)
  }

  lemma GoalChain(g: Graph, a: Option<nat>, b: Option<nat>, c: Option<nat>)
    requires Sem(OptionalGoal(a, b), Greatest(g)) && Sem(OptionalGoal(b, c), Greatest(g))
    ensures Sem(OptionalGoal(a, c), Composed(g))
  {
    assert Composes(g, a.value, c.value);
  }

  lemma BothWaysChain(g: Graph, a: Option<nat>, b: Option<nat>, c: Option<nat>)
    requires Sem(BothWays(a, b), Greatest(g)) && Sem(BothWays(b, c), Greatest(g))
    ensures Sem(BothWays(a, c), Composed(g))
  {
    hide OptionalGoal;
    var ab, bc, ac := BothWays(a, b), BothWays(b, c), BothWays(a, c);
    assert Sem(ab.parts[0], Greatest(g)) && Sem(ab.parts[1], Greatest(g));
    assert Sem(bc.parts[0], Greatest(g)) && Sem(bc.parts[1], Greatest(g));
    GoalChain(g, a, b, c);
    GoalChain(g, c, b, a);
    forall i | 0 <= i < 2 ensures Sem(ac.parts[i], Composed(g)) {
    }
  }

  lemma BothGives(g: Graph, a: Option<nat>, b: Option<nat>)
    requires Sem(BothWays(a, b), Greatest(g))
    ensures Sem(OptionalGoal(a, b), Greatest(g)) && Sem(OptionalGoal(b, a), Greatest(g))
  {
    var ab := BothWays(a, b);
    assert Sem(ab.parts[0], Greatest(g)) && Sem(ab.parts[1], Greatest(g));
  }

  lemma ParameterChain(g: Graph, a: Parameter, b: Parameter, c: Parameter)
    requires Sem(ParameterRule(a, b), Greatest(g)) && Sem(ParameterRule(b, c), Greatest(g))
    ensures Sem(ParameterRule(a, c), Composed(g))
  {
    if !(a.kind.TypeParameter? && a.typ.None?) {
      GoalChain(g, c.typ, b.typ, a.typ);
    }
  }

  /** Reflexivity puts every pair among the compositions. */
  lemma GreatestComposed(g: Graph)
    requires WellFormed(g)
    ensures Greatest(g) <= Composed(g)
  {
    hide WellFormed, IsSubtype, Composes;
    forall p | p in Greatest(g) ensures p in Composed(g) {
      SubtypeNodes(g, p.0, p.1);
      Reflexive(g, p.0);
      InGreatest(g, p.0, p.0);
      InGreatest(g, p.0, p.1);
      ComposesIntro(g, p.0, p.0, p.1);
    }
  }

  lemma SubtypeNodes(g: Graph, l: nat, r: nat)
    requires IsSubtype(g, l, r)
    ensures l < |g| && r < |g|
  {
    var s: iset<Pair> :| (l, r) in s && PostFixed(g, s);
    assert Sem(Rule(g, l, r), s);
  }

  lemma FunctionChain(
      g: Graph, xs: seq<Parameter>, ar: nat, ys: seq<Parameter>, br: nat, zs: seq<Parameter>, cr: nat)
    requires WellFormed(g) && !ParameterLost(g, xs, ys, zs)
    requires Sem(FunctionRule(xs, ar, ys, br), Greatest(g)) && Sem(FunctionRule(ys, br, zs, cr), Greatest(g))
    ensures Sem(FunctionRule(xs, ar, zs, cr), Composed(g))
  {
    hide ParameterRule, WellFormed, Greatest, Composed;
    GreatestComposed(g);
    var ab, bc, ac := ParameterRules(xs, ys) + [Goal(ar, br)], ParameterRules(ys, zs) + [Goal(br, cr)], ParameterRules(xs, zs) + [Goal(ar, cr)];
    assert Sem(ab[|ab| - 1], Greatest(g)) && Sem(bc[|bc| - 1], Greatest(g));
    forall i | 0 <= i < |ac| ensures Sem(ac[i], Composed(g)) {
      if i == |ac| - 1 {
        GoalChain(g, Some(ar), Some(br), Some(cr));
      } else if i < |ys| {
        assert Sem(ab[i], Greatest(g)) && Sem(bc[i], Greatest(g));
        ParameterChain(g, xs[i], ys[i], zs[i]);
      } else {
        SemMonotone(ParameterRule(xs[i], zs[i]), Greatest(g), Composed(g));
      }
    }
    forall i | |zs| <= i < |xs| ensures xs[i].hasDefault {
      assert i < |ys| || i >= |ys|;
    }
  }

  lemma SameParameterChain(g: Graph, a: Parameter, b: Parameter, c: Parameter)
    requires Sem(SameParameter(a, b), Greatest(g)) && Sem(SameParameter(b, c), Greatest(g))
    ensures Sem(SameParameter(a, c), Composed(g))
  {
    hide BothWays;
    if a.typ.Some? {
      BothWaysChain(g, a.typ, b.typ, c.typ);
    }
  }

  lemma SameConstructorsChain(g: Graph, a: Member, b: Member, c: Member)
    requires Sem(SameConstructors(g, a, b), Greatest(g)) && Sem(SameConstructors(g, b, c), Greatest(g))
    ensures Sem(SameConstructors(g, a, c), Composed(g))
  {
    hide BothWays, SameParameter, ParametersOf;
    var ps, qs, rs := ParametersOf(g, a.typ), ParametersOf(g, b.typ), ParametersOf(g, c.typ);
    var ab, bc, ac := SameParameters(ps, qs) + [BothWays(a.result, b.result)],
                      SameParameters(qs, rs) + [BothWays(b.result, c.result)],
                      SameParameters(ps, rs) + [BothWays(a.result, c.result)];
    forall i | 0 <= i < |ac| ensures Sem(ac[i], Composed(g)) {
      assert Sem(ab[i], Greatest(g)) && Sem(bc[i], Greatest(g));
      if i < |ps| {
        SameParameterChain(g, ps[i], qs[i], rs[i]);
      } else {
        BothWaysChain(g, a.result, b.result, c.result);
      }
    }
  }

  lemma TypeNameChain(g: Graph, a: Member, b: Member, c: Member)
    requires Sem(TypeNameRule(a, b), Greatest(g)) && Sem(TypeNameRule(b, c), Greatest(g))
    ensures Sem(TypeNameRule(a, c), Composed(g))
  {
    hide BothWays, OptionalGoal, Greatest, Composed;
    match c.spec
    case AnyDenotation =>
    case SubtypeDenotation =>
      if b.spec.ExactDenotation? {
        BothGives(g, a.typ, b.typ);
      }
      GoalChain(g, a.typ, b.typ, c.typ);
    case ExactDenotation =>
      BothWaysChain(g, a.typ, b.typ, c.typ);
  }

  lemma ConstructorParts(g: Graph, s: Member, t: Member, set_: iset<Pair>)
    ensures Sem(ConstructorRule(g, s, t), set_) <==>
            && Sem(OptionalGoal(s.typ, t.typ), set_)
            && (t.spec.AnyDenotation? ||
                (t.spec.SubtypeDenotation? && !s.spec.AnyDenotation? && Sem(OptionalGoal(s.result, t.result), set_)) ||
                (t.spec.ExactDenotation? && s.spec.ExactDenotation? && Sem(SameConstructors(g, s, t), set_)))
  {
    hide OptionalGoal, SameConstructors;
    var f := ConstructorRule(g, s, t);
    assert Sem(f, set_) <==> Sem(f.parts[0], set_) && Sem(f.parts[1], set_);
  }

  lemma SameConstructorsResult(g: Graph, s: Member, t: Member)
    requires Sem(SameConstructors(g, s, t), Greatest(g))
    ensures Sem(OptionalGoal(s.result, t.result), Greatest(g))
  {
    hide BothWays, SameParameter, ParametersOf, Greatest;
    var ps, qs := ParametersOf(g, s.typ), ParametersOf(g, t.typ);
    var fs := SameParameters(ps, qs) + [BothWays(s.result, t.result)];
    assert Sem(fs[|ps|], Greatest(g));
    BothGives(g, s.result, t.result);
  }

  lemma ConstructorChain(g: Graph, a: Member, b: Member, c: Member)
    requires Sem(ConstructorRule(g, a, b), Greatest(g)) && Sem(ConstructorRule(g, b, c), Greatest(g))
    ensures Sem(ConstructorRule(g, a, c), Composed(g))
  {
    hide ConstructorRule, OptionalGoal, SameConstructors, Greatest, Composed;
    ConstructorParts(g, a, b, Greatest(g));
    ConstructorParts(g, b, c, Greatest(g));
    ConstructorParts(g, a, c, Composed(g));
    GoalChain(g, a.typ, b.typ, c.typ);
    if c.spec.SubtypeDenotation? {
      if b.spec.ExactDenotation? {
        SameConstructorsResult(g, a, b);
      }
      GoalChain(g, a.result, b.result, c.result);
    } else if c.spec.ExactDenotation? {
      SameConstructorsChain(g, a, b, c);
    }
  }

  lemma MemberChain(g: Graph, a: Member, b: Member, c: Member)
    requires a.kind == b.kind == c.kind
    requires Sem(MemberRule(g, a, b), Greatest(g)) && Sem(MemberRule(g, b, c), Greatest(g))
    ensures Sem(MemberRule(g, a, c), Composed(g))
  {
    hide TypeNameRule, ConstructorRule, OptionalGoal, Greatest, Composed, Sem;
    if c.kind.TypeName? {
      TypeNameChain(g, a, b, c);
    } else if c.kind.TypeConstructor? {
      ConstructorChain(g, a, b, c);
    } else {
      GoalChain(g, a.typ, b.typ, c.typ);
    }
  }

  ghost predicate AllHold(fs: seq<Formula>, s: iset<Pair>) {
    forall f :: f in fs ==> Sem(f, s)
  }

  lemma AllGives(fs: seq<Formula>, s: iset<Pair>)
    requires Sem(All(fs), s)
    ensures AllHold(fs, s)
  {
    forall f | f in fs ensures Sem(f, s) {
      var i :| 0 <= i < |fs| && fs[i] == f;
      AllAt(fs, s, i);
    }
  }

  lemma AllAt(fs: seq<Formula>, s: iset<Pair>, i: nat)
    requires Sem(All(fs), s) && i < |fs|
    ensures Sem(fs[i], s)
  {}

  lemma AnyGives(fs: seq<Formula>, s: iset<Pair>) returns (f: Formula)
    requires Sem(Any(fs), s)
    ensures f in fs && Sem(f, s)
  {
    var i :| 0 <= i < |fs| && Sem(fs[i], s);
    f := fs[i];
  }

  /** Every pass of an interface rule, with its requirements, holds. */
  ghost predicate CoversHold(g: Graph, ss: seq<Member>, ts: seq<Member>, s: iset<Pair>) {
    forall pass :: AllHold(Covers(g, ss, ts, pass), s)
  }

  lemma InterfaceParts(g: Graph, ss: seq<Member>, ts: seq<Member>, s: iset<Pair>)
    ensures Sem(InterfaceRule(g, ss, ts), s) <==> CoversHold(g, ss, ts, s) && AllHold(Requirements(ss, ts), s)
  {
    hide Covers, Requirements, Sem;
    var fs := InterfaceRule(g, ss, ts).parts;
    if Sem(InterfaceRule(g, ss, ts), s) {
      AllGives(fs, s);
      forall pass ensures AllHold(Covers(g, ss, ts, pass), s) {
        assert forall f :: f in Covers(g, ss, ts, pass) ==> f in fs;
      }
      assert forall f :: f in Requirements(ss, ts) ==> f in fs;
    }
    if CoversHold(g, ss, ts, s) && AllHold(Requirements(ss, ts), s) {
      forall f | f in fs ensures Sem(f, s) {
        assert AllHold(Covers(g, ss, ts, TypeNames), s) && AllHold(Covers(g, ss, ts, Constructors), s);
        assert AllHold(Covers(g, ss, ts, Provided), s) && AllHold(Covers(g, ss, ts, Hidden), s);
        assert AllHold(Covers(g, ss, ts, Actions), s);
      }
      AllOf(fs, s);
    }
  }

  function PassOf(t: Member): (pass: Pass)
    requires !IsRequirement(t)
    ensures InPass(t, pass)
  {
    match t.kind
    case TypeName => TypeNames
    case TypeConstructor => Constructors
    case ActionMember => Actions
    case _ => if t.region.Provides? then Provided else Hidden
  }

  /** Some source constituent covers a target one. */
  lemma Covering(g: Graph, ss: seq<Member>, ts: seq<Member>, t: Member, s: iset<Pair>) returns (m: Member)
    requires CoversHold(g, ss, ts, s) && t in ts && !IsRequirement(t)
    ensures m in ss && Candidate(m, t) && Sem(MemberRule(g, m, t), s)
  {
    hide MemberRule, Sem, Candidate;
    assert AllHold(Covers(g, ss, ts, PassOf(t)), s);
    assert Any(Choices(g, ss, t)) in Covers(g, ss, ts, PassOf(t));
    var f := AnyGives(Choices(g, ss, t), s);
    m :| m in ss && Candidate(m, t) && f == MemberRule(g, m, t);
  }

  lemma NeverRequired(m: Member, t: Member)
    ensures Candidate(m, t) ==> !IsRequirement(m)
    ensures forall pass :: InPass(t, pass) ==> !IsRequirement(t)
  {}

  lemma CandidateChain(a: Member, b: Member, c: Member)
    requires Candidate(a, b) && Candidate(b, c)
    ensures Candidate(a, c)
  {}

  /** A requirement of the source is met by one of the target. */
  lemma Requiring(ss: seq<Member>, ts: seq<Member>, m: Member, s: iset<Pair>) returns (t: Member)
    requires AllHold(Requirements(ss, ts), s) && m in ss && IsRequirement(m)
    ensures t in ts && MeetsRequirement(m, t) && Sem(OptionalGoal(t.typ, m.typ), s)
  {
    hide Sem, MeetsRequirement, IsRequirement;
    assert Any(RequirementChoices(m, ts)) in Requirements(ss, ts);
    var f := AnyGives(RequirementChoices(m, ts), s);
    t :| t in ts && MeetsRequirement(m, t) && f == OptionalGoal(t.typ, m.typ);
  }

  lemma MeetsBoth(a: Member, b: Member, c: Member)
    requires IsRequirement(a) && MeetsRequirement(a, b)
    ensures IsRequirement(b) && (MeetsRequirement(b, c) ==> MeetsRequirement(a, c))
  {}

  lemma RequirementChain(g: Graph, xs: seq<Member>, ys: seq<Member>, zs: seq<Member>, m: Member)
    requires AllHold(Requirements(xs, ys), Greatest(g)) && AllHold(Requirements(ys, zs), Greatest(g))
    requires m in xs && IsRequirement(m)
    ensures Sem(Any(RequirementChoices(m, zs)), Composed(g))
  {
    hide Sem, Greatest, Composed, AllHold, MeetsRequirement, IsRequirement, OptionalGoal, Requirements, RequirementChoices;
    var n := Requiring(xs, ys, m, Greatest(g));
    MeetsBoth(m, n, n);
    var t := Requiring(ys, zs, n, Greatest(g));
    MeetsBoth(m, n, t);
    GoalChain(g, t.typ, n.typ, m.typ);
    ChosenHolds(RequirementChoices(m, zs), OptionalGoal(t.typ, m.typ), Composed(g));
  }

  /** Requirements compose the other way round. */
  lemma RequirementsChain(g: Graph, xs: seq<Member>, ys: seq<Member>, zs: seq<Member>)
    requires AllHold(Requirements(xs, ys), Greatest(g)) && AllHold(Requirements(ys, zs), Greatest(g))
    ensures AllHold(Requirements(xs, zs), Composed(g))
  {
    hide Sem, Greatest, Composed, IsRequirement, Requirements, RequirementChoices, AllHold;
    forall m | m in xs && IsRequirement(m) ensures Sem(Any(RequirementChoices(m, zs)), Composed(g)) {
      RequirementChain(g, xs, ys, zs, m);
    }
    RequirementsIntro(xs, zs, Composed(g));
  }

  lemma RequirementsIntro(ss: seq<Member>, ts: seq<Member>, s: iset<Pair>)
    requires forall m :: m in ss && IsRequirement(m) ==> Sem(Any(RequirementChoices(m, ts)), s)
    ensures AllHold(Requirements(ss, ts), s)
  {
    hide Sem, IsRequirement, RequirementChoices;
  }

  lemma InterfaceChain(g: Graph, xs: seq<Member>, ys: seq<Member>, zs: seq<Member>)
    requires CoversHold(g, xs, ys, Greatest(g)) && CoversHold(g, ys, zs, Greatest(g))
    ensures CoversHold(g, xs, zs, Composed(g))
  {
    hide MemberRule, Sem, Greatest, Composed, Candidate, CoversHold, IsRequirement, InPass;
    forall pass, f | f in Covers(g, xs, zs, pass) ensures Sem(f, Composed(g)) {
      var t :| t in zs && InPass(t, pass) && f == Any(Choices(g, xs, t));
      NeverRequired(t, t);
      var m := Covering(g, ys, zs, t, Greatest(g));
      NeverRequired(m, t);
      var n := Covering(g, xs, ys, m, Greatest(g));
      SameKinds(n, m, t);
      MemberChain(g, n, m, t);
      CandidateChain(n, m, t);
      ChosenHolds(Choices(g, xs, t), MemberRule(g, n, t), Composed(g));
    }
    assert CoversHold(g, xs, zs, Composed(g)) by { CoversIntro(g, xs, zs, Composed(g)); }
  }

  lemma CoversIntro(g: Graph, ss: seq<Member>, ts: seq<Member>, s: iset<Pair>)
    requires forall pass, f :: f in Covers(g, ss, ts, pass) ==> Sem(f, s)
    ensures CoversHold(g, ss, ts, s)
  {
    hide Sem, Covers;
  }

  lemma SameKinds(a: Member, b: Member, c: Member)
    requires Candidate(a, b) && Candidate(b, c)
    ensures a.kind == b.kind == c.kind && a.name == b.name == c.name
  {}

  lemma FieldGives(fs: seq<EventField>, name: Text, typ: nat, s: iset<Pair>) returns (f: EventField)
    requires Sem(Any(FieldChoices(fs, name, typ)), s)
    ensures f in fs && f.name == name && (f.typ, typ) in s
  {
    hide FieldChoices;
    var c := AnyGives(FieldChoices(fs, name, typ), s);
    f :| f in fs && f.name == name && c == Goal(f.typ, typ);
  }

  lemma FieldHolds(fs: seq<EventField>, f: EventField, typ: nat, s: iset<Pair>)
    requires f in fs && (f.typ, typ) in s
    ensures Sem(Any(FieldChoices(fs, f.name, typ)), s)
  {
    ChosenHolds(FieldChoices(fs, f.name, typ), Goal(f.typ, typ), s);
  }

  lemma FieldChain(g: Graph, fs: seq<EventField>, hs: seq<EventField>, name: Text, typ: nat)
    requires Sem(All(FieldRules(fs, hs)), Greatest(g)) && Sem(Any(FieldChoices(hs, name, typ)), Greatest(g))
    ensures Sem(Any(FieldChoices(fs, name, typ)), Composed(g))
  {
    hide Sem, Greatest;
    var h := FieldGives(hs, name, typ, Greatest(g));
    var i :| 0 <= i < |hs| && hs[i] == h;
    AllAt(FieldRules(fs, hs), Greatest(g), i);
    var f := FieldGives(fs, h.name, h.typ, Greatest(g));
    assert Composes(g, f.typ, typ);
    FieldHolds(fs, f, typ, Composed(g));
  }

  lemma EventChain(g: Graph, fs: seq<EventField>, hs: seq<EventField>, ks: seq<EventField>)
    requires Sem(All(FieldRules(fs, hs)), Greatest(g)) && Sem(All(FieldRules(hs, ks)), Greatest(g))
    ensures Sem(All(FieldRules(fs, ks)), Composed(g))
  {
    hide Sem, Greatest, Composed;
    forall i | 0 <= i < |ks| ensures Sem(FieldRules(fs, ks)[i], Composed(g)) {
      AllAt(FieldRules(hs, ks), Greatest(g), i);
      FieldChain(g, fs, hs, ks[i].name, ks[i].typ);
    }
    AllByIndex(FieldRules(fs, ks), Composed(g));
  }

  lemma RecordParts(fs: seq<EventField>, t: Member, s: iset<Pair>)
    ensures Sem(RecordRule(fs, t), s) <==>
            t.kind.ObjectMember? &&
            (t.region.Requires? || (t.typ.Some? && Sem(Any(FieldChoices(fs, t.name, t.typ.value)), s)))
  {}

  lemma EventEventInterface(g: Graph, fs: seq<EventField>, hs: seq<EventField>, ms: seq<Member>)
    requires Sem(All(FieldRules(fs, hs)), Greatest(g)) && Sem(All(RecordRules(hs, ms)), Greatest(g))
    ensures Sem(All(RecordRules(fs, ms)), Composed(g))
  {
    hide Sem, Greatest, Composed, RecordRule;
    forall i | 0 <= i < |ms| ensures Sem(RecordRules(fs, ms)[i], Composed(g)) {
      AllAt(RecordRules(hs, ms), Greatest(g), i);
      RecordParts(hs, ms[i], Greatest(g));
      RecordParts(fs, ms[i], Composed(g));
      if !ms[i].region.Requires? {
        FieldChain(g, fs, hs, ms[i].name, ms[i].typ.value);
      }
    }
    AllByIndex(RecordRules(fs, ms), Composed(g));
  }

  lemma EventInterfaceInterface(g: Graph, fs: seq<EventField>, ys: seq<Member>, zs: seq<Member>)
    requires !RequiresOther(zs)
    requires Sem(All(RecordRules(fs, ys)), Greatest(g)) && CoversHold(g, ys, zs, Greatest(g))
    ensures Sem(All(RecordRules(fs, zs)), Composed(g))
  {
    hide Greatest, Composed, RecordRule, CoversHold, Sem;
    forall i | 0 <= i < |zs| ensures Sem(RecordRules(fs, zs)[i], Composed(g)) {
      var t := zs[i];
      RecordParts(fs, t, Composed(g));
      if IsRequirement(t) {
        assert t in zs;
      } else {
        var m := Covering(g, ys, zs, t, Greatest(g));
        NeverRequired(m, t);
        RecordField(g, fs, ys, m, t);
      }
    }
    AllByIndex(RecordRules(fs, zs), Composed(g));
  }

  lemma RecordField(g: Graph, fs: seq<EventField>, ys: seq<Member>, m: Member, t: Member)
    requires Sem(All(RecordRules(fs, ys)), Greatest(g)) && m in ys && !IsRequirement(m)
    requires Candidate(m, t) && Sem(MemberRule(g, m, t), Greatest(g))
    ensures Sem(RecordRule(fs, t), Composed(g))
  {
    hide Greatest, Composed, RecordRule, Sem;
    var k :| 0 <= k < |ys| && ys[k] == m;
    AllAt(RecordRules(fs, ys), Greatest(g), k);
    RecordParts(fs, m, Greatest(g));
    RecordParts(fs, t, Composed(g));
    var f := FieldGives(fs, m.name, m.typ.value, Greatest(g));
    GoalPair(m.typ, t.typ, Greatest(g));
    assert (f.typ, t.typ.value) in Composed(g) by { InComposed(g, f.typ, m.typ.value, t.typ.value); }
    FieldHolds(fs, f, t.typ.value, Composed(g));
  }

  lemma InComposed(g: Graph, l: nat, m: nat, r: nat)
    requires (l, m) in Greatest(g) && (m, r) in Greatest(g)
    ensures (l, r) in Composed(g)
  {
    assert Composes(g, l, r);
  }

  lemma GoalPair(a: Option<nat>, b: Option<nat>, s: iset<Pair>)
    requires Sem(OptionalGoal(a, b), s)
    ensures a.Some? && b.Some? && (a.value, b.value) in s
  {}

  /** From an empty interface nothing but requirements can be covered. */
  lemma NothingCovers(g: Graph, zs: seq<Member>, s: iset<Pair>)
    requires CoversHold(g, [], zs, s)
    ensures forall t :: t in zs ==> IsRequirement(t)
  {
    hide CoversHold, Candidate;
    forall t | t in zs ensures IsRequirement(t) {
      if !IsRequirement(t) {
        var m := Covering(g, [], zs, t, s);
      }
    }
  }

  /** Subtyping is transitive on graphs without gaps, through contravariant parameters and
      requirements and exact (mutual) denotations alike. */
  lemma Transitive(g: Graph, a: nat, b: nat, c: nat)
    requires WellFormed(g) && Gapless(g) && IsSubtype(g, a, b) && IsSubtype(g, b, c)
    ensures IsSubtype(g, a, c)
  {
    hide Sem, Rule, Greatest, Composes, Gapless, WellFormed;
    GreatestIsFixed(g);
    assert (a, b) in Greatest(g) && (b, c) in Greatest(g) by { InGreatest(g, a, b); InGreatest(g, b, c); }
    var s := Composed(g);
    forall l: nat, r: nat | (l, r) in s ensures Sem(Rule(g, l, r), s) {
      var m := Middle(g, l, r);
      RuleChain(g, l, m, r);
    }
    assert Composes(g, a, c) by { ComposesIntro(g, a, b, c); }
    assert (a, c) in s && PostFixed(g, s);
  }

  lemma InGreatest(g: Graph, l: nat, r: nat)
    ensures (l, r) in Greatest(g) <==> IsSubtype(g, l, r)
  {}

  lemma ComposesIntro(g: Graph, l: nat, m: nat, r: nat)
    requires (l, m) in Greatest(g) && (m, r) in Greatest(g)
    ensures Composes(g, l, r)
  {}

  lemma Middle(g: Graph, l: nat, r: nat) returns (m: nat)
    requires Composes(g, l, r)
    ensures (l, m) in Greatest(g) && (m, r) in Greatest(g)
    ensures PostFixed(g, Greatest(g))
  {
    hide Rule, Sem;
    m :| (l, m) in Greatest(g) && (m, r) in Greatest(g);
    GreatestIsFixed(g);
  }

  lemma RuleFails(g: Graph, l: nat, r: nat, s: iset<Pair>)
    requires Sem(Rule(g, l, r), s)
    ensures l < |g| && r < |g|
    ensures g[l].Event? ==> g[r].Event? || g[r].Interface?
    ensures g[l].Library? ==> g[r].Library? || g[r].Interface?
    ensures g[l].Reference? ==> g[r].Reference?
    ensures g[l].Function? ==> g[r].Function?
    ensures g[l].Interface? ==> g[r].Interface?
  {}

  lemma ConstantGives(b: bool, s: iset<Pair>)
    ensures Sem(Constant(b), s) == b
  {}

  lemma RuleChain(g: Graph, l: nat, m: nat, r: nat)
    requires WellFormed(g) && Gapless(g)
    requires Sem(Rule(g, l, m), Greatest(g)) && Sem(Rule(g, m, r), Greatest(g))
    ensures Sem(Rule(g, l, r), Composed(g))
  {
    hide Sem, Greatest, Composed, FunctionRule, InterfaceRule, Gapless, WellFormed, ParameterLost;
    RuleFails(g, l, m, Greatest(g));
    RuleFails(g, m, r, Greatest(g));
    assert g[l] in g && g[m] in g && g[r] in g;
    match g[l]
    case Function(ps, out) =>
      NoDefaultGap(g, l, m, r);
      FunctionChain(g, ps, out, g[m].parameters, g[m].output, g[r].parameters, g[r].output);
    case Event(fs) =>
      if g[m].Interface? {
        InterfaceParts(g, g[m].members, g[r].members, Greatest(g));
        NoEventGap(g, l, m, r);
        EventInterfaceInterface(g, fs, g[m].members, g[r].members);
      } else if g[r].Interface? {
        EventEventInterface(g, fs, g[m].fields, g[r].members);
      } else {
        EventChain(g, fs, g[m].fields, g[r].fields);
      }
    case Interface(ms) =>
      InterfaceParts(g, ms, g[m].members, Greatest(g));
      InterfaceParts(g, g[m].members, g[r].members, Greatest(g));
      InterfaceChain(g, ms, g[m].members, g[r].members);
      RequirementsChain(g, ms, g[m].members, g[r].members);
      InterfaceParts(g, ms, g[r].members, Composed(g));
    case Library(n) =>
      LibraryChain(g, l, m, r);
    case Reference(n) =>
      forall b, s ensures Sem(Constant(b), s) == b { ConstantGives(b, s); }
  }

  lemma NoEventGap(g: Graph, l: nat, m: nat, r: nat)
    requires Gapless(g) && l < |g| && m < |g| && r < |g| && g[l].Event? && g[m].Interface? && g[r].Interface?
    requires Sem(Rule(g, l, m), Greatest(g)) && Sem(Rule(g, m, r), Greatest(g))
    ensures !RequiresOther(g[r].members)
  {
    hide Sem, Rule, Greatest, IsSubtype, RequiresOther;
    GreatestIsFixed(g);
    assert !EventGap(g, l, m, r);
  }

  lemma NoDefaultGap(g: Graph, l: nat, m: nat, r: nat)
    requires Gapless(g) && l < |g| && m < |g| && r < |g| && g[l].Function? && g[m].Function? && g[r].Function?
    requires Sem(Rule(g, l, m), Greatest(g)) && Sem(Rule(g, m, r), Greatest(g))
    ensures !ParameterLost(g, g[l].parameters, g[m].parameters, g[r].parameters)
  {
    hide Sem, Rule, Greatest, IsSubtype, ParameterLost;
    GreatestIsFixed(g);
    assert !DefaultGap(g, l, m, r);
  }

  lemma LibraryChain(g: Graph, l: nat, m: nat, r: nat)
    requires Gapless(g) && l < |g| && m < |g| && r < |g| && g[l].Library?
    requires Sem(Rule(g, l, m), Greatest(g)) && Sem(Rule(g, m, r), Greatest(g))
    ensures Sem(Rule(g, l, r), Composed(g))
  {
    hide Greatest, Composed, InterfaceRule;
    if g[m].Interface? {
      InterfaceParts(g, [], g[r].members, Greatest(g));
      NothingCovers(g, g[r].members, Greatest(g));
      assert !LibraryGap(g, l, m, r);
    }
  }

  /** A gap is a failure of transitivity. */
  lemma LibraryGapBreaks(g: Graph, l: nat, m: nat, r: nat)
    requires LibraryGap(g, l, m, r)
    ensures IsSubtype(g, l, m) && IsSubtype(g, m, r) && !IsSubtype(g, l, r)
  {
    hide Greatest, InterfaceRule;
    GreatestIsFixed(g);
    var zs := g[r].members;
    assert Sem(Rule(g, l, m), Greatest(g));
    forall pass ensures Covers(g, [], zs, pass) == [] {
      NothingToCover(g, zs, pass);
    }
    assert Requirements([], zs) == [];
    InterfaceParts(g, [], zs, Greatest(g));
    assert Sem(Rule(g, m, r), Greatest(g));
    assert !Sem(Rule(g, l, r), Greatest(g));
    InGreatest(g, l, r);
  }

  lemma NothingToCover(g: Graph, zs: seq<Member>, pass: Pass)
    requires forall t :: t in zs ==> IsRequirement(t)
    ensures Covers(g, [], zs, pass) == []
  {
    hide Choices;
    var fs := Covers(g, [], zs, pass);
    if fs != [] {
      assert fs[0] in fs;
      var t :| t in zs && InPass(t, pass) && fs[0] == Any(Choices(g, [], t));
      NeverRequired(t, t);
    }
  }

  lemma EventGapBreaks(g: Graph, l: nat, m: nat, r: nat)
    requires EventGap(g, l, m, r)
    ensures IsSubtype(g, l, m) && IsSubtype(g, m, r) && !IsSubtype(g, l, r)
  {
    hide Greatest, Sem, RecordRule, IsSubtype;
    GreatestIsFixed(g);
    var ms := g[r].members;
    if IsSubtype(g, l, r) {
      InGreatest(g, l, r);
      assert Sem(All(RecordRules(g[l].fields, ms)), Greatest(g));
      var t :| t in ms && IsRequirement(t) && !t.kind.ObjectMember?;
      var k :| 0 <= k < |ms| && ms[k] == t;
      AllAt(RecordRules(g[l].fields, ms), Greatest(g), k);
      RecordParts(g[l].fields, t, Greatest(g));
    }
  }

  lemma DefaultGapBreaks(g: Graph, l: nat, m: nat, r: nat)
    requires DefaultGap(g, l, m, r)
    ensures IsSubtype(g, l, m) && IsSubtype(g, m, r) && !IsSubtype(g, l, r)
  {
    hide Greatest, ParameterRule, IsSubtype;
    GreatestIsFixed(g);
    var xs, zs := g[l].parameters, g[r].parameters;
    if IsSubtype(g, l, r) {
      InGreatest(g, l, r);
      assert Sem(FunctionRule(xs, g[l].output, zs, g[r].output), Greatest(g));
      var fs := ParameterRules(xs, zs) + [Goal(g[l].output, g[r].output)];
      forall i: nat | i < |xs| && i < |zs| ensures Sem(ParameterRule(xs[i], zs[i]), Greatest(g)) {
        assert Sem(fs[i], Greatest(g));
      }
    }
  }

  /** Subtyping over a graph is transitive exactly when the graph has no gap. */
  lemma TransitiveIff(g: Graph)
    requires WellFormed(g)
    ensures (forall a, b, c :: IsSubtype(g, a, b) && IsSubtype(g, b, c) ==> IsSubtype(g, a, c)) <==> Gapless(g)
  {
    hide IsSubtype, WellFormed, LibraryGap, EventGap, DefaultGap;
    if Gapless(g) {
      forall a, b, c | IsSubtype(g, a, b) && IsSubtype(g, b, c) ensures IsSubtype(g, a, c) {
        Transitive(g, a, b, c);
      }
    } else {
      var l: nat, m: nat, r: nat :| LibraryGap(g, l, m, r) || EventGap(g, l, m, r) || DefaultGap(g, l, m, r);
      if LibraryGap(g, l, m, r) {
        LibraryGapBreaks(g, l, m, r);
      } else if EventGap(g, l, m, r) {
        EventGapBreaks(g, l, m, r);
      } else {
        DefaultGapBreaks(g, l, m, r);
      }
      assert !(IsSubtype(g, l, m) && IsSubtype(g, m, r) ==> IsSubtype(g, l, r));
    }
  }

  /** What a reader of the declarations can check: no defaults; with predefined types about,
      no interface only requires; with event records about, only objects are required. */
  lemma PlainlyGapless(g: Graph)
    requires WellFormed(g) && NoDefaults(g)
    requires (forall n :: n in g ==> !n.Library?) || (forall ms :: Interface(ms) in g ==> !RequiresOnly(ms))
    requires (forall n :: n in g ==> !n.Event?) || (forall ms :: Interface(ms) in g ==> !RequiresOther(ms))
    ensures Gapless(g)
  {
    hide RequiresOnly, RequiresOther, IsSubtype, NoDefaults, ParameterLost, WellFormed;
    forall l: nat, m: nat, r: nat ensures !LibraryGap(g, l, m, r) && !EventGap(g, l, m, r) && !DefaultGap(g, l, m, r) {
      if l < |g| && r < |g| && g[r].Interface? {
        assert g[l] in g && g[r] in g && g[r] == Interface(g[r].members);
      }
      if DefaultGap(g, l, m, r) {
        NothingLost(g, l, m, r);
      }
    }
  }

  lemma NothingLost(g: Graph, l: nat, m: nat, r: nat)
    requires NoDefaults(g) && l < |g| && m < |g| && r < |g| && g[l].Function? && g[m].Function? && g[r].Function?
    requires IsSubtype(g, l, m) && IsSubtype(g, m, r)
    ensures !ParameterLost(g, g[l].parameters, g[m].parameters, g[r].parameters)
  {
    hide ParameterRule, IsSubtype, Greatest;
    GreatestIsFixed(g);
    InGreatest(g, l, m);
    InGreatest(g, m, r);
    assert Sem(Rule(g, l, m), Greatest(g)) && Sem(Rule(g, m, r), Greatest(g));
    assert g[l] in g && g[m] in g;
    FunctionDefaults(g, l);
    FunctionDefaults(g, m);
    NoExtras(g[l].parameters, g[m].parameters);
    NoExtras(g[m].parameters, g[r].parameters);
  }

  lemma FunctionDefaults(g: Graph, n: nat)
    requires NoDefaults(g) && n < |g| && g[n].Function?
    ensures forall p :: p in g[n].parameters ==> !p.hasDefault
  {
    assert g[n] in g && g[n] == Function(g[n].parameters, g[n].output);
  }

  lemma NoExtras(ls: seq<Parameter>, rs: seq<Parameter>)
    requires forall p :: p in ls ==> !p.hasDefault
    ensures ExtrasDefaulted(ls, rs) ==> |ls| <= |rs|
  {
    if |rs| < |ls| {
      assert ls[|rs|] in ls;
    }
  }

  /** Mutual subtyping is an equivalence on such graphs. */
  lemma EqualityIsEquivalence(g: Graph, a: nat, b: nat, c: nat)
    requires WellFormed(g) && Gapless(g) && a < |g|
    ensures TypesEqual(g, a, a)
    ensures TypesEqual(g, a, b) ==> TypesEqual(g, b, a)
    ensures TypesEqual(g, a, b) && TypesEqual(g, b, c) ==> TypesEqual(g, a, c)
  {
    hide WellFormed, Gapless, IsSubtype;
    Reflexive(g, a);
    if TypesEqual(g, a, b) && TypesEqual(g, b, c) {
      Transitive(g, a, b, c);
      Transitive(g, c, b, a);
    }
  }

  // ----- Each condition is needed -----

  ghost function Named(name: byte, region: Region, typ: nat): Member {
    Member(ObjectMember, region, false, AnyDenotation, [name], Some(typ), None)
  }

  /** A predefined type, the empty interface, and an interface with one requirement. */
  ghost function RequiringGraph(): Graph {
    [Library(FLOAT), Interface([]), Interface([Named(120, Requires, 0)])]
  }

  /** With a requirement subtyping is not transitive: a predefined type conforms to the empty
      interface and the empty interface to the requiring one, but not the first to the last. */
  lemma RequirementsBreakTransitivity()
    ensures var g := RequiringGraph(); IsSubtype(g, 0, 1) && IsSubtype(g, 1, 2) && !IsSubtype(g, 0, 2)
  {
    var g := RequiringGraph();
    var s: iset<Pair> := iset{(0, 1), (1, 2)};
    assert Sem(Rule(g, 0, 1), s);
    EmptyMeetsRequiring(g, s);
    assert PostFixed(g, s) && (0, 1) in s && (1, 2) in s;
    forall u: iset<Pair> | (0, 2) in u ensures !PostFixed(g, u) {
      assert !Sem(Rule(g, 0, 2), u);
    }
  }

  lemma EmptyMeetsRequiring(g: Graph, s: iset<Pair>)
    requires g == RequiringGraph()
    ensures Sem(Rule(g, 1, 2), s)
  {
    var t := Named(120, Requires, 0);
    InterfaceParts(g, [], [t], s);
    forall pass ensures Covers(g, [], [t], pass) == [] {
      assert [t][1..] == [] && !InPass(t, pass);
    }
  }

  /** A function with a defaulted parameter, one without parameters, and one whose parameter
      of the same name has an unrelated type. */
  ghost function DefaultGraph(): Graph {
    [Library(FLOAT), Library(GST + FLOAT),
     Function([Parameter(ObjectParameter, [120], true, Some(0))], 0),
     Function([], 0),
     Function([Parameter(ObjectParameter, [120], false, Some(1))], 0)]
  }

  /** With a default subtyping is not transitive: the defaulted parameter may be omitted, and
      then replaced by one of another type. */
  lemma DefaultsBreakTransitivity()
    ensures var g := DefaultGraph(); IsSubtype(g, 2, 3) && IsSubtype(g, 3, 4) && !IsSubtype(g, 2, 4)
  {
    var g := DefaultGraph();
    var s: iset<Pair> := iset{(0, 0), (2, 3), (3, 4)};
    assert FLOAT != GST + FLOAT by { assert |GST + FLOAT| == |GST| + |FLOAT|; }
    var only := All([Goal(0, 0)]);
    assert Rule(g, 2, 3) == only by { assert ParameterRules(g[2].parameters, []) + [Goal(0, 0)] == [Goal(0, 0)]; }
    assert Rule(g, 3, 4) == only by { assert ParameterRules([], g[4].parameters) + [Goal(0, 0)] == [Goal(0, 0)]; }
    assert Sem(Rule(g, 0, 0), s) && Sem(only, s);
    assert PostFixed(g, s) && (2, 3) in s && (3, 4) in s;
    forall u: iset<Pair> | (2, 4) in u ensures !PostFixed(g, u) {
      var f := Rule(g, 2, 4);
      assert f.parts[0] == Goal(1, 0);
      assert !Sem(Rule(g, 1, 0), u);
      assert Sem(f, u) ==> Sem(f.parts[0], u);
    }
  }
}
