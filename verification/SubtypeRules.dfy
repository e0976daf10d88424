/** What subtyping asks of each pair of descriptors, in terms of subtyping of their
    constituents (rapide_type.go). */
module SubtypeRules {
  import opened Texts
  import opened Timings
  import opened Descriptors

  /** Both types are given, and the one is a subtype of the other. */
  ghost predicate Below(g: Graph, l: Option<nat>, r: Option<nat>) {
    l.Some? && r.Some? && IsSubtype(g, l.value, r.value)
  }

  ghost predicate Same(g: Graph, l: Option<nat>, r: Option<nat>) {
    Below(g, l, r) && Below(g, r, l)
  }

  // ----- Formulas at the greatest fixed point -----

  lemma RuleIff(g: Graph, l: nat, r: nat)
    ensures IsSubtype(g, l, r) <==> Sem(Rule(g, l, r), Greatest(g))
  {
    hide Rule, Sem;
    GreatestIsFixed(g);
    if IsSubtype(g, l, r) {
      assert (l, r) in Greatest(g);
    }
  }

  lemma GoalIff(g: Graph, l: nat, r: nat)
    ensures Sem(Goal(l, r), Greatest(g)) <==> IsSubtype(g, l, r)
  {
    hide IsSubtype;
    assert (l, r) in Greatest(g) <==> IsSubtype(g, (l, r).0, (l, r).1);
  }

  lemma BelowIff(g: Graph, l: Option<nat>, r: Option<nat>)
    ensures Sem(OptionalGoal(l, r), Greatest(g)) <==> Below(g, l, r)
  {
    hide IsSubtype;
    if l.Some? && r.Some? {
      GoalIff(g, l.value, r.value);
    }
  }

  lemma SameIff(g: Graph, l: Option<nat>, r: Option<nat>)
    ensures Sem(BothWays(l, r), Greatest(g)) <==> Same(g, l, r)
  {
    hide IsSubtype, OptionalGoal, Below;
    BelowIff(g, l, r);
    BelowIff(g, r, l);
    TwoParts(OptionalGoal(l, r), OptionalGoal(r, l), Greatest(g));
  }

  lemma TwoParts(a: Formula, b: Formula, s: iset<Pair>)
    ensures Sem(All([a, b]), s) <==> Sem(a, s) && Sem(b, s)
  {
    assert [a, b][0] == a && [a, b][1] == b;
  }

  lemma LastPart(fs: seq<Formula>, f: Formula, s: iset<Pair>)
    ensures Sem(All(fs + [f]), s) <==> Sem(All(fs), s) && Sem(f, s)
  {
    var more := fs + [f];
    assert more[|fs|] == f && forall i :: 0 <= i < |fs| ==> more[i] == fs[i];
  }

  lemma MoreParts(fs: seq<Formula>, hs: seq<Formula>, s: iset<Pair>)
    ensures Sem(All(fs + hs), s) <==> Sem(All(fs), s) && Sem(All(hs), s)
  {
    var more := fs + hs;
    assert forall i :: 0 <= i < |fs| ==> more[i] == fs[i];
    assert forall i :: 0 <= i < |hs| ==> more[|fs| + i] == hs[i];
  }

  lemma AllIff(fs: seq<Formula>, s: iset<Pair>)
    ensures Sem(All(fs), s) <==> forall f :: f in fs ==> Sem(f, s)
  {
    assert forall i :: 0 <= i < |fs| ==> fs[i] in fs;
    if Sem(All(fs), s) {
      forall f | f in fs ensures Sem(f, s) {
        var i :| 0 <= i < |fs| && fs[i] == f;
      }
    }
  }

  lemma AnyIff(fs: seq<Formula>, s: iset<Pair>)
    ensures Sem(Any(fs), s) <==> exists f :: f in fs && Sem(f, s)
  {
    if f :| f in fs && Sem(f, s) {
      var i :| 0 <= i < |fs| && fs[i] == f;
    }
  }

  // ----- Functions -----

  /** Parameters agree in name and kind and are contravariant; a type parameter without a
      bound accepts any other. */
  ghost predicate TakesOver(g: Graph, l: Parameter, r: Parameter) {
    && l.name == r.name && l.name != [] && l.kind == r.kind
    && ((l.kind.TypeParameter? && l.typ.None?) || Below(g, r.typ, l.typ))
  }

  /** Functions are contravariant in what they take and covariant in what they give; more
      parameters are fine when they have defaults, and fewer always are. */
  lemma FunctionsIff(g: Graph, l: nat, r: nat, ls: seq<Parameter>, lr: nat, rs: seq<Parameter>, rr: nat)
    requires l < |g| && r < |g| && g[l] == Function(ls, lr) && g[r] == Function(rs, rr)
    ensures IsSubtype(g, l, r) <==>
            && (forall i :: 0 <= i < |ls| && i < |rs| ==> TakesOver(g, ls[i], rs[i]))
            && (forall i :: |rs| <= i < |ls| ==> ls[i].hasDefault)
            && IsSubtype(g, lr, rr)
  {
    hide IsSubtype, OptionalGoal, Below;
    RuleIff(g, l, r);
    var fs := ParameterRules(ls, rs);
    LastPart(fs, Goal(lr, rr), Greatest(g));
    GoalIff(g, lr, rr);
    forall i | 0 <= i < |fs| ensures Sem(fs[i], Greatest(g)) <==> TakesOver(g, ls[i], rs[i]) {
      BelowIff(g, rs[i].typ, ls[i].typ);
    }
  }

  /** With the same bounded parameters and no defaults only the types count. */
  lemma PlainFunctionsIff(g: Graph, l: nat, r: nat, ls: seq<Parameter>, lr: nat, rs: seq<Parameter>, rr: nat)
    requires l < |g| && r < |g| && g[l] == Function(ls, lr) && g[r] == Function(rs, rr) && |ls| == |rs|
    requires forall i :: 0 <= i < |ls| ==>
               ls[i].name == rs[i].name && ls[i].name != [] && ls[i].kind == rs[i].kind && ls[i].typ.Some? && rs[i].typ.Some?
    ensures IsSubtype(g, l, r) <==>
            (forall i :: 0 <= i < |ls| ==> IsSubtype(g, rs[i].typ.value, ls[i].typ.value)) && IsSubtype(g, lr, rr)
  {
    hide IsSubtype;
    FunctionsIff(g, l, r, ls, lr, rs, rr);
  }

  // ----- Events -----

  ghost predicate HasField(g: Graph, fs: seq<EventField>, name: Text, typ: nat) {
    exists f :: f in fs && f.name == name && IsSubtype(g, f.typ, typ)
  }

  lemma FieldChoicesIff(g: Graph, fs: seq<EventField>, name: Text, typ: nat)
    ensures Sem(Any(FieldChoices(fs, name, typ)), Greatest(g)) <==> HasField(g, fs, name, typ)
  {
    hide IsSubtype, FieldChoices;
    AnyIff(FieldChoices(fs, name, typ), Greatest(g));
    forall f: EventField ensures Sem(Goal(f.typ, typ), Greatest(g)) <==> IsSubtype(g, f.typ, typ) {
      GoalIff(g, f.typ, typ);
    }
  }

  /** A wider event is a subtype: it has every field of the other, at a subtype. */
  lemma EventsIff(g: Graph, l: nat, r: nat, fs: seq<EventField>, hs: seq<EventField>)
    requires l < |g| && r < |g| && g[l] == Event(fs) && g[r] == Event(hs)
    ensures IsSubtype(g, l, r) <==> forall h :: h in hs ==> HasField(g, fs, h.name, h.typ)
  {
    hide IsSubtype, HasField;
    RuleIff(g, l, r);
    var rules := FieldRules(fs, hs);
    forall i | 0 <= i < |hs| ensures Sem(rules[i], Greatest(g)) <==> HasField(g, fs, hs[i].name, hs[i].typ) {
      FieldChoicesIff(g, fs, hs[i].name, hs[i].typ);
    }
  }

  /** An event offers its fields as objects of an interface and has no requirements of its own. */
  lemma EventRecordIff(g: Graph, l: nat, r: nat, fs: seq<EventField>, ms: seq<Member>)
    requires l < |g| && r < |g| && g[l] == Event(fs) && g[r] == Interface(ms)
    ensures IsSubtype(g, l, r) <==>
            forall m :: m in ms ==>
              m.kind.ObjectMember? && (m.region.Requires? || (m.typ.Some? && HasField(g, fs, m.name, m.typ.value)))
  {
    hide IsSubtype, HasField, FieldChoices;
    RuleIff(g, l, r);
    var rules := RecordRules(fs, ms);
    forall i | 0 <= i < |ms|
      ensures Sem(rules[i], Greatest(g)) <==>
              ms[i].kind.ObjectMember? && (ms[i].region.Requires? || (ms[i].typ.Some? && HasField(g, fs, ms[i].name, ms[i].typ.value)))
    {
      if ms[i].typ.Some? {
        FieldChoicesIff(g, fs, ms[i].name, ms[i].typ.value);
      }
    }
  }

  // ----- Interfaces -----

  /** A type name may be left open, bounded from above, or fixed. */
  ghost predicate Denotes(g: Graph, target: Denotation, source: Denotation, s: Option<nat>, t: Option<nat>) {
    match target
    case AnyDenotation => true
    case SubtypeDenotation => !source.AnyDenotation? && Below(g, s, t)
    case ExactDenotation => source.ExactDenotation? && Same(g, s, t)
  }

  ghost predicate SameInAll(g: Graph, l: Parameter, r: Parameter) {
    && l.kind == r.kind && l.name == r.name && l.hasDefault == r.hasDefault
    && ((l.typ.None? && r.typ.None?) || Same(g, l.typ, r.typ))
  }

  ghost predicate SameSignature(g: Graph, ls: seq<Parameter>, rs: seq<Parameter>) {
    |ls| == |rs| && forall i :: 0 <= i < |ls| ==> SameInAll(g, ls[i], rs[i])
  }

  ghost predicate IsFunction(g: Graph, typ: Option<nat>, ps: seq<Parameter>, output: nat) {
    typ.Some? && typ.value < |g| && g[typ.value] == Function(ps, output)
  }

  ghost predicate SameSignatures(g: Graph, l: Option<nat>, r: Option<nat>) {
    forall ls, lr, rs, rr :: IsFunction(g, l, ls, lr) && IsFunction(g, r, rs, rr) ==> SameSignature(g, ls, rs)
  }

  /** How a source constituent's type conforms to that of a target of the same kind and name. */
  ghost predicate Conforms(g: Graph, s: Member, t: Member) {
    match t.kind
    case TypeName => Denotes(g, t.spec, s.spec, s.typ, t.typ)
    case TypeConstructor =>
      && Below(g, s.typ, t.typ) && Denotes(g, t.spec, s.spec, s.result, t.result)
      && (t.spec.ExactDenotation? ==> SameSignatures(g, s.typ, t.typ))
    case _ => Below(g, s.typ, t.typ)
  }

  lemma SameParameterIff(g: Graph, l: Parameter, r: Parameter)
    ensures Sem(SameParameter(l, r), Greatest(g)) <==> SameInAll(g, l, r)
  {
    hide IsSubtype, BothWays, Sem, Below;
    NeverHolds(Greatest(g));
    SameIff(g, l.typ, r.typ);
    if Same(g, l.typ, r.typ) {
      SameNeedsBoth(g, l.typ, r.typ);
    }
  }

  lemma SameParametersIff(g: Graph, ls: seq<Parameter>, rs: seq<Parameter>)
    requires |ls| == |rs|
    ensures Sem(All(SameParameters(ls, rs)), Greatest(g)) <==> SameSignature(g, ls, rs)
  {
    hide SameParameter, SameInAll;
    var fs := SameParameters(ls, rs);
    forall i | 0 <= i < |ls| ensures Sem(fs[i], Greatest(g)) <==> SameInAll(g, ls[i], rs[i]) {
      SameParameterIff(g, ls[i], rs[i]);
    }
  }

  lemma SameNeedsBoth(g: Graph, l: Option<nat>, r: Option<nat>)
    requires Same(g, l, r)
    ensures l.Some? && r.Some?
  {
    hide IsSubtype;
  }

  lemma SameConstructorsIff(g: Graph, s: Member, t: Member)
    ensures Sem(SameConstructors(g, s, t), Greatest(g)) <==>
            SameSignature(g, ParametersOf(g, s.typ), ParametersOf(g, t.typ)) && Same(g, s.result, t.result)
  {
    hide IsSubtype, BothWays, Same, ParametersOf, SameParameters, Sem;
    var ls, rs := ParametersOf(g, s.typ), ParametersOf(g, t.typ);
    assert Same(g, s.result, t.result) ==> s.result.Some? && t.result.Some? by {
      if Same(g, s.result, t.result) {
        SameNeedsBoth(g, s.result, t.result);
      }
    }
    if s.result.None? || t.result.None? || |ls| != |rs| {
      NeverHolds(Greatest(g));
    } else {
      SameParametersIff(g, ls, rs);
      SameIff(g, s.result, t.result);
      LastPart(SameParameters(ls, rs), BothWays(s.result, t.result), Greatest(g));
    }
  }

  lemma NeverHolds(s: iset<Pair>)
    ensures !Sem(Constant(false), s) && Sem(Constant(true), s)
  {}

  lemma TypeNameIff(g: Graph, s: Member, t: Member)
    ensures Sem(TypeNameRule(s, t), Greatest(g)) <==> Denotes(g, t.spec, s.spec, s.typ, t.typ)
  {
    hide IsSubtype, OptionalGoal, BothWays, Below, Same;
    BelowIff(g, s.typ, t.typ);
    SameIff(g, s.typ, t.typ);
  }

  /** Related characteristic functions are functions both or neither. */
  lemma SignaturesIff(g: Graph, l: Option<nat>, r: Option<nat>)
    requires Below(g, l, r)
    ensures SameSignatures(g, l, r) <==> SameSignature(g, ParametersOf(g, l), ParametersOf(g, r))
  {
    hide IsSubtype, SameInAll;
    KindsApart(g, l.value, r.value);
    if g[l.value].Function? {
      assert IsFunction(g, l, g[l.value].parameters, g[l.value].output);
      assert IsFunction(g, r, g[r.value].parameters, g[r.value].output);
    }
  }

  lemma ConstructorIff(g: Graph, s: Member, t: Member)
    ensures Sem(ConstructorRule(g, s, t), Greatest(g)) <==>
            && Below(g, s.typ, t.typ) && Denotes(g, t.spec, s.spec, s.result, t.result)
            && (t.spec.ExactDenotation? ==> SameSignatures(g, s.typ, t.typ))
  {
    hide IsSubtype, OptionalGoal, Below, Same, SameConstructors, SameSignature, SameSignatures, ParametersOf, Sem;
    var bound := match t.spec
      case AnyDenotation => Constant(true)
      case SubtypeDenotation => if s.spec.AnyDenotation? then Constant(false) else OptionalGoal(s.result, t.result)
      case ExactDenotation => if !s.spec.ExactDenotation? then Constant(false) else SameConstructors(g, s, t);
    assert ConstructorRule(g, s, t) == All([OptionalGoal(s.typ, t.typ), bound]);
    TwoParts(OptionalGoal(s.typ, t.typ), bound, Greatest(g));
    BelowIff(g, s.typ, t.typ);
    BelowIff(g, s.result, t.result);
    SameConstructorsIff(g, s, t);
    if Below(g, s.typ, t.typ) {
      SignaturesIff(g, s.typ, t.typ);
    }
    NeverHolds(Greatest(g));
  }

  lemma MemberIff(g: Graph, s: Member, t: Member)
    ensures Sem(MemberRule(g, s, t), Greatest(g)) <==> Conforms(g, s, t)
  {
    hide IsSubtype, Below, Denotes, TypeNameRule, ConstructorRule, SameSignatures, OptionalGoal, Sem;
    TypeNameIff(g, s, t);
    ConstructorIff(g, s, t);
    BelowIff(g, s.typ, t.typ);
  }

  /** Who may stand for a target: an action of its mode, or a constituent provided by the
      source, or kept private by both. */
  ghost predicate MayStandFor(s: Member, t: Member) {
    && s.kind == t.kind && s.name == t.name
    && if t.kind.ActionMember? then s.incoming == t.incoming
       else s.region == Provides || (s.region == Private && t.region == Private)
  }

  ghost predicate Covered(g: Graph, sources: seq<Member>, t: Member) {
    exists s :: s in sources && MayStandFor(s, t) && Conforms(g, s, t)
  }

  /** Requirements are met in reverse: by a requirement of the target at a subtype. */
  ghost predicate Allowed(g: Graph, s: Member, targets: seq<Member>) {
    exists t :: t in targets && t.kind == s.kind && t.name == s.name && t.region == Requires && Below(g, t.typ, s.typ)
  }

  /** Objects, generators and exceptions can be required. */
  ghost predicate CanBeRequired(kind: MemberKind) {
    kind == ObjectMember || kind == ModuleGenerator || kind == ExceptionMember
  }

  lemma ChoicesIff(g: Graph, sources: seq<Member>, t: Member)
    ensures Sem(Any(Choices(g, sources, t)), Greatest(g)) <==> Covered(g, sources, t)
  {
    hide IsSubtype, Sem, Conforms, MemberRule, Choices;
    AnyIff(Choices(g, sources, t), Greatest(g));
    forall s: Member ensures Sem(MemberRule(g, s, t), Greatest(g)) <==> Conforms(g, s, t) {
      MemberIff(g, s, t);
    }
    assert forall s :: Candidate(s, t) <==> MayStandFor(s, t);
  }

  lemma RequirementChoicesIff(g: Graph, s: Member, targets: seq<Member>)
    ensures Sem(Any(RequirementChoices(s, targets)), Greatest(g)) <==> Allowed(g, s, targets)
  {
    hide IsSubtype, Sem, Below, OptionalGoal, RequirementChoices;
    AnyIff(RequirementChoices(s, targets), Greatest(g));
    forall t: Member ensures Sem(OptionalGoal(t.typ, s.typ), Greatest(g)) <==> Below(g, t.typ, s.typ) {
      BelowIff(g, t.typ, s.typ);
    }
  }

  lemma CoversIff(g: Graph, sources: seq<Member>, targets: seq<Member>, pass: Pass)
    ensures Sem(All(Covers(g, sources, targets, pass)), Greatest(g)) <==>
            PassCovered(g, sources, targets, pass)
  {
    hide Sem, Covered, Choices, InPass, Covers;
    AllIff(Covers(g, sources, targets, pass), Greatest(g));
    forall t: Member ensures Sem(Any(Choices(g, sources, t)), Greatest(g)) <==> Covered(g, sources, t) {
      ChoicesIff(g, sources, t);
    }
  }

  lemma RequirementsIff(g: Graph, sources: seq<Member>, targets: seq<Member>)
    ensures Sem(All(Requirements(sources, targets)), Greatest(g)) <==>
            AllRequired(g, sources, targets)
  {
    hide Sem, Allowed, RequirementChoices, Requirements;
    AllIff(Requirements(sources, targets), Greatest(g));
    forall s: Member ensures Sem(Any(RequirementChoices(s, targets)), Greatest(g)) <==> Allowed(g, s, targets) {
      RequirementChoicesIff(g, s, targets);
    }
    assert forall s :: IsRequirement(s) <==> s.region == Requires && CanBeRequired(s.kind);
  }

  /** Every target of one pass is covered. */
  ghost predicate PassCovered(g: Graph, ss: seq<Member>, ts: seq<Member>, pass: Pass) {
    forall t :: t in ts && InPass(t, pass) ==> Covered(g, ss, t)
  }

  ghost predicate AllRequired(g: Graph, ss: seq<Member>, ts: seq<Member>) {
    forall s :: s in ss && s.region == Requires && CanBeRequired(s.kind) ==> Allowed(g, s, ts)
  }

  lemma InterfaceRuleIff(g: Graph, ss: seq<Member>, ts: seq<Member>)
    ensures Sem(InterfaceRule(g, ss, ts), Greatest(g)) <==>
            && PassCovered(g, ss, ts, TypeNames) && PassCovered(g, ss, ts, Constructors)
            && PassCovered(g, ss, ts, Provided) && PassCovered(g, ss, ts, Hidden)
            && AllRequired(g, ss, ts) && PassCovered(g, ss, ts, Actions)
  {
    hide Sem, Covers, Requirements, Covered, Allowed, InPass;
    var names, constructors := Covers(g, ss, ts, TypeNames), Covers(g, ss, ts, Constructors);
    var provided, hidden := Covers(g, ss, ts, Provided), Covers(g, ss, ts, Hidden);
    var required, actions := Requirements(ss, ts), Covers(g, ss, ts, Actions);
    MoreParts(names + constructors + provided + hidden + required, actions, Greatest(g));
    MoreParts(names + constructors + provided + hidden, required, Greatest(g));
    MoreParts(names + constructors + provided, hidden, Greatest(g));
    MoreParts(names + constructors, provided, Greatest(g));
    MoreParts(names, constructors, Greatest(g));
    CoversIff(g, ss, ts, TypeNames);
    CoversIff(g, ss, ts, Constructors);
    CoversIff(g, ss, ts, Provided);
    CoversIff(g, ss, ts, Hidden);
    CoversIff(g, ss, ts, Actions);
    RequirementsIff(g, ss, ts);
  }

  lemma PassesCover(g: Graph, ss: seq<Member>, ts: seq<Member>)
    ensures (forall t :: t in ts && !(t.region == Requires && CanBeRequired(t.kind)) ==> Covered(g, ss, t)) <==>
            && PassCovered(g, ss, ts, TypeNames) && PassCovered(g, ss, ts, Constructors)
            && PassCovered(g, ss, ts, Provided) && PassCovered(g, ss, ts, Hidden) && PassCovered(g, ss, ts, Actions)
  {
    hide Covered;
  }

  /** An interface is a subtype when it covers every constituent of the other that the other
      does not merely require, and the other requires all that it requires itself. */
  lemma InterfacesIff(g: Graph, l: nat, r: nat, ss: seq<Member>, ts: seq<Member>)
    requires l < |g| && r < |g| && g[l] == Interface(ss) && g[r] == Interface(ts)
    ensures IsSubtype(g, l, r) <==>
            && (forall t :: t in ts && !(t.region == Requires && CanBeRequired(t.kind)) ==> Covered(g, ss, t))
            && (forall s :: s in ss && s.region == Requires && CanBeRequired(s.kind) ==> Allowed(g, s, ts))
  {
    hide IsSubtype, Sem, Covered, Allowed, InterfaceRule, PassCovered;
    RuleIff(g, l, r);
    assert Rule(g, l, r) == InterfaceRule(g, ss, ts);
    InterfaceRuleIff(g, ss, ts);
    PassesCover(g, ss, ts);
  }

  // ----- Names -----

  /** Library types are known by name only: GST is below Float, and all are below the
      interface that asks for nothing. */
  lemma LibrariesIff(g: Graph, l: nat, r: nat, n: Text)
    requires l < |g| && r < |g| && g[l] == Library(n)
    ensures IsSubtype(g, l, r) <==>
            g[r] == Library(n) || (n == GST && g[r] == Library(FLOAT)) || g[r] == Interface([])
  {
    hide IsSubtype;
    RuleIff(g, l, r);
  }

  lemma ReferencesIff(g: Graph, l: nat, r: nat, n: Text)
    requires l < |g| && r < |g| && g[l] == Reference(n)
    ensures IsSubtype(g, l, r) <==> g[r] == Reference(n)
  {
    hide IsSubtype;
    RuleIff(g, l, r);
  }

  /** Descriptors of different kinds are related only when a library type or an event stands
      for an interface. */
  lemma KindsApart(g: Graph, l: nat, r: nat)
    requires IsSubtype(g, l, r)
    ensures l < |g| && r < |g|
    ensures g[l].Function? <==> g[r].Function?
    ensures g[l].Reference? <==> g[r].Reference?
    ensures g[l].Event? ==> g[r].Event? || g[r].Interface?
    ensures g[l].Library? ==> g[r].Library? || g[r].Interface?
    ensures g[l].Interface? ==> g[r].Interface?
  {
    hide IsSubtype;
    RuleIff(g, l, r);
  }
}
