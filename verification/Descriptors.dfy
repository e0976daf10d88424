/** Type descriptors and the structural subtype rules between them (rapide_type.go).

    A descriptor is a node of a finite, possibly cyclic graph; a node is named by its index.
    `Rule` states what one pair needs, as a formula over further pairs in the order the
    checker tries them. */
module Descriptors {
  import opened Texts
  import opened Timings

  // ----- Formulas over subtype goals -----

  /** Conjunctions and disjunctions are tried from the left and stop early. */
  datatype Formula =
    | Constant(holds: bool)
    | Goal(left: nat, right: nat)
    | All(parts: seq<Formula>)
    | Any(choices: seq<Formula>)

  type Pair = (nat, nat)

  /** The formula holds when goals are looked up in s. */
  ghost predicate Sem(f: Formula, s: iset<Pair>) {
    match f
    case Constant(b) => b
    case Goal(l, r) => (l, r) in s
    case All(fs) => forall i :: 0 <= i < |fs| ==> Sem(fs[i], s)
    case Any(fs) => exists i :: 0 <= i < |fs| && Sem(fs[i], s)
  }

  lemma {:induction false} SemMonotone(f: Formula, s: iset<Pair>, t: iset<Pair>)
    requires s <= t && Sem(f, s)
    ensures Sem(f, t)
    decreases f
  {
    match f
    case Constant(b) =>
    case Goal(l, r) =>
    case All(fs) =>
      forall i | 0 <= i < |fs| ensures Sem(fs[i], t) {
        SemMonotone(fs[i], s, t);
      }
    case Any(fs) =>
      var i :| 0 <= i < |fs| && Sem(fs[i], s);
      SemMonotone(fs[i], s, t);
  }

  // ----- The graph -----

  datatype ParameterKind = ObjectParameter | TypeParameter

  /** A type parameter's bound may be absent. */
  datatype Parameter = Parameter(kind: ParameterKind, name: Text, hasDefault: bool, typ: Option<nat>)

  datatype EventField = EventField(name: Text, typ: nat)

  datatype MemberKind = ObjectMember | ActionMember | TypeName | TypeConstructor | ModuleGenerator | ExceptionMember

  datatype Region = Provides | Private | Requires

  datatype Denotation = AnyDenotation | SubtypeDenotation | ExactDenotation

  /** `typ` is a constructor's characteristic function and `result` its result bound. */
  datatype Member = Member(
    kind: MemberKind, region: Region, incoming: bool, spec: Denotation, name: Text,
    typ: Option<nat>, result: Option<nat>)

  datatype Node =
    | Function(parameters: seq<Parameter>, output: nat)
    | Event(fields: seq<EventField>)
    | Interface(members: seq<Member>)
    | Library(library: Text)
    | Reference(reference: Text)

  type Graph = seq<Node>

  // "GST" and "Float"
  const GST: Text := [71, 83, 84]
  const FLOAT: Text := [70, 108, 111, 97, 116]

  // ----- Rules -----

  function OptionalGoal(l: Option<nat>, r: Option<nat>): Formula {
    if l.Some? && r.Some? then Goal(l.value, r.value) else Constant(false)
  }

  function BothWays(l: Option<nat>, r: Option<nat>): Formula {
    All([OptionalGoal(l, r), OptionalGoal(r, l)])
  }

  /** One shared parameter: same name and kind, type contravariant. */
  function ParameterRule(l: Parameter, r: Parameter): Formula {
    if l.name == [] || r.name == [] || l.name != r.name || l.kind != r.kind then Constant(false)
    else if l.kind.TypeParameter? && l.typ.None? then Constant(true)
    else OptionalGoal(r.typ, l.typ)
  }

  function ParameterRules(ls: seq<Parameter>, rs: seq<Parameter>): (fs: seq<Formula>)
    ensures |fs| == if |ls| <= |rs| then |ls| else |rs|
    ensures forall i :: 0 <= i < |fs| ==> fs[i] == ParameterRule(ls[i], rs[i])
  {
    if ls == [] || rs == [] then [] else [ParameterRule(ls[0], rs[0])] + ParameterRules(ls[1..], rs[1..])
  }

  predicate ExtrasDefaulted(ls: seq<Parameter>, rs: seq<Parameter>) {
    forall i :: |rs| <= i < |ls| ==> ls[i].hasDefault
  }

  /** functionSubtype. */
  function FunctionRule(ls: seq<Parameter>, lr: nat, rs: seq<Parameter>, rr: nat): Formula {
    if !ExtrasDefaulted(ls, rs) then Constant(false)
    else All(ParameterRules(ls, rs) + [Goal(lr, rr)])
  }

  /** typeNameSpecificationSubtype. */
  function TypeNameRule(s: Member, t: Member): Formula {
    match t.spec
    case AnyDenotation => Constant(true)
    case SubtypeDenotation => if s.spec.AnyDenotation? then Constant(false) else OptionalGoal(s.typ, t.typ)
    case ExactDenotation => if !s.spec.ExactDenotation? then Constant(false) else BothWays(s.typ, t.typ)
  }

  function ParametersOf(g: Graph, typ: Option<nat>): seq<Parameter> {
    if typ.Some? && typ.value < |g| && g[typ.value].Function? then g[typ.value].parameters else []
  }

  function SameParameter(l: Parameter, r: Parameter): Formula {
    if l.kind != r.kind || l.name != r.name || l.hasDefault != r.hasDefault || l.typ.None? != r.typ.None? then Constant(false)
    else if l.typ.None? then Constant(true)
    else BothWays(l.typ, r.typ)
  }

  function SameParameters(ls: seq<Parameter>, rs: seq<Parameter>): (fs: seq<Formula>)
    requires |ls| == |rs|
    ensures |fs| == |ls| && forall i :: 0 <= i < |fs| ==> fs[i] == SameParameter(ls[i], rs[i])
  {
    if ls == [] then [] else [SameParameter(ls[0], rs[0])] + SameParameters(ls[1..], rs[1..])
  }

  /** sameClosedTypeConstructors. */
  function SameConstructors(g: Graph, s: Member, t: Member): Formula {
    var ls, rs := ParametersOf(g, s.typ), ParametersOf(g, t.typ);
    if s.result.None? || t.result.None? || |ls| != |rs| then Constant(false)
    else All(SameParameters(ls, rs) + [BothWays(s.result, t.result)])
  }

  /** typeConstructorSpecificationSubtype. */
  function ConstructorRule(g: Graph, s: Member, t: Member): Formula {
    All([OptionalGoal(s.typ, t.typ),
         match t.spec
         case AnyDenotation => Constant(true)
         case SubtypeDenotation => if s.spec.AnyDenotation? then Constant(false) else OptionalGoal(s.result, t.result)
         case ExactDenotation => if !s.spec.ExactDenotation? then Constant(false) else SameConstructors(g, s, t)])
  }

  /** How a source constituent conforms to a target of the same kind and name. */
  function MemberRule(g: Graph, s: Member, t: Member): Formula {
    if t.kind.TypeName? then TypeNameRule(s, t)
    else if t.kind.TypeConstructor? then ConstructorRule(g, s, t)
    else OptionalGoal(s.typ, t.typ)
  }

  predicate RegionAllows(source: Region, target: Region) {
    source.Provides? || (target.Private? && source.Private?)
  }

  /** May s stand for t, types aside?  Actions match by mode, everything else by region. */
  predicate Candidate(s: Member, t: Member) {
    && s.kind == t.kind && s.name == t.name
    && if t.kind.ActionMember? then s.incoming == t.incoming else RegionAllows(s.region, t.region)
  }

  function Choices(g: Graph, sources: seq<Member>, t: Member): (fs: seq<Formula>)
    ensures forall s :: s in sources && Candidate(s, t) ==> MemberRule(g, s, t) in fs
    ensures forall f :: f in fs ==> exists s :: s in sources && Candidate(s, t) && f == MemberRule(g, s, t)
  {
    if sources == [] then []
    else
      assert sources == [sources[0]] + sources[1..];
      (if Candidate(sources[0], t) then [MemberRule(g, sources[0], t)] else []) + Choices(g, sources[1..], t)
  }

  /** The order in which the checker covers target constituents. */
  datatype Pass = TypeNames | Constructors | Provided | Hidden | Actions

  predicate IsObjectLike(t: Member) {
    t.kind.ObjectMember? || t.kind.ModuleGenerator? || t.kind.ExceptionMember?
  }

  predicate InPass(t: Member, pass: Pass) {
    match pass
    case TypeNames => t.kind.TypeName?
    case Constructors => t.kind.TypeConstructor?
    case Provided => IsObjectLike(t) && t.region.Provides?
    case Hidden => IsObjectLike(t) && t.region.Private?
    case Actions => t.kind.ActionMember?
  }

  function Covers(g: Graph, sources: seq<Member>, targets: seq<Member>, pass: Pass): (fs: seq<Formula>)
    ensures forall t :: t in targets && InPass(t, pass) ==> Any(Choices(g, sources, t)) in fs
    ensures forall f :: f in fs ==> exists t :: t in targets && InPass(t, pass) && f == Any(Choices(g, sources, t))
  {
    if targets == [] then []
    else
      assert targets == [targets[0]] + targets[1..];
      (if InPass(targets[0], pass) then [Any(Choices(g, sources, targets[0]))] else []) + Covers(g, sources, targets[1..], pass)
  }

  /** A source requirement may be met by any target requirement of its kind and name. */
  function RequirementChoices(s: Member, targets: seq<Member>): (fs: seq<Formula>)
    ensures forall t :: t in targets && MeetsRequirement(s, t) ==> OptionalGoal(t.typ, s.typ) in fs
    ensures forall f :: f in fs ==> exists t :: t in targets && MeetsRequirement(s, t) && f == OptionalGoal(t.typ, s.typ)
  {
    if targets == [] then []
    else
      assert targets == [targets[0]] + targets[1..];
      (if MeetsRequirement(s, targets[0]) then [OptionalGoal(targets[0].typ, s.typ)] else []) + RequirementChoices(s, targets[1..])
  }

  predicate MeetsRequirement(s: Member, t: Member) {
    t.kind == s.kind && t.region.Requires? && t.name == s.name
  }

  predicate IsRequirement(s: Member) {
    IsObjectLike(s) && s.region.Requires?
  }

  function Requirements(sources: seq<Member>, targets: seq<Member>): (fs: seq<Formula>)
    ensures forall s :: s in sources && IsRequirement(s) ==> Any(RequirementChoices(s, targets)) in fs
    ensures forall f :: f in fs ==> exists s :: s in sources && IsRequirement(s) && f == Any(RequirementChoices(s, targets))
  {
    if sources == [] then []
    else
      assert sources == [sources[0]] + sources[1..];
      (if IsRequirement(sources[0]) then [Any(RequirementChoices(sources[0], targets))] else []) + Requirements(sources[1..], targets)
  }

  /** interfaceSubtype. */
  function InterfaceRule(g: Graph, sources: seq<Member>, targets: seq<Member>): Formula {
    All(Covers(g, sources, targets, TypeNames) + Covers(g, sources, targets, Constructors) +
        Covers(g, sources, targets, Provided) + Covers(g, sources, targets, Hidden) +
        Requirements(sources, targets) + Covers(g, sources, targets, Actions))
  }

  function FieldChoices(sources: seq<EventField>, name: Text, typ: nat): (fs: seq<Formula>)
    ensures forall s :: s in sources && s.name == name ==> Goal(s.typ, typ) in fs
    ensures forall f :: f in fs ==> exists s :: s in sources && s.name == name && f == Goal(s.typ, typ)
  {
    if sources == [] then []
    else
      assert sources == [sources[0]] + sources[1..];
      (if sources[0].name == name then [Goal(sources[0].typ, typ)] else []) + FieldChoices(sources[1..], name, typ)
  }

  function FieldRules(sources: seq<EventField>, targets: seq<EventField>): (fs: seq<Formula>)
    ensures |fs| == |targets|
    ensures forall i :: 0 <= i < |fs| ==> fs[i] == Any(FieldChoices(sources, targets[i].name, targets[i].typ))
  {
    if targets == [] then []
    else [Any(FieldChoices(sources, targets[0].name, targets[0].typ))] + FieldRules(sources, targets[1..])
  }

  /** One member an event record must offer as an interface. */
  function RecordRule(sources: seq<EventField>, t: Member): Formula {
    if !t.kind.ObjectMember? then Constant(false)
    else if t.region.Requires? then Constant(true)
    else if t.typ.None? then Constant(false)
    else Any(FieldChoices(sources, t.name, t.typ.value))
  }

  function RecordRules(sources: seq<EventField>, targets: seq<Member>): (fs: seq<Formula>)
    ensures |fs| == |targets| && forall i :: 0 <= i < |fs| ==> fs[i] == RecordRule(sources, targets[i])
  {
    if targets == [] then [] else [RecordRule(sources, targets[0])] + RecordRules(sources, targets[1..])
  }

  /** What a pair of nodes needs; a dangling reference needs the impossible. */
  function Rule(g: Graph, l: nat, r: nat): Formula {
    if l >= |g| || r >= |g| then Constant(false)
    else
      match (g[l], g[r])
      case (Event(fs), Interface(ms)) => All(RecordRules(fs, ms))
      case (Library(n), Interface(ms)) => Constant(ms == [])
      case (Library(n), Library(m)) => Constant(n == m || (n == GST && m == FLOAT))
      case (Reference(n), Reference(m)) => Constant(n == m)
      case (Function(ls, lr), Function(rs, rr)) => FunctionRule(ls, lr, rs, rr)
      case (Event(fs), Event(hs)) => All(FieldRules(fs, hs))
      case (Interface(ss), Interface(ts)) => InterfaceRule(g, ss, ts)
      case _ => Constant(false)
  }

  // ----- Subtyping, independently of any search -----

  /** Every pair's rule holds within the set. */
  ghost predicate PostFixed(g: Graph, s: iset<Pair>) {
    forall l, r :: (l, r) in s ==> Sem(Rule(g, l, r), s)
  }

  ghost predicate IsSubtype(g: Graph, l: nat, r: nat) {
    exists s: iset<Pair> :: (l, r) in s && PostFixed(g, s)
  }

  /** Type equality is mutual subtyping. */
  ghost predicate TypesEqual(g: Graph, l: nat, r: nat) {
    IsSubtype(g, l, r) && IsSubtype(g, r, l)
  }

  /** The greatest fixed point of the rules. */
  ghost function Greatest(g: Graph): iset<Pair> {
    iset p: Pair | IsSubtype(g, p.0, p.1)
  }

  lemma GreatestIsFixed(g: Graph)
    ensures PostFixed(g, Greatest(g))
    ensures forall s :: PostFixed(g, s) ==> s <= Greatest(g)
    ensures forall l, r :: Sem(Rule(g, l, r), Greatest(g)) ==> IsSubtype(g, l, r)
  {
    hide Rule, Sem;
    forall s | PostFixed(g, s) ensures s <= Greatest(g) {
      forall p: Pair | p in s ensures p in Greatest(g) {
        assert (p.0, p.1) in s;
      }
    }
    forall l, r | (l, r) in Greatest(g) ensures Sem(Rule(g, l, r), Greatest(g)) {
      var s: iset<Pair> :| (l, r) in s && PostFixed(g, s);
      SemMonotone(Rule(g, l, r), s, Greatest(g));
    }
    forall l: nat, r: nat | Sem(Rule(g, l, r), Greatest(g)) ensures IsSubtype(g, l, r) {
      var s := Greatest(g) + iset{(l, r)};
      forall a, b | (a, b) in s ensures Sem(Rule(g, a, b), s) {
        SemMonotone(Rule(g, a, b), Greatest(g), s);
      }
      assert PostFixed(g, s) && (l, r) in s;
    }
  }
}
