/** The memoising subtype checker (rapide_type.go): pairs under examination are provisionally
    true, and every verdict is kept. */
module SubtypeChecker {
  import opened Texts
  import opened Reachability
  import opened Descriptors

  datatype Verdict = Visiting | No | Yes

  type Memo = map<Pair, Verdict>

  // ----- The search as a function -----

  function AllPairs(g: Graph): (pairs: set<Pair>)
    ensures forall l: nat, r: nat :: (l, r) in pairs <==> l < |g| && r < |g|
  {
    set l: nat, r: nat | l < |g| && r < |g| :: (l, r)
  }

  function Unseen(g: Graph, memo: Memo): set<Pair> {
    AllPairs(g) - memo.Keys
  }

  /** The verdict on a formula and the memo it leaves behind. */
  function Check(g: Graph, memo: Memo, f: Formula): (r: (bool, Memo))
    ensures memo.Keys <= r.1.Keys
    decreases Unseen(g, memo), f
  {
    match f
    case Constant(b) => (b, memo)
    case Goal(l, r) =>
      if (l, r) in memo then (!memo[(l, r)].No?, memo)
      else if l >= |g| || r >= |g| then (false, memo)
      else
        var started := memo[(l, r) := Visiting];
        assert (l, r) in Unseen(g, memo) && (l, r) !in Unseen(g, started);
        var (holds, after) := Check(g, started, Rule(g, l, r));
        (holds, after[(l, r) := if holds then Yes else No])
    case All(fs) => CheckAll(g, memo, fs)
    case Any(fs) => CheckAny(g, memo, fs)
  }

  function CheckAll(g: Graph, memo: Memo, fs: seq<Formula>): (r: (bool, Memo))
    ensures memo.Keys <= r.1.Keys
    decreases Unseen(g, memo), fs
  {
    if fs == [] then (true, memo)
    else
      var (holds, after) := Check(g, memo, fs[0]);
      if !holds then (false, after) else CheckAll(g, after, fs[1..])
  }

  function CheckAny(g: Graph, memo: Memo, fs: seq<Formula>): (r: (bool, Memo))
    ensures memo.Keys <= r.1.Keys
    decreases Unseen(g, memo), fs
  {
    if fs == [] then (false, memo)
    else
      var (holds, after) := Check(g, memo, fs[0]);
      if holds then (true, after) else CheckAny(g, after, fs[1..])
  }

  // ----- The checker -----

  class Checker {
    const graph: Graph
    var states: Memo

    constructor (g: Graph)
      ensures graph == g && states == map[]
    {
      graph := g;
      states := map[];
    }

    /** subtype: terminates on every graph, cyclic ones included. */
    method Subtype(l: nat, r: nat) returns (holds: bool)
      modifies this
      ensures (holds, states) == Check(graph, old(states), Goal(l, r))
      decreases Unseen(graph, states), Goal(l, r), 0
    {
      if (l, r) in states {
        return !states[(l, r)].No?;
      }
      if l >= |graph| || r >= |graph| {
        return false;
      }
      assert (l, r) in Unseen(graph, states);
      states := states[(l, r) := Visiting];
      holds := Evaluate(Rule(graph, l, r));
      states := states[(l, r) := if holds then Yes else No];
    }

    /** A rule's obligations from the left, stopping at the first that decides it. */
    method Evaluate(f: Formula) returns (holds: bool)
      modifies this
      ensures (holds, states) == Check(graph, old(states), f)
      decreases Unseen(graph, states), f, 1
    {
      match f
      case Constant(b) => holds := b;
      case Goal(l, r) => holds := Subtype(l, r);
      case All(fs) =>
        assert fs[0..] == fs;
        for i := 0 to |fs|
          invariant old(states).Keys <= states.Keys
          invariant CheckAll(graph, states, fs[i..]) == CheckAll(graph, old(states), fs)
        {
          assert fs[i..][1..] == fs[i + 1..] && fs[i..][0] == fs[i];
          assert fs[i] < f;
          holds := Evaluate(fs[i]);
          if !holds {
            return;
          }
        }
        assert fs[|fs|..] == [];
        holds := true;
      case Any(fs) =>
        assert fs[0..] == fs;
        for i := 0 to |fs|
          invariant old(states).Keys <= states.Keys
          invariant CheckAny(graph, states, fs[i..]) == CheckAny(graph, old(states), fs)
        {
          assert fs[i..][1..] == fs[i + 1..] && fs[i..][0] == fs[i];
          assert fs[i] < f;
          holds := Evaluate(fs[i]);
          if holds {
            return;
          }
        }
        assert fs[|fs|..] == [];
        holds := false;
    }
  }

  /** IsRapideSubtype. */
  method IsRapideSubtype(g: Graph, l: nat, r: nat) returns (holds: bool)
    ensures holds == Check(g, map[], Goal(l, r)).0
  {
    var checker := new Checker(g);
    holds := checker.Subtype(l, r);
  }

  // ----- Completeness -----

  /** Every kept refusal is right. */
  ghost predicate Honest(g: Graph, memo: Memo) {
    forall p :: p in memo && memo[p].No? ==> p !in Greatest(g)
  }

  /** Whatever is refused does not hold in the greatest fixed point. */
  lemma {:induction false} CheckComplete(g: Graph, memo: Memo, f: Formula)
    requires Honest(g, memo)
    ensures Honest(g, Check(g, memo, f).1)
    ensures Sem(f, Greatest(g)) ==> Check(g, memo, f).0
    decreases Unseen(g, memo), f
  {
    hide Rule, IsSubtype, Greatest;
    GreatestIsFixed(g);
    match f
    case Constant(b) =>
    case Goal(l, r) =>
      if (l, r) !in memo && l < |g| && r < |g| {
        var started := memo[(l, r) := Visiting];
        assert (l, r) in Unseen(g, memo) && (l, r) !in Unseen(g, started);
        CheckComplete(g, started, Rule(g, l, r));
      } else if (l, r) !in memo {
        DanglingFails(g, l, r);
      }
    case All(fs) => CheckAllComplete(g, memo, fs);
    case Any(fs) => CheckAnyComplete(g, memo, fs);
  }

  lemma DanglingFails(g: Graph, l: nat, r: nat)
    requires l >= |g| || r >= |g|
    ensures (l, r) !in Greatest(g)
  {
    GreatestIsFixed(g);
  }

  lemma {:induction false} CheckAllComplete(g: Graph, memo: Memo, fs: seq<Formula>)
    requires Honest(g, memo)
    ensures Honest(g, CheckAll(g, memo, fs).1)
    ensures Sem(All(fs), Greatest(g)) ==> CheckAll(g, memo, fs).0
    decreases Unseen(g, memo), fs
  {
    hide Rule, Greatest;
    if fs != [] {
      CheckComplete(g, memo, fs[0]);
      var (holds, after) := Check(g, memo, fs[0]);
      if holds {
        CheckAllComplete(g, after, fs[1..]);
        if Sem(All(fs), Greatest(g)) {
          forall i | 0 <= i < |fs[1..]| ensures Sem(fs[1..][i], Greatest(g)) {
            assert Sem(fs[i + 1], Greatest(g));
          }
        }
      }
    }
  }

  lemma {:induction false} CheckAnyComplete(g: Graph, memo: Memo, fs: seq<Formula>)
    requires Honest(g, memo)
    ensures Honest(g, CheckAny(g, memo, fs).1)
    ensures Sem(Any(fs), Greatest(g)) ==> CheckAny(g, memo, fs).0
    decreases Unseen(g, memo), fs
  {
    hide Rule, Greatest;
    if fs != [] {
      CheckComplete(g, memo, fs[0]);
      var (holds, after) := Check(g, memo, fs[0]);
      if !holds {
        CheckAnyComplete(g, after, fs[1..]);
        if Sem(Any(fs), Greatest(g)) {
          var i :| 0 <= i < |fs| && Sem(fs[i], Greatest(g));
          assert fs[1..][i - 1] == fs[i];
        }
      }
    }
  }

  // ----- Goals and cycles of goals -----

  /** The pairs a formula asks about. */
  ghost function GoalsOf(f: Formula): set<Pair> {
    match f
    case Constant(_) => {}
    case Goal(l, r) => {(l, r)}
    case All(fs) => set i, p | 0 <= i < |fs| && p in GoalsOf(fs[i]) :: p
    case Any(fs) => set i, p | 0 <= i < |fs| && p in GoalsOf(fs[i]) :: p
  }

  ghost function GoalEdges(g: Graph): set<(Pair, Pair)> {
    set p, q | p in AllPairs(g) && q in GoalsOf(Rule(g, p.0, p.1)) :: (p, q)
  }

  ghost predicate Leads(g: Graph, p: Pair, q: Pair) {
    Reach(GoalEdges(g), p, q)
  }

  /** No cycle of goals is reached from the pair. */
  ghost predicate Grounded(g: Graph, p: Pair) {
    forall q, s :: Leads(g, p, q) && (q, s) in GoalEdges(g) ==> !Leads(g, s, q)
  }

  /** Wherever several choices compete, each asks only about grounded pairs. */
  ghost predicate ChoicesGrounded(g: Graph, f: Formula) {
    match f
    case Constant(_) => true
    case Goal(_, _) => true
    case All(fs) => forall i :: 0 <= i < |fs| ==> ChoicesGrounded(g, fs[i])
    case Any(fs) => (|fs| > 1 ==> AllGrounded(g, f)) && forall i :: 0 <= i < |fs| ==> ChoicesGrounded(g, fs[i])
  }

  ghost predicate AllGrounded(g: Graph, f: Formula) {
    forall p :: p in GoalsOf(f) ==> Grounded(g, p)
  }

  ghost predicate GroundedOverloads(g: Graph) {
    forall l: nat, r: nat :: ChoicesGrounded(g, Rule(g, l, r))
  }

  /** No disjunction offers more than one choice. */
  ghost predicate SingleChoice(f: Formula) {
    match f
    case Constant(_) => true
    case Goal(_, _) => true
    case All(fs) => forall i :: 0 <= i < |fs| ==> SingleChoice(fs[i])
    case Any(fs) => |fs| <= 1 && forall i :: 0 <= i < |fs| ==> SingleChoice(fs[i])
  }

  ghost predicate Unambiguous(g: Graph) {
    forall l: nat, r: nat :: SingleChoice(Rule(g, l, r))
  }

  lemma {:induction false} SingleGrounded(g: Graph, f: Formula)
    requires SingleChoice(f)
    ensures ChoicesGrounded(g, f)
  {
    hide GoalsOf, Grounded;
    match f
    case Constant(_) =>
    case Goal(_, _) =>
    case All(fs) =>
      forall i | 0 <= i < |fs| ensures ChoicesGrounded(g, fs[i]) {
        SingleGrounded(g, fs[i]);
      }
    case Any(fs) =>
      forall i | 0 <= i < |fs| ensures ChoicesGrounded(g, fs[i]) {
        SingleGrounded(g, fs[i]);
      }
  }

  /** Without competing choices there is nothing to ground. */
  lemma UnambiguousGrounded(g: Graph)
    requires Unambiguous(g)
    ensures GroundedOverloads(g)
  {
    hide Rule, SingleChoice, ChoicesGrounded;
    forall l: nat, r: nat ensures ChoicesGrounded(g, Rule(g, l, r)) {
      SingleGrounded(g, Rule(g, l, r));
    }
  }

  /** Nor is there anything to fear from overloads where goals never lead back. */
  lemma AcyclicGrounded(g: Graph)
    requires Acyclic(GoalEdges(g))
    ensures GroundedOverloads(g)
  {
    hide Rule, GoalsOf, Reach, GoalEdges;
    forall l: nat, r: nat ensures ChoicesGrounded(g, Rule(g, l, r)) {
      AcyclicChoices(g, Rule(g, l, r));
    }
  }

  lemma {:induction false} AcyclicChoices(g: Graph, f: Formula)
    requires Acyclic(GoalEdges(g))
    ensures ChoicesGrounded(g, f)
  {
    hide Rule, GoalsOf, Reach, GoalEdges;
    match f
    case Constant(_) =>
    case Goal(_, _) =>
    case All(fs) =>
      forall i | 0 <= i < |fs| ensures ChoicesGrounded(g, fs[i]) {
        AcyclicChoices(g, fs[i]);
      }
    case Any(fs) =>
      forall i | 0 <= i < |fs| ensures ChoicesGrounded(g, fs[i]) {
        AcyclicChoices(g, fs[i]);
      }
  }

  lemma GroundedNext(g: Graph, p: Pair, q: Pair)
    requires Grounded(g, p) && (p, q) in GoalEdges(g)
    ensures Grounded(g, q) && Leads(g, p, q) && !Leads(g, q, p) && Leads(g, p, p)
    ensures forall v :: Leads(g, q, v) ==> Leads(g, p, v)
  {
    hide Reach, GoalEdges;
    var edges := GoalEdges(g);
    ReachItself(edges, p);
    ReachStep(edges, p, p, q);
    forall v | Leads(g, q, v) ensures Leads(g, p, v) {
      ReachTrans(edges, p, q, v);
    }
  }

  lemma RuleEdges(g: Graph, p: Pair)
    ensures p in AllPairs(g) ==> forall q :: q in GoalsOf(Rule(g, p.0, p.1)) ==> (p, q) in GoalEdges(g)
  {
    hide Rule, GoalsOf;
  }

  // ----- Grounded formulas are decided outright -----

  /** Everything not refused: established or still assumed. */
  ghost function Assumed(memo: Memo): iset<Pair> {
    iset p | p in memo && !memo[p].No?
  }

  ghost function Pending(memo: Memo): set<Pair> {
    set p | p in memo && memo[p].Visiting?
  }

  /** What is kept of grounded pairs is right. */
  ghost predicate GroundedRight(g: Graph, memo: Memo) {
    forall p :: p in memo && memo[p].Yes? && Grounded(g, p) ==> p in Greatest(g)
  }

  /** Nothing under examination is led to from the formula. */
  ghost predicate Clear(g: Graph, memo: Memo, f: Formula) {
    forall p, v :: p in GoalsOf(f) && v in Pending(memo) ==> !Leads(g, p, v)
  }

  /** Old verdicts stay, and new ones are of grounded pairs. */
  ghost predicate AddsGrounded(g: Graph, memo: Memo, after: Memo) {
    && Pending(after) == Pending(memo)
    && (forall p :: p in memo ==> p in after && after[p] == memo[p])
    && (forall p :: p in after && p !in memo ==> Grounded(g, p))
  }

  /** A search among grounded pairs assumes nothing, so what it affirms holds, whether or not
      its own answer is true. */
  lemma {:induction false} GroundedSearch(g: Graph, memo: Memo, f: Formula)
    requires AllGrounded(g, f) && GroundedRight(g, memo) && Clear(g, memo, f)
    ensures var after := Check(g, memo, f).1; GroundedRight(g, after) && AddsGrounded(g, memo, after)
    ensures Check(g, memo, f).0 ==> Sem(f, Greatest(g))
    decreases Unseen(g, memo), f
  {
    hide Rule, Grounded, Leads, Greatest, GoalEdges;
    match f
    case Constant(b) =>
    case Goal(l, r) =>
      var p := (l, r);
      assert p in GoalsOf(f);
      LeadsItself(g, p);
      if p !in memo && l < |g| && r < |g| {
        var started := memo[p := Visiting];
        assert p in Unseen(g, memo) && p !in Unseen(g, started);
        StartGrounded(g, memo, started, p);
        GroundedSearch(g, started, Rule(g, l, r));
        FinishGrounded(g, memo, started, p);
      }
    case All(fs) => GroundedSearchAll(g, memo, fs);
    case Any(fs) => GroundedSearchAny(g, memo, fs);
  }

  lemma LeadsItself(g: Graph, p: Pair)
    ensures Leads(g, p, p)
  {
    ReachItself(GoalEdges(g), p);
  }

  lemma StartGrounded(g: Graph, memo: Memo, started: Memo, p: Pair)
    requires p !in memo && p in AllPairs(g) && started == memo[p := Visiting]
    requires Grounded(g, p) && GroundedRight(g, memo) && forall v :: v in Pending(memo) ==> !Leads(g, p, v)
    ensures AllGrounded(g, Rule(g, p.0, p.1)) && GroundedRight(g, started) && Clear(g, started, Rule(g, p.0, p.1))
  {
    hide Rule, GoalsOf, Grounded, Leads, Greatest, GoalEdges;
    RuleEdges(g, p);
    forall q | q in GoalsOf(Rule(g, p.0, p.1))
      ensures Grounded(g, q)
      ensures forall v :: v in Pending(started) ==> !Leads(g, q, v)
    {
      GroundedNext(g, p, q);
    }
  }

  lemma FinishGrounded(g: Graph, memo: Memo, started: Memo, p: Pair)
    requires p !in memo && p in AllPairs(g) && started == memo[p := Visiting] && Grounded(g, p)
    requires var after := Check(g, started, Rule(g, p.0, p.1)).1; GroundedRight(g, after) && AddsGrounded(g, started, after)
    requires Check(g, started, Rule(g, p.0, p.1)).0 ==> Sem(Rule(g, p.0, p.1), Greatest(g))
    ensures var (holds, after) := Check(g, memo, Goal(p.0, p.1));
            GroundedRight(g, after) && AddsGrounded(g, memo, after) && (holds ==> p in Greatest(g))
  {
    hide Rule, Grounded, Sem, IsSubtype;
    GreatestIsFixed(g);
    var (holds, after) := Check(g, started, Rule(g, p.0, p.1));
    var done := after[p := if holds then Yes else No];
    assert p == (p.0, p.1);
    assert Check(g, memo, Goal(p.0, p.1)) == (holds, done);
    assert after[p].Visiting? by { assert started[p].Visiting?; }
    assert Pending(started) == Pending(memo) + {p};
    assert Pending(done) == Pending(after) - {p};
  }

  lemma {:induction false} GroundedSearchAll(g: Graph, memo: Memo, fs: seq<Formula>)
    requires AllGrounded(g, All(fs)) && GroundedRight(g, memo) && Clear(g, memo, All(fs))
    ensures var after := CheckAll(g, memo, fs).1; GroundedRight(g, after) && AddsGrounded(g, memo, after)
    ensures CheckAll(g, memo, fs).0 ==> Sem(All(fs), Greatest(g))
    decreases Unseen(g, memo), fs
  {
    hide Rule, Grounded, Leads, Greatest, GoalEdges;
    if fs != [] {
      PartGoals(fs);
      GroundedSearch(g, memo, fs[0]);
      var (holds, after) := Check(g, memo, fs[0]);
      if holds {
        GroundedSearchAll(g, after, fs[1..]);
        if CheckAll(g, after, fs[1..]).0 {
          forall i | 0 <= i < |fs| ensures Sem(fs[i], Greatest(g)) {
            if i > 0 {
              assert Sem(fs[1..][i - 1], Greatest(g));
            }
          }
        }
      }
    }
  }

  lemma {:induction false} GroundedSearchAny(g: Graph, memo: Memo, fs: seq<Formula>)
    requires AllGrounded(g, Any(fs)) && GroundedRight(g, memo) && Clear(g, memo, Any(fs))
    ensures var after := CheckAny(g, memo, fs).1; GroundedRight(g, after) && AddsGrounded(g, memo, after)
    ensures CheckAny(g, memo, fs).0 ==> Sem(Any(fs), Greatest(g))
    decreases Unseen(g, memo), fs
  {
    hide Rule, Grounded, Leads, Greatest, GoalEdges;
    if fs != [] {
      PartGoals(fs);
      GroundedSearch(g, memo, fs[0]);
      var (holds, after) := Check(g, memo, fs[0]);
      if !holds {
        GroundedSearchAny(g, after, fs[1..]);
        if CheckAny(g, after, fs[1..]).0 {
          var i :| 0 <= i < |fs[1..]| && Sem(fs[1..][i], Greatest(g));
          assert Sem(fs[i + 1], Greatest(g));
        }
      }
    }
  }

  lemma PartGoals(fs: seq<Formula>)
    requires fs != []
    ensures GoalsOf(fs[0]) <= GoalsOf(All(fs)) && GoalsOf(All(fs[1..])) <= GoalsOf(All(fs))
    ensures GoalsOf(Any(fs)) == GoalsOf(All(fs)) && GoalsOf(Any(fs[1..])) == GoalsOf(All(fs[1..]))
    ensures forall i :: 0 <= i < |fs| ==> GoalsOf(fs[i]) <= GoalsOf(All(fs))
  {
    forall i, p | 0 <= i < |fs[1..]| && p in GoalsOf(fs[1..][i]) ensures p in GoalsOf(All(fs)) {
      assert p in GoalsOf(fs[i + 1]);
    }
  }

  // ----- Soundness with grounded overloads -----

  /** What is assumed together with what holds. */
  ghost function Trusted(g: Graph, memo: Memo): iset<Pair> {
    Assumed(memo) + Greatest(g)
  }

  /** Every established pair's rule holds under what is trusted. */
  ghost predicate Supported(g: Graph, memo: Memo) {
    forall l, r :: (l, r) in memo && memo[(l, r)].Yes? ==> Sem(Rule(g, l, r), Trusted(g, memo))
  }

  ghost predicate Grows(memo: Memo, after: Memo) {
    Assumed(memo) <= Assumed(after) && Pending(after) == Pending(memo)
  }

  /** Everything under examination leads on to the formula. */
  ghost predicate Examined(g: Graph, memo: Memo, f: Formula) {
    forall p, v :: p in GoalsOf(f) && v in Pending(memo) ==> LeadsOn(g, v, p)
  }

  ghost predicate LeadsOn(g: Graph, v: Pair, p: Pair) {
    exists s :: Leads(g, v, s) && (s, p) in GoalEdges(g)
  }

  ghost predicate SoundState(g: Graph, memo: Memo) {
    Supported(g, memo) && GroundedRight(g, memo)
  }

  /** What leads on to a grounded pair is not led to from it. */
  lemma GroundedClear(g: Graph, memo: Memo, f: Formula)
    requires AllGrounded(g, f) && Examined(g, memo, f)
    ensures Clear(g, memo, f)
  {
    hide GoalsOf, GoalEdges, Reach;
    forall p, v | p in GoalsOf(f) && v in Pending(memo) ensures !Leads(g, p, v) {
      if Leads(g, p, v) {
        assert LeadsOn(g, v, p);
        var s :| Leads(g, v, s) && (s, p) in GoalEdges(g);
        ReachTrans(GoalEdges(g), p, v, s);
      }
    }
  }

  /** Right verdicts on grounded pairs support themselves. */
  lemma AddedSupported(g: Graph, memo: Memo, after: Memo)
    requires SoundState(g, memo) && GroundedRight(g, after) && AddsGrounded(g, memo, after)
    ensures SoundState(g, after) && Grows(memo, after)
  {
    hide Rule, Sem, Grounded, IsSubtype;
    GreatestIsFixed(g);
    assert Trusted(g, memo) <= Trusted(g, after);
    forall l, r | (l, r) in after && after[(l, r)].Yes? ensures Sem(Rule(g, l, r), Trusted(g, after)) {
      if (l, r) in memo {
        SemMonotone(Rule(g, l, r), Trusted(g, memo), Trusted(g, after));
      } else {
        assert (l, r) in Greatest(g);
        SemMonotone(Rule(g, l, r), Greatest(g), Trusted(g, after));
      }
    }
  }

  /** A search that answers true has assumed nothing it later refused. */
  lemma {:induction false} CheckSound(g: Graph, memo: Memo, f: Formula)
    requires GroundedOverloads(g) && ChoicesGrounded(g, f)
    requires SoundState(g, memo) && Examined(g, memo, f) && Check(g, memo, f).0
    ensures var after := Check(g, memo, f).1;
            SoundState(g, after) && Grows(memo, after) && Sem(f, Trusted(g, after))
    decreases Unseen(g, memo), f
  {
    hide Rule, GroundedOverloads, Grounded, LeadsOn, Greatest, GoalEdges, Supported, GroundedRight;
    match f
    case Constant(b) =>
    case Goal(l, r) =>
      var p := (l, r);
      assert p in GoalsOf(f);
      if p !in memo {
        if Grounded(g, p) {
          GroundedClear(g, memo, f);
          GroundedSearch(g, memo, f);
          AddedSupported(g, memo, Check(g, memo, f).1);
        } else {
          var started := memo[p := Visiting];
          assert p in Unseen(g, memo) && p !in Unseen(g, started);
          OwnRule(g, l, r);
          StartSupported(g, memo, l, r);
          StartExamined(g, memo, p);
          CheckSound(g, started, Rule(g, l, r));
          FinishSupported(g, memo, started, Check(g, started, Rule(g, l, r)).1, l, r);
        }
      }
    case All(fs) => CheckAllSound(g, memo, fs);
    case Any(fs) =>
      if |fs| > 1 {
        GroundedClear(g, memo, f);
        GroundedSearch(g, memo, f);
        var after := Check(g, memo, f).1;
        AddedSupported(g, memo, after);
        SemMonotone(f, Greatest(g), Trusted(g, after));
      } else if fs != [] {
        PartGoals(fs);
        var (holds, after) := Check(g, memo, fs[0]);
        assert fs[1..] == [] && CheckAny(g, after, []) == (false, after);
        CheckSound(g, memo, fs[0]);
      }
  }

  lemma OwnRule(g: Graph, l: nat, r: nat)
    requires GroundedOverloads(g)
    ensures ChoicesGrounded(g, Rule(g, l, r))
  {
    hide Rule, ChoicesGrounded;
  }

  lemma StartSupported(g: Graph, memo: Memo, l: nat, r: nat)
    requires SoundState(g, memo) && (l, r) !in memo
    ensures SoundState(g, memo[(l, r) := Visiting]) && Assumed(memo) <= Assumed(memo[(l, r) := Visiting])
    ensures Pending(memo[(l, r) := Visiting]) == Pending(memo) + {(l, r)}
  {
    hide Rule, Sem, Grounded, Greatest;
    var started := memo[(l, r) := Visiting];
    forall a, b | (a, b) in started && started[(a, b)].Yes? ensures Sem(Rule(g, a, b), Trusted(g, started)) {
      SemMonotone(Rule(g, a, b), Trusted(g, memo), Trusted(g, started));
    }
  }

  lemma StartExamined(g: Graph, memo: Memo, p: Pair)
    requires p !in memo && p in AllPairs(g) && Examined(g, memo, Goal(p.0, p.1))
    ensures Examined(g, memo[p := Visiting], Rule(g, p.0, p.1))
  {
    hide Rule, GoalEdges, Reach;
    var started := memo[p := Visiting];
    assert p == (p.0, p.1) && p in GoalsOf(Goal(p.0, p.1));
    RuleEdges(g, p);
    forall q, v | q in GoalsOf(Rule(g, p.0, p.1)) && v in Pending(started) ensures LeadsOn(g, v, q) {
      if v == p {
        LeadsItself(g, p);
      } else {
        assert v in Pending(memo) && LeadsOn(g, v, p);
        var s :| Leads(g, v, s) && (s, p) in GoalEdges(g);
        ReachStep(GoalEdges(g), v, s, p);
      }
      assert Leads(g, v, p) && (p, q) in GoalEdges(g);
    }
  }

  lemma FinishSupported(g: Graph, memo: Memo, started: Memo, after: Memo, l: nat, r: nat)
    requires (l, r) !in memo && started == memo[(l, r) := Visiting] && !Grounded(g, (l, r))
    requires SoundState(g, after) && Grows(started, after) && Sem(Rule(g, l, r), Trusted(g, after))
    ensures var done := after[(l, r) := Yes];
            SoundState(g, done) && Grows(memo, done) && (l, r) in Assumed(done)
  {
    hide Rule, Sem, Grounded, Greatest;
    var done := after[(l, r) := Yes];
    assert (l, r) in Pending(started);
    assert Assumed(done) == Assumed(after);
    assert Pending(started) == Pending(memo) + {(l, r)};
    assert Pending(done) == Pending(after) - {(l, r)};
  }

  lemma {:induction false} CheckAllSound(g: Graph, memo: Memo, fs: seq<Formula>)
    requires GroundedOverloads(g) && (forall i :: 0 <= i < |fs| ==> ChoicesGrounded(g, fs[i]))
    requires SoundState(g, memo) && Examined(g, memo, All(fs)) && CheckAll(g, memo, fs).0
    ensures var after := CheckAll(g, memo, fs).1;
            SoundState(g, after) && Grows(memo, after) && Sem(All(fs), Trusted(g, after))
    decreases Unseen(g, memo), fs
  {
    hide Rule, GroundedOverloads, ChoicesGrounded, Greatest, Supported, GroundedRight, LeadsOn;
    if fs != [] {
      PartGoals(fs);
      CheckSound(g, memo, fs[0]);
      var middle := Check(g, memo, fs[0]).1;
      CheckAllSound(g, middle, fs[1..]);
      var after := CheckAll(g, middle, fs[1..]).1;
      SemMonotone(fs[0], Trusted(g, middle), Trusted(g, after));
      forall i | 0 <= i < |fs| ensures Sem(fs[i], Trusted(g, after)) {
        if i > 0 {
          assert Sem(fs[1..][i - 1], Trusted(g, after));
        }
      }
    }
  }

  lemma NothingKept(g: Graph, l: nat, r: nat)
    ensures SoundState(g, map[]) && Examined(g, map[], Goal(l, r)) && Pending(map[]) == {}
  {}

  /** The checker decides the greatest fixed point exactly where no competing choices ask about
      pairs that lead into a cycle of goals; elsewhere it may still never refuse a member of it. */
  lemma CheckerDecides(g: Graph, l: nat, r: nat)
    ensures IsSubtype(g, l, r) ==> Check(g, map[], Goal(l, r)).0
    ensures GroundedOverloads(g) ==> (Check(g, map[], Goal(l, r)).0 <==> IsSubtype(g, l, r))
  {
    hide Rule, IsSubtype, GroundedOverloads, Check;
    CheckComplete(g, map[], Goal(l, r));
    assert (l, r) in Greatest(g) <==> IsSubtype(g, l, r);
    if GroundedOverloads(g) && Check(g, map[], Goal(l, r)).0 {
      NothingKept(g, l, r);
      CheckSound(g, map[], Goal(l, r));
      TrustedHolds(g, Check(g, map[], Goal(l, r)).1, (l, r));
    }
  }

  lemma TrustedHolds(g: Graph, after: Memo, p: Pair)
    requires SoundState(g, after) && Pending(after) == {} && p in Trusted(g, after)
    ensures p in Greatest(g)
  {
    hide Rule, IsSubtype, Sem, Grounded;
    GreatestIsFixed(g);
    forall a, b | (a, b) in Trusted(g, after) ensures Sem(Rule(g, a, b), Trusted(g, after)) {
      if (a, b) in Greatest(g) {
        SemMonotone(Rule(g, a, b), Greatest(g), Trusted(g, after));
      } else {
        assert (a, b) !in Pending(after);
      }
    }
    assert PostFixed(g, Trusted(g, after));
  }

  /** RapideTypesEqual: true for equal types, and on graphs with grounded overloads for no
      others.  Each direction starts from a fresh memo. */
  method RapideTypesEqual(g: Graph, l: nat, r: nat) returns (equal: bool)
    ensures TypesEqual(g, l, r) ==> equal
    ensures GroundedOverloads(g) ==> (equal <==> TypesEqual(g, l, r))
  {
    hide IsSubtype, Check, GroundedOverloads;
    CheckerDecides(g, l, r);
    CheckerDecides(g, r, l);
    equal := IsRapideSubtype(g, l, r);
    if equal {
      equal := IsRapideSubtype(g, r, l);
    }
  }

  // ----- Graphs without overloads -----

  /** No two members a checker would weigh against each other for one target. */
  ghost predicate OverloadFree(g: Graph) {
    forall n :: 0 <= n < |g| ==>
      match g[n]
      case Interface(ms) => DistinctMembers(ms)
      case Event(fs) => forall i, j :: 0 <= i < j < |fs| ==> fs[i].name != fs[j].name
      case _ => true
  }

  ghost predicate DistinctMembers(ms: seq<Member>) {
    forall i, j :: 0 <= i < j < |ms| ==> ms[i].kind != ms[j].kind || ms[i].name != ms[j].name
  }

  lemma {:induction false} FewChoices(g: Graph, ms: seq<Member>, t: Member)
    requires DistinctMembers(ms)
    ensures |Choices(g, ms, t)| <= 1
  {
    if ms != [] {
      FewChoices(g, ms[1..], t);
      if Candidate(ms[0], t) {
        forall i | 0 <= i < |ms[1..]| ensures !Candidate(ms[1..][i], t) {
          assert ms[1..][i] == ms[i + 1];
        }
        assert Members(Choices(g, ms[1..], t)) == {};
        MembersEmpty(Choices(g, ms[1..], t));
      }
    }
  }

  lemma {:induction false} FewRequirementChoices(s: Member, ms: seq<Member>)
    requires DistinctMembers(ms)
    ensures |RequirementChoices(s, ms)| <= 1
  {
    if ms != [] {
      FewRequirementChoices(s, ms[1..]);
      if MeetsRequirement(s, ms[0]) {
        forall i | 0 <= i < |ms[1..]| ensures !MeetsRequirement(s, ms[1..][i]) {
          assert ms[1..][i] == ms[i + 1];
        }
        assert Members(RequirementChoices(s, ms[1..])) == {};
        MembersEmpty(RequirementChoices(s, ms[1..]));
      }
    }
  }

  lemma {:induction false} FewFieldChoices(fs: seq<EventField>, name: Text, typ: nat)
    requires forall i, j :: 0 <= i < j < |fs| ==> fs[i].name != fs[j].name
    ensures |FieldChoices(fs, name, typ)| <= 1
  {
    if fs != [] {
      FewFieldChoices(fs[1..], name, typ);
      if fs[0].name == name {
        forall i | 0 <= i < |fs[1..]| ensures fs[1..][i].name != name {
          assert fs[1..][i] == fs[i + 1];
        }
        assert Members(FieldChoices(fs[1..], name, typ)) == {};
        MembersEmpty(FieldChoices(fs[1..], name, typ));
      }
    }
  }

  lemma MemberRuleSingle(g: Graph, s: Member, t: Member)
    ensures SingleChoice(MemberRule(g, s, t))
  {
    hide Candidate;
    if t.kind.TypeConstructor? && t.spec.ExactDenotation? && s.spec.ExactDenotation? {
      SameConstructorsSingle(g, s, t);
    }
  }

  lemma SameConstructorsSingle(g: Graph, s: Member, t: Member)
    ensures SingleChoice(SameConstructors(g, s, t))
  {
    var ls, rs := ParametersOf(g, s.typ), ParametersOf(g, t.typ);
    if !(s.result.None? || t.result.None? || |ls| != |rs|) {
      forall f | f in SameParameters(ls, rs) ensures SingleChoice(f) {
        var i :| 0 <= i < |ls| && f == SameParameter(ls[i], rs[i]);
      }
    }
  }

  lemma CoversSingle(g: Graph, sources: seq<Member>, targets: seq<Member>, pass: Pass)
    requires DistinctMembers(sources)
    ensures forall f :: f in Covers(g, sources, targets, pass) ==> SingleChoice(f)
  {
    hide MemberRule, InPass, Candidate;
    forall f | f in Covers(g, sources, targets, pass) ensures SingleChoice(f) {
      var t :| t in targets && InPass(t, pass) && f == Any(Choices(g, sources, t));
      FewChoices(g, sources, t);
      forall c | c in Choices(g, sources, t) ensures SingleChoice(c) {
        var s :| s in sources && Candidate(s, t) && c == MemberRule(g, s, t);
        MemberRuleSingle(g, s, t);
      }
    }
  }

  lemma RequirementsSingle(sources: seq<Member>, targets: seq<Member>)
    requires DistinctMembers(targets)
    ensures forall f :: f in Requirements(sources, targets) ==> SingleChoice(f)
  {
    hide MeetsRequirement, IsRequirement;
    forall f | f in Requirements(sources, targets) ensures SingleChoice(f) {
      var s :| s in sources && IsRequirement(s) && f == Any(RequirementChoices(s, targets));
      FewRequirementChoices(s, targets);
      assert f.Any?;
      forall i | 0 <= i < |f.choices| ensures SingleChoice(f.choices[i]) {
        assert f.choices[i] in RequirementChoices(s, targets);
      }
    }
  }

  lemma FieldsSingle(fs: seq<EventField>, name: Text, typ: nat)
    requires forall i, j :: 0 <= i < j < |fs| ==> fs[i].name != fs[j].name
    ensures SingleChoice(Any(FieldChoices(fs, name, typ)))
  {
    FewFieldChoices(fs, name, typ);
  }

  lemma OverloadFreeUnambiguous(g: Graph)
    requires OverloadFree(g)
    ensures Unambiguous(g)
  {
    hide Covers, Requirements, RecordRule, FieldChoices, ParameterRule, DistinctMembers;
    forall l: nat, r: nat ensures SingleChoice(Rule(g, l, r)) {
      if l < |g| && r < |g| {
        match (g[l], g[r])
        case (Interface(ss), Interface(ts)) =>
          InterfaceSingle(g, ss, ts);
        case (Event(fs), Event(hs)) =>
          forall i | 0 <= i < |hs| ensures SingleChoice(FieldRules(fs, hs)[i]) {
            FieldsSingle(fs, hs[i].name, hs[i].typ);
          }
        case (Event(fs), Interface(ms)) =>
          forall i | 0 <= i < |ms| ensures SingleChoice(RecordRules(fs, ms)[i]) {
            RecordSingle(fs, ms[i]);
          }
        case (Function(ls, lr), Function(rs, rr)) =>
          FunctionSingle(ls, lr, rs, rr);
        case _ =>
      }
    }
  }

  lemma RecordSingle(fs: seq<EventField>, t: Member)
    requires forall i, j :: 0 <= i < j < |fs| ==> fs[i].name != fs[j].name
    ensures SingleChoice(RecordRule(fs, t))
  {
    if t.typ.Some? {
      FieldsSingle(fs, t.name, t.typ.value);
    }
  }

  lemma FunctionSingle(ls: seq<Parameter>, lr: nat, rs: seq<Parameter>, rr: nat)
    ensures SingleChoice(FunctionRule(ls, lr, rs, rr))
  {}

  lemma InterfaceSingle(g: Graph, ss: seq<Member>, ts: seq<Member>)
    requires DistinctMembers(ss) && DistinctMembers(ts)
    ensures SingleChoice(InterfaceRule(g, ss, ts))
  {
    hide Covers, Requirements, DistinctMembers;
    CoversSingle(g, ss, ts, TypeNames);
    CoversSingle(g, ss, ts, Constructors);
    CoversSingle(g, ss, ts, Provided);
    CoversSingle(g, ss, ts, Hidden);
    CoversSingle(g, ss, ts, Actions);
    RequirementsSingle(ss, ts);
    var f := InterfaceRule(g, ss, ts);
    forall i | 0 <= i < |f.parts| ensures SingleChoice(f.parts[i]) {
      assert f.parts[i] in f.parts;
    }
  }
}
