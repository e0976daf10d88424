/** The deterministic clock kernel (arch/clock.go): work waiting for clock deadlines, and the
    single clock advance that happens when nothing else can. */
module Clocks {
  import opened Texts
  import opened Timings
  import opened Reachability
  import opened Choices

  /** Ticks are 64-bit; `Deadline` reports what would not fit. */
  const MAX_TICKS: nat := 0xFFFF_FFFF_FFFF_FFFF

  datatype Work =
    | Action(id: Text, owner: Text, clock: Text, deadline: nat, order: nat)
    | Input(id: Text, requirements: map<Text, nat>)
    | Suspension(id: Text, runtime: Text, clock: Text, deadline: nat)

  datatype Directive = Directive(clock: Text, to: nat)

  datatype Advance = Advance(clock: Text, from: nat, to: nat, explicit: bool, released: seq<Work>)

  datatype Step = Advanced | Idle | BadDirective | ChoiceFailed | Deadlock

  type Now = map<Text, nat>

  // ----- Waiting -----

  /** A requirement still ahead of its clock. */
  predicate Ahead(now: Now, clock: Text, tick: nat) {
    clock in now && now[clock] < tick
  }

  function Unmet(now: Now, requirements: map<Text, nat>): set<Text> {
    set c | c in requirements && Ahead(now, c, requirements[c])
  }

  /** Pending work has a future deadline on a declared clock; a pending input has one left. */
  ghost predicate Waits(now: Now, w: Work) {
    match w
    case Action(_, _, clock, deadline, _) => Ahead(now, clock, deadline)
    case Suspension(_, _, clock, deadline) => Ahead(now, clock, deadline)
    case Input(_, requirements) => Unmet(now, requirements) != {} && requirements.Keys <= now.Keys
  }

  ghost predicate AllWait(now: Now, ws: seq<Work>) {
    forall w :: w in ws ==> Waits(now, w)
  }

  type Deadlines = set<(Text, nat)>

  /** The future deadlines w sets, by clock. */
  function DueAt(now: Now, w: Work): Deadlines {
    match w
    case Action(_, _, c, deadline, _) => if Ahead(now, c, deadline) then {(c, deadline)} else {}
    case Suspension(_, _, c, deadline) => if Ahead(now, c, deadline) then {(c, deadline)} else {}
    case Input(_, requirements) => set c | c in requirements && Ahead(now, c, requirements[c]) :: (c, requirements[c])
  }

  function AllDue(now: Now, ws: seq<Work>): Deadlines {
    set w, d | w in ws && d in DueAt(now, w) :: d
  }

  /** Each clock with a deadline, and its nearest. */
  ghost predicate Nearest(due: Deadlines, targets: map<Text, nat>) {
    && (forall c :: c in targets ==> (c, targets[c]) in due)
    && (forall c, tick :: (c, tick) in due ==> c in targets && targets[c] <= tick)
  }

  method Consider(targets: map<Text, nat>, clock: Text, tick: nat, ghost due: Deadlines) returns (targets': map<Text, nat>)
    requires Nearest(due, targets)
    ensures Nearest(due + {(clock, tick)}, targets')
  {
    targets' := targets;
    if clock !in targets || tick < targets[clock] {
      targets' := targets[clock := tick];
    }
  }

  /** nextAdvanceTargets over one list of work. */
  method ConsiderAll(now: Now, ws: seq<Work>, targets: map<Text, nat>, ghost due: Deadlines) returns (targets': map<Text, nat>)
    requires Nearest(due, targets)
    ensures Nearest(due + AllDue(now, ws), targets')
  {
    targets' := targets;
    assert AllDue(now, ws[..0]) == {} && due + {} == due;
    for i := 0 to |ws|
      invariant Nearest(due + AllDue(now, ws[..i]), targets')
    {
      TakeOneMore(ws, i);
      var rest := DueAt(now, ws[i]);
      ghost var base, all := due + AllDue(now, ws[..i]), rest;
      assert base + (all - rest) == base;
      while rest != {}
        invariant rest <= all && Nearest(base + (all - rest), targets')
        decreases rest
      {
        var d :| d in rest;
        ghost var before := base + (all - rest);
        targets' := Consider(targets', d.0, d.1, before);
        rest := rest - {d};
        assert before + {(d.0, d.1)} == base + (all - rest);
      }
      DueGrows(now, ws, i);
      assert base + (all - {}) == due + AllDue(now, ws[..i + 1]);
    }
    TakeAll(ws);
  }

  lemma DueGrows(now: Now, ws: seq<Work>, i: nat)
    requires i < |ws|
    ensures AllDue(now, ws[..i + 1]) == AllDue(now, ws[..i]) + DueAt(now, ws[i])
  {
    TakeOneMore(ws, i);
    assert forall w :: w in ws[..i + 1] <==> w in ws[..i] || w == ws[i];
  }

  /** What the advance of one clock to `tick` releases. */
  predicate Released(now: Now, w: Work, clock: Text) {
    match w
    case Action(_, _, c, deadline, _) => c == clock && clock in now && deadline <= now[clock]
    case Suspension(_, _, c, deadline) => c == clock && clock in now && deadline <= now[clock]
    case Input(_, requirements) => forall c :: c in requirements ==> c in now && now[c] >= requirements[c]
  }

  /** What stays when the chosen work leaves. */
  function Without(ws: seq<Work>, chosen: Work -> bool): seq<Work> {
    if ws == [] then [] else (if chosen(ws[0]) then [] else [ws[0]]) + Without(ws[1..], chosen)
  }

  ghost predicate Parts(ws: seq<Work>, chosen: Work -> bool, yes: seq<Work>, no: seq<Work>) {
    multiset(ws) == multiset(yes) + multiset(no) &&
    (forall w :: w in yes ==> chosen(w) && w in ws) &&
    forall w :: w in no ==> !chosen(w) && w in ws
  }

  lemma PartsGrow(ws: seq<Work>, chosen: Work -> bool, yes: seq<Work>, no: seq<Work>, w: Work)
    requires Parts(ws, chosen, yes, no)
    ensures chosen(w) ==> Parts(ws + [w], chosen, yes + [w], no)
    ensures !chosen(w) ==> Parts(ws + [w], chosen, yes, no + [w])
  {}

  lemma WithoutStep(ws: seq<Work>, chosen: Work -> bool, i: nat)
    requires i < |ws|
    ensures Without(ws[i..], chosen) == (if chosen(ws[i]) then [] else [ws[i]]) + Without(ws[i + 1..], chosen)
  {
    assert ws[i..][1..] == ws[i + 1..];
  }

  lemma Regroup(no: seq<Work>, one: seq<Work>, rest: seq<Work>)
    ensures no + (one + rest) == (no + one) + rest
  {}

  lemma WithoutNext(ws: seq<Work>, chosen: Work -> bool, i: nat, no: seq<Work>)
    requires i < |ws| && no + Without(ws[i..], chosen) == Without(ws, chosen)
    ensures chosen(ws[i]) ==> no + Without(ws[i + 1..], chosen) == Without(ws, chosen)
    ensures !chosen(ws[i]) ==> (no + [ws[i]]) + Without(ws[i + 1..], chosen) == Without(ws, chosen)
  {
    hide Without;
    WithoutStep(ws, chosen, i);
    var one := if chosen(ws[i]) then [] else [ws[i]];
    Regroup(no, one, Without(ws[i + 1..], chosen));
    assert no + [] == no;
  }

  method Split(ws: seq<Work>, chosen: Work -> bool) returns (yes: seq<Work>, no: seq<Work>)
    ensures multiset(ws) == multiset(yes) + multiset(no) && no == Without(ws, chosen)
    ensures (forall w :: w in yes ==> chosen(w)) && forall w :: w in no ==> !chosen(w)
    ensures forall w :: w in yes || w in no ==> w in ws
  {
    hide Without, Parts;
    yes, no := [], [];
    NothingSplit(ws, chosen);
    for i := 0 to |ws|
      invariant Parts(ws[..i], chosen, yes, no)
      invariant no + Without(ws[i..], chosen) == Without(ws, chosen)
    {
      assert ws[..i + 1] == ws[..i] + [ws[i]];
      PartsGrow(ws[..i], chosen, yes, no, ws[i]);
      WithoutNext(ws, chosen, i, no);
      if chosen(ws[i]) {
        yes := yes + [ws[i]];
      } else {
        no := no + [ws[i]];
      }
    }
    AllSplit(ws, chosen, yes, no);
  }

  lemma NothingSplit(ws: seq<Work>, chosen: Work -> bool)
    ensures Parts(ws[..0], chosen, [], []) && [] + Without(ws[0..], chosen) == Without(ws, chosen)
  {
    assert ws[0..] == ws && [] + Without(ws, chosen) == Without(ws, chosen);
  }

  lemma AllSplit(ws: seq<Work>, chosen: Work -> bool, yes: seq<Work>, no: seq<Work>)
    requires Parts(ws[..|ws|], chosen, yes, no) && no + Without(ws[|ws|..], chosen) == Without(ws, chosen)
    ensures multiset(ws) == multiset(yes) + multiset(no) && no == Without(ws, chosen)
    ensures (forall w :: w in yes ==> chosen(w) && w in ws) && forall w :: w in no ==> !chosen(w) && w in ws
  {
    TakeAll(ws);
    assert ws[|ws|..] == [];
  }

  function Kept(ws: seq<Work>, now: Now, clock: Text): seq<Work> {
    Without(ws, (w: Work) => Released(now, w, clock))
  }

  // ----- Progress -----

  /** Deadlines still to be met: one per action and suspension, one per unmet requirement. */
  function Load(now: Now, ws: seq<Work>): nat {
    if ws == [] then 0
    else (if ws[0].Input? then |Unmet(now, ws[0].requirements)| else 1) + Load(now, ws[1..])
  }

  /** Advancing a clock meets deadlines and adds none; meeting one lowers the load. */
  lemma {:induction false} LoadFalls(before: Now, after: Now, clock: Text, ws: seq<Work>)
    requires clock in before && after.Keys == before.Keys && after[clock] >= before[clock]
    requires forall c :: c in before && c != clock ==> after[c] == before[c]
    ensures Load(after, Kept(ws, after, clock)) <= Load(before, ws)
    ensures (clock, after[clock]) in AllDue(before, ws) ==> Load(after, Kept(ws, after, clock)) < Load(before, ws)
  {
    if ws != [] {
      LoadFalls(before, after, clock, ws[1..]);
      var w := ws[0];
      if w.Input? {
        UnmetFalls(before, after, clock, w.requirements);
      }
      assert forall x :: x in ws <==> x == w || x in ws[1..] by {
        assert ws == [w] + ws[1..];
      }
      KeptHead(ws, after, clock);
    }
  }

  lemma KeptHead(ws: seq<Work>, now: Now, clock: Text)
    requires ws != []
    ensures Load(now, Kept(ws, now, clock)) ==
            (if Released(now, ws[0], clock) then 0 else if ws[0].Input? then |Unmet(now, ws[0].requirements)| else 1) +
            Load(now, Kept(ws[1..], now, clock))
  {
    var rest := Kept(ws[1..], now, clock);
    assert [] + rest == rest;
    assert ([ws[0]] + rest)[1..] == rest;
  }

  lemma UnmetFalls(before: Now, after: Now, clock: Text, requirements: map<Text, nat>)
    requires clock in before && after.Keys == before.Keys && after[clock] >= before[clock]
    requires forall c :: c in before && c != clock ==> after[c] == before[c]
    ensures |Unmet(after, requirements)| <= |Unmet(before, requirements)|
    ensures clock in requirements && requirements[clock] == after[clock] && Ahead(before, clock, after[clock]) ==>
              |Unmet(after, requirements)| < |Unmet(before, requirements)|
  {
    assert Unmet(after, requirements) <= Unmet(before, requirements);
    SubsetNotLarger(Unmet(after, requirements), Unmet(before, requirements));
    if clock in requirements && requirements[clock] == after[clock] && Ahead(before, clock, after[clock]) {
      StrictSubsetSmaller(Unmet(after, requirements), Unmet(before, requirements), clock);
    }
  }

  /** An advance never passes a deadline, so what it releases was due exactly then. */
  lemma ReleasedDue(before: Now, after: Now, clock: Text, w: Work)
    requires clock in before && clock in after && after == before[clock := after[clock]] && before[clock] < after[clock]
    requires Waits(before, w) && forall tick :: (clock, tick) in DueAt(before, w) ==> after[clock] <= tick
    ensures Released(after, w, clock) ==> (clock, after[clock]) in DueAt(before, w)
    ensures Released(after, w, clock) && !w.Input? ==> w.clock == clock && w.deadline == after[clock]
    ensures !Released(after, w, clock) ==> Waits(after, w)
  {
    if w.Input? {
      if Released(after, w, clock) {
        var c :| c in Unmet(before, w.requirements);
        assert (c, w.requirements[c]) in DueAt(before, w);
      } else {
        var c :| c in w.requirements && !(c in after && after[c] >= w.requirements[c]);
        assert c in Unmet(after, w.requirements);
      }
    } else {
      assert (w.clock, w.deadline) in DueAt(before, w);
    }
  }

  lemma KeptWait(before: Now, after: Now, clock: Text, ws: seq<Work>, ready: seq<Work>, kept: seq<Work>)
    requires clock in before && clock in after && after == before[clock := after[clock]] && before[clock] < after[clock]
    requires AllWait(before, ws) && forall tick :: (clock, tick) in AllDue(before, ws) ==> after[clock] <= tick
    requires forall w :: w in ready || w in kept ==> w in ws
    requires (forall w :: w in ready ==> Released(after, w, clock)) && forall w :: w in kept ==> !Released(after, w, clock)
    ensures AllWait(after, kept)
    ensures forall w :: w in ready ==> (clock, after[clock]) in DueAt(before, w)
    ensures forall w :: w in ready && !w.Input? ==> w.clock == clock && w.deadline == after[clock]
  {
    hide Released, Waits, DueAt;
    forall w | w in ws
      ensures Released(after, w, clock) ==> (clock, after[clock]) in DueAt(before, w)
      ensures Released(after, w, clock) && !w.Input? ==> w.clock == clock && w.deadline == after[clock]
      ensures !Released(after, w, clock) ==> Waits(after, w)
    {
      forall tick | (clock, tick) in DueAt(before, w) ensures after[clock] <= tick {
        assert (clock, tick) in AllDue(before, ws);
      }
      ReleasedDue(before, after, clock, w);
    }
  }

  lemma WaitingIsDue(now: Now, w: Work)
    requires Waits(now, w)
    ensures DueAt(now, w) != {}
  {
    if w.Input? {
      var c :| c in Unmet(now, w.requirements);
      assert (c, w.requirements[c]) in DueAt(now, w);
    } else {
      assert (w.clock, w.deadline) in DueAt(now, w);
    }
  }

  lemma SomethingDue(now: Now, ws: seq<Work>)
    requires AllWait(now, ws) && ws != []
    ensures AllDue(now, ws) != {}
  {
    hide Waits, DueAt;
    assert ws[0] in ws;
    WaitingIsDue(now, ws[0]);
    var d :| d in DueAt(now, ws[0]);
    assert d in AllDue(now, ws);
  }

  lemma NothingDue(due: Deadlines)
    requires Nearest(due, map[])
    ensures due == {}
  {
    assert forall c, tick :: (c, tick) !in due;
    forall d ensures d !in due {
      assert d == (d.0, d.1);
    }
  }

  /** How an advance option is spelled: clock@tick. */
  function AdvanceOption(clock: Text, tick: nat): Text {
    clock + [AT] + Decimal(tick)
  }

  const AT: byte := 64

  lemma LastAt(a: Text, b: Text, d: Text, e: Text)
    requires a + [AT] + d == b + [AT] + e && AT !in e
    ensures |d| >= |e|
  {
    assert (a + [AT] + d)[|a|] == AT;
  }

  /** Options of different clocks are spelled differently: the last @ ends the clock. */
  lemma OptionsApart(c: Text, d: Text, m: nat, n: nat)
    requires AdvanceOption(c, m) == AdvanceOption(d, n)
    ensures c == d
  {
    DecimalDigits(m);
    DecimalDigits(n);
    LastAt(c, d, Decimal(m), Decimal(n));
    LastAt(d, c, Decimal(n), Decimal(m));
    assert c == AdvanceOption(c, m)[..|c|] == AdvanceOption(d, n)[..|d|] == d;
  }

  ghost function OptionsOf(targets: map<Text, nat>): set<Text> {
    set c | c in targets :: AdvanceOption(c, targets[c])
  }

  /** The choice among the advances on offer falls on this clock. */
  ghost predicate IsChosen(before: Ledger, after: Ledger, targets: map<Text, nat>, clock: Text) {
    clock in targets && Selects(before, after, CLOCK_ADVANCE, OptionsOf(targets), AdvanceOption(clock, targets[clock]))
  }

  /** The schedule names, for the next point of several advances, one that is not offered. */
  ghost predicate ChoiceFails(l: Ledger, targets: map<Text, nat>) {
    ScheduleRefuses(l, CLOCK_ADVANCE, OptionsOf(targets))
  }

  /** Without a schedule no choice fails. */
  lemma UnscheduledNeverFails(l: Ledger, targets: map<Text, nat>)
    ensures l.scheduled == map[] ==> !ChoiceFails(l, targets)
  {}

  /** The choice among the advances on offer fails exactly when the schedule says so. */
  lemma AdvanceResolves(l: Ledger, targets: map<Text, nat>, options: seq<Text>)
    requires targets != map[] && Members(options) == OptionsOf(targets)
    requires forall i, j :: 0 <= i < j < |options| ==> options[i] != options[j]
    ensures Resolved(l, Ask(CLOCK_ADVANCE, options)).None? <==> ChoiceFails(l, targets)
    ensures Resolved(l, Ask(CLOCK_ADVANCE, options)).Some? ==>
              Selects(l, Resolved(l, Ask(CLOCK_ADVANCE, options)).value.1, CLOCK_ADVANCE, OptionsOf(targets),
                      Resolved(l, Ask(CLOCK_ADVANCE, options)).value.0)
  {
    hide Resolved, ScheduleRefuses, Selects;
    var c :| c in targets;
    assert AdvanceOption(c, targets[c]) in Members(options);
    SetResolves(l, CLOCK_ADVANCE, options);
  }

  // ----- The kernel -----

  predicate ActionLess(a: Work, b: Work) {
    a.Action? && b.Action? && if a.owner != b.owner then Less(a.owner, b.owner) else a.order < b.order
  }

  predicate IdLess(a: Work, b: Work) {
    Less(a.id, b.id)
  }

  /** Actions come first and suspensions last. */
  function Group(w: Work): nat {
    match w
    case Action(_, _, _, _, _) => 0
    case Input(_, _) => 1
    case Suspension(_, _, _, _) => 2
  }

  /** One piece of released work may stand before another. */
  predicate MayPrecede(a: Work, b: Work) {
    Group(a) < Group(b) ||
    match (a, b)
    case (Action(_, o, _, _, m), Action(_, p, _, _, n)) => AtMost(o, p) && (o == p ==> m <= n)
    case (Input(x, _), Input(y, _)) => AtMost(x, y)
    case (Suspension(x, _, _, _), Suspension(y, _, _, _)) => AtMost(x, y)
    case _ => false
  }

  /** Actions, inputs, suspensions; actions by owner and each owner's as numbered, the others by
      identity. */
  ghost predicate InReleaseOrder(released: seq<Work>) {
    forall i, j :: 0 <= i < j < |released| ==> MayPrecede(released[i], released[j])
  }

  lemma ActionTies(a: Work, b: Work, c: Work)
    requires a.Action? && b.Action? && c.Action?
    ensures !ActionLess(b, a) <==> MayPrecede(a, b)
    ensures MayPrecede(a, b) && MayPrecede(b, c) ==> MayPrecede(a, c)
    ensures ActionLess(a, b) ==> !ActionLess(b, a)
  {
    hide Less;
    TextTies(a.owner, b.owner, c.owner);
    LessAsymmetric(a.owner, b.owner);
    LessAsymmetric(b.owner, c.owner);
  }

  lemma ActionsAscend(actions: seq<Work>)
    requires forall w :: w in actions ==> w.Action?
    ensures InReleaseOrder(SortBy(ActionLess, actions))
  {
    hide ActionLess, MayPrecede;
    var all, r := Members(actions), SortBy(ActionLess, actions);
    forall a, b, c | a in all && b in all && c in all
      ensures ActionLess(a, b) ==> !ActionLess(b, a)
      ensures !ActionLess(b, a) && !ActionLess(c, b) ==> !ActionLess(c, a)
    {
      ActionTies(a, b, c);
      ActionTies(a, c, b);
      ActionTies(b, c, a);
    }
    SortByAscends(ActionLess, actions, all);
    SameMembers(r, actions);
    forall i, j | 0 <= i < j < |r| ensures MayPrecede(r[i], r[j]) {
      assert r[i] in actions && r[j] in actions;
      ActionTies(r[i], r[j], r[j]);
    }
  }

  lemma OthersAscend(ws: seq<Work>, group: nat)
    requires group > 0 && forall w :: w in ws ==> Group(w) == group
    ensures InReleaseOrder(SortBy(IdLess, ws))
  {
    hide Less, AtMost;
    var all, r := Members(ws), SortBy(IdLess, ws);
    forall a, b, c | a in all && b in all && c in all
      ensures IdLess(a, b) ==> !IdLess(b, a)
      ensures !IdLess(b, a) && !IdLess(c, b) ==> !IdLess(c, a)
    {
      LessAsymmetric(a.id, b.id);
      TextTies(a.id, b.id, c.id);
      TextTies(b.id, c.id, a.id);
      TextTies(a.id, c.id, b.id);
    }
    SortByAscends(IdLess, ws, all);
    SameMembers(r, ws);
    forall i, j | 0 <= i < j < |r| ensures MayPrecede(r[i], r[j]) {
      assert r[i] in ws && r[j] in ws;
      TextTies(r[i].id, r[j].id, r[j].id);
    }
  }

  lemma GroupsInOrder(first: seq<Work>, second: seq<Work>)
    requires InReleaseOrder(first) && InReleaseOrder(second)
    requires forall a, b :: a in first && b in second ==> Group(a) < Group(b)
    ensures InReleaseOrder(first + second)
  {
    hide Group;
    var all := first + second;
    forall i, j | 0 <= i < j < |all| ensures MayPrecede(all[i], all[j]) {
      if i < |first| <= j {
        assert all[i] in first && all[j] in second;
      }
    }
  }

  /** Released work comes in order. */
  lemma ReleasedInOrder(actions: seq<Work>, inputs: seq<Work>, suspensions: seq<Work>)
    requires forall w :: w in actions ==> w.Action?
    requires forall w :: w in inputs ==> w.Input?
    requires forall w :: w in suspensions ==> w.Suspension?
    ensures InReleaseOrder(SortBy(ActionLess, actions) + SortBy(IdLess, inputs) + SortBy(IdLess, suspensions))
  {
    hide InReleaseOrder, SortBy;
    ActionsAscend(actions);
    OthersAscend(inputs, 1);
    OthersAscend(suspensions, 2);
    SameMembers(SortBy(ActionLess, actions), actions);
    SameMembers(SortBy(IdLess, inputs), inputs);
    SameMembers(SortBy(IdLess, suspensions), suspensions);
    GroupsInOrder(SortBy(ActionLess, actions), SortBy(IdLess, inputs));
    GroupsInOrder(SortBy(ActionLess, actions) + SortBy(IdLess, inputs), SortBy(IdLess, suspensions));
  }

  /** One of the first n intervals ends in the future of a declared clock. */
  ghost predicate Demands(now: Now, timings: seq<EventTiming>, n: nat, clock: Text, tick: nat)
    requires n <= |timings|
  {
    Ahead(now, clock, tick) && exists k :: 0 <= k < n && timings[k].clock == clock && timings[k].finish == tick
  }

  ghost predicate AreDemands(now: Now, timings: seq<EventTiming>, n: nat, requirements: map<Text, nat>)
    requires n <= |timings|
  {
    && (forall c :: c in requirements ==> Demands(now, timings, n, c, requirements[c]))
    && (forall c, tick: nat :: Demands(now, timings, n, c, tick) ==> c in requirements && requirements[c] == tick)
  }

  method RequirementsOf(now: Now, timings: seq<EventTiming>) returns (requirements: map<Text, nat>)
    requires Canonical(timings)
    ensures AreDemands(now, timings, |timings|, requirements)
  {
    requirements := map[];
    for i := 0 to |timings|
      invariant AreDemands(now, timings, i, requirements)
    {
      DemandStep(now, timings, i, requirements);
      if Ahead(now, timings[i].clock, timings[i].finish) {
        requirements := requirements[timings[i].clock := timings[i].finish];
      }
    }
  }

  lemma DemandNext(now: Now, timings: seq<EventTiming>, i: nat, c: Text, tick: nat)
    requires i < |timings|
    ensures Demands(now, timings, i + 1, c, tick) <==>
            Demands(now, timings, i, c, tick) || (c == timings[i].clock && tick == timings[i].finish && Ahead(now, c, tick))
  {
    if Demands(now, timings, i + 1, c, tick) {
      var k :| 0 <= k < i + 1 && timings[k].clock == c && timings[k].finish == tick;
    }
    if Demands(now, timings, i, c, tick) {
      var k :| 0 <= k < i && timings[k].clock == c && timings[k].finish == tick;
    }
  }

  lemma FreshClock(now: Now, timings: seq<EventTiming>, i: nat, tick: nat)
    requires Canonical(timings) && i < |timings|
    ensures !Demands(now, timings, i, timings[i].clock, tick)
  {
    CanonicalDistinct(timings);
  }

  lemma DemandStep(now: Now, timings: seq<EventTiming>, i: nat, requirements: map<Text, nat>)
    requires Canonical(timings) && i < |timings| && AreDemands(now, timings, i, requirements)
    ensures var t := timings[i];
            AreDemands(now, timings, i + 1, if Ahead(now, t.clock, t.finish) then requirements[t.clock := t.finish] else requirements)
  {
    hide Demands, Ahead, Canonical;
    var t := timings[i];
    var after := if Ahead(now, t.clock, t.finish) then requirements[t.clock := t.finish] else requirements;
    forall c | c in after ensures Demands(now, timings, i + 1, c, after[c]) {
      DemandNext(now, timings, i, c, after[c]);
    }
    var n := i + 1;
    forall c, tick: nat | Demands(now, timings, n, c, tick) ensures c in after && after[c] == tick {
      DemandNext(now, timings, i, c, tick);
      FreshClock(now, timings, i, tick);
    }
  }

  function IdsOf(ws: seq<Work>): (ids: seq<Text>)
    ensures |ids| == |ws| && forall i :: 0 <= i < |ids| ==> ids[i] == ws[i].id
  {
    seq(|ws|, i requires 0 <= i < |ws| => ws[i].id)
  }

  /** How many of the actions belong to the owner. */
  function Owned(actions: seq<Work>, owner: Text): nat {
    if actions == [] then 0
    else
      var last := actions[|actions| - 1];
      Owned(actions[..|actions| - 1], owner) + if last.Action? && last.owner == owner then 1 else 0
  }

  lemma NothingOwned()
    ensures forall o :: Owned([], o) == 0
  {}

  lemma OneMoreOwned(actions: seq<Work>, i: nat)
    requires i < |actions| && actions[i].Action?
    ensures forall o :: Owned(actions[..i + 1], o) == Owned(actions[..i], o) + if o == actions[i].owner then 1 else 0
  {
    assert actions[..i + 1][..i] == actions[..i];
  }

  /** Order numbers of one owner strictly increase, and start above the last one given. */
  lemma {:induction false} NumbersIncrease(actions: seq<Work>, i: nat, j: nat)
    requires i < j < |actions| && forall k :: 0 <= k < |actions| ==> actions[k].Action?
    requires actions[i].owner == actions[j].owner
    ensures 0 < Owned(actions[..i + 1], actions[i].owner) < Owned(actions[..j + 1], actions[j].owner)
    decreases j
  {
    var owner := actions[i].owner;
    OneMoreOwned(actions, i);
    OneMoreOwned(actions, j);
    OwnedGrows(actions, i + 1, j, owner);
  }

  lemma {:induction false} OwnedGrows(actions: seq<Work>, i: nat, j: nat, owner: Text)
    requires i <= j <= |actions| && forall k :: 0 <= k < |actions| ==> actions[k].Action?
    ensures Owned(actions[..i], owner) <= Owned(actions[..j], owner)
    decreases j
  {
    if i < j {
      OneMoreOwned(actions, j - 1);
      OwnedGrows(actions, i, j - 1, owner);
    }
  }

  lemma RenumberedWaits(now: Now, w: Work, order: nat)
    requires w.Action? && Waits(now, w)
    ensures Waits(now, w.(order := order))
  {}

  class ClockKernel {
    var clocks: Now
    var scheduled: seq<Work>
    var pendingInputs: seq<Work>
    var suspensions: seq<Work>
    var directives: seq<Directive>
    var nextDirective: nat
    var nextOrderByOwner: map<Text, nat>
    var advances: seq<Advance>

    constructor (clockIDs: set<Text>, directives: seq<Directive>)
      ensures Valid() && clocks.Keys == clockIDs && (forall c :: c in clocks ==> clocks[c] == 0)
      ensures scheduled == [] && pendingInputs == [] && suspensions == [] && advances == []
      ensures this.directives == directives && nextDirective == 0
    {
      clocks := map c | c in clockIDs :: 0;
      scheduled, pendingInputs, suspensions := [], [], [];
      this.directives := directives;
      nextDirective := 0;
      nextOrderByOwner := map[];
      advances := [];
    }

    /** Everything pending waits for a future tick of a declared clock. */
    ghost predicate Valid()
      reads this
    {
      && AllWait(clocks, scheduled) && (forall w :: w in scheduled ==> w.Action? && w.order <= LastOrder(w.owner))
      && AllWait(clocks, pendingInputs) && (forall w :: w in pendingInputs ==> w.Input?)
      && AllWait(clocks, suspensions) && (forall w :: w in suspensions ==> w.Suspension?)
      && nextDirective <= |directives|
    }

    ghost function Pending(): multiset<Work>
      reads this
    {
      multiset(scheduled) + multiset(pendingInputs) + multiset(suspensions)
    }

    /** The last order number given to an owner's actions. */
    function LastOrder(owner: Text): nat
      reads this`nextOrderByOwner
    {
      if owner in nextOrderByOwner then nextOrderByOwner[owner] else 0
    }

    /** deadline: none for an undeclared clock or a sum beyond the largest tick. */
    function Deadline(clock: Text, ticks: nat): (r: Option<nat>)
      reads this
      ensures r.Some? ==> clock in clocks && r.value <= MAX_TICKS && (ticks > 0 ==> Ahead(clocks, clock, r.value))
      ensures r.None? <==> clock !in clocks || clocks[clock] + ticks > MAX_TICKS
    {
      if clock !in clocks || clocks[clock] + ticks > MAX_TICKS then None else Some(clocks[clock] + ticks)
    }

    /** addScheduled: keeps the actions in order, each numbered by its place among all its
        owner ever had. */
    method AddScheduled(actions: seq<Work>)
      requires Valid() && forall i :: 0 <= i < |actions| ==> actions[i].Action? && Waits(clocks, actions[i])
      modifies this`scheduled, this`nextOrderByOwner
      ensures Valid() && |scheduled| == |old(scheduled)| + |actions| && old(scheduled) <= scheduled
      ensures forall i :: 0 <= i < |actions| ==>
                scheduled[|old(scheduled)| + i] ==
                actions[i].(order := old(LastOrder(actions[i].owner)) + Owned(actions[..i + 1], actions[i].owner))
      ensures forall o :: LastOrder(o) == old(LastOrder(o)) + Owned(actions, o)
    {
      hide Waits, Ahead, Unmet, Owned;
      NothingOwned();
      for i := 0 to |actions|
        invariant Valid() && |scheduled| == |old(scheduled)| + i && old(scheduled) <= scheduled
        invariant forall o :: LastOrder(o) == old(LastOrder(o)) + Owned(actions[..i], o)
        invariant forall k :: 0 <= k < i ==>
                    scheduled[|old(scheduled)| + k] ==
                    actions[k].(order := old(LastOrder(actions[k].owner)) + Owned(actions[..k + 1], actions[k].owner))
      {
        OneMoreOwned(actions, i);
        AddOne(actions[i]);
      }
      assert actions[..|actions|] == actions;
    }

    method AddOne(action: Work)
      requires Valid() && action.Action? && Waits(clocks, action)
      modifies this`scheduled, this`nextOrderByOwner
      ensures Valid() && scheduled == old(scheduled) + [action.(order := LastOrder(action.owner))]
      ensures forall o :: LastOrder(o) == old(LastOrder(o)) + if o == action.owner then 1 else 0
    {
      hide Waits, Ahead, Unmet;
      var order := LastOrder(action.owner) + 1;
      nextOrderByOwner := nextOrderByOwner[action.owner := order];
      RenumberedWaits(clocks, action, order);
      scheduled := scheduled + [action.(order := order)];
    }

    method AddProcessSuspension(suspension: Work)
      requires Valid() && suspension.Suspension? && Waits(clocks, suspension)
      modifies this`suspensions
      ensures Valid() && suspensions == old(suspensions) + [suspension]
    {
      suspensions := suspensions + [suspension];
    }

    /** deferInput: an event whose interval ends in the future of some declared clock waits for
        every such clock; other intervals impose nothing. */
    method DeferInput(id: Text, timings: seq<EventTiming>) returns (deferred: bool)
      requires Valid() && Canonical(timings)
      modifies this`pendingInputs
      ensures Valid()
      ensures deferred <==> exists c, tick :: Demands(clocks, timings, |timings|, c, tick)
      ensures !deferred ==> pendingInputs == old(pendingInputs)
      ensures deferred ==> exists requirements ::
                && pendingInputs == old(pendingInputs) + [Input(id, requirements)]
                && AreDemands(clocks, timings, |timings|, requirements)
    {
      var requirements := RequirementsOf(clocks, timings);
      if |requirements| == 0 {
        assert forall c, tick :: !Demands(clocks, timings, |timings|, c, tick);
        return false;
      }
      var c :| c in requirements;
      assert Demands(clocks, timings, |timings|, c, requirements[c]);
      assert c in Unmet(clocks, requirements);
      pendingInputs := pendingInputs + [Input(id, requirements)];
      return true;
    }

    /** cancelProcessWork: everything the process still had waiting leaves, nothing else.  Its
        current suspension is reported canceled even when an advance has already resumed it. */
    method CancelProcessWork(owner: Text, runtime: Text, current: Option<Text>)
      returns (canceledSchedules: seq<Text>, canceledSuspensions: seq<Text>, ghost actions: seq<Work>, ghost suspended: seq<Work>)
      requires Valid()
      modifies this`scheduled, this`suspensions
      ensures Valid() && old(Pending()) == Pending() + multiset(actions) + multiset(suspended)
      ensures forall w :: w in actions ==> w.Action? && w.owner == owner
      ensures forall w :: w in suspended ==> w.Suspension? && w.runtime == runtime
      ensures (forall w :: w in scheduled ==> w.Action? && w.owner != owner) && forall w :: w in suspensions ==> w.Suspension? && w.runtime != runtime
      ensures canceledSchedules == SortBy(Less, IdsOf(actions))
      ensures canceledSuspensions ==
              SortBy(Less, IdsOf(suspended) + if current.Some? && current.value !in IdsOf(suspended) then [current.value] else [])
    {
      hide Waits, Without, SortBy, IdsOf;
      var ofOwner, pendingActions := Split(scheduled, (w: Work) => w.Action? && w.owner == owner);
      scheduled := pendingActions;
      var ofRuntime, pendingSuspensions := Split(suspensions, (w: Work) => w.Suspension? && w.runtime == runtime);
      suspensions := pendingSuspensions;
      actions, suspended := ofOwner, ofRuntime;
      var ids := IdsOf(ofRuntime);
      if current.Some? && current.value !in ids {
        ids := ids + [current.value];
      } else {
        assert ids + [] == ids;
      }
      canceledSchedules, canceledSuspensions := SortBy(Less, IdsOf(ofOwner)), SortBy(Less, ids);
    }

    ghost function Due(): Deadlines
      reads this
    {
      AllDue(clocks, scheduled) + AllDue(clocks, pendingInputs) + AllDue(clocks, suspensions)
    }

    /** Deadlines left to meet. */
    ghost function Remaining(): nat
      reads this
    {
      Load(clocks, scheduled) + Load(clocks, pendingInputs) + Load(clocks, suspensions)
    }

    method NextAdvanceTargets() returns (targets: map<Text, nat>)
      ensures Nearest(Due(), targets)
    {
      hide AllDue;
      assert {} + AllDue(clocks, scheduled) == AllDue(clocks, scheduled);
      targets := ConsiderAll(clocks, scheduled, map[], {});
      targets := ConsiderAll(clocks, pendingInputs, targets, {} + AllDue(clocks, scheduled));
      targets := ConsiderAll(clocks, suspensions, targets, {} + AllDue(clocks, scheduled) + AllDue(clocks, pendingInputs));
    }

    /** Moves one clock forward and releases everything due then. */
    method MoveClock(clock: Text, target: nat, explicit: bool) returns (released: seq<Work>)
      requires Valid() && clock in clocks && clocks[clock] < target
      requires forall tick :: (clock, tick) in Due() ==> target <= tick
      modifies this`clocks, this`scheduled, this`pendingInputs, this`suspensions, this`advances
      ensures Valid() && clocks == old(clocks)[clock := target]
      ensures advances == old(advances) + [Advance(clock, old(clocks[clock]), target, explicit, released)]
      ensures old(Pending()) == Pending() + multiset(released)
      ensures ReleasedOnTime(old(clocks), clock, target, released) && InReleaseOrder(released)
      ensures Remaining() <= old(Remaining())
      ensures (clock, target) in old(Due()) ==> Remaining() < old(Remaining())
    {
      hide AllDue, Load, Waits, ReleasedOnTime, SortBy, Released, DueAt, Ahead, InReleaseOrder;
      var from := clocks[clock];
      var readyActions, pendingActions := Release(clocks, clock, target, scheduled);
      var readyInputs, waitingInputs := Release(clocks, clock, target, pendingInputs);
      var readySuspensions, pendingSuspensions := Release(clocks, clock, target, suspensions);
      released := SortBy(ActionLess, readyActions) + SortBy(IdLess, readyInputs) + SortBy(IdLess, readySuspensions);
      ReleasedInOrder(readyActions, readyInputs, readySuspensions);
      ReleasedTogether(clocks, clock, target, readyActions, readyInputs, readySuspensions, released);
      clocks := clocks[clock := target];
      scheduled, pendingInputs, suspensions := pendingActions, waitingInputs, pendingSuspensions;
      advances := advances + [Advance(clock, from, target, explicit, released)];
    }

    /** The next journal directive, when it is admissible: a declared clock, moved forward, and
        not past its nearest deadline. */
    ghost predicate DirectiveFits()
      requires nextDirective < |directives|
      reads this
    {
      var d := directives[nextDirective];
      d.clock in clocks && clocks[d.clock] < d.to && forall tick :: (d.clock, tick) in Due() ==> d.to <= tick
    }

    /** One clock moved strictly forward, past no deadline, and what was due there left. */
    twostate predicate MovedClock(a: Advance)
      reads this
    {
      && a.clock in old(clocks) && a.from == old(clocks[a.clock]) < a.to && clocks == old(clocks)[a.clock := a.to]
      && (forall tick :: (a.clock, tick) in old(Due()) ==> a.to <= tick)
      && old(Pending()) == Pending() + multiset(a.released)
      && ReleasedOnTime(old(clocks), a.clock, a.to, a.released) && InReleaseOrder(a.released)
      && (!a.explicit ==> (a.clock, a.to) in old(Due()))
    }

    /** The next directive tells clock and tick; without one the clock is the one chosen. */
    twostate predicate AsDirected(a: Advance, choices: ChoiceResolver)
      reads this, choices
    {
      if old(nextDirective < |directives|) then
        old(nextDirective < |directives| && a.clock == directives[nextDirective].clock && a.to == directives[nextDirective].to)
        && choices.State() == old(choices.State())
      else
        exists targets ::
          && Nearest(old(Due()), targets) && a.clock in targets && a.to == targets[a.clock]
          && IsChosen(old(choices.State()), choices.State(), targets, a.clock)
    }

    /** advanceAndRelease.  With everything pending in the future of declared clocks a deadlock
        is never reported; each advance meets a deadline or spends a directive. */
    method AdvanceAndRelease(choices: ChoiceResolver) returns (step: Step)
      requires Valid()
      modifies this, choices
      ensures Valid() && directives == old(directives)
      ensures step != Deadlock
      ensures step.Advanced? ==>
                && |advances| == |old(advances)| + 1 && old(advances) <= advances
                && MovedClock(advances[|old(advances)|])
                && (advances[|old(advances)|].explicit <==> old(nextDirective < |directives|))
                && nextDirective == old(nextDirective) + (if advances[|old(advances)|].explicit then 1 else 0)
                && AsDirected(advances[|old(advances)|], choices)
                && Remaining() <= old(Remaining()) && (!advances[|old(advances)|].explicit ==> Remaining() < old(Remaining()))
      ensures !step.Advanced? ==> unchanged(this)
      ensures step.Idle? <==> old(nextDirective >= |directives| && Pending() == multiset{})
      ensures step.BadDirective? <==> old(nextDirective < |directives| && !DirectiveFits())
      ensures step.ChoiceFailed? <==>
                old(nextDirective >= |directives|) &&
                exists targets :: Nearest(old(Due()), targets) && targets != map[] && ChoiceFails(old(choices.State()), targets)
      ensures choices.scheduled == old(choices.scheduled)
    {
      hide AllDue, Load, Waits, ReleasedOnTime, DueAt, AllWait, ChoiceFails;
      var targets := NextAdvanceTargets();
      PendingDue();
      if nextDirective < |directives| {
        var directive := directives[nextDirective];
        if directive.clock !in clocks || directive.to <= clocks[directive.clock] {
          return BadDirective;
        }
        if directive.clock in targets && directive.to > targets[directive.clock] {
          return BadDirective;
        }
        nextDirective := nextDirective + 1;
        var released := MoveClock(directive.clock, directive.to, true);
        return Advanced;
      }
      if |targets| == 0 {
        NothingDue(Due());
        if |scheduled| != 0 || |pendingInputs| != 0 || |suspensions| != 0 {
          return Deadlock;
        }
        return Idle;
      }
      SomeTarget(Due(), targets);
      NearestOnly(Due(), targets);
      var clock := ChooseClock(targets, choices);
      if clock.None? {
        return ChoiceFailed;
      }
      assert (clock.value, targets[clock.value]) in Due();
      DueAhead(clock.value, targets[clock.value]);
      var released := MoveClock(clock.value, targets[clock.value], false);
      return Advanced;
    }

    lemma PendingDue()
      requires Valid()
      ensures Due() == {} <==> scheduled == [] && pendingInputs == [] && suspensions == []
      ensures Pending() == multiset{} <==> scheduled == [] && pendingInputs == [] && suspensions == []
    {
      hide Waits, DueAt;
      if scheduled != [] {
        SomethingDue(clocks, scheduled);
        assert scheduled[0] in Pending();
      }
      if pendingInputs != [] {
        SomethingDue(clocks, pendingInputs);
        assert pendingInputs[0] in Pending();
      }
      if suspensions != [] {
        SomethingDue(clocks, suspensions);
        assert suspensions[0] in Pending();
      }
    }

    lemma DueAhead(clock: Text, tick: nat)
      requires (clock, tick) in Due()
      ensures Ahead(clocks, clock, tick)
    {
      hide Ahead;
      DueIsAhead(clocks, scheduled, clock, tick);
      DueIsAhead(clocks, pendingInputs, clock, tick);
      DueIsAhead(clocks, suspensions, clock, tick);
    }

    /** Clock advances alone: runs until nothing is left, or a choice or directive fails, neither
        of which happens without a schedule and directives.  What was pending is still pending
        or was handed back by exactly one of the advances. */
    method Drain(choices: ChoiceResolver) returns (step: Step)
      requires Valid()
      modifies this, choices
      ensures Valid() && !step.Advanced? && step != Deadlock && old(advances) <= advances
      ensures old(Pending()) == Pending() + multiset(AllReleased(advances[|old(advances)|..]))
      ensures step.Idle? ==> multiset(AllReleased(advances[|old(advances)|..])) == old(Pending()) && nextDirective == |directives|
      ensures old(choices.scheduled == map[] && nextDirective >= |directives|) ==> step.Idle?
    {
      hide AllDue, Load, Waits, ReleasedOnTime, DueAt, AllWait, ChoiceFails;
      step := Advanced;
      ghost var n := |advances|;
      while step.Advanced?
        invariant Valid() && step != Deadlock && directives == old(directives)
        invariant n == |old(advances)| && old(advances) <= advances
        invariant old(Pending()) == Pending() + multiset(AllReleased(advances[n..]))
        invariant step.Idle? ==> Pending() == multiset{} && nextDirective == |directives|
        invariant choices.scheduled == old(choices.scheduled) && nextDirective >= old(nextDirective)
        invariant old(choices.scheduled == map[] && nextDirective >= |directives|) ==> step.Idle? || step.Advanced?
        decreases |directives| - nextDirective, Remaining(), step.Advanced?
      {
        ghost var before := advances;
        if choices.scheduled == map[] {
          NeverFails(choices.State());
        }
        step := AdvanceAndRelease(choices);
        if step.Advanced? {
          OneMoreAdvance(before, advances, n);
        }
      }
    }
  }

  lemma NeverFails(l: Ledger)
    requires l.scheduled == map[]
    ensures forall targets :: !ChoiceFails(l, targets)
  {
    forall targets ensures !ChoiceFails(l, targets) {
      UnscheduledNeverFails(l, targets);
    }
  }

  /** What the advances handed back, in order. */
  function AllReleased(steps: seq<Advance>): seq<Work> {
    if steps == [] then [] else AllReleased(steps[..|steps| - 1]) + steps[|steps| - 1].released
  }

  lemma OneMoreAdvance(before: seq<Advance>, after: seq<Advance>, n: nat)
    requires before <= after && |after| == |before| + 1 && n <= |before|
    ensures multiset(AllReleased(after[n..])) == multiset(AllReleased(before[n..])) + multiset(after[|before|].released)
  {
    var steps := after[n..];
    assert steps[..|steps| - 1] == before[n..] && steps[|steps| - 1] == after[|before|];
  }

  lemma DueIsAhead(now: Now, ws: seq<Work>, clock: Text, tick: nat)
    ensures (clock, tick) in AllDue(now, ws) ==> Ahead(now, clock, tick)
  {
    if (clock, tick) in AllDue(now, ws) {
      var w, d :| w in ws && d in DueAt(now, w) && d == (clock, tick);
    }
  }

  lemma NearestOnly(due: Deadlines, targets: map<Text, nat>)
    requires Nearest(due, targets)
    ensures forall other :: Nearest(due, other) ==> other == targets
  {
    forall other | Nearest(due, other) ensures other == targets {
      forall c ensures c in other <==> c in targets {
        assert c in other ==> (c, other[c]) in due;
        assert c in targets ==> (c, targets[c]) in due;
      }
      forall c | c in other ensures other[c] == targets[c] {
        assert (c, other[c]) in due && (c, targets[c]) in due;
      }
    }
  }

  lemma SomeTarget(due: Deadlines, targets: map<Text, nat>)
    requires Nearest(due, targets) && targets != map[]
    ensures due != {}
  {
    var c :| c in targets;
    assert (c, targets[c]) in due;
  }

  /** The advances on offer, and the clock each stands for. */
  method AdvanceOptions(targets: map<Text, nat>) returns (options: seq<Text>, byOption: map<Text, Text>)
    ensures Members(options) == OptionsOf(targets) == byOption.Keys
    ensures forall o :: o in byOption ==> byOption[o] in targets && o == AdvanceOption(byOption[o], targets[byOption[o]])
    ensures forall i, j :: 0 <= i < j < |options| ==> options[i] != options[j]
  {
    hide AdvanceOption;
    options, byOption := [], map[];
    var rest := targets.Keys;
    while rest != {}
      invariant rest <= targets.Keys && Members(options) == byOption.Keys
      invariant forall o :: o in byOption ==> byOption[o] in targets && byOption[o] !in rest && o == AdvanceOption(byOption[o], targets[byOption[o]])
      invariant forall c :: c in targets && c !in rest ==> AdvanceOption(c, targets[c]) in byOption
      invariant forall i, j :: 0 <= i < j < |options| ==> options[i] != options[j]
      decreases rest
    {
      var c :| c in rest;
      rest := rest - {c};
      var option := AdvanceOption(c, targets[c]);
      if option in byOption {
        OptionsApart(c, byOption[option], targets[c], targets[byOption[option]]);
      }
      NewOption(options, option);
      options := options + [option];
      byOption := byOption[option := c];
    }
  }

  lemma NewOption(options: seq<Text>, option: Text)
    requires option !in Members(options)
    ensures Members(options + [option]) == Members(options) + {option}
    ensures forall i :: 0 <= i < |options| ==> options[i] != option
  {
    assert forall i :: 0 <= i < |options| ==> options[i] in Members(options);
  }

  /** Which of several advanceable clocks moves is a scheduled choice; it fails exactly when the
      schedule names an advance that is not offered. */
  method ChooseClock(targets: map<Text, nat>, choices: ChoiceResolver) returns (clock: Option<Text>)
    requires targets != map[]
    modifies choices
    ensures clock.None? <==> ChoiceFails(old(choices.State()), targets)
    ensures clock.Some? ==> IsChosen(old(choices.State()), choices.State(), targets, clock.value)
    ensures choices.scheduled == old(choices.scheduled)
  {
    hide ChoiceFails, OptionsOf, Resolved, Selects;
    var options, byOption := AdvanceOptions(targets);
    ghost var before := choices.State();
    AdvanceResolves(before, targets, options);
    var selected := choices.Resolve(CLOCK_ADVANCE, options);
    if selected.None? {
      return None;
    }
    SelectedIsOffered(before, Ask(CLOCK_ADVANCE, options));
    assert selected.value in Members(options);
    return Some(byOption[selected.value]);
  }

  // "clock-advance"
  const CLOCK_ADVANCE: Text := [99, 108, 111, 99, 107, 45, 97, 100, 118, 97, 110, 99, 101]

  /** What one list of work releases when a clock moves to `target`, and what keeps waiting. */
  method Release(before: Now, clock: Text, target: nat, ws: seq<Work>) returns (ready: seq<Work>, kept: seq<Work>)
    requires clock in before && before[clock] < target && AllWait(before, ws)
    requires forall tick :: (clock, tick) in AllDue(before, ws) ==> target <= tick
    ensures multiset(ws) == multiset(ready) + multiset(kept) && forall w :: w in ready || w in kept ==> w in ws
    ensures AllWait(before[clock := target], kept) && ReleasedOnTime(before, clock, target, ready)
    ensures Load(before[clock := target], kept) <= Load(before, ws)
    ensures (clock, target) in AllDue(before, ws) ==> Load(before[clock := target], kept) < Load(before, ws)
  {
    hide AllDue, Without, Load, Released, Waits, DueAt;
    var now := before[clock := target];
    ready, kept := Split(ws, (w: Work) => Released(now, w, clock));
    KeptWait(before, now, clock, ws, ready, kept);
    LoadFalls(before, now, clock, ws);
  }

  /** Released work had its deadline, or its last requirement, exactly at the target. */
  ghost predicate ReleasedOnTime(before: Now, clock: Text, target: nat, released: seq<Work>)
    requires clock in before
  {
    forall w :: w in released ==>
      && (clock, target) in DueAt(before, w)
      && Released(before[clock := target], w, clock)
      && (!w.Input? ==> w.clock == clock && w.deadline == target)
  }

  lemma ReleasedTogether(
      before: Now, clock: Text, target: nat, actions: seq<Work>, inputs: seq<Work>, suspensions: seq<Work>, released: seq<Work>)
    requires clock in before
    requires ReleasedOnTime(before, clock, target, actions) && ReleasedOnTime(before, clock, target, inputs) && ReleasedOnTime(before, clock, target, suspensions)
    requires multiset(released) == multiset(actions) + multiset(inputs) + multiset(suspensions)
    ensures ReleasedOnTime(before, clock, target, released)
  {
    hide DueAt, Released;
    forall w | w in released ensures w in actions || w in inputs || w in suspensions {
      assert w in multiset(released);
    }
  }
}
