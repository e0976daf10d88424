/** Replayable language-permitted choices (arch/choice.go). */
module Choices {
  import opened Texts
  import opened Timings

  /** A choice point: its domain, its ordinal in the run and the alternatives it offers.  The
      printed identity is their digest, which is taken to be injective. */
  datatype Point = Point(domain: Text, ordinal: nat, options: seq<Text>)

  datatype Resolution = Resolution(point: Point, selected: Text, scheduled: bool)

  datatype Ask = Ask(domain: Text, options: seq<Text>)

  /** What a resolver holds. */
  datatype Ledger = Ledger(scheduled: map<Point, Text>, used: set<Point>, nextOrdinal: nat, resolutions: seq<Resolution>)

  function Fresh(scheduled: map<Point, Text>): Ledger {
    Ledger(scheduled, {}, 0, [])
  }

  // ----- One choice -----

  function SortTexts(s: seq<Text>): (r: seq<Text>)
    ensures |r| == |s| && multiset(r) == multiset(s)
  {
    SortBy(Less, s)
  }

  predicate Repeats(s: seq<Text>) {
    exists i :: 0 < i < |s| && s[i - 1] == s[i]
  }

  /** What resolve answers and leaves behind; None is an error. */
  function Resolved(l: Ledger, ask: Ask): Option<(Text, Ledger)> {
    var canonical := SortTexts(ask.options);
    if |ask.options| == 0 || Repeats(canonical) then None
    else if |canonical| == 1 then Some((canonical[0], l))
    else
      var point := Point(ask.domain, l.nextOrdinal + 1, canonical);
      if point in l.scheduled then
        if l.scheduled[point] in canonical then
          Some((l.scheduled[point],
                l.(nextOrdinal := l.nextOrdinal + 1, used := l.used + {point},
                   resolutions := l.resolutions + [Resolution(point, l.scheduled[point], true)])))
        else None
      else
        Some((canonical[0],
              l.(nextOrdinal := l.nextOrdinal + 1,
                 resolutions := l.resolutions + [Resolution(point, canonical[0], false)])))
  }

  lemma SelectedIsOffered(l: Ledger, ask: Ask)
    requires Resolved(l, ask).Some?
    ensures Resolved(l, ask).value.0 in ask.options
  {
    var canonical := SortTexts(ask.options);
    forall x | x in canonical ensures x in ask.options {
      assert x in multiset(canonical);
    }
  }

  /** Without a schedule, distinct alternatives always resolve. */
  lemma UnscheduledResolves(l: Ledger, ask: Ask)
    requires l.scheduled == map[] && ask.options != []
    requires forall i, j :: 0 <= i < j < |ask.options| ==> ask.options[i] != ask.options[j]
    ensures Resolved(l, ask).Some?
  {
    var canonical := SortTexts(ask.options);
    forall i | 0 < i < |canonical| ensures canonical[i - 1] != canonical[i] {
      assert canonical[i] in multiset(canonical);
      var k :| 0 <= k < |ask.options| && ask.options[k] == canonical[i];
      OnceListed(ask.options, k);
      if canonical[i - 1] == canonical[i] {
        TwiceListed(canonical, i - 1, i);
      }
    }
  }

  lemma SortedListing(options: seq<Text>, listing: seq<Text>)
    requires StrictlySorted(listing) && Members(listing) == Members(options)
    requires forall i, j :: 0 <= i < j < |options| ==> options[i] != options[j]
    ensures SortTexts(options) == listing && SortTexts(listing) == listing && !Repeats(listing) && |listing| == |options|
  {
    SortAscends(options);
    SortedUnique(SortTexts(options), listing);
    SortedAlready(listing);
    forall i | 0 < i < |listing| ensures listing[i - 1] != listing[i] {
      SortedDistinct(listing, i - 1, i);
    }
  }

  lemma RepeatedRefused(options: seq<Text>, i: nat, j: nat)
    requires i < j < |options| && options[i] == options[j]
    ensures Repeats(SortTexts(options))
  {
    hide Less, Repeats;
    var r := SortTexts(options);
    TwiceListed(options, i, j);
    if !Repeats(r) {
      SortRises(options);
      DistinctNeighbours(r);
      var k :| 0 <= k < |r| && r[k] == options[i];
      OnceListed(r, k);
    }
  }

  lemma DistinctNeighbours(r: seq<Text>)
    requires Rising(r) && !Repeats(r)
    ensures forall i, j :: 0 <= i < j < |r| ==> r[i] != r[j]
  {
    hide Rising;
    forall i | 0 < i < |r| ensures r[i] != r[i - 1] {
      assert r[i - 1] != r[i];
    }
    RisingDistinct(r);
  }

  /** No alternatives, or one twice, are refused, whatever is scheduled. */
  lemma Refuses(l: Ledger, ask: Ask)
    requires ask.options == [] || exists i, j :: 0 <= i < j < |ask.options| && ask.options[i] == ask.options[j]
    ensures Resolved(l, ask).None?
  {
    hide Repeats;
    if ask.options != [] {
      var i, j :| 0 <= i < j < |ask.options| && ask.options[i] == ask.options[j];
      RepeatedRefused(ask.options, i, j);
    }
  }

  /** A point is recorded with what was taken there, and is used up if it was scheduled. */
  ghost predicate Records(l: Ledger, after: Ledger, point: Point, selected: Text) {
    && after.scheduled == l.scheduled && after.nextOrdinal == point.ordinal == l.nextOrdinal + 1
    && after.resolutions == l.resolutions + [Resolution(point, selected, point in l.scheduled)]
    && (forall p :: p in after.used <==> p in l.used || (p == point && p in l.scheduled))
  }

  lemma ListedRecords(l: Ledger, domain: Text, listing: seq<Text>)
    requires SortTexts(listing) == listing && |listing| > 1 && !Repeats(listing)
    ensures var point := Point(domain, l.nextOrdinal + 1, listing);
            var r := Resolved(l, Ask(domain, listing));
            && (r.None? <==> point in l.scheduled && l.scheduled[point] !in listing)
            && (r.Some? ==>
                  && r.value.0 == (if point in l.scheduled then l.scheduled[point] else listing[0])
                  && Records(l, r.value.1, point, r.value.0))
  {
    hide SortTexts, Repeats;
  }

  lemma SameResolved(l: Ledger, ask: Ask, listing: seq<Text>)
    requires SortTexts(listing) == SortTexts(ask.options) && |listing| == |ask.options|
    ensures Resolved(l, ask) == Resolved(l, Ask(ask.domain, listing))
  {
    hide SortTexts, Repeats;
  }

  /** A single alternative is taken without a choice point. */
  lemma ResolvesSingle(l: Ledger, ask: Ask)
    requires |ask.options| == 1
    ensures Resolved(l, ask) == Some((ask.options[0], l))
  {
    assert SortTexts(ask.options) == ask.options;
  }

  /** Of several distinct alternatives the scheduled one is taken, and refused if it is not
      offered; the least one is taken when none is scheduled. */
  lemma Resolves(l: Ledger, ask: Ask, listing: seq<Text>)
    requires |ask.options| > 1 && forall i, j :: 0 <= i < j < |ask.options| ==> ask.options[i] != ask.options[j]
    requires StrictlySorted(listing) && Members(listing) == Members(ask.options)
    ensures var point := Point(ask.domain, l.nextOrdinal + 1, listing);
            && (Resolved(l, ask).None? <==> point in l.scheduled && l.scheduled[point] !in ask.options)
            && (Resolved(l, ask).Some? ==>
                  var (selected, after) := Resolved(l, ask).value;
                  && selected in ask.options && Records(l, after, point, selected)
                  && (point in l.scheduled ==> selected == l.scheduled[point])
                  && (point !in l.scheduled ==> forall o :: o in ask.options ==> AtMost(selected, o)))
  {
    hide AtMost, Repeats, StrictlySorted, Resolved, SortTexts, Records;
    SortedListing(ask.options, listing);
    SameResolved(l, ask, listing);
    ListedRecords(l, ask.domain, listing);
    forall o ensures o in ask.options <==> o in listing {
      assert o in Members(ask.options) <==> o in Members(listing);
    }
    forall o | o in ask.options ensures AtMost(listing[0], o) {
      LeastFirst(listing, o);
    }
  }

  lemma LeastFirst(listing: seq<Text>, o: Text)
    requires StrictlySorted(listing) && o in listing
    ensures AtMost(listing[0], o)
  {}

  // ----- One choice among a set of alternatives -----

  ghost predicate IsListing(listing: seq<Text>, options: set<Text>) {
    StrictlySorted(listing) && Members(listing) == options
  }

  /** Asked for one of these alternatives, the resolver takes this one. */
  ghost predicate Selects(l: Ledger, after: Ledger, domain: Text, options: set<Text>, selected: Text) {
    selected in options &&
    exists listing :: IsListing(listing, options) && Resolved(l, Ask(domain, listing)) == Some((selected, after))
  }

  /** The schedule names, for the next point of several alternatives, one that is not offered. */
  ghost predicate ScheduleRefuses(l: Ledger, domain: Text, options: set<Text>) {
    exists listing :: IsListing(listing, options) && |listing| > 1 && ScheduledElsewhere(l, domain, listing)
  }

  ghost predicate ScheduledElsewhere(l: Ledger, domain: Text, listing: seq<Text>) {
    var point := Point(domain, l.nextOrdinal + 1, listing);
    point in l.scheduled && l.scheduled[point] !in listing
  }

  lemma ListingRefused(l: Ledger, domain: Text, listing: seq<Text>)
    requires listing != [] && SortTexts(listing) == listing && !Repeats(listing)
    ensures Resolved(l, Ask(domain, listing)).None? <==> |listing| > 1 && ScheduledElsewhere(l, domain, listing)
    ensures Resolved(l, Ask(domain, listing)).Some? ==> Resolved(l, Ask(domain, listing)).value.0 in listing
  {
    hide Repeats, SortTexts;
  }

  lemma OneListing(l: Ledger, domain: Text, listing: seq<Text>)
    requires StrictlySorted(listing)
    ensures ScheduleRefuses(l, domain, Members(listing)) <==> |listing| > 1 && ScheduledElsewhere(l, domain, listing)
  {
    hide StrictlySorted, Members, ScheduledElsewhere;
    assert IsListing(listing, Members(listing));
    forall other | IsListing(other, Members(listing)) ensures other == listing {
      SortedUnique(other, listing);
    }
  }

  lemma ListingSelects(l: Ledger, domain: Text, listing: seq<Text>)
    requires StrictlySorted(listing) && Resolved(l, Ask(domain, listing)).Some?
    requires Resolved(l, Ask(domain, listing)).value.0 in listing
    ensures var (selected, after) := Resolved(l, Ask(domain, listing)).value;
            Selects(l, after, domain, Members(listing), selected)
  {
    hide StrictlySorted, Resolved;
    assert IsListing(listing, Members(listing));
  }

  /** However they are listed, distinct alternatives get one answer, unless the schedule names
      something else. */
  lemma SetResolves(l: Ledger, domain: Text, options: seq<Text>)
    requires options != [] && forall i, j :: 0 <= i < j < |options| ==> options[i] != options[j]
    ensures Resolved(l, Ask(domain, options)).None? <==> ScheduleRefuses(l, domain, Members(options))
    ensures Resolved(l, Ask(domain, options)).Some? ==>
              var (selected, after) := Resolved(l, Ask(domain, options)).value;
              Selects(l, after, domain, Members(options), selected)
  {
    hide StrictlySorted, Repeats, Resolved, SortTexts, Members, ScheduleRefuses, ScheduledElsewhere, Selects;
    var listing := SortTexts(options);
    SortAscends(options);
    assert SortTexts(options) == SortBy(Less, options) by { SortIsSort(options); }
    SortedListing(options, listing);
    SameResolved(l, Ask(domain, options), listing);
    ListingRefused(l, domain, listing);
    OneListing(l, domain, listing);
    if Resolved(l, Ask(domain, options)).Some? {
      ListingSelects(l, domain, listing);
    }
  }

  lemma SortIsSort(options: seq<Text>)
    ensures SortTexts(options) == SortBy(Less, options)
  {}

  /** finish accepts: every scheduled decision was used. */
  predicate Finished(l: Ledger) {
    forall point :: point in l.scheduled ==> point in l.used
  }

  class ChoiceResolver {
    var scheduled: map<Point, Text>
    var used: set<Point>
    var nextOrdinal: nat
    var resolutions: seq<Resolution>

    constructor (schedule: map<Point, Text>)
      ensures State() == Fresh(schedule)
    {
      scheduled := schedule;
      used := {};
      nextOrdinal := 0;
      resolutions := [];
    }

    ghost function State(): Ledger
      reads this
    {
      Ledger(scheduled, used, nextOrdinal, resolutions)
    }

    method Resolve(domain: Text, options: seq<Text>) returns (r: Option<Text>)
      modifies this
      ensures match Resolved(old(State()), Ask(domain, options))
              case None => r == None
              case Some((selected, after)) => r == Some(selected) && State() == after
      ensures scheduled == old(scheduled)
    {
      hide Repeats, SortBy;
      if |options| == 0 {
        return None;
      }
      var canonical := SortTexts(options);
      var repeated := AnyRepeat(canonical);
      if repeated {
        return None;
      }
      if |canonical| == 1 {
        return Some(canonical[0]);
      }
      var before := nextOrdinal;
      nextOrdinal := nextOrdinal + 1;
      var point := Point(domain, nextOrdinal, canonical);
      var selected, found := canonical[0], false;
      if point in scheduled {
        selected := scheduled[point];
        found := IsOffered(canonical, selected);
        if !found {
          return None;
        }
        used := used + {point};
      }
      resolutions := resolutions + [Resolution(point, selected, found)];
      return Some(selected);
    }

    static method AnyRepeat(canonical: seq<Text>) returns (repeated: bool)
      requires |canonical| > 0
      ensures repeated <==> Repeats(canonical)
    {
      for i := 1 to |canonical|
        invariant forall k :: 0 < k < i ==> canonical[k - 1] != canonical[k]
      {
        if canonical[i - 1] == canonical[i] {
          return true;
        }
      }
      return false;
    }

    static method IsOffered(canonical: seq<Text>, selected: Text) returns (found: bool)
      ensures found <==> selected in canonical
    {
      for i := 0 to |canonical|
        invariant selected !in canonical[..i]
      {
        if canonical[i] == selected {
          return true;
        }
      }
      return false;
    }

    method Finish() returns (ok: bool)
      ensures ok <==> Finished(State())
    {
      var unused := scheduled.Keys - used;
      ok := unused == {};
      assert forall point :: point in scheduled && point !in used ==> point in unused;
    }
  }

  /** The decisions that reproduce a run. */
  function Decisions(resolutions: seq<Resolution>): map<Point, Text> {
    if resolutions == [] then map[]
    else Decisions(resolutions[..|resolutions| - 1])[resolutions[|resolutions| - 1].point := resolutions[|resolutions| - 1].selected]
  }

  // ----- Whole runs of an adaptive client -----

  /** A client asks next whatever it likes, given all answers so far; None ends the run. */
  type Client = seq<Text> -> Option<Ask>

  /** At most `fuel` questions: the answers and the ledger, or None on an error. */
  function Play(client: Client, l: Ledger, answers: seq<Text>, fuel: nat): Option<(seq<Text>, Ledger)>
    decreases fuel
  {
    if fuel == 0 || client(answers).None? then Some((answers, l))
    else
      var r := Resolved(l, client(answers).value);
      if r.None? then None else Play(client, r.value.1, answers + [r.value.0], fuel - 1)
  }

  /** Ordinals grow along the ledger, so no point recurs. */
  ghost predicate Ordered(l: Ledger) {
    && (forall i :: 0 <= i < |l.resolutions| ==> l.resolutions[i].point.ordinal <= l.nextOrdinal)
    && (forall i, j :: 0 <= i < j < |l.resolutions| ==> l.resolutions[i].point.ordinal < l.resolutions[j].point.ordinal)
  }

  lemma ResolvedOrdered(l: Ledger, ask: Ask)
    requires Ordered(l) && Resolved(l, ask).Some?
    ensures Ordered(Resolved(l, ask).value.1)
    ensures l.resolutions <= Resolved(l, ask).value.1.resolutions
  {}

  lemma {:induction false} PlayOrdered(client: Client, l: Ledger, answers: seq<Text>, fuel: nat)
    requires Ordered(l) && Play(client, l, answers, fuel).Some?
    ensures Ordered(Play(client, l, answers, fuel).value.1)
    ensures l.resolutions <= Play(client, l, answers, fuel).value.1.resolutions
    ensures answers <= Play(client, l, answers, fuel).value.0
    decreases fuel
  {
    hide Resolved, Ordered, Play;
    PlayUnfolds(client, l, answers, fuel);
    if fuel > 0 && client(answers).Some? {
      ResolvedOrdered(l, client(answers).value);
      var r := Resolved(l, client(answers).value).value;
      PlayOrdered(client, r.1, answers + [r.0], fuel - 1);
      var (heard, after) := Play(client, r.1, answers + [r.0], fuel - 1).value;
      PrefixOn(l.resolutions, r.1.resolutions, after.resolutions);
      PrefixOn(answers, answers + [r.0], heard);
    }
  }

  lemma PrefixOn<T>(a: seq<T>, b: seq<T>, c: seq<T>)
    requires a <= b && b <= c
    ensures a <= c
  {
    assert a == c[..|a|];
  }

  lemma {:induction false} DecisionOf(resolutions: seq<Resolution>, k: nat)
    requires k < |resolutions|
    requires forall i, j :: 0 <= i < j < |resolutions| ==> resolutions[i].point != resolutions[j].point
    ensures resolutions[k].point in Decisions(resolutions) && Decisions(resolutions)[resolutions[k].point] == resolutions[k].selected
  {
    if k < |resolutions| - 1 {
      DecisionOf(resolutions[..|resolutions| - 1], k);
    }
  }

  lemma {:induction false} DecisionKeys(resolutions: seq<Resolution>)
    ensures forall p :: p in Decisions(resolutions) ==> exists k :: 0 <= k < |resolutions| && resolutions[k].point == p
  {
    if resolutions != [] {
      var rest := resolutions[..|resolutions| - 1];
      DecisionKeys(rest);
      forall p | p in Decisions(resolutions) ensures exists k :: 0 <= k < |resolutions| && resolutions[k].point == p {
        if p != resolutions[|resolutions| - 1].point {
          assert p in Decisions(rest);
          var k :| 0 <= k < |rest| && rest[k].point == p;
          assert resolutions[k].point == p;
        }
      }
    }
  }

  /** The same choices, all scheduled. */
  ghost predicate Mirrors(first: Ledger, replay: Ledger) {
    && replay.nextOrdinal == first.nextOrdinal && |replay.resolutions| == |first.resolutions|
    && (forall i :: 0 <= i < |first.resolutions| ==>
          && replay.resolutions[i] == first.resolutions[i].(scheduled := true)
          && replay.resolutions[i].point in replay.used)
  }

  /** One choice resolved from a schedule that holds the first run's decision. */
  lemma ReplayStep(first: Ledger, replay: Ledger, ask: Ask)
    requires Mirrors(first, replay) && Resolved(first, ask).Some?
    requires var after := Resolved(first, ask).value.1;
             forall k :: |first.resolutions| <= k < |after.resolutions| ==>
               after.resolutions[k].point in replay.scheduled &&
               replay.scheduled[after.resolutions[k].point] == after.resolutions[k].selected
    ensures Resolved(replay, ask).Some? && Resolved(replay, ask).value.0 == Resolved(first, ask).value.0
    ensures Mirrors(Resolved(first, ask).value.1, Resolved(replay, ask).value.1)
    ensures Resolved(replay, ask).value.1.scheduled == replay.scheduled
  {
    var canonical := SortTexts(ask.options);
    if |canonical| > 1 {
      var after := Resolved(first, ask).value.1;
      var k := |first.resolutions|;
      assert after.resolutions[k].point == Point(ask.domain, first.nextOrdinal + 1, canonical);
      assert after.resolutions[k].selected in canonical;
    }
  }

  lemma {:induction false} ReplayFrom(client: Client, first: Ledger, replay: Ledger, answers: seq<Text>, fuel: nat)
    requires Ordered(first) && Mirrors(first, replay) && Play(client, first, answers, fuel).Some?
    requires replay.scheduled == Decisions(Play(client, first, answers, fuel).value.1.resolutions)
    ensures var original := Play(client, first, answers, fuel).value;
            var again := Play(client, replay, answers, fuel);
            again.Some? && again.value.0 == original.0 && Mirrors(original.1, again.value.1) &&
            again.value.1.scheduled == replay.scheduled
    decreases fuel
  {
    hide Resolved, Decisions, Mirrors, Ordered, Play;
    PlayUnfolds(client, first, answers, fuel);
    PlayUnfolds(client, replay, answers, fuel);
    if fuel > 0 && client(answers).Some? {
      var ask := client(answers).value;
      var r := Resolved(first, ask).value;
      ResolvedOrdered(first, ask);
      PlayOrdered(client, first, answers, fuel);
      PlayOrdered(client, r.1, answers + [r.0], fuel - 1);
      var final := Play(client, first, answers, fuel).value.1;
      DecisionsHold(final, r.1, |first.resolutions|);
      ReplayStep(first, replay, ask);
      ReplayFrom(client, r.1, Resolved(replay, ask).value.1, answers + [r.0], fuel - 1);
    }
  }

  lemma PlayUnfolds(client: Client, l: Ledger, answers: seq<Text>, fuel: nat)
    ensures Play(client, l, answers, fuel) ==
            if fuel == 0 || client(answers).None? then Some((answers, l))
            else
              var r := Resolved(l, client(answers).value);
              if r.None? then None else Play(client, r.value.1, answers + [r.value.0], fuel - 1)
  {}

  lemma DecisionsHold(final: Ledger, after: Ledger, from: nat)
    requires Ordered(final) && after.resolutions <= final.resolutions
    ensures forall k :: from <= k < |after.resolutions| ==>
              after.resolutions[k].point in Decisions(final.resolutions) &&
              Decisions(final.resolutions)[after.resolutions[k].point] == after.resolutions[k].selected
  {
    forall k | from <= k < |after.resolutions|
      ensures after.resolutions[k].point in Decisions(final.resolutions)
      ensures Decisions(final.resolutions)[after.resolutions[k].point] == after.resolutions[k].selected
    {
      assert final.resolutions[k] == after.resolutions[k];
      DecisionOf(final.resolutions, k);
    }
  }

  /** Replaying any adaptive client with the decisions of a first run, whatever schedule that
      run had, reproduces every answer and every choice point, and no decision is unused. */
  lemma ReplayReproduces(client: Client, schedule: map<Point, Text>, fuel: nat)
    requires Play(client, Fresh(schedule), [], fuel).Some?
    ensures var (answers, first) := Play(client, Fresh(schedule), [], fuel).value;
            var again := Play(client, Fresh(Decisions(first.resolutions)), [], fuel);
            again.Some? && again.value.0 == answers && Mirrors(first, again.value.1) && Finished(again.value.1)
  {
    var first := Play(client, Fresh(schedule), [], fuel).value.1;
    var replay := Fresh(Decisions(first.resolutions));
    ReplayFrom(client, Fresh(schedule), replay, [], fuel);
    DecisionKeys(first.resolutions);
    var again := Play(client, replay, [], fuel).value.1;
    forall p | p in again.scheduled ensures p in again.used {
      var k :| 0 <= k < |first.resolutions| && first.resolutions[k].point == p;
      assert again.resolutions[k].point in again.used;
    }
  }
}
