/** Event intervals on named clocks (event_timing.go). */
module Timings {
  import opened Texts

  /** A closed interval on one clock; ticks are natural numbers. */
  datatype EventTiming = EventTiming(clock: Text, start: nat, finish: nat)

  datatype Option<T> = None | Some(value: T)

  predicate WellFormed(t: EventTiming) {
    t.clock != [] && t.start <= t.finish
  }

  /** Sorted by clock, at most one interval per clock. */
  ghost predicate Canonical(ts: seq<EventTiming>) {
    && (forall i :: 0 <= i < |ts| ==> WellFormed(ts[i]))
    && (forall i, j :: 0 <= i < j < |ts| ==> Less(ts[i].clock, ts[j].clock))
  }

  ghost predicate DistinctClocks(ts: seq<EventTiming>) {
    forall i, j :: 0 <= i < j < |ts| ==> ts[i].clock != ts[j].clock
  }

  ghost predicate Admissible(ts: seq<EventTiming>) {
    && (forall i :: 0 <= i < |ts| ==> WellFormed(ts[i]))
    && DistinctClocks(ts)
  }

  /** The earlier event finishes after the later one starts on a clock both are related to. */
  ghost predicate Conflict(before: seq<EventTiming>, after: seq<EventTiming>) {
    exists i, j :: 0 <= i < |before| && 0 <= j < |after| && Clash(before[i], after[j])
  }

  predicate Clash(t: EventTiming, u: EventTiming) {
    t.clock == u.clock && t.finish > u.start
  }

  // ----- Sorting by clock -----

  function InsertByClock(t: EventTiming, ts: seq<EventTiming>): (r: seq<EventTiming>)
    ensures multiset(r) == multiset{t} + multiset(ts)
  {
    if ts == [] then [t]
    else if !Less(ts[0].clock, t.clock) then [t] + ts
    else
      assert ts == [ts[0]] + ts[1..];
      [ts[0]] + InsertByClock(t, ts[1..])
  }

  function SortByClock(ts: seq<EventTiming>): (r: seq<EventTiming>)
    ensures multiset(r) == multiset(ts)
  {
    if ts == [] then []
    else
      assert ts == [ts[0]] + ts[1..];
      InsertByClock(ts[0], SortByClock(ts[1..]))
  }

  ghost predicate WeaklySorted(ts: seq<EventTiming>) {
    forall i, j :: 0 <= i < j < |ts| ==> AtMost(ts[i].clock, ts[j].clock)
  }

  lemma {:induction false} InsertKeepsSorted(t: EventTiming, ts: seq<EventTiming>)
    requires WeaklySorted(ts)
    ensures WeaklySorted(InsertByClock(t, ts))
  {
    if ts != [] {
      LessTotal(t.clock, ts[0].clock);
      if !Less(ts[0].clock, t.clock) {
        forall j | 0 <= j < |ts| ensures AtMost(t.clock, ts[j].clock) {
          if Less(t.clock, ts[0].clock) && 0 < j && Less(ts[0].clock, ts[j].clock) {
            LessTransitive(t.clock, ts[0].clock, ts[j].clock);
          }
        }
      } else {
        var rest := InsertByClock(t, ts[1..]);
        InsertKeepsSorted(t, ts[1..]);
        forall j | 0 <= j < |rest| ensures AtMost(ts[0].clock, rest[j].clock) {
          assert rest[j] in multiset(rest);
          assert rest[j] == t || rest[j] in ts[1..];
        }
      }
    }
  }

  lemma {:induction false} SortIsSorted(ts: seq<EventTiming>)
    ensures WeaklySorted(SortByClock(ts))
  {
    if ts != [] {
      SortIsSorted(ts[1..]);
      InsertKeepsSorted(ts[0], SortByClock(ts[1..]));
    }
  }

  lemma CanonicalHeads(s: seq<EventTiming>, t: seq<EventTiming>)
    requires Canonical(s) && Canonical(t) && multiset(s) == multiset(t) && s != [] && t != []
    ensures s[0] == t[0]
  {
    assert s[0] in multiset(t) && t[0] in multiset(s);
    var i :| 0 <= i < |t| && t[i] == s[0];
    var j :| 0 <= j < |s| && s[j] == t[0];
    LessAsymmetric(s[0].clock, t[0].clock);
  }

  lemma TailMultiset(s: seq<EventTiming>)
    requires s != []
    ensures multiset(s[1..]) == multiset(s) - multiset{s[0]}
  {
    assert s == [s[0]] + s[1..];
  }

  lemma {:induction false} CanonicalUnique(s: seq<EventTiming>, t: seq<EventTiming>)
    requires Canonical(s) && Canonical(t) && multiset(s) == multiset(t)
    ensures s == t
  {
    assert |multiset(s)| == |s| && |multiset(t)| == |t|;
    if s != [] {
      CanonicalHeads(s, t);
      var u, v := s[1..], t[1..];
      TailMultiset(s);
      TailMultiset(t);
      assert Canonical(u) && Canonical(v);
      CanonicalUnique(u, v);
    }
  }

  lemma DistinctFromMultiset(s: seq<EventTiming>, t: seq<EventTiming>, i: nat, j: nat)
    requires multiset(s) == multiset(t) && i < j < |s| && s[i].clock == s[j].clock
    ensures !DistinctClocks(t)
  {
    if s[i] == s[j] {
      RepeatedIsTwice(s, i, j);
      TwiceIsRepeated(t, s[i]);
    } else {
      assert s[i] in multiset(t) && s[j] in multiset(t);
    }
  }

  lemma RepeatedIsTwice(s: seq<EventTiming>, i: nat, j: nat)
    requires i < j < |s| && s[i] == s[j]
    ensures multiset(s)[s[i]] >= 2
  {
    assert s == s[..j] + [s[j]] + s[j + 1..];
    assert s[..j][i] == s[i];
    assert s[i] in multiset(s[..j]);
  }

  lemma TwiceIsRepeated(s: seq<EventTiming>, x: EventTiming)
    requires multiset(s)[x] >= 2
    ensures exists i, j :: 0 <= i < j < |s| && s[i] == x && s[j] == x
  {
    assert x in multiset(s);
    var i :| 0 <= i < |s| && s[i] == x;
    var rest := s[..i] + s[i + 1..];
    assert s == s[..i] + [s[i]] + s[i + 1..];
    assert multiset(s) == multiset(rest) + multiset{x};
    assert x in multiset(rest);
    var j :| 0 <= j < |rest| && rest[j] == x;
    if j < i {
      assert s[j] == x;
    } else {
      assert s[j + 1] == x;
    }
  }

  lemma AdmissibleSorts(ts: seq<EventTiming>)
    requires Admissible(ts)
    ensures Canonical(SortByClock(ts))
  {
    var s := SortByClock(ts);
    SortIsSorted(ts);
    forall i | 0 <= i < |s| ensures WellFormed(s[i]) {
      assert s[i] in multiset(ts);
    }
    forall i, j | 0 <= i < j < |s| ensures Less(s[i].clock, s[j].clock) {
      if s[i].clock == s[j].clock {
        DistinctFromMultiset(s, ts, i, j);
      }
    }
  }

  /** CanonicalizeEventTimings: accepts exactly the admissible lists, and returns their
      one canonical ordering. */
  method CanonicalizeEventTimings(timings: seq<EventTiming>) returns (r: Option<seq<EventTiming>>)
    ensures r.Some? <==> Admissible(timings)
    ensures r.Some? ==> r.value == SortByClock(timings) && Canonical(r.value)
  {
    for index := 0 to |timings|
      invariant forall i :: 0 <= i < index ==> WellFormed(timings[i])
    {
      if timings[index].clock == [] {
        return None;
      }
      if timings[index].finish < timings[index].start {
        return None;
      }
    }
    hide SortByClock, Canonical, WeaklySorted, StrictClocks, DistinctClocks;
    var result := SortByClock(timings);
    SortIsSorted(timings);
    assert StrictClocks(result, 1) by { OneClock(result); }
    var index := 1;
    while index < |result|
      invariant 1 <= index && StrictClocks(result, index)
    {
      if result[index - 1].clock == result[index].clock {
        DistinctFromMultiset(result, timings, index - 1, index);
        return None;
      }
      NextClock(result, index);
      index := index + 1;
    }
    AllClocks(result, index, timings);
    return Some(result);
  }

  ghost predicate StrictClocks(ts: seq<EventTiming>, n: nat) {
    forall i, j :: 0 <= i < j < n && j < |ts| ==> Less(ts[i].clock, ts[j].clock)
  }

  lemma OneClock(ts: seq<EventTiming>)
    ensures StrictClocks(ts, 1)
  {}

  lemma NextClock(ts: seq<EventTiming>, n: nat)
    requires WeaklySorted(ts) && 1 <= n < |ts| && StrictClocks(ts, n) && ts[n - 1].clock != ts[n].clock
    ensures StrictClocks(ts, n + 1)
  {
    assert AtMost(ts[n - 1].clock, ts[n].clock);
    forall i | 0 <= i < n ensures Less(ts[i].clock, ts[n].clock) {
      if i < n - 1 {
        LessTransitive(ts[i].clock, ts[n - 1].clock, ts[n].clock);
      }
    }
  }

  lemma AllClocks(result: seq<EventTiming>, n: nat, timings: seq<EventTiming>)
    requires multiset(result) == multiset(timings) && |result| <= n && StrictClocks(result, n)
    requires forall i :: 0 <= i < |timings| ==> WellFormed(timings[i])
    ensures Canonical(result) && DistinctClocks(timings)
  {
    forall i | 0 <= i < |result| ensures WellFormed(result[i]) {
      assert result[i] in multiset(timings);
    }
    CanonicalDistinct(result);
    forall i, j | 0 <= i < j < |timings| ensures timings[i].clock != timings[j].clock {
      if timings[i].clock == timings[j].clock {
        DistinctFromMultiset(timings, result, i, j);
      }
    }
  }

  lemma CanonicalDistinct(ts: seq<EventTiming>)
    requires Canonical(ts)
    ensures DistinctClocks(ts)
  {
    forall i, j | 0 <= i < j < |ts| ensures ts[i].clock != ts[j].clock {
      LessIrreflexive(ts[i].clock);
    }
  }

  lemma CanonicalTimingsAdmissible(ts: seq<EventTiming>)
    requires Canonical(ts)
    ensures Admissible(ts) && SortByClock(ts) == ts
  {
    CanonicalDistinct(ts);
    AdmissibleSorts(ts);
    CanonicalUnique(SortByClock(ts), ts);
  }

  /** Event.Timing: binary search for the interval on one clock. */
  method Timing(timings: seq<EventTiming>, clock: Text) returns (r: Option<EventTiming>)
    requires Canonical(timings)
    ensures r.Some? ==> r.value in timings && r.value.clock == clock
    ensures r.None? ==> forall t :: t in timings ==> t.clock != clock
  {
    if clock == [] {
      return None;
    }
    var low, high := 0, |timings|;
    while low < high
      invariant 0 <= low <= high <= |timings|
      invariant forall i :: 0 <= i < low ==> Less(timings[i].clock, clock)
      invariant forall i :: high <= i < |timings| ==> AtMost(clock, timings[i].clock)
    {
      var middle := (low + high) / 2;
      LessTotal(timings[middle].clock, clock);
      if Less(timings[middle].clock, clock) {
        forall i | 0 <= i < middle ensures Less(timings[i].clock, clock) {
          LessTransitive(timings[i].clock, timings[middle].clock, clock);
        }
        low := middle + 1;
      } else {
        forall i | middle < i < |timings| ensures AtMost(clock, timings[i].clock) {
          if clock != timings[middle].clock {
            LessTransitive(clock, timings[middle].clock, timings[i].clock);
          }
        }
        high := middle;
      }
    }
    if low == |timings| || timings[low].clock != clock {
      forall i | 0 <= i < |timings| ensures timings[i].clock != clock {
        LessIrreflexive(clock);
        if low < i {
          LessAsymmetric(timings[low].clock, timings[i].clock);
        }
      }
      return None;
    }
    return Some(timings[low]);
  }

  /** sharedTimingConflict: one merge pass over both canonical lists finds a clash
      exactly when there is one. */
  method SharedTimingConflict(before: seq<EventTiming>, after: seq<EventTiming>) returns (conflict: bool)
    requires Canonical(before) && Canonical(after)
    ensures conflict <==> Conflict(before, after)
  {
    var left, right := 0, 0;
    while left < |before| && right < |after|
      invariant 0 <= left <= |before| && 0 <= right <= |after|
      invariant forall i, j :: 0 <= i < |before| && 0 <= j < |after| && (i < left || j < right) ==>
                                 !Clash(before[i], after[j])
      decreases |before| - left + |after| - right
    {
      LessTotal(before[left].clock, after[right].clock);
      if Less(before[left].clock, after[right].clock) {
        ClockBelow(before[left], after, right);
        left := left + 1;
      } else if Less(after[right].clock, before[left].clock) {
        ClockBelow(after[right], before, left);
        right := right + 1;
      } else {
        if before[left].finish > after[right].start {
          assert Clash(before[left], after[right]);
          return true;
        }
        SameClock(before, left);
        SameClock(after, right);
        left := left + 1;
        right := right + 1;
      }
    }
    return false;
  }

  lemma ClockBelow(t: EventTiming, ts: seq<EventTiming>, k: nat)
    requires Canonical(ts) && k < |ts| && Less(t.clock, ts[k].clock)
    ensures forall j :: k <= j < |ts| ==> ts[j].clock != t.clock
  {
    LessIrreflexive(t.clock);
    forall j | k < j < |ts| ensures ts[j].clock != t.clock {
      LessTransitive(t.clock, ts[k].clock, ts[j].clock);
    }
  }

  lemma SameClock(ts: seq<EventTiming>, k: nat)
    requires Canonical(ts) && k < |ts|
    ensures forall j :: k < j < |ts| ==> ts[j].clock != ts[k].clock
  {
    LessIrreflexive(ts[k].clock);
  }
}
