/** Go strings: byte sequences under bytewise lexicographic order.

    Event, clock and occurrence identities are compared, sorted and minimised in this
    order throughout the repository. */
module Texts {
  newtype byte = x: int | 0 <= x < 256

  type Text = seq<byte>

  predicate Less(a: Text, b: Text) {
    if b == [] then false
    else if a == [] then true
    else a[0] < b[0] || (a[0] == b[0] && Less(a[1..], b[1..]))
  }

  predicate AtMost(a: Text, b: Text) {
    a == b || Less(a, b)
  }

  lemma {:induction false} LessTransitive(a: Text, b: Text, c: Text)
    requires Less(a, b) && Less(b, c)
    ensures Less(a, c)
  {
    if a != [] && a[0] == b[0] && b[0] == c[0] {
      LessTransitive(a[1..], b[1..], c[1..]);
    }
  }

  lemma {:induction false} LessTotal(a: Text, b: Text)
    ensures Less(a, b) || Less(b, a) || a == b
  {
    if a != [] && b != [] && a[0] == b[0] {
      LessTotal(a[1..], b[1..]);
      assert a[1..] == b[1..] ==> a == [a[0]] + a[1..] == [b[0]] + b[1..] == b;
    }
  }

  lemma {:induction false} LessIrreflexive(a: Text)
    ensures !Less(a, a)
  {
    if a != [] {
      LessIrreflexive(a[1..]);
    }
  }

  lemma LessAsymmetric(a: Text, b: Text)
    ensures !(Less(a, b) && Less(b, a))
  {
    if Less(a, b) && Less(b, a) {
      LessTransitive(a, b, a);
      LessIrreflexive(a);
    }
  }

  lemma TextTies(a: Text, b: Text, c: Text)
    ensures !Less(b, a) <==> AtMost(a, b)
    ensures AtMost(a, b) && AtMost(b, c) ==> AtMost(a, c)
    ensures AtMost(a, b) && AtMost(b, a) ==> a == b
  {
    hide Less;
    LessTotal(a, b);
    LessAsymmetric(a, b);
    if Less(a, b) && Less(b, c) {
      LessTransitive(a, b, c);
    }
  }

  /** The order is decided by the first differing byte, and a proper prefix comes first. */
  lemma {:induction false} LessIff(a: Text, b: Text)
    ensures Less(a, b) <==>
            exists k :: 0 <= k <= |a| && k < |b| && a[..k] == b[..k] && (k == |a| || a[k] < b[k])
  {
    if a != [] && b != [] {
      LessIff(a[1..], b[1..]);
      if a[0] == b[0] && Less(a, b) {
        var k :| 0 <= k <= |a[1..]| && k < |b[1..]| && a[1..][..k] == b[1..][..k] && (k == |a[1..]| || a[1..][k] < b[1..][k]);
        assert a[..k + 1] == [a[0]] + a[1..][..k] && b[..k + 1] == [b[0]] + b[1..][..k];
      } else if a[0] < b[0] {
        assert a[..0] == b[..0];
      }
      forall k | 0 <= k <= |a| && k < |b| && a[..k] == b[..k] && (k == |a| || a[k] < b[k]) ensures Less(a, b) {
        if k > 0 {
          assert a[0] == a[..k][0] && b[0] == b[..k][0];
          assert a[1..][..k - 1] == a[..k][1..] && b[1..][..k - 1] == b[..k][1..];
        }
      }
    } else if b != [] {
      assert a[..0] == b[..0];
    }
  }

  // ----- Least members -----

  ghost predicate IsLeast(m: Text, s: set<Text>) {
    m in s && forall x :: x in s ==> AtMost(m, x)
  }

  lemma {:induction false} LeastExists(s: set<Text>) returns (m: Text)
    requires s != {}
    ensures IsLeast(m, s)
  {
    m :| m in s;
    if s != {m} {
      var rest := s - {m};
      assert rest != {};
      var n := LeastExists(rest);
      LessTotal(m, n);
      if Less(n, m) {
        m := n;
      } else {
        forall x | x in s ensures AtMost(m, x) {
          if x != m {
            assert x in rest;
            if Less(m, n) && Less(n, x) {
              LessTransitive(m, n, x);
            }
          }
        }
      }
    }
  }

  lemma LeastUnique(m: Text, n: Text, s: set<Text>)
    requires IsLeast(m, s) && IsLeast(n, s)
    ensures m == n
  {
    LessAsymmetric(m, n);
  }

  // ----- Sorted listings -----

  ghost predicate StrictlySorted(s: seq<Text>) {
    forall i, j :: 0 <= i < j < |s| ==> Less(s[i], s[j])
  }

  function Members<T>(s: seq<T>): set<T> {
    set x | x in s
  }

  lemma TakeOneMore<T>(s: seq<T>, i: nat)
    requires i < |s|
    ensures s[..i + 1] == s[..i] + [s[i]]
    ensures Members(s[..i + 1]) == Members(s[..i]) + {s[i]} && s[i] in Members(s)
  {}

  lemma TakeAll<T>(s: seq<T>)
    ensures s[..|s|] == s
  {}

  lemma {:induction false} DistinctCount<T>(s: seq<T>)
    requires forall i, j :: 0 <= i < j < |s| ==> s[i] != s[j]
    ensures |Members(s)| == |s|
    decreases |s|
  {
    if s != [] {
      var rest := s[..|s| - 1];
      DistinctCount(rest);
      assert Members(s) == Members(rest) + {s[|s| - 1]};
      assert s[|s| - 1] !in Members(rest);
    }
  }

  lemma TwiceListed<T>(s: seq<T>, i: nat, j: nat)
    requires i < j < |s| && s[i] == s[j]
    ensures multiset(s)[s[i]] >= 2
  {
    assert s == s[..j] + [s[j]] + s[j + 1..];
    assert s[..j][i] in s[..j];
  }

  lemma OnceListed<T>(s: seq<T>, k: nat)
    requires k < |s| && forall i, j :: 0 <= i < j < |s| ==> s[i] != s[j]
    ensures multiset(s)[s[k]] == 1
  {
    assert s == s[..k] + [s[k]] + s[k + 1..];
    assert s[k] !in s[..k] && s[k] !in s[k + 1..];
  }

  // ----- Duplicate-free queues -----

  /** A queue without duplicates and the set of its entries. */
  ghost predicate QueueOf<T>(queue: seq<T>, queued: set<T>) {
    queued == Members(queue) && forall i, j :: 0 <= i < j < |queue| ==> queue[i] != queue[j]
  }

  lemma QueuePop<T>(queue: seq<T>, queued: set<T>)
    requires QueueOf(queue, queued) && queue != []
    ensures queue[0] in queued && QueueOf(queue[1..], queued - {queue[0]})
    ensures queued == queued - {queue[0]} + {queue[0]}
  {
    assert queue == [queue[0]] + queue[1..];
  }

  lemma QueuePush<T>(queue: seq<T>, queued: set<T>, x: T)
    requires QueueOf(queue, queued) && x !in queued
    ensures QueueOf(queue + [x], queued + {x})
  {
    assert forall i :: 0 <= i < |queue| ==> queue[i] in queued;
  }

  lemma QueueOfOne<T>(x: T)
    ensures QueueOf([x], {x})
  {}

  lemma QueueEmpty<T>(queued: set<T>)
    requires QueueOf([], queued)
    ensures queued == {}
  {}

  /** A set has only one strictly sorted listing, so sorting hides insertion order. */
  lemma {:induction false} SortedUnique(s: seq<Text>, t: seq<Text>)
    requires StrictlySorted(s) && StrictlySorted(t) && Members(s) == Members(t)
    ensures s == t
  {
    MembersEmpty(s);
    MembersEmpty(t);
    if s != [] {
      HeadIsLeast(s);
      HeadIsLeast(t);
      LeastUnique(s[0], t[0], Members(s));
      TailMembers(s);
      TailMembers(t);
      SortedUnique(s[1..], t[1..]);
      assert s == [s[0]] + s[1..];
    }
  }

  lemma MembersEmpty<T>(s: seq<T>)
    ensures Members(s) == {} <==> s == []
  {
    if s != [] {
      assert s[0] in Members(s);
    }
  }

  lemma SingletonMembers<T>(s: seq<T>)
    requires |s| == 1
    ensures Members(s) == {s[0]}
  {}

  lemma SortedDistinct(s: seq<Text>, i: nat, j: nat)
    requires StrictlySorted(s) && i < j < |s|
    ensures s[i] != s[j] && s[i] in Members(s) && s[j] in Members(s)
  {
    LessIrreflexive(s[i]);
  }

  lemma HeadIsLeast(s: seq<Text>)
    requires StrictlySorted(s) && s != []
    ensures IsLeast(s[0], Members(s))
  {
    forall x | x in Members(s) ensures AtMost(s[0], x) {
      var i :| 0 <= i < |s| && s[i] == x;
    }
  }

  lemma TailMembers(s: seq<Text>)
    requires StrictlySorted(s) && s != []
    ensures Members(s[1..]) == Members(s) - {s[0]}
  {
    hide Less;
    LessIrreflexive(s[0]);
    forall x | x in Members(s) && x != s[0] ensures x in s[1..] {
      var i :| 0 <= i < |s| && s[i] == x;
      assert s[1..][i - 1] == x;
    }
    forall x | x in s[1..] ensures x in Members(s) && x != s[0] {
      var i :| 0 <= i < |s| - 1 && s[1..][i] == x;
      assert Less(s[0], s[i + 1]);
    }
  }

  lemma LeastExtends(m: Text, s: set<Text>, x: Text)
    requires IsLeast(m, s)
    ensures IsLeast(if Less(x, m) then x else m, s + {x})
  {
    hide Less, AtMost;
    TextTies(m, x, x);
    LessIrreflexive(x);
    TextTies(x, x, x);
    forall y | y in s && Less(x, m) ensures AtMost(x, y) {
      LessAsymmetric(x, m);
      TextTies(x, m, y);
    }
  }

  method LeastOf(s: set<Text>) returns (m: Text)
    requires s != {}
    ensures IsLeast(m, s)
  {
    m :| m in s;
    var rest := s - {m};
    while rest != {}
      invariant rest <= s && IsLeast(m, s - rest)
      decreases |rest|
    {
      var x :| x in rest;
      LeastExtends(m, s - rest, x);
      assert s - (rest - {x}) == (s - rest) + {x};
      if Less(x, m) {
        m := x;
      }
      rest := rest - {x};
    }
    assert s - rest == s;
  }

  ghost predicate AllBelow(r: seq<Text>, rest: set<Text>) {
    forall i, x :: 0 <= i < |r| && x in rest ==> Less(r[i], x)
  }

  lemma NextLeast(r: seq<Text>, rest: set<Text>, m: Text)
    requires StrictlySorted(r) && AllBelow(r, rest) && IsLeast(m, rest)
    ensures StrictlySorted(r + [m]) && AllBelow(r + [m], rest - {m}) && Members(r + [m]) == Members(r) + {m}
  {
    forall x | x in rest - {m} ensures Less(m, x) {
      LessTotal(m, x);
    }
  }

  /** What collecting map keys and sorting them yields. */
  method Sort(s: set<Text>) returns (r: seq<Text>)
    ensures StrictlySorted(r) && Members(r) == s
  {
    hide StrictlySorted, Members, AllBelow;
    r := [];
    var rest := s;
    assert StrictlySorted(r) && AllBelow(r, rest) && Members(r) == {} by { NothingListed(rest); }
    while rest != {}
      invariant rest <= s && Members(r) == s - rest && StrictlySorted(r) && AllBelow(r, rest)
      decreases |rest|
    {
      var m := LeastOf(rest);
      NextLeast(r, rest, m);
      r := r + [m];
      rest := rest - {m};
    }
  }

  lemma NothingListed(rest: set<Text>)
    ensures StrictlySorted([]) && AllBelow([], rest) && Members<Text>([]) == {}
  {}

  lemma MinimumExists(keys: set<Text>)
    requires keys != {}
    ensures exists m :: IsLeast(m, keys)
  {
    var n := LeastExists(keys);
  }

  lemma LeastGoesFirst(m: Text, keys: set<Text>, rest: seq<Text>)
    requires IsLeast(m, keys) && StrictlySorted(rest) && Members(rest) == keys - {m}
    ensures StrictlySorted([m] + rest) && Members([m] + rest) == keys
  {
    forall i | 0 <= i < |rest| ensures Less(m, rest[i]) {
      assert rest[i] in Members(rest);
    }
    assert Members([m] + rest) == {m} + Members(rest);
  }

  /** A set of texts in ascending order. */
  ghost function SortedKeys(keys: set<Text>): (r: seq<Text>)
    ensures StrictlySorted(r) && Members(r) == keys
  {
    if keys == {} then []
    else
      MinimumExists(keys);
      var m :| IsLeast(m, keys);
      var rest := SortedKeys(keys - {m});
      LeastGoesFirst(m, keys, rest);
      [m] + rest
  }

  // ----- Stable sorting -----

  function InsertBy<T>(less: (T, T) -> bool, x: T, s: seq<T>): (r: seq<T>)
    ensures multiset(r) == multiset{x} + multiset(s) && |r| == |s| + 1
  {
    if s == [] then [x]
    else if !less(s[0], x) then [x] + s
    else
      assert s == [s[0]] + s[1..];
      [s[0]] + InsertBy(less, x, s[1..])
  }

  function SortBy<T>(less: (T, T) -> bool, s: seq<T>): (r: seq<T>)
    ensures multiset(r) == multiset(s) && |r| == |s|
  {
    if s == [] then []
    else
      assert s == [s[0]] + s[1..];
      InsertBy(less, s[0], SortBy(less, s[1..]))
  }

  /** Nothing is followed by something that should come before it. */
  ghost predicate Ascending<T(!new)>(less: (T, T) -> bool, s: seq<T>) {
    forall i, j :: 0 <= i < j < |s| ==> !less(s[j], s[i])
  }

  /** Strict comparison of keys: nothing precedes itself, and ties are ties throughout. */
  ghost predicate IsOrder<T(!new)>(less: (T, T) -> bool, all: set<T>) {
    && (forall a, b :: a in all && b in all && less(a, b) ==> !less(b, a))
    && (forall a, b, c :: a in all && b in all && c in all && !less(b, a) && !less(c, b) ==> !less(c, a))
  }

  lemma {:induction false} InsertKeepsAscending<T(!new)>(less: (T, T) -> bool, x: T, s: seq<T>, all: set<T>)
    requires IsOrder(less, all) && x in all && Members(s) <= all && Ascending(less, s)
    ensures Ascending(less, InsertBy(less, x, s))
  {
    assert forall j :: 0 <= j < |s| ==> s[j] in Members(s);
    if s == [] || !less(s[0], x) {
      forall j | 0 <= j < |s| ensures !less(s[j], x) {
        assert j > 0 ==> !less(s[j], s[0]);
      }
    } else {
      var rest := InsertBy(less, x, s[1..]);
      InsertKeepsAscending(less, x, s[1..], all);
      SameMembers(rest, [x] + s[1..]);
      forall j | 0 <= j < |rest| ensures !less(rest[j], s[0]) {
        assert rest[j] in [x] + s[1..];
      }
    }
  }

  /** Sorting by an order ascends. */
  lemma {:induction false} SortByAscends<T(!new)>(less: (T, T) -> bool, s: seq<T>, all: set<T>)
    requires IsOrder(less, all) && Members(s) <= all
    ensures Ascending(less, SortBy(less, s))
  {
    if s != [] {
      assert s[0] in Members(s);
      SortByAscends(less, s[1..], all);
      SameMembers(SortBy(less, s[1..]), s[1..]);
      InsertKeepsAscending(less, s[0], SortBy(less, s[1..]), all);
    }
  }

  ghost predicate Rising(s: seq<Text>) {
    forall i, j :: 0 <= i < j < |s| ==> AtMost(s[i], s[j])
  }

  lemma TextsOrdered(all: set<Text>)
    ensures IsOrder(Less, all)
  {
    hide Less, AtMost;
    forall a, b, c | a in all && b in all && c in all
      ensures Less(a, b) ==> !Less(b, a)
      ensures !Less(b, a) && !Less(c, b) ==> !Less(c, a)
    {
      LessAsymmetric(a, b);
      TextTies(a, b, c);
      TextTies(b, c, a);
      TextTies(a, c, b);
    }
  }

  lemma SortRises(s: seq<Text>)
    ensures Rising(SortBy(Less, s))
  {
    hide Less, AtMost;
    var r := SortBy(Less, s);
    TextsOrdered(Members(s));
    SortByAscends(Less, s, Members(s));
    forall i, j | 0 <= i < j < |r| ensures AtMost(r[i], r[j]) {
      TextTies(r[i], r[j], r[j]);
    }
  }

  /** Without equal neighbours a rising list repeats nothing. */
  lemma RisingDistinct(r: seq<Text>)
    requires Rising(r) && forall i :: 0 < i < |r| ==> r[i] != r[i - 1]
    ensures forall i, j :: 0 <= i < j < |r| ==> r[i] != r[j]
  {
    hide Less, AtMost;
    forall i, j | 0 <= i < j < |r| ensures r[i] != r[j] {
      assert r[j] != r[j - 1];
      TextTies(r[j - 1], r[j], r[j]);
      assert AtMost(r[j - 1], r[j]) && (i < j - 1 ==> AtMost(r[i], r[j - 1]));
    }
  }

  lemma SameMembers<T>(a: seq<T>, b: seq<T>)
    ensures multiset(a) == multiset(b) ==> forall x :: x in a <==> x in b
  {
    forall x ensures (x in a <==> x in multiset(a)) && (x in b <==> x in multiset(b)) {
    }
  }

  lemma SameList<T>(a: seq<T>, b: seq<T>)
    requires multiset(a) == multiset(b) && forall i, j :: 0 <= i < j < |a| ==> a[i] != a[j]
    ensures forall i, j :: 0 <= i < j < |b| ==> b[i] != b[j]
    ensures forall x :: x in a <==> x in b
  {
    SameMembers(a, b);
    forall i, j | 0 <= i < j < |b| ensures b[i] != b[j] {
      if b[i] == b[j] {
        TwiceListed(b, i, j);
        var k :| 0 <= k < |a| && a[k] == b[i];
        OnceListed(a, k);
      }
    }
  }

  lemma {:induction false} SortedAlready(c: seq<Text>)
    requires StrictlySorted(c)
    ensures SortBy(Less, c) == c
  {
    if c != [] {
      SortedAlready(c[1..]);
      if |c| > 1 {
        LessAsymmetric(c[0], c[1]);
      }
      assert c == [c[0]] + c[1..];
    }
  }

  /** Sorting texts without repetition lists their set in ascending order. */
  lemma {:induction false} SortAscends(s: seq<Text>)
    requires forall i, j :: 0 <= i < j < |s| ==> s[i] != s[j]
    ensures StrictlySorted(SortBy(Less, s)) && Members(SortBy(Less, s)) == Members(s)
    decreases |s|
  {
    SameMembers(SortBy(Less, s), s);
    if s != [] {
      SortAscends(s[1..]);
      SameMembers(SortBy(Less, s[1..]), s[1..]);
      InsertAscends(s[0], SortBy(Less, s[1..]));
    }
  }

  lemma {:induction false} InsertAscends(x: Text, s: seq<Text>)
    requires StrictlySorted(s) && x !in s
    ensures StrictlySorted(InsertBy(Less, x, s))
  {
    if s != [] {
      LessTotal(x, s[0]);
      if Less(s[0], x) {
        var rest := InsertBy(Less, x, s[1..]);
        InsertAscends(x, s[1..]);
        SameMembers(rest, [x] + s[1..]);
        forall j | 0 <= j < |rest| ensures Less(s[0], rest[j]) {
          assert rest[j] in rest;
          assert rest[j] in [x] + s[1..];
        }
      } else {
        forall j | 0 < j < |s| ensures Less(x, s[j]) {
          LessTransitive(x, s[0], s[j]);
        }
      }
    }
  }

  function Decimal(n: nat): Text {
    (if n < 10 then [] else Decimal(n / 10)) + [(48 + n % 10) as byte]
  }

  lemma {:induction false} DecimalDigits(n: nat)
    ensures |Decimal(n)| > 0 && forall i :: 0 <= i < |Decimal(n)| ==> 48 <= Decimal(n)[i] <= 57
  {
    if n >= 10 {
      DecimalDigits(n / 10);
    }
  }

  lemma DecimalLength(n: nat)
    ensures |Decimal(n)| == 1 <==> n < 10
  {
    if n >= 10 {
      DecimalDigits(n / 10);
    }
  }

  lemma {:induction false} DecimalInjective(m: nat, n: nat)
    requires Decimal(m) == Decimal(n)
    ensures m == n
  {
    var d, e := Decimal(m), Decimal(n);
    assert d[|d| - 1] == e[|e| - 1];
    assert m % 10 == n % 10;
    DecimalLength(m);
    DecimalLength(n);
    if m >= 10 {
      assert Decimal(m / 10) == d[..|d| - 1] == e[..|e| - 1] == Decimal(n / 10);
      DecimalInjective(m / 10, n / 10);
    }
  }
}
