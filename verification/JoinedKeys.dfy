/** Keys made by joining texts with NUL bytes: they are told apart by what they join as long as
    the joined texts hold no NUL byte themselves. */
module JoinedKeys {
  import opened Texts

  predicate NulFree(t: Text) {
    0 !in t
  }

  function PairKey(a: Text, b: Text): Text {
    a + [0] + b
  }

  /** Class members joined by NUL bytes. */
  function ClassKey(members: seq<Text>): Text {
    if members == [] then []
    else if |members| == 1 then members[0]
    else PairKey(members[0], ClassKey(members[1..]))
  }

  /** The first NUL of a key ends its first part. */
  lemma FirstNul(a: Text, b: Text)
    requires NulFree(a)
    ensures var k := PairKey(a, b); k[|a|] == 0 && forall i :: 0 <= i < |a| ==> k[i] != 0
  {
    assert forall i :: 0 <= i < |a| ==> a[i] in a;
  }

  /** First parts without NUL bytes suffice for pairs. */
  lemma PlainPairs(a: Text, b: Text, c: Text, d: Text)
    requires NulFree(a) && NulFree(c) && PairKey(a, b) == PairKey(c, d)
    ensures a == c && b == d
  {
    var k, l := PairKey(a, b), PairKey(c, d);
    FirstNul(a, b);
    FirstNul(c, d);
    assert |a| == |c|;
    assert a == k[..|a|] && c == l[..|c|];
    assert b == k[|a| + 1..] && d == l[|c| + 1..];
  }

  lemma {:induction false} ClassKeyHead(c: seq<Text>)
    requires c != [] && forall i :: 0 <= i < |c| ==> NulFree(c[i])
    ensures |c| == 1 ==> ClassKey(c) == c[0] && NulFree(ClassKey(c))
    ensures |c| > 1 ==> ClassKey(c) == PairKey(c[0], ClassKey(c[1..])) && !NulFree(ClassKey(c))
  {
    if |c| > 1 {
      assert ClassKey(c)[|c[0]|] == 0;
    }
  }

  /** Members without NUL bytes keep class keys apart. */
  lemma {:induction false} PlainKeysApart(c: seq<Text>, d: seq<Text>)
    requires c != [] && d != [] && ClassKey(c) == ClassKey(d)
    requires forall i :: 0 <= i < |c| ==> NulFree(c[i])
    requires forall i :: 0 <= i < |d| ==> NulFree(d[i])
    ensures c == d
    decreases |c|
  {
    hide ClassKey, PairKey;
    ClassKeyHead(c);
    ClassKeyHead(d);
    if |c| > 1 && |d| > 1 {
      PlainPairs(c[0], ClassKey(c[1..]), d[0], ClassKey(d[1..]));
      PlainKeysApart(c[1..], d[1..]);
    }
    assert c == [c[0]] + c[1..] && d == [d[0]] + d[1..];
  }

  /** With NUL bytes two disjoint classes can share a key. */
  lemma KeysCollide()
    ensures var a, b := [[97], [98, 0, 99]], [[97, 0, 98], [99]];
            StrictlySorted(a) && StrictlySorted(b) && Members(a) !! Members(b) && ClassKey(a) == ClassKey(b)
  {
    var a: seq<Text>, b: seq<Text> := [[97], [98, 0, 99]], [[97, 0, 98], [99]];
    assert a[1..] == [[98, 0, 99]] && b[1..] == [[99]];
    assert ClassKey(a) == [97] + [0] + [98, 0, 99] == [97, 0, 98] + [0] + [99] == ClassKey(b);
  }
}
