/** What content-derived identities are digests of (deterministic_event.go, module_value.go):
    untimed events, timed events and allocated modules. */
module Preimages {
  import opened Texts
  import opened Timings
  import opened Values
  import opened Encoding

  datatype Provenance = Provenance(
    profile: Text, model: Text, instance: Text, action: Text, occurrence: Text,
    causes: seq<Text>, timings: seq<EventTiming>)

  /** A module allocation: parent and generator take the places of instance and action. */
  datatype Allocation = Allocation(
    profile: Text, model: Text, parent: Text, generator: Text, occurrence: Text, causes: seq<Text>)

  function Ascii(s: string): (t: Text)
    requires forall i :: 0 <= i < |s| ==> s[i] < 128 as char
    ensures |t| == |s| && forall i :: 0 <= i < |s| ==> t[i] == s[i] as int as byte
  {
    seq(|s|, i requires 0 <= i < |s| => s[i] as int as byte)
  }

  const EVENT_V1: Text := Ascii("gorapide:event:v1")
  const EVENT_V2: Text := Ascii("gorapide:event:v2")
  const MODULE_V1: Text := Ascii("gorapide:rapide-module-allocation:v1")

  // ----- Causes -----

  /** The first i sorted entries without repetition. */
  ghost predicate Compacted(kept: seq<Text>, sorted: seq<Text>, i: nat)
    requires i <= |sorted|
  {
    && StrictlySorted(kept) && Members(kept) == Members(sorted[..i])
    && (kept == [] <==> i == 0) && (i > 0 ==> kept[|kept| - 1] == sorted[i - 1])
  }

  lemma AboveKept(kept: seq<Text>, sorted: seq<Text>, i: nat)
    requires Rising(sorted) && 0 < i < |sorted| && Compacted(kept, sorted, i) && kept[|kept| - 1] != sorted[i]
    ensures forall k :: 0 <= k < |kept| ==> Less(kept[k], sorted[i])
  {
    hide Members;
    assert AtMost(sorted[i - 1], sorted[i]);
    forall k | 0 <= k < |kept| - 1 ensures Less(kept[k], sorted[i]) {
      LessTransitive(kept[k], kept[|kept| - 1], sorted[i]);
    }
  }

  /** A repeated entry adds nothing, a new one goes last. */
  lemma CompactStep(kept: seq<Text>, sorted: seq<Text>, i: nat)
    requires Rising(sorted) && i < |sorted| && Compacted(kept, sorted, i)
    ensures kept != [] && kept[|kept| - 1] == sorted[i] ==> Compacted(kept, sorted, i + 1)
    ensures kept == [] || kept[|kept| - 1] != sorted[i] ==> Compacted(kept + [sorted[i]], sorted, i + 1)
  {
    hide Rising;
    TakeOneMore(sorted, i);
    if kept == [] || kept[|kept| - 1] != sorted[i] {
      if kept != [] {
        AboveKept(kept, sorted, i);
      }
      assert Members(kept + [sorted[i]]) == Members(kept) + {sorted[i]};
    }
  }

  lemma SortedCauses(causes: seq<Text>)
    ensures Rising(SortBy(Less, causes)) && Members(SortBy(Less, causes)) == Members(causes)
    ensures forall x :: x in SortBy(Less, causes) <==> x in causes
  {
    hide Rising, SortBy;
    var sorted := SortBy(Less, causes);
    SortRises(causes);
    SameMembers(sorted, causes);
    assert forall x :: x in sorted <==> x in Members(sorted);
    assert forall x :: x in causes <==> x in Members(causes);
  }

  /** The compacting loop works inside one array: entries from i on are still the sorted ones. */
  ghost predicate HalfDone(result: seq<Text>, write: nat, sorted: seq<Text>, i: nat) {
    write <= i <= |sorted| == |result| && result[i..] == sorted[i..] && Compacted(result[..write], sorted, i)
  }

  lemma StartHalf(sorted: seq<Text>)
    ensures HalfDone(sorted, 0, sorted, 0)
  {
    NothingCompacted(sorted);
    assert sorted[..0] == [];
  }

  lemma HalfStep(result: seq<Text>, write: nat, sorted: seq<Text>, i: nat)
    requires Rising(sorted) && i < |sorted| && HalfDone(result, write, sorted, i)
    ensures result[i] == sorted[i]
    ensures write > 0 && result[write - 1] == result[i] ==> HalfDone(result, write, sorted, i + 1)
    ensures write == 0 || result[write - 1] != result[i] ==> HalfDone(result[write := result[i]], write + 1, sorted, i + 1)
  {
    hide Rising, Compacted;
    assert result[i] == result[i..][0] && sorted[i] == sorted[i..][0];
    assert result[i + 1..] == result[i..][1..] && sorted[i + 1..] == sorted[i..][1..];
    CompactStep(result[..write], sorted, i);
    var moved := result[write := result[i]];
    assert moved[i + 1..] == result[i + 1..] && moved[..write + 1] == result[..write] + [sorted[i]];
  }

  /** normalizeCauses: sorts and compacts in place; an empty identity is an error. */
  method NormalizeCauses(causes: seq<Text>) returns (r: Option<seq<Text>>)
    ensures r.Some? <==> [] !in causes
    ensures r.Some? ==> r.value == SortedKeys(Members(causes))
  {
    hide Rising, Compacted, HalfDone, SortBy;
    var sorted := SortBy(Less, causes);
    SortedCauses(causes);
    var result := new Text[|sorted|](i requires 0 <= i < |sorted| => sorted[i]);
    var write := 0;
    assert result[..] == sorted;
    StartHalf(sorted);
    for i := 0 to |sorted|
      invariant write <= i && [] !in sorted[..i]
      invariant HalfDone(result[..], write, sorted, i)
    {
      TakeOneMore(sorted, i);
      HalfStep(result[..], write, sorted, i);
      if result[i] == [] {
        return None;
      }
      if write > 0 && result[write - 1] == result[i] {
        continue;
      }
      result[write] := result[i];
      write := write + 1;
    }
    AllHalf(result[..], write, sorted);
    SortedUnique(result[..][..write], SortedKeys(Members(causes)));
    assert result[..][..write] == result[..write];
    return Some(result[..write]);
  }

  lemma AllHalf(result: seq<Text>, write: nat, sorted: seq<Text>)
    requires HalfDone(result, write, sorted, |sorted|)
    ensures write <= |result| && StrictlySorted(result[..write]) && Members(result[..write]) == Members(sorted)
    ensures sorted[..|sorted|] == sorted
  {
    AllCompacted(result[..write], sorted);
    TakeAll(sorted);
  }

  lemma NothingCompacted(sorted: seq<Text>)
    ensures Compacted([], sorted, 0)
  {}

  lemma AllCompacted(kept: seq<Text>, sorted: seq<Text>)
    requires Compacted(kept, sorted, |sorted|)
    ensures StrictlySorted(kept) && Members(kept) == Members(sorted)
  {
    TakeAll(sorted);
  }

  // ----- Preimages -----

  function CauseBytes(causes: seq<Text>): Text {
    if causes == [] then [] else TextBytes(causes[0]) + CauseBytes(causes[1..])
  }

  function TimingBytes(ts: seq<EventTiming>): Text {
    if ts == [] then []
    else TextBytes(ts[0].clock) + (Uint64(ts[0].start) + (Uint64(ts[0].finish) + TimingBytes(ts[1..])))
  }

  /** The five names, the causes and whatever follows. */
  ghost function Framed(a: Text, b: Text, c: Text, d: Text, e: Text, causes: seq<Text>, rest: Text): Text {
    var sorted := SortedKeys(Members(causes));
    TextBytes(a) + (TextBytes(b) + (TextBytes(c) + (TextBytes(d) + (TextBytes(e) + (Uint64(|sorted|) + (CauseBytes(sorted) + rest))))))
  }

  ghost function EntriesOf(params: Params, keys: seq<Text>): seq<Field>
    requires forall i :: 0 <= i < |keys| ==> keys[i] in params
  {
    seq(|keys|, i requires 0 <= i < |keys| => Field(keys[i], params[keys[i]]))
  }

  ghost function ParamsValue(params: Params): Value {
    var keys := SortedKeys(params.Keys);
    assert forall i :: 0 <= i < |keys| ==> keys[i] in Members(keys);
    Map(EntriesOf(params, keys))
  }

  ghost predicate CanonicalParams(params: Params) {
    CanonicalValue(ParamsValue(params))
  }

  ghost predicate Names(a: Text, b: Text, c: Text, d: Text, e: Text, causes: seq<Text>) {
    && |a| < TWO_64 && |b| < TWO_64 && |c| < TWO_64 && |d| < TWO_64 && |e| < TWO_64
    && |SortedKeys(Members(causes))| < TWO_64 && forall k :: k in causes ==> |k| < TWO_64
  }

  ghost predicate Ticks(ts: seq<EventTiming>) {
    && |ts| < TWO_64
    && forall i :: 0 <= i < |ts| ==> |ts[i].clock| < TWO_64 && ts[i].start < TWO_64 && ts[i].finish < TWO_64
  }

  /** The encoder's domain: 64-bit lengths and ticks, admissible intervals. */
  ghost predicate Encodable(p: Provenance) {
    && Names(p.profile, p.model, p.instance, p.action, p.occurrence, p.causes)
    && Admissible(p.timings) && Ticks(SortByClock(p.timings))
  }

  /** deriveEventID and deriveTimedEventID, up to the digest. */
  ghost function EventPreimage(p: Provenance, params: Params): Text
    requires CanonicalParams(params)
  {
    var body := ValueBytes(ParamsValue(params));
    if p.timings == [] then
      EVENT_V1 + Framed(p.profile, p.model, p.instance, p.action, p.occurrence, p.causes, body)
    else
      var ts := SortByClock(p.timings);
      EVENT_V2 + Framed(p.profile, p.model, p.instance, p.action, p.occurrence, p.causes, Uint64(|ts|) + (TimingBytes(ts) + body))
  }

  ghost function ModulePreimage(a: Allocation): Text {
    MODULE_V1 + Framed(a.profile, a.model, a.parent, a.generator, a.occurrence, a.causes, [])
  }

  // ----- Injectivity -----

  lemma {:induction false} CausesPrefix(a: seq<Text>, b: seq<Text>, s: Text, t: Text)
    requires |a| == |b| && CauseBytes(a) + s == CauseBytes(b) + t
    requires forall i :: 0 <= i < |a| ==> |a[i]| < TWO_64 && |b[i]| < TWO_64
    ensures a == b && s == t
  {
    hide TextBytes;
    if a != [] {
      var ra, rb := CauseBytes(a[1..]), CauseBytes(b[1..]);
      Regroup(TextBytes(a[0]), ra, s);
      Regroup(TextBytes(b[0]), rb, t);
      TextPrefix(a[0], b[0], ra + s, rb + t);
      CausesPrefix(a[1..], b[1..], s, t);
      assert a == [a[0]] + a[1..] && b == [b[0]] + b[1..];
    } else {
      assert [] + s == s && [] + t == t;
    }
  }

  lemma {:induction false} TimingsPrefix(a: seq<EventTiming>, b: seq<EventTiming>, s: Text, t: Text)
    requires |a| == |b| && TimingBytes(a) + s == TimingBytes(b) + t
    requires forall i :: 0 <= i < |a| ==> |a[i].clock| < TWO_64 && a[i].start < TWO_64 && a[i].finish < TWO_64
    requires forall i :: 0 <= i < |b| ==> |b[i].clock| < TWO_64 && b[i].start < TWO_64 && b[i].finish < TWO_64
    ensures a == b && s == t
  {
    hide TextBytes, Uint64;
    if a != [] {
      var ra, rb := TimingBytes(a[1..]), TimingBytes(b[1..]);
      TimingGroups(a[0], ra, s);
      TimingGroups(b[0], rb, t);
      TextPrefix(a[0].clock, b[0].clock, Uint64(a[0].start) + (Uint64(a[0].finish) + (ra + s)), Uint64(b[0].start) + (Uint64(b[0].finish) + (rb + t)));
      Uint64Prefix(a[0].start, b[0].start, Uint64(a[0].finish) + (ra + s), Uint64(b[0].finish) + (rb + t));
      Uint64Prefix(a[0].finish, b[0].finish, ra + s, rb + t);
      TimingsPrefix(a[1..], b[1..], s, t);
      assert a == [a[0]] + a[1..] && b == [b[0]] + b[1..];
    } else {
      assert [] + s == s && [] + t == t;
    }
  }

  lemma TimingGroups(x: EventTiming, rest: Text, s: Text)
    ensures (TextBytes(x.clock) + (Uint64(x.start) + (Uint64(x.finish) + rest))) + s ==
            TextBytes(x.clock) + (Uint64(x.start) + (Uint64(x.finish) + (rest + s)))
  {
    hide TextBytes, Uint64;
    Regroup(TextBytes(x.clock), Uint64(x.start) + (Uint64(x.finish) + rest), s);
    Regroup(Uint64(x.start), Uint64(x.finish) + rest, s);
    Regroup(Uint64(x.finish), rest, s);
  }

  lemma FramedInjective(
      a: Text, b: Text, c: Text, d: Text, e: Text, causes: seq<Text>, s: Text,
      a': Text, b': Text, c': Text, d': Text, e': Text, causes': seq<Text>, t: Text)
    requires Names(a, b, c, d, e, causes) && Names(a', b', c', d', e', causes')
    requires Framed(a, b, c, d, e, causes, s) == Framed(a', b', c', d', e', causes', t)
    ensures a == a' && b == b' && c == c' && d == d' && e == e' && Members(causes) == Members(causes') && s == t
  {
    hide TextBytes, Uint64, CauseBytes, SortedKeys;
    var k, k' := SortedKeys(Members(causes)), SortedKeys(Members(causes'));
    assert Members(k) == Members(causes) && Members(k') == Members(causes');
    var r5, r5' := CauseBytes(k) + s, CauseBytes(k') + t;
    var r4, r4' := TextBytes(e) + (Uint64(|k|) + r5), TextBytes(e') + (Uint64(|k'|) + r5');
    var r3, r3' := TextBytes(d) + r4, TextBytes(d') + r4';
    var r2, r2' := TextBytes(c) + r3, TextBytes(c') + r3';
    TextPrefix(a, a', TextBytes(b) + r2, TextBytes(b') + r2');
    TextPrefix(b, b', r2, r2');
    TextPrefix(c, c', r3, r3');
    TextPrefix(d, d', r4, r4');
    TextPrefix(e, e', Uint64(|k|) + r5, Uint64(|k'|) + r5');
    Uint64Prefix(|k|, |k'|, r5, r5');
    assert forall i :: 0 <= i < |k| ==> k[i] in Members(k);
    assert forall i :: 0 <= i < |k'| ==> k'[i] in Members(k');
    CausesPrefix(k, k', s, t);
  }

  lemma ParamsInjective(a: Params, b: Params)
    requires ParamsValue(a) == ParamsValue(b)
    ensures a == b
  {
    hide SortedKeys;
    var ka, kb := SortedKeys(a.Keys), SortedKeys(b.Keys);
    var ea, eb := ParamsValue(a).entries, ParamsValue(b).entries;
    assert forall i :: 0 <= i < |ka| ==> ka[i] in Members(ka);
    assert forall i :: 0 <= i < |kb| ==> kb[i] in Members(kb);
    assert |ea| == |ka| && |eb| == |kb|;
    forall i | 0 <= i < |ka| ensures ka[i] == kb[i] && a[ka[i]] == b[kb[i]] {
      assert ea[i] == Field(ka[i], a[ka[i]]) && eb[i] == Field(kb[i], b[kb[i]]);
    }
    assert ka == kb;
    assert a.Keys == b.Keys;
    forall k | k in a ensures a[k] == b[k] {
      assert k in Members(ka);
      var i :| 0 <= i < |ka| && ka[i] == k;
    }
  }

  lemma HeaderSplit(h: Text, s: Text, t: Text)
    requires h + s == h + t
    ensures s == t
  {
    SplitAt(h, h, s, t);
  }

  /** Equal preimages mean equal provenance, intervals and parameters; causes count as a set. */
  lemma EventPreimageInjective(p: Provenance, a: Params, q: Provenance, b: Params)
    requires CanonicalParams(a) && CanonicalParams(b) && Encodable(p) && Encodable(q)
    requires EventPreimage(p, a) == EventPreimage(q, b)
    ensures p.profile == q.profile && p.model == q.model && p.instance == q.instance
    ensures p.action == q.action && p.occurrence == q.occurrence && Members(p.causes) == Members(q.causes)
    ensures SortByClock(p.timings) == SortByClock(q.timings) && a == b
  {
    hide Framed, ParamsValue, TimingBytes, Names, Ticks, ValueBytes, CanonicalValue, SortByClock;
    HeadersDiffer();
    var sa, sb := ValueBytes(ParamsValue(a)), ValueBytes(ParamsValue(b));
    var ts, us := SortByClock(p.timings), SortByClock(q.timings);
    var ra := if p.timings == [] then sa else Uint64(|ts|) + (TimingBytes(ts) + sa);
    var rb := if q.timings == [] then sb else Uint64(|us|) + (TimingBytes(us) + sb);
    var fa := Framed(p.profile, p.model, p.instance, p.action, p.occurrence, p.causes, ra);
    var fb := Framed(q.profile, q.model, q.instance, q.action, q.occurrence, q.causes, rb);
    VersionsApart(p, a, q, b, fa, fb);
    HeaderSplit(if p.timings == [] then EVENT_V1 else EVENT_V2, fa, fb);
    FramedInjective(
      p.profile, p.model, p.instance, p.action, p.occurrence, p.causes, ra,
      q.profile, q.model, q.instance, q.action, q.occurrence, q.causes, rb);
    if p.timings != [] {
      TimedRest(ts, us, sa, sb);
    }
    SameValue(ParamsValue(a), ParamsValue(b));
    ParamsInjective(a, b);
  }

  lemma SameValue(v: Value, w: Value)
    requires CanonicalValue(v) && CanonicalValue(w) && ValueBytes(v) == ValueBytes(w)
    ensures v == w
  {
    hide ValueBytes, CanonicalValue;
    assert ValueBytes(v) + [] == ValueBytes(v) && ValueBytes(w) + [] == ValueBytes(w);
    ValuePrefix(v, w, [], []);
  }

  lemma TimedRest(ts: seq<EventTiming>, us: seq<EventTiming>, s: Text, t: Text)
    requires Ticks(ts) && Ticks(us)
    requires Uint64(|ts|) + (TimingBytes(ts) + s) == Uint64(|us|) + (TimingBytes(us) + t)
    ensures ts == us && s == t
  {
    hide Uint64, TimingBytes;
    Uint64Prefix(|ts|, |us|, TimingBytes(ts) + s, TimingBytes(us) + t);
    TimingsPrefix(ts, us, s, t);
  }

  lemma HeadersDiffer()
    ensures |EVENT_V1| == 17 && |EVENT_V2| == 17 && |MODULE_V1| == 36
    ensures EVENT_V1[16] == 49 && EVENT_V2[16] == 50
    ensures EVENT_V1[9] == 101 && EVENT_V2[9] == 101 && MODULE_V1[9] == 114
  {}

  lemma VersionsApart(p: Provenance, a: Params, q: Provenance, b: Params, fa: Text, fb: Text)
    requires CanonicalParams(a) && CanonicalParams(b)
    requires EventPreimage(p, a) == (if p.timings == [] then EVENT_V1 else EVENT_V2) + fa
    requires EventPreimage(q, b) == (if q.timings == [] then EVENT_V1 else EVENT_V2) + fb
    requires EventPreimage(p, a) == EventPreimage(q, b)
    ensures p.timings == [] <==> q.timings == []
  {
    hide EventPreimage, CanonicalParams;
    HeadersDiffer();
    assert ((if p.timings == [] then EVENT_V1 else EVENT_V2) + fa)[16] == ((if q.timings == [] then EVENT_V1 else EVENT_V2) + fb)[16];
  }

  /** Untimed events, timed events and modules never share a preimage. */
  lemma PreimagesSeparate(p: Provenance, a: Params, q: Provenance, b: Params, m: Allocation)
    requires CanonicalParams(a) && CanonicalParams(b)
    ensures p.timings == [] && q.timings != [] ==> EventPreimage(p, a) != EventPreimage(q, b)
    ensures EventPreimage(p, a) != ModulePreimage(m)
  {
    hide Framed, CanonicalParams, ValueBytes, ParamsValue, SortByClock, TimingBytes;
    HeadersDiffer();
    var x, y, z := EventPreimage(p, a), EventPreimage(q, b), ModulePreimage(m);
    assert |x| >= 17 && x[16] == (if p.timings == [] then 49 else 50) && x[9] == 101;
    assert |y| >= 17 && y[16] == (if q.timings == [] then 49 else 50);
    assert |z| >= 17 && z[9] == 114;
  }

  lemma ModulePreimageInjective(a: Allocation, b: Allocation)
    requires Names(a.profile, a.model, a.parent, a.generator, a.occurrence, a.causes)
    requires Names(b.profile, b.model, b.parent, b.generator, b.occurrence, b.causes)
    requires ModulePreimage(a) == ModulePreimage(b)
    ensures a.(causes := []) == b.(causes := []) && Members(a.causes) == Members(b.causes)
  {
    hide Framed, Names;
    HeaderSplit(MODULE_V1,
      Framed(a.profile, a.model, a.parent, a.generator, a.occurrence, a.causes, []),
      Framed(b.profile, b.model, b.parent, b.generator, b.occurrence, b.causes, []));
    FramedInjective(
      a.profile, a.model, a.parent, a.generator, a.occurrence, a.causes, [],
      b.profile, b.model, b.parent, b.generator, b.occurrence, b.causes, []);
  }
}
