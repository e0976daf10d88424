/** A reader for the encoding behind content-derived identities (deterministic_event.go,
    module_value.go): what the library writes says what it was written from. */
module Decoding {
  import opened Texts
  import opened Timings
  import opened Values
  import opened Encoding
  import opened Preimages

  // ----- Numbers and texts -----

  /** Bytes as a number, most significant first. */
  function Number(bytes: Text): nat {
    if bytes == [] then 0 else 256 * Number(bytes[..|bytes| - 1]) + bytes[|bytes| - 1] as nat
  }

  lemma {:induction false} NumberOfBytes(n: nat, k: nat)
    requires n < Power(k)
    ensures Number(BigEndian(n, k)) == n
  {
    if k > 0 {
      var bytes := BigEndian(n, k);
      NumberOfBytes(n / 256, k - 1);
      assert bytes[..k - 1] == BigEndian(n / 256, k - 1) && bytes[k - 1] as nat == n % 256;
    }
  }

  function ReadNumber(s: Text): (r: Option<(nat, Text)>)
    ensures r.Some? ==> |r.value.1| == |s| - 8
  {
    if |s| < 8 then None else Some((Number(s[..8]), s[8..]))
  }

  lemma NumberRead(n: nat, t: Text)
    requires n < TWO_64
    ensures ReadNumber(Uint64(n) + t) == Some((n, t))
  {
    assert Power(8) == TWO_64 by {
      assert Power(4) == 0x1_0000_0000;
    }
    NumberOfBytes(n, 8);
    assert (Uint64(n) + t)[..8] == Uint64(n) && (Uint64(n) + t)[8..] == t;
  }

  function ReadText(s: Text): (r: Option<(Text, Text)>)
    ensures r.Some? ==> |r.value.1| < |s|
  {
    var n := ReadNumber(s);
    if n.None? || n.value.0 > |n.value.1| then None
    else Some((n.value.1[..n.value.0], n.value.1[n.value.0..]))
  }

  lemma TextRead(a: Text, t: Text)
    requires |a| < TWO_64
    ensures ReadText(TextBytes(a) + t) == Some((a, t))
  {
    hide Uint64, ReadNumber;
    TextBytesSplit(a, t);
    NumberRead(|a|, a + t);
    assert (a + t)[..|a|] == a && (a + t)[|a|..] == t;
  }

  function ReadNumbers(k: nat, s: Text): (r: Option<(seq<nat>, Text)>)
    ensures r.Some? ==> |r.value.1| <= |s|
  {
    if k == 0 then Some(([], s))
    else
      var first := ReadNumber(s);
      if first.None? then None
      else
        var rest := ReadNumbers(k - 1, first.value.1);
        if rest.None? then None else Some(([first.value.0] + rest.value.0, rest.value.1))
  }

  lemma {:induction false} NumbersRead(ns: seq<nat>, t: Text)
    requires forall i :: 0 <= i < |ns| ==> ns[i] < TWO_64
    ensures ReadNumbers(|ns|, CodeBytes(ns) + t) == Some((ns, t))
  {
    hide Uint64, ReadNumber;
    if ns == [] {
      assert [] + t == t;
    } else {
      Regroup(Uint64(ns[0]), CodeBytes(ns[1..]), t);
      NumberRead(ns[0], CodeBytes(ns[1..]) + t);
      NumbersRead(ns[1..], t);
      assert ns == [ns[0]] + ns[1..];
    }
  }

  // ----- Values -----

  /** Sixty-four bits as a signed number. */
  function Signed(n: nat): int {
    if n < TWO_63 then n else n - TWO_64
  }

  function AsNumber(r: Option<(nat, Text)>, f: nat -> Value): Option<(Value, Text)> {
    if r.None? then None else Some((f(r.value.0), r.value.1))
  }

  function AsText(r: Option<(Text, Text)>, f: Text -> Value): Option<(Value, Text)> {
    if r.None? then None else Some((f(r.value.0), r.value.1))
  }

  function AsFields(r: Option<(seq<Field>, Text)>, f: seq<Field> -> Value): Option<(Value, Text)> {
    if r.None? then None else Some((f(r.value.0), r.value.1))
  }

  /** The leading byte tells the kind of a value. */
  function ReadValue(s: Text): (r: Option<(Value, Text)>)
    ensures r.Some? ==> |r.value.1| < |s|
    decreases |s|, 0
  {
    if s == [] then None
    else
      var rest := s[1..];
      match s[0] as char
      case '0' => Some((Nil, rest))
      case 't' => Some((Triv, rest))
      case 'b' => if rest == [] || rest[0] > 1 then None else Some((Bool(rest[0] == 1), rest[1..]))
      case 's' => AsText(ReadText(rest), t => Str(t))
      case 'x' => AsText(ReadText(rest), t => Bytes(t))
      case 'o' => AsText(ReadText(rest), t => Module(t))
      case 'c' => AsNumber(ReadNumber(rest), (n: nat) => Character(n))
      case 'u' => AsNumber(ReadNumber(rest), (n: nat) => Unsigned(n))
      case 'i' => AsNumber(ReadNumber(rest), (n: nat) => Int(Signed(n)))
      case 'f' => AsNumber(ReadNumber(rest), (n: nat) => Float(n))
      case 'S' =>
        var count := ReadNumber(rest);
        if count.None? then None
        else
          var codes := ReadNumbers(count.value.0, count.value.1);
          if codes.None? then None else Some((RapideString(codes.value.0), codes.value.1))
      case 'r' =>
        var owner := ReadText(rest);
        if owner.None? then None else AsFields(ReadCounted(owner.value.1), fields => Record(owner.value.0, fields))
      case 'm' => AsFields(ReadCounted(rest), fields => Map(fields))
      case 'l' =>
        var count := ReadNumber(rest);
        if count.None? then None
        else
          var items := ReadItems(count.value.0, count.value.1);
          if items.None? then None else Some((List(items.value.0), items.value.1))
      case _ => None
  }

  function ReadItems(k: nat, s: Text): (r: Option<(seq<Value>, Text)>)
    ensures r.Some? ==> |r.value.1| <= |s|
    decreases |s|, 1
  {
    if k == 0 then Some(([], s))
    else
      var first := ReadValue(s);
      if first.None? then None
      else
        var rest := ReadItems(k - 1, first.value.1);
        if rest.None? then None else Some(([first.value.0] + rest.value.0, rest.value.1))
  }

  function ReadCounted(s: Text): (r: Option<(seq<Field>, Text)>)
    ensures r.Some? ==> |r.value.1| < |s|
    decreases |s|, 2
  {
    var count := ReadNumber(s);
    if count.None? then None else ReadFields(count.value.0, count.value.1)
  }

  function ReadFields(k: nat, s: Text): (r: Option<(seq<Field>, Text)>)
    ensures r.Some? ==> |r.value.1| <= |s|
    decreases |s|, 1
  {
    if k == 0 then Some(([], s))
    else
      var name := ReadText(s);
      if name.None? then None
      else
        var value := ReadValue(name.value.1);
        if value.None? then None
        else
          var rest := ReadFields(k - 1, value.value.1);
          if rest.None? then None else Some(([Field(name.value.0, value.value.0)] + rest.value.0, rest.value.1))
  }

  /** Reading what was written gives the value back, and leaves what follows. */
  lemma {:induction false} ValueRead(v: Value, t: Text)
    requires CanonicalValue(v)
    ensures ReadValue(ValueBytes(v) + t) == Some((v, t))
    decreases v, 1
  {
    hide CanonicalValue, BodyBytes, ReadValue;
    Regroup([Tag(v)], BodyBytes(v), t);
    BodyRead(v, t);
  }

  lemma {:induction false} BodyRead(v: Value, t: Text)
    requires CanonicalValue(v)
    ensures ReadValue([Tag(v)] + (BodyBytes(v) + t)) == Some((v, t))
    decreases v, 0
  {
    hide Uint64, TextBytes, FieldBytes, ItemBytes, CodeBytes, ReadText, ReadNumber, ReadNumbers, ReadItems, ReadFields;
    var s := [Tag(v)] + (BodyBytes(v) + t);
    assert s[1..] == BodyBytes(v) + t;
    match v
    case Nil => assert [] + t == t;
    case Triv => assert [] + t == t;
    case Bool(b) =>
    case Str(x) => TextRead(x, t);
    case Character(c) => NumberRead(c, t);
    case RapideString(cs) =>
      Regroup(Uint64(|cs|), CodeBytes(cs), t);
      NumberRead(|cs|, CodeBytes(cs) + t);
      NumbersRead(cs, t);
    case Module(identity) => TextRead(identity, t);
    case Record(owner, fields) =>
      Regroup(TextBytes(owner), Uint64(|fields|) + FieldBytes(fields), t);
      TextRead(owner, (Uint64(|fields|) + FieldBytes(fields)) + t);
      Regroup(Uint64(|fields|), FieldBytes(fields), t);
      NumberRead(|fields|, FieldBytes(fields) + t);
      FieldsRead(fields, t);
    case Int(i) => NumberRead(Wrapped(i), t);
    case Unsigned(n) => NumberRead(n, t);
    case Float(bits) => NumberRead(bits, t);
    case Bytes(bytes) => TextRead(bytes, t);
    case List(items) =>
      Regroup(Uint64(|items|), ItemBytes(items), t);
      NumberRead(|items|, ItemBytes(items) + t);
      ItemsRead(items, t);
    case Map(entries) =>
      Regroup(Uint64(|entries|), FieldBytes(entries), t);
      NumberRead(|entries|, FieldBytes(entries) + t);
      FieldsRead(entries, t);
  }

  lemma {:induction false} ItemsRead(items: seq<Value>, t: Text)
    requires forall i :: 0 <= i < |items| ==> CanonicalValue(items[i])
    ensures ReadItems(|items|, ItemBytes(items) + t) == Some((items, t))
    decreases items
  {
    hide CanonicalValue, ValueBytes, ReadValue;
    if items == [] {
      assert [] + t == t;
    } else {
      Regroup(ValueBytes(items[0]), ItemBytes(items[1..]), t);
      ValueRead(items[0], ItemBytes(items[1..]) + t);
      ItemsRead(items[1..], t);
      assert items == [items[0]] + items[1..];
    }
  }

  lemma {:induction false} FieldsRead(fields: seq<Field>, t: Text)
    requires FieldsCanonical(fields)
    ensures ReadFields(|fields|, FieldBytes(fields) + t) == Some((fields, t))
    decreases fields
  {
    hide CanonicalValue, ValueBytes, TextBytes, ReadValue, ReadText;
    if fields == [] {
      assert [] + t == t;
    } else {
      var value, rest := ValueBytes(fields[0].value), FieldBytes(fields[1..]);
      Regroup(TextBytes(fields[0].name), value + rest, t);
      TextRead(fields[0].name, (value + rest) + t);
      Regroup(value, rest, t);
      ValueRead(fields[0].value, rest + t);
      FieldsRead(fields[1..], t);
      assert fields == [fields[0]] + fields[1..];
    }
  }

  // ----- Preimages -----

  function ReadTexts(k: nat, s: Text): (r: Option<(seq<Text>, Text)>)
    ensures r.Some? ==> |r.value.0| == k
  {
    if k == 0 then Some(([], s))
    else
      var first := ReadText(s);
      if first.None? then None
      else
        var rest := ReadTexts(k - 1, first.value.1);
        if rest.None? then None else Some(([first.value.0] + rest.value.0, rest.value.1))
  }

  lemma {:induction false} TextsRead(ts: seq<Text>, t: Text)
    requires forall i :: 0 <= i < |ts| ==> |ts[i]| < TWO_64
    ensures ReadTexts(|ts|, CauseBytes(ts) + t) == Some((ts, t))
  {
    hide TextBytes, ReadText;
    if ts == [] {
      assert [] + t == t;
    } else {
      Regroup(TextBytes(ts[0]), CauseBytes(ts[1..]), t);
      TextRead(ts[0], CauseBytes(ts[1..]) + t);
      TextsRead(ts[1..], t);
      assert ts == [ts[0]] + ts[1..];
    }
  }

  function ReadTimings(k: nat, s: Text): Option<(seq<EventTiming>, Text)> {
    if k == 0 then Some(([], s))
    else
      var clock := ReadText(s);
      if clock.None? then None
      else
        var start := ReadNumber(clock.value.1);
        if start.None? then None
        else
          var finish := ReadNumber(start.value.1);
          if finish.None? then None
          else
            var rest := ReadTimings(k - 1, finish.value.1);
            if rest.None? then None
            else Some(([EventTiming(clock.value.0, start.value.0, finish.value.0)] + rest.value.0, rest.value.1))
  }

  lemma {:induction false} TimingsRead(ts: seq<EventTiming>, t: Text)
    requires forall i :: 0 <= i < |ts| ==> |ts[i].clock| < TWO_64 && ts[i].start < TWO_64 && ts[i].finish < TWO_64
    ensures ReadTimings(|ts|, TimingBytes(ts) + t) == Some((ts, t))
  {
    hide TextBytes, Uint64, ReadText, ReadNumber;
    if ts == [] {
      assert [] + t == t;
    } else {
      var rest := TimingBytes(ts[1..]) + t;
      TimingGroups(ts[0], TimingBytes(ts[1..]), t);
      TextRead(ts[0].clock, Uint64(ts[0].start) + (Uint64(ts[0].finish) + rest));
      NumberRead(ts[0].start, Uint64(ts[0].finish) + rest);
      NumberRead(ts[0].finish, rest);
      TimingsRead(ts[1..], t);
      assert ts == [ts[0]] + ts[1..];
    }
  }

  /** Five names, then the counted causes. */
  function ReadFrame(s: Text): (r: Option<(seq<Text>, seq<Text>, Text)>)
    ensures r.Some? ==> |r.value.0| == 5
  {
    var names := ReadTexts(5, s);
    if names.None? then None
    else
      var count := ReadNumber(names.value.1);
      if count.None? then None
      else
        var causes := ReadTexts(count.value.0, count.value.1);
        if causes.None? then None else Some((names.value.0, causes.value.0, causes.value.1))
  }

  lemma FirstText(x: Text, xs: seq<Text>, rest: Text)
    ensures CauseBytes([x] + xs) + rest == TextBytes(x) + (CauseBytes(xs) + rest)
  {
    hide TextBytes;
    assert ([x] + xs)[1..] == xs;
    Regroup(TextBytes(x), CauseBytes(xs), rest);
  }

  lemma FiveTexts(a: Text, b: Text, c: Text, d: Text, e: Text, rest: Text)
    ensures CauseBytes([a, b, c, d, e]) + rest ==
            TextBytes(a) + (TextBytes(b) + (TextBytes(c) + (TextBytes(d) + (TextBytes(e) + rest))))
  {
    hide TextBytes, CauseBytes;
    FirstText(a, [b, c, d, e], rest);
    FirstText(b, [c, d, e], rest);
    FirstText(c, [d, e], rest);
    FirstText(d, [e], rest);
    FirstText(e, [], rest);
    assert CauseBytes([]) + rest == rest by { NoTexts(rest); }
    assert [a] + [b, c, d, e] == [a, b, c, d, e] && [b] + [c, d, e] == [b, c, d, e] && [c] + [d, e] == [c, d, e] && [d] + [e] == [d, e];
    assert [e] + [] == [e];
  }

  lemma NoTexts(rest: Text)
    ensures CauseBytes([]) + rest == rest
  {}

  lemma FrameRead(a: Text, b: Text, c: Text, d: Text, e: Text, causes: seq<Text>, rest: Text)
    requires Names(a, b, c, d, e, causes)
    ensures ReadFrame(Framed(a, b, c, d, e, causes, rest)) == Some(([a, b, c, d, e], SortedKeys(Members(causes)), rest))
  {
    hide TextBytes, Uint64, CauseBytes, SortedKeys, ReadTexts, ReadNumber;
    var sorted := SortedKeys(Members(causes));
    assert forall i :: 0 <= i < |sorted| ==> sorted[i] in Members(sorted);
    FiveTexts(a, b, c, d, e, Uint64(|sorted|) + (CauseBytes(sorted) + rest));
    TextsRead([a, b, c, d, e], Uint64(|sorted|) + (CauseBytes(sorted) + rest));
    NumberRead(|sorted|, CauseBytes(sorted) + rest);
    TextsRead(sorted, rest);
  }

  /** An untimed event is marked v1, a timed one v2 with its intervals before its parameters. */
  function ReadEvent(s: Text): Option<(Provenance, Value)> {
    if |s| < 17 || (s[..17] != Ascii("gorapide:event:v1") && s[..17] != Ascii("gorapide:event:v2")) then None
    else
      var frame := ReadFrame(s[17..]);
      if frame.None? then None
      else
        var (names, causes, body) := frame.value;
        if s[..17] == Ascii("gorapide:event:v1") then
          var params := ReadValue(body);
          if params.None? || params.value.1 != [] then None
          else Some((Provenance(names[0], names[1], names[2], names[3], names[4], causes, []), params.value.0))
        else
          var count := ReadNumber(body);
          if count.None? then None
          else
            var timings := ReadTimings(count.value.0, count.value.1);
            if timings.None? then None
            else
              var params := ReadValue(timings.value.1);
              if params.None? || params.value.1 != [] then None
              else Some((Provenance(names[0], names[1], names[2], names[3], names[4], causes, timings.value.0), params.value.0))
  }

  lemma WholeValue(v: Value)
    requires CanonicalValue(v)
    ensures ReadValue(ValueBytes(v)) == Some((v, []))
  {
    hide CanonicalValue, ValueBytes, ReadValue;
    ValueRead(v, []);
    assert ValueBytes(v) + [] == ValueBytes(v);
  }

  /** The preimage of an event reads, in this order, as profile, model, instance, action,
      occurrence, the set of causes, the canonical intervals and the parameters. */
  lemma EventRead(p: Provenance, params: Params)
    requires CanonicalParams(params) && Encodable(p)
    ensures ReadEvent(EventPreimage(p, params)) ==
            Some((p.(causes := SortedKeys(Members(p.causes)), timings := SortByClock(p.timings)), ParamsValue(params)))
  {
    hide Framed, ParamsValue, TimingBytes, Names, Ticks, ValueBytes, CanonicalValue, SortByClock, ReadFrame, ReadValue, ReadTimings,
      SortedKeys, Uint64, ReadNumber, Admissible;
    var s := EventPreimage(p, params);
    var body := ValueBytes(ParamsValue(params));
    var ts := SortByClock(p.timings);
    var rest := if p.timings == [] then body else Uint64(|ts|) + (TimingBytes(ts) + body);
    HeadersDiffer();
    assert s[..17] == (if p.timings == [] then EVENT_V1 else EVENT_V2);
    assert s[17..] == Framed(p.profile, p.model, p.instance, p.action, p.occurrence, p.causes, rest);
    FrameRead(p.profile, p.model, p.instance, p.action, p.occurrence, p.causes, rest);
    WholeValue(ParamsValue(params));
    if p.timings == [] {
      NoTimings();
    } else {
      TimedBodyRead(ts, body);
    }
  }

  lemma NoTimings()
    ensures SortByClock([]) == []
  {}

  lemma TimedBodyRead(ts: seq<EventTiming>, body: Text)
    requires Ticks(ts)
    ensures ReadNumber(Uint64(|ts|) + (TimingBytes(ts) + body)) == Some((|ts|, TimingBytes(ts) + body))
    ensures ReadTimings(|ts|, TimingBytes(ts) + body) == Some((ts, body))
  {
    hide Uint64, TimingBytes, ReadNumber, ReadTimings;
    NumberRead(|ts|, TimingBytes(ts) + body);
    TimingsRead(ts, body);
  }

  function ReadModule(s: Text): Option<Allocation> {
    var header := Ascii("gorapide:rapide-module-allocation:v1");
    if |s| < |header| || s[..|header|] != header then None
    else
      var frame := ReadFrame(s[|header|..]);
      if frame.None? || frame.value.2 != [] then None
      else
        var names := frame.value.0;
        Some(Allocation(names[0], names[1], names[2], names[3], names[4], frame.value.1))
  }

  /** The preimage of a module reads as profile, model, parent, generator, occurrence and the
      set of causes. */
  lemma ModuleRead(a: Allocation)
    requires Names(a.profile, a.model, a.parent, a.generator, a.occurrence, a.causes)
    ensures ReadModule(ModulePreimage(a)) == Some(a.(causes := SortedKeys(Members(a.causes))))
  {
    hide Framed, Names, ReadFrame, SortedKeys;
    var s := ModulePreimage(a);
    HeadersDiffer();
    assert s[..|MODULE_V1|] == MODULE_V1;
    assert s[|MODULE_V1|..] == Framed(a.profile, a.model, a.parent, a.generator, a.occurrence, a.causes, []);
    FrameRead(a.profile, a.model, a.parent, a.generator, a.occurrence, a.causes, []);
  }
}
