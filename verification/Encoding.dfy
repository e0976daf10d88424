/** The unambiguous byte encoding behind content-derived identities (deterministic_event.go,
    module_value.go).  Identities themselves are digests of the preimages built here. */
module Encoding {
  import opened Texts
  import opened Timings
  import opened Values

  // ----- Fixed-width integers -----

  const TWO_64: nat := 0x1_0000_0000_0000_0000
  const TWO_63: nat := 0x8000_0000_0000_0000

  function Power(k: nat): nat {
    if k == 0 then 1 else 256 * Power(k - 1)
  }

  /** The low k bytes of n, most significant first. */
  function BigEndian(n: nat, k: nat): (bytes: Text)
    ensures |bytes| == k
  {
    if k == 0 then [] else BigEndian(n / 256, k - 1) + [(n % 256) as byte]
  }

  lemma {:induction false} BigEndianInjective(m: nat, n: nat, k: nat)
    requires m < Power(k) && n < Power(k) && BigEndian(m, k) == BigEndian(n, k)
    ensures m == n
  {
    if k > 0 {
      var a, b := BigEndian(m / 256, k - 1), BigEndian(n / 256, k - 1);
      assert a == BigEndian(m, k)[..k - 1] && b == BigEndian(n, k)[..k - 1];
      assert BigEndian(m, k)[k - 1] == BigEndian(n, k)[k - 1];
      BigEndianInjective(m / 256, n / 256, k - 1);
    }
  }

  /** writeCanonicalUint64. */
  function Uint64(n: nat): (bytes: Text)
    ensures |bytes| == 8
  {
    BigEndian(n, 8)
  }

  lemma Uint64Injective(m: nat, n: nat)
    requires m < TWO_64 && n < TWO_64 && Uint64(m) == Uint64(n)
    ensures m == n
  {
    assert Power(8) == TWO_64 by {
      assert Power(4) == 0x1_0000_0000;
    }
    BigEndianInjective(m, n, 8);
  }

  predicate Int64(i: int) {
    i + TWO_63 >= 0 && i < TWO_63
  }

  /** A signed 64-bit integer reinterpreted as unsigned. */
  function Wrapped(i: int): nat
    requires Int64(i)
  {
    if i < 0 then i + TWO_64 else i
  }

  /** writeCanonicalString: the length, then the bytes. */
  function TextBytes(t: Text): Text {
    Uint64(|t|) + t
  }

  // ----- Prefix-freeness of the pieces -----

  lemma SplitAt(a: Text, b: Text, s: Text, t: Text)
    requires |a| == |b| && a + s == b + t
    ensures a == b && s == t
  {
    assert a == (a + s)[..|a|] && b == (b + t)[..|b|];
    assert s == (a + s)[|a|..] && t == (b + t)[|b|..];
  }

  lemma Uint64Prefix(m: nat, n: nat, s: Text, t: Text)
    requires m < TWO_64 && n < TWO_64 && Uint64(m) + s == Uint64(n) + t
    ensures m == n && s == t
  {
    SplitAt(Uint64(m), Uint64(n), s, t);
    Uint64Injective(m, n);
  }

  lemma TextBytesSplit(a: Text, s: Text)
    requires |a| < TWO_64
    ensures TextBytes(a) + s == Uint64(|a|) + (a + s)
  {
    hide Uint64;
  }

  lemma TextPrefix(a: Text, b: Text, s: Text, t: Text)
    requires |a| < TWO_64 && |b| < TWO_64 && TextBytes(a) + s == TextBytes(b) + t
    ensures a == b && s == t
  {
    hide Uint64, BigEndian;
    TextBytesSplit(a, s);
    TextBytesSplit(b, t);
    Uint64Prefix(|a|, |b|, a + s, b + t);
    SplitAt(a, b, s, t);
  }

  lemma TagPrefix(a: byte, b: byte, s: Text, t: Text)
    requires [a] + s == [b] + t
    ensures a == b && s == t
  {
    SplitAt([a], [b], s, t);
  }

  // ----- Values -----

  /** Finite, and zero only as positive zero. */
  predicate CanonicalFloat(bits: nat) {
    bits < TWO_64 && bits != TWO_63 && (bits / 0x10_0000_0000_0000) % 0x800 != 0x7FF
  }

  const TWO_52: nat := 0x10_0000_0000_0000

  /** By sign, exponent and mantissa: the exponent is not the one of infinities and NaNs, and
      zero is not negative. */
  lemma CanonicalFloatIff(sign: nat, exponent: nat, mantissa: nat)
    requires sign < 2 && exponent < 0x800 && mantissa < TWO_52
    ensures CanonicalFloat(sign * TWO_63 + exponent * TWO_52 + mantissa) <==>
            exponent != 0x7FF && !(sign == 1 && exponent == 0 && mantissa == 0)
  {
    var bits := sign * TWO_63 + exponent * TWO_52 + mantissa;
    assert bits == (sign * 0x800 + exponent) * TWO_52 + mantissa;
    assert bits / TWO_52 == sign * 0x800 + exponent;
  }

  /** What canonicalisation leaves: 64-bit numbers, canonical floats, representable lengths. */
  ghost predicate CanonicalValue(v: Value)
    decreases v
  {
    match v
    case Nil => true
    case Bool(_) => true
    case Triv => true
    case Str(t) => |t| < TWO_64
    case Character(c) => c < TWO_64
    case RapideString(cs) => |cs| < TWO_64 && forall i :: 0 <= i < |cs| ==> cs[i] < TWO_64
    case Module(identity) => |identity| < TWO_64
    case Record(owner, fields) =>
      |owner| < TWO_64 && |fields| < TWO_64 &&
      forall i :: 0 <= i < |fields| ==> |fields[i].name| < TWO_64 && CanonicalValue(fields[i].value)
    case Int(i) => Int64(i)
    case Unsigned(n) => n < TWO_64
    case Float(bits) => CanonicalFloat(bits)
    case Bytes(bytes) => |bytes| < TWO_64
    case List(items) => |items| < TWO_64 && forall i :: 0 <= i < |items| ==> CanonicalValue(items[i])
    case Map(entries) =>
      && |entries| < TWO_64 && (forall i, j :: 0 <= i < j < |entries| ==> Less(entries[i].name, entries[j].name))
      && forall i :: 0 <= i < |entries| ==> |entries[i].name| < TWO_64 && CanonicalValue(entries[i].value)
  }

  function Tag(v: Value): byte {
    match v
    case Nil => 48
    case Bool(_) => 98
    case Triv => 116
    case Str(_) => 115
    case Character(_) => 99
    case RapideString(_) => 83
    case Module(_) => 111
    case Record(_, _) => 114
    case Int(_) => 105
    case Unsigned(_) => 117
    case Float(_) => 102
    case Bytes(_) => 120
    case List(_) => 108
    case Map(_) => 109
  }

  function CodeBytes(cs: seq<nat>): Text {
    if cs == [] then [] else Uint64(cs[0]) + CodeBytes(cs[1..])
  }

  /** writeCanonicalValue. */
  ghost function ValueBytes(v: Value): Text
    requires CanonicalValue(v)
    decreases v, 1
  {
    [Tag(v)] + BodyBytes(v)
  }

  ghost function BodyBytes(v: Value): Text
    requires CanonicalValue(v)
    decreases v, 0
  {
    match v
    case Nil => []
    case Bool(b) => [if b then 1 else 0]
    case Triv => []
    case Str(t) => TextBytes(t)
    case Character(c) => Uint64(c)
    case RapideString(cs) => Uint64(|cs|) + CodeBytes(cs)
    case Module(identity) => TextBytes(identity)
    case Record(owner, fields) => TextBytes(owner) + (Uint64(|fields|) + FieldBytes(fields))
    case Int(i) => Uint64(Wrapped(i))
    case Unsigned(n) => Uint64(n)
    case Float(bits) => Uint64(bits)
    case Bytes(bytes) => TextBytes(bytes)
    case List(items) => Uint64(|items|) + ItemBytes(items)
    case Map(entries) => Uint64(|entries|) + FieldBytes(entries)
  }

  ghost function ItemBytes(items: seq<Value>): Text
    requires forall i :: 0 <= i < |items| ==> CanonicalValue(items[i])
    decreases items
  {
    if items == [] then [] else ValueBytes(items[0]) + ItemBytes(items[1..])
  }

  ghost function FieldBytes(fields: seq<Field>): Text
    requires forall i :: 0 <= i < |fields| ==> CanonicalValue(fields[i].value)
    decreases fields
  {
    if fields == [] then []
    else TextBytes(fields[0].name) + (ValueBytes(fields[0].value) + FieldBytes(fields[1..]))
  }

  // ----- Prefix-freeness of values -----

  lemma {:induction false} CodesPrefix(a: seq<nat>, b: seq<nat>, s: Text, t: Text)
    requires |a| == |b| && CodeBytes(a) + s == CodeBytes(b) + t
    requires forall i :: 0 <= i < |a| ==> a[i] < TWO_64 && b[i] < TWO_64
    ensures a == b && s == t
  {
    if a != [] {
      var ra, rb := CodeBytes(a[1..]), CodeBytes(b[1..]);
      assert CodeBytes(a) + s == Uint64(a[0]) + (ra + s) && CodeBytes(b) + t == Uint64(b[0]) + (rb + t);
      Uint64Prefix(a[0], b[0], ra + s, rb + t);
      CodesPrefix(a[1..], b[1..], s, t);
      assert a == [a[0]] + a[1..] && b == [b[0]] + b[1..];
    } else {
      assert [] + s == s && [] + t == t;
    }
  }

  /** No encoding is a proper prefix of another, and equal encodings mean equal values. */
  lemma {:induction false} ValuePrefix(v: Value, w: Value, s: Text, t: Text)
    requires CanonicalValue(v) && CanonicalValue(w) && ValueBytes(v) + s == ValueBytes(w) + t
    ensures v == w && s == t
    decreases v, 1
  {
    hide CanonicalValue, BodyBytes;
    assert ValueBytes(v) + s == [Tag(v)] + (BodyBytes(v) + s) && ValueBytes(w) + t == [Tag(w)] + (BodyBytes(w) + t);
    TagPrefix(Tag(v), Tag(w), BodyBytes(v) + s, BodyBytes(w) + t);
    BodyPrefix(v, w, s, t);
  }

  lemma {:induction false} BodyPrefix(v: Value, w: Value, s: Text, t: Text)
    requires CanonicalValue(v) && CanonicalValue(w) && Tag(v) == Tag(w) && BodyBytes(v) + s == BodyBytes(w) + t
    ensures v == w && s == t
    decreases v, 0
  {
    hide Uint64, TextBytes, FieldBytes, ItemBytes, CodeBytes;
    match v
    case Nil => assert [] + s == s && [] + t == t;
    case Triv => assert [] + s == s && [] + t == t;
    case Bool(b) => TagPrefix(if b then 1 else 0, if w.flag then 1 else 0, s, t);
    case Str(x) => TextPrefix(x, w.text, s, t);
    case Character(c) => Uint64Prefix(c, w.code, s, t);
    case RapideString(cs) =>
      Regroup(Uint64(|cs|), CodeBytes(cs), s);
      Regroup(Uint64(|w.codes|), CodeBytes(w.codes), t);
      Uint64Prefix(|cs|, |w.codes|, CodeBytes(cs) + s, CodeBytes(w.codes) + t);
      CodesPrefix(cs, w.codes, s, t);
    case Module(identity) => TextPrefix(identity, w.identity, s, t);
    case Record(owner, fields) =>
      var a, b := Uint64(|fields|) + FieldBytes(fields), Uint64(|w.fields|) + FieldBytes(w.fields);
      Regroup(TextBytes(owner), a, s);
      Regroup(TextBytes(w.owner), b, t);
      TextPrefix(owner, w.owner, a + s, b + t);
      Regroup(Uint64(|fields|), FieldBytes(fields), s);
      Regroup(Uint64(|w.fields|), FieldBytes(w.fields), t);
      Uint64Prefix(|fields|, |w.fields|, FieldBytes(fields) + s, FieldBytes(w.fields) + t);
      FieldsPrefix(fields, w.fields, s, t);
    case Int(i) =>
      Uint64Prefix(Wrapped(i), Wrapped(w.integer), s, t);
    case Unsigned(n) => Uint64Prefix(n, w.natural, s, t);
    case Float(bits) => Uint64Prefix(bits, w.bits, s, t);
    case Bytes(bytes) => TextPrefix(bytes, w.bytes, s, t);
    case List(items) =>
      Regroup(Uint64(|items|), ItemBytes(items), s);
      Regroup(Uint64(|w.items|), ItemBytes(w.items), t);
      Uint64Prefix(|items|, |w.items|, ItemBytes(items) + s, ItemBytes(w.items) + t);
      ItemsPrefix(items, w.items, s, t);
    case Map(entries) =>
      Regroup(Uint64(|entries|), FieldBytes(entries), s);
      Regroup(Uint64(|w.entries|), FieldBytes(w.entries), t);
      Uint64Prefix(|entries|, |w.entries|, FieldBytes(entries) + s, FieldBytes(w.entries) + t);
      FieldsPrefix(entries, w.entries, s, t);
  }

  lemma Regroup(a: Text, b: Text, c: Text)
    ensures (a + b) + c == a + (b + c)
  {}

  lemma {:induction false} ItemsPrefix(a: seq<Value>, b: seq<Value>, s: Text, t: Text)
    requires |a| == |b| && (forall i :: 0 <= i < |a| ==> CanonicalValue(a[i]) && CanonicalValue(b[i]))
    requires ItemBytes(a) + s == ItemBytes(b) + t
    ensures a == b && s == t
    decreases a
  {
    hide CanonicalValue, ValueBytes;
    if a != [] {
      var ra, rb := ItemBytes(a[1..]), ItemBytes(b[1..]);
      Regroup(ValueBytes(a[0]), ra, s);
      Regroup(ValueBytes(b[0]), rb, t);
      ValuePrefix(a[0], b[0], ra + s, rb + t);
      ItemsPrefix(a[1..], b[1..], s, t);
      assert a == [a[0]] + a[1..] && b == [b[0]] + b[1..];
    } else {
      assert [] + s == s && [] + t == t;
    }
  }

  lemma {:induction false} FieldsPrefix(a: seq<Field>, b: seq<Field>, s: Text, t: Text)
    requires |a| == |b| && FieldsCanonical(a) && FieldsCanonical(b)
    requires FieldBytes(a) + s == FieldBytes(b) + t
    ensures a == b && s == t
    decreases a
  {
    hide CanonicalValue, ValueBytes, TextBytes;
    if a != [] {
      var ra, rb := FieldBytes(a[1..]), FieldBytes(b[1..]);
      var va, vb := ValueBytes(a[0].value), ValueBytes(b[0].value);
      Regroup(TextBytes(a[0].name), va + ra, s);
      Regroup(TextBytes(b[0].name), vb + rb, t);
      TextPrefix(a[0].name, b[0].name, (va + ra) + s, (vb + rb) + t);
      Regroup(va, ra, s);
      Regroup(vb, rb, t);
      ValuePrefix(a[0].value, b[0].value, ra + s, rb + t);
      FieldsPrefix(a[1..], b[1..], s, t);
      assert a == [a[0]] + a[1..] && b == [b[0]] + b[1..];
    } else {
      assert [] + s == s && [] + t == t;
    }
  }

  ghost predicate FieldsCanonical(fields: seq<Field>) {
    forall i :: 0 <= i < |fields| ==> |fields[i].name| < TWO_64 && CanonicalValue(fields[i].value)
  }

  // ----- The writers -----

  /** A buffer the writers append to. */
  class Buffer {
    var bytes: Text

    constructor ()
      ensures bytes == []
    {
      bytes := [];
    }

    method WriteByte(b: byte)
      modifies this
      ensures bytes == old(bytes) + [b]
    {
      bytes := bytes + [b];
    }

    /** Eight bytes, most significant first. */
    method WriteUint64(n: nat)
      requires n < TWO_64
      modifies this
      ensures bytes == old(bytes) + Uint64(n)
    {
      bytes := bytes + Uint64(n);
    }

    method WriteString(t: Text)
      requires |t| < TWO_64
      modifies this
      ensures bytes == old(bytes) + TextBytes(t)
    {
      WriteUint64(|t|);
      bytes := bytes + t;
      Regroup(old(bytes), Uint64(|t|), t);
    }

    method WriteCodes(codes: seq<nat>)
      requires forall i :: 0 <= i < |codes| ==> codes[i] < TWO_64
      modifies this
      ensures bytes == old(bytes) + CodeBytes(codes)
    {
      hide Uint64;
      assert codes[0..] == codes;
      for i := 0 to |codes|
        invariant bytes + CodeBytes(codes[i..]) == old(bytes) + CodeBytes(codes)
      {
        assert codes[i..][1..] == codes[i + 1..] && codes[i..][0] == codes[i];
        Regroup(bytes, Uint64(codes[i]), CodeBytes(codes[i + 1..]));
        WriteUint64(codes[i]);
      }
      assert codes[|codes|..] == [] && bytes + [] == bytes;
    }

    method WriteItems(items: seq<Value>)
      requires forall i :: 0 <= i < |items| ==> CanonicalValue(items[i])
      modifies this
      ensures bytes == old(bytes) + ItemBytes(items)
      decreases items
    {
      hide ValueBytes, CanonicalValue;
      if |items| == 0 {
        assert bytes + [] == bytes;
        return;
      }
      WriteValue(items[0]);
      Regroup(old(bytes), ValueBytes(items[0]), ItemBytes(items[1..]));
      WriteItems(items[1..]);
    }

    method WriteFields(fields: seq<Field>)
      requires FieldsCanonical(fields)
      modifies this
      ensures bytes == old(bytes) + FieldBytes(fields)
      decreases fields
    {
      hide ValueBytes, CanonicalValue, TextBytes;
      if |fields| == 0 {
        assert bytes + [] == bytes;
        return;
      }
      var name, value, rest := TextBytes(fields[0].name), fields[0].value, fields[1..];
      WriteString(fields[0].name);
      WriteValue(value);
      Regroup(old(bytes) + name, ValueBytes(value), FieldBytes(rest));
      Regroup(old(bytes), name, ValueBytes(value) + FieldBytes(rest));
      WriteFields(rest);
    }

    /** writeCanonicalValue on canonical values appends exactly the value's encoding. */
    method WriteValue(v: Value)
      requires CanonicalValue(v)
      modifies this
      ensures bytes == old(bytes) + ValueBytes(v)
      decreases v
    {
      hide Uint64, TextBytes, CodeBytes, ItemBytes, FieldBytes;
      WriteByte(Tag(v));
      Regroup(old(bytes), [Tag(v)], BodyBytes(v));
      ghost var tagged := bytes;
      match v
      case Nil => assert bytes + [] == bytes;
      case Triv => assert bytes + [] == bytes;
      case Bool(b) => WriteByte(if b then 1 else 0);
      case Str(t) => WriteString(t);
      case Character(c) => WriteUint64(c);
      case RapideString(cs) =>
        WriteUint64(|cs|);
        WriteCodes(cs);
        Regroup(tagged, Uint64(|cs|), CodeBytes(cs));
      case Module(identity) => WriteString(identity);
      case Record(owner, fields) =>
        WriteString(owner);
        WriteUint64(|fields|);
        WriteFields(fields);
        Regroup(tagged + TextBytes(owner), Uint64(|fields|), FieldBytes(fields));
        Regroup(tagged, TextBytes(owner), Uint64(|fields|) + FieldBytes(fields));
      case Int(i) => WriteUint64(Wrapped(i));
      case Unsigned(n) => WriteUint64(n);
      case Float(bits) => WriteUint64(bits);
      case Bytes(b) => WriteString(b);
      case List(items) =>
        WriteUint64(|items|);
        WriteItems(items);
        Regroup(tagged, Uint64(|items|), ItemBytes(items));
      case Map(entries) =>
        WriteUint64(|entries|);
        WriteFields(entries);
        Regroup(tagged, Uint64(|entries|), FieldBytes(entries));
    }
  }
}
