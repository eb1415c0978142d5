/** Written values are self-delimiting and read back as their wire normal form. */
module TarsRoundTrip {
  import opened ByteStrings
  import opened TarsTypes
  import opened TarsWire
  import opened TarsReader

  /** An integer comes back in its narrowest type, and a one-byte integer comes back unsigned. */
  function NormInt(n: I64): Value
  {
    if n == 0 then Byte(0)
    else if -0x80 <= n < 0 then Byte(n + 256)
    else if 0 < n < 0x80 then Byte(n)
    else if -0x8000 <= n < 0x8000 then Short(n)
    else if -0x8000_0000 <= n < 0x8000_0000 then Int(n)
    else Long(n)
  }

  function NormString(s: Bytes, zeroCopy: bool): Value
  {
    if zeroCopy then StrRef(s) else Str(s)
  }

  /**
   * The normal form: what a written value is read back as. A map is rebuilt by inserting the normal
   * forms of its entries one after the other.
   */
  function Norm(v: Value, zeroCopy: bool): Value
    decreases v
  {
    match v
    case Bool(b) => Byte(if b then 1 else 0)
    case Byte(u) => Byte(u)
    case Short(n) => NormInt(n)
    case Int(n) => NormInt(n)
    case Long(n) => NormInt(n)
    case Float(n) => v
    case Double(n) => v
    case Str(s) => NormString(s, zeroCopy)
    case StrRef(s) => NormString(s, zeroCopy)
    case Struct(f) => Struct(map t | t in f.Keys :: Norm(f[t], zeroCopy))
    case Map(es) => Map(InsertAll([], NormEntries(es, zeroCopy)))
    case List(xs) => List(NormItems(xs, zeroCopy))
    case SimpleList(b) => v
    case Binary(b) => SimpleList(b)
    case StructBegin => v
    case StructEnd => v
  }

  function NormItems(xs: seq<Value>, zeroCopy: bool): (ys: seq<Value>)
    ensures |ys| == |xs|
    decreases xs
  {
    if xs == [] then [] else [Norm(xs[0], zeroCopy)] + NormItems(xs[1..], zeroCopy)
  }

  function NormEntries(es: seq<Entry>, zeroCopy: bool): (fs: seq<Entry>)
    ensures |fs| == |es|
    decreases es
  {
    if es == [] then [] else [NormEntry(es[0], zeroCopy)] + NormEntries(es[1..], zeroCopy)
  }

  function NormEntry(e: Entry, zeroCopy: bool): Entry
    decreases e
  {
    Entry(Norm(e.key, zeroCopy), Norm(e.value, zeroCopy))
  }

  /** Strings are UTF-8, lengths fit their fields, and no bare struct marker can end a struct early. */
  predicate WellFormed(v: Value)
    decreases v, 0
  {
    match v
    case Str(s) => ValidUtf8(s) && |s| < 0x1_0000_0000
    case StrRef(s) => ValidUtf8(s) && |s| < 0x1_0000_0000
    case Struct(f) => forall t | t in f.Keys :: WellFormedField(f[t])
    case Map(es) =>
      |es| < 0x8000_0000 && forall i | 0 <= i < |es| :: WellFormed(es[i].key) && WellFormed(es[i].value)
    case List(xs) => |xs| < 0x8000_0000 && forall i | 0 <= i < |xs| :: WellFormed(xs[i])
    case SimpleList(b) => |b| < 0x8000_0000
    case Binary(b) => |b| < 0x8000_0000
    case StructBegin => false
    case _ => true
  }

  predicate WellFormedField(v: Value)
    decreases v, 1
  {
    WellFormed(v) && !v.StructEnd?
  }

  lemma HeadRoundTrip(tag: U8, t: TarsType, r: Bytes)
    ensures ReadHead(Head(tag, t) + r) == Done((tag, t), r)
  {
    var bs := Head(tag, t) + r;
    assert bs[|Head(tag, t)|..] == r;
    if tag < 15 {
      assert bs[0] == 16 * tag + TypeId(t);
    } else {
      assert bs[0] == 16 * 15 + TypeId(t) && bs[1] == tag;
    }
  }

  lemma TakeRoundTrip(b: Bytes, r: Bytes)
    ensures Take(|b|, b + r) == Done(b, r)
  {
    assert (b + r)[..|b|] == b && (b + r)[|b|..] == r;
  }

  lemma UnsignedRoundTrip(n: nat, k: nat, r: Bytes)
    requires n < Pow256(k)
    ensures TakeUnsigned(k, BigEndian(n, k) + r) == Done(n, r)
  {
    TakeRoundTrip(BigEndian(n, k), r);
    BigEndianRoundTrip(n, k);
  }

  lemma IntRoundTrip(n: I64, r: Bytes, zeroCopy: bool)
    ensures ReadByType(IntType(n), IntPayload(n) + r, zeroCopy) == Done(NormInt(n), r)
  {
    Pow256Values();
    if n == 0 {
      assert IntPayload(n) + r == r;
    } else {
      UnsignedRoundTrip(ToUnsigned(n, IntWidth(n)), IntWidth(n), r);
    }
  }

  lemma LengthRoundTrip(n: nat, r: Bytes, zeroCopy: bool)
    requires n < 0x8000_0000
    ensures ReadLength(WriteInt(0, CastI32(n)) + r, zeroCopy) == Done(n, r)
  {
    assert WriteInt(0, n) + r == Head(0, IntType(n)) + (IntPayload(n) + r);
    HeadRoundTrip(0, IntType(n), IntPayload(n) + r);
    IntRoundTrip(n, r, zeroCopy);
  }

  lemma StringRoundTrip(s: Bytes, r: Bytes, zeroCopy: bool)
    requires ValidUtf8(s) && |s| < 0x1_0000_0000
    ensures ReadByType(if |s| <= 255 then String1 else String4, StringPayload(s) + r, zeroCopy)
         == Done(NormString(s, zeroCopy), r)
  {
    Pow256Values();
    var k := if |s| <= 255 then 1 else 4;
    assert StringPayload(s) == BigEndian(|s|, k) + s;
    hide StringPayload, BigEndian;
    Regroup(BigEndian(|s|, k), s, r);
    UnsignedRoundTrip(|s|, k, s + r);
    TakeRoundTrip(s, r);
  }

  lemma BlobRoundTrip(b: Bytes, r: Bytes, zeroCopy: bool)
    requires |b| < 0x8000_0000
    ensures ReadSimpleList(BlobPayload(b) + r, zeroCopy) == Done(SimpleList(b), r)
  {
    var len := WriteInt(0, CastI32(|b|));
    assert BlobPayload(b) + r == Head(0, Int1) + (len + (b + r));
    HeadRoundTrip(0, Int1, len + (b + r));
    LengthRoundTrip(|b|, b + r, zeroCopy);
    TakeRoundTrip(b, r);
  }

  /**
   * Main result: for every tag, every well-formed value, in whatever order its maps iterate, and every
   * trailing byte string, reading the written value returns its normal form and leaves exactly the rest.
   */
  lemma {:induction false} ValueRoundTrip(tag: U8, v: Value, r: Bytes, zeroCopy: bool)
    requires WellFormed(v)
    ensures ReadValue(Write(tag, v) + r, zeroCopy) == Done((tag, Norm(v, zeroCopy)), r)
    decreases v, 2
  {
    assert Write(tag, v) + r == Head(tag, WireType(v)) + (Payload(v) + r);
    HeadRoundTrip(tag, WireType(v), Payload(v) + r);
    PayloadRoundTrip(v, r, zeroCopy);
  }

  lemma {:induction false} PayloadRoundTrip(v: Value, r: Bytes, zeroCopy: bool)
    requires WellFormed(v)
    ensures ReadByType(WireType(v), Payload(v) + r, zeroCopy) == Done(Norm(v, zeroCopy), r)
    decreases v, 1
  {
    hide Payload, Norm, WellFormed;
    match v {
      case Struct(f) => StructRoundTrip(f, v, r, zeroCopy);
      case Map(es) => MapRoundTrip(es, v, r, zeroCopy);
      case List(xs) => ListRoundTrip(xs, v, r, zeroCopy);
      case _ => LeafRoundTrip(v, r, zeroCopy);
    }
  }

  /** A byte is written as a signed one-byte integer and read as an unsigned one, so it survives. */
  lemma ByteSurvives(u: U8)
    ensures NormInt(CastI8(u)) == Byte(u)
  {
  }

  lemma FloatRoundTrip(v: Value, r: Bytes, zeroCopy: bool)
    requires WellFormed(v) && (v.Float? || v.Double?)
    ensures ReadByType(WireType(v), Payload(v) + r, zeroCopy) == Done(Norm(v, zeroCopy), r)
  {
    Pow256Values();
    match v {
      case Float(n) => UnsignedRoundTrip(n, 4, r);
      case Double(n) => UnsignedRoundTrip(n, 8, r);
    }
  }

  lemma LeafRoundTrip(v: Value, r: Bytes, zeroCopy: bool)
    requires WellFormed(v) && !v.Struct? && !v.Map? && !v.List?
    ensures ReadByType(WireType(v), Payload(v) + r, zeroCopy) == Done(Norm(v, zeroCopy), r)
  {
    hide IntPayload, IntType, NormInt, StringPayload, BlobPayload, ReadString, ValidUtf8, ReadSimpleList;
    match v {
      case Bool(b) => if b { UnsignedOne(r); } else { assert [] + r == r; }
      case Byte(u) => ByteSurvives(u); IntRoundTrip(CastI8(u), r, zeroCopy);
      case Short(n) => IntRoundTrip(n, r, zeroCopy);
      case Int(n) => IntRoundTrip(n, r, zeroCopy);
      case Long(n) => IntRoundTrip(n, r, zeroCopy);
      case Float(_) => FloatRoundTrip(v, r, zeroCopy);
      case Double(_) => FloatRoundTrip(v, r, zeroCopy);
      case Str(s) => StringRoundTrip(s, r, zeroCopy);
      case StrRef(s) => StringRoundTrip(s, r, zeroCopy);
      case SimpleList(b) => BlobRoundTrip(b, r, zeroCopy);
      case Binary(b) => BlobRoundTrip(b, r, zeroCopy);
      case StructEnd => assert [] + r == r;
    }
  }

  lemma UnsignedOne(r: Bytes)
    ensures TakeUnsigned(1, [1] + r) == Done(1, r)
  {
    assert BigEndian(1, 1) == [1];
    UnsignedRoundTrip(1, 1, r);
  }

  lemma {:induction false} StructRoundTrip(f: map<U8, Value>, v: Value, r: Bytes, zeroCopy: bool)
    requires v == Struct(f) && WellFormed(v)
    ensures ReadStruct(Payload(v) + r, zeroCopy) == Done(Norm(v, zeroCopy), r)
    decreases v, 0, 257
  {
    assert Payload(v) == WriteFields(f, 0, v) + Head(0, EndType);
    assert map[] + NormFieldsFrom(f, 0, zeroCopy) == Norm(v, zeroCopy).fields;
    hide WriteFields, Head, ReadFields, NormFieldsFrom, Norm, Payload;
    Regroup(WriteFields(f, 0, v), Head(0, EndType), r);
    FieldsRoundTrip(f, 0, map[], r, zeroCopy, v);
  }

  lemma {:induction false} MapRoundTrip(es: seq<Entry>, v: Value, r: Bytes, zeroCopy: bool)
    requires v == Map(es) && WellFormed(v)
    ensures ReadMap(Payload(v) + r, zeroCopy) == Done(Norm(v, zeroCopy), r)
    decreases v, 0, 257
  {
    assert Payload(v) + r == WriteInt(0, CastI32(|es|)) + (WriteEntries(es) + r);
    LengthRoundTrip(|es|, WriteEntries(es) + r, zeroCopy);
    EntriesRoundTrip(es, [], r, zeroCopy);
  }

  lemma {:induction false} ListRoundTrip(xs: seq<Value>, v: Value, r: Bytes, zeroCopy: bool)
    requires v == List(xs) && WellFormed(v)
    ensures ReadList(Payload(v) + r, zeroCopy) == Done(Norm(v, zeroCopy), r)
    decreases v, 0, 257
  {
    assert Payload(v) + r == WriteInt(0, CastI32(|xs|)) + (WriteItems(xs) + r);
    LengthRoundTrip(|xs|, WriteItems(xs) + r, zeroCopy);
    ItemsRoundTrip(xs, [], r, zeroCopy);
    assert [] + NormItems(xs, zeroCopy) == NormItems(xs, zeroCopy);
  }

  function NormFieldsFrom(f: map<U8, Value>, from: nat, zeroCopy: bool): map<U8, Value>
  {
    map t | t in f.Keys && t >= from :: Norm(f[t], zeroCopy)
  }

  lemma {:induction false} FieldStep(tag: U8, v: Value, tail: Bytes, acc: map<U8, Value>, zeroCopy: bool)
    requires WellFormedField(v)
    ensures ReadFields(Write(tag, v) + tail, acc, zeroCopy) == ReadFields(tail, acc[tag := Norm(v, zeroCopy)], zeroCopy)
    decreases v, 2
  {
    assert WellFormed(v) && WireType(v) != EndType;
    hide Payload, WireType, Norm, WellFormed;
    assert Write(tag, v) + tail == Head(tag, WireType(v)) + (Payload(v) + tail);
    HeadRoundTrip(tag, WireType(v), Payload(v) + tail);
    PayloadRoundTrip(v, tail, zeroCopy);
  }

  lemma {:induction false} FieldsStep(
    f: map<U8, Value>, from: U8, acc: map<U8, Value>, end: Bytes, zeroCopy: bool, parent: Value)
    requires parent == Struct(f) && (from in f ==> f[from] < parent && WellFormedField(f[from]))
    ensures ReadFields(WriteFields(f, from, parent) + end, acc, zeroCopy)
         == ReadFields(WriteFields(f, from + 1, parent) + end, NormField(f, from, acc, zeroCopy), zeroCopy)
    decreases parent, 0, 256 - from, 0
  {
    hide ReadFields, Write, WellFormedField, Norm;
    if from in f {
      var w, ws := Write(from, f[from]), WriteFields(f, from + 1, parent);
      assert (w + ws) + end == w + (ws + end);
      FieldStep(from, f[from], ws + end, acc, zeroCopy);
    }
  }

  function NormField(f: map<U8, Value>, from: U8, acc: map<U8, Value>, zeroCopy: bool): map<U8, Value>
  {
    if from in f then acc[from := Norm(f[from], zeroCopy)] else acc
  }

  lemma NormFieldsStep(f: map<U8, Value>, from: U8, acc: map<U8, Value>, zeroCopy: bool)
    ensures acc + NormFieldsFrom(f, from, zeroCopy)
         == NormField(f, from, acc, zeroCopy) + NormFieldsFrom(f, from + 1, zeroCopy)
  {
  }

  lemma FieldsEnd(f: map<U8, Value>, acc: map<U8, Value>, r: Bytes, zeroCopy: bool, parent: Value)
    requires parent == Struct(f)
    ensures ReadFields(WriteFields(f, 256, parent) + (Head(0, EndType) + r), acc, zeroCopy)
         == Done(acc + NormFieldsFrom(f, 256, zeroCopy), r)
  {
    assert WriteFields(f, 256, parent) + (Head(0, EndType) + r) == Head(0, EndType) + r;
    HeadRoundTrip(0, EndType, r);
    assert acc + NormFieldsFrom(f, 256, zeroCopy) == acc;
  }

  lemma {:induction false} FieldsRoundTrip(
    f: map<U8, Value>, from: nat, acc: map<U8, Value>, r: Bytes, zeroCopy: bool, parent: Value)
    requires from <= 256 && parent == Struct(f)
    requires forall t | t in f.Keys :: WellFormedField(f[t])
    ensures ReadFields(WriteFields(f, from, parent) + (Head(0, EndType) + r), acc, zeroCopy)
         == Done(acc + NormFieldsFrom(f, from, zeroCopy), r)
    decreases parent, 0, 256 - from, 1
  {
    hide ReadFields, WriteFields, WellFormedField, NormFieldsFrom, NormField, Head;
    if from == 256 {
      FieldsEnd(f, acc, r, zeroCopy, parent);
    } else {
      FieldsStep(f, from, acc, Head(0, EndType) + r, zeroCopy, parent);
      NormFieldsStep(f, from, acc, zeroCopy);
      FieldsRoundTrip(f, from + 1, NormField(f, from, acc, zeroCopy), r, zeroCopy, parent);
    }
  }

  lemma {:induction false} EntriesRoundTrip(es: seq<Entry>, acc: seq<Entry>, r: Bytes, zeroCopy: bool)
    requires forall i | 0 <= i < |es| :: WellFormed(es[i].key) && WellFormed(es[i].value)
    ensures ReadEntries(|es|, WriteEntries(es) + r, acc, zeroCopy) == Done(InsertAll(acc, NormEntries(es, zeroCopy)), r)
    decreases es
  {
    if es == [] {
      assert WriteEntries(es) + r == r;
    } else {
      var tail := WriteEntries(es[1..]) + r;
      assert WriteEntries(es) + r == WriteEntry(es[0]) + tail;
      EntryRoundTrip(es[0], tail, zeroCopy);
      var e := NormEntry(es[0], zeroCopy);
      EntriesRoundTrip(es[1..], Insert(acc, e.key, e.value), r, zeroCopy);
    }
  }

  lemma {:induction false} EntryRoundTrip(e: Entry, r: Bytes, zeroCopy: bool)
    requires WellFormed(e.key) && WellFormed(e.value)
    ensures ReadValue(WriteEntry(e) + r, zeroCopy)
         == Done((0, Norm(e.key, zeroCopy)), Write(1, e.value) + r)
    ensures ReadValue(Write(1, e.value) + r, zeroCopy) == Done((1, Norm(e.value, zeroCopy)), r)
    decreases e
  {
    assert WriteEntry(e) + r == Write(0, e.key) + (Write(1, e.value) + r);
    ValueRoundTrip(0, e.key, Write(1, e.value) + r, zeroCopy);
    ValueRoundTrip(1, e.value, r, zeroCopy);
  }

  lemma {:induction false} ItemsRoundTrip(xs: seq<Value>, acc: seq<Value>, r: Bytes, zeroCopy: bool)
    requires forall i | 0 <= i < |xs| :: WellFormed(xs[i])
    ensures ReadItems(|xs|, WriteItems(xs) + r, acc, zeroCopy) == Done(acc + NormItems(xs, zeroCopy), r)
    decreases xs
  {
    hide Write, WellFormed, Norm;
    if xs == [] {
      assert WriteItems(xs) + r == r && acc + NormItems(xs, zeroCopy) == acc;
    } else {
      var w, ws := Write(0, xs[0]), WriteItems(xs[1..]);
      assert (w + ws) + r == w + (ws + r);
      ValueRoundTrip(0, xs[0], ws + r, zeroCopy);
      var y, ys := Norm(xs[0], zeroCopy), NormItems(xs[1..], zeroCopy);
      assert (acc + [y]) + ys == acc + ([y] + ys);
      ItemsRoundTrip(xs[1..], acc + [y], r, zeroCopy);
    }
  }
}
