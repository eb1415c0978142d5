/** The wire form of a TARS value, as a function of the value (ser.rs). */
module TarsWire {
  import opened ByteStrings
  import opened TarsTypes

  function Head(tag: U8, t: TarsType): (h: Bytes)
    ensures |h| == if tag < 15 then 1 else 2
  {
    if tag < 15 then [16 * tag + TypeId(t)] else [16 * 15 + TypeId(t), tag]
  }

  /** The narrowest wire type that holds `n`; zero needs no payload at all. */
  function IntType(n: I64): TarsType
  {
    if n == 0 then Zero
    else if -0x80 <= n < 0x80 then Int1
    else if -0x8000 <= n < 0x8000 then Int2
    else if -0x8000_0000 <= n < 0x8000_0000 then Int4
    else Int8
  }

  function IntWidth(n: I64): (k: nat)
    ensures k <= 8
    ensures 0 <= 2 * n + Pow256(k) < 2 * Pow256(k) || k == 0
  {
    Pow256Values();
    match IntType(n)
    case Zero => 0
    case Int1 => 1
    case Int2 => 2
    case Int4 => 4
    case _ => 8
  }

  function IntPayload(n: I64): (b: Bytes)
    ensures |b| == IntWidth(n)
  {
    if n == 0 then [] else BigEndian(ToUnsigned(n, IntWidth(n)), IntWidth(n))
  }

  function WriteInt(tag: U8, n: I64): Bytes
  {
    Head(tag, IntType(n)) + IntPayload(n)
  }

  /** The `as i8` cast of a byte. */
  function CastI8(u: U8): (n: I64)
    ensures -128 <= n < 128 && (n == u || n == u - 256)
  {
    if u >= 128 then u - 256 else u
  }

  function WireType(v: Value): TarsType
  {
    match v
    case Bool(b) => if b then Int1 else Zero
    case Byte(u) => IntType(CastI8(u))
    case Short(n) => IntType(n)
    case Int(n) => IntType(n)
    case Long(n) => IntType(n)
    case Float(_) => FloatType
    case Double(_) => DoubleType
    case Str(s) => if |s| <= 255 then String1 else String4
    case StrRef(s) => if |s| <= 255 then String1 else String4
    case Struct(_) => BeginType
    case Map(_) => MapType
    case List(_) => ListType
    case SimpleList(_) => SimpleListType
    case Binary(_) => SimpleListType
    case StructBegin => BeginType
    case StructEnd => EndType
  }

  function StringPayload(s: Bytes): Bytes
  {
    BigEndian(|s|, if |s| <= 255 then 1 else 4) + s
  }

  function BlobPayload(b: Bytes): Bytes
  {
    Head(0, Int1) + WriteInt(0, CastI32(|b|)) + b
  }

  function Payload(v: Value): Bytes
    decreases v, 0
  {
    match v
    case Bool(b) => if b then [1] else []
    case Byte(u) => IntPayload(CastI8(u))
    case Short(n) => IntPayload(n)
    case Int(n) => IntPayload(n)
    case Long(n) => IntPayload(n)
    case Float(n) => BigEndian(n, 4)
    case Double(n) => BigEndian(n, 8)
    case Str(s) => StringPayload(s)
    case StrRef(s) => StringPayload(s)
    case Struct(f) => WriteFields(f, 0, v) + Head(0, EndType)
    case Map(es) => WriteInt(0, CastI32(|es|)) + WriteEntries(es)
    case List(xs) => WriteInt(0, CastI32(|xs|)) + WriteItems(xs)
    case SimpleList(b) => BlobPayload(b)
    case Binary(b) => BlobPayload(b)
    case StructBegin => []
    case StructEnd => []
  }

  function Write(tag: U8, v: Value): Bytes
    decreases v, 1
  {
    Head(tag, WireType(v)) + Payload(v)
  }

  /** The fields with tags `from..`, in ascending order of tag. */
  function WriteFields(f: map<U8, Value>, from: nat, ghost parent: Value): Bytes
    requires from <= 256 && parent == Struct(f)
    decreases parent, 0, 256 - from
  {
    if from == 256 then []
    else if from in f then Write(from, f[from]) + WriteFields(f, from + 1, parent)
    else WriteFields(f, from + 1, parent)
  }

  function WriteEntries(es: seq<Entry>): Bytes
  {
    if es == [] then [] else WriteEntry(es[0]) + WriteEntries(es[1..])
  }

  function WriteEntry(e: Entry): Bytes
  {
    Write(0, e.key) + Write(1, e.value)
  }

  function WriteItems(xs: seq<Value>): Bytes
  {
    if xs == [] then [] else Write(0, xs[0]) + WriteItems(xs[1..])
  }

  /** Writing fails only on a borrowed string that is not UTF-8. */
  predicate Writable(v: Value)
  {
    match v
    case StrRef(s) => ValidUtf8(s)
    case Struct(f) => forall t | t in f.Keys :: Writable(f[t])
    case Map(es) => forall i | 0 <= i < |es| :: WritableEntry(es[i])
    case List(xs) => forall i | 0 <= i < |xs| :: Writable(xs[i])
    case _ => true
  }

  predicate WritableEntry(e: Entry)
  {
    Writable(e.key) && Writable(e.value)
  }
}
