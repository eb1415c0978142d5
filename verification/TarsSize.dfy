/** How far `estimate_size` bounds the bytes that are written (ser.rs). */
module TarsSize {
  import opened ByteStrings
  import opened TarsTypes
  import opened TarsWire

  /** `estimate_size`, its sums taken in the order of writing. */
  function Estimate(v: Value): nat
    decreases v, 0
  {
    match v
    case Bool(_) => 2
    case Byte(_) => 2
    case Short(_) => 3
    case Int(_) => 5
    case Long(_) => 9
    case Float(_) => 5
    case Double(_) => 9
    case Str(s) => if |s| <= 255 then 2 + |s| else 5 + |s|
    case StrRef(s) => if |s| <= 255 then 2 + |s| else 5 + |s|
    case Struct(f) => 2 + EstimateFields(f, 0, v)
    case Map(es) => 6 + EstimateEntries(es)
    case List(xs) => 6 + EstimateItems(xs)
    case SimpleList(b) => 6 + |b|
    case Binary(b) => 6 + |b|
    case StructBegin => 1
    case StructEnd => 1
  }

  function EstimateFields(f: map<U8, Value>, from: nat, ghost parent: Value): nat
    requires from <= 256 && parent == Struct(f)
    decreases parent, 0, 256 - from
  {
    if from == 256 then 0
    else (if from in f then Estimate(f[from]) else 0) + EstimateFields(f, from + 1, parent)
  }

  function EstimateEntries(es: seq<Entry>): nat
  {
    if es == [] then 0 else EstimateEntry(es[0]) + EstimateEntries(es[1..])
  }

  function EstimateEntry(e: Entry): nat
  {
    Estimate(e.key) + Estimate(e.value)
  }

  function EstimateItems(xs: seq<Value>): nat
  {
    if xs == [] then 0 else Estimate(xs[0]) + EstimateItems(xs[1..])
  }

  /** The bytes `estimate_size` forgets: one per head with an extended tag, one per byte blob above 32767 bytes. */
  function Forgotten(tag: U8, v: Value): nat
    decreases v, 1
  {
    (if tag >= 15 then 1 else 0) + ForgottenInside(v)
  }

  function ForgottenInside(v: Value): nat
    decreases v, 0
  {
    match v
    case Struct(f) => ForgottenFields(f, 0, v)
    case Map(es) => ForgottenEntries(es)
    case List(xs) => ForgottenItems(xs)
    case SimpleList(b) => if |b| > 32767 then 1 else 0
    case Binary(b) => if |b| > 32767 then 1 else 0
    case _ => 0
  }

  function ForgottenFields(f: map<U8, Value>, from: nat, ghost parent: Value): nat
    requires from <= 256 && parent == Struct(f)
    decreases parent, 0, 256 - from
  {
    if from == 256 then 0
    else (if from in f then Forgotten(from, f[from]) else 0) + ForgottenFields(f, from + 1, parent)
  }

  function ForgottenEntries(es: seq<Entry>): nat
  {
    if es == [] then 0 else ForgottenEntry(es[0]) + ForgottenEntries(es[1..])
  }

  function ForgottenEntry(e: Entry): nat
  {
    Forgotten(0, e.key) + Forgotten(1, e.value)
  }

  function ForgottenItems(xs: seq<Value>): nat
  {
    if xs == [] then 0 else Forgotten(0, xs[0]) + ForgottenItems(xs[1..])
  }

  /** The bytes `estimate_size` reserves for integers, booleans and lengths that then come out narrower. */
  function Saved(v: Value): nat
    decreases v, 0
  {
    match v
    case Bool(b) => if b then 0 else 1
    case Byte(u) => 1 - IntWidth(CastI8(u))
    case Short(n) => 2 - IntWidth(n)
    case Int(n) => 4 - IntWidth(n)
    case Long(n) => 8 - IntWidth(n)
    case Struct(f) => SavedFields(f, 0, v)
    case Map(es) => 4 - IntWidth(CastI32(|es|)) + SavedEntries(es)
    case List(xs) => 4 - IntWidth(CastI32(|xs|)) + SavedItems(xs)
    case SimpleList(b) => SavedLength(|b|)
    case Binary(b) => SavedLength(|b|)
    case _ => 0
  }

  /** For the length of a blob three bytes are reserved, and one more is forgotten above 32767. */
  function SavedLength(n: nat): nat
  {
    (if n > 32767 then 4 else 3) - IntWidth(CastI32(n))
  }

  function SavedFields(f: map<U8, Value>, from: nat, ghost parent: Value): nat
    requires from <= 256 && parent == Struct(f)
    decreases parent, 0, 256 - from
  {
    if from == 256 then 0
    else (if from in f then Saved(f[from]) else 0) + SavedFields(f, from + 1, parent)
  }

  function SavedEntries(es: seq<Entry>): nat
  {
    if es == [] then 0 else SavedEntry(es[0]) + SavedEntries(es[1..])
  }

  function SavedEntry(e: Entry): nat
  {
    Saved(e.key) + Saved(e.value)
  }

  function SavedItems(xs: seq<Value>): nat
  {
    if xs == [] then 0 else Saved(xs[0]) + SavedItems(xs[1..])
  }

  /** Main result: what is written and what is saved add up to what is estimated and what is forgotten. */
  lemma {:induction false} SizeIsExact(tag: U8, v: Value)
    ensures |Write(tag, v)| + Saved(v) == Estimate(v) + Forgotten(tag, v)
    decreases v, 2
  {
    PayloadIsExact(v);
  }

  lemma {:induction false} PayloadIsExact(v: Value)
    ensures 1 + |Payload(v)| + Saved(v) == Estimate(v) + ForgottenInside(v)
    decreases v, 1
  {
    match v {
      case Struct(f) => FieldsAreExact(f, 0, v);
      case Map(es) => EntriesAreExact(es);
      case List(xs) => ItemsAreExact(xs);
      case _ =>
    }
  }

  lemma {:induction false} FieldsAreExact(f: map<U8, Value>, from: nat, parent: Value)
    requires from <= 256 && parent == Struct(f)
    ensures |WriteFields(f, from, parent)| + SavedFields(f, from, parent)
      == EstimateFields(f, from, parent) + ForgottenFields(f, from, parent)
    decreases parent, 0, 256 - from
  {
    hide Write, Estimate, Forgotten, Saved;
    if from < 256 {
      if from in f {
        SizeIsExact(from, f[from]);
      }
      FieldsAreExact(f, from + 1, parent);
    }
  }

  lemma {:induction false} EntriesAreExact(es: seq<Entry>)
    ensures |WriteEntries(es)| + SavedEntries(es) == EstimateEntries(es) + ForgottenEntries(es)
    decreases es
  {
    if es != [] {
      EntryIsExact(es[0]);
      EntriesAreExact(es[1..]);
    }
  }

  lemma {:induction false} EntryIsExact(e: Entry)
    ensures |WriteEntry(e)| + SavedEntry(e) == EstimateEntry(e) + ForgottenEntry(e)
    decreases e
  {
    SizeIsExact(0, e.key);
    SizeIsExact(1, e.value);
  }

  lemma {:induction false} ItemsAreExact(xs: seq<Value>)
    ensures |WriteItems(xs)| + SavedItems(xs) == EstimateItems(xs) + ForgottenItems(xs)
    decreases xs
  {
    if xs != [] {
      SizeIsExact(0, xs[0]);
      ItemsAreExact(xs[1..]);
    }
  }

  /** A written value takes at most its estimate plus the forgotten bytes. */
  lemma SizeBound(tag: U8, v: Value)
    ensures |Write(tag, v)| <= Estimate(v) + Forgotten(tag, v)
  {
    SizeIsExact(tag, v);
  }

  /** Main result: the estimate is a bound exactly when narrowing saves what the estimate forgets. */
  lemma EstimateIsBoundIff(tag: U8, v: Value)
    ensures |Write(tag, v)| <= Estimate(v) <==> Forgotten(tag, v) <= Saved(v)
  {
    SizeIsExact(tag, v);
  }

  /** In particular where neither an extended tag nor a blob above 32767 bytes occurs. */
  lemma EstimateIsBound(tag: U8, v: Value)
    requires Forgotten(tag, v) == 0
    ensures |Write(tag, v)| <= Estimate(v)
  {
    EstimateIsBoundIff(tag, v);
  }

  /** The forgotten bytes are real: an extended tag, or a long blob, makes the encoding longer than the estimate. */
  lemma EstimateFallsShort(tag: U8, n: I64, b: Bytes)
    requires tag >= 15 && n >= 0x8000_0000 && 32768 <= |b| < 0x8000_0000
    ensures |Write(tag, Long(n))| == Estimate(Long(n)) + 1
    ensures |Write(tag, SimpleList(b))| == Estimate(SimpleList(b)) + Forgotten(tag, SimpleList(b))
  {
  }

  /** The estimates of values of every kind. */
  lemma KnownEstimates(u: U8, n: I16, s: Bytes)
    ensures Estimate(Bool(true)) == 2 == Estimate(Bool(false)) && Estimate(Byte(u)) == 2
    ensures Estimate(Short(n)) == 3 && Estimate(Int(n)) == 5 && Estimate(Long(n)) == 9
    ensures Estimate(Float(0)) == 5 && Estimate(Double(0)) == 9
  {
  }
}
