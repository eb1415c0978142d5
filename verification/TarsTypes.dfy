/** TARS values, wire types, errors and messages (types.rs, error.rs). */
module TarsTypes {
  import opened ByteStrings

  /**
   * A TARS value. A `String` is held as its UTF-8 bytes, a float as its bit pattern.
   * A hash map is the list of its entries in the order in which it happens to iterate;
   * two maps are equal when `Same` holds of them, whatever their orders are.
   */
  datatype Value =
    | Bool(b: bool)
    | Byte(u: U8)
    | Short(s: I16)
    | Int(i: I32)
    | Long(l: I64)
    | Float(bits32: U32)
    | Double(bits64: U64)
    | Str(str: Bytes)
    | StrRef(ref: Bytes)
    | Struct(fields: map<U8, Value>)
    | Map(entries: seq<Entry>)
    | List(items: seq<Value>)
    | SimpleList(blob: Bytes)
    | Binary(raw: Bytes)
    | StructBegin
    | StructEnd

  datatype Entry = Entry(key: Value, value: Value)

  /** Equality of values: maps are compared without regard to iteration order. */
  predicate Same(a: Value, b: Value)
    decreases a, 1
  {
    match a
    case Struct(f) => b.Struct? && SameFields(a, b)
    case Map(es) => b.Map? && SameEntries(es, b.entries)
    case List(xs) => b.List? && SameItems(xs, b.items)
    case _ => a == b
  }

  predicate SameFields(a: Value, b: Value)
    requires a.Struct? && b.Struct?
    decreases a, 0
  {
    a.fields.Keys == b.fields.Keys && forall t | t in a.fields.Keys :: Same(a.fields[t], b.fields[t])
  }

  predicate SameEntries(es: seq<Entry>, fs: seq<Entry>)
    decreases es, 1
  {
    && |es| == |fs|
    && (forall i {:trigger Matches(es[i], fs)} | 0 <= i < |es| :: Matches(es[i], fs))
    && (forall j {:trigger Covers(es, fs[j])} | 0 <= j < |fs| :: Covers(es, fs[j]))
  }

  predicate Matches(e: Entry, fs: seq<Entry>)
    decreases e, 1
  {
    exists j {:trigger SameEntry(e, fs[j])} | 0 <= j < |fs| :: SameEntry(e, fs[j])
  }

  predicate Covers(es: seq<Entry>, f: Entry)
    decreases es, 0
  {
    exists i {:trigger SameEntry(es[i], f)} | 0 <= i < |es| :: SameEntry(es[i], f)
  }

  predicate SameItems(xs: seq<Value>, ys: seq<Value>)
    decreases xs
  {
    |xs| == |ys| && forall i | 0 <= i < |xs| :: Same(xs[i], ys[i])
  }

  predicate SameEntry(e: Entry, f: Entry)
    decreases e, 0
  {
    Same(e.key, f.key) && Same(e.value, f.value)
  }

  /** `HashMap::insert`: an equal key keeps its place and gets the new value. */
  function Insert(es: seq<Entry>, key: Value, value: Value): (r: seq<Entry>)
    ensures |es| <= |r| <= |es| + 1
  {
    if es == [] then [Entry(key, value)]
    else if Same(es[0].key, key) then [Entry(es[0].key, value)] + es[1..]
    else [es[0]] + Insert(es[1..], key, value)
  }

  function InsertAll(acc: seq<Entry>, es: seq<Entry>): (r: seq<Entry>)
    ensures |acc| <= |r| <= |acc| + |es|
    decreases es
  {
    if es == [] then acc else InsertAll(Insert(acc, es[0].key, es[0].value), es[1..])
  }

  datatype TarsType =
    | Int1 | Int2 | Int4 | Int8 | FloatType | DoubleType | String1 | String4
    | MapType | ListType | BeginType | EndType | Zero | SimpleListType

  function TypeId(t: TarsType): (id: U8)
    ensures id < 14 && TypeOf(id) == Some(t)
  {
    match t
    case Int1 => 0
    case Int2 => 1
    case Int4 => 2
    case Int8 => 3
    case FloatType => 4
    case DoubleType => 5
    case String1 => 6
    case String4 => 7
    case MapType => 8
    case ListType => 9
    case BeginType => 10
    case EndType => 11
    case Zero => 12
    case SimpleListType => 13
  }

  function TypeOf(id: U8): (t: Option<TarsType>)
    ensures t.None? <==> id >= 14
  {
    match id
    case 0 => Some(Int1)
    case 1 => Some(Int2)
    case 2 => Some(Int4)
    case 3 => Some(Int8)
    case 4 => Some(FloatType)
    case 5 => Some(DoubleType)
    case 6 => Some(String1)
    case 7 => Some(String4)
    case 8 => Some(MapType)
    case 9 => Some(ListType)
    case 10 => Some(BeginType)
    case 11 => Some(EndType)
    case 12 => Some(Zero)
    case 13 => Some(SimpleListType)
    case _ => None
  }

  datatype TarsError =
    | UnexpectedEof
    | InvalidTypeId(id: U8)
    | Utf8          // String::from_utf8 refused an owned buffer
    | InvalidUtf8   // str::from_utf8 refused a borrowed slice
    | TypeMismatch(expected: string)
    | Unknown

  /**
   * How a read ends: with a value and the bytes left over, with an error after some bytes
   * were consumed, or in a panic because the buffer ran short in the middle of a field.
   */
  datatype Outcome<+T> =
    | Done(value: T, rest: Bytes)
    | Failed(error: TarsError, rest: Bytes)
    | Panicked
  {
    predicate IsFailure() { !Done? }

    function PropagateFailure<U>(): Outcome<U>
      requires IsFailure()
    {
      match this
      case Failed(e, rest) => Failed(e, rest)
      case Panicked => Panicked
    }

    function Extract(): (T, Bytes)
      requires Done?
    {
      (value, rest)
    }
  }

  datatype Pair = Pair(key: Bytes, value: Bytes)

  datatype Message = Message(
    version: I16,
    packetType: U8,
    messageType: I32,
    requestId: I32,
    servantName: Bytes,
    funcName: Bytes,
    body: seq<Pair>,
    timeout: I32,
    context: seq<Pair>,
    status: seq<Pair>)
}
