/** What the deserializer reads from a byte string, as functions of the bytes (de.rs). */
module TarsReader {
  import opened ByteStrings
  import opened TarsTypes

  function Take(n: nat, bs: Bytes): (o: Outcome<Bytes>)
    ensures o.Done? ==> |o.value| == n && bs == o.value + o.rest
  {
    if |bs| < n then Panicked else Done(bs[..n], bs[n..])
  }

  function TakeUnsigned(k: nat, bs: Bytes): (o: Outcome<nat>)
    ensures o.Done? ==> |o.rest| + k == |bs| && o.value < Pow256(k)
  {
    var (b, rest) :- Take(k, bs);
    FromBigEndianBound(b);
    Done(FromBigEndian(b), rest)
  }

  function ReadHead(bs: Bytes): (o: Outcome<(U8, TarsType)>)
    ensures o.Done? || o.Failed?
    ensures o.Done? ==> |o.rest| < |bs|
  {
    if bs == [] then Failed(UnexpectedEof, bs)
    else
      match TypeOf(bs[0] % 16)
      case None => Failed(InvalidTypeId(bs[0] % 16), bs[1..])
      case Some(t) =>
        if bs[0] / 16 < 15 then Done((bs[0] / 16, t), bs[1..])
        else if |bs| == 1 then Failed(UnexpectedEof, [])
        else Done((bs[1], t), bs[2..])
  }

  function ReadSigned(k: nat, bs: Bytes): (o: Outcome<int>)
    ensures o.Done? ==> |o.rest| + k == |bs| && 0 <= 2 * o.value + Pow256(k) < 2 * Pow256(k)
  {
    var (u, rest) :- TakeUnsigned(k, bs);
    Done(ToSigned(u, k), rest)
  }

  /** `read_string` and `read_string_ref`: the same bytes, but different UTF-8 errors above 256 bytes. */
  function ReadString(len: nat, bs: Bytes, zeroCopy: bool): (o: Outcome<Value>)
    ensures o.Done? ==> |o.rest| + len == |bs|
  {
    var (s, rest) :- Take(len, bs);
    if !ValidUtf8(s) then Failed(if zeroCopy || len <= 256 then InvalidUtf8 else Utf8, rest)
    else Done(if zeroCopy then StrRef(s) else Str(s), rest)
  }

  /** `try_into_i32` followed by `as usize`: a negative length becomes enormous. */
  function AsI32(v: Value): (n: Option<I32>)
  {
    match v
    case Int(i) => Some(i)
    case Short(s) => Some(s)
    case Byte(u) => Some(u)
    case _ => None
  }

  function CastUsize(n: I32): nat
  {
    if n < 0 then n + 0x1_0000_0000_0000_0000 else n
  }

  function ReadLength(bs: Bytes, zeroCopy: bool): (o: Outcome<nat>)
    ensures o.Done? ==> |o.rest| < |bs|
    decreases |bs|, 0
  {
    var (head, r1) :- ReadHead(bs);
    var (v, r2) :- ReadByType(head.1, r1, zeroCopy);
    match AsI32(v)
    case Some(n) => Done(CastUsize(n), r2)
    case None => Failed(TypeMismatch("Int"), r2)
  }

  function ReadByType(t: TarsType, bs: Bytes, zeroCopy: bool): (o: Outcome<Value>)
    ensures o.Done? ==> |o.rest| <= |bs|
    decreases |bs|, 2
  {
    Pow256Values();
    match t
    case Zero => Done(Byte(0), bs)
    case Int1 => var (u, rest) :- TakeUnsigned(1, bs); Done(Byte(u), rest)
    case Int2 => var (n, rest) :- ReadSigned(2, bs); Done(Short(n), rest)
    case Int4 => var (n, rest) :- ReadSigned(4, bs); Done(Int(n), rest)
    case Int8 => var (n, rest) :- ReadSigned(8, bs); Done(Long(n), rest)
    case FloatType => var (u, rest) :- TakeUnsigned(4, bs); Done(Float(u), rest)
    case DoubleType => var (u, rest) :- TakeUnsigned(8, bs); Done(Double(u), rest)
    case String1 => var (len, rest) :- TakeUnsigned(1, bs); ReadString(len, rest, zeroCopy)
    case String4 => var (len, rest) :- TakeUnsigned(4, bs); ReadString(len, rest, zeroCopy)
    case BeginType => ReadStruct(bs, zeroCopy)
    case MapType => ReadMap(bs, zeroCopy)
    case ListType => ReadList(bs, zeroCopy)
    case SimpleListType => ReadSimpleList(bs, zeroCopy)
    case EndType => Done(StructEnd, bs)
  }

  function ReadStruct(bs: Bytes, zeroCopy: bool): (o: Outcome<Value>)
    ensures o.Done? ==> |o.rest| < |bs|
    decreases |bs|, 1
  {
    var (f, rest) :- ReadFields(bs, map[], zeroCopy);
    Done(Struct(f), rest)
  }

  function ReadMap(bs: Bytes, zeroCopy: bool): (o: Outcome<Value>)
    ensures o.Done? ==> |o.rest| < |bs|
    decreases |bs|, 1
  {
    var (len, r1) :- ReadLength(bs, zeroCopy);
    var (es, r2) :- ReadEntries(len, r1, [], zeroCopy);
    Done(Map(es), r2)
  }

  function ReadList(bs: Bytes, zeroCopy: bool): (o: Outcome<Value>)
    ensures o.Done? ==> |o.rest| < |bs|
    decreases |bs|, 1
  {
    var (len, r1) :- ReadLength(bs, zeroCopy);
    var (xs, r2) :- ReadItems(len, r1, [], zeroCopy);
    Done(List(xs), r2)
  }

  /** The first head should announce bytes, but any head is accepted. */
  function ReadSimpleList(bs: Bytes, zeroCopy: bool): (o: Outcome<Value>)
    ensures o.Done? ==> |o.rest| < |bs|
    decreases |bs|, 1
  {
    var (_, r1) :- ReadHead(bs);
    var (len, r2) :- ReadLength(r1, zeroCopy);
    var (b, r3) :- Take(len, r2);
    Done(SimpleList(b), r3)
  }

  function ReadValue(bs: Bytes, zeroCopy: bool): (o: Outcome<(U8, Value)>)
    ensures o.Done? ==> |o.rest| < |bs|
    decreases |bs|, 0
  {
    var (head, r1) :- ReadHead(bs);
    var (v, r2) :- ReadByType(head.1, r1, zeroCopy);
    Done((head.0, v), r2)
  }

  /** The struct loop: fields up to the closing head, a repeated tag keeping its last value. */
  function ReadFields(bs: Bytes, acc: map<U8, Value>, zeroCopy: bool): (o: Outcome<map<U8, Value>>)
    ensures o.Done? ==> |o.rest| < |bs|
    decreases |bs|, 0
  {
    var (head, r1) :- ReadHead(bs);
    if head.1 == EndType then Done(acc, r1)
    else
      var (v, r2) :- ReadByType(head.1, r1, zeroCopy);
      ReadFields(r2, acc[head.0 := v], zeroCopy)
  }

  function ReadEntries(n: nat, bs: Bytes, acc: seq<Entry>, zeroCopy: bool): (o: Outcome<seq<Entry>>)
    ensures o.Done? ==> |o.rest| <= |bs|
    decreases |bs|, 1
  {
    if n == 0 then Done(acc, bs)
    else
      var (k, r1) :- ReadValue(bs, zeroCopy);
      var (v, r2) :- ReadValue(r1, zeroCopy);
      ReadEntries(n - 1, r2, Insert(acc, k.1, v.1), zeroCopy)
  }

  function ReadItems(n: nat, bs: Bytes, acc: seq<Value>, zeroCopy: bool): (o: Outcome<seq<Value>>)
    ensures o.Done? ==> |o.rest| <= |bs|
    decreases |bs|, 1
  {
    if n == 0 then Done(acc, bs)
    else
      var (v, r1) :- ReadValue(bs, zeroCopy);
      ReadItems(n - 1, r1, acc + [v.1], zeroCopy)
  }
}
