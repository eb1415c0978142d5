/** TARS messages: their fields on the wire and how they are read back (ser.rs, de.rs, lib.rs). */
module TarsMessages {
  import opened ByteStrings
  import opened TarsTypes
  import opened TarsWire
  import opened TarsReader
  import opened TarsRoundTrip
  import opened TarsNormalForm
  import opened TarsModes

  datatype Result<+T> = Ok(value: T) | Err(error: TarsError) | Panic
  {
    predicate IsFailure() { !Ok? }

    function PropagateFailure<U>(): Result<U>
      requires IsFailure()
    {
      match this
      case Err(e) => Err(e)
      case Panic => Panic
    }

    function Extract(): T
      requires Ok?
    {
      value
    }
  }

  function BodyEntries(ps: seq<Pair>): (es: seq<Entry>)
    ensures |es| == |ps|
  {
    if ps == [] then [] else [Entry(Str(ps[0].key), SimpleList(ps[0].value))] + BodyEntries(ps[1..])
  }

  function TextEntries(ps: seq<Pair>): (es: seq<Entry>)
    ensures |es| == |ps|
  {
    if ps == [] then [] else [Entry(Str(ps[0].key), Str(ps[0].value))] + TextEntries(ps[1..])
  }

  function BodyBytes(ps: seq<Pair>): Bytes
  {
    Write(0, Map(BodyEntries(ps)))
  }

  /** The ten fields of a message, in the order in which they are written. */
  function MessageBytes(m: Message): Bytes
  {
    Write(1, Short(m.version))
    + (Write(2, Byte(m.packetType))
    + (Write(3, Int(m.messageType))
    + (Write(4, Int(m.requestId))
    + (Write(5, Str(m.servantName))
    + (Write(6, Str(m.funcName))
    + (Write(7, SimpleList(BodyBytes(m.body)))
    + (Write(8, Int(m.timeout))
    + (Write(9, Map(TextEntries(m.context)))
    + (Write(10, Map(TextEntries(m.status)))
    + [])))))))))
  }

  function InsertPair(ps: seq<Pair>, p: Pair): seq<Pair>
  {
    if ps == [] then [p]
    else if ps[0].key == p.key then [p] + ps[1..]
    else [ps[0]] + InsertPair(ps[1..], p)
  }

  function AsI16(v: Value): Result<I16>
  {
    match v
    case Short(n) => Ok(n)
    case Byte(u) => Ok(u)
    case _ => Err(TypeMismatch("Short"))
  }

  function AsU8(v: Value): Result<U8>
  {
    match v
    case Byte(u) => Ok(u)
    case _ => Err(TypeMismatch("Byte"))
  }

  function AsInt(v: Value): Result<I32>
  {
    match AsI32(v)
    case Some(n) => Ok(n)
    case None => Err(TypeMismatch("Int"))
  }

  function AsString(v: Value): Result<Bytes>
  {
    match v
    case Str(s) => Ok(s)
    case StrRef(s) => if ValidUtf8(s) then Ok(s) else Err(Utf8)
    case _ => Err(TypeMismatch("String"))
  }

  function AsSimpleList(v: Value): Result<Bytes>
  {
    match v
    case SimpleList(b) => Ok(b)
    case _ => Err(TypeMismatch("SimpleList"))
  }

  function AsMap(v: Value): Result<seq<Entry>>
  {
    match v
    case Map(es) => Ok(es)
    case _ => Err(TypeMismatch("Map"))
  }

  function CollectBody(es: seq<Entry>, acc: seq<Pair>): Result<seq<Pair>>
    decreases es
  {
    if es == [] then Ok(acc)
    else
      var k :- AsString(es[0].key);
      var v :- AsSimpleList(es[0].value);
      CollectBody(es[1..], InsertPair(acc, Pair(k, v)))
  }

  function CollectText(es: seq<Entry>, acc: seq<Pair>): Result<seq<Pair>>
    decreases es
  {
    if es == [] then Ok(acc)
    else
      var k :- AsString(es[0].key);
      var v :- AsString(es[0].value);
      CollectText(es[1..], InsertPair(acc, Pair(k, v)))
  }

  /** The body is itself a map value, always read in the owned mode; bytes after it are ignored. */
  function ParseBody(b: Bytes): Result<seq<Pair>>
  {
    match ReadValue(b, false)
    case Done(tagged, _) => var es :- AsMap(tagged.1); CollectBody(es, [])
    case Failed(e, _) => Err(e)
    case Panicked => Panic
  }

  function ParseText(v: Value): Result<seq<Pair>>
  {
    var es :- AsMap(v);
    CollectText(es, [])
  }

  /** What one field does to the message read so far; unknown tags are ignored. */
  function Apply(m: Message, tag: U8, v: Value): Result<Message>
  {
    match tag
    case 1 => var n :- AsI16(v); Ok(m.(version := n))
    case 2 => var n :- AsU8(v); Ok(m.(packetType := n))
    case 3 => var n :- AsInt(v); Ok(m.(messageType := n))
    case 4 => var n :- AsInt(v); Ok(m.(requestId := n))
    case 5 => var s :- AsString(v); Ok(m.(servantName := s))
    case 6 => var s :- AsString(v); Ok(m.(funcName := s))
    case 7 => var b :- AsSimpleList(v); var ps :- ParseBody(b); Ok(m.(body := ps))
    case 8 => var n :- AsInt(v); Ok(m.(timeout := n))
    case 9 => var ps :- ParseText(v); Ok(m.(context := ps))
    case 10 => var ps :- ParseText(v); Ok(m.(status := ps))
    case _ => Ok(m)
  }

  const EMPTY_MESSAGE := Message(0, 0, 0, 0, [], [], [], 0, [], [])

  function ReadMessageFrom(bs: Bytes, m: Message, zeroCopy: bool): Result<Message>
    decreases |bs|
  {
    if bs == [] then Ok(m)
    else
      match ReadValue(bs, zeroCopy)
      case Done(tagged, rest) =>
        var m' :- Apply(m, tagged.0, tagged.1);
        ReadMessageFrom(rest, m', zeroCopy)
      case Failed(e, _) => Err(e)
      case Panicked => Panic
  }

  function ReadMessage(bs: Bytes, zeroCopy: bool): Result<Message>
  {
    ReadMessageFrom(bs, EMPTY_MESSAGE, zeroCopy)
  }

  /** `decode_response_from_bytes` and `decode_response_zero_copy`. */
  function DecodeResponse(bs: Bytes, zeroCopy: bool): Result<Message>
  {
    if |bs| < 4 || FromBigEndian(bs[..4]) != |bs| then Err(Unknown)
    else ReadMessage(bs[4..], zeroCopy)
  }

  predicate WellFormedString(s: Bytes)
  {
    ValidUtf8(s) && |s| < 0x1_0000_0000
  }

  ghost predicate DistinctPairs(ps: seq<Pair>)
  {
    forall i, j | 0 <= i < j < |ps| :: ps[i].key != ps[j].key
  }

  /** A message as Rust can hold it (hash maps have distinct keys), with lengths that fit their fields. */
  ghost predicate WellFormedMessage(m: Message)
  {
    && WellFormedString(m.servantName)
    && WellFormedString(m.funcName)
    && WellFormedBody(m.body)
    && WellFormedText(m.context)
    && WellFormedText(m.status)
  }

  ghost predicate WellFormedBody(ps: seq<Pair>)
  {
    && |ps| < 0x8000_0000 && DistinctPairs(ps) && |BodyBytes(ps)| < 0x8000_0000
    && forall i | 0 <= i < |ps| :: WellFormedString(ps[i].key) && |ps[i].value| < 0x8000_0000
  }

  ghost predicate WellFormedText(ps: seq<Pair>)
  {
    && |ps| < 0x8000_0000 && DistinctPairs(ps)
    && forall i | 0 <= i < |ps| :: WellFormedString(ps[i].key) && WellFormedString(ps[i].value)
  }

  function Widen(n: int): int
  {
    if -128 <= n <= -1 then n + 256 else n
  }

  /** The message that is read back: its one-byte negative header integers come back plus 256. */
  function NormMessage(m: Message): Message
  {
    m.(version := Widen(m.version), messageType := Widen(m.messageType),
       requestId := Widen(m.requestId), timeout := Widen(m.timeout))
  }

  predicate OneByteNegative(n: int)
  {
    -128 <= n <= -1
  }

  /** Exactly the messages without a header integer in -128..=-1 come back unchanged. */
  lemma MessageSurvives(m: Message)
    ensures NormMessage(m) == m <==>
      !OneByteNegative(m.version) && !OneByteNegative(m.messageType)
      && !OneByteNegative(m.requestId) && !OneByteNegative(m.timeout)
  {
  }

  ghost predicate FreshPair(ps: seq<Pair>, key: Bytes)
  {
    forall i | 0 <= i < |ps| :: ps[i].key != key
  }

  lemma {:induction false} InsertFreshPair(ps: seq<Pair>, p: Pair)
    requires FreshPair(ps, p.key)
    ensures InsertPair(ps, p) == ps + [p]
  {
    if ps != [] {
      InsertFreshPair(ps[1..], p);
    }
  }

  lemma {:induction false} CollectBodyBack(ps: seq<Pair>, acc: seq<Pair>)
    requires DistinctPairs(acc + ps)
    ensures CollectBody(NormEntries(BodyEntries(ps), false), acc) == Ok(acc + ps)
    decreases ps
  {
    if ps == [] {
      assert acc + ps == acc;
    } else {
      InsertNextPair(ps, acc);
      assert NormEntries(BodyEntries(ps), false)[1..] == NormEntries(BodyEntries(ps[1..]), false);
      var e := Entry(Str(ps[0].key), SimpleList(ps[0].value));
      assert BodyEntries(ps)[0] == e && NormEntry(e, false) == e;
      assert NormEntries(BodyEntries(ps), false)[0] == e;
      CollectBodyBack(ps[1..], acc + [ps[0]]);
    }
  }

  lemma TextComesBack(s: Bytes, zeroCopy: bool)
    requires ValidUtf8(s)
    ensures AsString(Norm(Str(s), zeroCopy)) == Ok(s)
  {
  }

  lemma HeaderIntegersComeBack(m: Message, zeroCopy: bool)
    ensures AsI16(Norm(Short(m.version), zeroCopy)) == Ok(Widen(m.version))
    ensures AsU8(Norm(Byte(m.packetType), zeroCopy)) == Ok(m.packetType)
    ensures AsInt(Norm(Int(m.messageType), zeroCopy)) == Ok(Widen(m.messageType))
    ensures AsInt(Norm(Int(m.requestId), zeroCopy)) == Ok(Widen(m.requestId))
    ensures AsInt(Norm(Int(m.timeout), zeroCopy)) == Ok(Widen(m.timeout))
  {
  }

  lemma {:induction false} CollectTextBack(ps: seq<Pair>, acc: seq<Pair>, zeroCopy: bool)
    requires DistinctPairs(acc + ps)
    requires forall i | 0 <= i < |ps| :: ValidUtf8(ps[i].key) && ValidUtf8(ps[i].value)
    ensures CollectText(NormEntries(TextEntries(ps), zeroCopy), acc) == Ok(acc + ps)
    decreases ps
  {
    hide ValidUtf8;
    if ps == [] {
      assert acc + ps == acc;
    } else {
      InsertNextPair(ps, acc);
      assert NormEntries(TextEntries(ps), zeroCopy)[1..] == NormEntries(TextEntries(ps[1..]), zeroCopy);
      TextComesBack(ps[0].key, zeroCopy);
      TextComesBack(ps[0].value, zeroCopy);
      CollectTextBack(ps[1..], acc + [ps[0]], zeroCopy);
    }
  }

  lemma InsertNextPair(ps: seq<Pair>, acc: seq<Pair>)
    requires ps != [] && DistinctPairs(acc + ps)
    ensures InsertPair(acc, ps[0]) == acc + [ps[0]] && (acc + [ps[0]]) + ps[1..] == acc + ps
  {
    forall i | 0 <= i < |acc| ensures acc[i].key != ps[0].key {
      assert (acc + ps)[i] == acc[i] && (acc + ps)[|acc|] == ps[0];
    }
    InsertFreshPair(acc, ps[0]);
  }

  lemma {:induction false} EntriesAt(ps: seq<Pair>, i: nat)
    requires i < |ps|
    ensures BodyEntries(ps)[i] == Entry(Str(ps[i].key), SimpleList(ps[i].value))
    ensures TextEntries(ps)[i] == Entry(Str(ps[i].key), Str(ps[i].value))
  {
    if i > 0 {
      EntriesAt(ps[1..], i - 1);
    }
  }

  lemma StringKeysStayDistinct(ps: seq<Pair>, es: seq<Entry>, zeroCopy: bool)
    requires DistinctPairs(ps)
    requires es == BodyEntries(ps) || es == TextEntries(ps)
    ensures DistinctKeys(NormEntries(es, zeroCopy))
  {
    forall i, j | 0 <= i < j < |es| ensures !Same(NormEntries(es, zeroCopy)[i].key, NormEntries(es, zeroCopy)[j].key) {
      EntriesAt(ps, i);
      EntriesAt(ps, j);
      NormEntriesAt(es, i, zeroCopy);
      NormEntriesAt(es, j, zeroCopy);
    }
  }

  lemma BodyIsWellFormed(ps: seq<Pair>)
    requires WellFormedBody(ps)
    ensures WellFormed(Map(BodyEntries(ps)))
  {
    forall i | 0 <= i < |ps| ensures WellFormed(BodyEntries(ps)[i].key) && WellFormed(BodyEntries(ps)[i].value) {
      EntriesAt(ps, i);
    }
  }

  lemma BodyParsesBack(ps: seq<Pair>)
    requires WellFormedBody(ps)
    ensures ParseBody(BodyBytes(ps)) == Ok(ps)
  {
    var v, es := Map(BodyEntries(ps)), NormEntries(BodyEntries(ps), false);
    assert DistinctPairs(ps) && BodyBytes(ps) == Write(0, v);
    hide *;
    BodyIsWellFormed(ps);
    StringKeysStayDistinct(ps, BodyEntries(ps), false);
    ValueRoundTrip(0, v, [], false);
    MapKeepsEveryEntry(BodyEntries(ps), false);
    assert [] + ps == ps && BodyBytes(ps) + [] == BodyBytes(ps);
    CollectBodyBack(ps, []);
    ParseBodyOfMap(BodyBytes(ps), es, ps);
  }

  lemma ParseBodyOfMap(b: Bytes, es: seq<Entry>, ps: seq<Pair>)
    requires ReadValue(b, false) == Done((0, Map(es)), []) && CollectBody(es, []) == Ok(ps)
    ensures ParseBody(b) == Ok(ps)
  {
    hide ReadValue, CollectBody;
  }

  lemma TextParsesBack(ps: seq<Pair>, zeroCopy: bool)
    requires WellFormedText(ps)
    ensures WellFormed(Map(TextEntries(ps)))
    ensures ParseText(Norm(Map(TextEntries(ps)), zeroCopy)) == Ok(ps)
  {
    forall i | 0 <= i < |ps| ensures WellFormed(TextEntries(ps)[i].key) && WellFormed(TextEntries(ps)[i].value) {
      EntriesAt(ps, i);
    }
    StringKeysStayDistinct(ps, TextEntries(ps), zeroCopy);
    MapKeepsEveryEntry(TextEntries(ps), zeroCopy);
    assert [] + ps == ps;
    CollectTextBack(ps, [], zeroCopy);
  }

  lemma ReadField(m: Message, tag: U8, v: Value, m': Message, rest: Bytes, zeroCopy: bool)
    requires WellFormed(v) && Apply(m, tag, Norm(v, zeroCopy)) == Ok(m')
    ensures ReadMessageFrom(Write(tag, v) + rest, m, zeroCopy) == ReadMessageFrom(rest, m', zeroCopy)
  {
    hide Payload, Norm, WellFormed, Apply, WireType;
    ValueRoundTrip(tag, v, rest, zeroCopy);
  }

  lemma NumbersComeBack(m: Message, rest: Bytes, zeroCopy: bool)
    ensures
      ReadMessageFrom(
        Write(1, Short(m.version)) + (Write(2, Byte(m.packetType)) + (Write(3, Int(m.messageType))
        + (Write(4, Int(m.requestId)) + rest))), EMPTY_MESSAGE, zeroCopy)
      == ReadMessageFrom(rest, NormMessage(m).(servantName := [], funcName := [], body := [], timeout := 0,
           context := [], status := []), zeroCopy)
  {
    HeaderIntegersComeBack(m, zeroCopy);
    hide AsI16, AsU8, AsInt, Widen, Norm, Write, ReadMessageFrom;
    var m1 := EMPTY_MESSAGE.(version := Widen(m.version));
    var m2 := m1.(packetType := m.packetType);
    var m3 := m2.(messageType := Widen(m.messageType));
    var r4 := Write(4, Int(m.requestId)) + rest;
    var r3 := Write(3, Int(m.messageType)) + r4;
    var r2 := Write(2, Byte(m.packetType)) + r3;
    ReadField(EMPTY_MESSAGE, 1, Short(m.version), m1, r2, zeroCopy);
    ReadField(m1, 2, Byte(m.packetType), m2, r3, zeroCopy);
    ReadField(m2, 3, Int(m.messageType), m3, r4, zeroCopy);
    ReadField(m3, 4, Int(m.requestId), m3.(requestId := Widen(m.requestId)), rest, zeroCopy);
  }

  lemma NameComesBack(m: Message, tag: U8, name: Bytes, rest: Bytes, zeroCopy: bool)
    requires WellFormedString(name) && (tag == 5 || tag == 6)
    ensures ReadMessageFrom(Write(tag, Str(name)) + rest, m, zeroCopy)
      == ReadMessageFrom(rest, if tag == 5 then m.(servantName := name) else m.(funcName := name), zeroCopy)
  {
    TextComesBack(name, zeroCopy);
    hide AsString, Norm, Write, ReadMessageFrom, ValidUtf8;
    ReadField(m, tag, Str(name), if tag == 5 then m.(servantName := name) else m.(funcName := name), rest, zeroCopy);
  }

  lemma ApplyBody(m: Message, v: Value, b: Bytes, ps: seq<Pair>)
    requires AsSimpleList(v) == Ok(b) && ParseBody(b) == Ok(ps)
    ensures Apply(m, 7, v) == Ok(m.(body := ps))
  {
    hide AsSimpleList, ParseBody;
  }

  lemma ApplyText(m: Message, tag: U8, v: Value, ps: seq<Pair>)
    requires ParseText(v) == Ok(ps) && (tag == 9 || tag == 10)
    ensures Apply(m, tag, v) == Ok(if tag == 9 then m.(context := ps) else m.(status := ps))
  {
    hide ParseText;
  }

  lemma BodyComesBack(m: Message, ps: seq<Pair>, rest: Bytes, zeroCopy: bool)
    requires WellFormedBody(ps)
    ensures ReadMessageFrom(Write(7, SimpleList(BodyBytes(ps))) + rest, m, zeroCopy)
      == ReadMessageFrom(rest, m.(body := ps), zeroCopy)
  {
    var blob := SimpleList(BodyBytes(ps));
    assert AsSimpleList(Norm(blob, zeroCopy)) == Ok(BodyBytes(ps)) && WellFormed(blob);
    hide *;
    BodyParsesBack(ps);
    ApplyBody(m, Norm(blob, zeroCopy), BodyBytes(ps), ps);
    ReadField(m, 7, blob, m.(body := ps), rest, zeroCopy);
  }

  lemma TextMapComesBack(m: Message, tag: U8, ps: seq<Pair>, rest: Bytes, zeroCopy: bool)
    requires WellFormedText(ps) && (tag == 9 || tag == 10)
    ensures ReadMessageFrom(Write(tag, Map(TextEntries(ps))) + rest, m, zeroCopy)
      == ReadMessageFrom(rest, if tag == 9 then m.(context := ps) else m.(status := ps), zeroCopy)
  {
    hide *;
    TextParsesBack(ps, zeroCopy);
    ApplyText(m, tag, Norm(Map(TextEntries(ps)), zeroCopy), ps);
    ReadField(m, tag, Map(TextEntries(ps)), if tag == 9 then m.(context := ps) else m.(status := ps), rest, zeroCopy);
  }

  lemma TimeoutComesBack(m: Message, m0: Message, rest: Bytes, zeroCopy: bool)
    ensures ReadMessageFrom(Write(8, Int(m.timeout)) + rest, m0, zeroCopy)
      == ReadMessageFrom(rest, m0.(timeout := Widen(m.timeout)), zeroCopy)
  {
    HeaderIntegersComeBack(m, zeroCopy);
    hide AsInt, Widen, Norm, Write, ReadMessageFrom;
    ReadField(m0, 8, Int(m.timeout), m0.(timeout := Widen(m.timeout)), rest, zeroCopy);
  }

  lemma NamesAndBodyComeBack(m: Message, m0: Message, rest: Bytes, zeroCopy: bool)
    requires WellFormedString(m.servantName) && WellFormedString(m.funcName) && WellFormedBody(m.body)
    ensures
      ReadMessageFrom(
        Write(5, Str(m.servantName)) + (Write(6, Str(m.funcName)) + (Write(7, SimpleList(BodyBytes(m.body))) + rest)),
        m0, zeroCopy)
      == ReadMessageFrom(rest, m0.(servantName := m.servantName, funcName := m.funcName, body := m.body), zeroCopy)
  {
    hide *;
    var m1 := m0.(servantName := m.servantName);
    var r7 := Write(7, SimpleList(BodyBytes(m.body))) + rest;
    NameComesBack(m0, 5, m.servantName, Write(6, Str(m.funcName)) + r7, zeroCopy);
    NameComesBack(m1, 6, m.funcName, r7, zeroCopy);
    BodyComesBack(m1.(funcName := m.funcName), m.body, rest, zeroCopy);
  }

  lemma TailComesBack(m: Message, m0: Message, zeroCopy: bool)
    requires WellFormedText(m.context) && WellFormedText(m.status)
    ensures
      ReadMessageFrom(
        Write(8, Int(m.timeout))
        + (Write(9, Map(TextEntries(m.context))) + (Write(10, Map(TextEntries(m.status))) + [])),
        m0, zeroCopy)
      == Ok(m0.(timeout := Widen(m.timeout), context := m.context, status := m.status))
  {
    var m1 := m0.(timeout := Widen(m.timeout));
    hide *;
    var m2 := m1.(context := m.context);
    var r10 := Write(10, Map(TextEntries(m.status))) + [];
    TimeoutComesBack(m, m0, Write(9, Map(TextEntries(m.context))) + r10, zeroCopy);
    TextMapComesBack(m1, 9, m.context, r10, zeroCopy);
    TextMapComesBack(m2, 10, m.status, [], zeroCopy);
    ReadNothing(m2.(status := m.status), zeroCopy);
  }

  /** Main result: a well-formed message reads back as itself, up to the widening of one-byte integers. */
  lemma MessageRoundTrip(m: Message, zeroCopy: bool)
    requires WellFormedMessage(m)
    ensures ReadMessage(MessageBytes(m), zeroCopy) == Ok(NormMessage(m))
  {
    hide Write, ReadMessageFrom, TextEntries, BodyBytes, WellFormedText, WellFormedBody, WellFormedString;
    var r8 := Write(8, Int(m.timeout))
      + (Write(9, Map(TextEntries(m.context))) + (Write(10, Map(TextEntries(m.status))) + []));
    var r5 := Write(5, Str(m.servantName))
      + (Write(6, Str(m.funcName)) + (Write(7, SimpleList(BodyBytes(m.body))) + r8));
    var m4 := NormMessage(m).(servantName := [], funcName := [], body := [], timeout := 0, context := [], status := []);
    NumbersComeBack(m, r5, zeroCopy);
    NamesAndBodyComeBack(m, m4, r8, zeroCopy);
    TailComesBack(m, m4.(servantName := m.servantName, funcName := m.funcName, body := m.body), zeroCopy);
  }

  lemma ReadNothing(m: Message, zeroCopy: bool)
    ensures ReadMessageFrom([], m, zeroCopy) == Ok(m)
  {
  }

  ghost predicate SameResult<T>(z: Result<T>, o: Result<T>)
  {
    match z
    case Ok(_) => o == z
    case Err(e) => o.Err? && SameError(e, o.error)
    case Panic => o.Panic?
  }

  lemma AsStringAgrees(v: Value)
    requires Borrowed(v)
    ensures AsString(Own(v)) == AsString(v)
  {
  }

  lemma {:induction false} CollectTextAgrees(es: seq<Entry>, acc: seq<Pair>)
    requires BorrowedEntries(es)
    ensures CollectText(es, acc) == CollectText(OwnEntries(es), acc)
    decreases es
  {
    if es != [] {
      assert BorrowedEntry(es[0]);
      var k, v := AsString(es[0].key), AsString(es[0].value);
      AsStringAgrees(es[0].key);
      AsStringAgrees(es[0].value);
      if k.Ok? && v.Ok? {
        CollectTextAgrees(es[1..], InsertPair(acc, Pair(k.value, v.value)));
      }
    }
  }

  lemma ApplyAgrees(m: Message, tag: U8, v: Value)
    requires Borrowed(v)
    ensures Apply(m, tag, v) == Apply(m, tag, Own(v))
  {
    hide CollectText, OwnEntries;
    if v.Map? {
      CollectTextAgrees(v.entries, []);
    }
  }

  lemma {:induction false} MessagesAgree(bs: Bytes, m: Message)
    ensures SameResult(ReadMessageFrom(bs, m, true), ReadMessageFrom(bs, m, false))
    decreases |bs|
  {
    if bs != [] {
      ValuesAgree(bs);
      var z := ReadValue(bs, true);
      if z.Done? {
        ApplyAgrees(m, z.value.0, z.value.1);
        var m' := Apply(m, z.value.0, z.value.1);
        if m'.Ok? {
          MessagesAgree(z.rest, m'.value);
        }
      }
    }
  }

  /** Both response decoders return the same message, or both fail, on every byte string. */
  lemma ResponseDecodersAgree(bs: Bytes)
    ensures SameResult(DecodeResponse(bs, true), DecodeResponse(bs, false))
  {
    if |bs| >= 4 {
      MessagesAgree(bs[4..], EMPTY_MESSAGE);
    }
  }
}
