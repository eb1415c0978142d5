/** The deserializer object, proved against the reading functions (de.rs). */
module TarsDeserializers {
  import opened ByteStrings
  import opened TarsTypes
  import opened TarsMessages
  import TarsReader

  /** A call ended as the reading function says: same value, error or panic, same bytes left. */
  ghost predicate Ends<T>(r: Result<T>, rest: Bytes, o: Outcome<T>)
  {
    match o
    case Done(v, q) => r == Ok(v) && rest == q
    case Failed(e, q) => r == Err(e) && rest == q
    case Panicked => r.Panic?
  }

  class TarsDeserializer {
    var buffer: Bytes
    const zeroCopy: bool

    constructor (buffer: Bytes, zeroCopy: bool)
      ensures this.buffer == buffer && this.zeroCopy == zeroCopy
    {
      this.buffer := buffer;
      this.zeroCopy := zeroCopy;
    }

    /** `split_to`: panics when the buffer is too short. */
    method Take(n: nat) returns (r: Result<Bytes>)
      modifies this
      ensures Ends(r, buffer, TarsReader.Take(n, old(buffer)))
    {
      if |buffer| < n {
        return Panic;
      }
      r := Ok(buffer[..n]);
      buffer := buffer[n..];
    }

    method TakeUnsigned(k: nat) returns (r: Result<nat>)
      modifies this
      ensures Ends(r, buffer, TarsReader.TakeUnsigned(k, old(buffer)))
    {
      var b :- Take(k);
      r := Ok(FromBigEndian(b));
    }

    method TakeSigned(k: nat) returns (r: Result<int>)
      modifies this
      ensures Ends(r, buffer, TarsReader.ReadSigned(k, old(buffer)))
    {
      var u :- TakeUnsigned(k);
      r := Ok(ToSigned(u, k));
    }

    method ReadHead() returns (r: Result<(U8, TarsType)>)
      modifies this
      ensures Ends(r, buffer, TarsReader.ReadHead(old(buffer)))
    {
      if buffer == [] {
        return Err(UnexpectedEof);
      }
      var head := buffer[0];
      buffer := buffer[1..];
      var t := TypeOf(head % 16);
      if t.None? {
        return Err(InvalidTypeId(head % 16));
      }
      var tag := head / 16;
      if tag == 15 {
        if buffer == [] {
          return Err(UnexpectedEof);
        }
        var extended := buffer[0];
        buffer := buffer[1..];
        r := Ok((extended, t.value));
      } else {
        r := Ok((tag, t.value));
      }
    }

    /** `read_string`: the two size classes differ only in the error for bad UTF-8. */
    method ReadOwnedString(len: nat) returns (r: Result<Value>)
      modifies this
      ensures Ends(r, buffer, TarsReader.ReadString(len, old(buffer), false))
    {
      if len == 0 {
        return Ok(Str([]));
      }
      var s :- Take(len);
      if len <= 256 {
        r := if ValidUtf8(s) then Ok(Str(s)) else Err(InvalidUtf8);
      } else {
        r := if ValidUtf8(s) then Ok(Str(s)) else Err(Utf8);
      }
    }

    method ReadStringRef(len: nat) returns (r: Result<Value>)
      modifies this
      ensures Ends(r, buffer, TarsReader.ReadString(len, old(buffer), true))
    {
      if len == 0 {
        return Ok(StrRef([]));
      }
      var s :- Take(len);
      r := if ValidUtf8(s) then Ok(StrRef(s)) else Err(InvalidUtf8);
    }

    method ReadText(k: nat) returns (r: Result<Value>)
      modifies this
      ensures Ends(r, buffer,
        match TarsReader.TakeUnsigned(k, old(buffer))
        case Done(len, rest) => TarsReader.ReadString(len, rest, zeroCopy)
        case Failed(e, rest) => Failed(e, rest)
        case Panicked => Panicked)
    {
      var len :- TakeUnsigned(k);
      if zeroCopy {
        r := ReadStringRef(len);
      } else {
        r := ReadOwnedString(len);
      }
    }

    method ReadLength() returns (r: Result<nat>)
      modifies this
      ensures Ends(r, buffer, TarsReader.ReadLength(old(buffer), zeroCopy))
      decreases |buffer|, 0
    {
      hide TarsReader.ReadByType;
      ghost var start := buffer;
      var head :- ReadHead();
      assert |buffer| < |start|;
      var v :- ReadValueByType(head.1);
      match TarsReader.AsI32(v)
      case Some(n) => r := Ok(TarsReader.CastUsize(n));
      case None => r := Err(TypeMismatch("Int"));
    }

    method ReadStruct() returns (r: Result<Value>)
      modifies this
      ensures Ends(r, buffer, TarsReader.ReadStruct(old(buffer), zeroCopy))
      decreases |buffer|, 1
    {
      hide TarsReader.ReadByType;
      ghost var start := buffer;
      var fields: map<U8, Value> := map[];
      while true
        invariant |buffer| <= |start|
        invariant TarsReader.ReadFields(start, map[], zeroCopy) == TarsReader.ReadFields(buffer, fields, zeroCopy)
        decreases |buffer|
      {
        ghost var here := buffer;
        var head :- ReadHead();
        if head.1 == EndType {
          break;
        }
        assert |buffer| < |here|;
        var v :- ReadValueByType(head.1);
        fields := fields[head.0 := v];
      }
      r := Ok(Struct(fields));
    }

    method ReadMap() returns (r: Result<Value>)
      modifies this
      ensures Ends(r, buffer, TarsReader.ReadMap(old(buffer), zeroCopy))
      decreases |buffer|, 1
    {
      hide TarsReader.ReadByType, TarsReader.ReadLength, TarsReader.ReadValue, Insert;
      ghost var start := buffer;
      var len :- ReadLength();
      ghost var body := buffer;
      var entries: seq<Entry> := [];
      var i := 0;
      while i < len
        invariant 0 <= i <= len && |buffer| < |start|
        invariant TarsReader.ReadEntries(len, body, [], zeroCopy)
          == TarsReader.ReadEntries(len - i, buffer, entries, zeroCopy)
      {
        var k :- ReadValue();
        var v :- ReadValue();
        entries := Insert(entries, k.1, v.1);
        i := i + 1;
      }
      r := Ok(Map(entries));
    }

    method ReadList() returns (r: Result<Value>)
      modifies this
      ensures Ends(r, buffer, TarsReader.ReadList(old(buffer), zeroCopy))
      decreases |buffer|, 1
    {
      hide TarsReader.ReadByType, TarsReader.ReadLength, TarsReader.ReadValue;
      ghost var start := buffer;
      var len :- ReadLength();
      ghost var body := buffer;
      var items: seq<Value> := [];
      var i := 0;
      while i < len
        invariant 0 <= i <= len && |buffer| < |start|
        invariant TarsReader.ReadItems(len, body, [], zeroCopy)
          == TarsReader.ReadItems(len - i, buffer, items, zeroCopy)
      {
        var v :- ReadValue();
        items := items + [v.1];
        i := i + 1;
      }
      r := Ok(List(items));
    }

    method ReadSimpleList() returns (r: Result<Value>)
      modifies this
      ensures Ends(r, buffer, TarsReader.ReadSimpleList(old(buffer), zeroCopy))
      decreases |buffer|, 1
    {
      var _ :- ReadHead();
      var len :- ReadLength();
      var b :- Take(len);
      r := Ok(SimpleList(b));
    }

    method ReadValue() returns (r: Result<(U8, Value)>)
      modifies this
      ensures Ends(r, buffer, TarsReader.ReadValue(old(buffer), zeroCopy))
      decreases |buffer|, 0
    {
      hide TarsReader.ReadByType;
      ghost var start := buffer;
      var head :- ReadHead();
      assert |buffer| < |start|;
      var v :- ReadValueByType(head.1);
      r := Ok((head.0, v));
    }

    method ReadValueByType(t: TarsType) returns (r: Result<Value>)
      modifies this
      ensures Ends(r, buffer, TarsReader.ReadByType(t, old(buffer), zeroCopy))
      decreases |buffer|, 2
    {
      Pow256Values();
      match t
      case Zero => r := Ok(Byte(0));
      case Int1 => var u :- TakeUnsigned(1); r := Ok(Byte(u));
      case Int2 => var n :- TakeSigned(2); r := Ok(Short(n));
      case Int4 => var n :- TakeSigned(4); r := Ok(Int(n));
      case Int8 => var n :- TakeSigned(8); r := Ok(Long(n));
      case FloatType => var u :- TakeUnsigned(4); r := Ok(Float(u));
      case DoubleType => var u :- TakeUnsigned(8); r := Ok(Double(u));
      case String1 => r := ReadText(1);
      case String4 => r := ReadText(4);
      case BeginType => r := ReadStruct();
      case MapType => r := ReadMap();
      case ListType => r := ReadList();
      case SimpleListType => r := ReadSimpleList();
      case EndType => r := Ok(StructEnd);
    }

    /** Fields in any order until the buffer is empty; the last of a repeated tag wins. */
    method ReadMessage() returns (r: Result<Message>)
      modifies this
      ensures r == TarsMessages.ReadMessage(old(buffer), zeroCopy)
      ensures r.Ok? ==> buffer == []
    {
      hide TarsReader.ReadValue, Apply;
      ghost var start := buffer;
      var m := EMPTY_MESSAGE;
      while buffer != []
        invariant TarsMessages.ReadMessage(start, zeroCopy) == ReadMessageFrom(buffer, m, zeroCopy)
        decreases |buffer|
      {
        ghost var here := buffer;
        var tagged :- ReadValue();
        assert |buffer| < |here|;
        m :- Apply(m, tagged.0, tagged.1);
      }
      r := Ok(m);
    }
  }

  method DecodeResponseFromBytes(bytes: Bytes) returns (r: Result<Message>)
    ensures r == DecodeResponse(bytes, false)
  {
    if |bytes| < 4 {
      return Err(Unknown);
    }
    var len := FromBigEndian(bytes[..4]);
    if |bytes| != len {
      return Err(Unknown);
    }
    var de := new TarsDeserializer(bytes[4..], false);
    r := de.ReadMessage();
  }

  method DecodeResponseZeroCopy(bytes: Bytes) returns (r: Result<Message>)
    ensures r == DecodeResponse(bytes, true)
    ensures SameDecoding(r, DecodeResponse(bytes, false))
  {
    ResponseDecodersAgree(bytes);
    if |bytes| < 4 {
      return Err(Unknown);
    }
    var len := FromBigEndian(bytes[..4]);
    if |bytes| != len {
      return Err(Unknown);
    }
    var de := new TarsDeserializer(bytes[4..], true);
    r := de.ReadMessage();
  }

  /** The same message, or a failure on both sides. */
  ghost predicate SameDecoding(a: Result<Message>, b: Result<Message>)
  {
    if a.Ok? then b == a else !b.Ok? && (a.Panic? <==> b.Panic?)
  }
}
