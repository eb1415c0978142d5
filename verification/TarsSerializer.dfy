/** The serializer object, proved against the wire form (ser.rs). */
module TarsSerializers {
  import opened ByteStrings
  import opened TarsTypes
  import opened TarsWire
  import opened TarsMessages

  /** A growable buffer owned by somebody else (`&mut BytesMut`). */
  class ByteBuffer {
    var data: Bytes

    constructor (data: Bytes)
      ensures this.data == data
    {
      this.data := data;
    }
  }

  lemma PairsAreWritable(ps: seq<Pair>)
    ensures Writable(Map(BodyEntries(ps))) && Writable(Map(TextEntries(ps)))
  {
    forall i | 0 <= i < |ps|
      ensures WritableEntry(BodyEntries(ps)[i]) && WritableEntry(TextEntries(ps)[i])
    {
      EntriesAt(ps, i);
    }
  }

  lemma MessageTextIsWritable(m: Message)
    ensures Writable(Map(BodyEntries(m.body)))
    ensures Writable(Map(TextEntries(m.context))) && Writable(Map(TextEntries(m.status)))
  {
    PairsAreWritable(m.body);
    PairsAreWritable(m.context);
    PairsAreWritable(m.status);
  }

  lemma WritableList(items: seq<Value>)
    ensures Writable(List(items)) <==> forall i | 0 <= i < |items| :: Writable(items[i])
  {
  }

  lemma WritableMap(entries: seq<Entry>)
    ensures Writable(Map(entries)) <==> forall i | 0 <= i < |entries| :: WritableEntry(entries[i])
  {
  }

  lemma ItemsStep(items: seq<Value>, i: nat, done: Bytes)
    requires i < |items|
    ensures done + WriteItems(items[i..]) == (done + Write(0, items[i])) + WriteItems(items[i + 1..])
  {
    hide Write;
    assert items[i..][0] == items[i] && items[i..][1..] == items[i + 1..];
    Regroup(done, Write(0, items[i]), WriteItems(items[i + 1..]));
  }

  lemma NoItems(items: seq<Value>, done: Bytes)
    requires items == []
    ensures done + WriteItems(items) == done
  {
  }

  lemma MapBytes(tag: U8, entries: seq<Entry>, start: Bytes)
    ensures start + Write(tag, Map(entries))
      == ((start + Head(tag, MapType)) + WriteInt(0, CastI32(|entries|))) + WriteEntries(entries)
  {
    var head, len := Head(tag, MapType), WriteInt(0, CastI32(|entries|));
    assert Write(tag, Map(entries)) == head + (len + WriteEntries(entries));
    hide *;
    Regroup(start, head, len + WriteEntries(entries));
    Regroup(start + head, len, WriteEntries(entries));
  }

  lemma ListBytes(tag: U8, items: seq<Value>, start: Bytes)
    ensures start + Write(tag, List(items))
      == ((start + Head(tag, ListType)) + WriteInt(0, CastI32(|items|))) + WriteItems(items)
  {
    var head, len := Head(tag, ListType), WriteInt(0, CastI32(|items|));
    assert Write(tag, List(items)) == head + (len + WriteItems(items));
    hide *;
    Regroup(start, head, len + WriteItems(items));
    Regroup(start + head, len, WriteItems(items));
  }

  lemma EntriesStep(entries: seq<Entry>, i: nat, done: Bytes)
    requires i < |entries|
    ensures done + WriteEntries(entries[i..]) == (done + WriteEntry(entries[i])) + WriteEntries(entries[i + 1..])
  {
    hide WriteEntry;
    assert entries[i..][0] == entries[i] && entries[i..][1..] == entries[i + 1..];
    Regroup(done, WriteEntry(entries[i]), WriteEntries(entries[i + 1..]));
  }

  lemma NoEntries(entries: seq<Entry>, done: Bytes)
    requires entries == []
    ensures done + WriteEntries(entries) == done
  {
  }

  class TarsSerializer {
    var buffer: Bytes

    constructor ()
      ensures buffer == []
    {
      buffer := [];
    }

    method WriteHead(tag: U8, t: TarsType)
      modifies this
      ensures buffer == old(buffer) + Head(tag, t)
    {
      if tag < 15 {
        buffer := buffer + [16 * tag + TypeId(t)];
      } else {
        buffer := buffer + [16 * 15 + TypeId(t)];
        buffer := buffer + [tag];
      }
    }

    method WriteBool(tag: U8, b: bool)
      modifies this
      ensures buffer == old(buffer) + Write(tag, Bool(b))
    {
      if b {
        WriteHead(tag, Int1);
        buffer := buffer + [1];
      } else {
        WriteHead(tag, Zero);
      }
    }

    method WriteI8(tag: U8, n: int)
      requires -128 <= n < 128
      modifies this
      ensures buffer == old(buffer) + WriteInt(tag, n)
    {
      if n == 0 {
        WriteHead(tag, Zero);
        return;
      }
      WriteHead(tag, Int1);
      Pow256Values();
      buffer := buffer + BigEndian(ToUnsigned(n, 1), 1);
    }

    method WriteU8(tag: U8, u: U8)
      modifies this
      ensures buffer == old(buffer) + Write(tag, Byte(u))
    {
      WriteI8(tag, CastI8(u));
    }

    method WriteI16(tag: U8, n: I16)
      modifies this
      ensures buffer == old(buffer) + WriteInt(tag, n)
    {
      if -128 <= n <= 127 {
        WriteI8(tag, n);
      } else {
        WriteHead(tag, Int2);
        Pow256Values();
        buffer := buffer + BigEndian(ToUnsigned(n, 2), 2);
      }
    }

    method WriteI32(tag: U8, n: I32)
      modifies this
      ensures buffer == old(buffer) + WriteInt(tag, n)
    {
      if -32768 <= n <= 32767 {
        WriteI16(tag, n);
      } else {
        WriteHead(tag, Int4);
        Pow256Values();
        buffer := buffer + BigEndian(ToUnsigned(n, 4), 4);
      }
    }

    method WriteI64(tag: U8, n: I64)
      modifies this
      ensures buffer == old(buffer) + WriteInt(tag, n)
    {
      if -2147483648 <= n <= 2147483647 {
        WriteI32(tag, n);
      } else {
        WriteHead(tag, Int8);
        Pow256Values();
        buffer := buffer + BigEndian(ToUnsigned(n, 8), 8);
      }
    }

    method WriteString(tag: U8, s: Bytes)
      modifies this
      ensures buffer == old(buffer) + Write(tag, Str(s))
    {
      ghost var start := buffer;
      if |s| <= 255 {
        WriteHead(tag, String1);
        buffer := buffer + BigEndian(|s|, 1);
      } else {
        WriteHead(tag, String4);
        buffer := buffer + BigEndian(|s|, 4);
      }
      buffer := buffer + s;
      assert buffer == start + (Head(tag, WireType(Str(s))) + StringPayload(s));
    }

    /** Fields go out in ascending order of tag. */
    method WriteStruct(tag: U8, fields: map<U8, Value>) returns (ok: bool)
      modifies this
      ensures ok <==> Writable(Struct(fields))
      ensures ok ==> buffer == old(buffer) + Write(tag, Struct(fields))
      ensures old(buffer) <= buffer
      decreases Struct(fields), 0
    {
      ghost var v, start, head := Struct(fields), buffer, Head(tag, BeginType);
      assert Write(tag, v) == head + (WriteFields(fields, 0, v) + Head(0, EndType));
      hide Write, Head, Payload;
      WriteHead(tag, BeginType);
      var t := 0;
      while t < 256
        invariant 0 <= t <= 256 && start <= buffer
        invariant forall k | k in fields.Keys && k < t :: Writable(fields[k])
        invariant buffer + WriteFields(fields, t, v) == (start + head) + WriteFields(fields, 0, v)
      {
        if t in fields {
          ghost var before := buffer;
          ok := WriteValue(t, fields[t]);
          if !ok { return; }
          Regroup(before, Write(t, fields[t]), WriteFields(fields, t + 1, v));
        }
        t := t + 1;
      }
      assert buffer == buffer + WriteFields(fields, t, v);
      Regroup(start, head, WriteFields(fields, 0, v));
      Regroup(start, head + WriteFields(fields, 0, v), Head(0, EndType));
      Regroup(head, WriteFields(fields, 0, v), Head(0, EndType));
      WriteHead(0, EndType);
      assert buffer == start + (head + (WriteFields(fields, 0, v) + Head(0, EndType)));
      ok := true;
    }

    /** The body of the loop over the map. */
    method WriteMapEntry(e: Entry) returns (ok: bool)
      modifies this
      ensures ok <==> WritableEntry(e)
      ensures ok ==> buffer == old(buffer) + WriteEntry(e)
      ensures old(buffer) <= buffer
      decreases e, 2
    {
      Regroup(buffer, Write(0, e.key), Write(1, e.value));
      hide Write, Writable;
      ok := WriteValue(0, e.key);
      if !ok { return; }
      ok := WriteValue(1, e.value);
    }

    method WriteMap(tag: U8, entries: seq<Entry>) returns (ok: bool)
      modifies this
      ensures ok <==> Writable(Map(entries))
      ensures ok ==> buffer == old(buffer) + Write(tag, Map(entries))
      ensures old(buffer) <= buffer
      decreases Map(entries), 0
    {
      ghost var start := buffer;
      MapBytes(tag, entries, start);
      WritableMap(entries);
      hide Write, Head, WriteInt, Writable, WritableEntry, WriteEntries, WriteEntry;
      WriteHead(tag, MapType);
      WriteI32(0, CastI32(|entries|));
      assert entries[0..] == entries;
      var i := 0;
      while i < |entries|
        invariant 0 <= i <= |entries| && start <= buffer
        invariant forall k | 0 <= k < i :: WritableEntry(entries[k])
        invariant buffer + WriteEntries(entries[i..]) == start + Write(tag, Map(entries))
      {
        EntriesStep(entries, i, buffer);
        ok := WriteMapEntry(entries[i]);
        if !ok { return; }
        i := i + 1;
      }
      NoEntries(entries[i..], buffer);
      ok := true;
    }

    method WriteList(tag: U8, items: seq<Value>) returns (ok: bool)
      modifies this
      ensures ok <==> Writable(List(items))
      ensures ok ==> buffer == old(buffer) + Write(tag, List(items))
      ensures old(buffer) <= buffer
      decreases List(items), 0
    {
      ghost var start := buffer;
      ListBytes(tag, items, start);
      WritableList(items);
      hide Write, Head, WriteInt, Writable, WriteItems;
      WriteHead(tag, ListType);
      WriteI32(0, CastI32(|items|));
      assert items[0..] == items;
      var i := 0;
      while i < |items|
        invariant 0 <= i <= |items| && start <= buffer
        invariant forall k | 0 <= k < i :: Writable(items[k])
        invariant buffer + WriteItems(items[i..]) == start + Write(tag, List(items))
      {
        ItemsStep(items, i, buffer);
        ok := WriteValue(0, items[i]);
        if !ok { return; }
        i := i + 1;
      }
      NoItems(items[i..], buffer);
      ok := true;
    }

    method WriteSimpleList(tag: U8, b: Bytes)
      modifies this
      ensures buffer == old(buffer) + Write(tag, SimpleList(b))
    {
      ghost var start, len := buffer, WriteInt(0, CastI32(|b|));
      assert Write(tag, SimpleList(b)) == Head(tag, SimpleListType) + (Head(0, Int1) + len + b);
      hide Write, Head, WriteInt;
      ghost var outer, inner := Head(tag, SimpleListType), Head(0, Int1);
      Regroup(start, outer, inner + len + b);
      Regroup(start + outer, inner + len, b);
      Regroup(start + outer, inner, len);
      WriteHead(tag, SimpleListType);
      WriteHead(0, Int1);
      WriteI32(0, CastI32(|b|));
      buffer := buffer + b;
    }

    /** Fails only on a borrowed string that is not UTF-8; what was written up to there stays in the buffer. */
    method WriteValue(tag: U8, v: Value) returns (ok: bool)
      modifies this
      ensures ok <==> Writable(v)
      ensures ok ==> buffer == old(buffer) + Write(tag, v)
      ensures old(buffer) <= buffer
      decreases v, 1
    {
      hide IntPayload, IntType, StringPayload, BlobPayload, WriteFields, WriteEntries, WriteItems, Head, BigEndian;
      ok := true;
      match v {
        case Bool(b) => WriteBool(tag, b);
        case Byte(u) => WriteU8(tag, u);
        case Short(n) => WriteI16(tag, n);
        case Int(n) => WriteI32(tag, n);
        case Long(n) => WriteI64(tag, n);
        case Float(bits) => WriteHead(tag, FloatType); buffer := buffer + BigEndian(bits, 4);
        case Double(bits) => WriteHead(tag, DoubleType); buffer := buffer + BigEndian(bits, 8);
        case Str(s) => WriteString(tag, s);
        case StrRef(s) =>
          if ValidUtf8(s) {
            WriteString(tag, s);
          } else {
            ok := false;
          }
        case Struct(f) => ok := WriteStruct(tag, f);
        case Map(es) => ok := WriteMap(tag, es);
        case List(xs) => ok := WriteList(tag, xs);
        case SimpleList(b) => WriteSimpleList(tag, b);
        case Binary(b) => WriteSimpleList(tag, b);
        case StructBegin => WriteHead(tag, BeginType);
        case StructEnd => WriteHead(tag, EndType);
      }
    }

    /** The fields of a message; no message can make this fail. */
    method EncodeMessageToInternalBuffer(m: Message)
      modifies this
      ensures buffer == old(buffer) + MessageBytes(m)
    {
      MessageTextIsWritable(m);
      IntegersAreWritten(m);
      hide Write, WriteInt, Writable, TextEntries, BodyEntries;
      ghost var start := buffer;
      var bodySerializer := new TarsSerializer();
      var ok := bodySerializer.WriteMap(0, BodyEntries(m.body));
      var body := bodySerializer.buffer;
      assert body == BodyBytes(m.body);
      hide BodyBytes;
      ghost var w10 := Write(10, Map(TextEntries(m.status)));
      ghost var w9 := Write(9, Map(TextEntries(m.context)));
      ghost var r9, r8, r7 := w10 + [], w9 + (w10 + []), Write(8, Int(m.timeout)) + (w9 + (w10 + []));
      ghost var r6 := Write(7, SimpleList(body)) + r7;
      ghost var r5 := Write(6, Str(m.funcName)) + r6;
      ghost var r4 := Write(5, Str(m.servantName)) + r5;
      ghost var r3 := Write(4, Int(m.requestId)) + r4;
      ghost var r2 := Write(3, Int(m.messageType)) + r3;
      ghost var r1 := Write(2, Byte(m.packetType)) + r2;
      assert MessageBytes(m) == Write(1, Short(m.version)) + r1;
      hide MessageBytes;
      WriteI16(1, m.version);
      Regroup(start, Write(1, Short(m.version)), r1);
      Regroup(buffer, Write(2, Byte(m.packetType)), r2);
      WriteU8(2, m.packetType);
      Regroup(buffer, Write(3, Int(m.messageType)), r3);
      WriteI32(3, m.messageType);
      Regroup(buffer, Write(4, Int(m.requestId)), r4);
      WriteI32(4, m.requestId);
      Regroup(buffer, Write(5, Str(m.servantName)), r5);
      WriteString(5, m.servantName);
      Regroup(buffer, Write(6, Str(m.funcName)), r6);
      WriteString(6, m.funcName);
      Regroup(buffer, Write(7, SimpleList(body)), r7);
      WriteSimpleList(7, body);
      Regroup(buffer, Write(8, Int(m.timeout)), r8);
      WriteI32(8, m.timeout);
      Regroup(buffer, w9, r9);
      ok := WriteMap(9, TextEntries(m.context));
      Regroup(buffer, w10, []);
      ok := WriteMap(10, TextEntries(m.status));
      assert buffer + [] == buffer;
    }

    /** Swaps the target in as its own buffer, encodes, and swaps back: the target grows, its own buffer is restored. */
    method EncodeMessageToBuffer(m: Message, target: ByteBuffer)
      modifies this, target
      ensures target.data == old(target.data) + MessageBytes(m)
      ensures buffer == old(buffer)
    {
      var tempBuffer := buffer;
      buffer := [];
      buffer, target.data := target.data, tempBuffer;
      EncodeMessageToInternalBuffer(m);
      var mine := target.data;
      target.data := [];
      var encodedBuffer := buffer;
      buffer := mine;
      target.data := encodedBuffer;
    }
  }

  lemma IntegersAreWritten(m: Message)
    ensures WriteInt(1, m.version) == Write(1, Short(m.version))
    ensures WriteInt(3, m.messageType) == Write(3, Int(m.messageType))
    ensures WriteInt(4, m.requestId) == Write(4, Int(m.requestId))
    ensures WriteInt(8, m.timeout) == Write(8, Int(m.timeout))
  {
  }
}
