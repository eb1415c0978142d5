/** The TARS byte format, said with literal bytes and for encodings that the writer itself never chooses. */
module TarsFormat {
  import opened ByteStrings
  import opened TarsTypes
  import opened TarsWire
  import opened TarsReader
  import opened TarsRoundTrip

  lemma KnownBigEndian()
    ensures BigEndian(0x1234, 2) == [0x12, 0x34]
    ensures BigEndian(0x1234_5678, 4) == [0x12, 0x34, 0x56, 0x78]
    ensures BigEndian(0x0102_0304_0506_0708, 8) == [1, 2, 3, 4, 5, 6, 7, 8]
  {
    assert BigEndian(0x12, 1) == [0x12];
    assert BigEndian(0x1234, 2) == BigEndian(0x12, 1) + [0x34];
    assert BigEndian(0x12_3456, 3) == BigEndian(0x1234, 2) + [0x56];
    assert BigEndian(1, 1) == [1];
    assert BigEndian(0x0102, 2) == BigEndian(1, 1) + [2];
    assert BigEndian(0x01_0203, 3) == BigEndian(0x0102, 2) + [3];
    assert BigEndian(0x0102_0304, 4) == BigEndian(0x01_0203, 3) + [4];
    assert BigEndian(0x01_0203_0405, 5) == BigEndian(0x0102_0304, 4) + [5];
    assert BigEndian(0x0102_0304_0506, 6) == BigEndian(0x01_0203_0405, 5) + [6];
    assert BigEndian(0x01_0203_0405_0607, 7) == BigEndian(0x0102_0304_0506, 6) + [7];
  }

  /** Type numbers in the low half of the first byte, tags in the high half or, from 15 on, in a byte of their own. */
  lemma KnownHeads()
    ensures Head(1, Int1) == [0x10] && Head(2, Int2) == [0x21] && Head(3, Int4) == [0x32] && Head(4, Int8) == [0x43]
    ensures Head(5, FloatType) == [0x54] && Head(6, DoubleType) == [0x65]
    ensures Head(7, String1) == [0x76] && Head(8, String4) == [0x87]
    ensures Head(9, MapType) == [0x98] && Head(10, ListType) == [0xA9]
    ensures Head(11, BeginType) == [0xBA] && Head(0, EndType) == [0x0B]
    ensures Head(13, Zero) == [0xDC] && Head(14, SimpleListType) == [0xED]
    ensures Head(15, Zero) == [0xFC, 15] && Head(255, Int1) == [0xF0, 255]
    ensures Head(0, Int1) == [0x00] && Head(0, Zero) == [0x0C] && Head(0, String1) == [0x06]
  {
  }

  lemma KnownIntegers()
    ensures WriteInt(13, 0) == [0xDC] && WriteInt(0, 0) == [0x0C] && WriteInt(15, 0) == [0xFC, 15]
    ensures forall n: U8 | 0 < n < 128 :: WriteInt(1, n) == [0x10, n] && WriteInt(0, n) == [0x00, n]
    ensures WriteInt(1, -2) == [0x10, 0xFE]
  {
    KnownHeads();
    Pow256Values();
    hide Head;
    forall n: U8 ensures BigEndian(n, 1) == [n] {
      assert BigEndian(n / 256, 0) == [];
    }
    hide BigEndian, Pow256;
  }

  lemma KnownWideIntegers()
    ensures WriteInt(2, 0x1234) == [0x21, 0x12, 0x34]
    ensures WriteInt(3, 0x1234_5678) == [0x32, 0x12, 0x34, 0x56, 0x78]
    ensures WriteInt(4, 0x0102_0304_0506_0708) == [0x43, 1, 2, 3, 4, 5, 6, 7, 8]
  {
    KnownHeads();
    Pow256Values();
    KnownBigEndian();
    hide BigEndian, Pow256, Head;
  }

  /** Every integer type is written as the number it holds. */
  lemma NumbersAreIntegers(tag: U8, n: I64)
    ensures Write(tag, Long(n)) == WriteInt(tag, n)
    ensures -0x8000_0000 <= n < 0x8000_0000 ==> Write(tag, Int(n)) == WriteInt(tag, n)
    ensures -0x8000 <= n < 0x8000 ==> Write(tag, Short(n)) == WriteInt(tag, n)
    ensures 0 <= n < 128 ==> Write(tag, Byte(n)) == WriteInt(tag, n)
    ensures 128 <= n < 256 ==> Write(tag, Byte(n)) == WriteInt(tag, n - 256)
    ensures n == 0 || n == 1 ==> Write(tag, Bool(n == 1)) == WriteInt(tag, n)
  {
    hide Head;
    assert IntPayload(1) == [1] by {
      Pow256Values();
      assert BigEndian(0, 0) == [];
    }
    hide BigEndian;
  }

  lemma KnownFloats()
    ensures Write(5, Float(0x1234_5678)) == [0x54, 0x12, 0x34, 0x56, 0x78]
    ensures Write(6, Double(0x0102_0304_0506_0708)) == [0x65, 1, 2, 3, 4, 5, 6, 7, 8]
  {
    KnownHeads();
    KnownBigEndian();
    hide BigEndian, Head;
  }

  lemma KnownShortString(s: Bytes)
    requires |s| < 256
    ensures Write(7, Str(s)) == [0x76, |s|] + s == Write(7, StrRef(s))
  {
    assert BigEndian(|s| / 256, 0) == [] && BigEndian(|s|, 1) == [|s|];
    assert Head(7, String1) == [0x76];
    hide BigEndian, Head;
    Regroup([0x76], [|s|], s);
  }

  lemma KnownLongString(s: Bytes)
    requires |s| == 0x1234_5678
    ensures Write(8, Str(s)) == [0x87, 0x12, 0x34, 0x56, 0x78] + s == Write(8, StrRef(s))
  {
    LongStringForm(8, s);
    assert Head(8, String4) == [0x87];
    hide *;
    KnownBigEndian();
    LongStringBytes(0x87, 0x12, 0x34, 0x56, 0x78, s);
  }

  lemma LongStringForm(tag: U8, s: Bytes)
    requires |s| > 255
    ensures Write(tag, Str(s)) == Head(tag, String4) + (BigEndian(|s|, 4) + s) == Write(tag, StrRef(s))
  {
    hide BigEndian, Head;
  }

  lemma LongStringBytes(a: U8, b: U8, c: U8, d: U8, e: U8, s: Bytes)
    ensures [a] + ([b, c, d, e] + s) == [a, b, c, d, e] + s
  {
    Regroup([a], [b, c, d, e], s);
    assert [a] + [b, c, d, e] == [a, b, c, d, e];
  }

  lemma KnownBlob(b: Bytes)
    requires 0 < |b| < 128
    ensures Write(14, SimpleList(b)) == [0xED, 0x00, 0x00, |b|] + b == Write(14, Binary(b))
  {
    KnownHeads();
    KnownIntegers();
    hide WriteInt, Head;
  }

  lemma ItemsOfTwo(x: Value, y: Value)
    ensures WriteItems([x, y]) == Write(0, x) + Write(0, y)
  {
    assert [x, y][1..] == [y] && [y][1..] == [];
    hide Write;
    assert WriteItems([y]) == Write(0, y) + WriteItems([]);
  }

  lemma ListOfTwo(tag: U8, x: Value, y: Value)
    ensures Write(tag, List([x, y])) == Head(tag, ListType) + (WriteInt(0, 2) + (Write(0, x) + Write(0, y)))
  {
    hide Head, WriteInt, WriteItems;
    var v := List([x, y]);
    assert Write(tag, v) == Head(tag, ListType) + (WriteInt(0, 2) + WriteItems([x, y]));
    hide *;
    ItemsOfTwo(x, y);
  }

  lemma SixBytes(a: U8, b: U8, c: U8, d: U8, e: U8, f: U8)
    ensures [a] + ([b, c] + ([d] + [e, f])) == [a, b, c, d, e, f]
  {
  }

  lemma KnownList()
    ensures Write(10, List([Int(0), Byte(7)])) == [0xA9, 0x00, 2, 0x0C, 0x00, 7]
  {
    var x, y := Int(0), Byte(7);
    assert Head(10, ListType) == [0xA9];
    KnownIntegers();
    assert WriteInt(0, 2) == [0x00, 2] && WriteInt(0, 7) == [0x00, 7];
    hide *;
    NumbersAreIntegers(0, 0);
    NumbersAreIntegers(0, 7);
    ListOfTwo(10, x, y);
    SixBytes(0xA9, 0x00, 2, 0x0C, 0x00, 7);
  }

  lemma EntryOfOne(k: Value, v: Value)
    ensures WriteEntries([Entry(k, v)]) == Write(0, k) + Write(1, v)
  {
    var es := [Entry(k, v)];
    assert es[1..] == [];
    hide Write;
    assert WriteEntries(es) == (Write(0, k) + Write(1, v)) + WriteEntries([]);
  }

  lemma MapOfOne(tag: U8, k: Value, v: Value)
    ensures Write(tag, Map([Entry(k, v)])) == Head(tag, MapType) + (WriteInt(0, 1) + (Write(0, k) + Write(1, v)))
  {
    var m := Map([Entry(k, v)]);
    assert Write(tag, m) == Head(tag, MapType) + (WriteInt(0, 1) + WriteEntries([Entry(k, v)]));
    hide *;
    EntryOfOne(k, v);
  }

  lemma KnownMap()
    ensures Write(9, Map([Entry(Int(0), Byte(1))])) == [0x98, 0x00, 1, 0x0C, 0x10, 1]
  {
    assert Head(9, MapType) == [0x98];
    KnownIntegers();
    assert WriteInt(0, 1) == [0x00, 1] && WriteInt(1, 1) == [0x10, 1];
    hide *;
    NumbersAreIntegers(0, 0);
    NumbersAreIntegers(1, 1);
    MapOfOne(9, Int(0), Byte(1));
    SixBytes(0x98, 0x00, 1, 0x0C, 0x10, 1);
  }

  lemma {:induction false} NoFieldsFrom(f: map<U8, Value>, from: nat, to: nat, parent: Value)
    requires from <= to <= 256 && parent == Struct(f) && forall t: U8 | from <= t < to :: t !in f
    ensures WriteFields(f, from, parent) == WriteFields(f, to, parent)
    decreases 256 - from
  {
    if from < to {
      NoFieldsFrom(f, from + 1, to, parent);
    }
  }

  lemma FieldsOfTwo(f: map<U8, Value>, v: Value, s: U8, t: U8)
    requires s < t && v == Struct(f) && f.Keys == {s, t}
    ensures WriteFields(f, 0, v) == Write(s, f[s]) + Write(t, f[t])
  {
    hide Write;
    assert WriteFields(f, 256, v) == [];
    assert WriteFields(f, s, v) == Write(s, f[s]) + WriteFields(f, s + 1, v);
    assert WriteFields(f, t, v) == Write(t, f[t]) + WriteFields(f, t + 1, v);
    hide *;
    NoFieldsFrom(f, 0, s, v);
    NoFieldsFrom(f, s + 1, t, v);
    NoFieldsFrom(f, t + 1, 256, v);
  }

  lemma StructOfTwo(tag: U8, f: map<U8, Value>, s: U8, t: U8)
    requires s < t && f.Keys == {s, t}
    ensures Write(tag, Struct(f)) == Head(tag, BeginType) + ((Write(s, f[s]) + Write(t, f[t])) + Head(0, EndType))
  {
    var v := Struct(f);
    assert Write(tag, v) == Head(tag, BeginType) + (WriteFields(f, 0, v) + Head(0, EndType));
    hide *;
    FieldsOfTwo(f, v, s, t);
  }

  lemma FiveBytes(a: U8, b: U8, c: U8, d: U8, e: U8)
    ensures [a] + (([b, c] + [d]) + [e]) == [a, b, c, d, e]
  {
  }

  /** Fields come by ascending tag, in whatever order they were put in. */
  lemma KnownStruct()
    ensures Write(11, Struct(map[13 := Int(0), 1 := Byte(5)])) == [0xBA, 0x10, 5, 0xDC, 0x0B]
  {
    var f: map<U8, Value> := map[13 := Int(0), 1 := Byte(5)];
    assert Head(11, BeginType) == [0xBA] && Head(0, EndType) == [0x0B];
    KnownIntegers();
    assert WriteInt(1, 5) == [0x10, 5] && f.Keys == {1, 13};
    hide *;
    NumbersAreIntegers(1, 5);
    NumbersAreIntegers(13, 0);
    StructOfTwo(11, f, 1, 13);
    FiveBytes(0xBA, 0x10, 5, 0xDC, 0x0B);
  }

  lemma SignedComesBack(n: I64, k: nat, r: Bytes)
    requires 0 <= 2 * n + Pow256(k) < 2 * Pow256(k)
    ensures ReadSigned(k, BigEndian(ToUnsigned(n, k), k) + r) == Done(n, r)
  {
    UnsignedRoundTrip(ToUnsigned(n, k), k, r);
  }

  lemma ShortIsRead(n: I16, r: Bytes, zeroCopy: bool)
    ensures ReadByType(Int2, BigEndian(n % 0x1_0000, 2) + r, zeroCopy) == Done(Short(n), r)
  {
    Pow256Values();
    hide BigEndian, Pow256, ReadSigned;
    SignedComesBack(n, 2, r);
  }

  lemma IntIsRead(n: I32, r: Bytes, zeroCopy: bool)
    ensures ReadByType(Int4, BigEndian(n % 0x1_0000_0000, 4) + r, zeroCopy) == Done(Int(n), r)
  {
    Pow256Values();
    hide BigEndian, Pow256, ReadSigned;
    SignedComesBack(n, 4, r);
  }

  lemma LongIsRead(n: I64, r: Bytes, zeroCopy: bool)
    ensures ReadByType(Int8, BigEndian(n % 0x1_0000_0000_0000_0000, 8) + r, zeroCopy) == Done(Long(n), r)
  {
    Pow256Values();
    hide BigEndian, Pow256, ReadSigned;
    SignedComesBack(n, 8, r);
  }

  lemma LongStringIsRead(s: Bytes, r: Bytes, zeroCopy: bool)
    requires ValidUtf8(s) && |s| < 0x1_0000_0000
    ensures ReadByType(String4, BigEndian(|s|, 4) + (s + r), zeroCopy)
      == Done(if zeroCopy then StrRef(s) else Str(s), r)
  {
    Pow256Values();
    hide BigEndian, Pow256, TakeUnsigned, Take, ValidUtf8;
    UnsignedRoundTrip(|s|, 4, s + r);
    TakeRoundTrip(s, r);
  }

  /**
   * Main result: the reader takes integers in every width, also wider than the writer would have chosen, and strings
   * with the long length, whatever their length is.
   */
  lemma EveryWidthIsRead(n: I64, s: Bytes, r: Bytes, zeroCopy: bool)
    ensures 0 <= n < 256 ==> ReadByType(Int1, [n] + r, zeroCopy) == Done(Byte(n), r)
    ensures -0x8000 <= n < 0x8000 ==>
      ReadByType(Int2, BigEndian(n % 0x1_0000, 2) + r, zeroCopy) == Done(Short(n), r)
    ensures -0x8000_0000 <= n < 0x8000_0000 ==>
      ReadByType(Int4, BigEndian(n % 0x1_0000_0000, 4) + r, zeroCopy) == Done(Int(n), r)
    ensures ReadByType(Int8, BigEndian(n % 0x1_0000_0000_0000_0000, 8) + r, zeroCopy) == Done(Long(n), r)
    ensures ValidUtf8(s) && |s| < 0x1_0000_0000 ==>
      ReadByType(String4, BigEndian(|s|, 4) + (s + r), zeroCopy) == Done(if zeroCopy then StrRef(s) else Str(s), r)
  {
    hide *;
    if 0 <= n < 256 {
      ByteIsRead(n, r, zeroCopy);
    }
    if -0x8000 <= n < 0x8000 {
      ShortIsRead(n, r, zeroCopy);
    }
    if -0x8000_0000 <= n < 0x8000_0000 {
      IntIsRead(n, r, zeroCopy);
    }
    LongIsRead(n, r, zeroCopy);
    if ValidUtf8(s) && |s| < 0x1_0000_0000 {
      LongStringIsRead(s, r, zeroCopy);
    }
  }

  lemma ByteIsRead(u: U8, r: Bytes, zeroCopy: bool)
    ensures ReadByType(Int1, [u] + r, zeroCopy) == Done(Byte(u), r)
  {
    OneByteIsRead(u, r);
    hide TakeUnsigned;
  }

  lemma OneByteIsRead(u: U8, r: Bytes)
    ensures TakeUnsigned(1, [u] + r) == Done(u, r)
  {
    assert ([u] + r)[..1] == [u] && ([u] + r)[1..] == r;
    assert FromBigEndian([u]) == 256 * FromBigEndian([]) + u;
  }

  /** The head before the length of a blob is read over, whatever it says. */
  lemma BlobHeadIsIgnored(tag: U8, t: TarsType, b: Bytes, r: Bytes, zeroCopy: bool)
    requires |b| < 0x8000_0000
    ensures ReadSimpleList(Head(tag, t) + (WriteInt(0, CastI32(|b|)) + (b + r)), zeroCopy) == Done(SimpleList(b), r)
  {
    var len := WriteInt(0, CastI32(|b|));
    HeadRoundTrip(tag, t, len + (b + r));
    LengthRoundTrip(|b|, b + r, zeroCopy);
    TakeRoundTrip(b, r);
    hide ReadHead, ReadLength, Take, Head, WriteInt;
  }
}
