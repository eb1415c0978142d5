/** Why a bare struct marker inside a value cannot survive the wire (ser.rs, de.rs). */
module TarsMarkers {
  import opened ByteStrings
  import opened TarsTypes
  import opened TarsWire
  import opened TarsReader
  import opened TarsRoundTrip
  import opened TarsNormalForm

  /** No start marker anywhere, and no end marker as a field of a struct. */
  predicate Unmarked(v: Value)
    decreases v
  {
    match v
    case Struct(f) => forall t | t in f.Keys :: !f[t].StructEnd? && Unmarked(f[t])
    case Map(es) => UnmarkedEntries(es)
    case List(xs) => UnmarkedItems(xs)
    case StructBegin => false
    case _ => true
  }

  predicate UnmarkedEntries(es: seq<Entry>)
    decreases es, 1
  {
    forall i | 0 <= i < |es| :: UnmarkedEntry(es[i])
  }

  predicate UnmarkedEntry(e: Entry)
    decreases e, 0
  {
    Unmarked(e.key) && Unmarked(e.value)
  }

  predicate UnmarkedItems(xs: seq<Value>)
    decreases xs
  {
    forall i | 0 <= i < |xs| :: Unmarked(xs[i])
  }

  lemma {:induction false} InsertKeepsUnmarked(es: seq<Entry>, key: Value, value: Value)
    requires UnmarkedEntries(es) && Unmarked(key) && Unmarked(value)
    ensures UnmarkedEntries(Insert(es, key, value))
  {
    hide Unmarked;
    if es != [] && !Same(es[0].key, key) {
      InsertKeepsUnmarked(es[1..], key, value);
    }
  }

  /** Main result: on every byte string, what a reader returns holds no such marker. */
  lemma {:induction false} ReadIsUnmarked(t: TarsType, bs: Bytes, zeroCopy: bool)
    ensures var o := ReadByType(t, bs, zeroCopy);
      o.Done? ==> Unmarked(o.value) && (o.value.StructEnd? ==> t == EndType)
    decreases |bs|, 2
  {
    hide ReadStruct, ReadMap, ReadList, ReadSimpleList, ReadString, TakeUnsigned, ReadSigned;
    hide UnmarkedEntries, UnmarkedItems;
    match t {
      case BeginType => ReadStructIsUnmarked(bs, zeroCopy);
      case MapType => ReadMapIsUnmarked(bs, zeroCopy);
      case ListType => ReadListIsUnmarked(bs, zeroCopy);
      case String1 => ReadTextIsUnmarked(1, bs, zeroCopy);
      case String4 => ReadTextIsUnmarked(4, bs, zeroCopy);
      case SimpleListType => ReadBlobIsUnmarked(bs, zeroCopy);
      case _ =>
    }
  }

  lemma ReadTextIsUnmarked(k: nat, bs: Bytes, zeroCopy: bool)
    ensures var o := TakeUnsigned(k, bs); o.Done? ==>
      var s := ReadString(o.value, o.rest, zeroCopy); s.Done? ==> Unmarked(s.value) && !s.value.StructEnd?
  {
  }

  lemma ReadBlobIsUnmarked(bs: Bytes, zeroCopy: bool)
    ensures var o := ReadSimpleList(bs, zeroCopy); o.Done? ==> Unmarked(o.value) && !o.value.StructEnd?
  {
  }

  lemma {:induction false} ReadValueIsUnmarked(bs: Bytes, zeroCopy: bool)
    ensures var o := ReadValue(bs, zeroCopy); o.Done? ==> Unmarked(o.value.1)
    decreases |bs|, 0
  {
    hide ReadByType, Unmarked;
    var h := ReadHead(bs);
    if h.Done? {
      ReadIsUnmarked(h.value.1, h.rest, zeroCopy);
    }
  }

  lemma {:induction false} ReadStructIsUnmarked(bs: Bytes, zeroCopy: bool)
    ensures var o := ReadStruct(bs, zeroCopy); o.Done? ==> Unmarked(o.value) && o.value.Struct?
    decreases |bs|, 1
  {
    ReadFieldsAreUnmarked(bs, map[], zeroCopy);
    hide ReadFields;
  }

  lemma {:induction false} ReadMapIsUnmarked(bs: Bytes, zeroCopy: bool)
    ensures var o := ReadMap(bs, zeroCopy); o.Done? ==> Unmarked(o.value) && o.value.Map?
    decreases |bs|, 1
  {
    var len := ReadLength(bs, zeroCopy);
    if len.Done? {
      ReadEntriesAreUnmarked(len.value, len.rest, [], zeroCopy);
    }
    hide ReadLength, ReadEntries;
  }

  lemma {:induction false} ReadListIsUnmarked(bs: Bytes, zeroCopy: bool)
    ensures var o := ReadList(bs, zeroCopy); o.Done? ==> Unmarked(o.value) && o.value.List?
    decreases |bs|, 1
  {
    var len := ReadLength(bs, zeroCopy);
    if len.Done? {
      ReadItemsAreUnmarked(len.value, len.rest, [], zeroCopy);
    }
    hide ReadLength, ReadItems;
  }

  lemma {:induction false} ReadFieldsAreUnmarked(bs: Bytes, acc: map<U8, Value>, zeroCopy: bool)
    requires Unmarked(Struct(acc))
    ensures var o := ReadFields(bs, acc, zeroCopy); o.Done? ==> Unmarked(Struct(o.value))
    decreases |bs|, 0
  {
    var h := ReadHead(bs);
    if h.Done? && h.value.1 != EndType {
      var v := ReadByType(h.value.1, h.rest, zeroCopy);
      if v.Done? {
        ReadIsUnmarked(h.value.1, h.rest, zeroCopy);
        FieldKeepsUnmarked(acc, h.value.0, v.value);
        hide Unmarked, ReadByType, ReadHead;
        ReadFieldsAreUnmarked(v.rest, acc[h.value.0 := v.value], zeroCopy);
      }
    }
  }

  lemma FieldKeepsUnmarked(f: map<U8, Value>, tag: U8, v: Value)
    requires Unmarked(Struct(f)) && Unmarked(v) && !v.StructEnd?
    ensures Unmarked(Struct(f[tag := v]))
  {
  }

  lemma {:induction false} ReadEntriesAreUnmarked(n: nat, bs: Bytes, acc: seq<Entry>, zeroCopy: bool)
    requires UnmarkedEntries(acc)
    ensures var o := ReadEntries(n, bs, acc, zeroCopy); o.Done? ==> UnmarkedEntries(o.value)
    decreases |bs|, 1
  {
    if n > 0 {
      hide ReadValue, Unmarked, UnmarkedEntries, Insert;
      var k := ReadValue(bs, zeroCopy);
      if k.Done? {
        ReadValueIsUnmarked(bs, zeroCopy);
        var v := ReadValue(k.rest, zeroCopy);
        if v.Done? {
          ReadValueIsUnmarked(k.rest, zeroCopy);
          InsertKeepsUnmarked(acc, k.value.1, v.value.1);
          ReadEntriesAreUnmarked(n - 1, v.rest, Insert(acc, k.value.1, v.value.1), zeroCopy);
        }
      }
    }
  }

  lemma {:induction false} ReadItemsAreUnmarked(n: nat, bs: Bytes, acc: seq<Value>, zeroCopy: bool)
    requires UnmarkedItems(acc)
    ensures var o := ReadItems(n, bs, acc, zeroCopy); o.Done? ==> UnmarkedItems(o.value)
    decreases |bs|, 1
  {
    if n > 0 {
      hide ReadValue, Unmarked;
      var v := ReadValue(bs, zeroCopy);
      if v.Done? {
        ReadValueIsUnmarked(bs, zeroCopy);
        ReadItemsAreUnmarked(n - 1, v.rest, acc + [v.value.1], zeroCopy);
      }
    }
  }

  /** Strings are UTF-8 and lengths fit their fields; nothing is said of markers. */
  predicate SizesFit(v: Value)
    decreases v
  {
    match v
    case Str(s) => ValidUtf8(s) && |s| < 0x1_0000_0000
    case StrRef(s) => ValidUtf8(s) && |s| < 0x1_0000_0000
    case Struct(f) => forall t | t in f.Keys :: SizesFit(f[t])
    case Map(es) =>
      |es| < 0x8000_0000 && forall i | 0 <= i < |es| :: SizesFit(es[i].key) && SizesFit(es[i].value)
    case List(xs) => |xs| < 0x8000_0000 && forall i | 0 <= i < |xs| :: SizesFit(xs[i])
    case SimpleList(b) => |b| < 0x8000_0000
    case Binary(b) => |b| < 0x8000_0000
    case _ => true
  }

  lemma {:induction false} WellFormedSplits(v: Value)
    ensures WellFormed(v) <==> SizesFit(v) && Unmarked(v)
    decreases v
  {
    match v {
      case Struct(f) =>
        forall t | t in f.Keys ensures WellFormedField(f[t]) <==> SizesFit(f[t]) && Unmarked(f[t]) && !f[t].StructEnd? {
          WellFormedSplits(f[t]);
        }
      case Map(es) =>
        forall i | 0 <= i < |es|
          ensures WellFormed(es[i].key) && WellFormed(es[i].value)
            <==> SizesFit(es[i].key) && SizesFit(es[i].value) && UnmarkedEntry(es[i])
        {
          assert es[i] in es;
          WellFormedSplits(es[i].key);
          WellFormedSplits(es[i].value);
        }
      case List(xs) =>
        forall i | 0 <= i < |xs| ensures WellFormed(xs[i]) <==> SizesFit(xs[i]) && Unmarked(xs[i]) {
          WellFormedSplits(xs[i]);
        }
      case _ =>
    }
  }

  lemma {:induction false} NormKeepsMarkers(v: Value, zeroCopy: bool)
    requires KeepsEntries(v, zeroCopy)
    ensures Unmarked(Norm(v, zeroCopy)) <==> Unmarked(v)
    ensures Norm(v, zeroCopy).StructEnd? <==> v.StructEnd?
    decreases v, 1
  {
    hide UnmarkedEntries, UnmarkedItems, NormEntries, NormItems, InsertAll, DistinctKeys;
    match v {
      case Struct(f) => NormKeepsFieldMarkers(f, v, zeroCopy);
      case Map(es) => NormKeepsEntryMarkers(es, zeroCopy);
      case List(xs) => NormKeepsItemMarkers(xs, zeroCopy);
      case _ =>
    }
  }

  lemma {:induction false} NormKeepsFieldMarkers(f: map<U8, Value>, v: Value, zeroCopy: bool)
    requires v == Struct(f) && KeepsEntries(v, zeroCopy)
    ensures Unmarked(Norm(v, zeroCopy)) <==> Unmarked(v)
    decreases v, 0
  {
    forall t | t in f.Keys
      ensures Unmarked(Norm(f[t], zeroCopy)) <==> Unmarked(f[t])
      ensures Norm(f[t], zeroCopy).StructEnd? <==> f[t].StructEnd?
    {
      NormKeepsMarkers(f[t], zeroCopy);
    }
    var g := Norm(v, zeroCopy).fields;
    assert g.Keys == f.Keys && forall t | t in f.Keys :: g[t] == Norm(f[t], zeroCopy);
    hide Norm;
  }

  lemma {:induction false} NormKeepsEntryMarkers(es: seq<Entry>, zeroCopy: bool)
    requires KeepsEntries(Map(es), zeroCopy)
    ensures Unmarked(Norm(Map(es), zeroCopy)) <==> Unmarked(Map(es))
    ensures Norm(Map(es), zeroCopy).Map?
    decreases es
  {
    var fs := NormEntries(es, zeroCopy);
    MapKeepsEveryEntry(es, zeroCopy);
    forall i | 0 <= i < |es|
      ensures Unmarked(fs[i].key) <==> Unmarked(es[i].key)
      ensures Unmarked(fs[i].value) <==> Unmarked(es[i].value)
    {
      NormEntriesAt(es, i, zeroCopy);
      assert es[i] in es;
      NormKeepsMarkers(es[i].key, zeroCopy);
      NormKeepsMarkers(es[i].value, zeroCopy);
    }
    hide Norm, NormEntries, DistinctKeys;
    assert forall i | 0 <= i < |es| :: UnmarkedEntry(fs[i]) <==> UnmarkedEntry(es[i]);
  }

  lemma {:induction false} NormKeepsItemMarkers(xs: seq<Value>, zeroCopy: bool)
    requires KeepsEntries(List(xs), zeroCopy)
    ensures Unmarked(Norm(List(xs), zeroCopy)) <==> Unmarked(List(xs))
    decreases xs
  {
    var ys := NormItems(xs, zeroCopy);
    assert Norm(List(xs), zeroCopy) == List(ys);
    forall i | 0 <= i < |xs| ensures Unmarked(ys[i]) <==> Unmarked(xs[i]) {
      NormItemsAt(xs, i, zeroCopy);
      NormKeepsMarkers(xs[i], zeroCopy);
    }
    hide Norm, NormItems;
  }

  /** A value whose normal form still holds a marker never comes back, whatever follows it. */
  lemma MarkerBreaksRoundTrip(tag: U8, v: Value, r: Bytes, zeroCopy: bool)
    requires !Unmarked(Norm(v, zeroCopy))
    ensures ReadValue(Write(tag, v) + r, zeroCopy) != Done((tag, Norm(v, zeroCopy)), r)
  {
    ReadValueIsUnmarked(Write(tag, v) + r, zeroCopy);
    hide ReadValue, Write, Norm, Unmarked;
  }

  /**
   * Main result: for values of fitting size whose maps keep their entries, the round trip holds exactly when the
   * value holds no bare struct marker.
   */
  lemma RoundTripsExactlyWhenUnmarked(tag: U8, v: Value, r: Bytes, zeroCopy: bool)
    requires SizesFit(v) && KeepsEntries(v, zeroCopy)
    ensures ReadValue(Write(tag, v) + r, zeroCopy) == Done((tag, Norm(v, zeroCopy)), r) <==> Unmarked(v)
  {
    hide *;
    WellFormedSplits(v);
    NormKeepsMarkers(v, zeroCopy);
    if Unmarked(v) {
      ValueRoundTrip(tag, v, r, zeroCopy);
    } else {
      MarkerBreaksRoundTrip(tag, v, r, zeroCopy);
    }
  }
}
