/** The owned and the zero-copy deserializer read the same things from the same bytes. */
module TarsModes {
  import opened ByteStrings
  import opened TarsTypes
  import opened TarsReader

  /** Turns every borrowed string into an owned one. */
  function Own(v: Value): Value
    decreases v
  {
    match v
    case StrRef(s) => Str(s)
    case Struct(f) => Struct(map t | t in f.Keys :: Own(f[t]))
    case Map(es) => Map(OwnEntries(es))
    case List(xs) => List(OwnItems(xs))
    case _ => v
  }

  function OwnEntries(es: seq<Entry>): (fs: seq<Entry>)
    ensures |fs| == |es|
    decreases es
  {
    if es == [] then [] else [OwnEntry(es[0])] + OwnEntries(es[1..])
  }

  function OwnEntry(e: Entry): Entry
    decreases e
  {
    Entry(Own(e.key), Own(e.value))
  }

  function OwnItems(xs: seq<Value>): (ys: seq<Value>)
    ensures |ys| == |xs|
    decreases xs
  {
    if xs == [] then [] else [Own(xs[0])] + OwnItems(xs[1..])
  }

  /** Every string in the value is borrowed and UTF-8, as in everything the zero-copy deserializer builds. */
  predicate Borrowed(v: Value)
    decreases v
  {
    match v
    case Str(_) => false
    case StrRef(s) => ValidUtf8(s)
    case Struct(f) => forall t | t in f.Keys :: Borrowed(f[t])
    case Map(es) => BorrowedEntries(es)
    case List(xs) => BorrowedItems(xs)
    case _ => true
  }

  predicate BorrowedEntries(es: seq<Entry>)
    decreases es, 1
  {
    forall i | 0 <= i < |es| :: BorrowedEntry(es[i])
  }

  predicate BorrowedEntry(e: Entry)
    decreases e, 0
  {
    Borrowed(e.key) && Borrowed(e.value)
  }

  predicate BorrowedItems(xs: seq<Value>)
    decreases xs
  {
    forall i | 0 <= i < |xs| :: Borrowed(xs[i])
  }

  lemma {:induction false} OwnEntriesAt(es: seq<Entry>, i: nat)
    requires i < |es|
    ensures OwnEntries(es)[i] == OwnEntry(es[i])
  {
    if i > 0 {
      OwnEntriesAt(es[1..], i - 1);
    }
  }

  lemma {:induction false} OwnItemsAt(xs: seq<Value>, i: nat)
    requires i < |xs|
    ensures OwnItems(xs)[i] == Own(xs[i])
  {
    if i > 0 {
      OwnItemsAt(xs[1..], i - 1);
    }
  }

  lemma {:induction false} OwnKeepsFieldEquality(a: Value, b: Value)
    requires a.Struct? && b.Struct? && Borrowed(a) && Borrowed(b)
    ensures SameFields(Own(a), Own(b)) <==> SameFields(a, b)
    decreases a, 0
  {
    var f, g := a.fields, b.fields;
    assert Own(a).fields == (map t | t in f.Keys :: Own(f[t])) && Own(b).fields == map t | t in g.Keys :: Own(g[t]);
    forall t | t in f.Keys && t in g.Keys ensures Same(Own(a).fields[t], Own(b).fields[t]) <==> Same(f[t], g[t]) {
      OwnKeepsEquality(f[t], g[t]);
    }
    hide Same, Own, Borrowed;
    assert Own(a).fields.Keys == f.Keys && Own(b).fields.Keys == g.Keys;
  }

  /** Owning the strings makes no two different borrowed values equal, and no two equal ones different. */
  lemma {:induction false} OwnKeepsEquality(a: Value, b: Value)
    requires Borrowed(a) && Borrowed(b)
    ensures Same(Own(a), Own(b)) <==> Same(a, b)
    decreases a, 1
  {
    hide SameFields, SameEntries, SameItems, OwnEntries, OwnItems, BorrowedEntries, BorrowedItems;
    match a {
      case Struct(_) =>
        if b.Struct? {
          OwnKeepsFieldEquality(a, b);
        }
      case Map(es) =>
        if b.Map? {
          OwnKeepsEntryEquality(es, b.entries);
        }
      case List(xs) =>
        if b.List? {
          OwnKeepsItemEquality(xs, b.items);
        }
      case _ =>
    }
  }

  lemma {:induction false} OwnKeepsItemEquality(xs: seq<Value>, ys: seq<Value>)
    requires BorrowedItems(xs) && BorrowedItems(ys)
    ensures SameItems(OwnItems(xs), OwnItems(ys)) <==> SameItems(xs, ys)
    decreases xs, 2
  {
    hide Same, Own;
    if |xs| == |ys| {
      forall i | 0 <= i < |xs| ensures Same(OwnItems(xs)[i], OwnItems(ys)[i]) <==> Same(xs[i], ys[i]) {
        OwnItemsAt(xs, i);
        OwnItemsAt(ys, i);
        OwnKeepsEquality(xs[i], ys[i]);
      }
    }
  }

  lemma {:induction false} OwnKeepsEntryEquality(es: seq<Entry>, fs: seq<Entry>)
    requires BorrowedEntries(es) && BorrowedEntries(fs)
    ensures SameEntries(OwnEntries(es), OwnEntries(fs)) <==> SameEntries(es, fs)
    decreases es, 2
  {
    hide Matches, Covers, OwnEntries;
    forall i | 0 <= i < |es| ensures Matches(OwnEntries(es)[i], OwnEntries(fs)) <==> Matches(es[i], fs) {
      OwnKeepsMatch(es, fs, i);
    }
    forall j | 0 <= j < |fs| ensures Covers(OwnEntries(es), OwnEntries(fs)[j]) <==> Covers(es, fs[j]) {
      OwnKeepsCover(es, fs, j);
    }
  }

  lemma {:induction false} OwnKeepsMatch(es: seq<Entry>, fs: seq<Entry>, i: nat)
    requires i < |es| && BorrowedEntries(es) && BorrowedEntries(fs)
    ensures Matches(OwnEntries(es)[i], OwnEntries(fs)) <==> Matches(es[i], fs)
    decreases es, 1
  {
    hide SameEntry, OwnEntry, BorrowedEntry;
    OwnEntriesAt(es, i);
    forall j | 0 <= j < |fs| ensures SameEntry(OwnEntries(es)[i], OwnEntries(fs)[j]) <==> SameEntry(es[i], fs[j]) {
      OwnEntriesAt(fs, j);
      OwnKeepsOneEntry(es[i], fs[j]);
    }
  }

  lemma {:induction false} OwnKeepsCover(es: seq<Entry>, fs: seq<Entry>, j: nat)
    requires j < |fs| && BorrowedEntries(es) && BorrowedEntries(fs)
    ensures Covers(OwnEntries(es), OwnEntries(fs)[j]) <==> Covers(es, fs[j])
    decreases es, 1
  {
    hide SameEntry, OwnEntry, BorrowedEntry;
    OwnEntriesAt(fs, j);
    forall i | 0 <= i < |es| ensures SameEntry(OwnEntries(es)[i], OwnEntries(fs)[j]) <==> SameEntry(es[i], fs[j]) {
      OwnEntriesAt(es, i);
      OwnKeepsOneEntry(es[i], fs[j]);
    }
  }

  lemma {:induction false} OwnKeepsOneEntry(e: Entry, f: Entry)
    requires BorrowedEntry(e) && BorrowedEntry(f)
    ensures SameEntry(OwnEntry(e), OwnEntry(f)) <==> SameEntry(e, f)
    decreases e
  {
    OwnKeepsEquality(e.key, f.key);
    OwnKeepsEquality(e.value, f.value);
  }

  lemma {:induction false} OwnInsert(es: seq<Entry>, key: Value, value: Value)
    requires BorrowedEntries(es) && Borrowed(key) && Borrowed(value)
    ensures BorrowedEntries(Insert(es, key, value))
    ensures OwnEntries(Insert(es, key, value)) == Insert(OwnEntries(es), Own(key), Own(value))
    decreases es
  {
    if es == [] {
      assert BorrowedEntry(Entry(key, value));
    } else {
      assert BorrowedEntry(es[0]);
      OwnKeepsEquality(es[0].key, key);
      assert OwnEntries(es)[1..] == OwnEntries(es[1..]);
      if Same(es[0].key, key) {
        assert BorrowedEntry(Entry(es[0].key, value));
      } else {
        OwnInsert(es[1..], key, value);
      }
    }
  }

  /** The one difference in errors: above 256 bytes the owned mode reports bad UTF-8 as `Utf8`. */
  predicate SameError(borrowed: TarsError, owned: TarsError)
  {
    owned == borrowed || (borrowed == InvalidUtf8 && owned == Utf8)
  }

  ghost predicate SameFailure<T, U>(z: Outcome<T>, o: Outcome<U>)
  {
    || (z.Panicked? && o.Panicked?)
    || (z.Failed? && o.Failed? && z.rest == o.rest && SameError(z.error, o.error))
  }

  ghost predicate Simulates(z: Outcome<Value>, o: Outcome<Value>)
  {
    if z.Done? then Borrowed(z.value) && o == Done(Own(z.value), z.rest) else SameFailure(z, o)
  }

  ghost predicate SimulatesTagged(z: Outcome<(U8, Value)>, o: Outcome<(U8, Value)>)
  {
    if z.Done? then Borrowed(z.value.1) && o == Done((z.value.0, Own(z.value.1)), z.rest) else SameFailure(z, o)
  }

  ghost predicate SimulatesLength(z: Outcome<nat>, o: Outcome<nat>)
  {
    if z.Done? then o == z else SameFailure(z, o)
  }

  ghost predicate SimulatesFields(z: Outcome<map<U8, Value>>, o: Outcome<map<U8, Value>>)
  {
    if z.Done? then Borrowed(Struct(z.value)) && o == Done(Own(Struct(z.value)).fields, z.rest) else SameFailure(z, o)
  }

  ghost predicate SimulatesEntries(z: Outcome<seq<Entry>>, o: Outcome<seq<Entry>>)
  {
    if z.Done? then BorrowedEntries(z.value) && o == Done(OwnEntries(z.value), z.rest) else SameFailure(z, o)
  }

  ghost predicate SimulatesItems(z: Outcome<seq<Value>>, o: Outcome<seq<Value>>)
  {
    if z.Done? then BorrowedItems(z.value) && o == Done(OwnItems(z.value), z.rest) else SameFailure(z, o)
  }

  /**
   * Main result: on every byte string, well-formed or not, the two modes consume the same bytes and end the
   * same way, and the owned value is the borrowed one with its strings owned.
   */
  lemma {:induction false} ModesAgree(t: TarsType, bs: Bytes)
    ensures Simulates(ReadByType(t, bs, true), ReadByType(t, bs, false))
    decreases |bs|, 2
  {
    hide ReadStruct, ReadMap, ReadList, ReadSimpleList, ValidUtf8, Pow256, FromBigEndian;
    match t {
      case BeginType => StructsAgree(bs);
      case MapType => MapsAgree(bs);
      case ListType => ListsAgree(bs);
      case SimpleListType => SimpleListsAgree(bs);
      case _ =>
    }
  }

  lemma {:induction false} ValuesAgree(bs: Bytes)
    ensures SimulatesTagged(ReadValue(bs, true), ReadValue(bs, false))
    decreases |bs|, 0
  {
    var head := ReadHead(bs);
    if head.Done? {
      ModesAgree(head.value.1, head.rest);
    }
  }

  lemma {:induction false} LengthsAgree(bs: Bytes)
    ensures SimulatesLength(ReadLength(bs, true), ReadLength(bs, false))
    decreases |bs|, 0
  {
    var head := ReadHead(bs);
    if head.Done? {
      ModesAgree(head.value.1, head.rest);
    }
  }

  lemma {:induction false} StructsAgree(bs: Bytes)
    ensures Simulates(ReadStruct(bs, true), ReadStruct(bs, false))
    decreases |bs|, 1
  {
    FieldsAgree(bs, map[]);
  }

  lemma {:induction false} MapsAgree(bs: Bytes)
    ensures Simulates(ReadMap(bs, true), ReadMap(bs, false))
    decreases |bs|, 1
  {
    LengthsAgree(bs);
    var len := ReadLength(bs, true);
    if len.Done? {
      EntriesAgree(len.value, len.rest, []);
    }
  }

  lemma {:induction false} ListsAgree(bs: Bytes)
    ensures Simulates(ReadList(bs, true), ReadList(bs, false))
    decreases |bs|, 1
  {
    LengthsAgree(bs);
    var len := ReadLength(bs, true);
    if len.Done? {
      ItemsAgree(len.value, len.rest, []);
    }
  }

  lemma {:induction false} SimpleListsAgree(bs: Bytes)
    ensures Simulates(ReadSimpleList(bs, true), ReadSimpleList(bs, false))
    decreases |bs|, 1
  {
    var head := ReadHead(bs);
    if head.Done? {
      LengthsAgree(head.rest);
    }
  }

  lemma OwnField(f: map<U8, Value>, tag: U8, v: Value)
    requires Borrowed(Struct(f)) && Borrowed(v)
    ensures Borrowed(Struct(f[tag := v]))
    ensures Own(Struct(f)).Struct? && Own(Struct(f[tag := v])) == Struct(Own(Struct(f)).fields[tag := Own(v)])
  {
    assert Own(Struct(f[tag := v])).fields == Own(Struct(f)).fields[tag := Own(v)];
  }

  lemma {:induction false} FieldsAgree(bs: Bytes, acc: map<U8, Value>)
    requires Borrowed(Struct(acc))
    ensures SimulatesFields(ReadFields(bs, acc, true), ReadFields(bs, Own(Struct(acc)).fields, false))
    decreases |bs|, 0
  {
    assert Own(Struct(acc)).Struct?;
    hide Own, Borrowed, ReadByType;
    var head := ReadHead(bs);
    if head.Done? && head.value.1 != EndType {
      ModesAgree(head.value.1, head.rest);
      var v := ReadByType(head.value.1, head.rest, true);
      if v.Done? {
        OwnField(acc, head.value.0, v.value);
        FieldsAgree(v.rest, acc[head.value.0 := v.value]);
      }
    }
  }

  lemma {:induction false} EntriesAgree(n: nat, bs: Bytes, acc: seq<Entry>)
    requires BorrowedEntries(acc)
    ensures SimulatesEntries(ReadEntries(n, bs, acc, true), ReadEntries(n, bs, OwnEntries(acc), false))
    decreases |bs|, 1
  {
    if n > 0 {
      ValuesAgree(bs);
      var k := ReadValue(bs, true);
      if k.Done? {
        ValuesAgree(k.rest);
        var v := ReadValue(k.rest, true);
        if v.Done? {
          OwnInsert(acc, k.value.1, v.value.1);
          EntriesAgree(n - 1, v.rest, Insert(acc, k.value.1, v.value.1));
        }
      }
    }
  }

  lemma {:induction false} OwnAppend(xs: seq<Value>, x: Value)
    ensures OwnItems(xs + [x]) == OwnItems(xs) + [Own(x)]
    decreases xs
  {
    if xs == [] {
      assert xs + [x] == [x];
    } else {
      assert (xs + [x])[1..] == xs[1..] + [x];
      OwnAppend(xs[1..], x);
    }
  }

  lemma {:induction false} ItemsAgree(n: nat, bs: Bytes, acc: seq<Value>)
    requires BorrowedItems(acc)
    ensures SimulatesItems(ReadItems(n, bs, acc, true), ReadItems(n, bs, OwnItems(acc), false))
    decreases |bs|, 1
  {
    if n > 0 {
      ValuesAgree(bs);
      var v := ReadValue(bs, true);
      if v.Done? {
        OwnAppend(acc, v.value.1);
        ItemsAgree(n - 1, v.rest, acc + [v.value.1]);
      }
    }
  }
}
