/** What the wire normal form keeps of a value, and what it loses. */
module TarsNormalForm {
  import opened TarsTypes
  import opened TarsRoundTrip

  lemma {:induction false} SameReflexive(v: Value)
    ensures Same(v, v)
    decreases v
  {
    match v {
      case Struct(f) => forall t | t in f.Keys { SameReflexive(f[t]); }
      case Map(es) =>
        forall i | 0 <= i < |es| ensures Matches(es[i], es) && Covers(es, es[i]) { SameEntryReflexive(es[i]); }
      case List(xs) => forall i | 0 <= i < |xs| { SameReflexive(xs[i]); }
      case _ =>
    }
  }

  lemma {:induction false} SameEntryReflexive(e: Entry)
    ensures SameEntry(e, e)
    decreases e
  {
    SameReflexive(e.key);
    SameReflexive(e.value);
  }

  lemma {:induction false} SameSymmetric(a: Value, b: Value)
    requires Same(a, b)
    ensures Same(b, a)
    decreases a
  {
    match a {
      case Struct(f) => forall t | t in f.Keys { SameSymmetric(f[t], b.fields[t]); }
      case Map(es) => SameEntriesSymmetric(es, b.entries);
      case List(xs) => forall i | 0 <= i < |xs| { SameSymmetric(xs[i], b.items[i]); }
      case _ =>
    }
  }

  lemma {:induction false} SameEntriesSymmetric(es: seq<Entry>, fs: seq<Entry>)
    requires SameEntries(es, fs)
    ensures SameEntries(fs, es)
    decreases es
  {
    forall j | 0 <= j < |fs| ensures Matches(fs[j], es) {
      assert Covers(es, fs[j]);
      var i :| 0 <= i < |es| && SameEntry(es[i], fs[j]);
      SameEntrySymmetric(es[i], fs[j]);
    }
    forall i | 0 <= i < |es| ensures Covers(fs, es[i]) {
      assert Matches(es[i], fs);
      var j :| 0 <= j < |fs| && SameEntry(es[i], fs[j]);
      SameEntrySymmetric(es[i], fs[j]);
    }
  }

  lemma {:induction false} SameEntrySymmetric(e: Entry, f: Entry)
    requires SameEntry(e, f)
    ensures SameEntry(f, e)
    decreases e
  {
    SameSymmetric(e.key, f.key);
    SameSymmetric(e.value, f.value);
  }

  lemma {:induction false} SameTransitive(a: Value, b: Value, c: Value)
    requires Same(a, b) && Same(b, c)
    ensures Same(a, c)
    decreases a
  {
    match a {
      case Struct(f) => forall t | t in f.Keys { SameTransitive(f[t], b.fields[t], c.fields[t]); }
      case Map(es) => SameEntriesTransitive(es, b.entries, c.entries);
      case List(xs) => forall i | 0 <= i < |xs| { SameTransitive(xs[i], b.items[i], c.items[i]); }
      case _ =>
    }
  }

  lemma {:induction false} SameEntriesTransitive(es: seq<Entry>, fs: seq<Entry>, gs: seq<Entry>)
    requires SameEntries(es, fs) && SameEntries(fs, gs)
    ensures SameEntries(es, gs)
    decreases es
  {
    forall i | 0 <= i < |es| ensures Matches(es[i], gs) {
      assert Matches(es[i], fs);
      var j :| 0 <= j < |fs| && SameEntry(es[i], fs[j]);
      assert Matches(fs[j], gs);
      var k :| 0 <= k < |gs| && SameEntry(fs[j], gs[k]);
      SameEntryTransitive(es[i], fs[j], gs[k]);
    }
    forall k | 0 <= k < |gs| ensures Covers(es, gs[k]) {
      assert Covers(fs, gs[k]);
      var j :| 0 <= j < |fs| && SameEntry(fs[j], gs[k]);
      assert Covers(es, fs[j]);
      var i :| 0 <= i < |es| && SameEntry(es[i], fs[j]);
      SameEntryTransitive(es[i], fs[j], gs[k]);
    }
  }

  lemma {:induction false} SameEntryTransitive(e: Entry, f: Entry, g: Entry)
    requires SameEntry(e, f) && SameEntry(f, g)
    ensures SameEntry(e, g)
    decreases e
  {
    SameTransitive(e.key, f.key, g.key);
    SameTransitive(e.value, f.value, g.value);
  }

  ghost predicate DistinctKeys(es: seq<Entry>)
  {
    forall i, j | 0 <= i < j < |es| :: !Same(es[i].key, es[j].key)
  }

  ghost predicate Fresh(es: seq<Entry>, key: Value)
  {
    forall i | 0 <= i < |es| :: !Same(es[i].key, key)
  }

  lemma {:induction false} InsertFresh(es: seq<Entry>, key: Value, value: Value)
    ensures Fresh(es, key) ==> Insert(es, key, value) == es + [Entry(key, value)]
    ensures !Fresh(es, key) ==>
      |Insert(es, key, value)| == |es| && forall i | 0 <= i < |es| :: Insert(es, key, value)[i].key == es[i].key
  {
    if es != [] && !Same(es[0].key, key) {
      InsertFresh(es[1..], key, value);
      assert Fresh(es, key) <==> Fresh(es[1..], key);
    }
  }

  lemma {:induction false} InsertKeepsDistinct(es: seq<Entry>, key: Value, value: Value)
    requires DistinctKeys(es)
    ensures DistinctKeys(Insert(es, key, value))
  {
    InsertFresh(es, key, value);
  }

  lemma {:induction false} InsertAllKeepsDistinct(acc: seq<Entry>, es: seq<Entry>)
    requires DistinctKeys(acc)
    ensures DistinctKeys(InsertAll(acc, es))
    decreases es
  {
    if es != [] {
      InsertKeepsDistinct(acc, es[0].key, es[0].value);
      InsertAllKeepsDistinct(Insert(acc, es[0].key, es[0].value), es[1..]);
    }
  }

  /** Inserting entries one by one loses none of them exactly when all their keys differ. */
  lemma {:induction false} InsertAllLosesNothing(acc: seq<Entry>, es: seq<Entry>)
    requires DistinctKeys(acc)
    ensures DistinctKeys(acc + es) ==> InsertAll(acc, es) == acc + es
    ensures !DistinctKeys(acc + es) ==> |InsertAll(acc, es)| < |acc| + |es|
    decreases es
  {
    if es == [] {
      assert acc + es == acc;
    } else {
      var e := es[0];
      InsertFresh(acc, e.key, e.value);
      InsertKeepsDistinct(acc, e.key, e.value);
      if Fresh(acc, e.key) {
        assert (acc + [e]) + es[1..] == acc + es;
        InsertAllLosesNothing(acc + [e], es[1..]);
      } else {
        var i :| 0 <= i < |acc| && Same(acc[i].key, e.key);
        assert (acc + es)[i] == acc[i] && (acc + es)[|acc|] == e;
      }
    }
  }

  /** A written map reads back with as many entries as it had exactly when the normal forms of its keys differ. */
  lemma MapKeepsEveryEntry(es: seq<Entry>, zeroCopy: bool)
    ensures |Norm(Map(es), zeroCopy).entries| == |es| <==> DistinctKeys(NormEntries(es, zeroCopy))
    ensures DistinctKeys(NormEntries(es, zeroCopy)) ==> Norm(Map(es), zeroCopy) == Map(NormEntries(es, zeroCopy))
  {
    var fs := NormEntries(es, zeroCopy);
    hide Same, NormEntries, InsertAll, DistinctKeys;
    assert Norm(Map(es), zeroCopy) == Map(InsertAll([], fs));
    hide Norm;
    InsertAllLosesNothing([], fs);
    assert [] + fs == fs;
  }

  lemma {:induction false} NormEntriesAt(es: seq<Entry>, i: nat, zeroCopy: bool)
    requires i < |es|
    ensures NormEntries(es, zeroCopy)[i] == NormEntry(es[i], zeroCopy)
  {
    if i > 0 {
      NormEntriesAt(es[1..], i - 1, zeroCopy);
    }
  }

  lemma {:induction false} NormItemsAt(xs: seq<Value>, i: nat, zeroCopy: bool)
    requires i < |xs|
    ensures NormItems(xs, zeroCopy)[i] == Norm(xs[i], zeroCopy)
  {
    if i > 0 {
      NormItemsAt(xs[1..], i - 1, zeroCopy);
    }
  }

  lemma NormMatches(es: seq<Entry>, fs: seq<Entry>, i: nat, zeroCopy: bool)
    requires i < |es| && es[i] in multiset(fs)
    ensures Matches(NormEntries(es, zeroCopy)[i], NormEntries(fs, zeroCopy))
    ensures Covers(NormEntries(fs, zeroCopy), NormEntries(es, zeroCopy)[i])
  {
    var j :| 0 <= j < |fs| && fs[j] == es[i];
    NormEntriesAt(es, i, zeroCopy);
    NormEntriesAt(fs, j, zeroCopy);
    SameEntryReflexive(NormEntry(es[i], zeroCopy));
  }

  /** One map, iterated in two orders, reads back as the same value, also if maps inside it lose entries. */
  lemma PermutedEntriesComeBackSame(es: seq<Entry>, fs: seq<Entry>, zeroCopy: bool)
    requires multiset(es) == multiset(fs)
    requires DistinctKeys(NormEntries(es, zeroCopy)) && DistinctKeys(NormEntries(fs, zeroCopy))
    ensures Same(Norm(Map(es), zeroCopy), Norm(Map(fs), zeroCopy))
  {
    MapKeepsEveryEntry(es, zeroCopy);
    MapKeepsEveryEntry(fs, zeroCopy);
    assert |es| == |multiset(es)| == |multiset(fs)| == |fs|;
    forall i | 0 <= i < |es|
      ensures Matches(NormEntries(es, zeroCopy)[i], NormEntries(fs, zeroCopy))
    {
      assert es[i] in multiset(es);
      NormMatches(es, fs, i, zeroCopy);
    }
    forall j | 0 <= j < |fs|
      ensures Covers(NormEntries(es, zeroCopy), NormEntries(fs, zeroCopy)[j])
    {
      assert fs[j] in multiset(fs);
      NormMatches(fs, es, j, zeroCopy);
    }
  }

  /** In every map inside the value the keys stay different after narrowing, so that no entry is lost. */
  ghost predicate KeepsEntries(v: Value, zeroCopy: bool)
    decreases v
  {
    match v
    case Struct(f) => forall t | t in f.Keys :: KeepsEntries(f[t], zeroCopy)
    case Map(es) =>
      && DistinctKeys(NormEntries(es, zeroCopy))
      && forall i | 0 <= i < |es| :: KeepsEntries(es[i].key, zeroCopy) && KeepsEntries(es[i].value, zeroCopy)
    case List(xs) => forall i | 0 <= i < |xs| :: KeepsEntries(xs[i], zeroCopy)
    case _ => true
  }

  /**
   * Main result: the orders in which hash maps happen to iterate, at any depth, do not show in the value that is
   * read back.
   */
  lemma {:induction false} IterationOrderIsIrrelevant(a: Value, b: Value, zeroCopy: bool)
    requires Same(a, b) && KeepsEntries(a, zeroCopy) && KeepsEntries(b, zeroCopy)
    ensures Same(Norm(a, zeroCopy), Norm(b, zeroCopy))
    decreases a, 1
  {
    match a {
      case Struct(f) =>
        forall t | t in f.Keys ensures Same(Norm(f[t], zeroCopy), Norm(b.fields[t], zeroCopy)) {
          IterationOrderIsIrrelevant(f[t], b.fields[t], zeroCopy);
        }
      case Map(es) => EntryOrderIsIrrelevant(es, b.entries, zeroCopy);
      case List(xs) =>
        forall i | 0 <= i < |xs|
          ensures Same(NormItems(xs, zeroCopy)[i], NormItems(b.items, zeroCopy)[i])
        {
          NormItemsAt(xs, i, zeroCopy);
          NormItemsAt(b.items, i, zeroCopy);
          IterationOrderIsIrrelevant(xs[i], b.items[i], zeroCopy);
        }
      case _ =>
    }
  }

  lemma {:induction false} EntryOrderIsIrrelevant(es: seq<Entry>, fs: seq<Entry>, zeroCopy: bool)
    requires SameEntries(es, fs) && KeepsEntries(Map(es), zeroCopy) && KeepsEntries(Map(fs), zeroCopy)
    ensures Same(Norm(Map(es), zeroCopy), Norm(Map(fs), zeroCopy))
    decreases es, 1
  {
    var ns, ms := NormEntries(es, zeroCopy), NormEntries(fs, zeroCopy);
    MapKeepsEveryEntry(es, zeroCopy);
    MapKeepsEveryEntry(fs, zeroCopy);
    forall i | 0 <= i < |es| ensures Matches(ns[i], ms) {
      assert Matches(es[i], fs);
      var j :| 0 <= j < |fs| && SameEntry(es[i], fs[j]);
      SameEntriesStaySame(es, fs, i, j, zeroCopy);
    }
    forall j | 0 <= j < |fs| ensures Covers(ns, ms[j]) {
      assert Covers(es, fs[j]);
      var i :| 0 <= i < |es| && SameEntry(es[i], fs[j]);
      SameEntriesStaySame(es, fs, i, j, zeroCopy);
    }
    assert SameEntries(ns, ms);
  }

  lemma {:induction false} SameEntriesStaySame(es: seq<Entry>, fs: seq<Entry>, i: nat, j: nat, zeroCopy: bool)
    requires i < |es| && j < |fs| && SameEntry(es[i], fs[j])
    requires KeepsEntries(Map(es), zeroCopy) && KeepsEntries(Map(fs), zeroCopy)
    ensures SameEntry(NormEntries(es, zeroCopy)[i], NormEntries(fs, zeroCopy)[j])
    decreases es, 0
  {
    NormEntriesAt(es, i, zeroCopy);
    NormEntriesAt(fs, j, zeroCopy);
    assert es[i] in es;
    IterationOrderIsIrrelevant(es[i].key, fs[j].key, zeroCopy);
    IterationOrderIsIrrelevant(es[i].value, fs[j].value, zeroCopy);
  }

  /** Normal forms are stable: writing and reading a value a second time changes nothing more. */
  lemma {:induction false} NormIsIdempotent(v: Value, zeroCopy: bool)
    ensures Norm(Norm(v, zeroCopy), zeroCopy) == Norm(v, zeroCopy)
    decreases v
  {
    match v {
      case Struct(f) =>
        forall t | t in f.Keys { NormIsIdempotent(f[t], zeroCopy); }
        assert Norm(Norm(v, zeroCopy), zeroCopy).fields == Norm(v, zeroCopy).fields;
      case Map(es) => NormMapIsIdempotent(es, zeroCopy);
      case List(xs) => NormItemsIsIdempotent(xs, zeroCopy);
      case _ =>
    }
  }

  lemma {:induction false} NormItemsIsIdempotent(xs: seq<Value>, zeroCopy: bool)
    ensures NormItems(NormItems(xs, zeroCopy), zeroCopy) == NormItems(xs, zeroCopy)
    decreases xs
  {
    if xs != [] {
      NormIsIdempotent(xs[0], zeroCopy);
      NormItemsIsIdempotent(xs[1..], zeroCopy);
      assert NormItems(xs, zeroCopy)[1..] == NormItems(xs[1..], zeroCopy);
    }
  }

  /** An entry whose key and value are their own normal forms. */
  ghost predicate Normal(e: Entry, zeroCopy: bool)
  {
    NormEntry(e, zeroCopy) == e
  }

  lemma {:induction false} NormMapIsIdempotent(es: seq<Entry>, zeroCopy: bool)
    ensures Norm(Norm(Map(es), zeroCopy), zeroCopy) == Norm(Map(es), zeroCopy)
    decreases es, 1
  {
    NormEntriesAreNormal(es, zeroCopy);
    var fs := NormEntries(es, zeroCopy);
    InsertAllKeepsNormal([], fs, zeroCopy);
    var gs := InsertAll([], fs);
    assert Norm(Map(es), zeroCopy) == Map(gs);
    assert Norm(Map(gs), zeroCopy) == Map(InsertAll([], NormEntries(gs, zeroCopy)));
    hide Norm, NormEntries, Same, DistinctKeys, InsertAll, Normal;
    NormalEntriesStay(gs, zeroCopy);
    InsertAllKeepsDistinct([], fs);
    InsertAllLosesNothing([], gs);
    assert [] + gs == gs;
  }

  lemma {:induction false} NormEntriesAreNormal(es: seq<Entry>, zeroCopy: bool)
    ensures forall i | 0 <= i < |es| :: Normal(NormEntries(es, zeroCopy)[i], zeroCopy)
    decreases es, 0
  {
    if es != [] {
      NormEntryIsNormal(es[0], zeroCopy);
      NormEntriesAreNormal(es[1..], zeroCopy);
    }
  }

  lemma {:induction false} NormEntryIsNormal(e: Entry, zeroCopy: bool)
    ensures Normal(NormEntry(e, zeroCopy), zeroCopy)
    decreases e
  {
    NormIsIdempotent(e.key, zeroCopy);
    NormIsIdempotent(e.value, zeroCopy);
  }

  lemma {:induction false} InsertKeepsNormal(es: seq<Entry>, e: Entry, zeroCopy: bool)
    requires forall i | 0 <= i < |es| :: Normal(es[i], zeroCopy)
    requires Normal(e, zeroCopy)
    ensures forall i | 0 <= i < |Insert(es, e.key, e.value)| :: Normal(Insert(es, e.key, e.value)[i], zeroCopy)
  {
    if es != [] {
      InsertKeepsNormal(es[1..], e, zeroCopy);
    }
  }

  lemma {:induction false} InsertAllKeepsNormal(acc: seq<Entry>, es: seq<Entry>, zeroCopy: bool)
    requires forall i | 0 <= i < |acc| :: Normal(acc[i], zeroCopy)
    requires forall i | 0 <= i < |es| :: Normal(es[i], zeroCopy)
    ensures forall i | 0 <= i < |InsertAll(acc, es)| :: Normal(InsertAll(acc, es)[i], zeroCopy)
    decreases es
  {
    if es != [] {
      InsertKeepsNormal(acc, es[0], zeroCopy);
      InsertAllKeepsNormal(Insert(acc, es[0].key, es[0].value), es[1..], zeroCopy);
    }
  }

  lemma {:induction false} NormalEntriesStay(es: seq<Entry>, zeroCopy: bool)
    requires forall i | 0 <= i < |es| :: Normal(es[i], zeroCopy)
    ensures NormEntries(es, zeroCopy) == es
  {
    if es != [] {
      NormalEntriesStay(es[1..], zeroCopy);
    }
  }
}
