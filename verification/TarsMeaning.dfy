/** Which values mean the same after they went over the wire. */
module TarsMeaning {
  import opened ByteStrings
  import opened TarsTypes
  import opened TarsRoundTrip
  import opened TarsNormalForm

  /**
   * What a value says, whatever it is built of: integers and booleans lose their width, strings their ownership, and
   * both kinds of blobs are one.
   */
  function Says(v: Value): Value
    decreases v
  {
    match v
    case Bool(b) => Long(if b then 1 else 0)
    case Byte(u) => Long(u)
    case Short(n) => Long(n)
    case Int(n) => Long(n)
    case StrRef(s) => Str(s)
    case Struct(f) => Struct(map t | t in f.Keys :: Says(f[t]))
    case Map(es) => Map(seq(|es|, i requires 0 <= i < |es| => Entry(Says(es[i].key), Says(es[i].value))))
    case List(xs) => List(seq(|xs|, i requires 0 <= i < |xs| => Says(xs[i])))
    case Binary(b) => SimpleList(b)
    case _ => v
  }

  predicate SmallNegative(n: int)
  {
    -128 <= n <= -1
  }

  /** No integer inside the value, in whatever map key it may be, is in -128..=-1. */
  predicate NoSmallNegative(v: Value)
    decreases v
  {
    match v
    case Short(n) => !SmallNegative(n)
    case Int(n) => !SmallNegative(n)
    case Long(n) => !SmallNegative(n)
    case Struct(f) => forall t | t in f.Keys :: NoSmallNegative(f[t])
    case Map(es) => forall i | 0 <= i < |es| :: NoSmallNegative(es[i].key) && NoSmallNegative(es[i].value)
    case List(xs) => forall i | 0 <= i < |xs| :: NoSmallNegative(xs[i])
    case _ => true
  }

  ghost predicate Survives(v: Value, zeroCopy: bool)
  {
    Says(Norm(v, zeroCopy)) == Says(v)
  }

  ghost predicate Faithful(v: Value, zeroCopy: bool)
  {
    KeepsEntries(v, zeroCopy) && NoSmallNegative(v)
  }

  /**
   * Main result: a value says the same after it went over the wire exactly when no map inside it loses an entry and
   * no integer inside it is in -128..=-1.
   */
  lemma {:induction false} MeaningSurvivesIff(v: Value, zeroCopy: bool)
    ensures Says(Norm(v, zeroCopy)) == Says(v) <==> KeepsEntries(v, zeroCopy) && NoSmallNegative(v)
    decreases v, 1
  {
    hide Norm, Says, KeepsEntries, NoSmallNegative;
    match v {
      case Struct(f) => FieldsSurviveIff(f, v, zeroCopy);
      case Map(es) => EntriesSurviveIff(es, zeroCopy);
      case List(xs) => ItemsSurviveIff(xs, zeroCopy);
      case _ => LeafSurvivesIff(v, zeroCopy);
    }
  }

  lemma LeafSurvivesIff(v: Value, zeroCopy: bool)
    requires !v.Struct? && !v.Map? && !v.List?
    ensures Says(Norm(v, zeroCopy)) == Says(v) <==> NoSmallNegative(v)
    ensures KeepsEntries(v, zeroCopy)
  {
  }

  lemma FieldsSayTheSame(f: map<U8, Value>, g: map<U8, Value>)
    requires f.Keys == g.Keys
    ensures Says(Struct(g)) == Says(Struct(f)) <==> forall t | t in f.Keys :: Says(g[t]) == Says(f[t])
  {
    var a, b := Says(Struct(g)).fields, Says(Struct(f)).fields;
    assert a.Keys == b.Keys == f.Keys;
    assert forall t | t in f.Keys :: a[t] == Says(g[t]) && b[t] == Says(f[t]);
    assert Says(Struct(g)) == Struct(a) && Says(Struct(f)) == Struct(b);
    hide Says;
    assert a == b <==> forall t | t in f.Keys :: a[t] == b[t];
  }

  lemma FieldsFaithful(f: map<U8, Value>, zeroCopy: bool)
    ensures Faithful(Struct(f), zeroCopy) <==> forall t | t in f.Keys :: Faithful(f[t], zeroCopy)
  {
    hide Norm, NormEntries, DistinctKeys;
  }

  lemma {:induction false} FieldsSurviveIff(f: map<U8, Value>, v: Value, zeroCopy: bool)
    requires v == Struct(f)
    ensures Survives(v, zeroCopy) <==> Faithful(v, zeroCopy)
    decreases v, 0
  {
    var g := Norm(v, zeroCopy).fields;
    assert Norm(v, zeroCopy) == Struct(g) && g.Keys == f.Keys;
    assert forall t | t in f.Keys :: g[t] == Norm(f[t], zeroCopy);
    hide Says, Norm, KeepsEntries, NoSmallNegative;
    forall t | t in f.Keys ensures Survives(f[t], zeroCopy) <==> Faithful(f[t], zeroCopy) {
      MeaningSurvivesIff(f[t], zeroCopy);
    }
    FieldsFaithful(f, zeroCopy);
    FieldsSayTheSame(f, g);
    hide Faithful;
  }

  lemma NumberOfEntries(es: seq<Entry>)
    ensures Says(Map(es)).Map? && |Says(Map(es)).entries| == |es|
  {
  }

  ghost predicate FaithfulEntry(e: Entry, zeroCopy: bool)
  {
    Faithful(e.key, zeroCopy) && Faithful(e.value, zeroCopy)
  }

  ghost predicate SaysTheSame(e: Entry, f: Entry)
  {
    Says(e.key) == Says(f.key) && Says(e.value) == Says(f.value)
  }

  lemma EntriesSayTheSame(es: seq<Entry>, fs: seq<Entry>)
    requires |es| == |fs|
    ensures Says(Map(fs)) == Says(Map(es))
      <==> forall i | 0 <= i < |es| :: SaysTheSame(fs[i], es[i])
  {
    var a, b := Says(Map(fs)).entries, Says(Map(es)).entries;
    assert Says(Map(fs)) == Map(a) && Says(Map(es)) == Map(b) && |a| == |b| == |es|;
    assert forall i | 0 <= i < |es| ::
      && a[i] == Entry(Says(fs[i].key), Says(fs[i].value))
      && b[i] == Entry(Says(es[i].key), Says(es[i].value));
    hide Says;
    assert a == b <==> forall i | 0 <= i < |es| :: a[i] == b[i];
  }

  lemma EntriesFaithful(es: seq<Entry>, zeroCopy: bool)
    ensures Faithful(Map(es), zeroCopy)
      <==> DistinctKeys(NormEntries(es, zeroCopy)) && forall i | 0 <= i < |es| :: FaithfulEntry(es[i], zeroCopy)
  {
    hide NormEntries, DistinctKeys;
  }

  lemma {:induction false} EntrySurvivesIff(e: Entry, zeroCopy: bool)
    ensures SaysTheSame(NormEntry(e, zeroCopy), e) <==> FaithfulEntry(e, zeroCopy)
    decreases e
  {
    hide Norm, Says, KeepsEntries, NoSmallNegative;
    MeaningSurvivesIff(e.key, zeroCopy);
    MeaningSurvivesIff(e.value, zeroCopy);
  }

  lemma {:induction false} EntriesSurviveIff(es: seq<Entry>, zeroCopy: bool)
    ensures Survives(Map(es), zeroCopy) <==> Faithful(Map(es), zeroCopy)
    decreases es
  {
    var fs := NormEntries(es, zeroCopy);
    assert Norm(Map(es), zeroCopy).Map?;
    hide NormEntries, DistinctKeys, Norm, Says, Faithful, FaithfulEntry, SaysTheSame;
    MapKeepsEveryEntry(es, zeroCopy);
    forall i | 0 <= i < |es| ensures SaysTheSame(fs[i], es[i]) <==> FaithfulEntry(es[i], zeroCopy) {
      NormEntriesAt(es, i, zeroCopy);
      EntrySurvivesIff(es[i], zeroCopy);
    }
    EntriesFaithful(es, zeroCopy);
    NumberOfEntries(es);
    NumberOfEntries(Norm(Map(es), zeroCopy).entries);
    EntriesSayTheSame(es, fs);
  }

  lemma {:induction false} ItemsSurviveIff(xs: seq<Value>, zeroCopy: bool)
    ensures Survives(List(xs), zeroCopy) <==> Faithful(List(xs), zeroCopy)
    decreases xs
  {
    var ys := NormItems(xs, zeroCopy);
    assert Norm(List(xs), zeroCopy) == List(ys);
    forall i | 0 <= i < |xs|
      ensures ys[i] == Norm(xs[i], zeroCopy)
      ensures Survives(xs[i], zeroCopy) <==> Faithful(xs[i], zeroCopy)
    {
      NormItemsAt(xs, i, zeroCopy);
      MeaningSurvivesIff(xs[i], zeroCopy);
    }
    hide NormItems, Norm;
    var a, b := Says(List(ys)).items, Says(List(xs)).items;
    assert forall i | 0 <= i < |xs| :: a[i] == b[i] <==> Survives(xs[i], zeroCopy);
  }

  /** The integer that a value holds; booleans count as 0 and 1, as the wire has them. */
  function IntegerOf(v: Value): Option<int>
  {
    match v
    case Bool(b) => Some(if b then 1 else 0)
    case Byte(u) => Some(u)
    case Short(n) => Some(n)
    case Int(n) => Some(n)
    case Long(n) => Some(n)
    case _ => None
  }

  /** The integer survives writing and reading exactly when it is not in -128..=-1; there it comes back plus 256. */
  lemma IntegerSurvives(v: Value, zeroCopy: bool)
    requires IntegerOf(v).Some?
    ensures IntegerOf(Norm(v, zeroCopy)) == IntegerOf(v) <==> !(-128 <= IntegerOf(v).value <= -1)
    ensures -128 <= IntegerOf(v).value <= -1 ==> IntegerOf(Norm(v, zeroCopy)) == Some(IntegerOf(v).value + 256)
  {
  }
}
