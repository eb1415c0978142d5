/** Tables of counters with error terms, as both heavy-hitter structures keep them (statistics.rs). */
module CounterTables {
  import opened CountMaps

  /** A counter and the name that goes with it: the last one seen of a talker, none for a word. */
  datatype Counter<+N> = Counter(name: N, count: nat, error: nat)

  type Table<K, +N> = map<K, Counter<N>>

  function Counts<K(==), N>(c: Table<K, N>): (m: map<K, nat>)
    ensures m.Keys == c.Keys && forall k | k in c :: m[k] == c[k].count
  {
    map k | k in c :: c[k].count
  }

  /** The table after `victim` gave its place to a new key. */
  function Swap<K(==), N>(c: Table<K, N>, victim: K, key: K, counter: Counter<N>): Table<K, N>
  {
    (c - {victim})[key := counter]
  }

  lemma SameSize<K, N>(c: Table<K, N>)
    ensures |Counts(c)| == |c|
  {
    assert |Counts(c).Keys| == |c.Keys|;
  }

  lemma FullIsNotEmpty<K(!new), N>(capacity: nat, c: Table<K, N>)
    requires |c| >= capacity >= 1
    ensures Counts(c) != map[]
  {
    var k :| k in c;
    assert k in Counts(c);
  }

  lemma UpdateShape<K, N>(c: Table<K, N>, key: K, counter: Counter<N>)
    ensures |c[key := counter]| == |c| + if key in c then 0 else 1
    ensures Sum(Counts(c[key := counter])) == Sum(Counts(c)) + counter.count - if key in c then c[key].count else 0
  {
    hide Sum;
    var c' := c[key := counter];
    assert c'.Keys == c.Keys + {key};
    assert |c'| == |c'.Keys|;
    SumUpdate(Counts(c), key, counter.count);
    assert Counts(c') == Counts(c)[key := counter.count];
  }

  lemma SwapShape<K, N>(c: Table<K, N>, victim: K, key: K, counter: Counter<N>)
    requires victim in c && key !in c
    ensures var c' := Swap(c, victim, key, counter);
      && |c'| == |c| && key in c' && c'[key] == counter
      && (forall k | k in c' && k != key :: k in c && c'[k] == c[k])
      && (forall k | k in c && k !in c' :: k == victim)
      && Sum(Counts(c')) == Sum(Counts(c)) - c[victim].count + counter.count
  {
    hide Sum;
    var c', m := Swap(c, victim, key, counter), Counts(c);
    assert c'.Keys == c.Keys - {victim} + {key};
    assert |c'| == |c'.Keys| == |c|;
    SumRemove(m, victim);
    SumUpdate(m - {victim}, key, counter.count);
    assert Counts(c') == (m - {victim})[key := counter.count];
  }

  lemma TableFloorBelow<K(!new), N>(capacity: nat, c: Table<K, N>)
    ensures |c| >= capacity ==> forall k | k in c :: Floor(capacity, Counts(c)) <= c[k].count
    ensures |c| < capacity ==> Floor(capacity, Counts(c)) == 0
  {
    SameSize(c);
    FloorBelow(capacity, Counts(c));
  }

  lemma TableFloorRises<K(!new), N>(capacity: nat, c: Table<K, N>, c': Table<K, N>)
    requires |c| <= |c'|
    requires |c| >= capacity ==> forall k | k in c' :: Floor(capacity, Counts(c)) <= c'[k].count
    ensures Floor(capacity, Counts(c)) <= Floor(capacity, Counts(c'))
  {
    SameSize(c);
    SameSize(c');
    FloorRises(capacity, Counts(c), Counts(c'));
  }

  /** The smallest counter of a full table is at most its share of the sum. */
  lemma FloorTimesCapacity<K(!new), N>(capacity: nat, c: Table<K, N>)
    requires |c| <= capacity
    ensures Floor(capacity, Counts(c)) * capacity <= Sum(Counts(c))
  {
    var m := Counts(c);
    SameSize(c);
    TableFloorBelow(capacity, c);
    var low := Floor(capacity, m);
    hide Floor, Sum;
    if |c| >= capacity {
      SumAtLeast(m, low);
    }
  }
}
