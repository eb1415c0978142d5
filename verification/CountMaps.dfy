/** Maps from keys to counts: sums, minima, and the occurrences of a key in a history. */
module CountMaps {
  const U64_MAX: nat := 0xFFFF_FFFF_FFFF_FFFF

  function SaturatingAdd(a: nat, b: nat): (r: nat)
    ensures a + b <= U64_MAX ==> r == a + b
  {
    if a + b > U64_MAX then U64_MAX else a + b
  }

  function Occurrences<K(==)>(history: seq<K>, key: K): nat
  {
    multiset(history)[key]
  }

  lemma OccurrencesAppend<K>(history: seq<K>, x: K, key: K)
    ensures Occurrences(history + [x], key) == Occurrences(history, key) + if x == key then 1 else 0
    ensures Occurrences(history, key) <= |history|
  {
    assert |multiset(history)| == |history|;
    assert multiset(history)[key] <= |multiset(history)| by {
      MultiplicityBound(multiset(history), key);
    }
  }

  lemma MultiplicityBound<K>(m: multiset<K>, key: K)
    ensures m[key] <= |m|
  {
    var rest := m[key := 0];
    var only := multiset{}[key := m[key]];
    assert m == rest + only;
  }

  /** The sum of all counts. */
  ghost function Sum<K>(m: map<K, nat>): nat
    decreases |m|
  {
    if m == map[] then 0
    else
      var k :| k in m;
      RemovalShrinks(m, k);
      m[k] + Sum(m - {k})
  }

  lemma RemovalShrinks<K>(m: map<K, nat>, k: K)
    requires k in m
    ensures |m - {k}| == |m| - 1
  {
    assert (m - {k}).Keys == m.Keys - {k};
  }

  lemma {:induction false} SumRemove<K>(m: map<K, nat>, k: K)
    requires k in m
    ensures Sum(m) == m[k] + Sum(m - {k})
    decreases |m|
  {
    var j :| j in m && Sum(m) == m[j] + Sum(m - {j});
    if j != k {
      RemovalShrinks(m, j);
      RemovalShrinks(m, k);
      SumRemove(m - {j}, k);
      SumRemove(m - {k}, j);
      assert (m - {j}) - {k} == (m - {k}) - {j};
    }
  }

  lemma SumUpdate<K>(m: map<K, nat>, k: K, v: nat)
    ensures Sum(m[k := v]) == Sum(m) + v - if k in m then m[k] else 0
  {
    SumRemove(m[k := v], k);
    if k in m {
      SumRemove(m, k);
      assert m[k := v] - {k} == m - {k};
    } else {
      assert m[k := v] - {k} == m;
    }
  }

  lemma {:induction false} SumAtLeast<K>(m: map<K, nat>, low: nat)
    requires forall k | k in m :: low <= m[k]
    ensures Sum(m) >= low * |m|
    decreases |m|
  {
    if m != map[] {
      var k :| k in m && Sum(m) == m[k] + Sum(m - {k});
      RemovalShrinks(m, k);
      SumAtLeast(m - {k}, low);
      OneTimesMore(low, |m| - 1);
    }
  }

  lemma {:induction false} SumOfSome<K>(m: map<K, nat>, ks: set<K>, low: nat)
    requires ks <= m.Keys && forall k | k in ks :: low <= m[k]
    ensures Sum(m) >= low * |ks|
    decreases |ks|
  {
    if ks != {} {
      var k :| k in ks;
      SumRemove(m, k);
      SumOfSome(m - {k}, ks - {k}, low);
      OneTimesMore(low, |ks| - 1);
    }
  }

  lemma OneTimesMore(x: nat, n: nat)
    ensures x * (n + 1) == x * n + x
  {
  }

  /** `k` has a smallest count; of several such keys any may be the one. */
  ghost predicate IsMin<K>(m: map<K, nat>, k: K)
  {
    k in m && forall j | j in m :: m[k] <= m[j]
  }

  lemma {:induction false} MinExists<K>(m: map<K, nat>)
    requires m != map[]
    ensures exists k :: IsMin(m, k)
    decreases |m|
  {
    var k :| k in m;
    var rest := m - {k};
    RemovalShrinks(m, k);
    if rest == map[] {
      assert forall j | j in m && j != k :: j in rest;
      assert IsMin(m, k);
    } else {
      MinExists(rest);
      var j :| IsMin(rest, j);
      assert forall i | i in m :: i == k || i in rest;
      assert IsMin(m, if m[k] <= m[j] then k else j);
    }
  }

  /** The smallest count of a full table; a table with room left owes nobody anything. */
  ghost function Floor<K>(capacity: nat, m: map<K, nat>): nat
  {
    if m == map[] || |m| < capacity then 0
    else
      MinExists(m);
      var k :| IsMin(m, k);
      m[k]
  }

  lemma FloorBounds<K>(capacity: nat, m: map<K, nat>, low: nat)
    requires m != map[] && |m| >= capacity
    ensures forall k | k in m :: Floor(capacity, m) <= m[k]
    ensures (forall k | k in m :: low <= m[k]) ==> low <= Floor(capacity, m)
    ensures exists k :: IsMin(m, k) && m[k] == Floor(capacity, m)
  {
  }

  lemma FloorIsMin<K>(capacity: nat, m: map<K, nat>, k: K)
    requires IsMin(m, k) && |m| >= capacity
    ensures Floor(capacity, m) == m[k]
  {
  }

  /** Raising counts, or filling the table, never lowers the floor. */
  lemma FloorRises<K>(capacity: nat, m: map<K, nat>, m': map<K, nat>)
    requires |m| <= |m'|
    requires |m| >= capacity ==> forall k | k in m' :: Floor(capacity, m) <= m'[k]
    ensures Floor(capacity, m) <= Floor(capacity, m')
  {
    if m != map[] && |m| >= capacity {
      assert m' != map[] by { assert |m'| > 0; }
      FloorBounds(capacity, m', Floor(capacity, m));
    }
  }

  lemma FloorBelow<K>(capacity: nat, m: map<K, nat>)
    ensures |m| >= capacity ==> forall k | k in m :: Floor(capacity, m) <= m[k]
    ensures |m| < capacity ==> Floor(capacity, m) == 0
  {
    if m != map[] && |m| >= capacity {
      FloorBounds(capacity, m, 0);
    }
  }

  /** `min_by_key` over an iteration in unspecified order. */
  method FindMin<K(==)>(m: map<K, nat>) returns (k: K)
    requires m != map[]
    ensures IsMin(m, k)
  {
    k :| k in m;
    var todo := m.Keys;
    while todo != {}
      invariant todo <= m.Keys && k in m
      invariant forall j | j in m.Keys - todo :: m[k] <= m[j]
      decreases todo
    {
      var j :| j in todo;
      if m[j] < m[k] {
        k := j;
      }
      todo := todo - {j};
    }
  }
}
