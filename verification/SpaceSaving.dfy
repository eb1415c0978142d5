/** The Space-Saving counter of active talkers (statistics.rs). */
module SpaceSaving {
  import opened Arithmetic
  import opened CountMaps
  import opened CounterTables

  /** A talker's counter carries the name last seen. */
  type Counters<K> = Table<K, string>

  /** The counters after `victim` gave its place to a new user. */
  function Replace<K(==)>(c: Counters<K>, victim: K, user: K, name: string): Counters<K>
    requires victim in c
  {
    Swap(c, victim, user, Counter(name, SaturatingAdd(c[victim].count, 1), c[victim].count))
  }

  /** One `increment`, as a relation: which of several smallest counters is evicted is not determined. */
  ghost predicate Increment<K(!new)>(capacity: nat, c: Counters<K>, user: K, name: string, c': Counters<K>)
  {
    if user in c then
      c' == c[user := Counter(name, SaturatingAdd(c[user].count, 1), c[user].error)]
    else if |c| < capacity then
      c' == c[user := Counter(name, 1, 0)]
    else
      exists victim :: IsMin(Counts(c), victim) && c' == Replace(c, victim, user, name)
  }

  /** The counts are exact in sum, and never more than `capacity` of them. */
  ghost predicate Balanced<K(!new)>(capacity: nat, c: Counters<K>, history: seq<K>)
  {
    capacity >= 1 && |c| <= capacity && Sum(Counts(c)) == |history|
  }

  /** Each counter over-estimates its user by at most its error. */
  ghost predicate Estimates<K(!new)>(c: Counters<K>, history: seq<K>)
  {
    forall u | u in c :: Occurrences(history, u) <= c[u].count <= Occurrences(history, u) + c[u].error
  }

  /** No error, and no untracked user, exceeds the smallest counter (or 0 while there is room). */
  ghost predicate Dominates<K(!new)>(capacity: nat, c: Counters<K>, history: seq<K>)
  {
    && (forall u | u in c :: c[u].error <= Floor(capacity, Counts(c)))
    && (forall u | u !in c :: Occurrences(history, u) <= Floor(capacity, Counts(c)))
  }

  /** The guarantee of Space-Saving for the messages seen so far. */
  ghost predicate Inv<K(!new)>(capacity: nat, c: Counters<K>, history: seq<K>)
  {
    Balanced(capacity, c, history) && Estimates(c, history) && Dominates(capacity, c, history)
  }

  lemma CountNeverSaturates<K(!new)>(capacity: nat, c: Counters<K>, history: seq<K>, u: K)
    requires Inv(capacity, c, history) && u in c
    ensures c[u].count <= |history|
  {
    SumRemove(Counts(c), u);
  }

  lemma OneMoreOccurrence<K(!new)>(history: seq<K>, user: K)
    ensures forall u :: Occurrences(history + [user], u) == Occurrences(history, u) + if u == user then 1 else 0
    ensures forall u :: Occurrences(history, u) <= |history|
  {
    forall u
      ensures Occurrences(history + [user], u) == Occurrences(history, u) + if u == user then 1 else 0
      ensures Occurrences(history, u) <= |history|
    {
      OccurrencesAppend(history, user, u);
    }
  }

  lemma BalanceUpdate<K(!new)>(capacity: nat, c: Counters<K>, history: seq<K>, user: K, counter: Counter<string>)
    requires Balanced(capacity, c, history)
    requires if user in c then counter.count == c[user].count + 1 else |c| < capacity && counter.count == 1
    ensures Balanced(capacity, c[user := counter], history + [user])
    ensures |c| <= |c[user := counter]|
  {
    hide Sum;
    UpdateShape(c, user, counter);
  }

  lemma BalanceEvicting<K(!new)>(
    capacity: nat, c: Counters<K>, history: seq<K>, user: K, victim: K, counter: Counter<string>)
    requires Balanced(capacity, c, history)
    requires user !in c && victim in c && counter.count == c[victim].count + 1
    ensures Balanced(capacity, Swap(c, victim, user, counter), history + [user])
  {
    hide Sum;
    SwapShape(c, victim, user, counter);
  }

  /**
   * What the three kinds of step have in common: the floor does not fall, only `user` gets a new counter, and
   * whoever loses a counter was at the floor.
   */
  lemma EstimatesAfter<K(!new)>(capacity: nat, c: Counters<K>, history: seq<K>, user: K, c': Counters<K>)
    requires Estimates(c, history) && Dominates(capacity, c, history)
    requires Floor(capacity, Counts(c)) <= Floor(capacity, Counts(c'))
    requires user in c' && forall u | u in c' && u != user :: u in c && c'[u] == c[u]
    requires forall u | u in c && u !in c' :: c[u].count <= Floor(capacity, Counts(c))
    requires if user in c then c'[user].count == c[user].count + 1 && c'[user].error == c[user].error
      else c'[user].count == Floor(capacity, Counts(c)) + 1 && c'[user].error == Floor(capacity, Counts(c))
    ensures Estimates(c', history + [user]) && Dominates(capacity, c', history + [user])
  {
    hide Occurrences, Floor, Counts;
    OneMoreOccurrence(history, user);
  }

  lemma IncrementTracked<K(!new)>(capacity: nat, c: Counters<K>, history: seq<K>, user: K, name: string)
    requires Inv(capacity, c, history) && |history| < U64_MAX
    requires user in c
    ensures var counter := Counter(name, SaturatingAdd(c[user].count, 1), c[user].error);
      Inv(capacity, c[user := counter], history + [user])
  {
    hide Occurrences, Sum, Floor, Counts, Balanced, Estimates, Dominates;
    CountNeverSaturates(capacity, c, history, user);
    var counter := Counter(name, c[user].count + 1, c[user].error);
    BalanceUpdate(capacity, c, history, user, counter);
    TableFloorBelow(capacity, c);
    TableFloorRises(capacity, c, c[user := counter]);
    EstimatesAfter(capacity, c, history, user, c[user := counter]);
  }

  lemma IncrementNew<K(!new)>(capacity: nat, c: Counters<K>, history: seq<K>, user: K, name: string)
    requires Inv(capacity, c, history)
    requires user !in c && |c| < capacity
    ensures Inv(capacity, c[user := Counter(name, 1, 0)], history + [user])
  {
    hide Occurrences, Sum, Floor, Counts, Balanced, Estimates, Dominates;
    var counter := Counter(name, 1, 0);
    BalanceUpdate(capacity, c, history, user, counter);
    TableFloorBelow(capacity, c);
    TableFloorRises(capacity, c, c[user := counter]);
    EstimatesAfter(capacity, c, history, user, c[user := counter]);
  }

  lemma IncrementEvicting<K(!new)>(capacity: nat, c: Counters<K>, history: seq<K>, user: K, name: string, victim: K)
    requires Inv(capacity, c, history) && |history| < U64_MAX
    requires user !in c && |c| >= capacity && IsMin(Counts(c), victim)
    ensures Inv(capacity, Replace(c, victim, user, name), history + [user])
  {
    assert victim in c && Counts(c)[victim] == c[victim].count;
    hide Occurrences, Sum, Floor, IsMin, Counts, Balanced, Estimates, Dominates;
    CountNeverSaturates(capacity, c, history, victim);
    SameSize(c);
    FloorIsMin(capacity, Counts(c), victim);
    var counter := Counter(name, c[victim].count + 1, c[victim].count);
    assert Replace(c, victim, user, name) == Swap(c, victim, user, counter);
    hide Replace, SaturatingAdd;
    assert victim in c && user !in c;
    BalanceEvicting(capacity, c, history, user, victim, counter);
    SwapShape(c, victim, user, counter);
    hide Swap;
    TableFloorBelow(capacity, c);
    TableFloorRises(capacity, c, Swap(c, victim, user, counter));
    EstimatesAfter(capacity, c, history, user, Swap(c, victim, user, counter));
  }

  lemma IncrementKeepsInv<K(!new)>(
    capacity: nat, c: Counters<K>, history: seq<K>, user: K, name: string, c': Counters<K>)
    requires Inv(capacity, c, history) && |history| < U64_MAX
    requires Increment(capacity, c, user, name, c')
    ensures Inv(capacity, c', history + [user])
  {
    if user in c {
      IncrementTracked(capacity, c, history, user, name);
    } else if |c| < capacity {
      IncrementNew(capacity, c, history, user, name);
    } else {
      var victim :| IsMin(Counts(c), victim) && c' == Replace(c, victim, user, name);
      IncrementEvicting(capacity, c, history, user, name, victim);
    }
  }

  datatype Message<K> = Message(user: K, name: string)

  function Users<K(==)>(ms: seq<Message<K>>): (us: seq<K>)
    ensures |us| == |ms|
  {
    if ms == [] then [] else Users(ms[..|ms| - 1]) + [ms[|ms| - 1].user]
  }

  /** A run: one state before each message and one at the end, each step an `increment`. */
  ghost predicate IsRun<K(!new)>(capacity: nat, ms: seq<Message<K>>, states: seq<Counters<K>>)
  {
    && |states| == |ms| + 1 && states[0] == map[]
    && forall i | 0 <= i < |ms| :: Increment(capacity, states[i], ms[i].user, ms[i].name, states[i + 1])
  }

  /** Main result: the guarantee holds at the end of every run, however ties are broken. */
  lemma {:induction false} EveryRunIsBounded<K(!new)>(capacity: nat, ms: seq<Message<K>>, states: seq<Counters<K>>)
    requires capacity >= 1 && |ms| <= U64_MAX && IsRun(capacity, ms, states)
    ensures Inv(capacity, states[|ms|], Users(ms))
  {
    if ms != [] {
      var n := |ms| - 1;
      EveryRunIsBounded(capacity, ms[..n], states[..|ms|]);
      hide Increment, Inv;
      assert Increment(capacity, states[n], ms[n].user, ms[n].name, states[n + 1]);
      IncrementKeepsInv(capacity, states[n], Users(ms[..n]), ms[n].user, ms[n].name, states[n + 1]);
    }
  }

  /** A user with more than `n / capacity` of the `n` messages is tracked. */
  lemma HeavyHittersAreTracked<K(!new)>(capacity: nat, c: Counters<K>, history: seq<K>, user: K)
    requires Inv(capacity, c, history)
    requires Occurrences(history, user) * capacity > |history|
    ensures user in c
  {
    if user !in c {
      FloorTimesCapacity(capacity, c);
      MulMonotone(Occurrences(history, user), Floor(capacity, Counts(c)), capacity);
    }
  }

  /** No counter is off by more than `n / capacity`. */
  lemma ErrorIsSmall<K(!new)>(capacity: nat, c: Counters<K>, history: seq<K>, user: K)
    requires Inv(capacity, c, history) && user in c
    ensures (c[user].count - Occurrences(history, user)) * capacity <= |history|
  {
    FloorTimesCapacity(capacity, c);
    MulMonotone(c[user].count - Occurrences(history, user), Floor(capacity, Counts(c)), capacity);
  }

  class TalkerHeavyHitters {
    const capacity: nat
    var counters: Counters<string>
    ghost var history: seq<string>

    ghost predicate Valid()
      reads this
    {
      Inv(capacity, counters, history)
    }

    constructor (capacity: nat)
      ensures Valid() && counters == map[] && history == []
      ensures this.capacity == if capacity < 1 then 1 else capacity
    {
      this.capacity := if capacity < 1 then 1 else capacity;
      counters := map[];
      history := [];
    }

    method Add(user: string, username: string)
      requires Valid() && |history| < U64_MAX
      modifies this
      ensures Valid() && history == old(history) + [user]
      ensures Increment(capacity, old(counters), user, username, counters)
    {
      IncrementKeepsInvForAll(user, username);
      history := history + [user];
      if user in counters {
        var counter := counters[user];
        counter := counter.(count := SaturatingAdd(counter.count, 1));
        if counter.name != username {
          counter := counter.(name := username);
        }
        counters := counters[user := counter];
        return;
      }
      if |counters| < capacity {
        counters := counters[user := Counter(username, 1, 0)];
        return;
      }
      FullIsNotEmpty(capacity, counters);
      var key := FindMin(Counts(counters));
      var minCount := counters[key].count;
      counters := counters - {key};
      counters := counters[user := Counter(username, SaturatingAdd(minCount, 1), minCount)];
      assert counters == Replace(old(counters), key, user, username);
    }

    lemma IncrementKeepsInvForAll(user: string, name: string)
      requires Valid() && |history| < U64_MAX
      ensures forall c': Counters<string> | Increment(capacity, counters, user, name, c') ::
        Inv(capacity, c', history + [user])
    {
      forall c': Counters<string> | Increment(capacity, counters, user, name, c')
        ensures Inv(capacity, c', history + [user])
      {
        IncrementKeepsInv(capacity, counters, history, user, name, c');
      }
    }
  }
}
