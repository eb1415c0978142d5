/** Which words the hybrid counter is sure to keep tracking (statistics.rs). */
module WordTracking {
  import opened Arithmetic
  import opened CountMaps
  import opened CounterTables
  import opened WordHeavyHitter

  /** One recorded word and what the sketch estimates for it at that moment. */
  datatype Step<K> = Step(word: K, estimate: nat)

  function Words<K(==)>(steps: seq<Step<K>>): (ws: seq<K>)
    ensures |ws| == |steps|
  {
    if steps == [] then [] else Words(steps[..|steps| - 1]) + [steps[|steps| - 1].word]
  }

  /** A run from the empty table, in which no estimate exceeds the number of words so far. */
  ghost predicate IsRun<K(!new)>(capacity: nat, steps: seq<Step<K>>, states: seq<Counters<K>>)
  {
    if steps == [] then states == [map[]]
    else
      var n := |steps| - 1;
      && |states| == n + 2 && IsRun(capacity, steps[..n], states[..n + 1])
      && steps[n].estimate <= n + 1
      && Increment(capacity, states[n], steps[n].word, steps[n].estimate, states[n + 1])
  }

  /** By how much a newcomer's estimate exceeds what Space-Saving would give it. */
  ghost function Surplus<K(!new)>(capacity: nat, c: Counters<K>, step: Step<K>): nat
  {
    var low := Floor(capacity, Counts(c)) + 1;
    if step.word in c || |c| < capacity || step.estimate <= low then 0 else step.estimate - low
  }

  ghost function TotalSurplus<K(!new)>(capacity: nat, steps: seq<Step<K>>, states: seq<Counters<K>>): nat
    requires |states| == |steps| + 1
  {
    if steps == [] then 0
    else
      var n := |steps| - 1;
      TotalSurplus(capacity, steps[..n], states[..|steps|]) + Surplus(capacity, states[n], steps[n])
  }

  /** A step adds one message to the sum of the counters, and its surplus. */
  lemma SumGrows<K(!new)>(capacity: nat, c: Counters<K>, history: seq<K>, step: Step<K>, c': Counters<K>)
    requires Inv(capacity, c, history) && |history| < U64_MAX
    requires Increment(capacity, c, step.word, step.estimate, c')
    ensures Sum(Counts(c')) == Sum(Counts(c)) + 1 + Surplus(capacity, c, step)
  {
    hide Sum, Floor, Occurrences;
    if step.word in c || |c| < capacity {
      UpdateShape(c, step.word, c'[step.word]);
    } else {
      var victim :| IsMin(Counts(c), victim) && c' == Replace(c, victim, step.word, step.estimate);
      SameSize(c);
      FloorIsMin(capacity, Counts(c), victim);
      SwapShape(c, victim, step.word, c'[step.word]);
    }
  }

  /** Main result: after every run the counters sum to the number of words plus the surplus of its evictions. */
  lemma {:induction false} SumAfterRun<K(!new)>(capacity: nat, steps: seq<Step<K>>, states: seq<Counters<K>>)
    requires capacity >= 1 && |steps| <= U64_MAX && IsRun(capacity, steps, states)
    ensures Inv(capacity, states[|steps|], Words(steps))
    ensures Sum(Counts(states[|steps|])) == |steps| + TotalSurplus(capacity, steps, states)
  {
    if steps == [] {
      EmptyTable<K>(capacity);
    } else {
      var n := |steps| - 1;
      SumAfterRun(capacity, steps[..n], states[..|steps|]);
      hide Increment, Inv, Surplus, Sum, Counts;
      assert Increment(capacity, states[n], steps[n].word, steps[n].estimate, states[n + 1]);
      IncrementKeepsInv(capacity, states[n], Words(steps[..n]), steps[n].word, steps[n].estimate, states[n + 1]);
      SumGrows(capacity, states[n], Words(steps[..n]), steps[n], states[n + 1]);
    }
  }

  lemma EmptyTable<K(!new)>(capacity: nat)
    requires capacity >= 1
    ensures var c: Counters<K> := map[]; Inv(capacity, c, []) && Sum(Counts(c)) == 0
  {
    var c: Counters<K> := map[];
    assert Counts(c) == map[];
  }

  /** Main result: a word with more than its share of messages and surplus is tracked, whatever the hashes are. */
  lemma HeavyWordsAreTracked<K(!new)>(capacity: nat, steps: seq<Step<K>>, states: seq<Counters<K>>, word: K)
    requires capacity >= 1 && |steps| <= U64_MAX && IsRun(capacity, steps, states)
    requires Occurrences(Words(steps), word) * capacity > |steps| + TotalSurplus(capacity, steps, states)
    ensures word in states[|steps|]
  {
    SumAfterRun(capacity, steps, states);
    hide IsRun, Sum, TotalSurplus, Words, Occurrences;
    var c := states[|steps|];
    if word !in c {
      FloorTimesCapacity(capacity, c);
      MulMonotone(Occurrences(Words(steps), word), Floor(capacity, Counts(c)), capacity);
    }
  }

  /** Without a sketch all estimates are 0, and so is the surplus: the guarantee of Space-Saving. */
  lemma {:induction false} NoSketchNoSurplus<K(!new)>(capacity: nat, steps: seq<Step<K>>, states: seq<Counters<K>>)
    requires |states| == |steps| + 1 && forall i | 0 <= i < |steps| :: steps[i].estimate == 0
    ensures TotalSurplus(capacity, steps, states) == 0
  {
    if steps != [] {
      NoSketchNoSurplus(capacity, steps[..|steps| - 1], states[..|steps|]);
    }
  }
}
