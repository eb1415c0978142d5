/** How the hybrid word counter loses a frequent word, whatever the hashes of its sketch are (statistics.rs). */
module WordEviction {
  import opened CollidingWords
  import opened CountMaps
  import opened CounterTables
  import opened WordCounts
  import opened WordHeavyHitter
  import opened WordTracking

  /** The estimates are those of a sketch with these hashes, which is updated before it is asked. */
  ghost predicate AreSketchEstimates(hash: Hash, width: nat, depth: nat, steps: seq<Step<string>>)
    requires width > 0
  {
    forall i | 0 <= i < |steps| ::
      steps[i].estimate == LeastCollisions(hash, width, depth, Words(steps[..i + 1]), steps[i].word)
  }

  /** Four times the first word, then every other word once; all estimates are the number of words so far. */
  function Stream(ws: seq<string>): (steps: seq<Step<string>>)
    requires ws != []
    ensures |steps| == |ws| + 3
    ensures forall i | 0 <= i < |steps| :: steps[i] == Step(ws[if i < 4 then 0 else i - 3], i + 1)
  {
    seq(|ws| + 3, i requires 0 <= i < |ws| + 3 => Step(ws[if i < 4 then 0 else i - 3], i + 1))
  }

  /** The first `capacity` words start from 1, the later ones from their estimate. */
  function CountAt(capacity: nat, i: nat, n: nat): nat
  {
    if i == 0 then n else if i < capacity then 1 else i + 4
  }

  ghost predicate IsOneOf(ws: seq<string>, capacity: nat, hi: nat, n: nat, w: string, count: nat)
    requires hi <= |ws|
  {
    exists i :: 0 <= i < hi && w == ws[i] && count == CountAt(capacity, i, n)
  }

  /** After `hi` different words, the first of which came `n` times: it and all newcomers are tracked. */
  ghost predicate Shape(c: Counters<string>, ws: seq<string>, capacity: nat, hi: nat, n: nat)
  {
    && 1 <= hi <= |ws| && |c| == (if hi < capacity then hi else capacity)
    && (forall w | w in c :: IsOneOf(ws, capacity, hi, n, w, c[w].count))
    && ws[0] in c && (forall i | capacity <= i < hi :: ws[i] in c)
  }

  lemma NotYet(c: Counters<string>, ws: seq<string>, capacity: nat, hi: nat, n: nat)
    requires Distinct(ws) && Shape(c, ws, capacity, hi, n) && hi < |ws|
    ensures ws[hi] !in c
  {
    assert forall i | 0 <= i < hi :: ws[i] != ws[hi];
    assert forall count :: !IsOneOf(ws, capacity, hi, n, ws[hi], count);
  }

  lemma CountOf(c: Counters<string>, ws: seq<string>, capacity: nat, hi: nat, n: nat, i: nat)
    requires Distinct(ws) && Shape(c, ws, capacity, hi, n) && i < hi && ws[i] in c
    ensures c[ws[i]].count == CountAt(capacity, i, n)
  {
    assert IsOneOf(ws, capacity, hi, n, ws[i], c[ws[i]].count);
    hide CountAt;
    var j :| 0 <= j < hi && ws[i] == ws[j] && c[ws[i]].count == CountAt(capacity, j, n);
    assert i == j;
  }

  lemma FirstOccurrence(ws: seq<string>, capacity: nat, c': Counters<string>)
    requires ws != [] && capacity >= 1 && Increment(capacity, map[], ws[0], 1, c')
    ensures Shape(c', ws, capacity, 1, 1)
  {
    assert c' == map[ws[0] := WordCounter(1, 0)];
    assert IsOneOf(ws, capacity, 1, 1, ws[0], c'[ws[0]].count);
  }

  lemma NextOccurrence(
    c: Counters<string>, ws: seq<string>, capacity: nat, n: nat, estimate: nat, c': Counters<string>)
    requires Distinct(ws) && 1 <= n < 4 && Shape(c, ws, capacity, 1, n) && Increment(capacity, c, ws[0], estimate, c')
    ensures Shape(c', ws, capacity, 1, n + 1)
  {
    CountOf(c, ws, capacity, 1, n, 0);
    UpdateShape(c, ws[0], c'[ws[0]]);
    hide Sum, Counts;
    forall w | w in c' ensures w == ws[0] {
      assert IsOneOf(ws, capacity, 1, n, w, c[w].count);
    }
    assert IsOneOf(ws, capacity, 1, n + 1, ws[0], c'[ws[0]].count);
  }

  /** The window of words moves on by one, however large the table is and whichever word has left it. */
  lemma ShapeStep(c: Counters<string>, c': Counters<string>, ws: seq<string>, capacity: nat, hi: nat, n: nat)
    requires Distinct(ws) && 1 <= hi < |ws| && Shape(c, ws, capacity, hi, n)
    requires |c'| == if hi + 1 < capacity then hi + 1 else capacity
    requires ws[hi] in c' && c'[ws[hi]].count == CountAt(capacity, hi, n)
    requires forall w | w in c' && w != ws[hi] :: w in c && c'[w] == c[w]
    requires ws[0] in c' && forall i | capacity <= i < hi :: ws[i] in c'
    ensures Shape(c', ws, capacity, hi + 1, n)
  {
    hide CountAt, Distinct;
    forall w | w in c' ensures IsOneOf(ws, capacity, hi + 1, n, w, c'[w].count) {
      if w != ws[hi] {
        assert IsOneOf(ws, capacity, hi, n, w, c[w].count);
      }
    }
  }

  lemma NewWord(c: Counters<string>, ws: seq<string>, capacity: nat, hi: nat, estimate: nat, c': Counters<string>)
    requires Distinct(ws) && Shape(c, ws, capacity, hi, 4) && hi < capacity && hi < |ws|
    requires Increment(capacity, c, ws[hi], estimate, c')
    ensures Shape(c', ws, capacity, hi + 1, 4)
  {
    NotYet(c, ws, capacity, hi, 4);
    UpdateShape(c, ws[hi], WordCounter(1, 0));
    hide Sum, Counts, Distinct, IsOneOf;
    ShapeStep(c, c', ws, capacity, hi, 4);
  }

  lemma DropKey<K, V>(c: map<K, V>, k: K)
    ensures |c| == |c - {k}| + if k in c then 1 else 0
  {
    var d := c - {k};
    assert d.Keys == c.Keys - {k};
    assert |c| == |c.Keys| && |d| == |d.Keys|;
  }

  lemma {:induction false} FewKeys<K, V>(c: map<K, V>, ks: seq<K>)
    requires forall k | k in c :: k in ks
    ensures |c| <= |ks|
    decreases ks
  {
    if ks == [] {
      assert c == map[];
    } else {
      var n := |ks| - 1;
      DropKey(c, ks[n]);
      FewKeys(c - {ks[n]}, ks[..n]);
    }
  }

  lemma {:induction false} ManyKeys<V>(c: map<string, V>, ks: seq<string>)
    requires Distinct(ks) && forall k | k in ks :: k in c
    ensures |c| >= |ks|
    decreases ks
  {
    if ks != [] {
      var n := |ks| - 1;
      DropKey(c, ks[n]);
      ManyKeys(c - {ks[n]}, ks[..n]);
    }
  }

  /** Until `capacity - 1` newcomers have come, some word that came once is still tracked. */
  lemma SomeWordOfOne(c: Counters<string>, ws: seq<string>, capacity: nat, hi: nat) returns (i: nat)
    requires Shape(c, ws, capacity, hi, 4) && 2 <= capacity <= hi < 2 * capacity - 1
    ensures 1 <= i < capacity && ws[i] in c
  {
    var ks := [ws[0]] + ws[capacity..hi];
    if forall i | 1 <= i < capacity :: ws[i] !in c {
      forall w | w in c ensures w in ks {
        assert IsOneOf(ws, capacity, hi, 4, w, c[w].count);
        var i :| 0 <= i < hi && w == ws[i];
        assert i > 0 ==> w == ks[1 + i - capacity];
      }
      FewKeys(c, ks);
      assert false;
    }
    i :| 1 <= i < capacity && ws[i] in c;
  }

  /** Then none is left. */
  lemma NoWordOfOne(c: Counters<string>, ws: seq<string>, capacity: nat, i: nat)
    requires Distinct(ws) && 1 <= i < capacity && Shape(c, ws, capacity, 2 * capacity - 1, 4)
    ensures ws[i] !in c
  {
    if ws[i] in c {
      var ks := [ws[i], ws[0]] + ws[capacity..2 * capacity - 1];
      ManyKeys(c, ks);
    }
  }

  ghost predicate IsSmallest<K>(c: Counters<K>, k: K)
  {
    k in c && forall j | j in c :: c[k].count <= c[j].count
  }

  /** What an eviction does, seen from outside. */
  lemma Eviction(
    capacity: nat, c: Counters<string>, word: string, estimate: nat, c': Counters<string>)
    returns (victim: string)
    requires word !in c && |c| >= capacity && Increment(capacity, c, word, estimate, c')
    ensures IsSmallest(c, victim) && victim !in c' && |c'| == |c| && word in c'
    ensures c[victim].count < estimate ==> c'[word].count == estimate
    ensures forall k | k in c' && k != word :: k in c && c'[k] == c[k]
    ensures forall k | k in c && k !in c' :: k == victim
  {
    victim :| IsMin(Counts(c), victim) && c' == Replace(c, victim, word, estimate);
    assert forall j | j in c :: Counts(c)[victim] <= Counts(c)[j];
    hide IsMin, Increment, Counts, Sum;
    SwapShape(c, victim, word, c'[word]);
    assert victim !in c';
  }

  /** A victim that counts 1 is neither the frequent word nor a newcomer. */
  lemma VictimCameOnce(c: Counters<string>, ws: seq<string>, capacity: nat, hi: nat, victim: string)
    requires Distinct(ws) && Shape(c, ws, capacity, hi, 4) && 2 <= capacity <= hi < 2 * capacity - 1
    requires IsSmallest(c, victim)
    ensures victim in c && c[victim].count <= 1
    ensures victim != ws[0] && forall i | capacity <= i < hi :: victim != ws[i]
  {
    var one := SomeWordOfOne(c, ws, capacity, hi);
    CountOf(c, ws, capacity, hi, 4, one);
    assert one < hi && c[victim].count <= c[ws[one]].count;
    forall i | 0 <= i < hi && ws[i] in c ensures c[ws[i]].count == CountAt(capacity, i, 4) {
      CountOf(c, ws, capacity, hi, 4, i);
    }
  }

  /** A newcomer takes the place of a word that is neither the frequent one nor an earlier newcomer. */
  lemma ShapeMoves(
    c: Counters<string>, c': Counters<string>, ws: seq<string>, capacity: nat, hi: nat, victim: string)
    requires Distinct(ws) && Shape(c, ws, capacity, hi, 4) && 2 <= capacity <= hi < |ws| && |c'| == |c|
    requires ws[hi] in c' && c'[ws[hi]].count == hi + 4
    requires forall w | w in c' && w != ws[hi] :: w in c && c'[w] == c[w]
    requires forall w | w in c && w !in c' :: w == victim
    requires victim != ws[0] && forall i | capacity <= i < hi :: victim != ws[i]
    ensures Shape(c', ws, capacity, hi + 1, 4)
  {
    assert ws[0] in c' && forall i | capacity <= i < hi :: ws[i] in c';
    hide Distinct, IsOneOf;
    ShapeStep(c, c', ws, capacity, hi, 4);
  }

  lemma Newcomer(c: Counters<string>, ws: seq<string>, capacity: nat, hi: nat, c': Counters<string>)
    requires Distinct(ws) && Shape(c, ws, capacity, hi, 4) && 2 <= capacity <= hi < 2 * capacity - 1 && hi < |ws|
    requires Increment(capacity, c, ws[hi], hi + 4, c')
    ensures Shape(c', ws, capacity, hi + 1, 4)
  {
    hide *;
    IsFull(c, ws, capacity, hi, 4);
    NotYet(c, ws, capacity, hi, 4);
    var victim := Eviction(capacity, c, ws[hi], hi + 4, c');
    VictimCameOnce(c, ws, capacity, hi, victim);
    ShapeMoves(c, c', ws, capacity, hi, victim);
  }

  /** When all words that came once are gone, the frequent word has the smallest counter. */
  lemma FrequentIsVictim(c: Counters<string>, ws: seq<string>, capacity: nat, victim: string)
    requires Distinct(ws) && capacity >= 2 && Shape(c, ws, capacity, 2 * capacity - 1, 4) && IsSmallest(c, victim)
    ensures victim == ws[0]
  {
    var hi := 2 * capacity - 1;
    assert IsOneOf(ws, capacity, hi, 4, victim, c[victim].count);
    var i :| 0 <= i < hi && victim == ws[i] && c[victim].count == CountAt(capacity, i, 4);
    CountOf(c, ws, capacity, hi, 4, 0);
    assert c[victim].count <= c[ws[0]].count;
    if 1 <= i < capacity {
      NoWordOfOne(c, ws, capacity, i);
    }
  }

  lemma LastNewcomer(c: Counters<string>, ws: seq<string>, capacity: nat, hi: nat, c': Counters<string>)
    requires Distinct(ws) && capacity >= 2 && hi == 2 * capacity - 1 < |ws| && Shape(c, ws, capacity, hi, 4)
    requires Increment(capacity, c, ws[hi], hi + 4, c')
    ensures ws[0] !in c'
  {
    hide *;
    IsFull(c, ws, capacity, hi, 4);
    NotYet(c, ws, capacity, hi, 4);
    var victim := Eviction(capacity, c, ws[hi], hi + 4, c');
    FrequentIsVictim(c, ws, capacity, victim);
  }

  lemma IsFull(c: Counters<string>, ws: seq<string>, capacity: nat, hi: nat, n: nat)
    requires Shape(c, ws, capacity, hi, n) && capacity <= hi
    ensures |c| == capacity
  {
    hide IsOneOf;
  }

  /** Every run over the stream passes through these tables. */
  lemma {:induction false} EveryRunHasShape(ws: seq<string>, capacity: nat, k: nat, states: seq<Counters<string>>)
    requires Distinct(ws) && capacity >= 2 && |ws| == 2 * capacity && 1 <= k < |ws| + 3
    requires IsRun(capacity, Stream(ws)[..k], states)
    ensures |states| == k + 1 && Shape(states[k], ws, capacity, if k < 4 then 1 else k - 3, if k < 4 then k else 4)
    decreases k
  {
    hide Shape, Increment, Distinct, Stream, IsRun;
    LastStep(ws, capacity, k, states);
    var before := states[..k];
    if k == 1 {
      EmptyRun(capacity, Stream(ws)[..0], before);
      FirstOccurrence(ws, capacity, states[1]);
    } else {
      EveryRunHasShape(ws, capacity, k - 1, before);
      if k <= 4 {
        NextOccurrence(states[k - 1], ws, capacity, k - 1, k, states[k]);
      } else if k - 4 < capacity {
        NewWord(states[k - 1], ws, capacity, k - 4, k, states[k]);
      } else {
        Newcomer(states[k - 1], ws, capacity, k - 4, states[k]);
      }
    }
  }

  lemma EmptyRun<K(!new)>(capacity: nat, steps: seq<Step<K>>, states: seq<Counters<K>>)
    requires steps == [] && IsRun(capacity, steps, states)
    ensures states == [map[]]
  {
  }

  lemma LastStep(ws: seq<string>, capacity: nat, k: nat, states: seq<Counters<string>>)
    requires ws != [] && 1 <= k <= |ws| + 3 && IsRun(capacity, Stream(ws)[..k], states)
    ensures |states| == k + 1 && IsRun(capacity, Stream(ws)[..k - 1], states[..k])
    ensures Increment(capacity, states[k - 1], ws[if k <= 4 then 0 else k - 4], k, states[k])
  {
    var steps := Stream(ws)[..k];
    assert steps[..k - 1] == Stream(ws)[..k - 1] && steps[k - 1] == Stream(ws)[k - 1];
    hide Increment, Stream;
  }

  lemma EveryRunLosesFirst(ws: seq<string>, capacity: nat, states: seq<Counters<string>>)
    requires Distinct(ws) && capacity >= 2 && |ws| == 2 * capacity && IsRun(capacity, Stream(ws), states)
    ensures |states| == 2 * capacity + 4 && ws[0] !in states[2 * capacity + 3]
  {
    hide *;
    var k := 2 * capacity + 2;
    assert Stream(ws)[..k + 1] == Stream(ws);
    LastStep(ws, capacity, k + 1, states);
    EveryRunHasShape(ws, capacity, k, states[..k + 1]);
    LastNewcomer(states[k], ws, capacity, k - 3, states[k + 1]);
  }

  /** The counter can be taken through every sequence of words. */
  lemma {:induction false} RunExists<K(!new)>(capacity: nat, steps: seq<Step<K>>) returns (states: seq<Counters<K>>)
    requires capacity >= 1 && forall i | 0 <= i < |steps| :: steps[i].estimate <= i + 1
    ensures |states| == |steps| + 1 && IsRun(capacity, steps, states)
  {
    if steps == [] {
      states := [map[]];
    } else {
      var n := |steps| - 1;
      var before := RunExists(capacity, steps[..n]);
      hide IsRun;
      var c := NextTable(capacity, before[n], steps[n].word, steps[n].estimate);
      states := before + [c];
      RunExtends(capacity, steps, states);
    }
  }

  lemma RunExtends<K(!new)>(capacity: nat, steps: seq<Step<K>>, states: seq<Counters<K>>)
    requires steps != [] && |states| == |steps| + 1 && IsRun(capacity, steps[..|steps| - 1], states[..|steps|])
    requires var n := |steps| - 1;
      steps[n].estimate <= n + 1 && Increment(capacity, states[n], steps[n].word, steps[n].estimate, states[n + 1])
    ensures IsRun(capacity, steps, states)
  {
  }

  lemma NextTable<K(!new)>(capacity: nat, c: Counters<K>, word: K, estimate: nat) returns (c': Counters<K>)
    requires capacity >= 1
    ensures Increment(capacity, c, word, estimate, c')
  {
    if word in c {
      c' := c[word := WordCounter(SaturatingAdd(c[word].count, 1), c[word].error)];
    } else if |c| < capacity {
      c' := c[word := WordCounter(1, 0)];
    } else {
      FullIsNotEmpty(capacity, c);
      MinExists(Counts(c));
      var victim :| IsMin(Counts(c), victim);
      c' := Replace(c, victim, word, estimate);
    }
  }

  lemma {:induction false} WordsAt<K>(steps: seq<Step<K>>, i: nat)
    requires i < |steps|
    ensures Words(steps)[i] == steps[i].word
  {
    if i < |steps| - 1 {
      WordsAt(steps[..|steps| - 1], i);
    }
  }

  lemma AllFrom(steps: seq<Step<string>>, ws: seq<string>)
    requires forall i | 0 <= i < |steps| :: steps[i].word in ws
    ensures forall w | w in Words(steps) :: w in ws
  {
    forall i | 0 <= i < |steps| ensures Words(steps)[i] in ws {
      WordsAt(steps, i);
    }
  }

  /** For colliding words the estimates of the stream are what the sketch gives. */
  lemma StreamIsEstimated(hash: Hash, width: nat, depth: nat, ws: seq<string>)
    requires width > 0 && depth > 0 && 0 < |ws| <= U64_MAX - 3 && Collide(hash, width, depth, ws)
    ensures AreSketchEstimates(hash, width, depth, Stream(ws))
  {
    hide LeastCollisions, Words, Collide;
    var steps := Stream(ws);
    forall i | 0 <= i < |steps|
      ensures steps[i].estimate == LeastCollisions(hash, width, depth, Words(steps[..i + 1]), steps[i].word)
    {
      AllFrom(steps[..i + 1], ws);
      EstimateCountsAll(hash, width, depth, ws, Words(steps[..i + 1]), steps[i].word);
    }
  }

  lemma WordsAppend<K>(steps: seq<Step<K>>, step: Step<K>)
    ensures Words(steps + [step]) == Words(steps) + [step.word]
  {
    assert (steps + [step])[..|steps|] == steps;
  }

  lemma {:induction false} FourTimes(ws: seq<string>, k: nat)
    requires ws != [] && Distinct(ws) && k <= |ws| + 3
    ensures Occurrences(Words(Stream(ws)[..k]), ws[0]) == if k < 4 then k else 4
    decreases k
  {
    if k == 0 {
      assert Words(Stream(ws)[..0]) == [];
    } else {
      var before, word := Stream(ws)[..k - 1], Stream(ws)[k - 1].word;
      assert word == ws[0] <==> k <= 4;
      assert Stream(ws)[..k] == before + [Stream(ws)[k - 1]];
      hide Words, Occurrences, Distinct, Stream;
      FourTimes(ws, k - 1);
      WordsAppend(before, Stream(ws)[k - 1]);
      OccurrencesAppend(Words(before), word, ws[0]);
    }
  }

  /**
   * Main result, the failing stream: whatever the hashes, the size of the sketch and the stop words are, for every
   * capacity above 1 there is a stream of recordable words on which every run loses a word that came 4 times in
   * `2 * capacity + 3`, more than its share.
   */
  lemma FrequentWordIsLost(capacity: nat, hash: Hash, width: nat, depth: nat, stopWords: set<string>)
    returns (steps: seq<Step<string>>, word: string)
    requires width > 0 && depth > 0 && capacity >= 2 && 2 * capacity + 3 <= U64_MAX
    ensures |steps| == 2 * capacity + 3 && Occurrences(Words(steps), word) == 4
    ensures AreSketchEstimates(hash, width, depth, steps) && AllRecordable(stopWords, Words(steps))
    ensures exists states :: IsRun(capacity, steps, states)
    ensures forall states | IsRun(capacity, steps, states) :: |states| == |steps| + 1 && word !in states[|steps|]
  {
    var ws := CollidingWordsExist(hash, width, depth, stopWords, 2 * capacity);
    steps, word := Stream(ws), ws[0];
    StreamIsRecordable(ws, stopWords);
    hide *;
    StreamIsEstimated(hash, width, depth, ws);
    assert steps[..|steps|] == steps;
    FourTimes(ws, |steps|);
    StreamHasRun(ws, capacity);
    forall states | IsRun(capacity, steps, states)
      ensures |states| == |steps| + 1 && word !in states[|steps|]
    {
      EveryRunLosesFirst(ws, capacity, states);
    }
  }

  lemma StreamIsRecordable(ws: seq<string>, stopWords: set<string>)
    requires ws != [] && AllRecordable(stopWords, ws)
    ensures AllRecordable(stopWords, Words(Stream(ws)))
  {
    hide Words, Recordable;
    AllFrom(Stream(ws), ws);
  }

  lemma StreamHasRun(ws: seq<string>, capacity: nat)
    requires ws != [] && capacity >= 1
    ensures exists states :: IsRun(capacity, Stream(ws), states)
  {
    hide IsRun;
    var states := RunExists(capacity, Stream(ws));
  }

  predicate Heavy(capacity: nat, steps: seq<Step<string>>, word: string)
  {
    Occurrences(Words(steps), word) * capacity > |steps|
  }

  /** A run that the counter can be taken through, with `word` above its share. */
  ghost predicate IsHeavyRun(
    capacity: nat, hash: Hash, width: nat, depth: nat, stopWords: set<string>, steps: seq<Step<string>>,
    states: seq<Counters<string>>, word: string)
    requires width > 0
  {
    && |steps| <= U64_MAX && |states| == |steps| + 1 && IsRun(capacity, steps, states)
    && AreSketchEstimates(hash, width, depth, steps) && AllRecordable(stopWords, Words(steps))
    && Heavy(capacity, steps, word)
  }

  /** The guarantee that Space-Saving gives: whoever has more than a share of the messages is tracked. */
  ghost predicate TracksHeavyWords(capacity: nat, hash: Hash, width: nat, depth: nat, stopWords: set<string>)
    requires width > 0
  {
    forall steps: seq<Step<string>>, states: seq<Counters<string>>, word: string |
      IsHeavyRun(capacity, hash, width, depth, stopWords, steps, states, word) :: word in states[|steps|]
  }

  /**
   * Main result: whatever the hashes, the size of the sketch and the stop words are, the counter keeps that
   * guarantee exactly when its capacity is 1. The bound on the capacity leaves room for the failing run before
   * counters saturate.
   */
  lemma GuaranteeOnlyForOne(capacity: nat, hash: Hash, width: nat, depth: nat, stopWords: set<string>)
    requires width > 0 && depth > 0 && 1 <= capacity && 2 * capacity + 3 <= U64_MAX
    ensures TracksHeavyWords(capacity, hash, width, depth, stopWords) <==> capacity == 1
  {
    hide Increment, IsRun, AreSketchEstimates, AllRecordable, Words, Occurrences;
    if capacity == 1 {
      forall steps: seq<Step<string>>, word: string ensures !Heavy(capacity, steps, word) {
        OccurrencesAppend(Words(steps), word, word);
      }
    } else {
      var steps, word := FrequentWordIsLost(capacity, hash, width, depth, stopWords);
      var states :| IsRun(capacity, steps, states);
      assert Heavy(capacity, steps, word);
      assert IsHeavyRun(capacity, hash, width, depth, stopWords, steps, states, word);
    }
  }
}
