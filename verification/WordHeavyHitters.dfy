/** The hybrid word counter: Space-Saving whose newcomers may start from a sketch estimate (statistics.rs). */
module WordHeavyHitter {
  import opened Arithmetic
  import opened CountMaps
  import opened CounterTables
  import opened Ranking
  import opened WordCounts

  type Counters<K> = Table<K, ()>

  function WordCounter(count: nat, error: nat): Counter<()>
  {
    Counter((), count, error)
  }

  function Replace<K(==)>(c: Counters<K>, victim: K, word: K, estimate: nat): Counters<K>
    requires victim in c
  {
    Swap(c, victim, word, WordCounter(Max(SaturatingAdd(c[victim].count, 1), estimate), c[victim].count))
  }

  /** One `increment`, given the sketch's estimate for the word (0 without a sketch). */
  ghost predicate Increment<K(!new)>(capacity: nat, c: Counters<K>, word: K, estimate: nat, c': Counters<K>)
  {
    if word in c then
      c' == c[word := WordCounter(SaturatingAdd(c[word].count, 1), c[word].error)]
    else if |c| < capacity then
      c' == c[word := WordCounter(1, 0)]
    else
      exists victim :: IsMin(Counts(c), victim) && c' == Replace(c, victim, word, estimate)
  }

  /** Counters lie between the true count and the total; untracked words stay at or below the smallest counter. */
  ghost predicate Inv<K(!new)>(capacity: nat, c: Counters<K>, history: seq<K>)
  {
    && capacity >= 1 && |c| <= capacity
    && (forall w | w in c :: Occurrences(history, w) <= c[w].count <= |history|)
    && (forall w | w !in c :: Occurrences(history, w) <= Floor(capacity, Counts(c)))
  }

  /** What every kind of step does: the floor does not fall, only `word` changes, and a victim was at the floor. */
  lemma InvAfter<K(!new)>(capacity: nat, c: Counters<K>, history: seq<K>, word: K, c': Counters<K>)
    requires Inv(capacity, c, history) && |c| <= |c'| <= capacity
    requires |c| >= capacity ==> forall w | w in c' :: Floor(capacity, Counts(c)) <= c'[w].count
    requires word in c' && forall w | w in c' && w != word :: w in c && c'[w] == c[w]
    requires forall w | w in c && w !in c' :: c[w].count <= Floor(capacity, Counts(c))
    requires (if word in c then c[word].count else Floor(capacity, Counts(c))) < c'[word].count <= |history| + 1
    ensures Inv(capacity, c', history + [word])
  {
    hide Occurrences, Floor;
    SameSize(c);
    SameSize(c');
    FloorRises(capacity, Counts(c), Counts(c'));
    hide Counts;
    forall w
      ensures Occurrences(history + [word], w) == Occurrences(history, w) + if w == word then 1 else 0
    {
      OccurrencesAppend(history, word, w);
    }
  }

  lemma IncrementEvicting<K(!new)>(capacity: nat, c: Counters<K>, history: seq<K>, word: K, estimate: nat, victim: K)
    requires Inv(capacity, c, history) && |history| < U64_MAX && estimate <= |history| + 1
    requires word !in c && |c| >= capacity && IsMin(Counts(c), victim)
    ensures Inv(capacity, Replace(c, victim, word, estimate), history + [word])
  {
    assert victim in c && Counts(c)[victim] == c[victim].count;
    SameSize(c);
    FloorIsMin(capacity, Counts(c), victim);
    TableFloorBelow(capacity, c);
    var counter := WordCounter(Max(c[victim].count + 1, estimate), c[victim].count);
    assert Replace(c, victim, word, estimate) == Swap(c, victim, word, counter);
    SwapShape(c, victim, word, counter);
    assert c[victim].count < counter.count <= |history| + 1;
    hide Replace, Swap, SaturatingAdd, Occurrences, Floor, IsMin, Counts, Inv, Max;
    InvAfter(capacity, c, history, word, Swap(c, victim, word, counter));
  }

  lemma IncrementKeepsInv<K(!new)>(
    capacity: nat, c: Counters<K>, history: seq<K>, word: K, estimate: nat, c': Counters<K>)
    requires Inv(capacity, c, history) && |history| < U64_MAX && estimate <= |history| + 1
    requires Increment(capacity, c, word, estimate, c')
    ensures Inv(capacity, c', history + [word])
  {
    hide Occurrences, Floor, Counts;
    TableFloorBelow(capacity, c);
    if word in c {
      UpdateShape(c, word, c'[word]);
      InvAfter(capacity, c, history, word, c');
    } else if |c| < capacity {
      UpdateShape(c, word, c'[word]);
      InvAfter(capacity, c, history, word, c');
    } else {
      var victim :| IsMin(Counts(c), victim) && c' == Replace(c, victim, word, estimate);
      IncrementEvicting(capacity, c, history, word, estimate, victim);
    }
  }

  class WordHeavyHitters {
    const capacity: nat
    const sketch: CountMinSketch?
    var counters: Counters<string>
    ghost var history: seq<string>

    ghost predicate Valid()
      reads this, sketch
    {
      && Inv(capacity, counters, history)
      && |history| <= U64_MAX
      && (sketch != null ==> sketch.Valid() && sketch.history == history)
    }

    constructor (capacity: nat, sketch: CountMinSketch?)
      requires sketch != null ==> sketch.Valid() && sketch.history == []
      ensures Valid() && history == [] && counters == map[]
      ensures this.sketch == sketch && this.capacity == if capacity < 1 then 1 else capacity
    {
      this.capacity := if capacity < 1 then 1 else capacity;
      this.sketch := sketch;
      counters := map[];
      history := [];
    }

    /** What the sketch knows of a word. */
    ghost function Known(word: string): nat
      reads sketch
      requires sketch != null ==> sketch.Valid()
    {
      if sketch == null then 0
      else LeastCollisions(sketch.hash, sketch.width, sketch.depth, sketch.history, word)
    }

    method Estimate(word: string) returns (n: nat)
      requires sketch != null ==> sketch.Valid()
      ensures n == Known(word)
    {
      n := 0;
      if sketch != null {
        n := sketch.Estimate(word);
      }
    }

    lemma KnownIsBounded(word: string)
      requires sketch != null ==> sketch.Valid()
      ensures sketch != null ==> Occurrences(sketch.history, word) <= Known(word) <= |sketch.history|
    {
      if sketch != null {
        EstimateBounds(sketch.hash, sketch.width, sketch.depth, sketch.history, word);
      }
    }

    /** `increment`: the sketch first, then the table. */
    method Add(word: string)
      requires Valid() && |history| < U64_MAX
      modifies this, sketch
      ensures Valid() && history == old(history) + [word]
      ensures Increment(capacity, old(counters), word, Known(word), counters)
    {
      assert capacity >= 1;
      hide Inv, Occurrences, LeastCollisions, Floor, TrueRow, Increment;
      ghost var before := history;
      history := history + [word];
      if sketch != null {
        sketch.Add(word);
      }
      KnownIsBounded(word);
      IncrementKeepsInvForAll(counters, before, word, Known(word));
      CountWord(word);
    }

    /** The table part of `increment`. */
    method CountWord(word: string)
      requires capacity >= 1 && (sketch != null ==> sketch.Valid())
      modifies this`counters
      ensures Increment(capacity, old(counters), word, Known(word), counters)
    {
      hide LeastCollisions, TrueRow, Known;
      if word in counters {
        var counter := counters[word];
        counters := counters[word := WordCounter(SaturatingAdd(counter.count, 1), counter.error)];
        return;
      }
      if |counters| < capacity {
        counters := counters[word := WordCounter(1, 0)];
        return;
      }
      FullIsNotEmpty(capacity, counters);
      var key := FindMin(Counts(counters));
      var minCount := counters[key].count;
      var estimate := Estimate(word);
      counters := counters - {key};
      counters := counters[word := WordCounter(Max(SaturatingAdd(minCount, 1), estimate), minCount)];
      assert counters == Replace(old(counters), key, word, estimate);
    }

    lemma IncrementKeepsInvForAll(c: Counters<string>, before: seq<string>, word: string, estimate: nat)
      requires Inv(capacity, c, before) && |before| < U64_MAX && estimate <= |before| + 1
      ensures forall c': Counters<string> | Increment(capacity, c, word, estimate, c') ::
        Inv(capacity, c', before + [word])
    {
      forall c': Counters<string> | Increment(capacity, c, word, estimate, c')
        ensures Inv(capacity, c', before + [word])
      {
        IncrementKeepsInv(capacity, c, before, word, estimate, c');
      }
    }

    ghost function Score(word: string): nat
      reads this, sketch
      requires sketch != null ==> sketch.Valid()
      requires word in counters
    {
      Max(counters[word].count, Known(word))
    }

    ghost predicate AreScores(scores: map<string, nat>)
      reads this, sketch
      requires sketch != null ==> sketch.Valid()
    {
      scores.Keys == counters.Keys && forall w | w in scores :: scores[w] == Score(w)
    }

    /** The scores that the sorting compares. */
    method ScoreTable() returns (scores: map<string, nat>)
      requires Valid()
      ensures AreScores(scores)
    {
      hide Inv, Occurrences, LeastCollisions, Floor, TrueRow, CountMinSketch.Valid;
      scores := map[];
      var todo := counters.Keys;
      while todo != {}
        invariant todo <= counters.Keys && scores.Keys == counters.Keys - todo
        invariant forall w | w in scores :: scores[w] == Score(w)
        decreases todo
      {
        var w :| w in todo;
        var estimate := Estimate(w);
        scores := scores[w := Max(counters[w].count, estimate)];
        todo := todo - {w};
      }
    }

    /** The words with their scores, best first. */
    method TopWords(n: nat) returns (top: seq<Ranked>)
      requires Valid()
      ensures forall scores | AreScores(scores) :: IsTop(scores, n, top)
    {
      hide Inv, IsTop, Score, CountMinSketch.Valid;
      var scores := ScoreTable();
      assert forall other | AreScores(other) :: other == scores;
      top := TopRanked(scores, n);
    }

    /** Main result: the score of a tracked word lies between its true count and the total. */
    lemma ScoreIsBounded(word: string)
      requires Valid() && word in counters
      ensures Occurrences(history, word) <= Score(word) <= |history|
    {
      KnownIsBounded(word);
    }

    /** Main result: every word more frequent than the last reported score is reported. */
    lemma TopWordsAreComplete(scores: map<string, nat>, n: nat, top: seq<Ranked>, word: string)
      requires Valid() && AreScores(scores) && IsTop(scores, n, top) && top != []
      requires Occurrences(history, word) > top[|top| - 1].score
      ensures exists r :: r in top && r.key == word
    {
      var last := top[|top| - 1];
      assert last in top && IsEntry(scores, last);
      ScoreIsBounded(last.key);
      if word in counters {
        ScoreIsBounded(word);
        AboveLastIsListed(scores, n, top, word);
      } else {
        TableFloorBelow(capacity, counters);
      }
    }
  }
}
