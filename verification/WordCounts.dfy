/** The Count-Min sketch and the word counter built on it (statistics.rs). */
module WordCounts {
  import opened CountMaps

  /** The sketch's hash functions, one per row, are arbitrary. */
  type Hash = (string, nat) -> nat

  function Column(hash: Hash, width: nat, word: string, row: nat): (j: nat)
    requires width > 0
    ensures j < width
  {
    hash(word, row) % width
  }

  /** How many words of the history fall into column `j` of a row. */
  function Colliding(hash: Hash, width: nat, history: seq<string>, row: nat, j: nat): (n: nat)
    requires width > 0
    ensures n <= |history|
  {
    if history == [] then 0
    else
      var n := |history| - 1;
      Colliding(hash, width, history[..n], row, j) + if Column(hash, width, history[n], row) == j then 1 else 0
  }

  lemma CollidingAppend(hash: Hash, width: nat, history: seq<string>, word: string, row: nat, j: nat)
    requires width > 0
    ensures Colliding(hash, width, history + [word], row, j)
      == Colliding(hash, width, history, row, j) + if Column(hash, width, word, row) == j then 1 else 0
  {
    assert (history + [word])[..|history|] == history;
  }

  /** A word collides at least with itself. */
  lemma {:induction false} OccurrencesCollide(hash: Hash, width: nat, history: seq<string>, word: string, row: nat)
    requires width > 0
    ensures Occurrences(history, word) <= Colliding(hash, width, history, row, Column(hash, width, word, row))
  {
    if history != [] {
      var n := |history| - 1;
      OccurrencesCollide(hash, width, history[..n], word, row);
      assert history == history[..n] + [history[n]];
      OccurrencesAppend(history[..n], history[n], word);
    }
  }

  function SumRow(row: seq<nat>): nat
  {
    if row == [] then 0 else SumRow(row[..|row| - 1]) + row[|row| - 1]
  }

  /** A row of collision counts, cut after `k` columns. */
  function TrueRow(hash: Hash, width: nat, history: seq<string>, row: nat, k: nat): (r: seq<nat>)
    requires width > 0
    ensures |r| == k && forall j | 0 <= j < k :: r[j] == Colliding(hash, width, history, row, j)
  {
    seq(k, j requires 0 <= j < k => Colliding(hash, width, history, row, j))
  }

  lemma {:induction false} TrueRowGrows(hash: Hash, width: nat, history: seq<string>, word: string, row: nat, k: nat)
    requires width > 0
    ensures SumRow(TrueRow(hash, width, history + [word], row, k))
      == SumRow(TrueRow(hash, width, history, row, k)) + if Column(hash, width, word, row) < k then 1 else 0
    decreases k
  {
    if k > 0 {
      TrueRowGrows(hash, width, history, word, row, k - 1);
      CollidingAppend(hash, width, history, word, row, k - 1);
      assert TrueRow(hash, width, history, row, k)[..k - 1] == TrueRow(hash, width, history, row, k - 1);
      ghost var longer := history + [word];
      assert TrueRow(hash, width, longer, row, k)[..k - 1] == TrueRow(hash, width, longer, row, k - 1);
    }
  }

  lemma {:induction false} EmptyRowSumsToZero(hash: Hash, width: nat, row: nat, k: nat)
    requires width > 0
    ensures SumRow(TrueRow(hash, width, [], row, k)) == 0
    decreases k
  {
    if k > 0 {
      EmptyRowSumsToZero(hash, width, row, k - 1);
      assert TrueRow(hash, width, [], row, k)[..k - 1] == TrueRow(hash, width, [], row, k - 1);
    }
  }

  /** Every row distributes the whole history over its columns, whatever its hash function is. */
  lemma {:induction false} RowsSumToTotal(hash: Hash, width: nat, history: seq<string>, row: nat)
    requires width > 0
    ensures SumRow(TrueRow(hash, width, history, row, width)) == |history|
  {
    if history == [] {
      EmptyRowSumsToZero(hash, width, row, width);
    } else {
      var n := |history| - 1;
      RowsSumToTotal(hash, width, history[..n], row);
      assert history == history[..n] + [history[n]];
      TrueRowGrows(hash, width, history[..n], history[n], row, width);
    }
  }

  /** The least number of collisions that any of the first `depth` rows sees. */
  function LeastCollisions(hash: Hash, width: nat, depth: nat, history: seq<string>, word: string): (n: nat)
    requires width > 0
    ensures depth == 0 ==> n == U64_MAX
    ensures forall i | 0 <= i < depth :: n <= Colliding(hash, width, history, i, Column(hash, width, word, i))
    ensures n == U64_MAX
      || exists i :: 0 <= i < depth && n == Colliding(hash, width, history, i, Column(hash, width, word, i))
  {
    if depth == 0 then U64_MAX
    else
      var rest := LeastCollisions(hash, width, depth - 1, history, word);
      var here := Colliding(hash, width, history, depth - 1, Column(hash, width, word, depth - 1));
      if here < rest then here else rest
  }

  lemma OneMoreRow(hash: Hash, width: nat, i: nat, history: seq<string>, word: string)
    requires width > 0
    ensures LeastCollisions(hash, width, i + 1, history, word)
      == Lesser(LeastCollisions(hash, width, i, history, word),
                Colliding(hash, width, history, i, Column(hash, width, word, i)))
  {
  }

  function Lesser(a: nat, b: nat): nat
  {
    if a < b then a else b
  }

  /** The sketch never under-counts a word, and never counts more than everything. */
  lemma EstimateBounds(hash: Hash, width: nat, depth: nat, history: seq<string>, word: string)
    requires width > 0 && depth > 0 && |history| <= U64_MAX
    ensures Occurrences(history, word) <= LeastCollisions(hash, width, depth, history, word) <= |history|
  {
    OccurrencesAppend(history, word, word);
    var least := LeastCollisions(hash, width, depth, history, word);
    if least < U64_MAX {
      var i :| 0 <= i < depth && least == Colliding(hash, width, history, i, Column(hash, width, word, i));
      OccurrencesCollide(hash, width, history, word, i);
    }
    assert LeastCollisions(hash, width, depth, history, word)
      <= Colliding(hash, width, history, 0, Column(hash, width, word, 0));
  }

  class CountMinSketch {
    const hash: Hash
    const width: nat
    const depth: nat
    var rows: seq<seq<nat>>
    ghost var history: seq<string>

    ghost predicate Valid()
      reads this
    {
      && width > 0 && depth > 0
      && |history| <= U64_MAX
      && |rows| == depth
      && forall i | 0 <= i < depth :: rows[i] == TrueRow(hash, width, history, i, width)
    }

    constructor (hash: Hash, width: nat, depth: nat)
      ensures Valid() && history == [] && this.hash == hash
      ensures this.width == (if width < 64 then 64 else width) && this.depth == (if depth < 2 then 2 else depth)
    {
      var w, d := if width < 64 then 64 else width, if depth < 2 then 2 else depth;
      this.hash, this.width, this.depth := hash, w, d;
      rows := seq(d, i => seq(w, j => 0));
      history := [];
    }

    /** Counts one more `word` in every row. */
    method Add(word: string)
      requires Valid() && |history| < U64_MAX
      modifies this
      ensures Valid() && history == old(history) + [word]
    {
      ghost var before := history;
      history := history + [word];
      var i := 0;
      while i < depth
        invariant 0 <= i <= depth && |rows| == depth
        invariant history == before + [word]
        invariant forall k | 0 <= k < i :: rows[k] == TrueRow(hash, width, history, k, width)
        invariant forall k | i <= k < depth :: rows[k] == TrueRow(hash, width, before, k, width)
      {
        var index := Column(hash, width, word, i);
        var cell: nat := SaturatingAdd(rows[i][index], 1);
        var row: seq<nat> := rows[i][index := cell];
        rows := rows[i := row];
        forall j | 0 <= j < width ensures rows[i][j] == Colliding(hash, width, history, i, j) {
          CollidingAppend(hash, width, before, word, i, j);
        }
        i := i + 1;
      }
    }

    /** The estimate is the least number of collisions over the rows. */
    method Estimate(word: string) returns (n: nat)
      requires Valid()
      ensures n == LeastCollisions(hash, width, depth, history, word)
    {
      n := U64_MAX;
      assert LeastCollisions(hash, width, 0, history, word) == n;
      hide LeastCollisions, Colliding, Column;
      var i := 0;
      while i < depth
        invariant 0 <= i <= depth && n == LeastCollisions(hash, width, i, history, word)
      {
        var value := rows[i][Column(hash, width, word, i)];
        OneMoreRow(hash, width, i, history, word);
        n := if n < value then n else value;
        i := i + 1;
      }
    }
  }
}
