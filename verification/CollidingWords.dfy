/** For all hashes a sketch has many words that it cannot tell apart (statistics.rs). */
module CollidingWords {
  import opened Arithmetic
  import opened CountMaps
  import opened WordCounts

  /** A word that lower-casing and filtering pass on as it is: small letters, at least two, and no stop word. */
  predicate Recordable(stopWords: set<string>, word: string)
  {
    |word| >= 2 && word !in stopWords && forall i | 0 <= i < |word| :: 'a' <= word[i] <= 'z'
  }

  /** A number written with 26 letters, without a letter for 0. */
  function Letters(n: nat): (w: string)
    ensures forall i | 0 <= i < |w| :: 'a' <= w[i] <= 'z'
  {
    if n == 0 then [] else Letters((n - 1) / 26) + ['a' + ((n - 1) % 26) as char]
  }

  lemma {:induction false} LettersDiffer(a: nat, b: nat)
    requires Letters(a) == Letters(b)
    ensures a == b
  {
    if a > 0 && b > 0 {
      var v, w := Letters(a), Letters(b);
      assert v[..|v| - 1] == Letters((a - 1) / 26) && w[..|w| - 1] == Letters((b - 1) / 26);
      assert v[|v| - 1] == w[|w| - 1];
      LettersDiffer((a - 1) / 26, (b - 1) / 26);
    }
  }

  function Name(prefix: nat, n: nat): (w: string)
    ensures |w| >= prefix && forall i | 0 <= i < |w| :: 'a' <= w[i] <= 'z'
  {
    seq(prefix, _ => 'a') + Letters(n)
  }

  lemma NamesDiffer(prefix: nat, a: nat, b: nat)
    requires Name(prefix, a) == Name(prefix, b)
    ensures a == b
  {
    assert Name(prefix, a)[prefix..] == Letters(a) && Name(prefix, b)[prefix..] == Letters(b);
    LettersDiffer(a, b);
  }

  lemma {:induction false} LongerThanAll(words: set<string>) returns (n: nat)
    ensures n >= 2 && forall w | w in words :: |w| < n
    decreases words
  {
    n := 2;
    if words != {} {
      var w :| w in words;
      n := LongerThanAll(words - {w});
      n := if |w| < n then n else |w| + 1;
    }
  }

  ghost predicate Distinct(ws: seq<string>)
  {
    forall i, j | 0 <= i < j < |ws| :: ws[i] != ws[j]
  }

  ghost predicate AllRecordable(stopWords: set<string>, ws: seq<string>)
  {
    forall w | w in ws :: Recordable(stopWords, w)
  }

  /** In each of the first `depth` rows all words share their column. */
  ghost predicate Collide(hash: Hash, width: nat, depth: nat, ws: seq<string>)
    requires width > 0
  {
    forall v, w, r | v in ws && w in ws && 0 <= r < depth :: Column(hash, width, v, r) == Column(hash, width, w, r)
  }

  lemma RecordableWords(stopWords: set<string>, n: nat) returns (ws: seq<string>)
    ensures |ws| == n && Distinct(ws) && AllRecordable(stopWords, ws)
  {
    var prefix := LongerThanAll(stopWords);
    ws := seq(n, i requires 0 <= i < n => Name(prefix, i));
    forall i, j | 0 <= i < j < n ensures ws[i] != ws[j] {
      if ws[i] == ws[j] {
        NamesDiffer(prefix, i, j);
      }
    }
  }

  /** The words that fall into column `j` of a row. */
  function InColumn(hash: Hash, width: nat, ws: seq<string>, row: nat, j: nat): (us: seq<string>)
    requires width > 0
    ensures |us| == Colliding(hash, width, ws, row, j)
    ensures forall w | w in us :: w in ws && Column(hash, width, w, row) == j
  {
    if ws == [] then []
    else
      var n := |ws| - 1;
      InColumn(hash, width, ws[..n], row, j) + if Column(hash, width, ws[n], row) == j then [ws[n]] else []
  }

  lemma {:induction false} InColumnIsDistinct(hash: Hash, width: nat, ws: seq<string>, row: nat, j: nat)
    requires width > 0 && Distinct(ws)
    ensures Distinct(InColumn(hash, width, ws, row, j))
  {
    if ws != [] {
      InColumnIsDistinct(hash, width, ws[..|ws| - 1], row, j);
    }
  }

  lemma {:induction false} FewInEach(row: seq<nat>, n: nat)
    requires forall j | 0 <= j < |row| :: row[j] < n
    ensures SumRow(row) + |row| <= |row| * n
  {
    if row != [] {
      FewInEach(row[..|row| - 1], n);
      MulNext(|row| - 1, n);
    }
  }

  /** The pigeonhole principle: some column of a row holds its share of the words. */
  lemma FullColumn(hash: Hash, width: nat, ws: seq<string>, row: nat, n: nat) returns (j: nat)
    requires width > 0 && |ws| >= width * n
    ensures j < width && |InColumn(hash, width, ws, row, j)| >= n
  {
    var counts := TrueRow(hash, width, ws, row, width);
    RowsSumToTotal(hash, width, ws, row);
    if forall j | 0 <= j < width :: counts[j] < n {
      FewInEach(counts, n);
      assert false;
    }
    j :| 0 <= j < width && counts[j] >= n;
  }

  lemma OneRowMore(hash: Hash, width: nat, depth: nat, ws: seq<string>, us: seq<string>, j: nat)
    requires width > 0 && Collide(hash, width, depth, ws)
    requires forall w | w in us :: w in ws && Column(hash, width, w, depth) == j
    ensures Collide(hash, width, depth + 1, us)
  {
    hide Column;
  }

  /** Main result: for all hashes and every size of the sketch there are as many colliding words as one likes. */
  lemma {:induction false} CollidingWordsExist(hash: Hash, width: nat, depth: nat, stopWords: set<string>, n: nat)
    returns (ws: seq<string>)
    requires width > 0
    ensures |ws| == n && Distinct(ws) && AllRecordable(stopWords, ws) && Collide(hash, width, depth, ws)
    decreases depth
  {
    if depth == 0 {
      ws := RecordableWords(stopWords, n);
    } else {
      ws := CollidingWordsExist(hash, width, depth - 1, stopWords, width * n);
      var j := FullColumn(hash, width, ws, depth - 1, n);
      InColumnIsDistinct(hash, width, ws, depth - 1, j);
      hide Collide, Recordable, InColumn, Column;
      var us := InColumn(hash, width, ws, depth - 1, j)[..n];
      assert forall w | w in us :: w in ws && Column(hash, width, w, depth - 1) == j;
      OneRowMore(hash, width, depth - 1, ws, us, j);
      ws := us;
    }
  }

  /** In a history of colliding words every estimate is the number of words. */
  lemma {:induction false} ColumnCountsAll(
    hash: Hash, width: nat, depth: nat, ws: seq<string>, history: seq<string>, word: string, row: nat)
    requires width > 0 && row < depth && Collide(hash, width, depth, ws)
    requires word in ws && forall w | w in history :: w in ws
    ensures Colliding(hash, width, history, row, Column(hash, width, word, row)) == |history|
  {
    if history != [] {
      ColumnCountsAll(hash, width, depth, ws, history[..|history| - 1], word, row);
    }
  }

  lemma EstimateCountsAll(
    hash: Hash, width: nat, depth: nat, ws: seq<string>, history: seq<string>, word: string)
    requires width > 0 && depth > 0 && |history| <= U64_MAX && Collide(hash, width, depth, ws)
    requires word in ws && forall w | w in history :: w in ws
    ensures LeastCollisions(hash, width, depth, history, word) == |history|
  {
    forall row | 0 <= row < depth
      ensures Colliding(hash, width, history, row, Column(hash, width, word, row)) == |history|
    {
      ColumnCountsAll(hash, width, depth, ws, history, word, row);
    }
    hide LeastCollisions, Colliding, Column, Collide;
    var n := LeastCollisions(hash, width, depth, history, word);
    assert n <= Colliding(hash, width, history, 0, Column(hash, width, word, 0));
  }
}
