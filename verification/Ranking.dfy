/** The top-n lists: counters sorted by score, largest first, ties by key (statistics.rs). */
module Ranking {
  import opened Arithmetic
  import opened CountMaps
  import opened CounterTables
  import opened SpaceSaving

  /** String order: lexicographic by character. */
  predicate Less(a: string, b: string)
  {
    b != [] && (a == [] || a[0] < b[0] || (a[0] == b[0] && Less(a[1..], b[1..])))
  }

  lemma {:induction false} LessIsTotal(a: string, b: string)
    ensures a == b || Less(a, b) || Less(b, a)
    ensures !(Less(a, b) && Less(b, a)) && !Less(a, a)
  {
    if a != [] && b != [] && a[0] == b[0] {
      LessIsTotal(a[1..], b[1..]);
      if a[1..] == b[1..] {
        assert a == [a[0]] + a[1..] && b == [b[0]] + b[1..];
      }
    }
    if a != [] {
      LessIsIrreflexive(a);
    }
  }

  lemma {:induction false} LessIsIrreflexive(a: string)
    ensures !Less(a, a)
  {
    if a != [] {
      LessIsIrreflexive(a[1..]);
    }
  }

  lemma {:induction false} LessIsTransitive(a: string, b: string, c: string)
    requires Less(a, b) && Less(b, c)
    ensures Less(a, c)
  {
    if a != [] && a[0] == b[0] == c[0] {
      LessIsTransitive(a[1..], b[1..], c[1..]);
    }
  }

  /** After a common beginning, one string ends or has the smaller character. */
  ghost predicate FirstDiffersAt(a: string, b: string, k: nat)
  {
    k <= |a| && k < |b| && a[..k] == b[..k] && (k == |a| || a[k] < b[k])
  }

  /** The order is the lexicographic one. */
  lemma {:induction false} LessIsLexicographic(a: string, b: string)
    ensures Less(a, b) <==> exists k: nat :: FirstDiffersAt(a, b, k)
  {
    if b != [] && (a == [] || a[0] < b[0]) {
      assert FirstDiffersAt(a, b, 0);
    } else if b != [] && a[0] == b[0] {
      LessIsLexicographic(a[1..], b[1..]);
      if Less(a, b) {
        var k: nat :| FirstDiffersAt(a[1..], b[1..], k);
        assert a[..k + 1] == [a[0]] + a[1..][..k] && b[..k + 1] == [b[0]] + b[1..][..k];
        assert FirstDiffersAt(a, b, k + 1);
      }
      forall k: nat | FirstDiffersAt(a, b, k) ensures Less(a, b) {
        assert k > 0;
        assert a[1..][..k - 1] == a[..k][1..] && b[1..][..k - 1] == b[..k][1..];
        assert FirstDiffersAt(a[1..], b[1..], k - 1);
      }
    }
  }

  datatype Ranked = Ranked(key: string, score: nat)

  predicate Before(a: Ranked, b: Ranked)
  {
    a.score > b.score || (a.score == b.score && Less(a.key, b.key))
  }

  lemma BeforeIsTotal(a: Ranked, b: Ranked)
    ensures a == b || Before(a, b) || Before(b, a)
    ensures !(Before(a, b) && Before(b, a))
  {
    LessIsTotal(a.key, b.key);
  }

  lemma BeforeIsTransitive(a: Ranked, b: Ranked, c: Ranked)
    requires Before(a, b) && Before(b, c)
    ensures Before(a, c)
  {
    if a.score == b.score == c.score {
      LessIsTransitive(a.key, b.key, c.key);
    }
  }

  ghost predicate Sorted(rs: seq<Ranked>)
  {
    forall i, j | 0 <= i < j < |rs| :: Before(rs[i], rs[j])
  }

  ghost predicate IsEntry(scores: map<string, nat>, r: Ranked)
  {
    r.key in scores && scores[r.key] == r.score
  }

  /** `rs` lists exactly the entries of `scores`, in order. */
  ghost predicate IsRanking(scores: map<string, nat>, rs: seq<Ranked>)
  {
    Sorted(rs) && forall r :: r in rs <==> IsEntry(scores, r)
  }

  /** The first `n` entries of `scores`: sorted, and no entry left out comes before one that is in. */
  ghost predicate IsTop(scores: map<string, nat>, n: nat, top: seq<Ranked>)
  {
    && |top| == (if n < |scores| then n else |scores|)
    && Sorted(top)
    && (forall r | r in top :: IsEntry(scores, r))
    && (forall r, i | IsEntry(scores, r) && r !in top && 0 <= i < |top| :: Before(top[i], r))
  }

  method InsertSorted(rs: seq<Ranked>, r: Ranked) returns (out: seq<Ranked>)
    requires Sorted(rs) && r !in rs
    ensures Sorted(out) && forall x :: x in out <==> x in rs || x == r
  {
    var i := 0;
    while i < |rs| && Before(rs[i], r)
      invariant 0 <= i <= |rs|
      invariant forall k | 0 <= k < i :: Before(rs[k], r)
    {
      i := i + 1;
    }
    out := rs[..i] + [r] + rs[i..];
    forall k | i <= k < |rs| ensures Before(r, rs[k]) {
      BeforeIsTotal(rs[i], r);
      if k > i {
        BeforeIsTransitive(r, rs[i], rs[k]);
      }
    }
  }

  /** Stands in for `sort_by` on the collected entries of a hash map. */
  method SortEntries(scores: map<string, nat>) returns (rs: seq<Ranked>)
    ensures IsRanking(scores, rs)
  {
    rs := [];
    var todo := scores.Keys;
    while todo != {}
      invariant todo <= scores.Keys && Sorted(rs)
      invariant forall r :: r in rs <==> IsEntry(scores, r) && r.key !in todo
      decreases todo
    {
      var k :| k in todo;
      rs := InsertSorted(rs, Ranked(k, scores[k]));
      todo := todo - {k};
    }
  }

  function KeysOf(rs: seq<Ranked>): (ks: set<string>)
    ensures forall k :: k in ks <==> exists i :: 0 <= i < |rs| && rs[i].key == k
  {
    if rs == [] then {} else KeysOf(rs[..|rs| - 1]) + {rs[|rs| - 1].key}
  }

  lemma LastKeyIsNew(scores: map<string, nat>, rs: seq<Ranked>)
    requires rs != [] && Sorted(rs) && forall r | r in rs :: IsEntry(scores, r)
    ensures rs[|rs| - 1].key !in KeysOf(rs[..|rs| - 1])
  {
    var n := |rs| - 1;
    if rs[n].key in KeysOf(rs[..n]) {
      var i :| 0 <= i < n && rs[..n][i].key == rs[n].key;
      assert IsEntry(scores, rs[i]) && IsEntry(scores, rs[n]);
      assert Before(rs[i], rs[n]);
      BeforeIsTotal(rs[i], rs[n]);
    }
  }

  lemma {:induction false} DistinctKeysCount(scores: map<string, nat>, rs: seq<Ranked>)
    requires Sorted(rs) && forall r | r in rs :: IsEntry(scores, r)
    ensures |KeysOf(rs)| == |rs|
  {
    if rs != [] {
      LastKeyIsNew(scores, rs);
      hide Before, IsEntry;
      DistinctKeysCount(scores, rs[..|rs| - 1]);
    }
  }

  lemma RankingHasAll(scores: map<string, nat>, rs: seq<Ranked>)
    requires IsRanking(scores, rs)
    ensures |rs| == |scores|
  {
    DistinctKeysCount(scores, rs);
    assert KeysOf(rs) == scores.Keys by {
      forall k | k in scores ensures k in KeysOf(rs) {
        assert IsEntry(scores, Ranked(k, scores[k]));
      }
      forall k | k in KeysOf(rs) ensures k in scores {
        var i :| 0 <= i < |rs| && rs[i].key == k;
        assert rs[i] in rs;
      }
    }
  }

  /** Truncating a ranking gives the top list. */
  lemma PrefixIsTop(scores: map<string, nat>, rs: seq<Ranked>, n: nat)
    requires IsRanking(scores, rs)
    ensures IsTop(scores, n, rs[..if n < |rs| then n else |rs|])
  {
    RankingHasAll(scores, rs);
    var k := if n < |rs| then n else |rs|;
    forall r, i | IsEntry(scores, r) && r !in rs[..k] && 0 <= i < k ensures Before(rs[..k][i], r) {
      assert r in rs;
      var j :| 0 <= j < |rs| && rs[j] == r;
      assert j >= k;
    }
  }

  /** There is only one top list, whatever order the entries were collected in. */
  lemma TopIsUnique(scores: map<string, nat>, n: nat, s: seq<Ranked>, t: seq<Ranked>)
    requires IsTop(scores, n, s) && IsTop(scores, n, t)
    ensures s == t
  {
    var i := 0;
    while i < |s| && s[i] == t[i]
      invariant 0 <= i <= |s| && forall j | 0 <= j < i :: s[j] == t[j]
    {
      i := i + 1;
    }
    if i < |s| {
      FirstDifference(scores, n, s, t, i);
      FirstDifference(scores, n, t, s, i);
      BeforeIsTotal(s[i], t[i]);
    }
  }

  lemma FirstDifference(scores: map<string, nat>, n: nat, s: seq<Ranked>, t: seq<Ranked>, i: nat)
    requires IsTop(scores, n, s) && IsTop(scores, n, t) && i < |s|
    requires s[i] != t[i] && forall j | 0 <= j < i :: s[j] == t[j]
    ensures Before(t[i], s[i])
  {
    assert s[i] in s && IsEntry(scores, s[i]);
    if s[i] in t {
      var k :| 0 <= k < |t| && t[k] == s[i];
      if k < i {
        assert s[k] == t[k] && Before(s[k], s[i]);
        BeforeIsTotal(s[k], s[i]);
      }
    }
  }

  /** Main result: a top list has the larger scores first and equal scores by key, and nobody left out scores more. */
  lemma TopIsOrdered(scores: map<string, nat>, n: nat, top: seq<Ranked>)
    requires IsTop(scores, n, top)
    ensures forall i, j | 0 <= i < j < |top| :: top[i].score >= top[j].score
    ensures forall i, j | 0 <= i < j < |top| && top[i].score == top[j].score ::
      exists k: nat :: FirstDiffersAt(top[i].key, top[j].key, k)
    ensures forall i, key | 0 <= i < |top| && key in scores && Ranked(key, scores[key]) !in top ::
      scores[key] <= top[i].score
  {
    forall i, j | 0 <= i < j < |top| && top[i].score == top[j].score
      ensures exists k: nat :: FirstDiffersAt(top[i].key, top[j].key, k)
    {
      assert Before(top[i], top[j]);
      LessIsLexicographic(top[i].key, top[j].key);
    }
    forall i, key | 0 <= i < |top| && key in scores && Ranked(key, scores[key]) !in top
      ensures scores[key] <= top[i].score
    {
      assert IsEntry(scores, Ranked(key, scores[key]));
    }
  }

  method TopRanked(scores: map<string, nat>, n: nat) returns (top: seq<Ranked>)
    ensures IsTop(scores, n, top)
  {
    if n == 0 || scores == map[] {
      return [];
    }
    var entries := SortEntries(scores);
    PrefixIsTop(scores, entries, n);
    top := entries[..if n < |entries| then n else |entries|];
  }

  /** Whoever scores more than the last one listed is listed too. */
  lemma AboveLastIsListed(scores: map<string, nat>, n: nat, top: seq<Ranked>, key: string)
    requires IsTop(scores, n, top) && top != []
    requires key in scores && scores[key] > top[|top| - 1].score
    ensures Ranked(key, scores[key]) in top
  {
    var r := Ranked(key, scores[key]);
    assert IsEntry(scores, r);
    assert r !in top ==> Before(top[|top| - 1], r);
  }

  datatype TopTalker = TopTalker(userId: string, username: string, messageCount: nat)

  function Rank(t: TopTalker): Ranked
  {
    Ranked(t.userId, t.messageCount)
  }

  function Ranks(ts: seq<TopTalker>): (rs: seq<Ranked>)
    ensures |rs| == |ts| && forall i | 0 <= i < |ts| :: rs[i] == Rank(ts[i])
  {
    seq(|ts|, i requires 0 <= i < |ts| => Rank(ts[i]))
  }

  /** The top talkers are the top list of the counts, each with the name last seen. */
  ghost predicate IsTopTalkers(c: Counters<string>, n: nat, ts: seq<TopTalker>)
  {
    && IsTop(Counts(c), n, Ranks(ts))
    && forall i | 0 <= i < |ts| :: ts[i].userId in c && ts[i].username == c[ts[i].userId].name
  }

  method TopTalkers(c: Counters<string>, n: nat) returns (ts: seq<TopTalker>)
    ensures IsTopTalkers(c, n, ts)
  {
    var top := TopRanked(Counts(c), n);
    assert forall i | 0 <= i < |top| :: top[i] in top && IsEntry(Counts(c), top[i]);
    ts := seq(|top|, i requires 0 <= i < |top| && top[i].key in c =>
      TopTalker(top[i].key, c[top[i].key].name, top[i].score));
    assert Ranks(ts) == top;
  }

  /** `top_n` and `into_top_n` differ in how they collect the entries, which does not show. */
  lemma TopTalkersAreUnique(c: Counters<string>, n: nat, s: seq<TopTalker>, t: seq<TopTalker>)
    requires IsTopTalkers(c, n, s) && IsTopTalkers(c, n, t)
    ensures s == t
  {
    TopIsUnique(Counts(c), n, Ranks(s), Ranks(t));
    forall i | 0 <= i < |s| ensures s[i] == t[i] {
      assert Ranks(s)[i] == Ranks(t)[i];
    }
  }

  /**
   * Main result: every user who sent more messages than the smallest reported count is reported, even though
   * most users may never have been counted exactly.
   */
  lemma TopTalkersAreComplete(
    capacity: nat, c: Counters<string>, history: seq<string>, n: nat, ts: seq<TopTalker>, user: string)
    requires Inv(capacity, c, history) && IsTopTalkers(c, n, ts) && ts != []
    requires Occurrences(history, user) > ts[|ts| - 1].messageCount
    ensures exists i :: 0 <= i < |ts| && ts[i].userId == user
  {
    var last := ts[|ts| - 1];
    var rs := Ranks(ts);
    assert rs[|rs| - 1] in rs && IsEntry(Counts(c), rs[|rs| - 1]);
    assert last.userId in c && c[last.userId].count == last.messageCount;
    TableFloorBelow(capacity, c);
    assert user !in c ==> Occurrences(history, user) <= Floor(capacity, Counts(c));
    if user in c {
      AboveLastIsListed(Counts(c), n, rs, user);
      var i :| 0 <= i < |rs| && rs[i] == Ranked(user, c[user].count);
      assert ts[i].userId == user;
    }
  }

  lemma ListedAreAllWhenShort(scores: map<string, nat>, n: nat, top: seq<Ranked>, key: string)
    requires IsTop(scores, n, top) && |top| < n && key in scores
    ensures Ranked(key, scores[key]) in top
  {
    DistinctKeysCount(scores, top);
    assert KeysOf(top) <= scores.Keys by {
      forall k | k in KeysOf(top) ensures k in scores {
        var i :| 0 <= i < |top| && top[i].key == k;
        assert top[i] in top;
      }
    }
    SameSizeSameSet(KeysOf(top), scores.Keys);
    var i :| 0 <= i < |top| && top[i].key == key;
    assert top[i] in top && IsEntry(scores, top[i]);
  }

  lemma SameSizeSameSet(a: set<string>, b: set<string>)
    requires a <= b && |a| == |b|
    ensures a == b
  {
    assert b == a + (b - a);
    assert |b| == |a| + |b - a|;
  }

  lemma ListedScoreNoLess(scores: map<string, nat>, n: nat, top: seq<Ranked>, key: string)
    requires IsTop(scores, n, top) && key in scores && Ranked(key, scores[key]) !in top
    ensures |top| == n && key !in KeysOf(top) && |KeysOf(top) + {key}| == n + 1
    ensures KeysOf(top) <= scores.Keys && forall k | k in KeysOf(top) :: scores[key] <= scores[k]
  {
    if |top| < n {
      ListedAreAllWhenShort(scores, n, top, key);
    }
    DistinctKeysCount(scores, top);
    assert IsEntry(scores, Ranked(key, scores[key]));
    forall k | k in KeysOf(top) ensures k in scores && k != key && scores[key] <= scores[k] {
      var i :| 0 <= i < |top| && top[i].key == k;
      assert top[i] in top && IsEntry(scores, top[i]);
    }
  }

  /**
   * Main result: a user with more than `1 / (n + 1)` of the messages is among the first `n` reported, if the table
   * has more than `n` places.
   */
  lemma FrequentTalkerIsReported(
    capacity: nat, c: Counters<string>, history: seq<string>, n: nat, ts: seq<TopTalker>, user: string)
    requires Inv(capacity, c, history) && IsTopTalkers(c, n, ts) && n < capacity
    requires Occurrences(history, user) * (n + 1) > |history|
    ensures exists i :: 0 <= i < |ts| && ts[i].userId == user
  {
    ManyPlaces(Occurrences(history, user), n + 1, capacity);
    HeavyHittersAreTracked(capacity, c, history, user);
    var rs, r := Ranks(ts), Ranked(user, c[user].count);
    assert IsTop(Counts(c), n, rs) && Sum(Counts(c)) == |history| && Occurrences(history, user) <= c[user].count;
    hide IsTop, Inv, Sum, Counts, Occurrences;
    ScoresAddUp(Counts(c), n, rs, user, Occurrences(history, user));
    var i :| 0 <= i < |rs| && rs[i] == r;
    assert ts[i].userId == user;
  }

  /** A key that is left out, and everybody before it, have at least its score; that is no more than the sum. */
  lemma ScoresAddUp(scores: map<string, nat>, n: nat, top: seq<Ranked>, key: string, low: nat)
    requires IsTop(scores, n, top) && key in scores && low <= scores[key] && low * (n + 1) > Sum(scores)
    ensures Ranked(key, scores[key]) in top
  {
    hide IsTop, Sum, KeysOf;
    if Ranked(key, scores[key]) !in top {
      ListedScoreNoLess(scores, n, top, key);
      SumOfSome(scores, KeysOf(top) + {key}, scores[key]);
      MulMonotone(low, scores[key], n + 1);
    }
  }

  lemma ManyPlaces(occurrences: nat, n: nat, capacity: nat)
    requires n <= capacity
    ensures occurrences * n <= occurrences * capacity
  {
    MulMonotone(n, capacity, occurrences);
  }
}
