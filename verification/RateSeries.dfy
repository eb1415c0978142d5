/** The bounded rate histogram (statistics.rs). */
module RateSeries {
  import opened Arithmetic
  import opened ByteStrings

  datatype Point = Point(timestamp: int, count: nat)

  /** Integer division as Rust has it: towards zero. */
  function TruncatedDiv(a: int, d: nat): int
    requires d >= 1
  {
    if a >= 0 then a / d else -(-a / d)
  }

  function BucketStart(t: int, d: nat): int
    requires d >= 1
  {
    TruncatedDiv(t, d) * d
  }

  /** Buckets start at the multiples of their length, each counted towards zero: those around 0 are one. */
  lemma BucketStartIsTowardsZero(t: int, d: nat)
    requires d >= 1
    ensures exists k :: BucketStart(t, d) == k * d
    ensures t >= 0 ==> 0 <= BucketStart(t, d) <= t < BucketStart(t, d) + d
    ensures t < 0 ==> BucketStart(t, d) - d < t <= BucketStart(t, d) <= 0
  {
    var k := TruncatedDiv(t, d);
    assert BucketStart(t, d) == k * d;
    QuotientBounds(if t < 0 then -t else t, d);
    NegatedProduct(k, d);
    hide BucketStart;
  }

  lemma QuotientBounds(a: nat, d: nat)
    requires d >= 1
    ensures 0 <= a / d * d <= a < a / d * d + d
  {
    var k := a / d;
    MulMonotone(0, k, d);
    assert a == d * k + a % d;
  }

  lemma NegatedProduct(k: int, d: int)
    ensures -k * d == -(k * d)
  {
  }

  /** The points kept so far and the bucket that is still open. */
  datatype Series = Series(data: seq<Point>, current: Option<Point>)

  function PopFront(data: seq<Point>, maxPoints: nat): (kept: seq<Point>)
    ensures |data| <= maxPoints ==> kept == data
    ensures |data| > maxPoints ==> kept == data[|data| - maxPoints..]
  {
    if |data| > maxPoints then data[|data| - maxPoints..] else data
  }

  function Update(s: Series, t: int, d: nat, maxPoints: nat): Series
    requires d >= 1
  {
    var start := BucketStart(t, d);
    match s.current
    case Some(p) =>
      if p.timestamp == start then s.(current := Some(Point(start, p.count + 1)))
      else Series(PopFront(s.data + [p], maxPoints), Some(Point(start, 1)))
    case None => s.(current := Some(Point(start, 1)))
  }

  function Finalize(s: Series): seq<Point>
  {
    match s.current
    case Some(p) => s.data + [p]
    case None => s.data
  }

  function SeriesOf(times: seq<int>, d: nat, maxPoints: nat): Series
    requires d >= 1
  {
    if times == [] then Series([], None)
    else Update(SeriesOf(times[..|times| - 1], d, maxPoints), times[|times| - 1], d, maxPoints)
  }

  function Init(ps: seq<Point>): seq<Point>
    requires ps != []
  {
    ps[..|ps| - 1]
  }

  function Last(ps: seq<Point>): Point
    requires ps != []
  {
    ps[|ps| - 1]
  }

  /** The groups after one more message that falls into the bucket at `start`. */
  function Grouped(gs: seq<Point>, start: int): (r: seq<Point>)
    ensures r != []
  {
    if gs != [] && Last(gs).timestamp == start then Init(gs) + [Point(start, Last(gs).count + 1)]
    else gs + [Point(start, 1)]
  }

  /** The unbounded reference: maximal runs of consecutive messages that share a bucket, with their lengths. */
  function Groups(times: seq<int>, d: nat): (gs: seq<Point>)
    requires d >= 1
    ensures times == [] <==> gs == []
  {
    if times == [] then []
    else Grouped(Groups(times[..|times| - 1], d), BucketStart(times[|times| - 1], d))
  }

  lemma PopFrontSnoc(ps: seq<Point>, p: Point, n: nat)
    ensures PopFront(ps + [p], n + 1) == PopFront(ps, n) + [p]
  {
  }

  lemma PopFrontTwice(ps: seq<Point>, n: nat)
    ensures PopFront(PopFront(ps, n + 1), n) == PopFront(ps, n)
  {
  }

  lemma PopFrontKeepsTail(ps: seq<Point>, n: nat)
    ensures |PopFront(ps, n)| <= |ps| && ps == ps[..|ps| - |PopFront(ps, n)|] + PopFront(ps, n)
  {
  }

  /** The kept series and the open bucket that belong to the given groups. */
  function SeriesFor(gs: seq<Point>, maxPoints: nat): Series
  {
    if gs == [] then Series([], None) else Series(PopFront(Init(gs), maxPoints), Some(Last(gs)))
  }

  lemma GroupedInSameBucket(gs: seq<Point>, start: int)
    requires gs != [] && Last(gs).timestamp == start
    ensures Init(Grouped(gs, start)) == Init(gs)
    ensures Last(Grouped(gs, start)) == Point(start, Last(gs).count + 1)
  {
  }

  lemma GroupedInNewBucket(gs: seq<Point>, start: int)
    requires gs == [] || Last(gs).timestamp != start
    ensures Init(Grouped(gs, start)) == gs && Last(Grouped(gs, start)) == Point(start, 1)
  {
  }

  lemma InitAndLast(gs: seq<Point>)
    requires gs != []
    ensures Init(gs) + [Last(gs)] == gs
  {
  }

  lemma OneMoreMessage(gs: seq<Point>, t: int, d: nat, maxPoints: nat)
    requires d >= 1
    ensures Update(SeriesFor(gs, maxPoints), t, d, maxPoints)
      == SeriesFor(Grouped(gs, BucketStart(t, d)), maxPoints)
  {
    hide BucketStart, Grouped, Init, Last, PopFront;
    var start := BucketStart(t, d);
    if gs != [] && Last(gs).timestamp == start {
      GroupedInSameBucket(gs, start);
    } else {
      GroupedInNewBucket(gs, start);
      if gs != [] {
        InitAndLast(gs);
        PopFrontSnoc(Init(gs), Last(gs), maxPoints);
        PopFrontTwice(gs, maxPoints);
      } else {
        PopFrontNothing(maxPoints);
      }
    }
  }

  lemma PopFrontNothing(n: nat)
    ensures PopFront([], n) == []
  {
  }

  /** All groups but the open one are kept up to the limit; the last group is the open bucket. */
  lemma {:induction false} SeriesFollowsGroups(times: seq<int>, d: nat, maxPoints: nat)
    requires d >= 1
    ensures SeriesOf(times, d, maxPoints) == SeriesFor(Groups(times, d), maxPoints)
  {
    if times != [] {
      hide BucketStart, Update, SeriesFor, Grouped;
      SeriesFollowsGroups(times[..|times| - 1], d, maxPoints);
      OneMoreMessage(Groups(times[..|times| - 1], d), times[|times| - 1], d, maxPoints);
    }
  }

  /**
   * Main result: for timestamps in any order, the finalized series is exactly the last
   * `min(k, maxPoints + 1)` of the `k` groups.
   */
  lemma SeriesIsSuffixOfGroups(times: seq<int>, d: nat, maxPoints: nat)
    requires d >= 1
    ensures Finalize(SeriesOf(times, d, maxPoints)) == PopFront(Groups(times, d), maxPoints + 1)
  {
    if times != [] {
      SeriesFollowsGroups(times, d, maxPoints);
      var gs := Groups(times, d);
      PopFrontSnoc(Init(gs), Last(gs), maxPoints);
      assert Init(gs) + [Last(gs)] == gs;
    }
  }

  function Total(ps: seq<Point>): nat
  {
    if ps == [] then 0 else Total(ps[..|ps| - 1]) + ps[|ps| - 1].count
  }

  lemma {:induction false} TotalSplits(ps: seq<Point>, qs: seq<Point>)
    ensures Total(ps + qs) == Total(ps) + Total(qs)
  {
    if qs == [] {
      assert ps + qs == ps;
    } else {
      assert (ps + qs)[..|ps + qs| - 1] == ps + qs[..|qs| - 1];
      TotalSplits(ps, qs[..|qs| - 1]);
    }
  }

  lemma GroupedCounts(gs: seq<Point>, start: int)
    ensures Total(Grouped(gs, start)) == Total(gs) + 1
  {
    if gs != [] && Last(gs).timestamp == start {
      TotalSplits(Init(gs), [Point(start, Last(gs).count + 1)]);
      assert [Point(start, Last(gs).count + 1)][..0] == [];
    } else {
      TotalSplits(gs, [Point(start, 1)]);
      assert [Point(start, 1)][..0] == [];
    }
  }

  lemma {:induction false} GroupsCountEverything(times: seq<int>, d: nat)
    requires d >= 1
    ensures Total(Groups(times, d)) == |times|
  {
    hide BucketStart;
    if times != [] {
      var n := |times| - 1;
      GroupsCountEverything(times[..n], d);
      GroupedCounts(Groups(times[..n], d), BucketStart(times[n], d));
    }
  }

  /** Nothing is lost unaccounted: the kept points and the dropped ones together count every message. */
  lemma KeptPlusDroppedIsTotal(times: seq<int>, d: nat, maxPoints: nat)
    requires d >= 1
    ensures exists dropped: seq<Point> ::
      && Groups(times, d) == dropped + Finalize(SeriesOf(times, d, maxPoints))
      && Total(dropped) + Total(Finalize(SeriesOf(times, d, maxPoints))) == |times|
  {
    SeriesIsSuffixOfGroups(times, d, maxPoints);
    GroupsCountEverything(times, d);
    hide Groups, SeriesOf, Finalize, Total;
    var gs, kept := Groups(times, d), Finalize(SeriesOf(times, d, maxPoints));
    PopFrontKeepsTail(gs, maxPoints + 1);
    var dropped := gs[..|gs| - |kept|];
    hide PopFront;
    TotalSplits(dropped, kept);
  }

  /** How many messages fall into the bucket of length `d` that starts at `start`. */
  function InBucket(times: seq<int>, d: nat, start: int): nat
  {
    if times == [] then 0
    else
      var n := |times| - 1;
      InBucket(times[..n], d, start) + if start <= times[n] < start + d then 1 else 0
  }

  ghost predicate Ordered(times: seq<int>)
  {
    (forall i | 0 <= i < |times| :: times[i] >= 0) && forall i, j | 0 <= i < j < |times| :: times[i] <= times[j]
  }

  /** A multiple of the bucket length. */
  predicate Aligned(start: int, d: nat)
    requires d >= 1
  {
    start >= 0 && start == BucketStart(start, d)
  }

  lemma AlignedBucket(t: int, d: nat)
    requires d >= 1 && t >= 0
    ensures Aligned(BucketStart(t, d), d) && BucketStart(t, d) <= t < BucketStart(t, d) + d
  {
    var k := t / d;
    assert k * d <= t < k * d + d;
    DivisionIsUnique(k * d, d, k);
  }

  /** Aligned starts are equal or at least a bucket apart. */
  lemma AlignedSpacing(a: int, b: int, d: nat)
    requires d >= 1 && Aligned(a, d) && Aligned(b, d) && a < b
    ensures a + d <= b
  {
    if a / d < b / d {
      MulStep(a / d, b / d, d);
    } else {
      MulMonotone(b / d, a / d, d);
    }
  }

  /** What the groups of an ordered run look like. */
  ghost predicate IsHistogram(gs: seq<Point>, times: seq<int>, d: nat)
    requires d >= 1
  {
    && (forall i | 0 <= i < |gs| :: gs[i].count >= 1)
    && (forall i | 0 <= i < |gs| :: Aligned(gs[i].timestamp, d) && gs[i].count == InBucket(times, d, gs[i].timestamp))
    && (forall i, j | 0 <= i < j < |gs| :: gs[i].timestamp < gs[j].timestamp)
    && (forall k | 0 <= k < |times| :: Covers(gs, BucketStart(times[k], d)))
  }

  lemma {:induction false} EmptyLaterBucket(times: seq<int>, d: nat, start: int)
    requires forall k | 0 <= k < |times| :: times[k] < start
    ensures InBucket(times, d, start) == 0
  {
    if times != [] {
      EmptyLaterBucket(times[..|times| - 1], d, start);
    }
  }

  /**
   * Main result: for ordered, non-negative timestamps the groups are the true histogram: one point per
   * non-empty bucket, with aligned, strictly increasing starts and exact counts.
   */
  lemma {:induction false} GroupsAreHistogram(times: seq<int>, d: nat)
    requires d >= 1 && Ordered(times)
    ensures IsHistogram(Groups(times, d), times, d)
    ensures times != [] ==> Last(Groups(times, d)).timestamp == BucketStart(times[|times| - 1], d)
  {
    hide BucketStart, IsHistogram, InBucket;
    if times == [] {
      EmptyHistogram(d);
    } else {
      var n := |times| - 1;
      var before, gs, t := times[..n], Groups(times[..n], d), times[n];
      GroupsAreHistogram(before, d);
      assert times == before + [t];
      if gs != [] && Last(gs).timestamp == BucketStart(t, d) {
        SameBucketStep(gs, before, t, d);
      } else {
        if n > 0 {
          LaterBucket(times[n - 1], t, d);
          assert before[n - 1] == times[n - 1];
        }
        assert forall k | 0 <= k < n :: before[k] == times[k] <= times[n - 1];
        NewBucketStep(gs, before, t, d);
      }
    }
  }

  lemma EmptyHistogram(d: nat)
    requires d >= 1
    ensures IsHistogram([], [], d)
  {
  }

  lemma LaterBucket(s: int, t: int, d: nat)
    requires d >= 1 && 0 <= s <= t && BucketStart(s, d) != BucketStart(t, d)
    ensures BucketStart(s, d) < BucketStart(t, d) && s < BucketStart(t, d)
  {
    AlignedBucket(s, d);
    AlignedBucket(t, d);
    hide BucketStart, Aligned;
    if BucketStart(s, d) < BucketStart(t, d) {
      AlignedSpacing(BucketStart(s, d), BucketStart(t, d), d);
    } else {
      AlignedSpacing(BucketStart(t, d), BucketStart(s, d), d);
    }
  }

  ghost predicate Covers(gs: seq<Point>, start: int)
  {
    exists i :: 0 <= i < |gs| && gs[i].timestamp == start
  }

  lemma InBucketAppend(times: seq<int>, t: int, d: nat, start: int)
    ensures InBucket(times + [t], d, start) == InBucket(times, d, start) + if start <= t < start + d then 1 else 0
  {
    assert (times + [t])[..|times|] == times;
  }

  /** A bucket other than that of `t` does not contain `t`. */
  lemma OtherBucket(start: int, t: int, d: nat)
    requires d >= 1 && t >= 0 && Aligned(start, d) && start != BucketStart(t, d)
    ensures !(start <= t < start + d)
  {
    AlignedBucket(t, d);
    hide BucketStart, Aligned;
    if start < BucketStart(t, d) {
      AlignedSpacing(start, BucketStart(t, d), d);
    } else {
      AlignedSpacing(BucketStart(t, d), start, d);
    }
  }

  lemma SameBucketStep(gs: seq<Point>, times: seq<int>, t: int, d: nat)
    requires d >= 1 && t >= 0 && gs != [] && IsHistogram(gs, times, d) && Last(gs).timestamp == BucketStart(t, d)
    ensures IsHistogram(Init(gs) + [Point(BucketStart(t, d), Last(gs).count + 1)], times + [t], d)
  {
    hide BucketStart, InBucket, Aligned;
    var start := BucketStart(t, d);
    var gs' := Init(gs) + [Point(start, Last(gs).count + 1)];
    AlignedBucket(t, d);
    assert forall i | 0 <= i < |gs| :: gs'[i].timestamp == gs[i].timestamp;
    forall i | 0 <= i < |gs'|
      ensures Aligned(gs'[i].timestamp, d) && gs'[i].count == InBucket(times + [t], d, gs'[i].timestamp)
    {
      InBucketAppend(times, t, d, gs'[i].timestamp);
      if i < |gs| - 1 {
        OtherBucket(gs[i].timestamp, t, d);
      }
    }
    forall k | 0 <= k < |times + [t]| ensures Covers(gs', BucketStart((times + [t])[k], d)) {
      if k < |times| {
        assert Covers(gs, BucketStart(times[k], d));
      } else {
        assert gs'[|gs| - 1].timestamp == start;
      }
    }
  }

  lemma NewBucketStep(gs: seq<Point>, times: seq<int>, t: int, d: nat)
    requires d >= 1 && t >= 0 && IsHistogram(gs, times, d)
    requires gs != [] ==> Last(gs).timestamp < BucketStart(t, d)
    requires forall k | 0 <= k < |times| :: times[k] < BucketStart(t, d)
    ensures IsHistogram(gs + [Point(BucketStart(t, d), 1)], times + [t], d)
  {
    hide BucketStart, InBucket, Aligned;
    var start := BucketStart(t, d);
    var gs' := gs + [Point(start, 1)];
    AlignedBucket(t, d);
    EmptyLaterBucket(times, d, start);
    forall i | 0 <= i < |gs'|
      ensures Aligned(gs'[i].timestamp, d) && gs'[i].count == InBucket(times + [t], d, gs'[i].timestamp)
    {
      InBucketAppend(times, t, d, gs'[i].timestamp);
      if i < |gs| {
        OtherBucket(gs[i].timestamp, t, d);
      }
    }
    forall k | 0 <= k < |times + [t]| ensures Covers(gs', BucketStart((times + [t])[k], d)) {
      if k < |times| {
        assert Covers(gs, BucketStart(times[k], d));
        var i :| 0 <= i < |gs| && gs[i].timestamp == BucketStart(times[k], d);
        assert gs'[i] == gs[i];
      } else {
        assert gs'[|gs|].timestamp == start;
      }
    }
  }
}
