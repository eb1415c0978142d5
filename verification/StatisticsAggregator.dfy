/** The statistics aggregator object: totals, heavy hitters and the rate series together (statistics.rs). */
module Statistics {
  import opened Arithmetic
  import opened ByteStrings
  import opened CountMaps
  import opened Ranking
  import opened RateSeries
  import opened Bits
  import SpaceSaving
  import WordCounts
  import WordHeavyHitter

  datatype Report = Report(
    totalCount: nat,
    chatCount: nat,
    giftCount: nat,
    topTalkers: seq<TopTalker>,
    words: seq<Ranked>,
    rateTimeseries: seq<Point>,
    startTime: Option<int>,
    endTime: int,
    durationSecs: nat)

  lemma DoublePower(from: nat, k: nat)
    ensures from * Pow2(k + 1) == 2 * from * Pow2(k)
  {
    assert Pow2(k + 1) == 2 * Pow2(k);
  }

  /** The width of the sketch is the least power of two that is large enough. */
  lemma {:induction false} NextPowerIsLeast(n: nat, from: nat)
    requires from >= 1
    ensures NextPowerOfTwo(n, from) == from || NextPowerOfTwo(n, from) < 2 * n
    ensures exists k: nat :: NextPowerOfTwo(n, from) == from * Pow2(k)
    decreases if from < n then n - from else 0
  {
    if from < n {
      NextPowerIsLeast(n, 2 * from);
      var k: nat :| NextPowerOfTwo(n, 2 * from) == 2 * from * Pow2(k);
      hide NextPowerOfTwo, Pow2;
      DoublePower(from, k);
    } else {
      assert from * Pow2(0) == from;
    }
  }

  function NextPowerOfTwo(n: nat, from: nat): (p: nat)
    requires from >= 1
    ensures p >= n && p >= from
    decreases if from < n then n - from else 0
  {
    if from >= n then from else NextPowerOfTwo(n, 2 * from)
  }

  /** Six hours of buckets, and never fewer than 60. */
  function RatePoints(bucketDurationSecs: nat): (n: nat)
    ensures n >= 60
  {
    Max(6 * 60 * 60 / Max(bucketDurationSecs, 1), 60)
  }

  /** A power of two with 32 columns for every word that can be tracked. */
  function SketchWidth(maxWords: nat): (width: nat)
    ensures width >= 256 && width >= 128 * maxWords
  {
    Max(NextPowerOfTwo(Max(maxWords, 1) * 4 * 32, 1), 256)
  }

  lemma KnownSizes()
    ensures RatePoints(10) == 2160 && RatePoints(0) == 21600 && RatePoints(3600) == 60
    ensures SketchWidth(50) == 8192
  {
    assert NextPowerOfTwo(6400, 4096) == 8192;
    assert NextPowerOfTwo(6400, 256) == NextPowerOfTwo(6400, 512) == NextPowerOfTwo(6400, 1024) == 8192;
    assert NextPowerOfTwo(6400, 16) == NextPowerOfTwo(6400, 32) == NextPowerOfTwo(6400, 64) == 8192;
    assert NextPowerOfTwo(6400, 1) == NextPowerOfTwo(6400, 2) == NextPowerOfTwo(6400, 4) == 8192;
  }

  class StatisticsAggregator {
    var totalCount: nat
    var chatCount: nat
    var giftCount: nat
    const talkers: SpaceSaving.TalkerHeavyHitters
    const words: WordHeavyHitter.WordHeavyHitters
    var rateData: seq<Point>
    var currentBucket: Option<Point>
    const bucketDurationSecs: nat
    var startTime: Option<int>
    const maxTopTalkers: nat
    const maxWords: nat
    const maxRatePoints: nat
    ghost var times: seq<int>

    ghost predicate Valid()
      reads this, talkers, words, words.sketch
    {
      && talkers.Valid() && words.Valid()
      && talkers.capacity == 8 * Max(maxTopTalkers, 1) && words.capacity == 4 * Max(maxWords, 1)
      && words.sketch != null && words.sketch.depth == 4 && words.sketch.width == SketchWidth(maxWords)
      && totalCount == chatCount + giftCount == |times| == |talkers.history|
      && Series(rateData, currentBucket) == Recorded()
      && startTime == if times == [] then None else Some(times[0])
    }

    /** The series that belongs to the recorded times; with a bucket duration of 0 nothing can be recorded. */
    ghost function Recorded(): Series
      reads this
    {
      if bucketDurationSecs == 0 then Series([], None) else SeriesOf(times, bucketDurationSecs, maxRatePoints)
    }

    constructor (hash: WordCounts.Hash, maxTopTalkers: nat, maxWords: nat, bucketDurationSecs: nat)
      ensures fresh(talkers) && fresh(words) && words.sketch != null && fresh(words.sketch)
      ensures Valid() && totalCount == 0 && talkers.history == [] && words.history == [] && times == []
      ensures this.maxTopTalkers == maxTopTalkers && this.maxWords == maxWords
      ensures this.bucketDurationSecs == bucketDurationSecs && maxRatePoints == RatePoints(bucketDurationSecs)
    {
      hide WordHeavyHitter.Inv, SpaceSaving.Inv, WordHeavyHitter.WordHeavyHitters.Valid,
        WordCounts.CountMinSketch.Valid, SpaceSaving.TalkerHeavyHitters.Valid, NextPowerOfTwo;
      var wordCapacity := Max(maxWords, 1) * 4;
      var width := Max(NextPowerOfTwo(wordCapacity * 32, 1), 256);
      var sketch := new WordCounts.CountMinSketch(hash, width, 4);
      var t := new SpaceSaving.TalkerHeavyHitters(Max(maxTopTalkers, 1) * 8);
      var w := new WordHeavyHitter.WordHeavyHitters(wordCapacity, sketch);
      this.talkers, this.words := t, w;
      this.maxTopTalkers, this.maxWords := maxTopTalkers, maxWords;
      this.bucketDurationSecs := bucketDurationSecs;
      this.maxRatePoints := RatePoints(bucketDurationSecs);
      totalCount, chatCount, giftCount, startTime := 0, 0, 0, None;
      rateData, currentBucket, times := [], None, [];
    }

    method UpdateRateBucket(timestamp: int)
      requires bucketDurationSecs >= 1
      modifies this`rateData, this`currentBucket
      ensures Series(rateData, currentBucket)
        == Update(Series(old(rateData), old(currentBucket)), timestamp, bucketDurationSecs, maxRatePoints)
    {
      var start := BucketStart(timestamp, bucketDurationSecs);
      match currentBucket
      case Some(p) =>
        if p.timestamp == start {
          currentBucket := Some(Point(start, p.count + 1));
        } else {
          rateData := rateData + [p];
          ghost var pushed := rateData;
          while |rateData| > maxRatePoints
            invariant |rateData| <= |pushed| && rateData == pushed[|pushed| - |rateData|..]
            invariant |rateData| < |pushed| ==> |rateData| >= maxRatePoints
          {
            rateData := rateData[1..];
          }
          currentBucket := Some(Point(start, 1));
        }
      case None => currentBucket := Some(Point(start, 1));
    }

    /**
     * `keys` are the words of the message after splitting, lower-casing and stop-word removal. With a bucket
     * duration of 0 the division for the bucket's start would panic.
     */
    method RecordMessage(userId: string, username: string, keys: seq<string>, isGift: bool, timestamp: int)
      requires bucketDurationSecs >= 1
      requires Valid() && totalCount < U64_MAX && |words.history| + |keys| <= U64_MAX
      modifies this, talkers, words, words.sketch
      ensures Valid() && times == old(times) + [timestamp]
      ensures totalCount == old(totalCount) + 1
      ensures giftCount == old(giftCount) + (if isGift then 1 else 0)
      ensures talkers.history == old(talkers.history) + [userId]
      ensures SpaceSaving.Increment(talkers.capacity, old(talkers.counters), userId, username, talkers.counters)
      ensures words.history == old(words.history) + if isGift then [] else keys
    {
      hide SeriesOf, Update, SpaceSaving.Inv, WordHeavyHitter.Inv, SpaceSaving.Increment, WordHeavyHitter.Increment;
      if startTime.None? {
        startTime := Some(timestamp);
      }
      totalCount := totalCount + 1;
      if isGift {
        giftCount := giftCount + 1;
      } else {
        chatCount := chatCount + 1;
      }
      talkers.Add(userId, username);
      assert talkers.history == old(talkers.history) + [userId];
      if !isGift {
        ProcessWords(keys);
      }
      NextSeries(times, timestamp, bucketDurationSecs, maxRatePoints);
      times := times + [timestamp];
      UpdateRateBucket(timestamp);
    }

    method ProcessWords(keys: seq<string>)
      requires words.Valid() && |words.history| + |keys| <= U64_MAX
      modifies words, words.sketch
      ensures words.Valid() && words.history == old(words.history) + keys
    {
      hide WordHeavyHitter.Inv, WordHeavyHitter.Increment, WordHeavyHitter.WordHeavyHitters.Valid,
        WordCounts.CountMinSketch.Valid, WordHeavyHitter.WordHeavyHitters.Known;
      var i := 0;
      while i < |keys|
        invariant 0 <= i <= |keys| && words.Valid()
        invariant words.history == old(words.history) + keys[..i]
      {
        words.Add(keys[i]);
        assert keys[..i + 1] == keys[..i] + [keys[i]];
        i := i + 1;
      }
      assert keys[..i] == keys;
    }

    /** The closing report: what each of its parts is, in terms of the messages recorded. */
    method Finalized(endTime: int) returns (r: Report)
      requires Valid()
      ensures forall user: string | Occurrences(talkers.history, user) * (maxTopTalkers + 1) > |times| ::
        exists i :: 0 <= i < |r.topTalkers| && r.topTalkers[i].userId == user
      ensures r.totalCount == r.chatCount + r.giftCount == |times| && r.giftCount == giftCount
      ensures r.endTime == endTime && r.durationSecs == if times == [] then 0 else Max(endTime - times[0], 0)
      ensures r.startTime == if times == [] then None else Some(times[0])
      ensures IsTopTalkers(talkers.counters, maxTopTalkers, r.topTalkers)
      ensures forall scores | words.AreScores(scores) :: IsTop(scores, maxWords, r.words)
      ensures r.rateTimeseries
        == if bucketDurationSecs == 0 then [] else PopFront(Groups(times, bucketDurationSecs), maxRatePoints + 1)
    {
      hide SpaceSaving.Inv, WordHeavyHitter.Inv, IsTop, IsTopTalkers, Groups, SeriesOf, PopFront,
        WordCounts.CountMinSketch.Valid, WordHeavyHitter.WordHeavyHitters.AreScores;
      if bucketDurationSecs > 0 {
        SeriesIsSuffixOfGroups(times, bucketDurationSecs, maxRatePoints);
      }
      var rate := rateData;
      if currentBucket.Some? {
        rate := rate + [currentBucket.value];
      }
      var top := TopTalkers(talkers.counters, maxTopTalkers);
      forall user: string | Occurrences(talkers.history, user) * (maxTopTalkers + 1) > |times|
        ensures exists i :: 0 <= i < |top| && top[i].userId == user
      {
        FrequentTalkerIsReported(talkers.capacity, talkers.counters, talkers.history, maxTopTalkers, top, user);
      }
      var words' := words.TopWords(maxWords);
      var durationSecs := if startTime.Some? then Max(endTime - startTime.value, 0) else 0;
      r := Report(totalCount, chatCount, giftCount, top, words', rate, startTime, endTime, durationSecs);
    }
  }

  lemma NextSeries(times: seq<int>, t: int, d: nat, maxPoints: nat)
    requires d >= 1
    ensures SeriesOf(times + [t], d, maxPoints) == Update(SeriesOf(times, d, maxPoints), t, d, maxPoints)
  {
    assert (times + [t])[..|times|] == times;
  }
}
