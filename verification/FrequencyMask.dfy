/** The frequency mask: a ring of buckets that in effect is one tumbling counter (mask_frequency.rs). */
module FrequencyMasks {
  import opened Arithmetic

  type Hash = nat

  datatype Config = Config(maxFrequency: nat, bucketCount: nat, bucketSizeMs: nat)
  {
    predicate Valid() { bucketCount >= 1 }
  }

  /** The window that a mask is asked for: at least ten seconds. */
  function WindowMs(baseWindowMs: nat): (window: nat)
    ensures window >= 10_000
  {
    if baseWindowMs < 10_000 then 10_000 else baseWindowMs
  }

  /** What `new` makes of its arguments. */
  function NewConfig(baseWindowMs: nat, bucketCount: nat, maxFrequency: nat): (c: Config)
    ensures c.Valid() && c.maxFrequency == maxFrequency
  {
    var count := if bucketCount < 1 then 1 else bucketCount;
    Config(maxFrequency, count, WindowMs(baseWindowMs) / count)
  }

  /** At least ten seconds, at least one bucket, and as large buckets as fit into the window. */
  lemma ConfigFits(baseWindowMs: nat, bucketCount: nat, maxFrequency: nat)
    ensures var c := NewConfig(baseWindowMs, bucketCount, maxFrequency);
      && c.maxFrequency == maxFrequency && c.bucketCount == (if bucketCount == 0 then 1 else bucketCount)
      && c.bucketCount * c.bucketSizeMs <= (if baseWindowMs < 10_000 then 10_000 else baseWindowMs)
      && (if baseWindowMs < 10_000 then 10_000 else baseWindowMs) < c.bucketCount * (c.bucketSizeMs + 1)
  {
  }

  function SaturatingSub(a: nat, b: nat): nat
  {
    if a < b then 0 else a - b
  }

  function Get(m: map<Hash, nat>, h: Hash): nat
  {
    if h in m then m[h] else 0
  }

  function SumOfBuckets(buckets: seq<map<Hash, nat>>, h: Hash): nat
  {
    if buckets == [] then 0 else Get(buckets[0], h) + SumOfBuckets(buckets[1..], h)
  }

  /** The tumbling counter: the start of the current epoch and the accepts of each hash in it. */
  datatype Counter = Counter(last: nat, counts: map<Hash, nat>)

  const START := Counter(0, map[])

  /** Epoch start before any expiry; 0 doubles as "not yet started". */
  function EpochStart(c: Config, s: Counter, now: nat): nat
  {
    if s.last == 0 then SaturatingSub(now, c.bucketSizeMs) else s.last
  }

  /** Whole bucket sizes that have passed, capped by the number of buckets. */
  function Elapsed(c: Config, last: nat, now: nat): nat
  {
    if c.bucketSizeMs == 0 then c.bucketCount
    else
      var k := SaturatingSub(now, last) / c.bucketSizeMs;
      if k < c.bucketCount then k else c.bucketCount
  }

  /** One bucket size is enough to forget everything, however many buckets there are. */
  function Shift(c: Config, s: Counter, now: nat): Counter
  {
    var last := EpochStart(c, s, now);
    var k := Elapsed(c, last, now);
    if k == 0 then Counter(last, s.counts)
    else Counter(if k < c.bucketCount then last + k * c.bucketSizeMs else now, map[])
  }

  predicate Accepts(c: Config, s: Counter, h: Hash)
  {
    Get(s.counts, h) < c.maxFrequency
  }

  function Check(c: Config, s: Counter, h: Hash, now: nat): Counter
  {
    var t := Shift(c, s, now);
    if Accepts(c, t, h) then Counter(t.last, t.counts[h := Get(t.counts, h) + 1]) else t
  }

  /** The counts of a bucket taken out for the given hashes; nothing is left at zero. */
  function WithoutCounts(freq: map<Hash, nat>, bucket: map<Hash, nat>, hashes: set<Hash>): map<Hash, nat>
    requires hashes <= bucket.Keys
  {
    map h | h in freq && !(h in hashes && freq[h] <= bucket[h])
      :: if h in hashes then freq[h] - bucket[h] else freq[h]
  }

  lemma NothingStays(bucket: map<Hash, nat>)
    ensures WithoutCounts(bucket, bucket, bucket.Keys) == map[]
  {
  }

  class FrequencyMask {
    const config: Config
    var currentBucket: nat
    var lastShiftMs: nat
    var buckets: seq<map<Hash, nat>>
    var freqMap: map<Hash, nat>

    /** Every bucket but the current one is empty, and the global map repeats the current one. */
    ghost predicate Valid()
      reads this
    {
      && config.Valid()
      && |buckets| == config.bucketCount && currentBucket < config.bucketCount
      && (forall i | 0 <= i < |buckets| && i != currentBucket :: buckets[i] == map[])
      && freqMap == buckets[currentBucket]
      && (forall h | h in freqMap :: 1 <= freqMap[h] <= config.maxFrequency)
    }

    ghost function State(): Counter
      reads this
    {
      Counter(lastShiftMs, freqMap)
    }

    constructor (baseWindowMs: nat, bucketCount: nat, maxFrequency: nat)
      ensures Valid() && State() == START
      ensures config == NewConfig(baseWindowMs, bucketCount, maxFrequency)
    {
      var c := NewConfig(baseWindowMs, bucketCount, maxFrequency);
      config := c;
      currentBucket := 0;
      lastShiftMs := 0;
      buckets := seq(c.bucketCount, i => map[]);
      freqMap := map[];
    }

    /** Takes the counts of one bucket out of the global map, whatever that map holds. */
    method Expire(bucket: map<Hash, nat>)
      modifies this`freqMap
      ensures freqMap == WithoutCounts(old(freqMap), bucket, bucket.Keys)
    {
      var todo := bucket.Keys;
      while todo != {}
        invariant todo <= bucket.Keys
        invariant freqMap == WithoutCounts(old(freqMap), bucket, bucket.Keys - todo)
        decreases todo
      {
        var h :| h in todo;
        var count := bucket[h];
        if h in freqMap {
          if freqMap[h] <= count {
            freqMap := freqMap - {h};
          } else {
            freqMap := freqMap[h := freqMap[h] - count];
          }
        }
        todo := todo - {h};
      }
    }

    method ShiftIfNeeded(now: nat)
      requires Valid()
      modifies this
      ensures Valid() && State() == Shift(config, old(State()), now)
    {
      if lastShiftMs == 0 {
        lastShiftMs := SaturatingSub(now, config.bucketSizeMs);
      }
      ghost var start := lastShiftMs;
      var size := config.bucketSizeMs;
      var iterations := 0;
      while SaturatingSub(now, lastShiftMs) >= size && iterations < config.bucketCount
        invariant 0 <= iterations <= config.bucketCount
        invariant lastShiftMs == start + iterations * size
        invariant iterations * size <= SaturatingSub(now, start)
        invariant |buckets| == config.bucketCount && currentBucket < config.bucketCount
        invariant forall i | 0 <= i < |buckets| && i != currentBucket :: buckets[i] == map[]
        invariant freqMap == buckets[currentBucket]
        invariant freqMap == if iterations == 0 then old(freqMap) else map[]
      {
        lastShiftMs := lastShiftMs + size;
        var oldIdx := currentBucket;
        Expire(buckets[oldIdx]);
        NothingStays(buckets[oldIdx]);
        buckets := buckets[oldIdx := map[]];
        currentBucket := (currentBucket + 1) % config.bucketCount;
        iterations := iterations + 1;
        assert iterations * size == (iterations - 1) * size + size;
      }
      ElapsedIs(now, start, iterations);
      if iterations >= config.bucketCount {
        lastShiftMs := now;
      }
    }

    lemma ElapsedIs(now: nat, start: nat, k: nat)
      requires k <= config.bucketCount && k * config.bucketSizeMs <= SaturatingSub(now, start)
      requires k < config.bucketCount ==> SaturatingSub(now, start + k * config.bucketSizeMs) < config.bucketSizeMs
      ensures Elapsed(config, start, now) == k
    {
      var a, b := SaturatingSub(now, start), config.bucketSizeMs;
      if b > 0 {
        if k < config.bucketCount {
          DivisionIsUnique(a, b, k);
        } else {
          DivisionIsAtLeast(a, b, k);
        }
      }
    }

    /** Returns whether the text with hash `h` is to be blocked. */
    method ShouldBlock(h: Hash, now: nat) returns (blocked: bool)
      requires Valid()
      modifies this
      ensures Valid() && State() == Check(config, old(State()), h, now)
      ensures blocked <==> !Accepts(config, Shift(config, old(State()), now), h)
    {
      ShiftIfNeeded(now);
      var freq := Get(freqMap, h);
      var allowed := freq < config.maxFrequency;
      if allowed {
        var bucket := buckets[currentBucket];
        buckets := buckets[currentBucket := bucket[h := Get(bucket, h) + 1]];
        freqMap := freqMap[h := freq + 1];
      }
      blocked := !allowed;
    }

    method Reset()
      requires Valid()
      modifies this
      ensures Valid() && State() == START
    {
      buckets := seq(|buckets|, i => map[]);
      freqMap := map[];
      currentBucket := 0;
      lastShiftMs := 0;
    }

    /** The bookkeeping invariant: the global map holds exactly the positive sums over the buckets. */
    lemma FreqMapIsSumOfBuckets()
      requires Valid()
      ensures forall h :: Get(freqMap, h) == SumOfBuckets(buckets, h)
      ensures forall h :: h in freqMap <==> SumOfBuckets(buckets, h) > 0
      ensures forall h :: SumOfBuckets(buckets, h) <= config.maxFrequency
    {
      forall h ensures Get(freqMap, h) == SumOfBuckets(buckets, h) {
        OneBucketSums(buckets, currentBucket, h);
      }
    }
  }

  lemma {:induction false} OneBucketSums(buckets: seq<map<Hash, nat>>, current: int, h: Hash)
    requires current < |buckets|
    requires forall i | 0 <= i < |buckets| && i != current :: buckets[i] == map[]
    ensures SumOfBuckets(buckets, h) == if current >= 0 then Get(buckets[current], h) else 0
    decreases |buckets|
  {
    if buckets != [] {
      OneBucketSums(buckets[1..], current - 1, h);
    }
  }
}
