/** How far the frequency mask keeps the documented promise, and how tight its own bound is (mask_frequency.rs). */
module FrequencyPromise {
  import opened Arithmetic
  import opened FrequencyMasks
  import opened FrequencyWindow

  predicate WithinWindow(c: Config, window: nat, events: seq<Event>, h: Hash, from: nat)
  {
    AcceptedBetween(Trace(c, events), h, from, from + window - 1) <= c.maxFrequency
  }

  /** Only texts with these hashes come. */
  predicate HashesFrom(events: seq<Event>, hashes: set<Hash>)
  {
    forall i | 0 <= i < |events| :: events[i].hash in hashes
  }

  /** The documented promise: no window of that length ever sees more than `maxFrequency` accepts of one hash. */
  ghost predicate PromisesWindow(c: Config, window: nat, hashes: set<Hash>)
  {
    forall events: seq<Event>, h: Hash, from: nat | Ordered(events) && HashesFrom(events, hashes) ::
      WithinWindow(c, window, events, h, from)
  }

  /** `n` events of one hash at one time. */
  function Burst(h: Hash, now: nat, n: nat): (events: seq<Event>)
    ensures |events| == n && forall i | 0 <= i < n :: events[i] == Event(h, now)
  {
    seq(n, i => Event(h, now))
  }

  lemma SameEpoch(c: Config, s: Counter, now: nat)
    requires c.Valid() && s.last >= 1 && s.last <= now < s.last + c.bucketSizeMs
    ensures Shift(c, s, now) == s
  {
    DivisionIsUnique(now - s.last, c.bucketSizeMs, 0);
  }

  lemma NextEpoch(c: Config, s: Counter, now: nat)
    requires c.Valid() && c.bucketSizeMs >= 1
    requires now == EpochStart(c, s, now) + c.bucketSizeMs
    ensures Shift(c, s, now) == Counter(now, map[])
  {
    DivisionIsUnique(c.bucketSizeMs, c.bucketSizeMs, 1);
  }

  lemma OneMore(c: Config, events: seq<Event>, e: Event, from: int, to: int)
    ensures After(c, events + [e]) == Check(c, After(c, events), e.hash, e.now)
    ensures var seen := Observe(c, After(c, events), e);
      AcceptedBetween(Trace(c, events + [e]), e.hash, from, to)
      == AcceptedBetween(Trace(c, events), e.hash, from, to) + if seen.accepted && from <= e.now <= to then 1 else 0
  {
    assert (events + [e])[..|events|] == events;
    assert Trace(c, events + [e])[..|events|] == Trace(c, events);
  }

  /** An event at `now` would be counted in the epoch that starts at `last`, after `n` accepts of its hash. */
  predicate Ready(c: Config, s: Counter, h: Hash, now: nat, last: nat, n: nat)
  {
    var t := Shift(c, s, now);
    t.last == last && Get(t.counts, h) == n
  }

  lemma ReadyInSameEpoch(c: Config, s: Counter, h: Hash, now: nat)
    requires c.Valid() && s.last >= 1 && s.last <= now < s.last + c.bucketSizeMs
    ensures Ready(c, s, h, now, s.last, Get(s.counts, h))
  {
    SameEpoch(c, s, now);
    hide Shift;
  }

  lemma ReadyInNextEpoch(c: Config, s: Counter, h: Hash, now: nat)
    requires c.Valid() && c.bucketSizeMs >= 1 && s.last >= 1 && now == s.last + c.bucketSizeMs
    ensures Ready(c, s, h, now, now, 0)
  {
    NextEpoch(c, s, now);
    hide Shift;
  }

  lemma OneMoreAccept(c: Config, s: Counter, h: Hash, now: nat, last: nat, n: nat)
    requires c.Valid() && 1 <= last <= now < last + c.bucketSizeMs
    requires Ready(c, s, h, now, last, n) && n < c.maxFrequency
    ensures Observe(c, s, Event(h, now)).accepted
    ensures Ready(c, Check(c, s, h, now), h, now, last, n + 1) && Check(c, s, h, now).last == last
  {
    var t := Shift(c, s, now);
    SameEpoch(c, Counter(last, t.counts[h := n + 1]), now);
    hide Shift;
  }

  /** A burst into an epoch without accepts is accepted up to the limit. */
  lemma {:induction false} BurstIsAccepted(
    c: Config, events: seq<Event>, h: Hash, now: nat, last: nat, n: nat, from: int, to: int)
    requires c.Valid() && 1 <= last <= now < last + c.bucketSizeMs && n <= c.maxFrequency
    requires Ready(c, After(c, events), h, now, last, 0) && from <= now <= to
    ensures var longer := events + Burst(h, now, n);
      && Ready(c, After(c, longer), h, now, last, n) && (n > 0 ==> After(c, longer).last == last)
      && AcceptedBetween(Trace(c, longer), h, from, to) == AcceptedBetween(Trace(c, events), h, from, to) + n
    decreases n
  {
    hide After, Trace, AcceptedBetween, Shift, Burst, Ready, Check, Observe;
    if n == 0 {
      assert events + Burst(h, now, 0) == events;
    } else {
      BurstIsAccepted(c, events, h, now, last, n - 1, from, to);
      var shorter := events + Burst(h, now, n - 1);
      assert events + Burst(h, now, n) == shorter + [Event(h, now)];
      OneMoreAccept(c, After(c, shorter), h, now, last, n - 1);
      OneMore(c, shorter, Event(h, now), from, to);
      SeenIsEvent(c, After(c, shorter), Event(h, now));
    }
  }

  lemma SeenIsEvent(c: Config, s: Counter, e: Event)
    ensures Observe(c, s, e).hash == e.hash && Observe(c, s, e).now == e.now
  {
  }

  /** The start of the `k`-th epoch of the fullest run. */
  function Boundary(c: Config, k: nat): nat
  {
    (k + 1) * c.bucketSizeMs
  }

  lemma BoundaryNext(c: Config, k: nat)
    ensures Boundary(c, k + 1) == Boundary(c, k) + c.bucketSizeMs && Boundary(c, 0) == c.bucketSizeMs
  {
    MulNext(k + 1, c.bucketSizeMs);
  }

  /** Fill an epoch in its last millisecond, then each of the next `k` epochs in its first. */
  function Fill(c: Config, g: Hash, h: Hash, k: nat): seq<Event>
    requires c.bucketSizeMs >= 1
  {
    var size := c.bucketSizeMs;
    if k == 0 then [Event(g, size)] + Burst(h, 2 * size - 1, c.maxFrequency)
    else Fill(c, g, h, k - 1) + Burst(h, Boundary(c, k), c.maxFrequency)
  }

  lemma FirstEvent(c: Config, g: Hash, h: Hash)
    requires g != h && c.Valid() && c.bucketSizeMs >= 1
    ensures After(c, [Event(g, c.bucketSizeMs)]).last == c.bucketSizeMs
    ensures Get(After(c, [Event(g, c.bucketSizeMs)]).counts, h) == 0
    ensures forall from, to :: AcceptedBetween(Trace(c, [Event(g, c.bucketSizeMs)]), h, from, to) == 0
  {
    var events := [Event(g, c.bucketSizeMs)];
    NextEpoch(c, START, c.bucketSizeMs);
    hide Shift;
    assert events[..0] == [] && After(c, []) == START;
    assert Trace(c, events)[..0] == [];
  }

  lemma FirstFill(c: Config, g: Hash, h: Hash, to: int)
    requires g != h && c.Valid() && c.bucketSizeMs >= 1 && c.maxFrequency >= 1 && to >= 2 * c.bucketSizeMs - 1
    ensures After(c, Fill(c, g, h, 0)).last == c.bucketSizeMs
    ensures AcceptedBetween(Trace(c, Fill(c, g, h, 0)), h, 2 * c.bucketSizeMs - 1, to) == c.maxFrequency
  {
    var size := c.bucketSizeMs;
    var events := [Event(g, size)];
    FirstEvent(c, g, h);
    assert Fill(c, g, h, 0) == events + Burst(h, 2 * size - 1, c.maxFrequency);
    hide Ready, After, Trace, AcceptedBetween, Shift, Burst, Get, Fill;
    ReadyInSameEpoch(c, After(c, events), h, 2 * size - 1);
    BurstIsAccepted(c, events, h, 2 * size - 1, size, c.maxFrequency, 2 * size - 1, to);
  }

  /** What `k + 1` epochs can accept. */
  function Quota(c: Config, k: nat): nat
  {
    (k + 1) * c.maxFrequency
  }

  lemma QuotaNext(c: Config, k: nat)
    ensures Quota(c, k + 1) == Quota(c, k) + c.maxFrequency && Quota(c, 0) == c.maxFrequency
  {
    MulNext(k + 1, c.maxFrequency);
  }

  /** Every epoch of the run accepts as much as it can. */
  lemma {:induction false} FillIsAccepted(c: Config, g: Hash, h: Hash, k: nat, to: int)
    requires g != h && c.Valid() && c.bucketSizeMs >= 1 && c.maxFrequency >= 1
    requires to >= 2 * c.bucketSizeMs - 1 && to >= Boundary(c, k)
    ensures After(c, Fill(c, g, h, k)).last == Boundary(c, k)
    ensures AcceptedBetween(Trace(c, Fill(c, g, h, k)), h, 2 * c.bucketSizeMs - 1, to) == Quota(c, k)
    decreases k
  {
    hide Boundary, Quota, Ready, After, Trace, AcceptedBetween, Shift, Burst;
    BoundaryNext(c, 0);
    QuotaNext(c, 0);
    if k == 0 {
      FirstFill(c, g, h, to);
    } else {
      BoundaryNext(c, k - 1);
      QuotaNext(c, k - 1);
      BoundaryAtLeast(c, k - 1);
      FillIsAccepted(c, g, h, k - 1, to);
      NextFill(c, Fill(c, g, h, k - 1), h, Boundary(c, k), 2 * c.bucketSizeMs - 1, to);
    }
  }

  lemma NextFill(c: Config, events: seq<Event>, h: Hash, now: nat, from: int, to: int)
    requires c.Valid() && c.bucketSizeMs >= 1 && c.maxFrequency >= 1
    requires After(c, events).last >= 1 && now == After(c, events).last + c.bucketSizeMs && from <= now <= to
    ensures var longer := events + Burst(h, now, c.maxFrequency);
      && After(c, longer).last == now
      && AcceptedBetween(Trace(c, longer), h, from, to)
        == AcceptedBetween(Trace(c, events), h, from, to) + c.maxFrequency
  {
    hide Ready, After, Trace, AcceptedBetween, Shift, Burst;
    ReadyInNextEpoch(c, After(c, events), h, now);
    BurstIsAccepted(c, events, h, now, now, c.maxFrequency, from, to);
  }

  lemma {:induction false} BoundaryAtLeast(c: Config, k: nat)
    ensures Boundary(c, k) >= c.bucketSizeMs
    decreases k
  {
    if k > 0 {
      BoundaryNext(c, k - 1);
      BoundaryAtLeast(c, k - 1);
    }
  }

  lemma {:induction false} FillIsOrdered(c: Config, g: Hash, h: Hash, k: nat)
    requires c.bucketSizeMs >= 1
    ensures Ordered(Fill(c, g, h, k))
    ensures forall i | 0 <= i < |Fill(c, g, h, k)| ::
      Fill(c, g, h, k)[i].now <= 2 * c.bucketSizeMs - 1 || Fill(c, g, h, k)[i].now <= Boundary(c, k)
    decreases k
  {
    if k > 0 {
      FillIsOrdered(c, g, h, k - 1);
      BoundaryNext(c, k - 1);
      BoundaryAtLeast(c, k - 1);
      hide Boundary;
    }
  }

  lemma FillReaches(c: Config, g: Hash, h: Hash, k: nat, to: int)
    requires g != h && c.Valid() && c.bucketSizeMs >= 1
    requires to >= 2 * c.bucketSizeMs - 1 && to >= Boundary(c, k)
    ensures AcceptedBetween(Trace(c, Fill(c, g, h, k)), h, 2 * c.bucketSizeMs - 1, to) == Quota(c, k)
  {
    if c.maxFrequency == 0 {
      NeverAccepting(c, Fill(c, g, h, k), h, 2 * c.bucketSizeMs - 1, to);
    } else {
      hide *;
      FillIsAccepted(c, g, h, k, to);
    }
  }

  lemma BoundaryIsInside(c: Config, k: nat)
    requires c.bucketSizeMs >= 1
    ensures 0 <= k * c.bucketSizeMs && Boundary(c, k) <= 2 * c.bucketSizeMs - 1 + k * c.bucketSizeMs
  {
    MulNext(k, c.bucketSizeMs);
    MulMonotone(0, k, c.bucketSizeMs);
  }

  /**
   * Main result: the bound over intervals of `k` bucket sizes is reached, for every configuration with a positive
   * bucket size and every `k`.
   */
  lemma IntervalBoundIsReached(c: Config, g: Hash, h: Hash, k: nat)
    requires g != h && c.Valid() && c.bucketSizeMs >= 1
    ensures Ordered(Fill(c, g, h, k))
    ensures var from := 2 * c.bucketSizeMs - 1;
      AcceptedBetween(Trace(c, Fill(c, g, h, k)), h, from, from + k * c.bucketSizeMs) == (k + 1) * c.maxFrequency
  {
    assert Quota(c, k) == (k + 1) * c.maxFrequency;
    hide *;
    FillIsOrdered(c, g, h, k);
    BoundaryIsInside(c, k);
    FillReaches(c, g, h, k, 2 * c.bucketSizeMs - 1 + k * c.bucketSizeMs);
  }

  /** Two neighbouring milliseconds can see twice the limit. */
  lemma StraddleOverflows(c: Config, g: Hash, h: Hash)
    requires g != h && c.Valid() && c.bucketSizeMs >= 1 && c.maxFrequency >= 1
    ensures Ordered(Fill(c, g, h, 1))
    ensures AcceptedBetween(Trace(c, Fill(c, g, h, 1)), h, 2 * c.bucketSizeMs - 1, 2 * c.bucketSizeMs)
      == 2 * c.maxFrequency
  {
    FillIsOrdered(c, g, h, 1);
    FillReaches(c, g, h, 1, 2 * c.bucketSizeMs);
  }

  lemma {:induction false} CountingMore(trace: seq<Seen>, h: Hash, from: int, to: int, to': int)
    requires to <= to'
    ensures AcceptedBetween(trace, h, from, to) <= AcceptedBetween(trace, h, from, to')
  {
    if trace != [] {
      CountingMore(trace[..|trace| - 1], h, from, to, to');
    }
  }

  lemma {:induction false} NeverAccepting(c: Config, events: seq<Event>, h: Hash, from: int, to: int)
    requires c.maxFrequency == 0
    ensures AcceptedBetween(Trace(c, events), h, from, to) == 0
  {
    if events != [] {
      var n := |events| - 1;
      NeverAccepting(c, events[..n], h, from, to);
      assert Trace(c, events)[..n] == Trace(c, events[..n]);
    }
  }

  /** With more buckets than milliseconds the bucket size is 0, and then nothing is ever remembered. */
  lemma ZeroBucketSizeForgets(c: Config, s: Counter, h: Hash, now: nat)
    requires c.Valid() && c.bucketSizeMs == 0
    ensures Shift(c, s, now).counts == map[]
    ensures Accepts(c, Shift(c, s, now), h) <==> c.maxFrequency > 0
  {
  }

  lemma ForgetfulAccepts(c: Config, s: Counter, h: Hash, now: nat)
    requires c.Valid() && c.bucketSizeMs == 0 && c.maxFrequency >= 1
    ensures Observe(c, s, Event(h, now)).accepted
  {
    ZeroBucketSizeForgets(c, s, h, now);
    hide Shift;
  }

  lemma NoBurst(c: Config, h: Hash, now: nat)
    ensures AcceptedBetween(Trace(c, Burst(h, now, 0)), h, now, now) == 0
  {
    assert Trace(c, Burst(h, now, 0)) == [];
  }

  /** Then any burst is accepted whole. */
  lemma {:induction false} ForgetfulAcceptsAll(c: Config, h: Hash, now: nat, n: nat)
    requires c.Valid() && c.bucketSizeMs == 0 && c.maxFrequency >= 1
    ensures AcceptedBetween(Trace(c, Burst(h, now, n)), h, now, now) == n
    decreases n
  {
    hide After, Trace, AcceptedBetween, Shift, Burst, Observe, Check;
    if n == 0 {
      NoBurst(c, h, now);
    } else {
      var shorter := Burst(h, now, n - 1);
      ForgetfulAcceptsAll(c, h, now, n - 1);
      assert Burst(h, now, n) == shorter + [Event(h, now)];
      ForgetfulAccepts(c, After(c, shorter), h, now);
      OneMore(c, shorter, Event(h, now), now, now);
    }
  }

  lemma {:induction false} FillUses(c: Config, g: Hash, h: Hash, k: nat, hashes: set<Hash>)
    requires c.bucketSizeMs >= 1 && g in hashes && h in hashes
    ensures HashesFrom(Fill(c, g, h, k), hashes)
    decreases k
  {
    if k > 0 {
      FillUses(c, g, h, k - 1, hashes);
    }
  }

  lemma PromiseIsBroken(c: Config, window: nat, hashes: set<Hash>, g: Hash, h: Hash)
    requires c.Valid() && c.maxFrequency >= 1 && window >= 2
    requires g in hashes && h in hashes && g != h
    ensures !PromisesWindow(c, window, hashes)
  {
    hide AcceptedBetween, Trace, Burst, Fill;
    if c.bucketSizeMs >= 1 {
      var from := 2 * c.bucketSizeMs - 1;
      StraddleOverflows(c, g, h);
      FillUses(c, g, h, 1, hashes);
      CountingMore(Trace(c, Fill(c, g, h, 1)), h, from, from + 1, from + window - 1);
      assert !WithinWindow(c, window, Fill(c, g, h, 1), h, from);
    } else {
      var events := Burst(h, 0, c.maxFrequency + 1);
      ForgetfulAcceptsAll(c, h, 0, c.maxFrequency + 1);
      CountingMore(Trace(c, events), h, 0, 0, window - 1);
      assert !WithinWindow(c, window, events, h, 0);
    }
  }

  /**
   * Main result: whichever hashes texts can have, if there are two, of all configurations that `new` can build the
   * documented promise over the window asked for is kept exactly by those that block everything.
   */
  lemma PromiseHoldsOnlyForZero(
    baseWindowMs: nat, bucketCount: nat, maxFrequency: nat, hashes: set<Hash>, g: Hash, h: Hash)
    requires g in hashes && h in hashes && g != h
    ensures PromisesWindow(NewConfig(baseWindowMs, bucketCount, maxFrequency), WindowMs(baseWindowMs), hashes)
      <==> maxFrequency == 0
  {
    var c, window := NewConfig(baseWindowMs, bucketCount, maxFrequency), WindowMs(baseWindowMs);
    hide NewConfig;
    if maxFrequency == 0 {
      forall events: seq<Event>, h': Hash, from: nat | Ordered(events)
        ensures WithinWindow(c, window, events, h', from)
      {
        NeverAccepting(c, events, h', from, from + window - 1);
      }
    } else {
      PromiseIsBroken(c, window, hashes, g, h);
    }
  }
}
