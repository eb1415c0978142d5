/** What the frequency mask guarantees over whole runs, and what it does not. */
module FrequencyWindow {
  import opened FrequencyMasks

  datatype Event = Event(hash: Hash, now: nat)

  /** A checked event: its verdict, and the epoch that was current after the shift. */
  datatype Seen = Seen(hash: Hash, now: nat, accepted: bool, epoch: nat)

  /** The state after a run from a fresh mask. */
  function After(c: Config, events: seq<Event>): Counter
  {
    if events == [] then START
    else
      var n := |events| - 1;
      Check(c, After(c, events[..n]), events[n].hash, events[n].now)
  }

  function Observe(c: Config, s: Counter, e: Event): Seen
  {
    var t := Shift(c, s, e.now);
    Seen(e.hash, e.now, Accepts(c, t, e.hash), t.last)
  }

  function Trace(c: Config, events: seq<Event>): (trace: seq<Seen>)
    ensures |trace| == |events|
  {
    if events == [] then []
    else
      var n := |events| - 1;
      Trace(c, events[..n]) + [Observe(c, After(c, events[..n]), events[n])]
  }

  ghost predicate Ordered(events: seq<Event>)
  {
    forall i, j | 0 <= i < j < |events| :: events[i].now <= events[j].now
  }

  /** How often hash `h` was accepted in the epochs after `lo` and up to `hi`. */
  function AcceptedInEpochs(trace: seq<Seen>, h: Hash, lo: int, hi: int): nat
  {
    if trace == [] then 0
    else
      var n := |trace| - 1;
      AcceptedInEpochs(trace[..n], h, lo, hi)
      + if trace[n].accepted && trace[n].hash == h && lo < trace[n].epoch <= hi then 1 else 0
  }

  /** How often hash `h` was accepted at a time in `from..=to`. */
  function AcceptedBetween(trace: seq<Seen>, h: Hash, from: int, to: int): nat
  {
    if trace == [] then 0
    else
      var n := |trace| - 1;
      AcceptedBetween(trace[..n], h, from, to)
      + if trace[n].accepted && trace[n].hash == h && from <= trace[n].now <= to then 1 else 0
  }

  function AcceptedInEpoch(trace: seq<Seen>, h: Hash, epoch: nat): nat
  {
    AcceptedInEpochs(trace, h, epoch - 1, epoch)
  }

  /** Same epoch, or a full bucket size later. */
  predicate Spaced(c: Config, earlier: nat, later: nat)
  {
    earlier == later || earlier + c.bucketSizeMs <= later
  }

  /** What holds of the state and the trace of every ordered run. */
  ghost predicate Inv(c: Config, s: Counter, trace: seq<Seen>)
  {
    && (forall i | 0 <= i < |trace| :: Spaced(c, trace[i].epoch, s.last))
    && (forall i, j | 0 <= i < j < |trace| :: Spaced(c, trace[i].epoch, trace[j].epoch))
    && (forall i | 0 <= i < |trace| :: trace[i].epoch <= trace[i].now < trace[i].epoch + c.bucketSizeMs)
    && (forall h :: Get(s.counts, h) == AcceptedInEpoch(trace, h, s.last))
    && (forall h :: Get(s.counts, h) <= c.maxFrequency)
  }

  lemma ElapsedBounds(c: Config, last: nat, now: nat)
    requires c.bucketSizeMs >= 1 && last <= now
    ensures Elapsed(c, last, now) == 0 ==> now < last + c.bucketSizeMs || c.bucketCount == 0
    ensures Elapsed(c, last, now) > 0 ==> last + c.bucketSizeMs <= now
    ensures 0 < Elapsed(c, last, now) < c.bucketCount ==>
      var last' := last + Elapsed(c, last, now) * c.bucketSizeMs;
      last + c.bucketSizeMs <= last' <= now < last' + c.bucketSizeMs
  {
    var size, k := c.bucketSizeMs, (now - last) / c.bucketSizeMs;
    assert now - last == k * size + (now - last) % size;
    if k > 0 {
      assert k * size == (k - 1) * size + size;
    }
  }

  /** A shift keeps the epoch or opens one that starts at least a bucket size later; the time falls into it. */
  lemma ShiftBounds(c: Config, s: Counter, now: nat)
    requires c.Valid() && c.bucketSizeMs >= 1 && s.last <= now
    ensures var t := Shift(c, s, now); t.last <= now < t.last + c.bucketSizeMs
    ensures var t := Shift(c, s, now);
      || (t.counts == map[] && s.last + c.bucketSizeMs <= t.last)
      || (t.counts == s.counts && t.last == s.last)
  {
    ElapsedBounds(c, EpochStart(c, s, now), now);
  }

  /** An epoch that no event has seen yet has no accepts. */
  lemma {:induction false} NothingAccepted(trace: seq<Seen>, h: Hash, lo: int, hi: int)
    requires forall i | 0 <= i < |trace| :: !(lo < trace[i].epoch <= hi)
    ensures AcceptedInEpochs(trace, h, lo, hi) == 0
  {
    if trace != [] {
      NothingAccepted(trace[..|trace| - 1], h, lo, hi);
    }
  }

  lemma InvStep(c: Config, s: Counter, trace: seq<Seen>, e: Event)
    requires c.Valid() && c.bucketSizeMs >= 1
    requires Inv(c, s, trace) && s.last <= e.now
    ensures Inv(c, Check(c, s, e.hash, e.now), trace + [Observe(c, s, e)])
  {
    var t := Shift(c, s, e.now);
    ShiftBounds(c, s, e.now);
    var seen := Observe(c, s, e);
    var trace' := trace + [seen];
    assert trace'[..|trace|] == trace;
    forall h ensures Get(t.counts, h) == AcceptedInEpoch(trace, h, t.last) {
      if t.counts != s.counts || t.last != s.last {
        NothingAccepted(trace, h, t.last - 1, t.last);
      }
    }
    hide Shift, AcceptedInEpochs;
    forall h ensures AcceptedInEpoch(trace', h, t.last)
      == AcceptedInEpoch(trace, h, t.last) + if seen.accepted && seen.hash == h then 1 else 0
    {
      AppendAccepted(trace, seen, h, t.last - 1, t.last);
    }
    var s' := Check(c, s, e.hash, e.now);
    assert s'.last == t.last == seen.epoch;
    assert forall h :: Get(s'.counts, h) == Get(t.counts, h) + if seen.accepted && seen.hash == h then 1 else 0;
    assert forall i | 0 <= i < |trace| :: Spaced(c, trace[i].epoch, t.last);
    assert forall h :: Get(s'.counts, h) == AcceptedInEpoch(trace', h, s'.last);
    assert forall h :: Get(s'.counts, h) <= c.maxFrequency;
  }

  lemma AppendAccepted(trace: seq<Seen>, seen: Seen, h: Hash, lo: int, hi: int)
    ensures AcceptedInEpochs(trace + [seen], h, lo, hi)
      == AcceptedInEpochs(trace, h, lo, hi) + if seen.accepted && seen.hash == h && lo < seen.epoch <= hi then 1 else 0
  {
    assert (trace + [seen])[..|trace|] == trace;
  }

  /** The invariant holds after every ordered run, and the current epoch never lies ahead of the last event. */
  lemma {:induction false} EveryRunKeepsInv(c: Config, events: seq<Event>)
    requires c.Valid() && c.bucketSizeMs >= 1 && Ordered(events)
    ensures Inv(c, After(c, events), Trace(c, events))
    ensures events != [] ==> After(c, events).last <= events[|events| - 1].now
    ensures events == [] ==> After(c, events).last == 0
  {
    if events != [] {
      var n := |events| - 1;
      var s := After(c, events[..n]);
      EveryRunKeepsInv(c, events[..n]);
      assert s.last <= events[n].now;
      InvStep(c, s, Trace(c, events[..n]), events[n]);
      ShiftBounds(c, s, events[n].now);
    }
  }

  lemma {:induction false} TracePrefix(c: Config, events: seq<Event>, i: nat)
    requires i < |events|
    ensures Trace(c, events)[..i] == Trace(c, events[..i])
    ensures Trace(c, events)[i] == Observe(c, After(c, events[..i]), events[i])
  {
    var n := |events| - 1;
    if i < n {
      TracePrefix(c, events[..n], i);
      assert events[..n][..i] == events[..i];
    }
  }

  lemma BlockedInState(c: Config, s: Counter, trace: seq<Seen>, e: Event)
    requires c.Valid() && c.bucketSizeMs >= 1
    requires Inv(c, s, trace) && s.last <= e.now
    ensures !Observe(c, s, e).accepted <==> AcceptedInEpoch(trace, e.hash, Observe(c, s, e).epoch) == c.maxFrequency
  {
    ShiftBounds(c, s, e.now);
    var t := Shift(c, s, e.now);
    if t.last != s.last {
      NothingAccepted(trace, e.hash, t.last - 1, t.last);
    }
  }

  /**
   * Main result: in every ordered run an event is blocked exactly when its hash has already been accepted
   * `maxFrequency` times in the epoch that the event falls into.
   */
  lemma BlockedExactlyWhenFull(c: Config, events: seq<Event>, i: nat)
    requires c.Valid() && c.bucketSizeMs >= 1 && Ordered(events) && i < |events|
    ensures var trace := Trace(c, events);
      !trace[i].accepted <==> AcceptedInEpoch(trace[..i], trace[i].hash, trace[i].epoch) == c.maxFrequency
  {
    TracePrefix(c, events, i);
    EveryRunKeepsInv(c, events[..i]);
    if i > 0 {
      assert events[..i][i - 1].now <= events[i].now;
    }
    hide Trace, After, AcceptedInEpoch, Inv, Shift;
    BlockedInState(c, After(c, events[..i]), Trace(c, events[..i]), events[i]);
  }

  lemma {:induction false} SplitEpochs(trace: seq<Seen>, h: Hash, lo: int, mid: int, hi: int)
    requires lo <= mid <= hi
    ensures AcceptedInEpochs(trace, h, lo, hi)
      == AcceptedInEpochs(trace, h, lo, mid) + AcceptedInEpochs(trace, h, mid, hi)
  {
    if trace != [] {
      SplitEpochs(trace[..|trace| - 1], h, lo, mid, hi);
    }
  }

  /** Widening the epochs counted beyond those that occur changes nothing. */
  lemma {:induction false} OnlyOneEpoch(trace: seq<Seen>, h: Hash, lo: int, hi: int, epoch: nat)
    requires lo < epoch <= hi
    requires forall i | 0 <= i < |trace| && lo < trace[i].epoch <= hi :: trace[i].epoch == epoch
    ensures AcceptedInEpochs(trace, h, lo, hi) == AcceptedInEpoch(trace, h, epoch)
  {
    if trace != [] {
      OnlyOneEpoch(trace[..|trace| - 1], h, lo, hi, epoch);
    }
  }

  lemma {:induction false} EpochNeverOverflows(c: Config, events: seq<Event>, h: Hash, epoch: nat)
    requires c.Valid() && c.bucketSizeMs >= 1 && Ordered(events)
    ensures AcceptedInEpoch(Trace(c, events), h, epoch) <= c.maxFrequency
  {
    if events != [] {
      var n := |events| - 1;
      EpochNeverOverflows(c, events[..n], h, epoch);
      EveryRunKeepsInv(c, events);
      var s := After(c, events);
      TracePrefix(c, events, n);
      assert Trace(c, events) == Trace(c, events)[..n] + [Trace(c, events)[n]];
      AppendAccepted(Trace(c, events)[..n], Trace(c, events)[n], h, epoch - 1, epoch);
      assert Trace(c, events)[n].epoch == s.last;
      if epoch == s.last {
        assert Get(s.counts, h) == AcceptedInEpoch(Trace(c, events), h, s.last);
      }
    }
  }

  /** Epoch starts within one bucket size of each other are equal, so at most one epoch is counted. */
  lemma OneBucketSizeBound(c: Config, events: seq<Event>, h: Hash, lo: int)
    requires c.Valid() && c.bucketSizeMs >= 1 && Ordered(events)
    ensures AcceptedInEpochs(Trace(c, events), h, lo, lo + c.bucketSizeMs) <= c.maxFrequency
  {
    var trace, hi := Trace(c, events), lo + c.bucketSizeMs;
    EveryRunKeepsInv(c, events);
    if i :| 0 <= i < |trace| && lo < trace[i].epoch <= hi {
      forall j | 0 <= j < |trace| && lo < trace[j].epoch <= hi ensures trace[j].epoch == trace[i].epoch {
        if i < j {
          assert Spaced(c, trace[i].epoch, trace[j].epoch);
        } else if j < i {
          assert Spaced(c, trace[j].epoch, trace[i].epoch);
        }
      }
      OnlyOneEpoch(trace, h, lo, hi, trace[i].epoch);
      EpochNeverOverflows(c, events, h, trace[i].epoch);
    } else {
      NothingAccepted(trace, h, lo, hi);
    }
  }

  lemma {:induction false} ManyBucketSizesBound(c: Config, events: seq<Event>, h: Hash, lo: int, k: nat)
    requires c.Valid() && c.bucketSizeMs >= 1 && Ordered(events)
    ensures k * c.bucketSizeMs >= 0
    ensures AcceptedInEpochs(Trace(c, events), h, lo, lo + k * c.bucketSizeMs) <= k * c.maxFrequency
    decreases k
  {
    if k == 0 {
      NothingAccepted(Trace(c, events), h, lo, lo);
    } else {
      var mid := lo + (k - 1) * c.bucketSizeMs;
      ManyBucketSizesBound(c, events, h, lo, k - 1);
      OneBucketSizeBound(c, events, h, mid);
      assert mid + c.bucketSizeMs == lo + k * c.bucketSizeMs;
      SplitEpochs(Trace(c, events), h, lo, mid, mid + c.bucketSizeMs);
      assert (k - 1) * c.maxFrequency + c.maxFrequency == k * c.maxFrequency;
    }
  }

  /** An event in a time interval belongs to an epoch that started less than a bucket size before it. */
  lemma {:induction false} TimesFallIntoEpochs(c: Config, trace: seq<Seen>, h: Hash, from: int, to: int)
    requires forall i | 0 <= i < |trace| :: trace[i].epoch <= trace[i].now < trace[i].epoch + c.bucketSizeMs
    ensures AcceptedBetween(trace, h, from, to) <= AcceptedInEpochs(trace, h, from - c.bucketSizeMs, to)
  {
    if trace != [] {
      TimesFallIntoEpochs(c, trace[..|trace| - 1], h, from, to);
    }
  }

  /**
   * Main result: in every ordered run, any closed interval of `k` bucket sizes sees at most
   * `(k + 1) * maxFrequency` accepts of one hash.
   */
  lemma IntervalBound(c: Config, events: seq<Event>, h: Hash, from: nat, k: nat)
    requires c.Valid() && c.bucketSizeMs >= 1 && Ordered(events)
    ensures AcceptedBetween(Trace(c, events), h, from, from + k * c.bucketSizeMs) <= (k + 1) * c.maxFrequency
  {
    var trace := Trace(c, events);
    EveryRunKeepsInv(c, events);
    TimesFallIntoEpochs(c, trace, h, from, from + k * c.bucketSizeMs);
    ManyBucketSizesBound(c, events, h, from - c.bucketSizeMs, k + 1);
    assert from - c.bucketSizeMs + (k + 1) * c.bucketSizeMs == from + k * c.bucketSizeMs;
  }
}
