/** Where the epochs of a run start, said without the shift that computes them (mask_frequency.rs). */
module FrequencyEpochs {
  import opened Arithmetic
  import opened FrequencyMasks
  import opened FrequencyWindow

  /** The epoch that an event was counted in; 0 before the first. */
  function EpochBefore(c: Config, events: seq<Event>, i: nat): nat
    requires i <= |events|
  {
    if i == 0 then 0 else Trace(c, events)[i - 1].epoch
  }

  lemma StateHasEpoch(c: Config, events: seq<Event>, i: nat)
    requires i <= |events|
    ensures After(c, events[..i]).last == EpochBefore(c, events, i)
  {
    if i > 0 {
      TracePrefix(c, events, i - 1);
      assert events[..i][..i - 1] == events[..i - 1];
    }
  }

  /** What one event does to the epoch, for all states and times. */
  predicate Follows(c: Config, before: nat, now: nat, epoch: nat)
  {
    if before == 0 then epoch == if now < c.bucketSizeMs then 0 else now
    else if now < before then epoch == if c.bucketSizeMs == 0 then now else before
    else if now - before >= c.bucketCount * c.bucketSizeMs then epoch == now
    else epoch <= now < epoch + c.bucketSizeMs && before <= epoch && (epoch - before) % c.bucketSizeMs == 0
  }

  lemma FirstShiftFollows(c: Config, s: Counter, now: nat)
    requires c.Valid() && s.last == 0
    ensures Follows(c, 0, now, Shift(c, s, now).last)
  {
    var size := c.bucketSizeMs;
    if size > 0 {
      DivisionIsUnique(if now < size then now else size, size, if now < size then 0 else 1);
    }
  }

  lemma EarlyShiftFollows(c: Config, s: Counter, now: nat)
    requires c.Valid() && now < s.last
    ensures Follows(c, s.last, now, Shift(c, s, now).last)
  {
    if c.bucketSizeMs > 0 {
      DivisionIsUnique(0, c.bucketSizeMs, 0);
    }
  }

  lemma LaterShiftFollows(c: Config, s: Counter, now: nat)
    requires c.Valid() && 0 < s.last <= now
    ensures Follows(c, s.last, now, Shift(c, s, now).last)
  {
    var k := Elapsed(c, s.last, now);
    assert Shift(c, s, now).last == if k < c.bucketCount then s.last + k * c.bucketSizeMs else now;
    MulMonotone(0, k, c.bucketSizeMs);
    if c.bucketSizeMs > 0 {
      GridPoint(c, s.last, now);
    }
    hide Shift, Elapsed;
  }

  lemma ShiftFollows(c: Config, s: Counter, now: nat)
    requires c.Valid()
    ensures Follows(c, s.last, now, Shift(c, s, now).last)
  {
    hide Follows, Shift;
    if s.last == 0 {
      FirstShiftFollows(c, s, now);
    } else if now < s.last {
      EarlyShiftFollows(c, s, now);
    } else {
      LaterShiftFollows(c, s, now);
    }
  }

  lemma GridPoint(c: Config, last: nat, now: nat)
    requires c.Valid() && c.bucketSizeMs > 0 && last <= now
    ensures now - last >= c.bucketCount * c.bucketSizeMs <==> Elapsed(c, last, now) == c.bucketCount
    ensures var epoch := last + Elapsed(c, last, now) * c.bucketSizeMs;
      Elapsed(c, last, now) < c.bucketCount ==>
        epoch <= now < epoch + c.bucketSizeMs && (epoch - last) % c.bucketSizeMs == 0
  {
    var size, d := c.bucketSizeMs, now - last;
    var k := d / size;
    assert k * size <= d < k * size + size;
    if k < c.bucketCount {
      MulStep(k, c.bucketCount, size);
      MultipleOf(k, size);
    } else {
      MulMonotone(c.bucketCount, k, size);
    }
  }

  lemma MultipleOf(k: nat, size: nat)
    requires size > 0
    ensures k * size % size == 0
  {
    DivisionIsUnique(k * size, size, k);
    assert k * size == size * (k * size / size) + k * size % size;
  }

  /**
   * Main result: in every run, an epoch stays on the grid of bucket sizes that starts at the one before and is the
   * last grid point that is not after the event; once `bucketCount` whole sizes have passed it is the event's time.
   */
  lemma EpochsFollow(c: Config, events: seq<Event>, i: nat)
    requires c.Valid() && i < |events|
    ensures Follows(c, EpochBefore(c, events, i), events[i].now, Trace(c, events)[i].epoch)
  {
    TracePrefix(c, events, i);
    StateHasEpoch(c, events, i);
    hide Follows, Shift;
    ShiftFollows(c, After(c, events[..i]), events[i].now);
  }

  lemma LateEventStartsEpoch(c: Config, events: seq<Event>, i: nat)
    requires c.Valid() && i < |events| && EpochBefore(c, events, i) > 0
    requires events[i].now >= EpochBefore(c, events, i) + c.bucketCount * c.bucketSizeMs
    ensures Trace(c, events)[i].epoch == events[i].now
  {
    hide Trace, EpochBefore;
    EpochsFollow(c, events, i);
  }

  /** The grid of bucket sizes that starts at `origin`. */
  function OnGrid(origin: nat, size: nat, now: nat): nat
    requires size >= 1 && origin <= now
  {
    origin + size * ((now - origin) / size)
  }

  lemma GridIsUnique(origin: nat, size: nat, before: nat, epoch: nat, earlier: nat, now: nat)
    requires size >= 1 && origin <= earlier && before == OnGrid(origin, size, earlier) && origin <= now
    requires before <= epoch <= now < epoch + size && (epoch - before) % size == 0
    ensures epoch == OnGrid(origin, size, now)
  {
    var a, b := (earlier - origin) / size, (epoch - before) / size;
    assert epoch - before == size * b;
    assert epoch - origin == size * a + size * b == (a + b) * size;
    DivisionIsUnique(now - origin, size, a + b);
  }

  lemma GridBelow(origin: nat, size: nat, now: nat)
    requires size >= 1 && origin <= now
    ensures origin <= OnGrid(origin, size, now) <= now < OnGrid(origin, size, now) + size
  {
    var q := (now - origin) / size;
    assert now - origin == size * q + (now - origin) % size;
    MulMonotone(0, q, size);
  }

  /** Neighbouring events come at most so far apart that the ring is never used up. */
  predicate Steady(c: Config, events: seq<Event>)
  {
    forall i | 0 < i < |events| :: events[i].now - events[i - 1].now <= (c.bucketCount - 1) * c.bucketSizeMs
  }

  /**
   * Main result: in a run without long pauses the epochs are exactly the grid points from the first event on, one
   * bucket size apart.
   */
  lemma {:induction false} EpochsAreGrid(c: Config, events: seq<Event>, i: nat)
    requires c.bucketCount >= 2 && c.bucketSizeMs >= 1 && Ordered(events) && Steady(c, events)
    requires i < |events| && events[0].now >= c.bucketSizeMs
    ensures events[0].now <= events[i].now
    ensures Trace(c, events)[i].epoch
      == events[0].now + c.bucketSizeMs * ((events[i].now - events[0].now) / c.bucketSizeMs)
    decreases i
  {
    var origin, size := events[0].now, c.bucketSizeMs;
    EpochsFollow(c, events, i);
    if i == 0 {
      DivisionIsUnique(0, size, 0);
    } else {
      EpochsAreGrid(c, events, i - 1);
      var earlier, now := events[i - 1].now, events[i].now;
      var before := EpochBefore(c, events, i);
      assert before == OnGrid(origin, size, earlier) && earlier <= now;
      GridBelow(origin, size, earlier);
      MulNext(c.bucketCount - 1, size);
      hide Trace, EpochBefore, Steady, Ordered;
      assert now - before < c.bucketCount * size;
      GridIsUnique(origin, size, before, Trace(c, events)[i].epoch, earlier, now);
    }
  }
}
