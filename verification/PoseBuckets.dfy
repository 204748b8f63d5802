/** bridge/remote_pose_timeline.cpp: the one-second clock buckets, a sliding-window minimum of clock
    offsets and the medians of recent maxima. */
module PoseBuckets {
  import opened Options
  import opened Sequences

  const BUCKETS := 24
  const RECENT_SECONDS := 5
  const SECOND_US := 1_000_000

  datatype Bucket = Bucket(epoch: nat, minOffset: int, maxJitter: nat, maxInterval: nat, valid: bool)

  const BLANK := Bucket(0, 0, 0, 0, false)

  function Epoch(time: nat): nat { time / SECOND_US }

  function Max(a: nat, b: nat): nat { if a >= b then a else b }

  function Least(a: Option<int>, b: int): Option<int> { if a.Some? && a.value <= b then a else Some(b) }

  /** The bucket of second `epoch` once it has seen an offset. */
  function Opened(b: Bucket, epoch: nat, offset: int): Bucket {
    if !b.valid || b.epoch != epoch then Bucket(epoch, offset, 0, 0, true)
    else b.(minOffset := if offset < b.minOffset then offset else b.minOffset)
  }

  function Grown(b: Bucket, jitter: nat, interval: nat): Bucket {
    b.(maxJitter := Max(b.maxJitter, jitter), maxInterval := Max(b.maxInterval, interval))
  }

  predicate Live(b: Bucket, now: nat) { b.valid && b.epoch + BUCKETS > now }

  /** The loop of offset_estimate, `now` in seconds. */
  function LiveMin(buckets: seq<Bucket>, now: nat): Option<int> {
    if buckets == [] then None
    else
      var before, b := LiveMin(buckets[..|buckets| - 1], now), buckets[|buckets| - 1];
      if Live(b, now) then Least(before, b.minOffset) else before
  }

  // ----- the history the buckets stand for --------------------------------------------------

  /** One accepted sample: when it came, its clock offset, and what it added to the maxima. */
  datatype Arrival = Arrival(receive: nat, offset: int, jitter: nat, interval: nat)

  /** Least offset of the samples of the last 24 seconds. */
  function WindowMin(log: seq<Arrival>, now: nat): Option<int> {
    if log == [] then None
    else
      var before, a := WindowMin(log[..|log| - 1], now), log[|log| - 1];
      if Epoch(a.receive) + BUCKETS > now then Least(before, a.offset) else before
  }

  function SecondMin(log: seq<Arrival>, epoch: nat): Option<int> {
    if log == [] then None
    else
      var before, a := SecondMin(log[..|log| - 1], epoch), log[|log| - 1];
      if Epoch(a.receive) == epoch then Least(before, a.offset) else before
  }

  function SecondJitter(log: seq<Arrival>, epoch: nat): nat {
    if log == [] then 0
    else
      var before, a := SecondJitter(log[..|log| - 1], epoch), log[|log| - 1];
      if Epoch(a.receive) == epoch then Max(before, a.jitter) else before
  }

  function SecondInterval(log: seq<Arrival>, epoch: nat): nat {
    if log == [] then 0
    else
      var before, a := SecondInterval(log[..|log| - 1], epoch), log[|log| - 1];
      if Epoch(a.receive) == epoch then Max(before, a.interval) else before
  }

  /** A bucket sums up its second of the history. */
  predicate Sums(b: Bucket, log: seq<Arrival>, residue: nat) {
    b.valid ==>
      && b.epoch % BUCKETS == residue && SecondMin(log, b.epoch) == Some(b.minOffset)
      && b.maxJitter == SecondJitter(log, b.epoch) && b.maxInterval == SecondInterval(log, b.epoch)
  }

  /** No arrival is stamped a whole turn of the buckets before an earlier one. */
  predicate NoTurnBack(log: seq<Arrival>) {
    forall j, k :: 0 <= j <= k < |log| ==> Epoch(log[j].receive) < Epoch(log[k].receive) + BUCKETS
  }

  /** No arrival is stamped in a later second than `last`. */
  predicate UpTo(log: seq<Arrival>, last: nat) { forall k :: 0 <= k < |log| ==> Epoch(log[k].receive) <= last }

  function Slot(a: Arrival): nat { Epoch(a.receive) % BUCKETS }

  /** No later arrival took this one's bucket for another second. */
  predicate Kept(log: seq<Arrival>, k: nat) {
    && k < |log|
    && forall j :: k < j < |log| && Slot(log[j]) == Slot(log[k]) ==> Epoch(log[j].receive) == Epoch(log[k].receive)
  }

  predicate KeptIn(log: seq<Arrival>, k: nat, r: nat) { Kept(log, k) && Slot(log[k]) == r }

  /** What a bucket says of the arrivals it has kept. */
  predicate Bounds(b: Bucket, a: Arrival) {
    Epoch(a.receive) == b.epoch && b.minOffset <= a.offset && a.jitter <= b.maxJitter && a.interval <= b.maxInterval
  }

  /** The bucket of a residue is open once an arrival has it, and sums up exactly the arrivals kept. */
  ghost predicate SumsKept(b: Bucket, log: seq<Arrival>, r: nat) {
    if !b.valid then forall k :: 0 <= k < |log| ==> Slot(log[k]) != r
    else
      && (forall k: nat :: KeptIn(log, k, r) ==> Bounds(b, log[k]))
      && (exists k: nat :: KeptIn(log, k, r) && log[k].offset == b.minOffset)
      && (exists k: nat :: KeptIn(log, k, r) && log[k].jitter == b.maxJitter)
      && (exists k: nat :: KeptIn(log, k, r) && log[k].interval == b.maxInterval)
  }

  ghost predicate Keeps(buckets: seq<Bucket>, log: seq<Arrival>) {
    |buckets| == BUCKETS && forall r :: 0 <= r < BUCKETS ==> SumsKept(buckets[r], log, r)
  }

  lemma {:induction false} SecondMinAttained(log: seq<Arrival>, epoch: nat) returns (k: nat)
    requires SecondMin(log, epoch).Some?
    ensures k < |log| && Epoch(log[k].receive) == epoch && log[k].offset == SecondMin(log, epoch).value
  {
    var last := |log| - 1;
    if Epoch(log[last].receive) == epoch && SecondMin(log, epoch) == Some(log[last].offset) {
      k := last;
    } else {
      k := SecondMinAttained(log[..last], epoch);
    }
  }

  lemma {:induction false} SecondJitterAttained(log: seq<Arrival>, epoch: nat) returns (k: nat)
    requires SecondMin(log, epoch).Some?
    ensures k < |log| && Epoch(log[k].receive) == epoch && log[k].jitter == SecondJitter(log, epoch)
  {
    var last := |log| - 1;
    if Epoch(log[last].receive) == epoch && SecondJitter(log, epoch) == log[last].jitter {
      k := last;
    } else {
      SecondEmpty(log[..last], epoch);
      k := SecondJitterAttained(log[..last], epoch);
    }
  }

  lemma {:induction false} SecondIntervalAttained(log: seq<Arrival>, epoch: nat) returns (k: nat)
    requires SecondMin(log, epoch).Some?
    ensures k < |log| && Epoch(log[k].receive) == epoch && log[k].interval == SecondInterval(log, epoch)
  {
    var last := |log| - 1;
    if Epoch(log[last].receive) == epoch && SecondInterval(log, epoch) == log[last].interval {
      k := last;
    } else {
      SecondEmpty(log[..last], epoch);
      k := SecondIntervalAttained(log[..last], epoch);
    }
  }

  lemma {:induction false} SecondEmpty(log: seq<Arrival>, epoch: nat)
    ensures SecondMin(log, epoch).None? ==> SecondJitter(log, epoch) == 0 && SecondInterval(log, epoch) == 0
    ensures SecondMin(log, epoch).None? <==> forall k :: 0 <= k < |log| ==> Epoch(log[k].receive) != epoch
  {
    if log != [] {
      SecondEmpty(log[..|log| - 1], epoch);
    }
  }

  lemma {:induction false} SecondBounds(log: seq<Arrival>, k: nat)
    requires k < |log|
    ensures var e := Epoch(log[k].receive);
            && SecondMin(log, e).Some? && SecondMin(log, e).value <= log[k].offset
            && log[k].jitter <= SecondJitter(log, e) && log[k].interval <= SecondInterval(log, e)
  {
    if k < |log| - 1 {
      SecondBounds(log[..|log| - 1], k);
    }
  }

  lemma EpochMonotone(a: nat, b: nat)
    requires a <= b
    ensures Epoch(a) <= Epoch(b)
  {
  }

  lemma SameResidue(a: nat, b: nat)
    requires a % BUCKETS == b % BUCKETS && a < b + BUCKETS && b < a + BUCKETS
    ensures a == b
  {
  }

  /** The buckets after one more arrival. */
  function Recorded(buckets: seq<Bucket>, a: Arrival): (r: seq<Bucket>)
    requires |buckets| == BUCKETS
    ensures |r| == BUCKETS
  {
    var slot := Epoch(a.receive) % BUCKETS;
    buckets[slot := Grown(Opened(buckets[slot], Epoch(a.receive), a.offset), a.jitter, a.interval)]
  }

  lemma KeptNext(log: seq<Arrival>, a: Arrival, k: nat)
    ensures k < |log| ==>
              (Kept(log + [a], k)
               <==> Kept(log, k) && (Slot(a) == Slot(log[k]) ==> Epoch(a.receive) == Epoch(log[k].receive)))
    ensures Kept(log + [a], |log|)
  {
    var after := log + [a];
    assert forall j :: 0 <= j < |log| ==> after[j] == log[j];
    if k < |log| && Kept(after, k) {
      assert after[|log|] == a;
    }
  }

  /** An arrival in its bucket's second joins those kept. */
  lemma JoinsBucket(b: Bucket, log: seq<Arrival>, a: Arrival)
    requires SumsKept(b, log, Slot(a)) && b.valid && b.epoch == Epoch(a.receive)
    ensures SumsKept(Grown(Opened(b, Epoch(a.receive), a.offset), a.jitter, a.interval), log + [a], Slot(a))
  {
    var after, r := log + [a], Slot(a);
    forall k: nat
      ensures KeptIn(after, k, r) <==> KeptIn(log, k, r) || k == |log|
    {
      KeptNext(log, a, k);
      assert k < |log| ==> after[k] == log[k];
      assert KeptIn(log, k, r) ==> Bounds(b, log[k]);
    }
    var i: nat :| KeptIn(log, i, r) && log[i].offset == b.minOffset;
    var j: nat :| KeptIn(log, j, r) && log[j].jitter == b.maxJitter;
    var k: nat :| KeptIn(log, k, r) && log[k].interval == b.maxInterval;
    assert after[i] == log[i] && after[j] == log[j] && after[k] == log[k] && after[|log|] == a;
    assert KeptIn(after, i, r) && KeptIn(after, j, r) && KeptIn(after, k, r) && KeptIn(after, |log|, r);
  }

  /** An arrival of another second takes the bucket over, and is all that is kept in it. */
  lemma TakesBucket(b: Bucket, log: seq<Arrival>, a: Arrival)
    requires SumsKept(b, log, Slot(a)) && !(b.valid && b.epoch == Epoch(a.receive))
    ensures SumsKept(Grown(Opened(b, Epoch(a.receive), a.offset), a.jitter, a.interval), log + [a], Slot(a))
  {
    var after, r := log + [a], Slot(a);
    forall k: nat
      ensures KeptIn(after, k, r) <==> k == |log|
    {
      KeptNext(log, a, k);
      assert k < |log| ==> after[k] == log[k];
      assert b.valid && KeptIn(log, k, r) ==> Bounds(b, log[k]);
    }
    assert after[|log|] == a;
  }

  lemma OtherBucket(b: Bucket, log: seq<Arrival>, a: Arrival, r: nat)
    requires SumsKept(b, log, r) && r != Slot(a)
    ensures SumsKept(b, log + [a], r)
  {
    var after := log + [a];
    forall k: nat
      ensures KeptIn(after, k, r) <==> KeptIn(log, k, r)
      ensures KeptIn(log, k, r) ==> after[k] == log[k]
    {
      KeptNext(log, a, k);
      assert k < |log| ==> after[k] == log[k];
    }
  }

  /** Whatever the stamps, recording an arrival keeps in each bucket exactly the arrivals kept. */
  lemma RecordKeeps(buckets: seq<Bucket>, log: seq<Arrival>, a: Arrival)
    requires Keeps(buckets, log)
    ensures Keeps(Recorded(buckets, a), log + [a])
  {
    var after := Recorded(buckets, a);
    forall r | 0 <= r < BUCKETS
      ensures SumsKept(after[r], log + [a], r)
    {
      assert SumsKept(buckets[r], log, r);
      if r != Slot(a) {
        OtherBucket(buckets[r], log, a, r);
      } else if buckets[r].valid && buckets[r].epoch == Epoch(a.receive) {
        JoinsBucket(buckets[r], log, a);
      } else {
        TakesBucket(buckets[r], log, a);
      }
    }
  }

  lemma NothingKept()
    ensures Keeps(seq(BUCKETS, i => BLANK), [])
  {
  }

  /** A bucket that has kept every arrival of its second sums up that second of the whole history. */
  lemma WholeSecond(b: Bucket, log: seq<Arrival>, r: nat)
    requires b.valid && SumsKept(b, log, r)
    requires forall k: nat :: k < |log| && Epoch(log[k].receive) == b.epoch ==> Kept(log, k)
    ensures Sums(b, log, r)
  {
    var i: nat :| KeptIn(log, i, r) && log[i].offset == b.minOffset;
    var j: nat :| KeptIn(log, j, r) && log[j].jitter == b.maxJitter;
    var k: nat :| KeptIn(log, k, r) && log[k].interval == b.maxInterval;
    SecondBounds(log, i);
    SecondBounds(log, j);
    SecondBounds(log, k);
    var i' := SecondMinAttained(log, b.epoch);
    var j' := SecondJitterAttained(log, b.epoch);
    var k' := SecondIntervalAttained(log, b.epoch);
    assert KeptIn(log, i', r) && KeptIn(log, j', r) && KeptIn(log, k', r);
  }

  /** The bucket of an arrival that is kept is open at its second. */
  lemma KeptHasBucket(buckets: seq<Bucket>, log: seq<Arrival>, k: nat)
    requires Keeps(buckets, log) && Kept(log, k)
    ensures var b := buckets[Slot(log[k])]; b.valid && Bounds(b, log[k])
  {
    assert SumsKept(buckets[Slot(log[k])], log, Slot(log[k]));
    assert KeptIn(log, k, Slot(log[k]));
  }

  lemma {:induction false} LastOfSlot(log: seq<Arrival>, k: nat) returns (j: nat)
    requires k < |log|
    ensures k <= j < |log| && KeptIn(log, j, Slot(log[k]))
    decreases |log| - k
  {
    if Kept(log, k) {
      j := k;
    } else {
      var next: nat :| k < next < |log| && Slot(log[next]) == Slot(log[k]);
      j := LastOfSlot(log, next);
    }
  }

  /** Without a stamp a turn of the buckets back, every bucket sums up its second of the whole history, the
      newest second of its residue. */
  lemma SteadyBuckets(buckets: seq<Bucket>, log: seq<Arrival>)
    requires Keeps(buckets, log) && NoTurnBack(log)
    ensures forall r :: 0 <= r < BUCKETS ==> Sums(buckets[r], log, r)
    ensures forall k :: 0 <= k < |log| ==>
              var b := buckets[Slot(log[k])]; b.valid && Epoch(log[k].receive) <= b.epoch
  {
    forall k | 0 <= k < |log|
      ensures var b := buckets[Slot(log[k])]; b.valid && Epoch(log[k].receive) <= b.epoch
      ensures Epoch(log[k].receive) == buckets[Slot(log[k])].epoch ==> Kept(log, k)
    {
      NewestSecond(buckets, log, k);
    }
    forall r | 0 <= r < BUCKETS
      ensures Sums(buckets[r], log, r)
    {
      assert SumsKept(buckets[r], log, r);
      if buckets[r].valid {
        var i: nat :| KeptIn(log, i, r) && log[i].offset == buckets[r].minOffset;
        WholeSecond(buckets[r], log, r);
      }
    }
  }

  lemma NewestSecond(buckets: seq<Bucket>, log: seq<Arrival>, k: nat)
    requires Keeps(buckets, log) && NoTurnBack(log) && k < |log|
    ensures var b := buckets[Slot(log[k])];
            b.valid && Epoch(log[k].receive) <= b.epoch && (Epoch(log[k].receive) == b.epoch ==> Kept(log, k))
  {
    var last := LastOfSlot(log, k);
    KeptHasBucket(buckets, log, last);
    var e, top := Epoch(log[k].receive), Epoch(log[last].receive);
    if top < e {
      SameResidue(e, top);
    }
    if e == top && !Kept(log, k) {
      var j: nat :| k < j < |log| && Slot(log[j]) == Slot(log[k]) && Epoch(log[j].receive) != e;
      if j <= last {
        SameResidue(Epoch(log[j].receive), e);
      }
    }
  }

  // ----- the sliding minimum ----------------------------------------------------------------

  lemma {:induction false} LeastLive(buckets: seq<Bucket>, now: nat) returns (k: nat)
    ensures LiveMin(buckets, now).None? ==> forall i :: 0 <= i < |buckets| ==> !Live(buckets[i], now)
    ensures LiveMin(buckets, now).Some? ==>
              && k < |buckets| && Live(buckets[k], now) && buckets[k].minOffset == LiveMin(buckets, now).value
              && forall i ::
                   0 <= i < |buckets| && Live(buckets[i], now) ==> buckets[k].minOffset <= buckets[i].minOffset
  {
    k := 0;
    if buckets != [] {
      var last := |buckets| - 1;
      k := LeastLive(buckets[..last], now);
      if Live(buckets[last], now) && LiveMin(buckets, now) != LiveMin(buckets[..last], now) {
        k := last;
      }
    }
  }

  lemma {:induction false} LeastOfWindow(log: seq<Arrival>, now: nat) returns (k: nat)
    ensures WindowMin(log, now).None? ==> forall i :: 0 <= i < |log| ==> Epoch(log[i].receive) + BUCKETS <= now
    ensures WindowMin(log, now).Some? ==>
              && k < |log| && Epoch(log[k].receive) + BUCKETS > now && log[k].offset == WindowMin(log, now).value
              && forall i :: 0 <= i < |log| && Epoch(log[i].receive) + BUCKETS > now ==> log[k].offset <= log[i].offset
  {
    k := 0;
    if log != [] {
      var last := |log| - 1;
      k := LeastOfWindow(log[..last], now);
      if Epoch(log[last].receive) + BUCKETS > now && WindowMin(log, now) != WindowMin(log[..last], now) {
        k := last;
      }
    }
  }

  predicate InWindow(a: Arrival, now: nat, width: nat) { Epoch(a.receive) + width > now }

  /** An arrival of the window with this offset is still kept. */
  ghost predicate KeptAt(log: seq<Arrival>, now: nat, offset: int) {
    exists k: nat :: Kept(log, k) && InWindow(log[k], now, BUCKETS) && log[k].offset == offset
  }

  /** The least offset of the window is that of an arrival still kept. */
  ghost predicate MinimumKept(log: seq<Arrival>, now: nat) {
    WindowMin(log, now).Some? ==> KeptAt(log, now, WindowMin(log, now).value)
  }

  ghost predicate AnyKept(log: seq<Arrival>, now: nat) {
    exists k: nat :: Kept(log, k) && InWindow(log[k], now, BUCKETS)
  }

  /** Every arrival of the last `width` seconds is kept. */
  ghost predicate AllKept(log: seq<Arrival>, now: nat, width: nat) {
    forall k: nat :: k < |log| && InWindow(log[k], now, width) ==> Kept(log, k)
  }

  predicate Reaches(least: Option<int>, offset: int) { least.Some? && least.value <= offset }

  /** The minimum over the buckets still alive is the least offset kept in the window. */
  lemma LiveIsLeastKept(buckets: seq<Bucket>, log: seq<Arrival>, now: nat)
    requires Keeps(buckets, log)
    ensures LiveMin(buckets, now).Some? <==> AnyKept(log, now)
    ensures LiveMin(buckets, now).Some? ==> KeptAt(log, now, LiveMin(buckets, now).value)
    ensures forall offset :: KeptAt(log, now, offset) ==> Reaches(LiveMin(buckets, now), offset)
  {
    var b := LeastLive(buckets, now);
    forall offset | KeptAt(log, now, offset)
      ensures Reaches(LiveMin(buckets, now), offset)
    {
      var k: nat :| Kept(log, k) && InWindow(log[k], now, BUCKETS) && log[k].offset == offset;
      KeptHasBucket(buckets, log, k);
      assert Live(buckets[Slot(log[k])], now);
    }
    if k: nat :| Kept(log, k) && InWindow(log[k], now, BUCKETS) {
      assert KeptAt(log, now, log[k].offset);
    }
    if LiveMin(buckets, now).Some? {
      assert SumsKept(buckets[b], log, b);
      var k: nat :| KeptIn(log, k, b) && log[k].offset == buckets[b].minOffset;
      assert Kept(log, k) && InWindow(log[k], now, BUCKETS);
    }
  }

  lemma WindowBelow(log: seq<Arrival>, now: nat, offset: int)
    requires KeptAt(log, now, offset)
    ensures WindowMin(log, now).Some? && WindowMin(log, now).value <= offset
  {
    var least := LeastOfWindow(log, now);
  }

  /** Whatever the stamps: the minimum over the buckets is the minimum over every sample of the last 24
      seconds exactly when a sample that attains that minimum is still kept. It is never less. */
  lemma WindowMinimumExactly(buckets: seq<Bucket>, log: seq<Arrival>, now: nat)
    requires Keeps(buckets, log)
    ensures LiveMin(buckets, now) == WindowMin(log, now) <==> MinimumKept(log, now)
    ensures LiveMin(buckets, now).Some? ==>
              WindowMin(log, now).Some? && WindowMin(log, now).value <= LiveMin(buckets, now).value
  {
    LiveIsLeastKept(buckets, log, now);
    var live := LiveMin(buckets, now);
    if live.Some? {
      WindowBelow(log, now, live.value);
    }
    LeastIsShared(live, WindowMin(log, now), offset => KeptAt(log, now, offset));
  }

  lemma LeastIsShared(live: Option<int>, window: Option<int>, at: int -> bool)
    requires live.Some? ==> at(live.value) && Reaches(window, live.value)
    requires window.Some? && at(window.value) ==> Reaches(live, window.value)
    ensures live == window <==> (window.Some? ==> at(window.value))
  {
  }

  lemma AllKeptHoldsMinimum(log: seq<Arrival>, now: nat)
    requires AllKept(log, now, BUCKETS)
    ensures MinimumKept(log, now) && (WindowMin(log, now).Some? ==> AnyKept(log, now))
  {
    if WindowMin(log, now).Some? {
      var k := LeastOfWindow(log, now);
      assert InWindow(log[k], now, BUCKETS) && Kept(log, k);
    }
  }

  /** So while every sample of the window is kept one bucket a residue is enough. */
  lemma WindowMinimum(buckets: seq<Bucket>, log: seq<Arrival>, now: nat)
    requires Keeps(buckets, log) && AllKept(log, now, BUCKETS)
    ensures LiveMin(buckets, now) == WindowMin(log, now)
  {
    AllKeptHoldsMinimum(log, now);
    WindowMinimumExactly(buckets, log, now);
  }

  // ----- one more sample --------------------------------------------------------------------

  /** What Push computes for a sample: its jitter is its distance from the minimum just after the
      current bucket took its offset. */
  function ArrivalOf(buckets: seq<Bucket>, receive: nat, offset: int, interval: nat): Arrival
    requires |buckets| == BUCKETS
  {
    var slot := Epoch(receive) % BUCKETS;
    var floor := LiveMin(buckets[slot := Opened(buckets[slot], Epoch(receive), offset)], Epoch(receive));
    Arrival(receive, offset, if floor.Some? && offset > floor.value then offset - floor.value else 0, interval)
  }

  /** The recorded jitter is the distance above the true minimum of the last 24 seconds exactly when a
      sample that attains that minimum is still kept. */
  lemma {:induction false} JitterAboveFloor(buckets: seq<Bucket>, log: seq<Arrival>, receive: nat, offset: int,
                                            interval: nat)
    requires Keeps(buckets, log)
    ensures var after := log + [ArrivalOf(buckets, receive, offset, interval)];
            var floor := WindowMin(after, Epoch(receive));
            floor.Some? && (after[|log|].jitter == offset - floor.value <==> MinimumKept(after, Epoch(receive)))
  {
    var bare, a := Arrival(receive, offset, 0, 0), ArrivalOf(buckets, receive, offset, interval);
    var now := Epoch(receive);
    RecordKeeps(buckets, log, bare);
    RecordKeeps(buckets, log, a);
    SameMinimum(buckets, bare, a, now);
    LiveIsLeastKept(Recorded(buckets, a), log + [a], now);
    WindowMinimumExactly(Recorded(buckets, a), log + [a], now);
    KeptNext(log, a, |log|);
    assert (log + [a])[|log|] == a && InWindow(a, now, BUCKETS);
  }

  /** The minimum over the buckets does not depend on the maxima. */
  lemma SameMinimum(buckets: seq<Bucket>, a: Arrival, b: Arrival, now: nat)
    requires |buckets| == BUCKETS && a.receive == b.receive && a.offset == b.offset
    ensures LiveMin(Recorded(buckets, a), now) == LiveMin(Recorded(buckets, b), now)
    ensures LiveMin(Recorded(buckets, a), now)
            == LiveMin(buckets[Slot(a) := Opened(buckets[Slot(a)], Epoch(a.receive), a.offset)], now)
  {
    var taken := buckets[Slot(a) := Opened(buckets[Slot(a)], Epoch(a.receive), a.offset)];
    SameLive(Recorded(buckets, a), taken, now);
    SameLive(Recorded(buckets, b), taken, now);
  }

  lemma {:induction false} SameLive(a: seq<Bucket>, b: seq<Bucket>, now: nat)
    requires |a| == |b|
    requires forall r :: 0 <= r < |a| ==>
               a[r].valid == b[r].valid && a[r].epoch == b[r].epoch && a[r].minOffset == b[r].minOffset
    ensures LiveMin(a, now) == LiveMin(b, now)
  {
    if a != [] {
      SameLive(a[..|a| - 1], b[..|b| - 1], now);
    }
  }

  const STAMP_SLACK_US := 5_000_000
  const STAMP_SLACK := 5

  /** Stamps within five seconds of the times at which the bridge takes the samples, as it makes sure. */
  predicate StampedNear(log: seq<Arrival>, taken: seq<nat>) {
    && |taken| == |log|
    && (forall j, k :: 0 <= j <= k < |log| ==> taken[j] <= taken[k])
    && (forall k :: 0 <= k < |log| ==>
          log[k].receive <= taken[k] + STAMP_SLACK_US && taken[k] <= log[k].receive + STAMP_SLACK_US)
  }

  /** Such stamps can go back, but not by a turn of the buckets. */
  lemma NearStampsAreSteady(log: seq<Arrival>, taken: seq<nat>)
    requires StampedNear(log, taken)
    ensures NoTurnBack(log)
  {
    forall j, k | 0 <= j <= k < |log|
      ensures Epoch(log[j].receive) < Epoch(log[k].receive) + BUCKETS
    {
      assert log[j].receive <= taken[j] + STAMP_SLACK_US;
      assert taken[k] <= log[k].receive + STAMP_SLACK_US;
      EpochMonotone(log[j].receive, log[k].receive + 10 * SECOND_US);
    }
  }

  /** They can be ahead of the clock, by five seconds at most. */
  lemma NearStampsAreUpTo(log: seq<Arrival>, taken: seq<nat>, now: nat)
    requires StampedNear(log, taken) && forall k :: 0 <= k < |taken| ==> taken[k] <= now
    ensures UpTo(log, Epoch(now) + STAMP_SLACK)
  {
    forall k | 0 <= k < |log|
      ensures Epoch(log[k].receive) <= Epoch(now) + STAMP_SLACK
    {
      assert log[k].receive <= taken[k] + STAMP_SLACK_US;
      EpochMonotone(log[k].receive, now + STAMP_SLACK * SECOND_US);
    }
  }

  /** A sample then loses its bucket to one only when it is more than 18 seconds old. */
  lemma SlackIsKept(log: seq<Arrival>, now: nat, slack: nat)
    requires NoTurnBack(log) && UpTo(log, now + slack) && slack <= BUCKETS
    ensures AllKept(log, now, BUCKETS - slack)
  {
    forall k: nat | k < |log| && InWindow(log[k], now, BUCKETS - slack)
      ensures Kept(log, k)
    {
      forall j | k < j < |log| && Slot(log[j]) == Slot(log[k])
        ensures Epoch(log[j].receive) == Epoch(log[k].receive)
      {
        SameResidue(Epoch(log[j].receive), Epoch(log[k].receive));
      }
    }
  }

  /** Without a turn back some sample of a window that has any is kept. */
  lemma SomeIsKept(log: seq<Arrival>, now: nat)
    requires NoTurnBack(log) && WindowMin(log, now).Some?
    ensures AnyKept(log, now)
  {
    var k := LeastOfWindow(log, now);
    var last := LastOfSlot(log, k);
    if Epoch(log[last].receive) < Epoch(log[k].receive) {
      SameResidue(Epoch(log[last].receive), Epoch(log[k].receive));
    }
    assert Kept(log, last) && InWindow(log[last], now, BUCKETS);
  }

  /** The recorded jitter is the distance to the minimum of the window at its time. */
  predicate MeasuredAt(log: seq<Arrival>, k: nat)
    requires k < |log|
  {
    var floor := WindowMin(log[..k + 1], Epoch(log[k].receive));
    floor.Some? && log[k].jitter == log[k].offset - floor.value
  }

  /** Every recorded jitter is so exactly when that minimum was still kept. */
  ghost predicate Measured(log: seq<Arrival>) {
    forall k :: 0 <= k < |log| ==> (MeasuredAt(log, k) <==> MinimumKept(log[..k + 1], Epoch(log[k].receive)))
  }

  lemma ArrivalMeasured(buckets: seq<Bucket>, log: seq<Arrival>, receive: nat, offset: int, interval: nat)
    requires Keeps(buckets, log) && Measured(log)
    ensures Measured(log + [ArrivalOf(buckets, receive, offset, interval)])
  {
    var after := log + [ArrivalOf(buckets, receive, offset, interval)];
    JitterAboveFloor(buckets, log, receive, offset, interval);
    forall k | 0 <= k < |after|
      ensures MeasuredAt(after, k) <==> MinimumKept(after[..k + 1], Epoch(after[k].receive))
    {
      if k < |log| {
        assert MeasuredAt(log, k) <==> MinimumKept(log[..k + 1], Epoch(log[k].receive));
        assert after[..k + 1] == log[..k + 1];
      } else {
        assert after[..k + 1] == after;
      }
    }
  }

  /** The offset and cadence bookkeeping of Push, in place. */
  method Record(buckets: array<Bucket>, receive: nat, offset: int, interval: nat)
    requires buckets.Length == BUCKETS
    modifies buckets
    ensures buckets[..] == Recorded(old(buckets[..]), ArrivalOf(old(buckets[..]), receive, offset, interval))
  {
    var epoch := Epoch(receive);
    var slot := epoch % BUCKETS;
    if !buckets[slot].valid || buckets[slot].epoch != epoch {
      buckets[slot] := Bucket(epoch, offset, 0, 0, true);
    } else if offset < buckets[slot].minOffset {
      buckets[slot] := buckets[slot].(minOffset := offset);
    }
    assert buckets[..] == old(buckets[..])[slot := Opened(old(buckets[slot]), epoch, offset)];
    var floor := LiveMinimum(buckets, epoch);
    if floor.Some? && offset > floor.value {
      buckets[slot] := buckets[slot].(maxJitter := Max(buckets[slot].maxJitter, offset - floor.value));
    }
    buckets[slot] := buckets[slot].(maxInterval := Max(buckets[slot].maxInterval, interval));
  }

  method LiveMinimum(buckets: array<Bucket>, now: nat) returns (minimum: Option<int>)
    ensures minimum == LiveMin(buckets[..], now)
  {
    minimum := None;
    for i := 0 to buckets.Length
      invariant minimum == LiveMin(buckets[..i], now)
    {
      assert buckets[..i + 1][..i] == buckets[..i];
      if buckets[i].valid && buckets[i].epoch + BUCKETS > now {
        if minimum.None? || buckets[i].minOffset < minimum.value {
          minimum := Some(buckets[i].minOffset);
        }
      }
    }
    assert buckets[..buckets.Length] == buckets[..];
  }

  // ----- the typical maxima -----------------------------------------------------------------

  predicate Recent(b: Bucket, now: nat) { b.valid && b.epoch + RECENT_SECONDS > now }

  /** The buckets of the last five seconds, in array order. */
  function Recents(buckets: seq<Bucket>, now: nat): seq<Bucket> {
    if buckets == [] then []
    else
      var before, b := Recents(buckets[..|buckets| - 1], now), buckets[|buckets| - 1];
      if Recent(b, now) then before + [b] else before
  }

  function Intervals(list: seq<Bucket>): (r: seq<nat>)
    ensures |r| == |list|
  {
    seq(|list|, i requires 0 <= i < |list| => list[i].maxInterval)
  }

  function Jitters(list: seq<Bucket>): (r: seq<nat>)
    ensures |r| == |list|
  {
    seq(|list|, i requires 0 <= i < |list| => list[i].maxJitter)
  }

  predicate Ordered(s: seq<nat>) { forall i, j :: 0 <= i < j < |s| ==> s[i] <= s[j] }

  function Inserted(s: seq<nat>, x: nat): (r: seq<nat>)
    requires Ordered(s)
    ensures Ordered(r) && multiset(r) == multiset(s) + multiset{x} && |r| == |s| + 1
    ensures r[|s|] == if s == [] || s[|s| - 1] <= x then x else s[|s| - 1]
  {
    if s == [] || s[|s| - 1] <= x then s + [x]
    else
      var before, last := s[..|s| - 1], s[|s| - 1];
      assert s == before + [last];
      Inserted(before, x) + [last]
  }

  function Sorted(s: seq<nat>): (r: seq<nat>)
    ensures Ordered(r) && multiset(r) == multiset(s) && |r| == |s|
  {
    if s == [] then []
    else
      assert s == s[..|s| - 1] + [s[|s| - 1]];
      var r := Inserted(Sorted(s[..|s| - 1]), s[|s| - 1]);
      assert |multiset(r)| == |r| && |multiset(s)| == |s|;
      r
  }

  function Median(s: seq<nat>): nat { if s == [] then 0 else Sorted(s)[|s| / 2] }

  lemma MedianIsOne(s: seq<nat>)
    requires s != []
    ensures Median(s) in s
  {
    var t := Sorted(s);
    assert t[|s| / 2] in multiset(t);
  }

  /** The first five, as the source's fixed array of recent maxima takes them. */
  function Capped<T>(list: seq<T>): seq<T> { if |list| > RECENT_SECONDS then list[..RECENT_SECONDS] else list }

  /** The loop of recent_maxima and its two sorts. */
  method RecentMaxima(buckets: array<Bucket>, now: nat) returns (interval: nat, jitter: nat)
    ensures interval == Median(Intervals(Capped(Recents(buckets[..], now))))
    ensures jitter == Median(Jitters(Capped(Recents(buckets[..], now))))
  {
    interval, jitter := 0, 0;
    var intervals, jitters: seq<nat> := [], [];
    var i := 0;
    while i < buckets.Length
      invariant 0 <= i <= buckets.Length && |Recents(buckets[..i], now)| <= RECENT_SECONDS
      invariant intervals == Intervals(Recents(buckets[..i], now)) && jitters == Jitters(Recents(buckets[..i], now))
    {
      assert buckets[..i + 1][..i] == buckets[..i];
      if buckets[i].valid && buckets[i].epoch + RECENT_SECONDS > now {
        if |intervals| == RECENT_SECONDS {
          RecentsGrow(buckets[..], i, now);
          break;
        }
        intervals := intervals + [buckets[i].maxInterval];
        jitters := jitters + [buckets[i].maxJitter];
      }
      i := i + 1;
    }
    assert buckets[..buckets.Length] == buckets[..];
    if |intervals| == 0 {
      return;
    }
    interval := Sorted(intervals)[|intervals| / 2];
    jitter := Sorted(jitters)[|jitters| / 2];
  }

  /** A full list of five stays as it is when the loop gives up at the next recent bucket. */
  lemma {:induction false} RecentsGrow(buckets: seq<Bucket>, i: nat, now: nat)
    requires i < |buckets| && |Recents(buckets[..i], now)| == RECENT_SECONDS && Recent(buckets[i], now)
    ensures Capped(Recents(buckets, now)) == Recents(buckets[..i], now)
  {
    var last := |buckets| - 1;
    if i == last {
    } else {
      assert buckets[..last][..i] == buckets[..i];
      RecentsGrow(buckets[..last], i, now);
      assert |Recents(buckets[..last], now)| >= RECENT_SECONDS;
    }
  }

  // ----- what the medians are ---------------------------------------------------------------

  function Summary(log: seq<Arrival>, epoch: nat): Option<Bucket> {
    var m := SecondMin(log, epoch);
    if m.None? then None else Some(Bucket(epoch, m.value, SecondJitter(log, epoch), SecondInterval(log, epoch), true))
  }

  /** What the samples of the last `n` seconds sum up to, one entry for each second that has any. */
  function LastSeconds(log: seq<Arrival>, now: nat, n: nat): seq<Bucket> {
    if n == 0 then []
    else
      var rest := LastSeconds(log, now, n - 1);
      if n > now + 1 || Summary(log, now + 1 - n).None? then rest else [Summary(log, now + 1 - n).value] + rest
  }

  /** The buckets recent at `now` are exactly the summaries of the `n` seconds up to `last`. */
  ghost predicate Covers(buckets: seq<Bucket>, log: seq<Arrival>, now: nat, last: nat, n: nat) {
    && |buckets| == BUCKETS
    && (forall slot: nat :: slot < BUCKETS ==> Summarizes(buckets[slot], log, now, last, n, slot))
    && (forall epoch: nat :: HasBucket(buckets, log, now, last, n, epoch))
  }

  predicate Summarizes(b: Bucket, log: seq<Arrival>, now: nat, last: nat, n: nat, slot: nat) {
    Recent(b, now) ==>
      last < b.epoch + n && b.epoch <= last && b.epoch % BUCKETS == slot && Summary(log, b.epoch) == Some(b)
  }

  predicate HasBucket(buckets: seq<Bucket>, log: seq<Arrival>, now: nat, last: nat, n: nat, epoch: nat)
    requires |buckets| == BUCKETS
  {
    last < epoch + n && epoch <= last && Summary(log, epoch).Some? ==>
      Recent(buckets[epoch % BUCKETS], now) && buckets[epoch % BUCKETS].epoch == epoch
  }

  lemma {:induction false} Peel(buckets: seq<Bucket>, now: nat, r: nat)
    requires r < |buckets| && Recent(buckets[r], now)
    ensures multiset(Recents(buckets, now)) == multiset(Recents(buckets[r := BLANK], now)) + multiset{buckets[r]}
  {
    var last := |buckets| - 1;
    var blanked := buckets[r := BLANK];
    if r == last {
      assert blanked[..last] == buckets[..last];
    } else {
      assert blanked[..last] == buckets[..last][r := BLANK];
      Peel(buckets[..last], now, r);
    }
  }

  lemma {:induction false} NoneRecent(buckets: seq<Bucket>, now: nat)
    requires forall r :: 0 <= r < |buckets| ==> !Recent(buckets[r], now)
    ensures Recents(buckets, now) == []
  {
    if buckets != [] {
      NoneRecent(buckets[..|buckets| - 1], now);
    }
  }

  /** Taking out the oldest second's bucket leaves the buckets of the others. */
  lemma CoversPeel(buckets: seq<Bucket>, log: seq<Arrival>, now: nat, last: nat, n: nat, epoch: nat)
    requires 0 < n && Covers(buckets, log, now, last, n) && epoch == last + 1 - n && Summary(log, epoch).Some?
    ensures Covers(buckets[epoch % BUCKETS := BLANK], log, now, last, n - 1)
  {
    var rest := buckets[epoch % BUCKETS := BLANK];
    forall slot: nat | slot < BUCKETS
      ensures Summarizes(rest[slot], log, now, last, n - 1, slot)
    {
      assert Summarizes(buckets[slot], log, now, last, n, slot);
      assert HasBucket(buckets, log, now, last, n, epoch);
    }
    var fewer: nat := n - 1;
    forall other: nat
      ensures HasBucket(rest, log, now, last, fewer, other)
    {
      assert HasBucket(buckets, log, now, last, n, other) && HasBucket(buckets, log, now, last, n, epoch);
    }
  }

  lemma CoversNothing(buckets: seq<Bucket>, log: seq<Arrival>, now: nat, last: nat)
    requires Covers(buckets, log, now, last, 0)
    ensures Recents(buckets, now) == [] && LastSeconds(log, last, 0) == []
  {
    forall slot | 0 <= slot < BUCKETS
      ensures !Recent(buckets[slot], now)
    {
      assert Summarizes(buckets[slot], log, now, last, 0, slot);
    }
    NoneRecent(buckets, now);
  }

  lemma CoversSkip(buckets: seq<Bucket>, log: seq<Arrival>, now: nat, last: nat, n: nat)
    requires 0 < n && Covers(buckets, log, now, last, n) && (n > last + 1 || Summary(log, last + 1 - n).None?)
    ensures Covers(buckets, log, now, last, n - 1) && LastSeconds(log, last, n) == LastSeconds(log, last, n - 1)
  {
    forall slot: nat | slot < BUCKETS
      ensures Summarizes(buckets[slot], log, now, last, n - 1, slot)
    {
      assert Summarizes(buckets[slot], log, now, last, n, slot);
    }
    var fewer: nat := n - 1;
    forall epoch: nat
      ensures HasBucket(buckets, log, now, last, fewer, epoch)
    {
      assert HasBucket(buckets, log, now, last, n, epoch);
    }
  }

  lemma OldestSecond(buckets: seq<Bucket>, log: seq<Arrival>, now: nat, last: nat, n: nat, slot: nat)
    requires 0 < n <= last + 1 && Covers(buckets, log, now, last, n) && Summary(log, last + 1 - n).Some?
    requires slot == (last + 1 - n) % BUCKETS
    ensures Recent(buckets[slot], now) && LastSeconds(log, last, n) == [buckets[slot]] + LastSeconds(log, last, n - 1)
  {
    var epoch: nat := last + 1 - n;
    assert HasBucket(buckets, log, now, last, n, epoch);
    assert Summarizes(buckets[slot], log, now, last, n, slot);
  }

  lemma PeelOldest(buckets: seq<Bucket>, log: seq<Arrival>, now: nat, last: nat, n: nat)
    returns (rest: seq<Bucket>, oldest: Bucket)
    requires 0 < n <= last + 1 && Covers(buckets, log, now, last, n) && Summary(log, last + 1 - n).Some?
    ensures Covers(rest, log, now, last, n - 1)
    ensures multiset(Recents(buckets, now)) == multiset(Recents(rest, now)) + multiset{oldest}
    ensures multiset(LastSeconds(log, last, n)) == multiset(LastSeconds(log, last, n - 1)) + multiset{oldest}
  {
    var slot := (last + 1 - n) % BUCKETS;
    rest, oldest := buckets[slot := BLANK], buckets[slot];
    OldestSecond(buckets, log, now, last, n, slot);
    Peel(buckets, now, slot);
    CoversPeel(buckets, log, now, last, n, last + 1 - n);
  }

  lemma {:induction false} RecentsAreLastSeconds(buckets: seq<Bucket>, log: seq<Arrival>, now: nat, last: nat, n: nat)
    requires Covers(buckets, log, now, last, n)
    ensures multiset(Recents(buckets, now)) == multiset(LastSeconds(log, last, n))
    decreases n
  {
    if n == 0 {
      CoversNothing(buckets, log, now, last);
    } else if n > last + 1 || Summary(log, last + 1 - n).None? {
      CoversSkip(buckets, log, now, last, n);
      RecentsAreLastSeconds(buckets, log, now, last, n - 1);
    } else {
      var rest, oldest := PeelOldest(buckets, log, now, last, n);
      RecentsAreLastSeconds(rest, log, now, last, n - 1);
    }
  }

  lemma {:induction false} LastSecondsAreFew(log: seq<Arrival>, now: nat, n: nat)
    ensures |LastSeconds(log, now, n)| <= n
  {
    if n > 0 {
      LastSecondsAreFew(log, now, n - 1);
    }
  }

  lemma KeepsCovers(buckets: seq<Bucket>, log: seq<Arrival>, now: nat, last: nat)
    requires Keeps(buckets, log) && AllKept(log, now, RECENT_SECONDS) && UpTo(log, last) && now <= last
    ensures Covers(buckets, log, now, last, last - now + RECENT_SECONDS)
  {
    var n := last - now + RECENT_SECONDS;
    forall slot: nat | slot < BUCKETS
      ensures Summarizes(buckets[slot], log, now, last, n, slot)
    {
      var b := buckets[slot];
      assert SumsKept(b, log, slot);
      if Recent(b, now) {
        var i: nat :| KeptIn(log, i, slot) && log[i].offset == b.minOffset;
        WholeSecond(b, log, slot);
      }
    }
    forall epoch: nat
      ensures HasBucket(buckets, log, now, last, n, epoch)
    {
      if last < epoch + n && Summary(log, epoch).Some? {
        var k := SecondMinAttained(log, epoch);
        assert InWindow(log[k], now, RECENT_SECONDS);
        KeptHasBucket(buckets, log, k);
      }
    }
  }

  // ----- upper medians ----------------------------------------------------------------------

  /** `m` splits the values: half of them, rounded down, sit in `low` below it, the others above. */
  ghost predicate Splits(m: nat, low: multiset<nat>, high: multiset<nat>, values: multiset<nat>) {
    && values == low + multiset{m} + high && |low| == |values| / 2
    && (forall x :: x in low ==> x <= m) && (forall x :: x in high ==> m <= x)
  }

  /** The upper median of the values, zero when there are none. */
  ghost predicate IsUpperMedian(m: nat, values: multiset<nat>) {
    if values == multiset{} then m == 0 else exists low, high :: Splits(m, low, high, values)
  }

  lemma UpperMedianIsUnique(m: nat, k: nat, values: multiset<nat>)
    requires IsUpperMedian(m, values) && IsUpperMedian(k, values)
    ensures m == k
  {
    if values != multiset{} {
      var low, high :| Splits(m, low, high, values);
      var low', high' :| Splits(k, low', high', values);
      SmallerHasFewerBelow(m, low, high, k, low', high');
      SmallerHasFewerBelow(k, low', high', m, low, high);
    }
  }

  lemma SmallerHasFewerBelow(m: nat, low: multiset<nat>, high: multiset<nat>, k: nat, low': multiset<nat>,
                             high': multiset<nat>)
    requires low + multiset{m} + high == low' + multiset{k} + high'
    requires (forall x :: x in low ==> x <= m) && (forall x :: x in high' ==> k <= x)
    ensures m < k ==> |low| < |low'|
  {
    if m < k {
      var upTo := low + multiset{m};
      forall x | x in upTo
        ensures upTo[x] <= low'[x]
      {
        assert x <= m && x !in high' && x != k;
        assert (low + multiset{m} + high)[x] == (low' + multiset{k} + high')[x];
      }
      assert low' == upTo + (low' - upTo);
    }
  }

  lemma OrderedAround(t: seq<nat>, k: nat) returns (low: multiset<nat>, high: multiset<nat>)
    requires Ordered(t) && k < |t|
    ensures multiset(t) == low + multiset{t[k]} + high && |low| == k
    ensures (forall x :: x in low ==> x <= t[k]) && (forall x :: x in high ==> t[k] <= x)
  {
    assert t == t[..k] + [t[k]] + t[k + 1..];
    var before, after := t[..k], t[k + 1..];
    low, high := multiset(before), multiset(after);
    assert (forall x :: x in low ==> x in before) && (forall x :: x in high ==> x in after);
  }

  lemma MedianSplits(s: seq<nat>)
    ensures IsUpperMedian(Median(s), multiset(s))
  {
    if s != [] {
      var t := Sorted(s);
      var low, high := OrderedAround(t, |s| / 2);
      assert |multiset(s)| == |s|;
      assert Splits(Median(s), low, high, multiset(s));
    }
  }

  lemma WithoutIs<T>(s: seq<T>, k: nat)
    requires k < |s|
    ensures multiset(s) == multiset(Without(s, k)) + multiset{s[k]}
    ensures multiset(Without(s, k)) == multiset(s) - multiset{s[k]}
  {
    assert s == s[..k] + [s[k]] + s[k + 1..];
  }

  /** The maxima of a reordered list are reordered. */
  lemma {:induction false} SameColumns(a: seq<Bucket>, b: seq<Bucket>)
    requires multiset(a) == multiset(b)
    ensures multiset(Intervals(a)) == multiset(Intervals(b)) && multiset(Jitters(a)) == multiset(Jitters(b))
    decreases |a|
  {
    assert |a| == |multiset(a)| && |b| == |multiset(b)|;
    if a != [] {
      assert a[0] in multiset(b);
      var k :| 0 <= k < |b| && b[k] == a[0];
      WithoutIs(a, 0);
      WithoutIs(b, k);
      SameColumns(Without(a, 0), Without(b, k));
      ColumnsWithout(a, 0);
      ColumnsWithout(b, k);
    }
  }

  lemma ColumnsWithout(s: seq<Bucket>, k: nat)
    requires k < |s|
    ensures multiset(Intervals(s)) == multiset(Intervals(Without(s, k))) + multiset{s[k].maxInterval}
    ensures multiset(Jitters(s)) == multiset(Jitters(Without(s, k))) + multiset{s[k].maxJitter}
  {
    assert Intervals(Without(s, k)) == Without(Intervals(s), k) && Jitters(Without(s, k)) == Without(Jitters(s), k);
    WithoutIs(Intervals(s), k);
    WithoutIs(Jitters(s), k);
  }

  /** While every sample of the last five seconds is kept, the typical interval and jitter are the upper
      medians of the per-second maxima of the seconds from then on that had samples, stamps ahead of the
      clock included; the cap of five cuts one off exactly when there are more. */
  lemma TypicalMaxima(buckets: seq<Bucket>, log: seq<Arrival>, now: nat, last: nat)
    requires Keeps(buckets, log) && AllKept(log, now, RECENT_SECONDS) && UpTo(log, last) && now <= last
    ensures var recents := Recents(buckets, now);
            var seconds := LastSeconds(log, last, last - now + RECENT_SECONDS);
            && (Capped(recents) == recents <==> |seconds| <= RECENT_SECONDS)
            && IsUpperMedian(Median(Intervals(recents)), multiset(Intervals(seconds)))
            && IsUpperMedian(Median(Jitters(recents)), multiset(Jitters(seconds)))
  {
    var n := last - now + RECENT_SECONDS;
    var recents, seconds := Recents(buckets, now), LastSeconds(log, last, n);
    KeepsCovers(buckets, log, now, last);
    RecentsAreLastSeconds(buckets, log, now, last, n);
    assert |multiset(recents)| == |recents| && |multiset(seconds)| == |seconds|;
    SameColumns(recents, seconds);
    MedianSplits(Intervals(recents));
    MedianSplits(Jitters(recents));
  }
}
