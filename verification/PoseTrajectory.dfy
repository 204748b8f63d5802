/** bridge/remote_pose_timeline.cpp: the buffered samples of one remote actor and the curve through
    them. Vectors and quaternions are over the reals; wheel speeds are not part of this model. */
module PoseTrajectory {
  import opened MatrixQuaternion
  import Serial

  const CAPACITY := 16

  datatype Vec3 = Vec3(x: real, y: real, z: real)

  const ORIGIN := Vec3(0.0, 0.0, 0.0)

  /** One network sample. `finite` is the verdict of the finiteness and wheel-speed checks. */
  datatype PoseSample = PoseSample(send: nat, receive: nat, sequence: Serial.u32, room: int, teleport: bool,
                                   finite: bool, position: Vec3, orientation: Quaternion, linear: Vec3, angular: Vec3)

  /** The functions of include/ht2mp/protocol/pose_math.hpp that need roots or trigonometry. */
  datatype PoseMath = PoseMath(sqrt: real -> real, exp: real -> real,
                               slerp: (Quaternion, Quaternion, real) -> Quaternion,
                                 angle: (Quaternion, Quaternion) -> real, turn: (Quaternion, Vec3, real) -> Quaternion)

  datatype Playback = Nothing | Interpolated | Extrapolated | Held

  datatype Raw = Raw(state: Playback, position: Vec3, orientation: Quaternion, sequence: Serial.u32)

  // ----- what Push lets in ------------------------------------------------------------------

  predicate Accepts(samples: seq<PoseSample>, s: PoseSample) {
    && s.finite && s.receive != 0
    && (samples != [] ==>
          && Serial.Newer(s.sequence, samples[|samples| - 1].sequence)
          && s.send > samples[|samples| - 1].send)
  }

  /** A teleport or a change of room starts a new trajectory. */
  predicate Cuts(samples: seq<PoseSample>, s: PoseSample) {
    s.teleport || (samples != [] && s.room != samples[|samples| - 1].room)
  }

  /** The buffered samples after an accepted one. */
  function Buffered(samples: seq<PoseSample>, s: PoseSample): seq<PoseSample> {
    if Cuts(samples, s) then [s]
    else if |samples| == CAPACITY then samples[1..] + [s]
    else samples + [s]
  }

  function Flagged(samples: seq<PoseSample>, consumed: seq<bool>, s: PoseSample): (r: seq<bool>)
    requires |consumed| == |samples|
    ensures |r| == |Buffered(samples, s)|
  {
    if Cuts(samples, s) then [false]
    else if |samples| == CAPACITY then consumed[1..] + [false]
    else consumed + [false]
  }

  /** What holds of any two buffered samples: send times increase, in one room, with no break in between. */
  predicate Precedes(older: PoseSample, newer: PoseSample) {
    older.send < newer.send && older.room == newer.room && !newer.teleport
  }

  predicate Succeeds(samples: seq<PoseSample>, i: nat)
    requires i + 1 < |samples|
  {
    Serial.Newer(samples[i + 1].sequence, samples[i].sequence)
  }

  ghost predicate Disciplined(samples: seq<PoseSample>) {
    && |samples| <= CAPACITY
    && (forall i, j {:trigger Precedes(samples[i], samples[j])} ::
          0 <= i < j < |samples| ==> Precedes(samples[i], samples[j]))
    && (forall i: nat {:trigger Succeeds(samples, i)} :: i + 1 < |samples| ==> Succeeds(samples, i))
  }

  lemma AppendKeeps(samples: seq<PoseSample>, s: PoseSample)
    requires Disciplined(samples) && |samples| < CAPACITY && Accepts(samples, s) && !Cuts(samples, s)
    ensures Disciplined(samples + [s])
  {
    var after, last := samples + [s], |samples| - 1;
    forall i, j | 0 <= i < j < |after|
      ensures Precedes(after[i], after[j])
    {
      if j <= last {
        assert Precedes(samples[i], samples[j]);
      } else if i < last {
        assert Precedes(samples[i], samples[last]);
      }
    }
    forall i: nat | i + 1 < |after|
      ensures Succeeds(after, i)
    {
      assert i < last ==> Succeeds(samples, i);
    }
  }

  lemma DropKeeps(samples: seq<PoseSample>)
    requires Disciplined(samples) && samples != []
    ensures Disciplined(samples[1..])
  {
    forall i, j | 0 <= i < j < |samples[1..]|
      ensures Precedes(samples[1..][i], samples[1..][j])
    {
      assert Precedes(samples[i + 1], samples[j + 1]);
    }
    forall i: nat | i + 1 < |samples[1..]|
      ensures Succeeds(samples[1..], i)
    {
      assert Succeeds(samples, i + 1);
    }
  }

  lemma BufferedKeeps(samples: seq<PoseSample>, s: PoseSample)
    requires Disciplined(samples) && Accepts(samples, s)
    ensures Disciplined(Buffered(samples, s)) && Buffered(samples, s) != []
    ensures var after := Buffered(samples, s); after[|after| - 1] == s
  {
    if !Cuts(samples, s) {
      if |samples| == CAPACITY {
        DropKeeps(samples);
        AppendKeeps(samples[1..], s);
      } else {
        AppendKeeps(samples, s);
      }
    }
  }

  /** The accepted samples since the last break of the trajectory. */
  function Continued(segment: seq<PoseSample>, s: PoseSample): seq<PoseSample> {
    if Cuts(segment, s) then [s] else segment + [s]
  }

  function Newest(s: seq<PoseSample>): seq<PoseSample> { if |s| > CAPACITY then s[|s| - CAPACITY..] else s }

  /** The ring holds the newest sixteen accepted samples of the unbroken trajectory. */
  lemma BufferIsNewestOfSegment(segment: seq<PoseSample>, s: PoseSample)
    ensures Buffered(Newest(segment), s) == Newest(Continued(segment, s))
    ensures Accepts(Newest(segment), s) <==> Accepts(segment, s)
  {
    var newest := Newest(segment);
    assert newest != [] ==> newest[|newest| - 1] == segment[|segment| - 1];
  }

  // ----- the curve --------------------------------------------------------------------------

  function Along(s: PoseSample, seconds: real): Vec3 {
    Vec3(s.position.x + s.linear.x * seconds, s.position.y + s.linear.y * seconds, s.position.z + s.linear.z * seconds)
  }

  function Clamp(x: real, low: real, high: real): real {
    if x < low then low else if x > high then high else x
  }

  /** One axis of pose_math's cubic Hermite curve. */
  function HermiteAxis(p: real, v: real, q: real, u: real, a: real, duration: real): real {
    var a2 := a * a;
    var a3 := a2 * a;
    (2.0 * a3 - 3.0 * a2 + 1.0) * p + (a3 - 2.0 * a2 + a) * duration * v + (-2.0 * a3 + 3.0 * a2) * q
      + (a3 - a2) * duration * u
  }

  function Hermite(first: PoseSample, second: PoseSample, a: real, duration: real): Vec3 {
    Vec3(HermiteAxis(first.position.x, first.linear.x, second.position.x, second.linear.x, a, duration),
         HermiteAxis(first.position.y, first.linear.y, second.position.y, second.linear.y, a, duration),
         HermiteAxis(first.position.z, first.linear.z, second.position.z, second.linear.z, a, duration))
  }

  /** The share of the way from the first to the second sample. */
  function Alpha(first: PoseSample, second: PoseSample, target: int): real {
    if second.send == first.send then 1.0
    else Clamp((target - first.send) as real / (second.send - first.send) as real, 0.0, 1.0)
  }

  function Between(first: PoseSample, second: PoseSample, target: int, math: PoseMath): Raw {
    var alpha := Alpha(first, second, target);
    Raw(Interpolated,
        if first.position == second.position && first.linear == ORIGIN && second.linear == ORIGIN then first.position
        else Hermite(first, second, alpha, (second.send - first.send) as real / 1000000.0),
        if first.orientation == second.orientation then first.orientation
        else math.slerp(first.orientation, second.orientation, alpha),
        first.sequence)
  }

  function Extrapolate(s: PoseSample, beyond: nat, state: Playback, math: PoseMath): Raw {
    var seconds := beyond as real / 1000000.0;
    Raw(state, Along(s, seconds), math.turn(s.orientation, s.angular, seconds), s.sequence)
  }

  /** The only pair of neighbours around a target strictly inside the buffer. */
  predicate Brackets(samples: seq<PoseSample>, target: int, i: nat) {
    0 < i < |samples| && samples[i - 1].send < target <= samples[i].send
  }

  lemma BracketIsUnique(samples: seq<PoseSample>, target: int, i: nat, j: nat)
    requires Disciplined(samples) && Brackets(samples, target, i) && 0 < j < |samples|
    ensures Brackets(samples, target, j) <==> i == j
    ensures !samples[i].teleport && samples[i].room == samples[i - 1].room
  {
    assert Precedes(samples[i - 1], samples[i]);
    if i < j - 1 {
      assert Precedes(samples[i], samples[j - 1]);
    }
    if j < i - 1 {
      assert Precedes(samples[j], samples[i - 1]);
    }
  }

  /** First sample at or after the target. */
  function BracketFrom(samples: seq<PoseSample>, target: int, i: nat): (r: nat)
    requires 0 < i < |samples| && target <= samples[|samples| - 1].send && samples[i - 1].send < target
    ensures Brackets(samples, target, r)
    decreases |samples| - i
  {
    if target <= samples[i].send then i else BracketFrom(samples, target, i + 1)
  }

  /** The curve at a target, or its frozen end. */
  function Curve(samples: seq<PoseSample>, target: int, reach: nat, math: PoseMath): Raw
    requires samples != []
  {
    var oldest, newest := samples[0], samples[|samples| - 1];
    if target <= oldest.send then Raw(Interpolated, oldest.position, oldest.orientation, oldest.sequence)
    else if target >= newest.send then
      if target - newest.send <= reach then Extrapolate(newest, target - newest.send, Extrapolated, math)
      else Extrapolate(newest, reach, Held, math)
    else
      var i := BracketFrom(samples, target, 1);
      Between(samples[i - 1], samples[i], target, math)
  }

  lemma HermiteEnds(p: real, v: real, q: real, u: real, duration: real)
    ensures HermiteAxis(p, v, q, u, 1.0, duration) == q && HermiteAxis(p, v, q, u, 0.0, duration) == p
  {
  }

  lemma WholeShare(n: real)
    requires n > 0.0
    ensures n / n == 1.0
  {
  }

  /** The curve goes through every buffered sample. */
  lemma CurveMeetsSamples(samples: seq<PoseSample>, k: nat, reach: nat, math: PoseMath)
    requires Disciplined(samples) && k < |samples|
    ensures Curve(samples, samples[k].send, reach, math).position == samples[k].position
    ensures Curve(samples, samples[k].send, reach, math).state != Held
  {
    var target := samples[k].send;
    var last := |samples| - 1;
    assert 0 < k ==> Precedes(samples[0], samples[k]);
    assert k < last ==> Precedes(samples[k], samples[last]);
    if 0 < k < last {
      assert Precedes(samples[k - 1], samples[k]);
      BracketIsUnique(samples, target, BracketFrom(samples, target, 1), k);
      var first, second := samples[k - 1], samples[k];
      WholeShare((second.send - first.send) as real);
      assert Alpha(first, second, target) == 1.0;
      var duration := (second.send - first.send) as real / 1000000.0;
      HermiteEnds(first.position.x, first.linear.x, second.position.x, second.linear.x, duration);
      HermiteEnds(first.position.y, first.linear.y, second.position.y, second.linear.y, duration);
      HermiteEnds(first.position.z, first.linear.z, second.position.z, second.linear.z, duration);
    }
  }

  /** Playback freezes exactly beyond the extrapolation reach. */
  lemma HeldBeyondReach(samples: seq<PoseSample>, target: int, reach: nat, math: PoseMath)
    requires Disciplined(samples) && samples != []
    ensures Curve(samples, target, reach, math).state == Held <==> target > samples[|samples| - 1].send + reach
    ensures Curve(samples, target, reach, math).state != Nothing
  {
    var last := |samples| - 1;
    assert 0 < last ==> Precedes(samples[0], samples[last]);
  }

  /** The newest sample at or before a target. */
  predicate NewestAt(samples: seq<PoseSample>, target: int, k: nat) {
    k < |samples| && samples[k].send <= target && (k + 1 < |samples| ==> target < samples[k + 1].send)
  }

  /** The reported sequence is that of the newest sample at or before the target exactly when the
      target does not fall on a sample strictly inside the buffer; there it is one sample behind. */
  lemma SequenceIsNewestAt(samples: seq<PoseSample>, target: int, k: nat, reach: nat, math: PoseMath)
    requires Disciplined(samples) && NewestAt(samples, target, k)
    ensures (Curve(samples, target, reach, math).sequence == samples[k].sequence)
            <==> !(target == samples[k].send && 0 < k < |samples| - 1)
    ensures target == samples[k].send && 0 < k < |samples| - 1 ==>
              Curve(samples, target, reach, math).sequence == samples[k - 1].sequence
  {
    var last := |samples| - 1;
    assert k + 1 < last ==> Precedes(samples[k + 1], samples[last]);
    assert 0 < k ==>
             Precedes(samples[0], samples[k]) && Precedes(samples[k - 1], samples[k]) && Succeeds(samples, k - 1);
    if samples[0].send < target < samples[last].send {
      var i := BracketFrom(samples, target, 1);
      if target == samples[k].send {
        BracketIsUnique(samples, target, i, k);
      } else {
        BracketIsUnique(samples, target, i, k + 1);
      }
    }
  }

  // ----- the latency histogram --------------------------------------------------------------

  const BINS := 16
  const BIN_US := 25_000

  function Bin(receive: nat, now: nat): (bin: nat)
    ensures bin < BINS
  {
    var latency := if now > receive then now - receive else 0;
    if latency / BIN_US < BINS then latency / BIN_US else BINS - 1
  }

  function Consumed(samples: seq<PoseSample>, consumed: seq<bool>, target: int): (r: seq<bool>)
    requires |consumed| == |samples|
    ensures |r| == |samples|
  {
    seq(|samples|, i requires 0 <= i < |samples| => consumed[i] || samples[i].send <= target)
  }

  /** One entry for every sample the playback passes for the first time. */
  function Histogram(samples: seq<PoseSample>, consumed: seq<bool>, now: nat, target: int,
                     before: seq<nat>): (r: seq<nat>)
    requires |consumed| == |samples| && |before| == BINS
    ensures |r| == BINS
  {
    if samples == [] then before
    else
      var last := |samples| - 1;
      var r := Histogram(samples[..last], consumed[..last], now, target, before);
      if samples[last].send <= target && !consumed[last]
      then r[Bin(samples[last].receive, now) := r[Bin(samples[last].receive, now)] + 1]
      else r
  }

  /** Nothing after a sample beyond the target is passed: the loop may stop there. */
  lemma {:induction false} HistogramStops(samples: seq<PoseSample>, consumed: seq<bool>, now: nat, target: int,
                                          before: seq<nat>, i: nat)
    requires |consumed| == |samples| && |before| == BINS && i <= |samples|
    requires forall k :: i <= k < |samples| ==> samples[k].send > target
    ensures Histogram(samples, consumed, now, target, before)
            == Histogram(samples[..i], consumed[..i], now, target, before)
  {
    if i == |samples| {
      assert samples[..i] == samples && consumed[..i] == consumed;
    } else {
      var last := |samples| - 1;
      HistogramStops(samples[..last], consumed[..last], now, target, before, i);
      assert samples[..last][..i] == samples[..i] && consumed[..last][..i] == consumed[..i];
    }
  }

  /** Flags and bins when the loop has passed the first `i` samples. */
  predicate PassedTo(samples: seq<PoseSample>, consumed: seq<bool>, now: nat, target: int, before: seq<nat>, i: nat,
                     flags: seq<bool>, bins: seq<nat>)
    requires |consumed| == |samples| && |before| == BINS
  {
    && i <= |samples| && flags == Consumed(samples, consumed, target)[..i] + consumed[i..]
    && bins == Histogram(samples[..i], consumed[..i], now, target, before)
  }

  lemma PassOne(samples: seq<PoseSample>, consumed: seq<bool>, now: nat, target: int, before: seq<nat>, i: nat,
                flags: seq<bool>, bins: seq<nat>)
    requires |consumed| == |samples| && |before| == BINS && i < |samples| && samples[i].send <= target
    requires PassedTo(samples, consumed, now, target, before, i, flags, bins)
    ensures var bin := Bin(samples[i].receive, now);
            PassedTo(samples, consumed, now, target, before, i + 1, flags[i := true],
                     if flags[i] then bins else bins[bin := bins[bin] + 1])
  {
    assert samples[..i + 1][..i] == samples[..i] && consumed[..i + 1][..i] == consumed[..i];
  }

  lemma PassEnds(samples: seq<PoseSample>, consumed: seq<bool>, now: nat, target: int, before: seq<nat>, i: nat,
                 flags: seq<bool>, bins: seq<nat>)
    requires |consumed| == |samples| && |before| == BINS && Disciplined(samples)
    requires PassedTo(samples, consumed, now, target, before, i, flags, bins)
    requires i < |samples| ==> samples[i].send > target
    ensures flags == Consumed(samples, consumed, target)
    ensures bins == Histogram(samples, consumed, now, target, before)
  {
    forall k | i < k < |samples|
      ensures samples[k].send > target
    {
      assert Precedes(samples[i], samples[k]);
    }
    HistogramStops(samples, consumed, now, target, before, i);
  }

  function Total(h: seq<nat>): nat { if h == [] then 0 else Total(h[..|h| - 1]) + h[|h| - 1] }

  lemma {:induction false} TotalOfBump(h: seq<nat>, k: nat)
    requires k < |h|
    ensures Total(h[k := h[k] + 1]) == Total(h) + 1
  {
    var last := |h| - 1;
    if k == last {
      assert h[k := h[k] + 1][..last] == h[..last];
    } else {
      assert h[k := h[k] + 1][..last] == h[..last][k := h[k] + 1];
      TotalOfBump(h[..last], k);
    }
  }

  /** Places, in the order of acceptance, of the samples that a frame consumes; `base` is the place
      of the oldest buffered one. */
  function Flipped(before: seq<bool>, after: seq<bool>, base: nat): (r: seq<nat>)
    requires |after| == |before|
  {
    if before == [] then []
    else
      var last := |before| - 1;
      var r := Flipped(before[..last], after[..last], base);
      if after[last] && !before[last] then r + [base + last] else r
  }

  lemma {:induction false} HistogramCountsFlips(samples: seq<PoseSample>, consumed: seq<bool>, now: nat, target: int,
                                                before: seq<nat>, base: nat)
    requires |consumed| == |samples| && |before| == BINS
    ensures Total(Histogram(samples, consumed, now, target, before))
            == Total(before) + |Flipped(consumed, Consumed(samples, consumed, target), base)|
  {
    if samples != [] {
      var last := |samples| - 1;
      HistogramCountsFlips(samples[..last], consumed[..last], now, target, before, base);
      assert Consumed(samples, consumed, target)[..last] == Consumed(samples[..last], consumed[..last], target);
      var r := Histogram(samples[..last], consumed[..last], now, target, before);
      TotalOfBump(r, Bin(samples[last].receive, now));
    }
  }

  lemma {:induction false} FlippedAre(before: seq<bool>, after: seq<bool>, base: nat)
    requires |after| == |before|
    ensures forall i, j :: 0 <= i < j < |Flipped(before, after, base)| ==>
              Flipped(before, after, base)[i] < Flipped(before, after, base)[j]
    ensures forall p :: p in Flipped(before, after, base) <==>
              base <= p < base + |before| && after[p - base] && !before[p - base]
  {
    if before != [] {
      var last := |before| - 1;
      FlippedAre(before[..last], after[..last], base);
      var r := Flipped(before[..last], after[..last], base);
      assert forall i :: 0 <= i < |r| ==> r[i] in r;
    }
  }

  /** `counted` lists the places of the samples that entered the histogram, out of `accepted`: each
      once, and exactly those whose flag is set among the buffered ones. The set flags are a prefix. */
  ghost predicate Ledgered(consumed: seq<bool>, accepted: nat, counted: seq<nat>) {
    && |consumed| <= accepted
    && (forall i, j :: 0 <= i < j < |consumed| && consumed[j] ==> consumed[i])
    && (forall i, j :: 0 <= i < j < |counted| ==> counted[i] < counted[j])
    && (forall p :: p in counted ==> p < accepted)
    && (forall i :: 0 <= i < |consumed| ==> (consumed[i] <==> accepted - |consumed| + i in counted))
  }

  lemma AppendKeepsLedger(consumed: seq<bool>, accepted: nat, counted: seq<nat>)
    requires Ledgered(consumed, accepted, counted)
    ensures Ledgered(consumed + [false], accepted + 1, counted)
  {
  }

  lemma DropKeepsLedger(consumed: seq<bool>, accepted: nat, counted: seq<nat>)
    requires Ledgered(consumed, accepted, counted) && consumed != []
    ensures Ledgered(consumed[1..], accepted, counted)
  {
    forall i | 0 <= i < |consumed[1..]|
      ensures consumed[1..][i] <==> accepted - |consumed[1..]| + i in counted
    {
      assert consumed[i + 1] <==> accepted - |consumed| + (i + 1) in counted;
    }
  }

  lemma FlaggedKeepsLedger(samples: seq<PoseSample>, consumed: seq<bool>, s: PoseSample, accepted: nat,
                           counted: seq<nat>)
    requires |consumed| == |samples| && Ledgered(consumed, accepted, counted)
    ensures Ledgered(Flagged(samples, consumed, s), accepted + 1, counted)
  {
    if Cuts(samples, s) {
    } else if |samples| == CAPACITY {
      DropKeepsLedger(consumed, accepted, counted);
      AppendKeepsLedger(consumed[1..], accepted, counted);
    } else {
      AppendKeepsLedger(consumed, accepted, counted);
    }
  }

  lemma CountedBeforeFlipped(consumed: seq<bool>, after: seq<bool>, accepted: nat, counted: seq<nat>, p: nat, q: nat)
    requires Ledgered(consumed, accepted, counted) && |after| == |consumed|
    requires (forall i, j :: 0 <= i < j < |after| && after[j] ==> after[i]) && p in counted
    requires accepted - |consumed| <= q < accepted && !consumed[q - (accepted - |consumed|)]
    ensures p < q
  {
    var base := accepted - |consumed|;
    if p >= base {
      var i := p - base;
      assert consumed[i] <==> base + i in counted;
      assert consumed[i] && !consumed[q - base];
    }
  }

  lemma ConsumedIsPrefix(samples: seq<PoseSample>, consumed: seq<bool>, target: int)
    requires |consumed| == |samples| && Disciplined(samples)
    requires forall i, j :: 0 <= i < j < |consumed| && consumed[j] ==> consumed[i]
    ensures var after := Consumed(samples, consumed, target);
            forall i, j :: 0 <= i < j < |after| && after[j] ==> after[i]
  {
    var after := Consumed(samples, consumed, target);
    forall i, j | 0 <= i < j < |after| && after[j]
      ensures after[i]
    {
      assert Precedes(samples[i], samples[j]);
    }
  }

  lemma ConsumedKeepsLedger(samples: seq<PoseSample>, consumed: seq<bool>, target: int, accepted: nat,
                            counted: seq<nat>)
    requires |consumed| == |samples| && Disciplined(samples) && Ledgered(consumed, accepted, counted)
    ensures var after := Consumed(samples, consumed, target);
            Ledgered(after, accepted, counted + Flipped(consumed, after, accepted - |consumed|))
  {
    var after := Consumed(samples, consumed, target);
    var base := accepted - |consumed|;
    var flipped := Flipped(consumed, after, base);
    FlippedAre(consumed, after, base);
    ConsumedIsPrefix(samples, consumed, target);
    forall i, j | 0 <= i < |counted| && 0 <= j < |flipped|
      ensures counted[i] < flipped[j]
    {
      assert counted[i] in counted && flipped[j] in flipped;
      CountedBeforeFlipped(consumed, after, accepted, counted, counted[i], flipped[j]);
    }
    forall i | 0 <= i < |after|
      ensures after[i] <==> base + i in counted + flipped
    {
      assert after[i] && !consumed[i] <==> base + i in flipped;
    }
  }
}
