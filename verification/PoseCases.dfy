/** Runs of bridge/remote_pose_timeline.cpp, with the settings the bridge runs with, that reach the
    exceptional side of the theorems about it. */
module PoseCases {
  import opened Options
  import opened MatrixQuaternion
  import opened PoseTrajectory
  import opened PoseTimeline
  import B = PoseBuckets
  import C = PoseClock
  import Serial

  /** A sample at rest that takes no time on its way. */
  function Rested(send: nat, sequence: Serial.u32, x: real, q: Quaternion): PoseSample {
    PoseSample(send, send, sequence, 1, false, true, Vec3(x, 0.0, 0.0), q, ORIGIN, ORIGIN)
  }

  // ----- samples that arrive in time --------------------------------------------------------

  /** The longest gap between samples, without jitter, for which the delay is the least one. */
  const SHORT_GAP := 60_000

  predicate CalmBucket(b: B.Bucket) {
    b.valid ==> b.minOffset == 0 && b.maxJitter == 0 && b.maxInterval <= SHORT_GAP
  }

  /** Every sample so far took no time on its way and followed the one before by 60 ms at most. */
  predicate Calm(buckets: seq<B.Bucket>) {
    |buckets| == B.BUCKETS && forall r :: 0 <= r < B.BUCKETS ==> CalmBucket(buckets[r])
  }

  /** So with the last one at `last`. */
  predicate Prompt(buckets: seq<B.Bucket>, last: nat) {
    Calm(buckets) && var b := buckets[B.Epoch(last) % B.BUCKETS]; b.valid && b.epoch == B.Epoch(last)
  }

  lemma CalmMinimum(buckets: seq<B.Bucket>, now: nat)
    requires forall b :: b in buckets ==> CalmBucket(b)
    ensures B.LiveMin(buckets, now) in {None, Some(0)}
  {
    var k := B.LeastLive(buckets, now);
    if B.LiveMin(buckets, now).Some? {
      assert buckets[k] in buckets;
    }
  }

  lemma PromptRecorded(buckets: seq<B.Bucket>, receive: nat, gap: nat)
    requires Calm(buckets) && gap <= SHORT_GAP
    ensures Prompt(B.Recorded(buckets, B.ArrivalOf(buckets, receive, 0, gap)), receive)
  {
    var slot := B.Epoch(receive) % B.BUCKETS;
    CalmMinimum(buckets[slot := B.Opened(buckets[slot], B.Epoch(receive), 0)], B.Epoch(receive));
  }

  lemma {:induction false} RecentsAreBuckets(buckets: seq<B.Bucket>, now: nat)
    requires forall b :: b in buckets ==> CalmBucket(b)
    ensures forall b :: b in B.Recents(buckets, now) ==> b.valid && CalmBucket(b)
  {
    if buckets != [] {
      RecentsAreBuckets(buckets[..|buckets| - 1], now);
    }
  }

  lemma MedianWithin(s: seq<nat>, bound: nat)
    requires forall x :: x in s ==> x <= bound
    ensures B.Median(s) <= bound
  {
    if s != [] {
      B.MedianIsOne(s);
    }
  }

  /** The estimates of the next 23 seconds. */
  lemma PromptEstimates(buckets: seq<B.Bucket>, last: nat, now: nat)
    requires Prompt(buckets, last) && B.Epoch(last) + B.BUCKETS > B.Epoch(now)
    ensures B.LiveMin(buckets, B.Epoch(now)) == Some(0)
    ensures TypicalInterval(buckets, now) <= SHORT_GAP && TypicalJitter(buckets, now) == 0
  {
    CalmMinimum(buckets, B.Epoch(now));
    var k := B.LeastLive(buckets, B.Epoch(now));
    assert B.Live(buckets[B.Epoch(last) % B.BUCKETS], B.Epoch(now));
    RecentsAreBuckets(buckets, B.Epoch(now));
    MedianWithin(B.Intervals(B.Capped(B.Recents(buckets, B.Epoch(now)))), SHORT_GAP);
    MedianWithin(B.Jitters(B.Capped(B.Recents(buckets, B.Epoch(now)))), 0);
  }

  lemma LeastDelay(interval: nat)
    requires interval <= SHORT_GAP
    ensures C.Delay(C.DEFAULTS, interval, 0) == 80_000
  {
  }

  /** So the ideal is the local time less 80 ms. */
  lemma PromptIdeal(st: State, last: nat, now: nat)
    requires Shaped(st) && Prompt(st.buckets, last) && last <= now < last + 1_000_000
    ensures Ideal(C.DEFAULTS, st, now) == now - 80_000
  {
    B.EpochMonotone(now, last + B.SECOND_US);
    PromptEstimates(st.buckets, last, now);
    LeastDelay(TypicalInterval(st.buckets, now));
  }

  lemma RunExtends(math: PoseMath, events: seq<Event>, e: Event)
    ensures var (st, h) := Run(C.DEFAULTS, math, events);
            Run(C.DEFAULTS, math, events + [e]) == (Next(C.DEFAULTS, math, st, e), Recalled(C.DEFAULTS, math, st, h, e))
  {
    assert (events + [e])[..|events|] == events;
  }

  predicate Extends(samples: seq<PoseSample>, s: PoseSample) {
    && Accepts(samples, s) && !Cuts(samples, s) && |samples| < CAPACITY && s.receive == s.send
    && Gap(samples, s) <= SHORT_GAP
  }

  lemma TakesOne(st: State, s: PoseSample)
    requires Shaped(st) && Extends(st.samples, s) && Calm(st.buckets)
    ensures var r := Pushed(st, s);
            && r.samples == st.samples + [s] && r.clock == st.clock && r.shown == st.shown
            && r.correction == st.correction && r.newData && Prompt(r.buckets, s.receive)
  {
    PromptRecorded(st.buckets, s.receive, Gap(st.samples, s));
  }

  /** One prompt sample more. */
  lemma Arrives(math: PoseMath, events: seq<Event>, s: PoseSample)
    requires var st := Run(C.DEFAULTS, math, events).0; Extends(st.samples, s) && Calm(st.buckets)
    ensures var before, st := Run(C.DEFAULTS, math, events).0, Run(C.DEFAULTS, math, events + [Push(s)]).0;
            && st.samples == before.samples + [s] && st.clock == before.clock && st.shown == before.shown
            && st.correction == before.correction && st.newData && Prompt(st.buckets, s.receive)
  {
    RunExtends(math, events, Push(s));
    TakesOne(Run(C.DEFAULTS, math, events).0, s);
  }

  // ----- the reported sequence --------------------------------------------------------------

  const FIRST := Rested(1_000_000, 1, 0.0, IDENTITY)
  const SECOND := Rested(1_050_000, 2, 1.0, IDENTITY)
  const THIRD := Rested(1_100_000, 3, 2.0, IDENTITY)

  lemma OneArrives(math: PoseMath, s: PoseSample)
    requires s.receive == s.send > 0 && s.finite && !s.teleport
    ensures var st := Run(C.DEFAULTS, math, [Push(s)]).0;
            && st.samples == [s] && st.clock == C.Clock(false, 0, 0) && st.shown.None? && st.correction == NONE
            && st.newData && Prompt(st.buckets, s.receive)
  {
    Arrives(math, [], s);
    assert [] + [Push(s)] == [Push(s)];
  }

  lemma ThreeArrive(math: PoseMath)
    ensures var st := Run(C.DEFAULTS, math, [Push(FIRST), Push(SECOND), Push(THIRD)]).0;
            st.samples == [FIRST, SECOND, THIRD] && !st.clock.running && Prompt(st.buckets, 1_100_000)
  {
    OneArrives(math, FIRST);
    Arrives(math, [Push(FIRST)], SECOND);
    assert [Push(FIRST)] + [Push(SECOND)] == [Push(FIRST), Push(SECOND)];
    Arrives(math, [Push(FIRST), Push(SECOND)], THIRD);
    assert [Push(FIRST), Push(SECOND)] + [Push(THIRD)] == [Push(FIRST), Push(SECOND), Push(THIRD)];
  }

  /** A first frame plays the curve at the ideal. */
  lemma FirstFrame(math: PoseMath, st: State, now: nat, target: int)
    requires Shaped(st) && st.samples != [] && !st.clock.running && Ideal(C.DEFAULTS, st, now) == target
    requires Curve(st.samples, target, C.DEFAULTS.maxExtrapolation, math).state != Held
    ensures var output := Evaluated(C.DEFAULTS, math, st, now).output;
            && output.target == target
            && output.sequence == Curve(st.samples, target, C.DEFAULTS.maxExtrapolation, math).sequence
  {
  }

  lemma MiddleSequence(math: PoseMath, samples: seq<PoseSample>)
    requires samples == [FIRST, SECOND, THIRD]
    ensures var raw := Curve(samples, 1_050_000, C.DEFAULTS.maxExtrapolation, math);
            raw.sequence == 1 && raw.state == Interpolated
  {
    assert BracketFrom(samples, 1_050_000, 1) == 1;
  }

  /** Three samples, and a first frame whose target is exactly the middle one: the frame reports the
      sequence number of the sample before it. */
  lemma SequenceFallsBehind(math: PoseMath)
    ensures var st := Run(C.DEFAULTS, math, [Push(FIRST), Push(SECOND), Push(THIRD)]).0;
            var output := Evaluated(C.DEFAULTS, math, st, 1_130_000).output;
            && |st.samples| == 3 && NewestAt(st.samples, output.target, 1) && st.samples[1].sequence == 2
            && output.sequence == 1
  {
    var st := Run(C.DEFAULTS, math, [Push(FIRST), Push(SECOND), Push(THIRD)]).0;
    ThreeArrive(math);
    PromptIdeal(st, 1_100_000, 1_130_000);
    MiddleSequence(math, st.samples);
    FirstFrame(math, st, 1_130_000, 1_050_000);
  }

  // ----- the first anchor -------------------------------------------------------------------

  /** A first frame too late for its only sample: the clock runs, but not from the anchor. */
  lemma AnchorUndone(math: PoseMath)
    ensures var st := Run(C.DEFAULTS, math, [Push(FIRST)]).0;
            var f := Evaluated(C.DEFAULTS, math, st, 1_900_000);
            f.output.state == Held && f.state.clock.running && Ideal(C.DEFAULTS, st, 1_900_000) == 1_820_000
            && f.state.clock.playback == 0
  {
    OneArrives(math, FIRST);
    PromptIdeal(Run(C.DEFAULTS, math, [Push(FIRST)]).0, 1_000_000, 1_900_000);
  }

  // ----- the same instant twice -------------------------------------------------------------

  /** Values of the trigonometric functions at rest. */
  ghost predicate AtRest(math: PoseMath) {
    && (forall q, t {:trigger math.turn(q, ORIGIN, t)} :: math.turn(q, ORIGIN, t) == q)
    && (forall t {:trigger math.slerp(IDENTITY, IDENTITY, t)} :: math.slerp(IDENTITY, IDENTITY, t) == IDENTITY)
    && (forall q {:trigger math.angle(q, q)} :: math.angle(q, q) == 0.0)
  }

  /** An orientation that the bridge accepts: its squared norm is within 0.05 of one. */
  const LONG := Quaternion(0.0, 0.0, 0.0, 1.01)
  const BEFORE := Rested(1_000_000, 1, 0.0, LONG)
  const AFTER := Rested(1_060_000, 2, 0.00005, LONG)

  lemma AtRestStays(s: PoseSample, beyond: nat, state: Playback, math: PoseMath)
    requires AtRest(math) && s.linear == ORIGIN && s.angular == ORIGIN
    ensures Extrapolate(s, beyond, state, math) == Raw(state, s.position, s.orientation, s.sequence)
  {
    var seconds := beyond as real / 1000000.0;
    assert Along(s, seconds) == s.position by {
      assert 0.0 * seconds == 0.0;
    }
  }

  /** The first frame shows the first sample as it is, 100 ms after its time. */
  lemma FrameBefore(math: PoseMath, st: State)
    requires AtRest(math) && Shaped(st) && st.samples == [BEFORE] && !st.clock.running && st.shown.None?
    requires st.correction == NONE && Ideal(C.DEFAULTS, st, 1_180_000) == 1_100_000
    ensures var next := Evaluated(C.DEFAULTS, math, st, 1_180_000).state;
            && next.samples == [BEFORE] && next.clock == C.Clock(true, 1_100_000, 1_180_000) && next.correction == NONE
            && next.shown == Some(Output(Extrapolated, BEFORE.position, LONG, 1, 1_100_000))
  {
    AtRestStays(BEFORE, 100_000, Extrapolated, math);
  }

  lemma SqrtOfSquare(sqrt: real -> real, a: real, p: real)
    requires IsSqrt(sqrt) && a >= 0.0 && p == a * a
    ensures sqrt(p) == a
  {
    if sqrt(p) < a {
      SquareLess(sqrt(p), a);
    } else if sqrt(p) > a {
      SquareLess(a, sqrt(p));
    }
  }

  lemma PureProduct(w: real, p: real)
    requires p == w * w
    ensures Hamilton(Quaternion(0.0, 0.0, 0.0, w), Quaternion(0.0, 0.0, 0.0, w)) == Quaternion(0.0, 0.0, 0.0, p)
  {
    assert w * 0.0 == 0.0 && 0.0 * w == 0.0 && 0.0 * 0.0 == 0.0;
  }

  lemma LongProduct(q: Quaternion)
    requires q == Quaternion(0.0, 0.0, 0.0, 1.01)
    ensures Hamilton(Conjugate(q), q) == Quaternion(0.0, 0.0, 0.0, 1.0201)
  {
    PureProduct(1.01, 1.0201);
    assert Conjugate(q) == q;
  }

  lemma UnitOfLong(math: PoseMath, q: Quaternion)
    requires IsSqrt(math.sqrt) && q == Quaternion(0.0, 0.0, 0.0, 1.0201)
    ensures Unit(q, math) == IDENTITY
  {
    LongNorm(q);
    SqrtOfSquare(math.sqrt, 1.0201, Norm2(q));
    ScaledLong(q);
  }

  lemma LongNorm(q: Quaternion)
    requires q == Quaternion(0.0, 0.0, 0.0, 1.0201)
    ensures Norm2(q) == 1.0201 * 1.0201
  {
  }

  lemma ScaledLong(q: Quaternion)
    requires q == Quaternion(0.0, 0.0, 0.0, 1.0201)
    ensures Scaled(q, 1.0201) == IDENTITY
  {
  }

  lemma LongTurnsBack(math: PoseMath, q: Quaternion)
    requires IsSqrt(math.sqrt) && q == Quaternion(0.0, 0.0, 0.0, 1.01)
    ensures Multiply(Conjugate(q), q, math) == IDENTITY
  {
    LongProduct(q);
    UnitOfLong(math, Hamilton(Conjugate(q), q));
  }

  /** The second sample moves the curve by 0.05 mm under the actor, which is taken up. */
  lemma SmallError(math: PoseMath, samples: seq<PoseSample>)
    requires IsSqrt(math.sqrt) && AtRest(math) && samples == [BEFORE, AFTER]
    ensures Adopted(C.DEFAULTS, math, samples, NONE, true,
                    Some(Output(Extrapolated, BEFORE.position, LONG, 1, 1_100_000)))
            == Correction(Vec3(-0.00005, 0.0, 0.0), IDENTITY)
  {
    AtRestStays(AFTER, 40_000, Extrapolated, math);
    var gap := Minus(BEFORE.position, AFTER.position);
    assert gap == Vec3(-0.00005, 0.0, 0.0);
    SqrtOfSquare(math.sqrt, 0.00005, Length2(gap));
    LongTurnsBack(math, LONG);
  }

  /** Within 10 ms such a correction is gone, however slowly it decays. */
  lemma SmallErrorFades(math: PoseMath)
    requires Decays(math.exp) && AtRest(math)
    ensures Faded(C.DEFAULTS, math, Correction(Vec3(-0.00005, 0.0, 0.0), IDENTITY), 10_000) == NONE
  {
    var decay := math.exp(-(10_000 as real) / C.DEFAULTS.tau);
    assert 0.0 * decay == 0.0;
    assert -TINY < -0.00005 * decay < TINY;
  }

  lemma FrameAfter(math: PoseMath, st: State)
    requires IsSqrt(math.sqrt) && Decays(math.exp) && AtRest(math) && Shaped(st) && st.samples == [BEFORE, AFTER]
    requires st.clock == C.Clock(true, 1_100_000, 1_180_000) && st.correction == NONE && st.newData
    requires st.shown == Some(Output(Extrapolated, BEFORE.position, LONG, 1, 1_100_000))
    requires Ideal(C.DEFAULTS, st, 1_190_000) == 1_110_000
    ensures Vanishes(C.DEFAULTS, math, st, 1_190_000) && TickOf(C.DEFAULTS, st, 1_190_000).clock.playback == 1_110_000
  {
    SmallError(math, st.samples);
    SmallErrorFades(math);
  }

  lemma FrameKeepsBuckets(math: PoseMath, st: State, now: nat)
    requires Shaped(st) && st.samples != []
    ensures Evaluated(C.DEFAULTS, math, st, now).state.buckets == st.buckets
  {
    FramePasses(C.DEFAULTS, math, st, now);
  }

  lemma FrameExtends(math: PoseMath, events: seq<Event>, now: nat, more: seq<Event>)
    requires more == events + [Evaluate(now)]
    ensures Run(C.DEFAULTS, math, more).0 == Evaluated(C.DEFAULTS, math, Run(C.DEFAULTS, math, events).0, now).state
  {
    RunExtends(math, events, Evaluate(now));
  }

  /** The state that the first sample leaves, and the one its frame leaves. */
  predicate Started(st: State) {
    && Shaped(st) && st.samples == [BEFORE] && st.clock == C.Clock(false, 0, 0) && st.shown.None?
    && st.correction == NONE && st.newData && Prompt(st.buckets, 1_000_000)
  }

  predicate Showing(st: State) {
    && Shaped(st) && st.samples == [BEFORE] && st.clock == C.Clock(true, 1_100_000, 1_180_000) && st.correction == NONE
    && st.shown == Some(Output(Extrapolated, BEFORE.position, LONG, 1, 1_100_000)) && Prompt(st.buckets, 1_000_000)
  }

  lemma FrameStarts(math: PoseMath, st: State)
    requires AtRest(math) && Started(st)
    ensures Showing(Evaluated(C.DEFAULTS, math, st, 1_180_000).state)
  {
    PromptIdeal(st, 1_000_000, 1_180_000);
    FrameBefore(math, st);
    FrameKeepsBuckets(math, st, 1_180_000);
  }

  lemma SampleStarts(math: PoseMath)
    ensures Started(Run(C.DEFAULTS, math, [Push(BEFORE)]).0)
  {
    OneArrives(math, BEFORE);
  }

  lemma FrameShown(math: PoseMath, first: seq<Event>, events: seq<Event>)
    requires AtRest(math) && Started(Run(C.DEFAULTS, math, first).0) && events == first + [Evaluate(1_180_000)]
    ensures Showing(Run(C.DEFAULTS, math, events).0)
  {
    FrameStarts(math, Run(C.DEFAULTS, math, first).0);
    FrameExtends(math, first, 1_180_000, events);
  }

  predicate Resumed(st: State) {
    && Shaped(st) && st.samples == [BEFORE, AFTER] && st.clock == C.Clock(true, 1_100_000, 1_180_000)
    && st.correction == NONE && st.newData && Prompt(st.buckets, 1_060_000)
    && st.shown == Some(Output(Extrapolated, BEFORE.position, LONG, 1, 1_100_000))
  }

  lemma AfterArrives(math: PoseMath, shown: seq<Event>)
    requires Showing(Run(C.DEFAULTS, math, shown).0)
    ensures Resumed(Run(C.DEFAULTS, math, shown + [Push(AFTER)]).0)
  {
    Arrives(math, shown, AFTER);
  }

  /** Two samples 0.05 mm apart whose orientation is no unit, a frame after each: the last frame drops the
      correction, and repeating it at the same instant shows another orientation. */
  lemma RepeatedFrameDiffers(math: PoseMath)
    requires IsSqrt(math.sqrt) && Decays(math.exp) && AtRest(math)
    ensures var st := Run(C.DEFAULTS, math, [Push(BEFORE), Evaluate(1_180_000), Push(AFTER)]).0;
            var first := Evaluated(C.DEFAULTS, math, st, 1_190_000);
            var second := Evaluated(C.DEFAULTS, math, first.state, 1_190_000);
            first.output.state == Extrapolated && first.output.orientation != second.output.orientation
  {
    var shown := [Push(BEFORE), Evaluate(1_180_000)];
    assert [Push(BEFORE)] + [Evaluate(1_180_000)] == shown;
    assert shown + [Push(AFTER)] == [Push(BEFORE), Evaluate(1_180_000), Push(AFTER)];
    SampleStarts(math);
    FrameShown(math, [Push(BEFORE)], shown);
    AfterArrives(math, shown);
    LastFrameDiffers(math, Run(C.DEFAULTS, math, shown + [Push(AFTER)]).0);
  }

  lemma LastFrameDiffers(math: PoseMath, st: State)
    requires IsSqrt(math.sqrt) && Decays(math.exp) && AtRest(math) && Resumed(st)
    ensures var first := Evaluated(C.DEFAULTS, math, st, 1_190_000);
            var second := Evaluated(C.DEFAULTS, math, first.state, 1_190_000);
            first.output.state == Extrapolated && first.output.orientation != second.output.orientation
  {
    PromptIdeal(st, 1_060_000, 1_190_000);
    FrameAfter(math, st);
    var raw := LongCurve(math, st.samples, 1_110_000);
    VanishedFrameDiffers(C.DEFAULTS, math, st, 1_190_000, raw);
  }

  /** A frame that drops its correction over an orientation that is no unit is not repeated. */
  lemma VanishedFrameDiffers(config: C.Config, math: PoseMath, st: State, now: nat, raw: Raw)
    requires C.Usable(config) && IsSqrt(math.sqrt) && Shaped(st) && st.samples != [] && Vanishes(config, math, st, now)
    requires raw == Curve(st.samples, TickOf(config, st, now).clock.playback, config.maxExtrapolation, math)
    requires raw.state == Extrapolated && Norm2(raw.orientation) != 1.0
    ensures var first := Evaluated(config, math, st, now);
            var second := Evaluated(config, math, first.state, now);
            first.output.state == Extrapolated && first.output.orientation != second.output.orientation
  {
    FrameState(config, math, st, now);
    EvaluateTwice(config, math, st, now);
  }

  lemma LongCurve(math: PoseMath, samples: seq<PoseSample>, target: int) returns (raw: Raw)
    requires AtRest(math) && samples == [BEFORE, AFTER] && 1_060_000 < target < 1_300_000
    ensures raw == Curve(samples, target, C.DEFAULTS.maxExtrapolation, math)
    ensures raw.state == Extrapolated && Norm2(raw.orientation) != 1.0
  {
    AtRestStays(AFTER, target - 1_060_000, Extrapolated, math);
    raw := Curve(samples, target, C.DEFAULTS.maxExtrapolation, math);
  }

  lemma FrameState(config: C.Config, math: PoseMath, st: State, now: nat)
    requires C.Usable(config) && Shaped(st) && st.samples != []
    ensures var target := TickOf(config, st, now).clock.playback;
            var raw := Curve(st.samples, target, config.maxExtrapolation, math);
            var output := Evaluated(config, math, st, now).output;
            output.state == raw.state && (raw.state != Held ==> output.target == target)
  {
  }

  // ----- the clock offset -------------------------------------------------------------------

  /** Two samples 23.4 seconds apart; the second one is stamped 0.6 seconds ahead, into the second that
      shares a bucket with the first. */
  const EARLY := Rested(1_000_000, 1, 0.0, IDENTITY)
  const AHEAD := EARLY.(send := 24_400_000, receive := 25_000_000, sequence := 2)

  lemma TwoArrivals(math: PoseMath, events: seq<Event>)
    requires events == [Push(EARLY), Push(AHEAD)]
    ensures var (st, h) := Run(C.DEFAULTS, math, events);
            && |h.log| == 2 && st.buckets == B.Recorded(B.Recorded(Blank().buckets, h.log[0]), h.log[1])
            && (h.log[0].receive, h.log[0].offset) == (1_000_000, 0)
            && (h.log[1].receive, h.log[1].offset) == (25_000_000, 600_000)
  {
    RunExtends(math, [], Push(EARLY));
    RunExtends(math, [Push(EARLY)], Push(AHEAD));
    assert [] + [Push(EARLY)] == [Push(EARLY)] && [Push(EARLY)] + [Push(AHEAD)] == events;
  }

  lemma BucketTaken(first: B.Arrival, second: B.Arrival, buckets: seq<B.Bucket>)
    requires first.receive == 1_000_000 && second.receive == 25_000_000
    requires buckets == B.Recorded(B.Recorded(seq(B.BUCKETS, i => B.BLANK), first), second)
    ensures B.LiveMin(buckets, 24) == Some(second.offset)
  {
    var k := B.LeastLive(buckets, 24);
    assert forall i :: 0 <= i < B.BUCKETS && i != 1 ==> !buckets[i].valid;
    assert B.Live(buckets[1], 24) && buckets[1].minOffset == second.offset;
  }

  lemma BothInWindow(log: seq<B.Arrival>)
    requires |log| == 2 && log[0].receive == 1_000_000 && log[1].receive == 25_000_000 && log[0].offset <= log[1].offset
    ensures B.WindowMin(log, 24) == Some(log[0].offset)
  {
    var k := B.LeastOfWindow(log, 24);
    assert B.Epoch(log[0].receive) + B.BUCKETS > 24;
  }

  /** Both stamps are within the bridge's tolerance, and at the frame the first sample is 23.5 seconds old;
      the frame uses the offset of the second, 0.6 seconds above the least. */
  lemma MinimumLost(math: PoseMath)
    ensures var (st, h) := Run(C.DEFAULTS, math, [Push(EARLY), Push(AHEAD)]);
            && B.StampedNear(h.log, [1_000_000, 24_400_000])
            && B.WindowMin(h.log, B.Epoch(24_500_000)) == Some(0) && Offset(st, 24_500_000) == 600_000
  {
    var events := [Push(EARLY), Push(AHEAD)];
    var (st, h) := Run(C.DEFAULTS, math, events);
    TwoArrivals(math, events);
    BucketTaken(h.log[0], h.log[1], st.buckets);
    BothInWindow(h.log);
  }
}
