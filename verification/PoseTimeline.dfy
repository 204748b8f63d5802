/** bridge/remote_pose_timeline.cpp: Push and Evaluate of one remote actor's timeline as functions of
    its state, and what they keep over whole runs. PoseTimelineClass has them in place. */
module PoseTimeline {
  import opened Options
  import opened MatrixQuaternion
  import opened PoseTrajectory
  import B = PoseBuckets
  import C = PoseClock
  import Serial

  datatype Output = Output(state: Playback, position: Vec3, orientation: Quaternion, sequence: Serial.u32, target: int)

  const NOTHING := Output(Nothing, ORIGIN, IDENTITY, 0, 0)

  /** What is added to the curve so that new data does not make the actor jump. */
  datatype Correction = Correction(shift: Vec3, twist: Quaternion)

  const NONE := Correction(ORIGIN, IDENTITY)

  /** `shown` is the last output while it counts. */
  datatype State = State(samples: seq<PoseSample>, consumed: seq<bool>, buckets: seq<B.Bucket>, lastOffset: int,
                         clock: C.Clock, newData: bool, shown: Option<Output>, correction: Correction,
                           histogram: seq<nat>)

  datatype Frame = Frame(state: State, output: Output)

  function Blank(): State {
    State([], [], seq(B.BUCKETS, i => B.BLANK), 0, C.Clock(false, 0, 0), false, None, NONE, seq(BINS, i => 0))
  }

  predicate Shaped(st: State) {
    |st.consumed| == |st.samples| && |st.buckets| == B.BUCKETS && |st.histogram| == BINS
  }

  // ----- vectors and quaternions ------------------------------------------------------------

  function Plus(a: Vec3, b: Vec3): Vec3 { Vec3(a.x + b.x, a.y + b.y, a.z + b.z) }

  function Minus(a: Vec3, b: Vec3): Vec3 { Vec3(a.x - b.x, a.y - b.y, a.z - b.z) }

  function Length2(v: Vec3): real { v.x * v.x + v.y * v.y + v.z * v.z }

  function Distance(a: Vec3, b: Vec3, math: PoseMath): real { math.sqrt(Length2(Minus(a, b))) }

  function Conjugate(q: Quaternion): Quaternion { Quaternion(-q.x, -q.y, -q.z, q.w) }

  function Hamilton(a: Quaternion, b: Quaternion): Quaternion {
    Quaternion(a.w * b.x + a.x * b.w + a.y * b.z - a.z * b.y, a.w * b.y - a.x * b.z + a.y * b.w + a.z * b.x,
               a.w * b.z + a.x * b.y - a.y * b.x + a.z * b.w, a.w * b.w - a.x * b.x - a.y * b.y - a.z * b.z)
  }

  function Unit(q: Quaternion, math: PoseMath): Quaternion {
    var norm := math.sqrt(Norm2(q));
    if norm > 0.000001 then Scaled(q, norm) else IDENTITY
  }

  function Multiply(a: Quaternion, b: Quaternion, math: PoseMath): Quaternion { Unit(Hamilton(a, b), math) }

  // ----- Push -------------------------------------------------------------------------------

  function Dropped(st: State): State {
    st.(samples := [], consumed := [], newData := false, shown := None, correction := NONE)
  }

  function Gap(samples: seq<PoseSample>, s: PoseSample): nat {
    if samples != [] && s.send > samples[|samples| - 1].send then s.send - samples[|samples| - 1].send else 0
  }

  function ArrivalIn(st: State, s: PoseSample): B.Arrival
    requires Shaped(st)
  {
    B.ArrivalOf(st.buckets, s.receive, s.receive - s.send, Gap(st.samples, s))
  }

  function Pushed(st: State, s: PoseSample): (r: State)
    requires Shaped(st)
    ensures Shaped(r)
  {
    if !Accepts(st.samples, s) then st else Taken(st, s)
  }

  function Taken(st: State, s: PoseSample): (r: State)
    requires Shaped(st)
    ensures Shaped(r)
  {
    (if Cuts(st.samples, s) then Dropped(st) else st).(
      buckets := B.Recorded(st.buckets, ArrivalIn(st, s)), samples := Buffered(st.samples, s),
      consumed := Flagged(st.samples, st.consumed, s), newData := true)
  }

  function Appended(st: State, s: PoseSample): State
    requires Shaped(st)
  {
    st.(samples := Buffered(st.samples, s), consumed := Flagged(st.samples, st.consumed, s), newData := true)
  }

  lemma TakenInSteps(st: State, s: PoseSample, recorded: State)
    requires Shaped(st) && recorded == st.(buckets := B.Recorded(st.buckets, ArrivalIn(st, s)))
    ensures Appended(if Cuts(st.samples, s) then Dropped(recorded) else recorded, s) == Taken(st, s)
  {
  }

  // ----- Evaluate ---------------------------------------------------------------------------

  /** What the clock offset falls back to when no bucket is alive. */
  function Fallback(st: State): int {
    if st.samples != [] then st.samples[|st.samples| - 1].receive - st.samples[|st.samples| - 1].send
    else st.lastOffset
  }

  function Offset(st: State, now: nat): int {
    var floor := B.LiveMin(st.buckets, B.Epoch(now));
    if floor.Some? then floor.value else Fallback(st)
  }

  function TypicalInterval(buckets: seq<B.Bucket>, now: nat): nat {
    B.Median(B.Intervals(B.Capped(B.Recents(buckets, B.Epoch(now)))))
  }

  function TypicalJitter(buckets: seq<B.Bucket>, now: nat): nat {
    B.Median(B.Jitters(B.Capped(B.Recents(buckets, B.Epoch(now)))))
  }

  /** Where playback should be on the sender's clock. */
  function Ideal(config: C.Config, st: State, now: nat): int
    requires C.Usable(config)
  {
    now - Offset(st, now) - C.Delay(config, TypicalInterval(st.buckets, now), TypicalJitter(st.buckets, now))
  }

  function TickOf(config: C.Config, st: State, now: nat): C.Tick
    requires C.Usable(config)
  {
    C.Step(config, st.clock, Ideal(config, st, now), now)
  }

  /** The error of the last output against the new curve, at the last output's own target. */
  function Adopted(config: C.Config, math: PoseMath, samples: seq<PoseSample>, correction: Correction, newData: bool,
                   shown: Option<Output>): Correction
    requires samples != []
  {
    if !newData || shown.None? then correction
    else
      var last := shown.value;
      var previous := Curve(samples, last.target, config.maxExtrapolation, math);
      if Distance(last.position, previous.position, math) <= config.maxPosition
         && math.angle(last.orientation, previous.orientation) <= config.maxRotation
      then Correction(Minus(last.position, previous.position),
                      Multiply(Conjugate(previous.orientation), last.orientation, math))
      else NONE
  }

  const TINY := 0.0001

  function FadedAxis(x: real, decay: real): real {
    if -TINY < x * decay < TINY then 0.0 else x * decay
  }

  function Faded(config: C.Config, math: PoseMath, c: Correction, elapsed: nat): Correction {
    if c == NONE || elapsed == 0 || config.tau <= 0.0 then c
    else
      var decay := math.exp(-(elapsed as real) / config.tau);
      var twist := math.slerp(IDENTITY, c.twist, decay);
      Correction(Vec3(FadedAxis(c.shift.x, decay), FadedAxis(c.shift.y, decay), FadedAxis(c.shift.z, decay)),
                 if math.angle(IDENTITY, twist) < TINY then IDENTITY else twist)
  }

  /** The shown pose: `before` tells whether a correction was on before it faded. */
  function Shown(raw: Raw, before: Correction, c: Correction, target: int, math: PoseMath): Output {
    if before == NONE then Output(raw.state, raw.position, raw.orientation, raw.sequence, target)
    else Output(raw.state, Plus(raw.position, c.shift), Multiply(raw.orientation, c.twist, math), raw.sequence, target)
  }

  /** A frame without a usable pose repeats the last one and puts the clock back. */
  function HeldOutput(raw: Raw, shown: Option<Output>, playback: int): Output {
    if shown.Some? then Output(Held, shown.value.position, shown.value.orientation, raw.sequence, playback)
    else Output(Held, raw.position, raw.orientation, raw.sequence, playback)
  }

  function Passed(st: State, now: nat, target: int): (r: State)
    requires Shaped(st)
    ensures Shaped(r)
  {
    st.(histogram := Histogram(st.samples, st.consumed, now, target, st.histogram),
        consumed := Consumed(st.samples, st.consumed, target))
  }

  /** The clock's move; a jump clears the correction. */
  function Moved(config: C.Config, st: State, now: nat): (r: State)
    requires C.Usable(config) && Shaped(st)
    ensures Shaped(r)
  {
    var tick := TickOf(config, st, now);
    st.(lastOffset := Offset(st, now), clock := tick.clock, correction := if tick.resync then NONE else st.correction)
  }

  /** The clock and the passed samples after the first part of a frame. */
  function Ticked(config: C.Config, st: State, now: nat): (r: State)
    requires C.Usable(config) && Shaped(st)
    ensures Shaped(r)
  {
    var moved := Moved(config, st, now);
    Passed(moved, now, moved.clock.playback)
  }

  /** A held frame: the clock goes back to `previous`. */
  function Hold(st: State, raw: Raw, previous: int): Frame {
    var output := HeldOutput(raw, st.shown, previous);
    Frame(st.(clock := st.clock.(playback := previous), shown := Some(output)), output)
  }

  /** Any other frame: the correction takes up the error of new data, fades, and is added to the curve. */
  function Play(config: C.Config, math: PoseMath, st: State, raw: Raw, elapsed: nat): Frame
    requires st.samples != []
  {
    var before := Adopted(config, math, st.samples, st.correction, st.newData, st.shown);
    var c := Faded(config, math, before, elapsed);
    var output := Shown(raw, before, c, st.clock.playback, math);
    Frame(st.(newData := false, shown := Some(output), correction := c), output)
  }

  function Evaluated(config: C.Config, math: PoseMath, st: State, now: nat): (f: Frame)
    requires C.Usable(config) && Shaped(st)
    ensures Shaped(f.state)
  {
    if st.samples == [] then Frame(st.(clock := st.clock.(running := false), shown := None), NOTHING)
    else
      var ticked := Ticked(config, st, now);
      var raw := Curve(st.samples, ticked.clock.playback, config.maxExtrapolation, math);
      if raw.state == Held then Hold(ticked, raw, st.clock.playback)
      else Play(config, math, ticked, raw, TickOf(config, st, now).elapsed)
  }

  // ----- the correction bound ---------------------------------------------------------------

  /** The exponential of a negative number. */
  ghost predicate Decays(exp: real -> real) {
    forall t {:trigger exp(t)} :: t <= 0.0 ==> 0.0 < exp(t) <= 1.0
  }

  function Bound(config: C.Config): real { if config.maxPosition > 0.0 then config.maxPosition else 0.0 }

  ghost predicate Bounded(config: C.Config, math: PoseMath, c: Correction) {
    math.sqrt(Length2(c.shift)) <= Bound(config)
  }

  lemma FadedAxisShrinks(x: real, decay: real)
    requires 0.0 <= decay <= 1.0
    ensures FadedAxis(x, decay) * FadedAxis(x, decay) <= x * x
  {
    var p := x * decay;
    assert p * p == (x * x) * (decay * decay);
    UnitSquare(decay);
    Shrinks(x * x, decay * decay);
  }

  lemma UnitSquare(a: real)
    requires 0.0 <= a <= 1.0
    ensures 0.0 <= a * a <= 1.0
  {
    C.NonNegative(a, a, a * a);
    Shrinks(a, a);
  }

  lemma Shrinks(a: real, b: real)
    requires a >= 0.0 && b <= 1.0
    ensures a * b <= a
  {
    C.NonNegative(a, 1.0 - b, a * (1.0 - b));
    assert a * (1.0 - b) == a - a * b;
  }

  lemma SqrtMonotone(sqrt: real -> real, a: real, b: real)
    requires IsSqrt(sqrt) && 0.0 <= a <= b
    ensures sqrt(a) <= sqrt(b)
  {
    if sqrt(b) < sqrt(a) {
      SquareLess(sqrt(b), sqrt(a));
    }
  }

  lemma SquareNonNegative(x: real)
    ensures x * x >= 0.0
  {
  }

  lemma LengthNonNegative(v: Vec3)
    ensures Length2(v) >= 0.0
  {
    SquareNonNegative(v.x);
    SquareNonNegative(v.y);
    SquareNonNegative(v.z);
  }

  lemma FadedIsShorter(config: C.Config, math: PoseMath, c: Correction, elapsed: nat)
    requires Decays(math.exp)
    ensures Length2(Faded(config, math, c, elapsed).shift) <= Length2(c.shift)
  {
    if c != NONE && elapsed > 0 && config.tau > 0.0 {
      var decay := math.exp(-(elapsed as real) / config.tau);
      Quotient(elapsed as real, config.tau);
      FadedAxisShrinks(c.shift.x, decay);
      FadedAxisShrinks(c.shift.y, decay);
      FadedAxisShrinks(c.shift.z, decay);
      SumsShrink(Faded(config, math, c, elapsed).shift, c.shift);
    }
  }

  lemma FadedKeepsBound(config: C.Config, math: PoseMath, c: Correction, elapsed: nat)
    requires IsSqrt(math.sqrt) && Decays(math.exp) && Bounded(config, math, c)
    ensures Bounded(config, math, Faded(config, math, c, elapsed))
  {
    var faded := Faded(config, math, c, elapsed);
    FadedIsShorter(config, math, c, elapsed);
    LengthNonNegative(faded.shift);
    SqrtMonotone(math.sqrt, Length2(faded.shift), Length2(c.shift));
  }

  lemma SumsShrink(a: Vec3, b: Vec3)
    requires a.x * a.x <= b.x * b.x && a.y * a.y <= b.y * b.y && a.z * a.z <= b.z * b.z
    ensures Length2(a) <= Length2(b)
  {
  }

  lemma Quotient(a: real, b: real)
    requires a >= 0.0 && b > 0.0
    ensures -a / b <= 0.0
  {
  }

  lemma SqrtOfZero(sqrt: real -> real)
    requires IsSqrt(sqrt)
    ensures sqrt(0.0) == 0.0
  {
    var root := sqrt(0.0);
    assert root >= 0.0 && root * root == 0.0;
    if root > 0.0 {
      Positive(root, root, root * root);
    }
  }

  lemma NoneIsBounded(config: C.Config, math: PoseMath)
    requires IsSqrt(math.sqrt)
    ensures Bounded(config, math, NONE)
  {
    SqrtOfZero(math.sqrt);
    NoShift(NONE);
    UnshiftedIsBounded(config, math, NONE);
  }

  lemma NoShift(c: Correction)
    requires c == NONE
    ensures Length2(c.shift) == 0.0
  {
  }

  lemma UnshiftedIsBounded(config: C.Config, math: PoseMath, c: Correction)
    requires math.sqrt(0.0) == 0.0 && Length2(c.shift) == 0.0
    ensures Bounded(config, math, c)
  {
  }

  lemma AdoptedIsBounded(config: C.Config, math: PoseMath, samples: seq<PoseSample>, correction: Correction,
                         newData: bool, shown: Option<Output>)
    requires IsSqrt(math.sqrt) && samples != [] && Bounded(config, math, correction)
    ensures Bounded(config, math, Adopted(config, math, samples, correction, newData, shown))
  {
    NoneIsBounded(config, math);
  }

  lemma EvaluateKeepsBound(config: C.Config, math: PoseMath, st: State, now: nat)
    requires C.Usable(config) && Shaped(st) && IsSqrt(math.sqrt) && Decays(math.exp)
             && Bounded(config, math, st.correction)
    ensures Bounded(config, math, Evaluated(config, math, st, now).state.correction)
  {
    if st.samples != [] {
      var tick := TickOf(config, st, now);
      var kept := if tick.resync then NONE else st.correction;
      NoneIsBounded(config, math);
      AdoptedIsBounded(config, math, st.samples, kept, st.newData, st.shown);
      FadedKeepsBound(config, math, Adopted(config, math, st.samples, kept, st.newData, st.shown), tick.elapsed);
    }
  }

  /** A position that is neither held nor missing stays within the configured bound of the curve. */
  lemma OutputNearCurve(config: C.Config, math: PoseMath, st: State, now: nat)
    requires C.Usable(config) && Shaped(st) && IsSqrt(math.sqrt) && Decays(math.exp)
             && Bounded(config, math, st.correction)
    requires st.samples != [] && Evaluated(config, math, st, now).output.state != Held
    ensures var output := Evaluated(config, math, st, now).output;
            Distance(output.position, Curve(st.samples, output.target, config.maxExtrapolation, math).position, math)
              <= Bound(config)
  {
    var f := Evaluated(config, math, st, now);
    var ticked := Ticked(config, st, now);
    var raw := Curve(st.samples, f.output.target, config.maxExtrapolation, math);
    EvaluateKeepsBound(config, math, st, now);
    NoneIsBounded(config, math);
    var before := Adopted(config, math, st.samples, ticked.correction, st.newData, st.shown);
    ShownIsShifted(raw, before, f.state.correction, f.output.target, math);
  }

  lemma ShownIsShifted(raw: Raw, before: Correction, c: Correction, target: int, math: PoseMath)
    ensures Minus(Shown(raw, before, c, target, math).position, raw.position)
            == if before == NONE then ORIGIN else c.shift
  {
  }

  // ----- the same instant twice -------------------------------------------------------------

  lemma {:induction false} HistogramIdle(samples: seq<PoseSample>, consumed: seq<bool>, now: nat, target: int,
                                         before: seq<nat>)
    requires |consumed| == |samples| && |before| == BINS
    requires forall i :: 0 <= i < |samples| && samples[i].send <= target ==> consumed[i]
    ensures Histogram(samples, consumed, now, target, before) == before
  {
    if samples != [] {
      HistogramIdle(samples[..|samples| - 1], consumed[..|samples| - 1], now, target, before);
    }
  }

  lemma PassedTwice(st: State, now: nat, target: int, next: State)
    requires Shaped(st) && Shaped(next) && next.samples == st.samples
    requires next.consumed == Passed(st, now, target).consumed
    ensures Passed(next, now, target) == next
  {
    HistogramIdle(next.samples, next.consumed, now, target, next.histogram);
    assert Consumed(next.samples, next.consumed, target) == next.consumed;
  }

  lemma TimesIdentity(q: Quaternion)
    ensures Hamilton(q, IDENTITY) == q
  {
  }

  lemma SelfQuotient(x: real, n: real)
    requires n > 0.0 && x / n == x
    ensures n == 1.0 || x == 0.0
  {
    var u := x / n;
    assert u * n == x;
    if n != 1.0 {
      assert x * (n - 1.0) == 0.0;
      Cancel(x, 0.0, n - 1.0);
    }
  }

  lemma ScalingKeeps(q: Quaternion, norm: real)
    requires norm > 0.0 && Scaled(q, norm) == q
    ensures norm == 1.0 || (q.x == 0.0 && q.y == 0.0 && q.z == 0.0 && q.w == 0.0)
  {
    SelfQuotient(q.x, norm);
    SelfQuotient(q.y, norm);
    SelfQuotient(q.z, norm);
    SelfQuotient(q.w, norm);
  }

  lemma OnlyUnitsStay(q: Quaternion, norm: real, norm2: real)
    requires norm > 0.0 && norm * norm == norm2 && norm2 == Norm2(q) && Scaled(q, norm) == q
    ensures norm2 == 1.0
  {
    ScalingKeeps(q, norm);
    Positive(norm, norm, norm2);
  }

  /** Multiplying by the identity normalises: it changes every quaternion that is not a unit. */
  lemma IdentityKeepsUnits(q: Quaternion, math: PoseMath)
    requires IsSqrt(math.sqrt)
    ensures Multiply(q, IDENTITY, math) == q <==> Norm2(q) == 1.0
  {
    TimesIdentity(q);
    NormNonNegative(q);
    var norm2 := Norm2(q);
    var norm := math.sqrt(norm2);
    if norm2 == 1.0 {
      SqrtOfOne(math.sqrt);
      assert Scaled(q, 1.0) == q;
    } else if norm > 0.000001 {
      if Scaled(q, norm) == q {
        OnlyUnitsStay(q, norm, norm2);
      }
    } else {
      assert Norm2(IDENTITY) == 1.0;
    }
  }

  lemma NormNonNegative(q: Quaternion)
    ensures Norm2(q) >= 0.0
  {
    SquareNonNegative(q.x);
    SquareNonNegative(q.y);
    SquareNonNegative(q.z);
    SquareNonNegative(q.w);
  }

  /** The correction of this frame faded away in it. */
  predicate Vanishes(config: C.Config, math: PoseMath, st: State, now: nat)
    requires C.Usable(config) && Shaped(st) && st.samples != []
  {
    var tick := TickOf(config, st, now);
    var before := Adopted(config, math, st.samples, if tick.resync then NONE else st.correction, st.newData, st.shown);
    before != NONE && Faded(config, math, before, tick.elapsed) == NONE
  }

  lemma PlayTwice(config: C.Config, math: PoseMath, st: State, raw: Raw, elapsed: nat)
    requires IsSqrt(math.sqrt) && st.samples != []
    ensures var first := Play(config, math, st, raw, elapsed);
            var second := Play(config, math, first.state, raw, 0);
            var before := Adopted(config, math, st.samples, st.correction, st.newData, st.shown);
            && second.output.(orientation := first.output.orientation) == first.output
            && second.state == first.state.(shown := Some(second.output))
            && (second.output == first.output
                <==> before == NONE || Faded(config, math, before, elapsed) != NONE || Norm2(raw.orientation) == 1.0)
  {
    assert Plus(raw.position, ORIGIN) == raw.position;
    IdentityKeepsUnits(raw.orientation, math);
  }

  /** At the same instant the clock stays and no sample is passed again. */
  lemma TickedTwice(config: C.Config, st: State, now: nat, next: State)
    requires C.Usable(config) && Shaped(st) && Shaped(next) && st.samples != []
    requires var ticked := Ticked(config, st, now);
             && next.samples == st.samples && next.buckets == st.buckets && next.clock == ticked.clock
             && next.consumed == ticked.consumed && next.lastOffset == ticked.lastOffset
    ensures TickOf(config, next, now).elapsed == 0 && Ticked(config, next, now) == next
  {
    var tick := TickOf(config, st, now);
    assert Offset(next, now) == Offset(st, now) && Ideal(config, next, now) == Ideal(config, st, now);
    C.StepTwice(config, st.clock, Ideal(config, st, now), now);
    PassedTwice(st, now, tick.clock.playback, next);
  }

  /** A frame that is not held plays the curve at the clock's new time. */
  lemma FramePlays(config: C.Config, math: PoseMath, st: State, now: nat, raw: Raw)
    requires C.Usable(config) && Shaped(st) && st.samples != []
    requires raw == Curve(st.samples, TickOf(config, st, now).clock.playback, config.maxExtrapolation, math)
    ensures raw.state != Held ==>
              Evaluated(config, math, st, now)
              == Play(config, math, Ticked(config, st, now), raw, TickOf(config, st, now).elapsed)
    ensures raw.state == Held ==> Evaluated(config, math, st, now).output.state == Held
  {
  }

  /** A second Evaluate at the same instant changes nothing and shows the same target and position. It
      shows the same orientation unless the correction faded away in the first one and the curve's
      orientation is not a unit quaternion. */
  lemma EvaluateTwice(config: C.Config, math: PoseMath, st: State, now: nat)
    requires C.Usable(config) && Shaped(st) && IsSqrt(math.sqrt)
    requires Evaluated(config, math, st, now).output.state !in {Held, Nothing} && st.samples != []
    ensures var first := Evaluated(config, math, st, now);
            var second := Evaluated(config, math, first.state, now);
            var raw := Curve(st.samples, first.output.target, config.maxExtrapolation, math);
            && second.output.(orientation := first.output.orientation) == first.output
            && second.state == first.state.(shown := Some(second.output))
            && (second.output == first.output <==> !Vanishes(config, math, st, now) || Norm2(raw.orientation) == 1.0)
  {
    var first, tick := Evaluated(config, math, st, now), TickOf(config, st, now);
    var raw := Curve(st.samples, tick.clock.playback, config.maxExtrapolation, math);
    FramePlays(config, math, st, now, raw);
    TickedTwice(config, st, now, first.state);
    FramePlays(config, math, first.state, now, raw);
    PlayTwice(config, math, Ticked(config, st, now), raw, tick.elapsed);
  }

  /** The interpolants return unit quaternions. */
  ghost predicate Normalizes(math: PoseMath) {
    && (forall a, b, t {:trigger math.slerp(a, b, t)} :: Norm2(math.slerp(a, b, t)) == 1.0)
    && (forall q, v, t {:trigger math.turn(q, v, t)} :: Norm2(q) == 1.0 ==> Norm2(math.turn(q, v, t)) == 1.0)
  }

  /** With unit orientations in the buffer the second Evaluate shows the very same pose. */
  lemma UnitPosesRepeat(config: C.Config, math: PoseMath, st: State, now: nat)
    requires C.Usable(config) && Shaped(st) && IsSqrt(math.sqrt) && Normalizes(math)
    requires Evaluated(config, math, st, now).output.state !in {Held, Nothing} && st.samples != []
    requires forall i :: 0 <= i < |st.samples| ==> Norm2(st.samples[i].orientation) == 1.0
    ensures var first := Evaluated(config, math, st, now); Evaluated(config, math, first.state, now) == first
  {
    EvaluateTwice(config, math, st, now);
  }

  // ----- the playback clock over runs -------------------------------------------------------

  datatype Event = Push(sample: PoseSample) | Evaluate(now: nat) | Drop

  function Next(config: C.Config, math: PoseMath, st: State, e: Event): (r: State)
    requires C.Usable(config) && Shaped(st)
    ensures Shaped(r)
  {
    match e
    case Push(s) => Pushed(st, s)
    case Evaluate(now) => Evaluated(config, math, st, now).state
    case Drop => Dropped(st)
  }

  function After(config: C.Config, math: PoseMath, st: State, events: seq<Event>): (r: State)
    requires C.Usable(config) && Shaped(st)
    ensures Shaped(r)
    decreases |events|
  {
    if events == [] then st else After(config, math, Next(config, math, st, events[0]), events[1..])
  }

  /** The frame plays on from a running clock, without jumping to the ideal. */
  predicate Plays(config: C.Config, st: State, now: nat)
    requires C.Usable(config)
  {
    st.samples != [] && st.clock.running && !C.Resyncs(config, st.clock, Ideal(config, st, now), now)
  }

  predicate Smooth(config: C.Config, math: PoseMath, st: State, events: seq<Event>)
    requires C.Usable(config) && Shaped(st)
    decreases |events|
  {
    events != [] ==>
      && (events[0].Evaluate? ==> Plays(config, st, events[0].now))
      && Smooth(config, math, Next(config, math, st, events[0]), events[1..])
  }

  /** Time that passed in an event that is a frame and not held. */
  function PlayedIn(config: C.Config, math: PoseMath, st: State, e: Event): nat
    requires C.Usable(config) && Shaped(st)
  {
    if e.Evaluate? && Evaluated(config, math, st, e.now).output.state != Held then C.Elapsed(st.clock, e.now) else 0
  }

  function Played(config: C.Config, math: PoseMath, st: State, events: seq<Event>): nat
    requires C.Usable(config) && Shaped(st)
    decreases |events|
  {
    if events == [] then 0
    else PlayedIn(config, math, st, events[0]) + Played(config, math, Next(config, math, st, events[0]), events[1..])
  }

  /** What a frame does to the clock: an empty buffer stops it, a held frame puts the time back, any
      other frame keeps the step. In particular a first anchor only stays when it is not held. */
  lemma PlaybackOfFrame(config: C.Config, math: PoseMath, st: State, now: nat)
    requires C.Usable(config) && Shaped(st)
    ensures var f := Evaluated(config, math, st, now);
            && (f.state.clock.running <==> st.samples != [])
            && (st.samples == [] || f.output.state == Held ==> f.state.clock.playback == st.clock.playback)
            && (f.output.state == Held ==> f.output.target == st.clock.playback)
            && (f.output.state !in {Held, Nothing} ==> f.output.target == f.state.clock.playback)
            && (f.output.state !in {Held, Nothing} && !st.clock.running
                ==> f.state.clock.playback == Ideal(config, st, now))
            && (f.output.state == Nothing <==> st.samples == [])
  {
    if st.samples != [] {
      var ticked := Ticked(config, st, now);
      var raw := Curve(st.samples, ticked.clock.playback, config.maxExtrapolation, math);
      PlayKeepsClock(config, math, ticked, raw, TickOf(config, st, now).elapsed);
    }
  }

  lemma PlayKeepsClock(config: C.Config, math: PoseMath, st: State, raw: Raw, elapsed: nat)
    requires st.samples != []
    ensures var f := Play(config, math, st, raw, elapsed);
            f.state.clock == st.clock && f.output.target == st.clock.playback && f.output.state == raw.state
  {
  }

  lemma EventWithinWarp(config: C.Config, math: PoseMath, st: State, e: Event, w: real)
    requires C.Usable(config) && Shaped(st) && config.maxWarp <= w && config.fastWarp <= w
    requires e.Evaluate? ==> Plays(config, st, e.now)
    ensures WithinWarp(w, PlayedIn(config, math, st, e), Next(config, math, st, e).clock.playback - st.clock.playback)
  {
    StandsStill(w);
    if e.Evaluate? {
      PlaybackOfFrame(config, math, st, e.now);
      C.StepWithinWarp(config, st.clock, Ideal(config, st, e.now), e.now, w);
    }
  }

  predicate WithinWarp(w: real, played: nat, moved: int) {
    C.Share(1.0 - w, played) <= moved as real <= C.Share(1.0 + w, played)
  }

  lemma WithinWarpAdds(w: real, played: nat, moved: int, later: nat, more: int, total: nat, all: int)
    requires WithinWarp(w, played, moved) && WithinWarp(w, later, more) && total == played + later
             && all == moved + more
    ensures WithinWarp(w, total, all)
  {
    C.SharesAdd(1.0 - w, played, later);
    C.SharesAdd(1.0 + w, played, later);
  }

  lemma StandsStill(w: real)
    ensures WithinWarp(w, 0, 0)
  {
    C.SharesAdd(1.0 - w, 0, 0);
    C.SharesAdd(1.0 + w, 0, 0);
  }

  /** Over any run without resync, re-anchor or stop, whatever is pushed in between, the clock moves
      between (1-w) and (1+w) times the time of the frames that were not held. */
  lemma {:induction false} PlaybackOverRun(config: C.Config, math: PoseMath, st: State, events: seq<Event>, w: real)
    requires C.Usable(config) && Shaped(st) && Smooth(config, math, st, events) && config.maxWarp <= w
             && config.fastWarp <= w
    ensures WithinWarp(w, Played(config, math, st, events),
                       After(config, math, st, events).clock.playback - st.clock.playback)
    decreases |events|
  {
    if events == [] {
      StandsStill(w);
    } else {
      var next := FirstOfRun(config, math, st, events);
      EventWithinWarp(config, math, st, events[0], w);
      PlaybackOverRun(config, math, next, events[1..], w);
      WithinWarpAdds(w, PlayedIn(config, math, st, events[0]), next.clock.playback - st.clock.playback,
                     Played(config, math, next, events[1..]),
                     After(config, math, next, events[1..]).clock.playback - next.clock.playback,
                     Played(config, math, st, events),
                       After(config, math, st, events).clock.playback - st.clock.playback);
    }
  }

  lemma FirstOfRun(config: C.Config, math: PoseMath, st: State, events: seq<Event>) returns (next: State)
    requires C.Usable(config) && Shaped(st) && events != [] && Smooth(config, math, st, events)
    ensures next == Next(config, math, st, events[0]) && Shaped(next) && Smooth(config, math, next, events[1..])
    ensures Played(config, math, st, events)
            == PlayedIn(config, math, st, events[0]) + Played(config, math, next, events[1..])
    ensures After(config, math, st, events) == After(config, math, next, events[1..])
    ensures events[0].Evaluate? ==> Plays(config, st, events[0].now)
  {
    next := Next(config, math, st, events[0]);
  }

  /** So it never goes back while no warp exceeds real time. */
  lemma PlaybackNeverGoesBack(config: C.Config, math: PoseMath, st: State, events: seq<Event>)
    requires C.Usable(config) && Shaped(st) && Smooth(config, math, st, events) && config.maxWarp <= 1.0
             && config.fastWarp <= 1.0
    ensures st.clock.playback <= After(config, math, st, events).clock.playback
  {
    PlaybackOverRun(config, math, st, events, 1.0);
    assert C.Share(0.0, Played(config, math, st, events)) == 0.0;
  }

  // ----- what every run keeps ---------------------------------------------------------------

  /** The run so far: the unbroken trajectory, all arrivals, and which accepted samples were counted. */
  datatype History = History(segment: seq<PoseSample>, log: seq<B.Arrival>, counted: seq<nat>)

  function Recalled(config: C.Config, math: PoseMath, st: State, h: History, e: Event): History
    requires C.Usable(config) && Shaped(st)
  {
    match e
    case Push(s) =>
      if Accepts(st.samples, s) then h.(segment := Continued(h.segment, s), log := h.log + [ArrivalIn(st, s)]) else h
    case Evaluate(now) =>
      if |h.log| < |st.consumed| then h
      else
        h.(counted := h.counted + Flipped(st.consumed, Evaluated(config, math, st, now).state.consumed,
                                          |h.log| - |st.consumed|))
    case Drop => h.(segment := [])
  }

  /** The ring is the newest part of the trajectory, and the histogram has one entry for each counted sample. */
  ghost predicate Flows(samples: seq<PoseSample>, consumed: seq<bool>, histogram: seq<nat>, h: History) {
    && |consumed| == |samples| && Disciplined(samples) && samples == Newest(h.segment)
    && Ledgered(consumed, |h.log|, h.counted) && Total(histogram) == |h.counted|
  }

  /** The buckets sum up the arrivals they have kept, and every jitter is measured from the minimum of its
      window exactly when that was kept. */
  ghost predicate Clocked(buckets: seq<B.Bucket>, log: seq<B.Arrival>) { B.Keeps(buckets, log) && B.Measured(log) }

  ghost predicate Inv(config: C.Config, math: PoseMath, st: State, h: History) {
    && Shaped(st) && Flows(st.samples, st.consumed, st.histogram, h) && Clocked(st.buckets, h.log)
    && Bounded(config, math, st.correction)
  }

  lemma BlankInv(config: C.Config, math: PoseMath)
    requires IsSqrt(math.sqrt)
    ensures Inv(config, math, Blank(), History([], [], []))
  {
    NoneIsBounded(config, math);
    ZeroTotal(BINS);
    B.NothingKept();
  }

  lemma {:induction false} ZeroTotal(n: nat)
    ensures Total(seq(n, i => 0)) == 0
  {
    if n > 0 {
      assert seq(n, i => 0)[..n - 1] == seq(n - 1, i => 0);
      ZeroTotal(n - 1);
    }
  }

  lemma PushKeepsFlows(samples: seq<PoseSample>, consumed: seq<bool>, histogram: seq<nat>, h: History, s: PoseSample,
                       a: B.Arrival)
    requires Flows(samples, consumed, histogram, h) && Accepts(samples, s)
    ensures Flows(Buffered(samples, s), Flagged(samples, consumed, s), histogram,
                  h.(segment := Continued(h.segment, s), log := h.log + [a]))
  {
    BufferedKeeps(samples, s);
    BufferIsNewestOfSegment(h.segment, s);
    FlaggedKeepsLedger(samples, consumed, s, |h.log|, h.counted);
  }

  lemma PushKeepsClocked(buckets: seq<B.Bucket>, log: seq<B.Arrival>, receive: nat, offset: int, gap: nat,
                         a: B.Arrival, after: seq<B.Bucket>)
    requires Clocked(buckets, log) && a == B.ArrivalOf(buckets, receive, offset, gap) && after == B.Recorded(buckets, a)
    ensures Clocked(after, log + [a])
  {
    B.RecordKeeps(buckets, log, a);
    B.ArrivalMeasured(buckets, log, receive, offset, gap);
  }

  lemma Assembled(config: C.Config, math: PoseMath, st: State, h: History)
    requires Shaped(st) && Flows(st.samples, st.consumed, st.histogram, h) && Clocked(st.buckets, h.log)
    requires Bounded(config, math, st.correction)
    ensures Inv(config, math, st, h)
  {
  }

  lemma TakenKeepsFlows(st: State, h: History, s: PoseSample, after: State, next: History)
    requires Shaped(st) && Flows(st.samples, st.consumed, st.histogram, h) && Accepts(st.samples, s)
    requires after == Taken(st, s)
             && next == h.(segment := Continued(h.segment, s), log := h.log + [ArrivalIn(st, s)])
    ensures Flows(after.samples, after.consumed, after.histogram, next)
  {
    PushKeepsFlows(st.samples, st.consumed, st.histogram, h, s, ArrivalIn(st, s));
  }

  lemma TakenKeepsBound(config: C.Config, math: PoseMath, st: State, s: PoseSample, after: State)
    requires IsSqrt(math.sqrt) && Shaped(st) && Bounded(config, math, st.correction) && after == Taken(st, s)
    ensures Bounded(config, math, after.correction)
  {
    NoneIsBounded(config, math);
  }

  lemma TakenKeepsClocked(st: State, log: seq<B.Arrival>, s: PoseSample, buckets: seq<B.Bucket>, next: seq<B.Arrival>)
    requires Shaped(st) && Clocked(st.buckets, log)
    requires next == log + [ArrivalIn(st, s)] && buckets == B.Recorded(st.buckets, ArrivalIn(st, s))
    ensures Clocked(buckets, next)
  {
    PushKeepsClocked(st.buckets, log, s.receive, s.receive - s.send, Gap(st.samples, s), ArrivalIn(st, s), buckets);
  }

  lemma TakenKeepsInv(config: C.Config, math: PoseMath, st: State, h: History, s: PoseSample, after: State,
                      next: History)
    requires IsSqrt(math.sqrt) && Inv(config, math, st, h) && Accepts(st.samples, s) && after == Taken(st, s)
    requires next == h.(segment := Continued(h.segment, s), log := h.log + [ArrivalIn(st, s)])
    ensures Inv(config, math, after, next)
  {
    TakenKeepsFlows(st, h, s, after, next);
    TakenKeepsClocked(st, h.log, s, after.buckets, next.log);
    TakenKeepsBound(config, math, st, s, after);
    Assembled(config, math, after, next);
  }

  lemma PushKeepsInv(config: C.Config, math: PoseMath, st: State, h: History, s: PoseSample)
    requires C.Usable(config) && IsSqrt(math.sqrt) && Inv(config, math, st, h)
    ensures Inv(config, math, Pushed(st, s), Recalled(config, math, st, h, Push(s)))
  {
    if Accepts(st.samples, s) {
      TakenKeepsInv(config, math, st, h, s, Pushed(st, s), Recalled(config, math, st, h, Push(s)));
    }
  }

  lemma PassedKeepsFlows(st: State, h: History, now: nat, target: int)
    requires Shaped(st) && Flows(st.samples, st.consumed, st.histogram, h)
    ensures var after := Passed(st, now, target);
            |h.log| >= |st.consumed|
            && Flows(st.samples, after.consumed, after.histogram,
                     h.(counted := h.counted + Flipped(st.consumed, after.consumed, |h.log| - |st.consumed|)))
  {
    ConsumedKeepsLedger(st.samples, st.consumed, target, |h.log|, h.counted);
    HistogramCountsFlips(st.samples, st.consumed, now, target, st.histogram, |h.log| - |st.consumed|);
  }

  /** A frame changes the buffered part of the state only by passing samples. */
  lemma FramePasses(config: C.Config, math: PoseMath, st: State, now: nat)
    requires C.Usable(config) && Shaped(st) && st.samples != []
    ensures var after := Evaluated(config, math, st, now).state;
            var passed := Passed(st, now, TickOf(config, st, now).clock.playback);
            after.samples == st.samples && after.buckets == st.buckets && after.consumed == passed.consumed
            && after.histogram == passed.histogram
  {
  }

  lemma EvaluateKeepsInv(config: C.Config, math: PoseMath, st: State, h: History, now: nat)
    requires C.Usable(config) && IsSqrt(math.sqrt) && Decays(math.exp) && Inv(config, math, st, h)
    ensures Inv(config, math, Evaluated(config, math, st, now).state, Recalled(config, math, st, h, Evaluate(now)))
  {
    var after, recalled := Evaluated(config, math, st, now).state, Recalled(config, math, st, h, Evaluate(now));
    EvaluateKeepsBound(config, math, st, now);
    if st.samples != [] {
      FramePasses(config, math, st, now);
      PassedKeepsFlows(st, h, now, TickOf(config, st, now).clock.playback);
    } else {
      assert Flipped(st.consumed, st.consumed, |h.log| - |st.consumed|) == [];
      assert recalled == h;
    }
    Assembled(config, math, after, recalled);
  }

  /** State and history after a run. */
  function Run(config: C.Config, math: PoseMath, events: seq<Event>): (r: (State, History))
    requires C.Usable(config)
    ensures Shaped(r.0)
  {
    if events == [] then (Blank(), History([], [], []))
    else
      var (st, h) := Run(config, math, events[..|events| - 1]);
      var e := events[|events| - 1];
      (Next(config, math, st, e), Recalled(config, math, st, h, e))
  }

  lemma {:induction false} RunKeepsInv(config: C.Config, math: PoseMath, events: seq<Event>)
    requires C.Usable(config) && IsSqrt(math.sqrt) && Decays(math.exp)
    ensures Inv(config, math, Run(config, math, events).0, Run(config, math, events).1)
  {
    if events == [] {
      BlankInv(config, math);
    } else {
      var (st, h) := Run(config, math, events[..|events| - 1]);
      RunKeepsInv(config, math, events[..|events| - 1]);
      match events[|events| - 1]
      case Push(s) => PushKeepsInv(config, math, st, h, s);
      case Evaluate(now) => EvaluateKeepsInv(config, math, st, h, now);
      case Drop => NoneIsBounded(config, math);
    }
  }

  // ----- the estimates over runs ------------------------------------------------------------

  /** After any run, whatever the stamps: the offset that a frame uses is the least one of all samples of
      the last 24 seconds exactly when a sample that has it is still kept (or none is, and the newest one
      happens to have it). It is that of the newest sample when there are none. */
  lemma OffsetOfRun(config: C.Config, math: PoseMath, events: seq<Event>, now: nat)
    requires C.Usable(config) && IsSqrt(math.sqrt) && Decays(math.exp)
    ensures var (st, h) := Run(config, math, events);
            var window := B.WindowMin(h.log, B.Epoch(now));
            && (window.None? ==> Offset(st, now) == Fallback(st))
            && (window.Some? && B.AnyKept(h.log, B.Epoch(now)) ==>
                  && window.value <= Offset(st, now)
                  && (Offset(st, now) == window.value <==> B.MinimumKept(h.log, B.Epoch(now))))
            && (window.Some? && !B.AnyKept(h.log, B.Epoch(now)) ==>
                  Offset(st, now) == Fallback(st) && !B.MinimumKept(h.log, B.Epoch(now)))
  {
    var (st, h) := Run(config, math, events);
    RunKeepsInv(config, math, events);
    B.LiveIsLeastKept(st.buckets, h.log, B.Epoch(now));
    B.WindowMinimumExactly(st.buckets, h.log, B.Epoch(now));
  }

  /** The typical interval and jitter are the upper medians of the seconds from five before `now` up to `last`. */
  ghost predicate MediansOf(st: State, h: History, now: nat, last: nat)
    requires Shaped(st) && B.Epoch(now) <= last
  {
    var seconds := B.LastSeconds(h.log, last, last - B.Epoch(now) + B.RECENT_SECONDS);
    |seconds| <= B.RECENT_SECONDS ==>
      && B.IsUpperMedian(TypicalInterval(st.buckets, now), multiset(B.Intervals(seconds)))
      && B.IsUpperMedian(TypicalJitter(st.buckets, now), multiset(B.Jitters(seconds)))
  }

  lemma WindowOffset(st: State, h: History, now: nat)
    requires Shaped(st) && B.Keeps(st.buckets, h.log) && B.AllKept(h.log, B.Epoch(now), B.BUCKETS)
    ensures B.WindowMin(h.log, B.Epoch(now)).Some? ==> Offset(st, now) == B.WindowMin(h.log, B.Epoch(now)).value
  {
    B.WindowMinimum(st.buckets, h.log, B.Epoch(now));
  }

  lemma WindowMedians(st: State, h: History, now: nat, last: nat)
    requires Shaped(st) && B.Keeps(st.buckets, h.log) && B.AllKept(h.log, B.Epoch(now), B.RECENT_SECONDS)
    requires B.UpTo(h.log, last) && B.Epoch(now) <= last
    ensures MediansOf(st, h, now, last)
  {
    B.TypicalMaxima(st.buckets, h.log, B.Epoch(now), last);
  }

  /** While every sample of the window is kept, the offset is the window's minimum; while every sample of
      the last five seconds is, and at most five of the seconds since have samples, the typical interval
      and jitter are upper medians over them. */
  lemma EstimatesOfRun(config: C.Config, math: PoseMath, events: seq<Event>, now: nat, last: nat)
    requires C.Usable(config) && IsSqrt(math.sqrt) && Decays(math.exp)
    requires B.UpTo(Run(config, math, events).1.log, last) && B.Epoch(now) <= last
    ensures var (st, h) := Run(config, math, events);
            var window := B.WindowMin(h.log, B.Epoch(now));
            && (B.AllKept(h.log, B.Epoch(now), B.BUCKETS) && window.Some? ==> Offset(st, now) == window.value)
            && (B.AllKept(h.log, B.Epoch(now), B.RECENT_SECONDS) ==> MediansOf(st, h, now, last))
  {
    var (st, h) := Run(config, math, events);
    RunKeepsInv(config, math, events);
    if B.AllKept(h.log, B.Epoch(now), B.BUCKETS) {
      WindowOffset(st, h, now);
    }
    if B.AllKept(h.log, B.Epoch(now), B.RECENT_SECONDS) {
      WindowMedians(st, h, now, last);
    }
  }

  /** In particular without a stamp a turn back and at a frame not before any stamp. */
  lemma EstimatesOfSteadyRun(config: C.Config, math: PoseMath, events: seq<Event>, now: nat)
    requires C.Usable(config) && IsSqrt(math.sqrt) && Decays(math.exp)
    requires B.NoTurnBack(Run(config, math, events).1.log) && B.UpTo(Run(config, math, events).1.log, B.Epoch(now))
    ensures var (st, h) := Run(config, math, events);
            var window := B.WindowMin(h.log, B.Epoch(now));
            var seconds := B.LastSeconds(h.log, B.Epoch(now), B.RECENT_SECONDS);
            && (window.Some? ==> Offset(st, now) == window.value)
            && B.IsUpperMedian(TypicalInterval(st.buckets, now), multiset(B.Intervals(seconds)))
            && B.IsUpperMedian(TypicalJitter(st.buckets, now), multiset(B.Jitters(seconds)))
  {
    var log := Run(config, math, events).1.log;
    B.SlackIsKept(log, B.Epoch(now), 0);
    B.LastSecondsAreFew(log, B.Epoch(now), B.RECENT_SECONDS);
    EstimatesOfRun(config, math, events, now, B.Epoch(now));
  }

  /** With the stamps that the bridge lets pass, at a frame after it took the samples: the offset is never
      less than the minimum of the window and never more than any sample's of the last 19 seconds; it is
      that minimum exactly when a sample that has it is still kept. The medians hold as before, ahead by
      up to five seconds. */
  lemma EstimatesOfStampedRun(config: C.Config, math: PoseMath, events: seq<Event>, now: nat, taken: seq<nat>)
    requires C.Usable(config) && IsSqrt(math.sqrt) && Decays(math.exp)
    requires B.StampedNear(Run(config, math, events).1.log, taken) && forall k :: 0 <= k < |taken| ==> taken[k] <= now
    ensures var (st, h) := Run(config, math, events);
            var window := B.WindowMin(h.log, B.Epoch(now));
            && (window.Some? ==> window.value <= Offset(st, now))
            && (window.Some? ==> (Offset(st, now) == window.value <==> B.MinimumKept(h.log, B.Epoch(now))))
            && (forall k :: 0 <= k < |h.log| && B.InWindow(h.log[k], B.Epoch(now), B.BUCKETS - B.STAMP_SLACK) ==>
                  Offset(st, now) <= h.log[k].offset)
            && MediansOf(st, h, now, B.Epoch(now) + B.STAMP_SLACK)
  {
    var (st, h) := Run(config, math, events);
    B.NearStampsAreSteady(h.log, taken);
    B.NearStampsAreUpTo(h.log, taken, now);
    B.SlackIsKept(h.log, B.Epoch(now), B.STAMP_SLACK);
    EstimatesOfRun(config, math, events, now, B.Epoch(now) + B.STAMP_SLACK);
    OffsetOfRun(config, math, events, now);
    if B.WindowMin(h.log, B.Epoch(now)).Some? {
      B.SomeIsKept(h.log, B.Epoch(now));
    }
    RunKeepsInv(config, math, events);
    B.LiveIsLeastKept(st.buckets, h.log, B.Epoch(now));
    forall k | 0 <= k < |h.log| && B.InWindow(h.log[k], B.Epoch(now), B.BUCKETS - B.STAMP_SLACK)
      ensures Offset(st, now) <= h.log[k].offset
    {
      assert B.Kept(h.log, k) && B.InWindow(h.log[k], B.Epoch(now), B.BUCKETS);
      assert B.KeptAt(h.log, B.Epoch(now), h.log[k].offset);
    }
  }
}
