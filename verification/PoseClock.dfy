/** bridge/remote_pose_timeline.cpp: the playback clock of one remote actor. Times are microseconds;
    floating-point fractions of them are reals, truncated where the source casts. */
module PoseClock {

  datatype Config = Config(minDelay: nat, maxDelay: nat, maxExtrapolation: nat, intervalFactor: real, jitterMargin: nat,
                           maxWarp: real, fastWarp: real, fastThreshold: nat, resyncThreshold: nat,
                           tau: real, maxPosition: real, maxRotation: real)

  /** std::clamp needs ordered bounds. */
  predicate Usable(config: Config) {
    config.minDelay <= config.maxDelay && config.maxWarp >= 0.0 && config.fastWarp >= 0.0
  }

  const DEFAULTS := Config(80_000, 350_000, 250_000, 1.0, 20_000, 0.05, 0.25, 150_000, 1_000_000, 80000.0, 2.0, 0.5236)

  datatype Clock = Clock(running: bool, playback: int, lastNow: nat)

  /** A frame's move of the clock: the time that passed, and whether it jumped to the ideal. */
  datatype Tick = Tick(clock: Clock, elapsed: nat, resync: bool)

  function Abs(x: int): nat { if x < 0 then -x else x }

  function Clamp(x: int, low: int, high: int): int { if x < low then low else if x > high then high else x }

  /** How far playback stays behind the arrival of an ideal sample. */
  function Delay(config: Config, interval: nat, jitter: nat): (delay: nat)
    requires Usable(config)
    ensures config.minDelay <= delay <= config.maxDelay
    ensures var wanted := config.intervalFactor * interval as real + jitter as real + config.jitterMargin as real;
            config.minDelay as real <= wanted <= config.maxDelay as real ==>
              delay as real <= wanted < delay as real + 1.0
  {
    var wanted := config.intervalFactor * interval as real + jitter as real + config.jitterMargin as real;
    var low, high := config.minDelay as real, config.maxDelay as real;
    (if wanted < low then low else if wanted > high then high else wanted).Floor
  }

  function Elapsed(c: Clock, now: nat): nat { if now > c.lastNow then now - c.lastNow else 0 }

  function Warp(config: Config, error: int): real {
    if Abs(error) > config.fastThreshold then config.fastWarp else config.maxWarp
  }

  /** The most the clock may slew in a frame. */
  function Limit(warp: real, elapsed: nat): (limit: nat)
    requires warp >= 0.0
    ensures limit as real <= warp * elapsed as real < limit as real + 1.0
  {
    var share := warp * elapsed as real;
    NonNegative(warp, elapsed as real, share);
    share.Floor
  }

  lemma NonNegative(a: real, b: real, p: real)
    requires a >= 0.0 && b >= 0.0 && p == a * b
    ensures p >= 0.0
  {
  }

  /** Error before slewing: the ideal against the clock moved on by the elapsed time. */
  function ErrorAt(c: Clock, ideal: int, now: nat): int { ideal - (c.playback + Elapsed(c, now)) }

  predicate Resyncs(config: Config, c: Clock, ideal: int, now: nat) {
    Abs(ErrorAt(c, ideal, now)) > config.resyncThreshold
  }

  function Step(config: Config, c: Clock, ideal: int, now: nat): Tick
    requires Usable(config)
  {
    if !c.running then Tick(Clock(true, ideal, now), 0, false)
    else
      var error := ErrorAt(c, ideal, now);
      if Resyncs(config, c, ideal, now) then Tick(Clock(true, ideal, now), Elapsed(c, now), true)
      else
        var limit: int := Limit(Warp(config, error), Elapsed(c, now));
        Tick(Clock(true, c.playback + Elapsed(c, now) + Clamp(error, -limit, limit), now), Elapsed(c, now), false)
  }

  function Share(w: real, elapsed: int): real { w * elapsed as real }

  // ----- one step ---------------------------------------------------------------------------

  /** A slewing step moves between (1-w) and (1+w) times the elapsed time. */
  lemma StepWithinWarp(config: Config, c: Clock, ideal: int, now: nat, w: real)
    requires Usable(config) && c.running && !Resyncs(config, c, ideal, now) && config.maxWarp <= w
             && config.fastWarp <= w
    ensures var t := Step(config, c, ideal, now);
            var moved := t.clock.playback - c.playback;
            Share(1.0 - w, t.elapsed) <= moved as real <= Share(1.0 + w, t.elapsed)
  {
    var t := Step(config, c, ideal, now);
    var limit := Limit(Warp(config, ErrorAt(c, ideal, now)), t.elapsed);
    assert t.elapsed - limit <= t.clock.playback - c.playback <= t.elapsed + limit;
    Spread(w, Warp(config, ErrorAt(c, ideal, now)), t.elapsed as real, limit as real);
  }

  lemma Spread(w: real, warp: real, elapsed: real, limit: real)
    requires warp <= w && elapsed >= 0.0 && limit <= warp * elapsed
    ensures (1.0 - w) * elapsed <= elapsed - limit && elapsed + limit <= (1.0 + w) * elapsed
  {
    NonNegative(w - warp, elapsed, (w - warp) * elapsed);
    assert (w - warp) * elapsed == w * elapsed - warp * elapsed;
    assert (1.0 - w) * elapsed == elapsed - w * elapsed;
    assert (1.0 + w) * elapsed == elapsed + w * elapsed;
  }

  /** Slewing only shrinks the error, by exactly the limit until nothing is left, and never past the ideal. */
  lemma SlewShrinksError(config: Config, c: Clock, ideal: int, now: nat)
    requires Usable(config) && c.running && !Resyncs(config, c, ideal, now)
    ensures var before := ErrorAt(c, ideal, now);
            var after := ideal - Step(config, c, ideal, now).clock.playback;
            var limit := Limit(Warp(config, before), Elapsed(c, now));
            && Abs(after) == (if Abs(before) > limit then Abs(before) - limit else 0)
            && (before >= 0 ==> 0 <= after <= before) && (before <= 0 ==> before <= after <= 0)
  {
  }

  /** At the same instant the clock stays where it is. */
  lemma StepTwice(config: Config, c: Clock, ideal: int, now: nat)
    requires Usable(config)
    ensures var once := Step(config, c, ideal, now);
            Step(config, once.clock, ideal, now) == Tick(once.clock, 0, false)
  {
    var once := Step(config, c, ideal, now);
    if c.running && !Resyncs(config, c, ideal, now) {
      SlewShrinksError(config, c, ideal, now);
    }
    var error := ErrorAt(once.clock, ideal, now);
    assert Abs(error) <= config.resyncThreshold;
    ZeroLimit(Warp(config, error));
  }

  lemma ZeroLimit(warp: real)
    requires warp >= 0.0
    ensures Limit(warp, 0) == 0
  {
    assert warp * 0.0 == 0.0;
  }

  // ----- a steady ideal ---------------------------------------------------------------------

  predicate Forward(from: nat, nows: seq<nat>)
    decreases |nows|
  {
    nows != [] ==> from <= nows[0] && Forward(nows[0], nows[1..])
  }

  /** Frames at the given times while the ideal stays `lag` behind the local clock. */
  function Track(config: Config, c: Clock, lag: int, nows: seq<nat>): Clock
    requires Usable(config)
    decreases |nows|
  {
    if nows == [] then c else Track(config, Step(config, c, nows[0] - lag, nows[0]).clock, lag, nows[1..])
  }

  function Behind(c: Clock, lag: int): int { c.lastNow - lag - c.playback }

  /** What all frames together could slew. */
  function Budget(config: Config, c: Clock, lag: int, nows: seq<nat>): nat
    requires Usable(config)
    decreases |nows|
  {
    if nows == [] then 0
    else
      Limit(Warp(config, Behind(c, lag)), Elapsed(c, nows[0]))
      + Budget(config, Step(config, c, nows[0] - lag, nows[0]).clock, lag, nows[1..])
  }

  /** With a steady ideal the remaining error is the initial one less the budget: it is gone exactly
      when the budget covers it, and until then it keeps its sign. */
  lemma {:induction false} ErrorDrains(config: Config, c: Clock, lag: int, nows: seq<nat>)
    requires Usable(config) && c.running && Forward(c.lastNow, nows) && Abs(Behind(c, lag)) <= config.resyncThreshold
    ensures var left := Behind(Track(config, c, lag, nows), lag);
            var budget := Budget(config, c, lag, nows);
            && Abs(left) == (if Abs(Behind(c, lag)) > budget then Abs(Behind(c, lag)) - budget else 0)
            && (left == 0 <==> budget >= Abs(Behind(c, lag)))
            && (Behind(c, lag) >= 0 ==> left >= 0) && (Behind(c, lag) <= 0 ==> left <= 0)
    decreases |nows|
  {
    if nows != [] {
      var ideal := nows[0] - lag;
      assert ErrorAt(c, ideal, nows[0]) == Behind(c, lag);
      SlewShrinksError(config, c, ideal, nows[0]);
      ErrorDrains(config, Step(config, c, ideal, nows[0]).clock, lag, nows[1..]);
    }
  }

  function Rest(error: nat, limit: nat): nat { if error > limit then error - limit else 0 }

  /** What frames at the given times can slew at one warp, each rounded down by itself. */
  function Limits(warp: real, from: nat, nows: seq<nat>): nat
    requires warp >= 0.0
    decreases |nows|
  {
    if nows == [] then 0
    else Limit(warp, if nows[0] > from then nows[0] - from else 0) + Limits(warp, nows[0], nows[1..])
  }

  /** The first `n` frames are those that start with more than the threshold left at the fast warp. */
  ghost predicate Switches(config: Config, error: nat, from: nat, nows: seq<nat>, n: nat)
    requires Usable(config)
  {
    && n <= |nows|
    && (forall m: nat {:trigger nows[..m]} ::
          m < n ==> error > config.fastThreshold + Limits(config.fastWarp, from, nows[..m]))
    && (n < |nows| ==> error <= config.fastThreshold + Limits(config.fastWarp, from, nows[..n]))
  }

  lemma {:induction false} SwitchExists(config: Config, error: nat, from: nat, nows: seq<nat>, done: nat)
    returns (n: nat)
    requires Usable(config) && done <= |nows|
    requires forall m: nat {:trigger nows[..m]} :: m < done ==>
               error > config.fastThreshold + Limits(config.fastWarp, from, nows[..m])
    ensures Switches(config, error, from, nows, n)
    decreases |nows| - done
  {
    if done == |nows| || error <= config.fastThreshold + Limits(config.fastWarp, from, nows[..done]) {
      n := done;
    } else {
      n := SwitchExists(config, error, from, nows, done + 1);
    }
  }

  /** From within the threshold the error shrinks by what the slow warp allows in each frame. */
  lemma {:induction false} SlowErrorDrains(config: Config, c: Clock, lag: int, nows: seq<nat>)
    requires Usable(config) && c.running && Forward(c.lastNow, nows)
    requires Abs(Behind(c, lag)) <= config.resyncThreshold && Abs(Behind(c, lag)) <= config.fastThreshold
    ensures Abs(Behind(Track(config, c, lag, nows), lag))
            == Rest(Abs(Behind(c, lag)), Limits(config.maxWarp, c.lastNow, nows))
    decreases |nows|
  {
    if nows != [] {
      var ideal := nows[0] - lag;
      assert ErrorAt(c, ideal, nows[0]) == Behind(c, lag);
      SlewShrinksError(config, c, ideal, nows[0]);
      SlowErrorDrains(config, Step(config, c, ideal, nows[0]).clock, lag, nows[1..]);
    }
  }

  /** With a steady ideal the error left after any frames, from the times of the frames alone: the fast
      warp's limits until the threshold is reached, the slow warp's limits from then on. */
  lemma {:induction false} ErrorInTwoPhases(config: Config, c: Clock, lag: int, nows: seq<nat>, n: nat)
    requires Usable(config) && c.running && Forward(c.lastNow, nows) && Abs(Behind(c, lag)) <= config.resyncThreshold
    requires Switches(config, Abs(Behind(c, lag)), c.lastNow, nows, n)
    ensures Abs(Behind(Track(config, c, lag, nows), lag))
            == Rest(Rest(Abs(Behind(c, lag)), Limits(config.fastWarp, c.lastNow, nows[..n])),
                    Limits(config.maxWarp, End(c.lastNow, nows[..n]), nows[n..]))
    decreases |nows|
  {
    var error := Abs(Behind(c, lag));
    assert nows[..0] == [];
    if error <= config.fastThreshold {
      assert n == 0 || nows == [];
      assert nows[n..] == nows && nows[..n] == [];
      SlowErrorDrains(config, c, lag, nows);
    } else if nows != [] {
      var next := FirstFrame(config, c, lag, nows);
      SwitchesLater(config, error, c.lastNow, nows, n);
      ErrorInTwoPhases(config, next, lag, nows[1..], n - 1);
      LimitsLater(config.fastWarp, c.lastNow, nows, n);
    }
  }

  lemma FirstFrame(config: Config, c: Clock, lag: int, nows: seq<nat>) returns (next: Clock)
    requires Usable(config) && c.running && nows != [] && Forward(c.lastNow, nows)
    requires Abs(Behind(c, lag)) <= config.resyncThreshold
    ensures next.running && next.lastNow == nows[0]
            && Track(config, c, lag, nows) == Track(config, next, lag, nows[1..])
    ensures Abs(Behind(next, lag))
            == Rest(Abs(Behind(c, lag)), Limit(Warp(config, Behind(c, lag)), nows[0] - c.lastNow))
  {
    var ideal := nows[0] - lag;
    assert ErrorAt(c, ideal, nows[0]) == Behind(c, lag);
    SlewShrinksError(config, c, ideal, nows[0]);
    next := Step(config, c, ideal, nows[0]).clock;
  }

  lemma LimitsLater(warp: real, from: nat, nows: seq<nat>, n: nat)
    requires warp >= 0.0 && 0 < n <= |nows| && from <= nows[0]
    ensures Limits(warp, from, nows[..n]) == Limit(warp, nows[0] - from) + Limits(warp, nows[0], nows[1..][..n - 1])
    ensures nows[1..][n - 1..] == nows[n..] && End(nows[0], nows[1..][..n - 1]) == End(from, nows[..n])
  {
    assert nows[..n][1..] == nows[1..][..n - 1];
  }

  lemma SwitchesLater(config: Config, error: nat, from: nat, nows: seq<nat>, n: nat)
    requires Usable(config) && nows != [] && error > config.fastThreshold && from <= nows[0]
    requires Switches(config, error, from, nows, n)
    ensures n > 0 && Switches(config, Rest(error, Limit(config.fastWarp, nows[0] - from)), nows[0], nows[1..], n - 1)
  {
    assert nows[..0] == [];
    forall m: nat | m <= |nows| - 1
      ensures Limits(config.fastWarp, from, nows[..m + 1])
              == Limit(config.fastWarp, nows[0] - from) + Limits(config.fastWarp, nows[0], nows[1..][..m])
    {
      LimitsLater(config.fastWarp, from, nows, m + 1);
    }
  }

  /** So a caller that knows the frame times can tell when a steady ideal is reached. */
  lemma SteadyIdealReachedExactly(config: Config, c: Clock, lag: int, nows: seq<nat>, n: nat)
    requires Usable(config) && c.running && Forward(c.lastNow, nows) && Abs(Behind(c, lag)) <= config.resyncThreshold
    requires Switches(config, Abs(Behind(c, lag)), c.lastNow, nows, n)
    ensures Behind(Track(config, c, lag, nows), lag) == 0
            <==> Abs(Behind(c, lag)) <= Limits(config.fastWarp, c.lastNow, nows[..n])
                                        + Limits(config.maxWarp, End(c.lastNow, nows[..n]), nows[n..])
    ensures Abs(Behind(c, lag)) <= config.fastThreshold ==>
              (Behind(Track(config, c, lag, nows), lag) == 0
               <==> Abs(Behind(c, lag)) <= Limits(config.maxWarp, c.lastNow, nows))
  {
    ErrorInTwoPhases(config, c, lag, nows, n);
    if Abs(Behind(c, lag)) <= config.fastThreshold {
      SlowErrorDrains(config, c, lag, nows);
    }
  }

  /** Frames long enough to slew at all. */
  predicate Coarse(w: real, from: nat, nows: seq<nat>)
    decreases |nows|
  {
    nows != [] ==> from <= nows[0] && Share(w, nows[0] - from) >= 1.0 && Coarse(w, nows[0], nows[1..])
  }

  function End(from: nat, nows: seq<nat>): nat { if nows == [] then from else nows[|nows| - 1] }

  /** Each such frame slews at least half its share. */
  lemma {:induction false} BudgetGrows(config: Config, c: Clock, lag: int, nows: seq<nat>, w: real)
    requires Usable(config) && 0.0 <= w <= config.maxWarp && w <= config.fastWarp
    requires c.running && Coarse(w, c.lastNow, nows) && Abs(Behind(c, lag)) <= config.resyncThreshold
    ensures Share(w, End(c.lastNow, nows) - c.lastNow) <= 2.0 * Budget(config, c, lag, nows) as real
    decreases |nows|
  {
    if nows != [] {
      var ideal, elapsed := nows[0] - lag, Elapsed(c, nows[0]);
      assert ErrorAt(c, ideal, nows[0]) == Behind(c, lag);
      SlewShrinksError(config, c, ideal, nows[0]);
      var next := Step(config, c, ideal, nows[0]).clock;
      BudgetGrows(config, next, lag, nows[1..], w);
      assert elapsed == nows[0] - c.lastNow;
      HalfTheShare(Warp(config, Behind(c, lag)), elapsed, w);
      assert End(next.lastNow, nows[1..]) == End(c.lastNow, nows);
      var later := End(c.lastNow, nows) - next.lastNow;
      SharesAdd(w, elapsed, later);
      HalvesAdd(Share(w, elapsed), Share(w, later), Limit(Warp(config, Behind(c, lag)), elapsed),
                Budget(config, next, lag, nows[1..]));
    } else {
      SharesAdd(w, 0, 0);
    }
  }

  lemma HalvesAdd(a: real, b: real, m: nat, n: nat)
    requires a <= 2.0 * m as real && b <= 2.0 * n as real
    ensures a + b <= 2.0 * (m + n) as real
  {
  }

  lemma HalfTheShare(warp: real, elapsed: nat, w: real)
    requires 0.0 <= w <= warp && Share(w, elapsed) >= 1.0
    ensures Share(w, elapsed) <= 2.0 * Limit(warp, elapsed) as real
  {
    LargerShare(w, warp, elapsed as real);
    RoundedHalf(Share(w, elapsed), warp * elapsed as real, Limit(warp, elapsed));
  }

  lemma RoundedHalf(share: real, larger: real, limit: nat)
    requires 1.0 <= share <= larger < limit as real + 1.0
    ensures share <= 2.0 * limit as real
  {
  }

  lemma NoWholeMicrosecond(warp: real, elapsed: nat, w: real)
    requires 0.0 <= warp <= w && Share(w, elapsed) < 1.0
    ensures Limit(warp, elapsed) == 0
  {
    LargerShare(warp, w, elapsed as real);
    RoundedNothing(warp * elapsed as real, Limit(warp, elapsed));
  }

  lemma RoundedNothing(share: real, limit: nat)
    requires limit as real <= share < 1.0
    ensures limit == 0
  {
  }

  lemma LargerShare(w: real, warp: real, elapsed: real)
    requires w <= warp && elapsed >= 0.0
    ensures w * elapsed <= warp * elapsed
  {
    NonNegative(warp - w, elapsed, (warp - w) * elapsed);
    assert (warp - w) * elapsed == warp * elapsed - w * elapsed;
  }

  lemma SharesAdd(w: real, a: int, b: int)
    ensures Share(w, a + b) == Share(w, a) + Share(w, b)
  {
    assert (a + b) as real == a as real + b as real;
  }

  /** A steady ideal is reached after a bounded time: no later than twice the error over the warp. */
  lemma SteadyIdealIsReached(config: Config, c: Clock, lag: int, nows: seq<nat>, w: real)
    requires Usable(config) && 0.0 <= w <= config.maxWarp && w <= config.fastWarp
    requires c.running && Coarse(w, c.lastNow, nows) && Abs(Behind(c, lag)) <= config.resyncThreshold
    requires Share(w, End(c.lastNow, nows) - c.lastNow) >= 2.0 * Abs(Behind(c, lag)) as real
    ensures Behind(Track(config, c, lag, nows), lag) == 0
  {
    CoarseIsForward(w, c.lastNow, nows);
    BudgetGrows(config, c, lag, nows, w);
    ErrorDrains(config, c, lag, nows);
  }

  lemma {:induction false} CoarseIsForward(w: real, from: nat, nows: seq<nat>)
    requires Coarse(w, from, nows)
    ensures Forward(from, nows)
    decreases |nows|
  {
    if nows != [] {
      CoarseIsForward(w, nows[0], nows[1..]);
    }
  }

  /** Frames too short to slew by a whole microsecond. */
  predicate Fine(w: real, from: nat, nows: seq<nat>)
    decreases |nows|
  {
    nows != [] ==> from <= nows[0] && Share(w, nows[0] - from) < 1.0 && Fine(w, nows[0], nows[1..])
  }

  /** The bound on the frames is needed: with shorter ones the error never changes. */
  lemma {:induction false} FineFramesNeverConverge(config: Config, c: Clock, lag: int, nows: seq<nat>, w: real)
    requires Usable(config) && Warp(config, Behind(c, lag)) <= w
    requires c.running && Fine(w, c.lastNow, nows) && Abs(Behind(c, lag)) <= config.resyncThreshold
    ensures Behind(Track(config, c, lag, nows), lag) == Behind(c, lag)
    decreases |nows|
  {
    if nows != [] {
      var ideal, elapsed := nows[0] - lag, Elapsed(c, nows[0]);
      assert ErrorAt(c, ideal, nows[0]) == Behind(c, lag);
      assert elapsed == nows[0] - c.lastNow;
      NoWholeMicrosecond(Warp(config, Behind(c, lag)), elapsed, w);
      FineFramesNeverConverge(config, Step(config, c, ideal, nows[0]).clock, lag, nows[1..], w);
    }
  }

  /** Frames under twenty microseconds are too short for the default settings: a clock 7 us behind stays behind. */
  lemma DefaultFramesStall(nows: seq<nat>)
    requires Fine(0.05, 0, nows)
    ensures Usable(DEFAULTS) && Behind(Track(DEFAULTS, Clock(true, 0, 0), -7, nows), -7) == 7
  {
    FineFramesNeverConverge(DEFAULTS, Clock(true, 0, 0), -7, nows, 0.05);
  }
}
