/** bridge/remote_pose_timeline.cpp: the timeline in place, proved against the functions of PoseTimeline.
    Statistics other than the latency histogram are not part of this model. */
module PoseTimelineClass {
  import opened Options
  import opened MatrixQuaternion
  import opened PoseTrajectory
  import opened PoseTimeline
  import B = PoseBuckets
  import C = PoseClock
  import Ring
  import Serial

  const EMPTY := PoseSample(0, 0, 0, 0, false, true, ORIGIN, IDENTITY, ORIGIN, ORIGIN)

  class RemotePoseTimeline {
    const config: C.Config
    const math: PoseMath
    const ring: array<PoseSample>
    const consumed: array<bool>
    const buckets: array<B.Bucket>
    const histogram: array<nat>
    var head: nat
    var count: nat
    var hasLast: bool
    var lastSend: nat
    var lastSequence: Serial.u32
    var lastRoom: int
    var lastOffset: int
    var havePlayback: bool
    var playback: int
    var lastNow: nat
    var newData: bool
    var haveOutput: bool
    var lastOutput: Output
    var correction: Correction

    ghost predicate Shape()
      reads this`head, this`count
    {
      && ring.Length == CAPACITY && consumed.Length == CAPACITY && buckets.Length == B.BUCKETS
         && histogram.Length == BINS
      && head < CAPACITY && count <= CAPACITY && C.Usable(config)
    }

    ghost function Samples(): (r: seq<PoseSample>)
      requires Shape()
      reads this`head, this`count, ring
      ensures |r| == count
    {
      Ring.View(ring[..], head, count)
    }

    ghost function Flags(): (r: seq<bool>)
      requires Shape()
      reads this`head, this`count, consumed
      ensures |r| == count
    {
      Ring.View(consumed[..], head, count)
    }

    ghost function Abs(): (st: State)
      requires Shape()
      reads this, ring, consumed, buckets, histogram
      ensures Shaped(st)
    {
      State(Samples(), Flags(), buckets[..], lastOffset, C.Clock(havePlayback, playback, lastNow), newData,
            if haveOutput then Some(lastOutput) else None, correction, histogram[..])
    }

    /** The last-sample fields mirror the newest buffered sample. */
    ghost predicate Mirrors()
      requires Shape()
      reads this, ring
    {
      && (hasLast <==> count > 0)
      && (hasLast ==>
            && lastSend == Samples()[count - 1].send && lastSequence == Samples()[count - 1].sequence
            && lastRoom == Samples()[count - 1].room)
    }

    ghost predicate Valid()
      reads this, ring
    {
      Shape() && Disciplined(Samples()) && Mirrors()
    }

    constructor (config: C.Config, math: PoseMath)
      requires C.Usable(config)
      ensures Valid() && Abs() == Blank() && this.config == config && this.math == math
      ensures fresh(ring) && fresh(consumed) && fresh(buckets) && fresh(histogram)
    {
      this.config, this.math := config, math;
      ring := new PoseSample[CAPACITY](_ => EMPTY);
      consumed := new bool[CAPACITY](_ => false);
      buckets := new B.Bucket[B.BUCKETS](_ => B.BLANK);
      histogram := new nat[BINS](_ => 0);
      head, count, hasLast, lastSend, lastSequence, lastRoom, lastOffset := 0, 0, false, 0, 0, 0, 0;
      havePlayback, playback, lastNow, newData, haveOutput, lastOutput := false, 0, 0, false, false, NOTHING;
      correction := NONE;
      new;
      assert buckets[..] == Blank().buckets && histogram[..] == Blank().histogram;
    }

    method ClearFlags()
      modifies consumed
      ensures forall i :: 0 <= i < consumed.Length ==> !consumed[i]
    {
      forall i | 0 <= i < consumed.Length {
        consumed[i] := false;
      }
    }

    /** Drops the trajectory and keeps the clock. */
    method ResetSamples()
      requires Shape()
      modifies this, consumed
      ensures Valid() && count == 0 && Abs() == Dropped(old(Abs()))
    {
      head, count := 0, 0;
      ClearFlags();
      hasLast, newData, haveOutput := false, false, false;
      correction := NONE;
      assert Samples() == [] && Flags() == [];
    }

    method DropOldest()
      requires Shape() && count > 0
      modifies this`head, this`count
      ensures Shape() && Samples() == old(Samples())[1..] && Flags() == old(Flags())[1..]
    {
      Ring.DropRemovesFirst(ring[..], head, count);
      Ring.DropRemovesFirst(consumed[..], head, count);
      Ring.SlotIsModulo(CAPACITY, head, 1);
      head := (head + 1) % CAPACITY;
      count := count - 1;
    }

    method Store(s: PoseSample)
      requires Shape() && count < CAPACITY
      modifies this`count, ring, consumed
      ensures Shape() && Samples() == old(Samples()) + [s] && Flags() == old(Flags()) + [false]
    {
      Ring.PushAppends(ring[..], head, count, s);
      Ring.PushAppends(consumed[..], head, count, false);
      Ring.SlotIsModulo(CAPACITY, head, count);
      var slot := (head + count) % CAPACITY;
      ghost var cells, flags := ring[..], consumed[..];
      ring[slot] := s;
      consumed[slot] := false;
      assert ring[..] == cells[slot := s] && consumed[..] == flags[slot := false];
      count := count + 1;
    }

    /** Puts a sample behind the newest one, over the oldest one when the ring is full. */
    method Place(s: PoseSample)
      requires Shape() && (count > 0 ==> !Cuts(Samples(), s))
      modifies this`head, this`count, ring, consumed
      ensures Shape() && count > 0 && Samples()[count - 1] == s
      ensures Samples() == Buffered(old(Samples()), s) && Flags() == Flagged(old(Samples()), old(Flags()), s)
    {
      if count == CAPACITY {
        DropOldest();
      }
      Store(s);
    }

    method Remember(s: PoseSample)
      requires Shape() && count > 0 && Samples()[count - 1] == s
      modifies this`lastSend, this`lastSequence, this`lastRoom, this`hasLast, this`newData
      ensures Shape() && Mirrors() && newData
    {
      lastSend, lastSequence, lastRoom, hasLast, newData := s.send, s.sequence, s.room, true, true;
    }

    method Append(s: PoseSample)
      requires Shape() && (count > 0 ==> !Cuts(Samples(), s))
      modifies this`head, this`count, this`lastSend, this`lastSequence, this`lastRoom, this`hasLast, this`newData,
               ring, consumed
      ensures Shape() && Mirrors() && Abs() == Appended(old(Abs()), s)
    {
      Place(s);
      Remember(s);
    }

    method Push(s: PoseSample) returns (accepted: bool)
      requires Valid()
      modifies this, ring, consumed, buckets
      ensures Valid() && accepted == Accepts(old(Samples()), s) && Abs() == Pushed(old(Abs()), s)
    {
      if !s.finite || s.receive == 0 {
        return false;
      }
      if hasLast {
        if !Serial.Newer(s.sequence, lastSequence) || s.send <= lastSend {
          return false;
        }
      }
      Take(s);
      accepted := true;
    }

    /** The rest of Push, for a sample it accepts. */
    method Take(s: PoseSample)
      requires Valid() && Accepts(Samples(), s)
      modifies this, ring, consumed, buckets
      ensures Valid() && Abs() == Taken(old(Abs()), s)
    {
      ghost var st := Abs();
      BufferedKeeps(st.samples, s);
      B.Record(buckets, s.receive, s.receive - s.send, if hasLast then s.send - lastSend else 0);
      ghost var recorded := Abs();
      TakenInSteps(st, s, recorded);
      if s.teleport || (hasLast && s.room != lastRoom) {
        ResetSamples();
      }
      Append(s);
    }
  
    method OffsetEstimate(now: nat) returns (offset: int)
      requires Shape()
      ensures offset == Offset(Abs(), now)
    {
      var floor := B.LiveMinimum(buckets, B.Epoch(now));
      if floor.Some? {
        return floor.value;
      }
      if count != 0 {
        var newest := At(count - 1);
        return newest.receive - newest.send;
      }
      offset := lastOffset;
    }

    method At(index: nat) returns (s: PoseSample)
      requires Shape() && index < count
      ensures s == Samples()[index]
    {
      Ring.SlotIsModulo(CAPACITY, head, index);
      s := ring[(head + index) % CAPACITY];
    }

    method EvaluateRaw(target: int) returns (raw: Raw)
      requires Valid() && count > 0
      ensures raw == Curve(Samples(), target, config.maxExtrapolation, math)
    {
      var oldest := At(0);
      var newest := At(count - 1);
      if target <= oldest.send {
        return Raw(Interpolated, oldest.position, oldest.orientation, oldest.sequence);
      }
      if target >= newest.send {
        var beyond := target - newest.send;
        if beyond <= config.maxExtrapolation {
          return Extrapolate(newest, beyond, Extrapolated, math);
        }
        return Extrapolate(newest, config.maxExtrapolation, Held, math);
      }
      raw := Interpolate(target);
    }

    /** The loop over the buffered samples finds the bracketing pair; its fallback cannot be reached. */
    method Interpolate(target: int) returns (raw: Raw)
      requires Valid() && count > 0 && Samples()[0].send < target < Samples()[count - 1].send
      ensures raw == Curve(Samples(), target, config.maxExtrapolation, math)
    {
      var index := 1;
      while index < count
        invariant 1 <= index < count && Samples()[index - 1].send < target
        invariant BracketFrom(Samples(), target, 1) == BracketFrom(Samples(), target, index)
      {
        var first := At(index - 1);
        var second := At(index);
        if target <= second.send {
          return Between(first, second, target, math);
        }
        index := index + 1;
      }
      assert false;
    }

    /** Marks the samples the target has passed and counts each once. */
    method RecordLatency(now: nat, target: int)
      requires Valid()
      modifies consumed, histogram
      ensures Abs() == Passed(old(Abs()), now, target)
    {
      CountPassed(now, target);
    }

    method CountPassed(now: nat, target: int)
      requires Valid()
      modifies consumed, histogram
      ensures Flags() == Consumed(Samples(), old(Flags()), target)
      ensures histogram[..] == Histogram(Samples(), old(Flags()), now, target, old(histogram[..]))
    {
      ghost var samples, flags, bins := Samples(), Flags(), histogram[..];
      var index := 0;
      while index < count
        invariant 0 <= index <= count && Samples() == samples
        invariant PassedTo(samples, flags, now, target, bins, index, Flags(), histogram[..])
      {
        var more := PassNext(index, now, target, flags, bins);
        if !more {
          break;
        }
        index := index + 1;
      }
      PassEnds(samples, flags, now, target, bins, index, Flags(), histogram[..]);
    }

    /** One turn of the loop: stops at the first sample beyond the target. */
    method PassNext(index: nat, now: nat, target: int, ghost flags: seq<bool>, ghost bins: seq<nat>)
      returns (more: bool)
      requires Shape() && index < count && |flags| == count && |bins| == BINS
      requires PassedTo(Samples(), flags, now, target, bins, index, Flags(), histogram[..])
      modifies consumed, histogram
      ensures more == (Samples()[index].send <= target)
      ensures PassedTo(Samples(), flags, now, target, bins, if more then index + 1 else index, Flags(), histogram[..])
    {
      var sample := At(index);
      if sample.send > target {
        return false;
      }
      PassOne(Samples(), flags, now, target, bins, index, Flags(), histogram[..]);
      RecordOne(index, sample, now);
      more := true;
    }

    method RecordOne(index: nat, sample: PoseSample, now: nat)
      requires Shape() && index < count
      modifies consumed, histogram
      ensures Flags() == old(Flags())[index := true]
      ensures histogram[..] == if old(Flags())[index] then old(histogram[..])
                               else
                                 old(histogram[..])[Bin(sample.receive,
                                                        now) := old(histogram[..])[Bin(sample.receive, now)] + 1]
    {
      Ring.SlotIsModulo(CAPACITY, head, index);
      var slot := (head + index) % CAPACITY;
      if !consumed[slot] {
        Ring.UpdateReplaces(consumed[..], head, count, index, true);
        ghost var flags, bins := consumed[..], histogram[..];
        consumed[slot] := true;
        assert consumed[..] == flags[slot := true];
        var latency := if now > sample.receive then now - sample.receive else 0;
        var bin := if latency / BIN_US < BINS then latency / BIN_US else BINS - 1;
        histogram[bin] := histogram[bin] + 1;
      }
    }
  
    /** Moves the playback clock towards the ideal; a jump clears the correction. */
    method AdvanceClock(ideal: int, now: nat) returns (elapsed: nat)
      requires C.Usable(config)
      modifies this`havePlayback, this`playback, this`lastNow, this`correction
      ensures var tick := C.Step(config, C.Clock(old(havePlayback), old(playback), old(lastNow)), ideal, now);
              && C.Clock(havePlayback, playback, lastNow) == tick.clock && elapsed == tick.elapsed
              && correction == if tick.resync then NONE else old(correction)
    {
      elapsed := 0;
      if !havePlayback {
        playback := ideal;
        havePlayback := true;
      } else {
        elapsed := if now > lastNow then now - lastNow else 0;
        playback := playback + elapsed;
        var error := ideal - playback;
        var magnitude := if error < 0 then -error else error;
        if magnitude > config.resyncThreshold {
          playback := ideal;
          correction := NONE;
        } else {
          var warp := if magnitude > config.fastThreshold then config.fastWarp else config.maxWarp;
          var limit: int := C.Limit(warp, elapsed);
          playback := playback + C.Clamp(error, -limit, limit);
        }
      }
      lastNow := now;
    }

    /** Where playback should be, and the clock's move towards it. */
    method StepClock(now: nat) returns (elapsed: nat)
      requires Shape() && count > 0
      modifies this`lastOffset, this`havePlayback, this`playback, this`lastNow, this`correction
      ensures var tick := TickOf(config, old(Abs()), now);
              && C.Clock(havePlayback, playback, lastNow) == tick.clock && elapsed == tick.elapsed
              && correction == (if tick.resync then NONE else old(correction)) && lastOffset == Offset(old(Abs()), now)
    {
      lastOffset := OffsetEstimate(now);
      var interval, jitter := B.RecentMaxima(buckets, B.Epoch(now));
      var ideal := now - lastOffset - C.Delay(config, interval, jitter);
      elapsed := AdvanceClock(ideal, now);
    }

    method MoveClock(now: nat) returns (elapsed: nat)
      requires Shape() && count > 0
      modifies this`lastOffset, this`havePlayback, this`playback, this`lastNow, this`correction
      ensures Abs() == Moved(config, old(Abs()), now) && elapsed == TickOf(config, old(Abs()), now).elapsed
    {
      elapsed := StepClock(now);
    }

    /** The first part of Evaluate: clock, curve and latencies. */
    method Begin(now: nat) returns (raw: Raw, elapsed: nat)
      requires Valid() && count > 0
      modifies this`lastOffset, this`havePlayback, this`playback, this`lastNow, this`correction, consumed, histogram
      ensures Valid() && Abs() == Ticked(config, old(Abs()), now)
      ensures elapsed == TickOf(config, old(Abs()), now).elapsed
      ensures raw == Curve(Samples(), playback, config.maxExtrapolation, math)
    {
      elapsed := MoveClock(now);
      raw := EvaluateRaw(playback);
      RecordLatency(now, playback);
    }

    method HoldPose(raw: Raw, previous: int) returns (output: Output)
      requires Valid()
      modifies this`playback, this`lastOutput, this`haveOutput
      ensures Valid() && Frame(Abs(), output) == Hold(old(Abs()), raw, previous)
    {
      playback := previous;
      if haveOutput {
        output := Output(Held, lastOutput.position, lastOutput.orientation, raw.sequence, previous);
      } else {
        output := Output(Held, raw.position, raw.orientation, raw.sequence, previous);
      }
      lastOutput, haveOutput := output, true;
    }

    /** Takes up the error that new data makes at the previous target, unless it is too large to smooth. */
    method Adopt()
      requires Valid() && count > 0
      modifies this`newData, this`correction
      ensures Valid() && !newData
      ensures correction == Adopted(config, math, Samples(), old(correction), old(newData), if haveOutput
                                    then Some(lastOutput) else None)
    {
      if newData {
        newData := false;
        if haveOutput {
          var previous := EvaluateRaw(lastOutput.target);
          if Distance(lastOutput.position, previous.position, math) <= config.maxPosition
             && math.angle(lastOutput.orientation, previous.orientation) <= config.maxRotation {
            correction := Correction(Minus(lastOutput.position, previous.position),
                                     Multiply(Conjugate(previous.orientation), lastOutput.orientation, math));
          } else {
            correction := NONE;
          }
        }
      }
    }

    method PlayPose(raw: Raw, elapsed: nat) returns (output: Output)
      requires Valid() && count > 0
      modifies this`newData, this`correction, this`lastOutput, this`haveOutput
      ensures Valid() && Frame(Abs(), output) == Play(config, math, old(Abs()), raw, elapsed)
    {
      Adopt();
      output := Correct(raw, elapsed);
      lastOutput, haveOutput := output, true;
    }

    /** Fades a correction and adds it to the curve. */
    method Correct(raw: Raw, elapsed: nat) returns (output: Output)
      modifies this`correction
      ensures correction == Faded(config, math, old(correction), elapsed)
      ensures output == Shown(raw, old(correction), correction, playback, math)
    {
      if correction != NONE {
        if elapsed > 0 && config.tau > 0.0 {
          Fade(elapsed);
        }
        output := Output(raw.state, Plus(raw.position, correction.shift),
                         Multiply(raw.orientation, correction.twist, math),
                         raw.sequence, playback);
      } else {
        output := Output(raw.state, raw.position, raw.orientation, raw.sequence, playback);
      }
    }

    method Fade(elapsed: nat)
      requires correction != NONE && elapsed > 0 && config.tau > 0.0
      modifies this`correction
      ensures correction == Faded(config, math, old(correction), elapsed)
    {
      var decay := math.exp(-(elapsed as real) / config.tau);
      var twist := math.slerp(IDENTITY, correction.twist, decay);
      if math.angle(IDENTITY, twist) < TINY {
        twist := IDENTITY;
      }
      correction := Correction(Vec3(FadedAxis(correction.shift.x, decay), FadedAxis(correction.shift.y, decay),
                                    FadedAxis(correction.shift.z, decay)), twist);
    }

    method Evaluate(now: nat) returns (output: Output)
      requires Valid()
      modifies this, consumed, histogram
      ensures Valid() && Frame(Abs(), output) == Evaluated(config, math, old(Abs()), now)
    {
      if count == 0 {
        havePlayback, haveOutput := false, false;
        return NOTHING;
      }
      var previous := playback;
      var raw, elapsed := Begin(now);
      if raw.state == Held {
        output := HoldPose(raw, previous);
      } else {
        output := PlayPose(raw, elapsed);
      }
    }
  }
}
