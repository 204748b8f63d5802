/** The per-peer update limiter of apps/coordinator/session.cpp: a queue of acceptance times. */
module RateLimiter {

  const WINDOW_MS := 1000

  predicate Suffix(s: seq<nat>, whole: seq<nat>) { |s| <= |whole| && s == whole[|whole| - |s|..] }

  lemma SuffixTrans(a: seq<nat>, b: seq<nat>, c: seq<nat>)
    requires Suffix(a, b) && Suffix(b, c)
    ensures Suffix(a, c)
  {
  }

  lemma SuffixAppend(a: seq<nat>, b: seq<nat>, x: nat)
    requires Suffix(a, b)
    ensures Suffix(a + [x], b + [x])
  {
  }

  predicate Expired(time: nat, now: nat) { now >= time && now - time >= WINDOW_MS }

  /** The queue after its expired front entries are popped. */
  function Expire(times: seq<nat>, now: nat): (r: seq<nat>)
    ensures Suffix(r, times)
    ensures r != [] ==> !Expired(r[0], now)
    ensures forall i :: 0 <= i < |times| - |r| ==> Expired(times[i], now)
  {
    if times != [] && Expired(times[0], now) then Expire(times[1..], now) else times
  }

  /** The popping loop. */
  method PopExpired(times: seq<nat>, now: nat) returns (kept: seq<nat>)
    ensures kept == Expire(times, now)
  {
    kept := times;
    while kept != [] && now >= kept[0] && now - kept[0] >= WINDOW_MS
      invariant Expire(kept, now) == Expire(times, now)
      decreases |kept|
    {
      kept := kept[1..];
    }
  }

  /** The queue a state leaves behind; `novel` says that its sequence number is new. */
  function Offer(times: seq<nat>, now: nat, novel: bool, maximum: nat): seq<nat> {
    var kept := Expire(times, now);
    if |kept| < maximum && novel then kept + [now] else kept
  }

  predicate Admits(times: seq<nat>, now: nat, maximum: nat) { |Expire(times, now)| < maximum }

  /** Queue and acceptance history of one peer, `clock` being the time of the last offer. */
  ghost predicate Tracks(times: seq<nat>, accepted: seq<nat>, clock: nat, maximum: nat) {
    && Suffix(times, accepted) && |times| <= maximum
    && (forall i :: 0 <= i < |accepted| ==> accepted[i] <= clock)
    && (forall i, j :: 0 <= i <= j < |accepted| ==> accepted[i] <= accepted[j])
    && (forall i :: 0 <= i < |accepted| - |times| ==> Expired(accepted[i], clock))
  }

  /** Any `maximum` + 1 consecutive accepted states span at least a second. */
  ghost predicate Spaced(accepted: seq<nat>, maximum: nat) {
    forall i: nat {:trigger SpacedAt(accepted, maximum, i)} :: i + maximum < |accepted|
      ==> SpacedAt(accepted, maximum, i)
  }

  predicate SpacedAt(accepted: seq<nat>, maximum: nat, i: nat)
    requires i + maximum < |accepted|
  {
    accepted[i + maximum] - accepted[i] >= WINDOW_MS
  }

  lemma ExpireTracks(times: seq<nat>, accepted: seq<nat>, clock: nat, now: nat, maximum: nat)
    requires Tracks(times, accepted, clock, maximum) && clock <= now
    ensures Tracks(Expire(times, now), accepted, now, maximum)
    ensures forall i :: |accepted| - |Expire(times, now)| <= i < |accepted| ==> !Expired(accepted[i], now)
  {
    var kept, n := Expire(times, now), |accepted|;
    SuffixTrans(kept, times, accepted);
    forall i | 0 <= i < n - |kept|
      ensures Expired(accepted[i], now)
    {
      if i >= n - |times| {
        assert accepted[i] == times[i - (n - |times|)];
      }
    }
    forall i | n - |kept| <= i < n
      ensures !Expired(accepted[i], now)
    {
      assert kept[0] == accepted[n - |kept|] <= accepted[i];
    }
  }

  lemma AdmittedTracks(kept: seq<nat>, accepted: seq<nat>, now: nat, maximum: nat)
    requires Tracks(kept, accepted, now, maximum) && Spaced(accepted, maximum) && |kept| < maximum
    ensures Tracks(kept + [now], accepted + [now], now, maximum) && Spaced(accepted + [now], maximum)
  {
    var n, after := |accepted|, accepted + [now];
    SuffixAppend(kept, accepted, now);
    forall i: nat | i + maximum < |after|
      ensures SpacedAt(after, maximum, i)
    {
      if i + maximum < n {
        assert SpacedAt(accepted, maximum, i);
      } else {
        assert Expired(accepted[i], now);
      }
    }
  }

  /** With a nondecreasing clock the queue stays a suffix of the history and the spacing holds; a
      state is admitted exactly when fewer than `maximum` states were accepted in the last second. */
  lemma OfferKeepsLimit(times: seq<nat>, accepted: seq<nat>, clock: nat, now: nat, novel: bool, maximum: nat)
    requires Tracks(times, accepted, clock, maximum) && Spaced(accepted, maximum) && maximum > 0 && clock <= now
    ensures var after := accepted + if Admits(times, now, maximum) && novel then [now] else [];
            Tracks(Offer(times, now, novel, maximum), after, now, maximum) && Spaced(after, maximum)
    ensures Admits(times, now, maximum) <==> |accepted| < maximum || Expired(accepted[|accepted| - maximum], now)
  {
    ExpireTracks(times, accepted, clock, now, maximum);
    if Admits(times, now, maximum) && novel {
      AdmittedTracks(Expire(times, now), accepted, now, maximum);
    } else {
      assert accepted + [] == accepted;
    }
  }

  datatype Call = Call(now: nat, novel: bool)

  predicate Steady(calls: seq<Call>) { forall i, j :: 0 <= i <= j < |calls| ==> calls[i].now <= calls[j].now }

  /** Queue and acceptance history after a run of offers. */
  datatype Run = Run(queue: seq<nat>, accepted: seq<nat>)

  function After(r: Run, c: Call, maximum: nat): Run {
    Run(Offer(r.queue, c.now, c.novel, maximum), r.accepted + if Admits(r.queue, c.now, maximum)
        && c.novel then [c.now] else [])
  }

  function RunOf(calls: seq<Call>, maximum: nat): Run {
    if calls == [] then Run([], []) else After(RunOf(calls[..|calls| - 1], maximum), calls[|calls| - 1], maximum)
  }

  function Clock(calls: seq<Call>): nat { if calls == [] then 0 else calls[|calls| - 1].now }

  /** For every run of offers under a nondecreasing clock, any `maximum` + 1 consecutive accepted
      states span at least a second, and the queue is a suffix of the acceptance history. */
  lemma {:induction false} RateIsLimited(calls: seq<Call>, maximum: nat)
    requires Steady(calls) && maximum > 0
    ensures var r := RunOf(calls, maximum);
            Tracks(r.queue, r.accepted, Clock(calls), maximum) && Spaced(r.accepted, maximum)
  {
    if calls != [] {
      var prior, c := calls[..|calls| - 1], calls[|calls| - 1];
      RateIsLimited(prior, maximum);
      var r := RunOf(prior, maximum);
      OfferKeepsLimit(r.queue, r.accepted, Clock(prior), c.now, c.novel, maximum);
    }
  }
}
