/** 32-bit serial numbers as the bridge, the sidecar and the coordinator compare them. */
module Serial {

  const MODULUS := 0x1_0000_0000
  const HALF := 0x8000_0000

  type u32 = n: int | 0 <= n < 0x1_0000_0000

  /** The half-range test on a wrapping difference. */
  predicate Newer(candidate: u32, baseline: u32) {
    var delta := (candidate - baseline) % MODULUS;
    delta != 0 && delta < HALF
  }

  /** The unwrapped number of `wire` when `previous` is the unwrapped number before it. */
  function Unwrap(previous: int, wire: u32): int {
    previous + (wire - previous) % MODULUS
  }

  /** Section 3.2 of RFC 1982: the definition of "s1 is greater than s2" for SERIAL_BITS 32. */
  lemma NewerIsRfc1982(s1: u32, s2: u32)
    ensures Newer(s1, s2) <==> (s1 < s2 && s2 - s1 > HALF) || (s1 > s2 && s1 - s2 < HALF)
  {
    if s1 < s2 {
      assert (s1 - s2) % MODULUS == s1 - s2 + MODULUS;
    } else {
      assert (s1 - s2) % MODULUS == s1 - s2;
    }
  }

  lemma ReduceDifference(a: int, b: int)
    ensures (a % MODULUS - b % MODULUS) % MODULUS == (a - b) % MODULUS
  {
    var q := a / MODULUS - b / MODULUS;
    assert a - b == q * MODULUS + (a % MODULUS - b % MODULUS);
    ModPlusMultiple(a % MODULUS - b % MODULUS, q);
  }

  lemma ModPlusMultiple(x: int, q: int)
    ensures (q * MODULUS + x) % MODULUS == x % MODULUS
  {
  }

  lemma IncrementReduced(n: int)
    ensures (n % MODULUS + 1) % MODULUS == (n + 1) % MODULUS
  {
    assert n + 1 == (n / MODULUS) * MODULUS + (n % MODULUS + 1);
    ModPlusMultiple(n % MODULUS + 1, n / MODULUS);
  }

  /** Inside half the number space the wire test decides the order of the unwrapped numbers; at
      exactly half the space neither number is newer than the other. */
  lemma NewerDecidesUnwrapped(a: int, b: int)
    requires -HALF <= a - b <= HALF
    ensures Newer(a % MODULUS, b % MODULUS) <==> 0 < a - b < HALF
  {
    ReduceDifference(a, b);
    if a < b {
      assert (a - b) % MODULUS == a - b + MODULUS;
    } else {
      assert (a - b) % MODULUS == a - b;
    }
  }

  /** An accepted wire number always moves the unwrapped number forward, by less than half the
      space, and the unwrapped number still reads as the wire number. */
  lemma UnwrapAdvances(previous: int, wire: u32)
    ensures Unwrap(previous, wire) % MODULUS == wire
    ensures Newer(wire, previous % MODULUS) <==> previous < Unwrap(previous, wire) < previous + HALF
  {
    var d := (wire - previous) % MODULUS;
    var q := (wire - previous) / MODULUS;
    assert previous + d == -q * MODULUS + wire;
    ModPlusMultiple(wire, -q);
    ReduceDifference(wire, previous);
    assert wire % MODULUS == wire;
  }

  // ----- accepted streams -------------------------------------------------------------------

  /** The unwrapped numbers of a stream of wire numbers, counted on from the first one. */
  function UnwrapAll(wire: seq<u32>): (u: seq<int>)
    ensures |u| == |wire|
  {
    if wire == [] then []
    else
      var before := UnwrapAll(wire[..|wire| - 1]);
      before + [if before == [] then wire[0] else Unwrap(before[|before| - 1], wire[|wire| - 1])]
  }

  /** The stream strictly increases in unwrapped sequence number. */
  ghost predicate Ascending(wire: seq<u32>) {
    var u := UnwrapAll(wire);
    && (forall i :: 0 <= i < |wire| ==> u[i] % MODULUS == wire[i])
    && (forall i, j :: 0 <= i < j < |wire| ==> u[i] < u[j])
  }

  /** Testing each number against the one accepted before it suffices. */
  lemma AscendingExtends(wire: seq<u32>, next: u32)
    requires Ascending(wire) && (wire != [] ==> Newer(next, wire[|wire| - 1]))
    ensures Ascending(wire + [next])
  {
    assert (wire + [next])[..|wire|] == wire;
    if wire != [] {
      UnwrapAdvances(UnwrapAll(wire)[|wire| - 1], next);
    }
  }
}
