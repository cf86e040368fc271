/** The reconnect delay of peering/peering.go, in nanoseconds. */
module Backoff {

  const SECOND := 1_000_000_000
  const MAX_BACKOFF := 600 * SECOND
  const MAX_BACKOFF_JITTER := 10                       // percent
  const INITIAL_DELAY := 5 * SECOND
  const JITTER_RANGE := MAX_BACKOFF * MAX_BACKOFF_JITTER / 100
  const INT64_LIMIT := 0x8000_0000_0000_0000

  /** A delay that a handler can hold between calls. */
  predicate InRange(delay: int) { INITIAL_DELAY <= delay <= MAX_BACKOFF }

  /** rand.Int63n: panics unless its bound is positive. */
  method Int63n(n: int) returns (r: int)
    requires 0 < n < INT64_LIMIT
    ensures 0 <= r < n
  {
    r :| 0 <= r < n;
  }

  /** The next delay for two draws; a draw that is not made is ignored. */
  function NextDelay(delay: int, grow: int, jitter: int): (r: int)
  {
    var grown := if delay < MAX_BACKOFF then delay + delay / 2 + grow else delay;
    if grown > MAX_BACKOFF then MAX_BACKOFF - jitter else grown
  }

  predicate LegalDraws(delay: int, grow: int, jitter: int) { 0 <= grow < delay && 0 <= jitter < JITTER_RANGE }

  /** Exactly the delays that can follow one.  Below the maximum it grows by half to one and a
      half of itself, or is put into the last tenth once that takes it over the maximum. */
  lemma NextDelayExact(delay: int, next: int)
    requires InRange(delay)
    ensures (exists grow, jitter :: LegalDraws(delay, grow, jitter) && next == NextDelay(delay, grow, jitter)) <==>
              if delay == MAX_BACKOFF then next == MAX_BACKOFF
              else
                || (delay + delay / 2 <= next < 2 * delay + delay / 2 && next <= MAX_BACKOFF)
                || (2 * delay + delay / 2 - 1 > MAX_BACKOFF && MAX_BACKOFF - JITTER_RANGE < next <= MAX_BACKOFF)
  {
    if delay == MAX_BACKOFF {
      assert LegalDraws(delay, 0, 0) && NextDelay(delay, 0, 0) == MAX_BACKOFF;
    } else if delay + delay / 2 <= next < 2 * delay + delay / 2 && next <= MAX_BACKOFF {
      var grow := next - delay - delay / 2;
      assert LegalDraws(delay, grow, 0) && NextDelay(delay, grow, 0) == next;
    } else if 2 * delay + delay / 2 - 1 > MAX_BACKOFF && MAX_BACKOFF - JITTER_RANGE < next <= MAX_BACKOFF {
      assert LegalDraws(delay, delay - 1, MAX_BACKOFF - next);
      assert NextDelay(delay, delay - 1, MAX_BACKOFF - next) == next;
    }
  }

  class PeerHandler {
    var nextDelay: int

    constructor ()
      ensures nextDelay == INITIAL_DELAY
    {
      nextDelay := INITIAL_DELAY;
    }

    /** nextBackoff: every random call is legal, nothing overflows, and the range is kept. */
    method NextBackoff() returns (delay: int)
      requires InRange(nextDelay)
      modifies this
      ensures exists grow, jitter ::
                LegalDraws(old(nextDelay), grow, jitter) && delay == NextDelay(old(nextDelay), grow, jitter)
      ensures delay == nextDelay && InRange(delay) && 7_500_000_000 <= delay <= 600_000_000_000
    {
      ghost var grow, jitter := 0, 0;
      if nextDelay < MAX_BACKOFF {
        var r := Int63n(nextDelay);
        grow := r;
        assert nextDelay + (nextDelay / 2 + r) < INT64_LIMIT;
        nextDelay := nextDelay + (nextDelay / 2 + r);
      }
      if nextDelay > MAX_BACKOFF {
        nextDelay := MAX_BACKOFF;
        var r := Int63n(MAX_BACKOFF * MAX_BACKOFF_JITTER / 100);
        jitter := r;
        nextDelay := nextDelay - r;
      }
      delay := nextDelay;
      assert LegalDraws(old(nextDelay), grow, jitter) && delay == NextDelay(old(nextDelay), grow, jitter);
    }
  }

  // ------------------------------------------------------------------ over any run of draws

  /** The delay after the calls with the given draws, from a reset. */
  ghost function DelayAfter(draws: seq<(int, int)>): (d: int)
  {
    if draws == [] then INITIAL_DELAY
    else
      var last := draws[|draws| - 1];
      NextDelay(DelayAfter(draws[..|draws| - 1]), last.0, last.1)
  }

  ghost predicate LegalRun(draws: seq<(int, int)>)
  {
    draws == [] ||
    (var rest, last := draws[..|draws| - 1], draws[|draws| - 1];
     LegalRun(rest) && LegalDraws(DelayAfter(rest), last.0, last.1))
  }

  /** The least an unclamped delay can be after `k` calls. */
  ghost function Least(k: nat): (d: int) { if k == 0 then INITIAL_DELAY else Least(k - 1) + Least(k - 1) / 2 }

  lemma {:induction false} DelayBounds(draws: seq<(int, int)>)
    requires LegalRun(draws)
    ensures InRange(DelayAfter(draws))
    ensures DelayAfter(draws) >= Least(|draws|) || DelayAfter(draws) > MAX_BACKOFF - JITTER_RANGE
    ensures draws != [] ==> 7_500_000_000 <= DelayAfter(draws) <= 600_000_000_000
  {
    if draws != [] {
      DelayBounds(draws[..|draws| - 1]);
    }
  }

  lemma LeastValues()
    ensures Least(11) <= MAX_BACKOFF - JITTER_RANGE < MAX_BACKOFF < Least(12)
  {
    assert Least(4) == 25_312_500_000;
    assert Least(8) == 128_144_531_250;
    assert Least(11) == 432_487_792_968;
  }

  lemma {:induction false} LeastGrows(k: nat)
    requires k >= 12
    ensures Least(k) > MAX_BACKOFF
  {
    if k == 12 { LeastValues(); } else { LeastGrows(k - 1); }
  }

  /** From the 12th call after a reset on, whatever is drawn, every delay is above 90% of
      the maximum and not above the maximum. */
  lemma SettlesAfterTwelve(draws: seq<(int, int)>)
    requires LegalRun(draws) && |draws| >= 12
    ensures 540_000_000_000 < DelayAfter(draws) <= 600_000_000_000
  {
    DelayBounds(draws);
    LeastGrows(|draws|);
  }

  lemma {:induction false} SmallestDraws(k: nat)
    requires Least(k) <= MAX_BACKOFF
    ensures var draws := seq(k, _ => (0, 0));
            LegalRun(draws) && DelayAfter(draws) == Least(k)
  {
    if k > 0 {
      LeastMonotone(k - 1, k);
      SmallestDraws(k - 1);
      assert seq(k, _ => (0, 0))[..k - 1] == seq(k - 1, _ => (0, 0));
    }
  }

  /** Twelve is exact: with the smallest draws the 11th delay is still below. */
  lemma ElevenIsTooFew()
    ensures exists draws :: |draws| == 11 && LegalRun(draws) && DelayAfter(draws) <= 540_000_000_000
  {
    LeastValues();
    SmallestDraws(11);
    assert |seq(11, _ => (0, 0))| == 11;
  }

  lemma {:induction false} LeastMonotone(i: nat, j: nat)
    requires i <= j
    ensures 0 < Least(i) <= Least(j)
    decreases j
  {
    if i < j { LeastMonotone(i, j - 1); } else if i > 0 { LeastMonotone(i - 1, i - 1); }
  }
}
