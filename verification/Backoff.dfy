/** The restart schedule of a supervised adapter. Durations are in nanoseconds. */
module Backoffs {
  import opened Seqs

  const U32_MAX: nat := 0xFFFF_FFFF
  const SECOND: nat := 1_000_000_000
  const BACKOFF_INITIAL: nat := 1 * SECOND
  const BACKOFF_MAX: nat := 60 * SECOND
  const HEALTHY_RESET_AFTER: nat := 5 * 60 * SECOND

  function ShiftedOne(k: nat): nat { if k == 0 then 1 else 2 * ShiftedOne(k - 1) }

  /** `record_failure_after_healthy` */
  function AfterFailure(failures: nat, healthy: nat): nat {
    Min((if healthy >= HEALTHY_RESET_AFTER then 0 else failures) + 1, U32_MAX)
  }

  /** `next_delay` */
  function Delay(failures: nat): nat {
    if failures == 0 then 0
    else Min(BACKOFF_INITIAL * ShiftedOne(Min(failures - 1, 6)), BACKOFF_MAX)
  }

  /** The documented schedule, in seconds. */
  const SCHEDULE: seq<nat> := [0, 1, 2, 4, 8, 16, 32, 60]

  lemma DelayIsScheduled(failures: nat)
    ensures Delay(failures) == SCHEDULE[Min(failures, 7)] * SECOND
  {
    assert ShiftedOne(3) == 8;
    assert ShiftedOne(6) == 64;
  }

  /** Every failure in a row waits at least as long as the one before, and never past the ceiling. */
  lemma DelayGrows(f: nat, g: nat)
    requires f <= g
    ensures Delay(f) <= Delay(g) <= BACKOFF_MAX
    ensures g > 0 ==> BACKOFF_INITIAL <= Delay(g)
  {
    DelayIsScheduled(f);
    DelayIsScheduled(g);
    assert forall i, j | 0 <= i <= j < 8 :: SCHEDULE[i] <= SCHEDULE[j];
  }

  /** The sum of the first `f` delays, in seconds. */
  function Waited(f: nat): nat {
    if f == 0 then 0 else Waited(f - 1) + SCHEDULE[Min(f, 7)]
  }

  /** How far the first `f` delays fall short of the ceiling. */
  lemma {:induction false} Shortfall(f: nat)
    ensures Waited(f) <= 60 * f <= Waited(f) + 297
    ensures f >= 6 ==> 60 * f == Waited(f) + 297
  {
    if f <= 6 {
      assert Waited(3) == 7;
      assert Waited(6) == 63;
    } else {
      Shortfall(f - 1);
    }
  }

  class Backoff {
    var failures: nat

    constructor ()
      ensures failures == 0
    {
      failures := 0;
    }

    method RecordFailure()
      modifies this
      ensures failures == Min(old(failures) + 1, U32_MAX)
    {
      if failures < U32_MAX { failures := failures + 1; } else { failures := U32_MAX; }
    }

    method RecordFailureAfterHealthy(healthy: nat)
      modifies this
      ensures failures == AfterFailure(old(failures), healthy)
    {
      if healthy >= HEALTHY_RESET_AFTER { failures := 0; }
      RecordFailure();
    }

    method Reset()
      modifies this
      ensures failures == 0
    {
      failures := 0;
    }

    method NextDelay() returns (d: nat)
      ensures d == SCHEDULE[Min(failures, 7)] * SECOND
    {
      DelayIsScheduled(failures);
      if failures == 0 { return 0; }
      var doublings := Min(failures - 1, 6);
      d := Min(BACKOFF_INITIAL * ShiftedOne(doublings), BACKOFF_MAX);
    }
  }
}
