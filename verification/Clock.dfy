/** The millisecond clock. `unsigned long` has 32 bits on both boards, so what
    the program reads is the real time modulo the clock's period. */
module Clock {

  const PERIOD: nat := 0x1_0000_0000

  type Millis = w: int | 0 <= w < PERIOD

  /** What nowMilliseconds() returns at real time t. */
  function Reading(t: nat): Millis { t % PERIOD }

  /** now - earlier in unsigned arithmetic. */
  function Since(now: Millis, earlier: Millis): Millis
  {
    if now >= earlier then now - earlier else now - earlier + PERIOD
  }

  /** Unsigned subtraction of two readings gives the elapsed time modulo the
      period, across any number of wrap-arounds. */
  lemma SinceIsElapsed(t0: nat, t1: nat)
    requires t0 <= t1
    ensures Since(Reading(t1), Reading(t0)) == (t1 - t0) % PERIOD <= t1 - t0
  {
    assert t1 == PERIOD * (t1 / PERIOD) + Reading(t1);
    assert t0 == PERIOD * (t0 / PERIOD) + Reading(t0);
    var q := if Reading(t1) >= Reading(t0) then t1 / PERIOD - t0 / PERIOD else t1 / PERIOD - t0 / PERIOD - 1;
    assert t1 - t0 == PERIOD * q + Since(Reading(t1), Reading(t0));
  }

  /** ... which is the elapsed time itself exactly below one period. */
  lemma SinceExact(t0: nat, t1: nat)
    requires t0 <= t1
    ensures Since(Reading(t1), Reading(t0)) == t1 - t0 <==> t1 - t0 < PERIOD
  {
    SinceIsElapsed(t0, t1);
  }
}
