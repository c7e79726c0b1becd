/** The arithmetic of the interactive redraw timer. */
module UpdateTimer {

  /** One redraw per second while the face is visible and interactive. */
  const INTERACTIVE_UPDATE_RATE_MS: int := 1000

  /**
   * Java's `%` on longs: the remainder takes the sign of the dividend (truncated division),
   * unlike Dafny's `%`, whose result is never negative.
   */
  /** Java's `/` on longs: the quotient is truncated toward zero. */
  function JavaQuot(a: int, b: int): int
    requires b > 0
  {
    if a >= 0 then a / b else -((-a) / b)
  }

  function JavaRem(a: int, b: int): (r: int)
    requires b > 0
    ensures a >= 0 ==> 0 <= r < b
    ensures a < 0 ==> -b < r <= 0
    ensures a == b * JavaQuot(a, b) + r
  {
    if a >= 0 then a % b else
      assert -a == b * ((-a) / b) + (-a) % b;
      -((-a) % b)
  }

  /**
   * The delay before the next tick: the rate minus the time already spent in the current
   * second, so that the tick lands on the next whole second. A clock before the epoch makes
   * Java's remainder non-positive, and the delay is then between one and two seconds.
   */
  function UpdateDelay(now: int): (delay: int)
    ensures now >= 0 ==> 1 <= delay <= INTERACTIVE_UPDATE_RATE_MS
    ensures now < 0 ==> INTERACTIVE_UPDATE_RATE_MS <= delay < 2 * INTERACTIVE_UPDATE_RATE_MS
    ensures (now + delay) % INTERACTIVE_UPDATE_RATE_MS == 0
  {
    INTERACTIVE_UPDATE_RATE_MS - JavaRem(now, INTERACTIVE_UPDATE_RATE_MS)
  }

}
