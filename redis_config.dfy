/** The reconnect back-off the cache client is configured with. */
module RedisConfig {

  const StepMillis: int := 50
  const CapMillis: int := 2000

  /** `retryStrategy(times)`: `Math.min(times * 50, 2000)` milliseconds before the
      next reconnection attempt. */
  function RetryDelay(times: int): (delay: int)
    ensures delay <= CapMillis
    ensures delay == CapMillis || delay == StepMillis * times
    ensures delay <= StepMillis * times
  {
    if times * StepMillis < CapMillis then times * StepMillis else CapMillis
  }

  /** Later attempts never wait less. */
  lemma RetryDelayMonotonic(i: int, j: int)
    requires i <= j
    ensures RetryDelay(i) <= RetryDelay(j)
  {
  }

  /** Linear growth up to attempt 40, the cap from attempt 40 on. */
  lemma RetryDelayShape(times: int)
    ensures times <= 40 ==> RetryDelay(times) == 50 * times
    ensures times >= 40 ==> RetryDelay(times) == 2000
  {
  }
}
