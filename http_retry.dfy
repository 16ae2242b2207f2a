/**
 * The retry policy shared by both HTTP state machines: which status codes are worth
 * another attempt, how many attempts there are and how long the pause before one is.
 */
module HttpRetry {
  /** Retries of one request after its first attempt (`MAX_HTTP_RETRIES`). */
  const MAX_HTTP_RETRIES: int := 3
  /** Pause before a retry (`HTTP_RETRY_DELAY_MS`). */
  const HTTP_RETRY_DELAY_MS: int := 5000

  /**
   * `isRetryableError`: no status at all (0 or a negative client error), 408 Request
   * Timeout, 429 Too Many Requests and every 5xx are retried; everything else is final.
   */
  predicate IsRetryableError(status: int)
  {
    if status <= 0 then true
    else if status == 408 then true
    else if status == 429 then true
    else if 500 <= status <= 599 then true
    else false
  }

  /** A successful (2xx) status is never retried, and a retried positive status is an error code. */
  lemma RetryableIsNotSuccess(status: int)
    ensures IsRetryableError(status) ==> !(200 <= status < 300)
    ensures IsRetryableError(status) && status > 0 ==> status >= 408
  {
  }
}
