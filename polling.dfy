/**
 * The polling period all three services compute in their constructors
 * (rss_keyword_collector/parse.py, feed.py and reporting.py): the
 * configured interval divided by sixty, but never less than sixty.
 */
module Polling {

  /** `int(interval / 60)` raised to 60 when it is 60 or less (Python 2 floor division). */
  function PollingInterval(interval: int): int
  {
    var minutes := interval / 60;
    if minutes <= 60 then 60 else minutes
  }

  /**
   * The period is at least 60; it is the interval in whole minutes exactly
   * when the interval is an hour or more, and it is 60 exactly when the
   * interval is under an hour and a minute.
   */
  lemma PollingIntervalSpec(interval: int)
    ensures PollingInterval(interval) >= 60
    ensures PollingInterval(interval) == interval / 60 <==> interval >= 3600
    ensures PollingInterval(interval) == 60 <==> interval < 3660
  {
  }

  /** A longer configured interval never polls more often. */
  lemma PollingIntervalMonotonic(a: int, b: int)
    requires a <= b
    ensures PollingInterval(a) <= PollingInterval(b)
  {
  }

  /** The constructors' defaults (30, 30 and 600 seconds) all poll every 60. */
  lemma DefaultIntervals()
    ensures PollingInterval(30) == 60 && PollingInterval(600) == 60
  {
  }
}
