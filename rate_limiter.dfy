/**
 * `RateLimiter`: the counter of downloads in flight that gates `stream_file`, and the time of the
 * last granted download. Time is an integer parameter (milliseconds); the sleeping is not modelled.
 */
module RateLimiting {

  /** `RateLimitInfo`; only `lastRequest` is ever written. */
  datatype RateLimitInfo = RateLimitInfo(lastRequest: int, requestCount: int, resetTime: int)

  class RateLimiter {
    /** `Config.MAX_CONCURRENT_DOWNLOADS`. */
    const maxConcurrentDownloads: int
    /** `Config.RATE_LIMIT_DELAY`, in milliseconds. */
    const rateLimitDelay: int
    var info: RateLimitInfo
    var activeDownloads: int

    /** Never negative, and never above the maximum once a slot has been granted. */
    ghost predicate Valid()
      reads this
    {
      0 <= activeDownloads && (activeDownloads <= maxConcurrentDownloads || activeDownloads == 0)
    }

    constructor(maxConcurrentDownloads: int, rateLimitDelay: int)
      ensures Valid()
      ensures this.maxConcurrentDownloads == maxConcurrentDownloads && this.rateLimitDelay == rateLimitDelay
      ensures info == RateLimitInfo(0, 0, 0) && activeDownloads == 0
    {
      this.maxConcurrentDownloads := maxConcurrentDownloads;
      this.rateLimitDelay := rateLimitDelay;
      info := RateLimitInfo(0, 0, 0);
      activeDownloads := 0;
    }

    /** The condition the polling loop of `acquire_download_slot` waits for. */
    predicate SlotFree()
      reads this
    {
      activeDownloads < maxConcurrentDownloads
    }

    /** Whether a caller that found a free slot at time `now` then sleeps for the rate limit. */
    predicate MustSleep(now: int)
      reads this
    {
      now - info.lastRequest < rateLimitDelay
    }

    /**
     * `acquire_download_slot` with the slot test and the increment in one step, as the method
     * evidently intends: one poll of the waiting loop at time `now`. A caller that gets `false`
     * keeps waiting; one that gets `true` holds a slot, and the slot count never passes the maximum.
     */
    method AcquireDownloadSlot(now: int) returns (acquired: bool)
      requires Valid()
      modifies this
      ensures Valid()
      ensures acquired <==> old(activeDownloads) < maxConcurrentDownloads
      ensures acquired ==> activeDownloads == old(activeDownloads) + 1 && info == old(info).(lastRequest := now)
      ensures !acquired ==> activeDownloads == old(activeDownloads) && info == old(info)
    {
      acquired := SlotFree();
      if acquired {
        activeDownloads := activeDownloads + 1;
        info := info.(lastRequest := now);
      }
    }

    /** `release_download_slot`: one slot fewer, never below zero. */
    method ReleaseDownloadSlot()
      requires Valid()
      modifies this
      ensures Valid()
      ensures activeDownloads == if old(activeDownloads) > 0 then old(activeDownloads) - 1 else 0
      ensures info == old(info)
    {
      activeDownloads := if activeDownloads - 1 > 0 then activeDownloads - 1 else 0;
    }

    /**
     * The second half of `acquire_download_slot` as written: after the polling loop has seen a
     * free slot, and after the rate-limit sleep (during which other coroutines run), the count is
     * raised without testing the slot again.
     */
    method FinishAcquireAsWritten(now: int)
      modifies this
      ensures activeDownloads == old(activeDownloads) + 1 && info == old(info).(lastRequest := now)
    {
      activeDownloads := activeDownloads + 1;
      info := info.(lastRequest := now);
    }
  }

  /**
   * Two downloads start 100 ms apart, less than a second after the previous one, while two of the
   * three slots are busy. Both see the last slot free, both sleep for the rate limit, and both then
   * take it: four downloads run with a maximum of three.
   */
  method InterleavedAcquiresAsWritten() returns (limiter: RateLimiter)
    ensures limiter.maxConcurrentDownloads == 3 && limiter.activeDownloads == 4
    ensures !limiter.Valid()
  {
    limiter := new RateLimiter(3, 1000);
    var ok := limiter.AcquireDownloadSlot(0);
    ok := limiter.AcquireDownloadSlot(0);
    assert limiter.activeDownloads == 2;
    // Coroutine A polls at 500 ms, finds the slot free and goes to sleep.
    assert limiter.SlotFree() && limiter.MustSleep(500);
    // Coroutine B polls at 600 ms, while A sleeps: the slot is still free.
    assert limiter.SlotFree() && limiter.MustSleep(600);
    limiter.FinishAcquireAsWritten(1000);
    limiter.FinishAcquireAsWritten(1000);
  }

  /** The same interleaving with the one-step acquire: the second download keeps waiting. */
  method InterleavedAcquires() returns (limiter: RateLimiter, first: bool, second: bool)
    ensures limiter.maxConcurrentDownloads == 3 && limiter.activeDownloads == 3
    ensures first && !second
    ensures limiter.Valid()
  {
    limiter := new RateLimiter(3, 1000);
    var ok := limiter.AcquireDownloadSlot(0);
    ok := limiter.AcquireDownloadSlot(0);
    first := limiter.AcquireDownloadSlot(1000);
    second := limiter.AcquireDownloadSlot(1100);
  }
}
