// sleepWdt of shared/wdt.h: a long delay cut into chunks, the watchdog fed
// after each one. delay() and feedInnerWdt() are observed as the chunk
// lengths the loop waits, one feed after each.

module Wdt {
  /** Half the watchdog's roughly 4 s timeout. */
  const WDT_FEED_INTERVAL_MS: nat := 2000

  function Sum(s: seq<nat>): nat
  {
    if |s| == 0 then 0 else Sum(s[..|s| - 1]) + s[|s| - 1]
  }

  /**
   * sleepWdt: the chunks it waits, each followed by one feed. They add up
   * to totalMs exactly; each lies between 1 and WDT_FEED_INTERVAL_MS and
   * all but the last are full intervals, so there are ceil(totalMs / 2000)
   * of them, none for a zero delay. (The running total never exceeds
   * totalMs, so the unsigned long arithmetic cannot wrap.)
   */
  method SleepWdt(totalMs: nat) returns (chunks: seq<nat>)
    ensures Sum(chunks) == totalMs
    ensures forall k :: 0 <= k < |chunks| ==> 1 <= chunks[k] <= WDT_FEED_INTERVAL_MS
    ensures forall k :: 0 <= k < |chunks| - 1 ==> chunks[k] == WDT_FEED_INTERVAL_MS
    ensures |chunks| == (totalMs + WDT_FEED_INTERVAL_MS - 1) / WDT_FEED_INTERVAL_MS
    ensures totalMs == 0 <==> chunks == []
  {
    var elapsed: nat := 0;
    chunks := [];
    while elapsed < totalMs
      invariant elapsed <= totalMs && Sum(chunks) == elapsed
      invariant forall k :: 0 <= k < |chunks| ==> 1 <= chunks[k] <= WDT_FEED_INTERVAL_MS
      invariant elapsed < totalMs ==> elapsed == WDT_FEED_INTERVAL_MS * |chunks|
      invariant forall k :: 0 <= k < |chunks| - 1 ==> chunks[k] == WDT_FEED_INTERVAL_MS
      invariant elapsed < totalMs ==> forall k :: 0 <= k < |chunks| ==> chunks[k] == WDT_FEED_INTERVAL_MS
      invariant |chunks| == (elapsed + WDT_FEED_INTERVAL_MS - 1) / WDT_FEED_INTERVAL_MS
      decreases totalMs - elapsed
    {
      var chunk := totalMs - elapsed;
      if chunk > WDT_FEED_INTERVAL_MS {
        chunk := WDT_FEED_INTERVAL_MS;
      }
      assert (chunks + [chunk])[..|chunks|] == chunks;
      chunks := chunks + [chunk];
      elapsed := elapsed + chunk;
    }
  }
}
