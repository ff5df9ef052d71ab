/**
 * The pacing gate in front of each request, against an abstract millisecond
 * clock: how long to sleep, and the request times that result.
 */
module RateGate {
  import opened Wrappers

  /**
   * The sleep before a request made at clock reading `now`, given the time of
   * the previous request (None before the first one): the least non-negative
   * wait that puts at least `interval` milliseconds between the two requests.
   */
  function Sleep(last: Option<int>, now: int, interval: int): (sleep: int)
    ensures last.None? ==> sleep == 0
    ensures sleep >= 0
    ensures last.Some? ==> last.value + interval <= now + sleep
    ensures sleep > 0 ==> last.Some? && now + sleep == last.value + interval
    ensures last.Some? && last.value <= now && 0 <= interval ==> sleep <= interval
  {
    match last
    case None => 0
    case Some(t) =>
      var elapsed := now - t;
      if elapsed < interval then interval - elapsed else 0
  }

  function Max(a: int, b: int): int {
    if a < b then b else a
  }

  /**
   * The time around one gate that is not the sleep: `work` runs from a
   * request's timestamp until the clock is read for the next sleep, and
   * `callback` from the end of that sleep until the next timestamp is taken
   * (the progress message sent in between).
   */
  datatype Gap = Gap(work: nat, callback: nat)

  /**
   * Request times of a run starting at `start`, one gap per later request;
   * the sleep is computed from the clock reading before the callback, the
   * timestamp is read after it.
   */
  function Timestamps(start: int, gaps: seq<Gap>, interval: int): (ts: seq<int>)
    ensures |ts| == |gaps| + 1 && ts[0] == start
    ensures forall i :: 0 <= i < |gaps| ==> ts[i + 1] - ts[i] == Max(interval, gaps[i].work) + gaps[i].callback
    decreases |gaps|
  {
    if gaps == [] then [start]
    else
      var now := start + gaps[0].work;
      [start] + Timestamps(now + Sleep(Some(start), now, interval) + gaps[0].callback, gaps[1..], interval)
  }
}
