/**
 * Instants and durations are natural numbers (one unit per tick of the
 * monotonic clock); overflow of Instant + Duration is not modelled.
 */
module Clock {
  /**
   * `now.duration_since(earlier)`: the time from `earlier` to `now`, and
   * zero when `earlier` is the later instant (std saturates there).
   */
  function Elapsed(now: nat, earlier: nat): (d: nat)
    ensures earlier <= now ==> earlier + d == now
    ensures now < earlier ==> d == 0
  {
    if earlier <= now then now - earlier else 0
  }
}
