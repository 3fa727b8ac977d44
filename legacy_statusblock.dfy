/**
 * The StatusBlock of src/statusblock.rs, an earlier revision without a
 * cache object: the block keeps its last output and refresh instant itself,
 * refreshes inline and clamps the output as it stores it. Its `Display`
 * writes the `cache` field verbatim.
 */
module LegacyBlock {
  import opened Wrappers
  import Clock
  import Text

  class StatusBlock {
    var name: string
    var cache: string
    /** The block's `command`, as a function of the instant at which it runs. */
    var command: nat -> string
    var updateInterval: Option<nat>
    var minSize: Option<nat>
    var maxSize: Option<nat>
    var lastUpdate: Option<nat>

    /** `Default`: empty name and cache, a command giving "", nothing else set. */
    constructor Default()
      ensures name == "" && cache == ""
      ensures forall t :: command(t) == ""
      ensures updateInterval.None? && minSize.None? && maxSize.None? && lastUpdate.None?
    {
      name, cache := "", "";
      command := _ => "";
      updateInterval, minSize, maxSize, lastUpdate := None, None, None, None;
    }

    /**
     * `needs_update`: due when never refreshed; never due again without an
     * interval; otherwise due once strictly more than the interval has passed.
     */
    predicate NeedsUpdate(now: nat)
      reads this
      ensures NeedsUpdate(now) <==>
        lastUpdate.None? || (updateInterval.Some? && now > lastUpdate.value + updateInterval.value)
    {
      if lastUpdate.None? then true
      else if updateInterval.None? then false
      else Clock.Elapsed(now, lastUpdate.value) > updateInterval.value
    }

    /** `update`: `update_now` exactly when the block is due; otherwise nothing changes. */
    method Update(now: nat)
      modifies this`cache, this`lastUpdate
      ensures old(NeedsUpdate(now)) ==>
        cache == Text.Clamp(command(now), minSize, maxSize) && lastUpdate == Some(now)
      ensures !old(NeedsUpdate(now)) ==> cache == old(cache) && lastUpdate == old(lastUpdate)
    {
      if NeedsUpdate(now) {
        UpdateNow(now);
      }
    }

    /**
     * `update_now`: run the command, truncate its output to `max_size`, pad
     * it with spaces to `min_size`, store it and stamp the block with `now`.
     */
    method UpdateNow(now: nat)
      modifies this`cache, this`lastUpdate
      ensures cache == Text.Clamp(command(now), minSize, maxSize)
      ensures lastUpdate == Some(now)
    {
      var out := command(now);
      ghost var output := out;
      if maxSize.Some? && maxSize.value < |out| {
        out := out[..maxSize.value];
      }
      if minSize.Some? && |out| < minSize.value {
        out := out + Text.Spaces(minSize.value - |out|);
      }
      assert out == Text.Clamp(output, minSize, maxSize);
      cache := out;
      lastUpdate := Some(now);
    }

    /** `Display`: the stored text, verbatim; nothing is refreshed or clamped again. */
    method Display() returns (out: string)
      ensures out == cache
    {
      out := cache;
    }
  }
}
