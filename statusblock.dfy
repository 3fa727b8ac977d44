/**
 * The StatusBlock of src/statusblock/mod.rs: a name and display sizes around
 * a TimedCache of strings. The mutex around the cache is exclusive ownership
 * here; `get_mut` followed by `truncate`/`push_str` is an update of the cache
 * followed by in-place edits of its `value`.
 *
 * Every call into the cache sees its own `Tick`: `update` and `update_now`
 * call the cache once themselves and once more through the `get_mut` of
 * `truncate_cache`, and `Display` calls it through its own `get_mut`.
 */
module Block {
  import opened Wrappers
  import Text
  import Cache

  /** A snapshot whose value has been clamped to the given sizes. */
  function Clamped(s: Cache.Snapshot<string>, min: Option<nat>, max: Option<nat>): Cache.Snapshot<string>
  {
    s.(value := Text.Clamp(s.value, min, max))
  }

  /**
   * Displaying a block whose cache was never refreshed and has no pool
   * evaluates its function and shows the clamped output.
   */
  lemma DisplayEvaluatesNeverRefreshed(s: Cache.Snapshot<string>, output: string, tick: Cache.Tick<string>,
                                       min: Option<nat>, max: Option<nat>)
    requires s.lastUpdate.None? && !s.pooled
    ensures Clamped(Cache.Updated(s, output, tick), min, max).value == Text.Clamp(output, min, max)
    ensures Clamped(Cache.Updated(s, output, tick), min, max).lastUpdate == Some(tick.now)
  {
  }

  /**
   * The clamp `Display` applies again is harmless: when the cache does not
   * change during the display, a value that `update` already clamped is
   * shown as it is stored.
   */
  lemma RedisplayShowsStoredValue(x: Cache.Snapshot<string>, output: string, tick: Cache.Tick<string>,
                                  min: Option<nat>, max: Option<nat>)
    requires Cache.Updated(Clamped(x, min, max), output, tick) == Clamped(x, min, max)
    ensures Clamped(Cache.Updated(Clamped(x, min, max), output, tick), min, max) == Clamped(x, min, max)
  {
    Text.ClampIdempotent(x.value, min, max);
  }

  class StatusBlock {
    var name: Option<string>
    var minSize: Option<nat>
    var maxSize: Option<nat>
    const cache: Cache.TimedCache<string>

    ghost predicate Valid()
      reads this, cache
    {
      cache.Valid()
    }

    /** `new(f, interval)`: a fresh cache over `f`; no name and no sizes. */
    constructor New(f: nat -> string, interval: Option<nat>)
      ensures Valid() && fresh(cache)
      ensures name.None? && minSize.None? && maxSize.None?
      ensures cache.State() == Cache.Initial("", interval) && cache.compute == f
    {
      name, minSize, maxSize := None, None, None;
      cache := new Cache.TimedCache.New(interval, f, "");
    }

    /** The derived `Default`: no name, no sizes, and the default cache, whose function gives "". */
    constructor Default()
      ensures Valid() && fresh(cache)
      ensures name.None? && minSize.None? && maxSize.None?
      ensures cache.State() == Cache.Initial("", None)
      ensures forall t :: cache.compute(t) == ""
    {
      name, minSize, maxSize := None, None, None;
      cache := new Cache.TimedCache.Default("");
    }

    /** `attach_threadpool`: forwarded to the cache; the block's own fields are untouched. */
    method AttachThreadpool()
      requires Valid()
      modifies cache
      ensures Valid() && cache.compute == old(cache.compute)
      ensures cache.State() == old(cache.State()).(pooled := true)
    {
      cache.AttachThreadpool();
    }

    /** `update`: the cache's `update`, then `truncate_cache`. */
    method Update(first: Cache.Tick<string>, second: Cache.Tick<string>)
      requires Valid()
      modifies cache
      ensures Valid() && cache.compute == old(cache.compute)
      ensures var f := old(cache.compute);
        cache.State() ==
          Clamped(Cache.Updated(Cache.Updated(old(cache.State()), f(first.now), first), f(second.now), second),
                  minSize, maxSize)
    {
      cache.Update(first);
      TruncateCache(second);
    }

    /** `update_now`: the cache's `update_now`, then `truncate_cache`. */
    method UpdateNow(first: Cache.Tick<string>, second: Cache.Tick<string>)
      requires Valid()
      modifies cache
      ensures Valid() && cache.compute == old(cache.compute)
      ensures var f := old(cache.compute);
        cache.State() ==
          Clamped(Cache.Updated(Cache.UpdatedNow(old(cache.State()), f(first.now), first), f(second.now), second),
                  minSize, maxSize)
    {
      cache.UpdateNow(first);
      TruncateCache(second);
    }

    /** `truncate_cache`: `get_mut` (an update of the cache), then the clamp, in place. */
    method TruncateCache(tick: Cache.Tick<string>)
      requires Valid()
      modifies cache
      ensures Valid() && cache.compute == old(cache.compute)
      ensures cache.State() ==
        Clamped(Cache.Updated(old(cache.State()), old(cache.compute)(tick.now), tick), minSize, maxSize)
    {
      cache.Update(tick);
      ghost var got := cache.value;
      if maxSize.Some? && maxSize.value < |cache.value| {
        cache.value := cache.value[..maxSize.value];
      }
      if minSize.Some? && |cache.value| < minSize.value {
        cache.value := cache.value + Text.Spaces(minSize.value - |cache.value|);
      }
      assert cache.value == Text.Clamp(got, minSize, maxSize);
    }

    /**
     * `Display`: the same `get_mut` and clamp as `truncate_cache`, then the
     * clamped value is written out. Rendering a block therefore refreshes it.
     */
    method Display(tick: Cache.Tick<string>) returns (out: string)
      requires Valid()
      modifies cache
      ensures Valid() && cache.compute == old(cache.compute)
      ensures cache.State() ==
        Clamped(Cache.Updated(old(cache.State()), old(cache.compute)(tick.now), tick), minSize, maxSize)
      ensures out == cache.value
    {
      TruncateCache(tick);
      out := cache.value;
    }
  }
}
