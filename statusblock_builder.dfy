/**
 * The StatusBlockBuilder of src/statusblock/builder.rs: optional name,
 * sizes, function and interval, set one at a time by value, and the
 * conversion into a block over a fresh cache.
 */
module BlockBuilder {
  import opened Wrappers
  import Cache
  import Block

  datatype StatusBlockBuilder = StatusBlockBuilder(
    name: Option<string>,
    minSize: Option<nat>,
    maxSize: Option<nat>,
    compute: Option<nat -> string>,
    updateInterval: Option<nat>)

  /** The derived `Default`: nothing set. */
  function Default(): (b: StatusBlockBuilder)
    ensures b.name.None? && b.minSize.None? && b.maxSize.None?
    ensures b.compute.None? && b.updateInterval.None?
  {
    StatusBlockBuilder(None, None, None, None, None)
  }

  /** `new(f)`: the function set, everything else left unset. */
  function New(f: nat -> string): (b: StatusBlockBuilder)
    ensures b.compute == Some(f)
    ensures b.name.None? && b.minSize.None? && b.maxSize.None? && b.updateInterval.None?
  {
    Default().(compute := Some(f))
  }

  /** `name`: sets the name, nothing else. */
  function Name(b: StatusBlockBuilder, name: string): (r: StatusBlockBuilder)
    ensures r.name == Some(name)
    ensures r.minSize == b.minSize && r.maxSize == b.maxSize
    ensures r.compute == b.compute && r.updateInterval == b.updateInterval
  {
    b.(name := Some(name))
  }

  /** `min_size`: sets the minimum size, nothing else. */
  function MinSize(b: StatusBlockBuilder, minSize: nat): (r: StatusBlockBuilder)
    ensures r.minSize == Some(minSize)
    ensures r.name == b.name && r.maxSize == b.maxSize
    ensures r.compute == b.compute && r.updateInterval == b.updateInterval
  {
    b.(minSize := Some(minSize))
  }

  /** `max_size`: sets the maximum size, nothing else. */
  function MaxSize(b: StatusBlockBuilder, maxSize: nat): (r: StatusBlockBuilder)
    ensures r.maxSize == Some(maxSize)
    ensures r.name == b.name && r.minSize == b.minSize
    ensures r.compute == b.compute && r.updateInterval == b.updateInterval
  {
    b.(maxSize := Some(maxSize))
  }

  /** `function`: sets the function, nothing else. */
  function Function(b: StatusBlockBuilder, f: nat -> string): (r: StatusBlockBuilder)
    ensures r.compute == Some(f)
    ensures r.name == b.name && r.minSize == b.minSize && r.maxSize == b.maxSize
    ensures r.updateInterval == b.updateInterval
  {
    b.(compute := Some(f))
  }

  /** `update_interval`: sets the interval, nothing else. */
  function UpdateInterval(b: StatusBlockBuilder, interval: nat): (r: StatusBlockBuilder)
    ensures r.updateInterval == Some(interval)
    ensures r.name == b.name && r.minSize == b.minSize && r.maxSize == b.maxSize
    ensures r.compute == b.compute
  {
    b.(updateInterval := Some(interval))
  }

  /**
   * `build`/`From`: a block with the builder's name and sizes over a fresh
   * cache with the builder's interval, never refreshed, without a pool and
   * not waiting, whose function is the builder's or, when none was set, one
   * giving "".
   */
  method Build(b: StatusBlockBuilder) returns (block: Block.StatusBlock)
    ensures fresh(block) && fresh(block.cache) && block.Valid()
    ensures block.name == b.name && block.minSize == b.minSize && block.maxSize == b.maxSize
    ensures block.cache.State() == Cache.Initial("", b.updateInterval)
    ensures b.compute.Some? ==> block.cache.compute == b.compute.value
    ensures b.compute.None? ==> forall t :: block.cache.compute(t) == ""
  {
    var f: nat -> string := if b.compute.Some? then b.compute.value else _ => "";
    block := new Block.StatusBlock.New(f, b.updateInterval);
    block.name := b.name;
    block.minSize := b.minSize;
    block.maxSize := b.maxSize;
  }
}
