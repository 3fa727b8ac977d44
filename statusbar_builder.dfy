/**
 * The StatusBarBuilder of src/statusbar/builder.rs: a record of the bar's
 * fields, replaced one at a time by value, and its conversion into a bar
 * that also carries the queue of the blocks' next refresh instants.
 *
 * The conversion asks every block for its `next_update`, which no block
 * type of this model defines; it is given here as one optional instant per
 * block, of the shape of `Cache.Deadline`.
 */
module BarBuilder {
  import opened Wrappers
  import Block
  import Bar

  datatype StatusBarBuilder = StatusBarBuilder(
    blocks: seq<Block.StatusBlock>,
    delimiter: string,
    leftBuffer: string,
    rightBuffer: string,
    hideEmptyModules: bool)

  /**
   * The bar the conversion produces: the builder's fields and `update_queue`,
   * a heap of (instant, block index) pairs, here the multiset of its entries.
   */
  datatype BuiltBar = BuiltBar(
    blocks: seq<Block.StatusBlock>,
    delimiter: string,
    leftBuffer: string,
    rightBuffer: string,
    hideEmptyModules: bool,
    updateQueue: multiset<(nat, nat)>)

  /** The derived `Default`: no blocks, empty strings, and empty blocks shown. */
  function Default(): (b: StatusBarBuilder)
    ensures b.blocks == [] && b.delimiter == "" && b.leftBuffer == "" && b.rightBuffer == ""
    ensures !b.hideEmptyModules
  {
    StatusBarBuilder([], "", "", "", false)
  }

  /**
   * `new(blocks)`: the given blocks and the derived defaults, so empty
   * blocks are shown, unlike the bar's own `Default`.
   */
  function New(blocks: seq<Block.StatusBlock>): (b: StatusBarBuilder)
    ensures b.blocks == blocks
    ensures b.delimiter == "" && b.leftBuffer == "" && b.rightBuffer == ""
    ensures !b.hideEmptyModules && b.hideEmptyModules != Bar.Default().hideEmptyModules
  {
    Default().(blocks := blocks)
  }

  /** `blocks`: replaces the blocks, nothing else. */
  function Blocks(b: StatusBarBuilder, blocks: seq<Block.StatusBlock>): (r: StatusBarBuilder)
    ensures r.blocks == blocks
    ensures r.delimiter == b.delimiter && r.leftBuffer == b.leftBuffer && r.rightBuffer == b.rightBuffer
    ensures r.hideEmptyModules == b.hideEmptyModules
  {
    b.(blocks := blocks)
  }

  /** `delimiter`: replaces the delimiter, nothing else. */
  function Delimiter(b: StatusBarBuilder, delimiter: string): (r: StatusBarBuilder)
    ensures r.delimiter == delimiter
    ensures r.blocks == b.blocks && r.leftBuffer == b.leftBuffer && r.rightBuffer == b.rightBuffer
    ensures r.hideEmptyModules == b.hideEmptyModules
  {
    b.(delimiter := delimiter)
  }

  /** `left_buffer`: replaces the left buffer, nothing else. */
  function LeftBuffer(b: StatusBarBuilder, leftBuffer: string): (r: StatusBarBuilder)
    ensures r.leftBuffer == leftBuffer
    ensures r.blocks == b.blocks && r.delimiter == b.delimiter && r.rightBuffer == b.rightBuffer
    ensures r.hideEmptyModules == b.hideEmptyModules
  {
    b.(leftBuffer := leftBuffer)
  }

  /** `right_buffer`: replaces the right buffer, nothing else. */
  function RightBuffer(b: StatusBarBuilder, rightBuffer: string): (r: StatusBarBuilder)
    ensures r.rightBuffer == rightBuffer
    ensures r.blocks == b.blocks && r.delimiter == b.delimiter && r.leftBuffer == b.leftBuffer
    ensures r.hideEmptyModules == b.hideEmptyModules
  {
    b.(rightBuffer := rightBuffer)
  }

  /** `hide_empty_modules`: replaces the flag, nothing else. */
  function HideEmptyModules(b: StatusBarBuilder, hideEmptyModules: bool): (r: StatusBarBuilder)
    ensures r.hideEmptyModules == hideEmptyModules
    ensures r.blocks == b.blocks && r.delimiter == b.delimiter && r.leftBuffer == b.leftBuffer
    ensures r.rightBuffer == b.rightBuffer
  {
    b.(hideEmptyModules := hideEmptyModules)
  }

  /**
   * The `enumerate`/`filter`/`collect` pipeline: one (instant, index) entry
   * for each block that has a next instant, and no other entry.
   */
  function UpdateQueue(deadlines: seq<Option<nat>>): (q: multiset<(nat, nat)>)
    ensures forall e :: e in q <==> e.1 < |deadlines| && deadlines[e.1] == Some(e.0)
    ensures forall e :: q[e] <= 1
    ensures |q| <= |deadlines|
  {
    if deadlines == [] then multiset{}
    else
      var n := |deadlines| - 1;
      var init := UpdateQueue(deadlines[..n]);
      match deadlines[n]
      case None => init
      case Some(t) =>
        assert (t, n) !in init;
        init + multiset{(t, n)}
  }

  /** A builder whose blocks all lack a next instant builds an empty queue. */
  lemma NoDeadlinesNoQueue(deadlines: seq<Option<nat>>)
    requires forall i :: 0 <= i < |deadlines| ==> deadlines[i].None?
    ensures UpdateQueue(deadlines) == multiset{}
  {
  }

  /**
   * `build`/`From`: the builder's fields copied unchanged, and the queue of
   * the blocks' next instants; `deadlines[i]` is block `i`'s `next_update`.
   */
  function Build(b: StatusBarBuilder, deadlines: seq<Option<nat>>): (r: BuiltBar)
    requires |deadlines| == |b.blocks|
    ensures r.blocks == b.blocks && r.delimiter == b.delimiter
    ensures r.leftBuffer == b.leftBuffer && r.rightBuffer == b.rightBuffer
    ensures r.hideEmptyModules == b.hideEmptyModules
    ensures forall e :: e in r.updateQueue <==> e.1 < |b.blocks| && deadlines[e.1] == Some(e.0)
  {
    BuiltBar(b.blocks, b.delimiter, b.leftBuffer, b.rightBuffer, b.hideEmptyModules, UpdateQueue(deadlines))
  }
}
