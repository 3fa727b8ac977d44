/**
 * The StatusBar of src/statusbar.rs, an earlier revision over the blocks of
 * src/statusblock.rs. Its render writes every block's stored text, in order,
 * with nothing between them: the delimiter, the buffers and the hiding flag
 * are fields the render never reads.
 */
module LegacyBar {
  import Text
  import LegacyBlock

  datatype StatusBar = StatusBar(
    blocks: seq<LegacyBlock.StatusBlock>,
    delimiter: string,
    leftBuffer: string,
    rightBuffer: string,
    hideEmptyModules: bool)

  /** `Default`: no blocks, empty delimiter and buffers, empty blocks hidden. */
  function Default(): (bar: StatusBar)
    ensures bar.blocks == [] && bar.hideEmptyModules
    ensures bar.delimiter == "" && bar.leftBuffer == "" && bar.rightBuffer == ""
  {
    StatusBar([], "", "", "", true)
  }

  /** What each block writes when displayed: its `cache` field. */
  function Caches(blocks: seq<LegacyBlock.StatusBlock>): (r: seq<string>)
    reads blocks
    ensures |r| == |blocks|
    ensures forall i :: 0 <= i < |blocks| ==> r[i] == blocks[i].cache
  {
    if blocks == [] then []
    else Caches(blocks[..|blocks| - 1]) + [blocks[|blocks| - 1].cache]
  }

  /** The texts written one after the other, as the `for_each` does. */
  function Concat(parts: seq<string>): (r: string)
    ensures parts == [] ==> r == ""
    ensures parts != [] ==> |parts[|parts| - 1]| <= |r| && r[|r| - |parts[|parts| - 1]|..] == parts[|parts| - 1]
  {
    if parts == [] then ""
    else Concat(parts[..|parts| - 1]) + parts[|parts| - 1]
  }

  /** The concatenation is the join with the empty separator: every text, in order, and nothing else. */
  lemma {:induction false} ConcatIsJoin(parts: seq<string>)
    ensures Concat(parts) == Text.Join("", parts)
    decreases |parts|
  {
    if parts != [] {
      var init := parts[..|parts| - 1];
      var last := parts[|parts| - 1];
      ConcatIsJoin(init);
      assert parts == init + [last];
      Text.JoinSnoc("", init, last);
    }
  }

  /** Each text keeps its place: the render is the first texts' render followed by the rest. */
  lemma {:induction false} ConcatAppend(a: seq<string>, b: seq<string>)
    ensures Concat(a + b) == Concat(a) + Concat(b)
    decreases |b|
  {
    if b != [] {
      var init := b[..|b| - 1];
      ConcatAppend(a, init);
      assert (a + b)[..|a + b| - 1] == a + init;
    } else {
      assert a + b == a;
    }
  }

  /** The example of two blocks holding "test1" and "test2". */
  lemma TwoBlocks()
    ensures Concat(["test1", "test2"]) == "test1test2"
  {
    assert ["test1", "test2"][..1] == ["test1"];
    assert ["test1"][..0] == [];
  }

  /**
   * `Display`: every block's cache, in block order, without delimiter,
   * buffers or hiding; a bar without blocks renders "".
   */
  method Display(bar: StatusBar) returns (out: string)
    ensures out == Concat(Caches(bar.blocks))
    ensures bar.blocks == [] ==> out == ""
  {
    out := "";
    var i := 0;
    while i < |bar.blocks|
      invariant 0 <= i <= |bar.blocks|
      invariant out == Concat(Caches(bar.blocks[..i]))
    {
      assert bar.blocks[..i + 1][..i] == bar.blocks[..i];
      out := out + bar.blocks[i].cache;
      i := i + 1;
    }
    assert bar.blocks[..i] == bar.blocks;
  }
}
