/**
 * The StatusBar of src/statusbar/mod.rs and its rendering. Rendering a block
 * refreshes it (see Block.StatusBlock.Display); the render here takes the
 * strings the blocks displayed, `shown[i]` for block `i`, and composes the
 * bar from them exactly as the `for_each` closure does: a block whose text
 * is empty is skipped when `hide_empty_modules` is set, and every other
 * block at an index above zero is preceded by the delimiter.
 */
module Bar {
  import Text
  import Block

  datatype StatusBar = StatusBar(
    blocks: seq<Block.StatusBlock>,
    delimiter: string,
    leftBuffer: string,
    rightBuffer: string,
    hideEmptyModules: bool)

  /** Whether the closure returns early for a block showing `shown`. */
  predicate Hidden(shown: string, hideEmpty: bool)
  {
    shown == "" && hideEmpty
  }

  /** `Default`: no blocks, empty delimiter and buffers, empty blocks hidden; it renders "". */
  function Default(): (bar: StatusBar)
    ensures bar.blocks == [] && bar.hideEmptyModules
    ensures bar.delimiter == "" && bar.leftBuffer == "" && bar.rightBuffer == ""
    ensures bar.leftBuffer + Pieces([], 0, bar.delimiter, bar.hideEmptyModules) + bar.rightBuffer == ""
  {
    StatusBar([], "", "", "", true)
  }

  /**
   * What the closure appends for block `i` of `n`: nothing for a hidden
   * block; otherwise its text, preceded by the delimiter exactly when the
   * index is above zero.
   */
  function Piece(i: nat, n: nat, shown: string, delimiter: string, hideEmpty: bool): (r: string)
    ensures Hidden(shown, hideEmpty) ==> r == ""
    ensures !Hidden(shown, hideEmpty) && 0 < i < n ==> r == delimiter + shown
    ensures !Hidden(shown, hideEmpty) && (i == 0 || n <= i) ==> r == shown
  {
    if Hidden(shown, hideEmpty) then ""
    else (if i > 0 && i < n then delimiter else "") + shown
  }

  /**
   * What the closure has appended after the first `k` blocks; nothing at
   * all while every one of them is hidden.
   */
  function Pieces(shown: seq<string>, k: nat, delimiter: string, hideEmpty: bool): (r: string)
    requires k <= |shown|
    ensures (forall j :: 0 <= j < k ==> Hidden(shown[j], hideEmpty)) ==> r == ""
  {
    if k == 0 then ""
    else Pieces(shown, k - 1, delimiter, hideEmpty) + Piece(k - 1, |shown|, shown[k - 1], delimiter, hideEmpty)
  }

  /** The texts that are not hidden, in block order. */
  function Kept(shown: seq<string>, hideEmpty: bool): (r: seq<string>)
    ensures |r| <= |shown|
    ensures !hideEmpty ==> r == shown
    ensures forall i :: 0 <= i < |r| ==> !Hidden(r[i], hideEmpty)
    ensures r == [] ==> forall i :: 0 <= i < |shown| ==> Hidden(shown[i], hideEmpty)
  {
    if shown == [] then []
    else
      var init := shown[..|shown| - 1];
      var last := shown[|shown| - 1];
      assert shown == init + [last];
      if Hidden(last, hideEmpty) then Kept(init, hideEmpty) else Kept(init, hideEmpty) + [last]
  }

  /**
   * Whether the rendered blocks start with a delimiter: only when empty
   * blocks are hidden, block 0 is hidden and some later block is shown.
   */
  predicate LeadingDelimiter(shown: seq<string>, hideEmpty: bool)
  {
    |shown| > 0 && Hidden(shown[0], hideEmpty) && Kept(shown, hideEmpty) != []
  }

  /** Appending a block to the texts appends it to the kept ones unless it is hidden. */
  lemma KeptSnoc(shown: seq<string>, x: string, hideEmpty: bool)
    ensures Kept(shown + [x], hideEmpty) ==
      if Hidden(x, hideEmpty) then Kept(shown, hideEmpty) else Kept(shown, hideEmpty) + [x]
  {
    assert (shown + [x])[..|shown|] == shown;
  }

  /** When a leading delimiter appears: block 0 hidden, and a block shown after it. */
  lemma LeadingSnoc(shown: seq<string>, x: string, hideEmpty: bool)
    ensures LeadingDelimiter(shown + [x], hideEmpty) <==>
      shown != [] && Hidden(shown[0], hideEmpty) && (Kept(shown, hideEmpty) != [] || !Hidden(x, hideEmpty))
  {
    KeptSnoc(shown, x, hideEmpty);
    if shown == [] {
      assert shown + [x] == [x];
    } else {
      assert (shown + [x])[0] == shown[0];
    }
  }

  /** The text before the blocks: one delimiter exactly when there is a leading delimiter. */
  function Lead(shown: seq<string>, delimiter: string, hideEmpty: bool): string
  {
    if LeadingDelimiter(shown, hideEmpty) then delimiter else ""
  }

  /** One step of the render loop keeps the text equal to the lead plus the joined kept blocks. */
  lemma PieceStep(init: seq<string>, x: string, n: nat, before: string, delimiter: string, hideEmpty: bool)
    requires |init| < n
    requires before == Lead(init, delimiter, hideEmpty) + Text.Join(delimiter, Kept(init, hideEmpty))
    ensures before + Piece(|init|, n, x, delimiter, hideEmpty) ==
      Lead(init + [x], delimiter, hideEmpty) + Text.Join(delimiter, Kept(init + [x], hideEmpty))
  {
    KeptSnoc(init, x, hideEmpty);
    LeadingSnoc(init, x, hideEmpty);
    if Hidden(x, hideEmpty) {
      assert Piece(|init|, n, x, delimiter, hideEmpty) == "";
    } else if init == [] {
      ShownFirst(x, n, delimiter, hideEmpty);
    } else {
      ShownLater(init, x, n, before, delimiter, hideEmpty);
    }
  }

  lemma ShownFirst(x: string, n: nat, delimiter: string, hideEmpty: bool)
    requires !Hidden(x, hideEmpty)
    ensures Piece(0, n, x, delimiter, hideEmpty) == x
    ensures Kept([x], hideEmpty) == [x] && !LeadingDelimiter([x], hideEmpty)
  {
    KeptSnoc([], x, hideEmpty);
    assert [] + [x] == [x];
  }

  lemma ShownLater(init: seq<string>, x: string, n: nat, before: string, delimiter: string, hideEmpty: bool)
    requires init != [] && |init| < n && !Hidden(x, hideEmpty)
    requires before == Lead(init, delimiter, hideEmpty) + Text.Join(delimiter, Kept(init, hideEmpty))
    ensures before + Piece(|init|, n, x, delimiter, hideEmpty) ==
      Lead(init + [x], delimiter, hideEmpty) + Text.Join(delimiter, Kept(init + [x], hideEmpty))
  {
    KeptSnoc(init, x, hideEmpty);
    LeadingSnoc(init, x, hideEmpty);
    assert Piece(|init|, n, x, delimiter, hideEmpty) == delimiter + x;
    if Kept(init, hideEmpty) == [] {
      ShownAfterHidden(init, x, delimiter, hideEmpty);
    } else {
      ShownAfterShown(init, x, delimiter, hideEmpty);
    }
  }

  /** The first block shown after hidden ones: the lead becomes the delimiter. */
  lemma ShownAfterHidden(init: seq<string>, x: string, delimiter: string, hideEmpty: bool)
    requires init != [] && !Hidden(x, hideEmpty) && Kept(init, hideEmpty) == []
    ensures Lead(init, delimiter, hideEmpty) + Text.Join(delimiter, Kept(init, hideEmpty)) + (delimiter + x) ==
      Lead(init + [x], delimiter, hideEmpty) + Text.Join(delimiter, Kept(init + [x], hideEmpty))
  {
    KeptSnoc(init, x, hideEmpty);
    LeadingSnoc(init, x, hideEmpty);
    assert Kept(init + [x], hideEmpty) == [x];
    assert Hidden(init[0], hideEmpty);
  }

  /** A block shown after a shown one: the lead stays, the join gains the delimiter and the block. */
  lemma ShownAfterShown(init: seq<string>, x: string, delimiter: string, hideEmpty: bool)
    requires init != [] && !Hidden(x, hideEmpty) && Kept(init, hideEmpty) != []
    ensures Lead(init, delimiter, hideEmpty) + Text.Join(delimiter, Kept(init, hideEmpty)) + (delimiter + x) ==
      Lead(init + [x], delimiter, hideEmpty) + Text.Join(delimiter, Kept(init + [x], hideEmpty))
  {
    LeadStays(init, x, delimiter, hideEmpty);
    JoinKeptSnoc(init, x, delimiter, hideEmpty);
    Regroup(Lead(init, delimiter, hideEmpty), Text.Join(delimiter, Kept(init, hideEmpty)), delimiter, x);
  }

  /** Once some block is shown, later blocks do not change the lead. */
  lemma LeadStays(init: seq<string>, x: string, delimiter: string, hideEmpty: bool)
    requires init != [] && Kept(init, hideEmpty) != []
    ensures Lead(init + [x], delimiter, hideEmpty) == Lead(init, delimiter, hideEmpty)
  {
    KeptSnoc(init, x, hideEmpty);
    LeadingSnoc(init, x, hideEmpty);
  }

  /** A shown block after a shown one adds the delimiter and its text to the join. */
  lemma JoinKeptSnoc(init: seq<string>, x: string, delimiter: string, hideEmpty: bool)
    requires !Hidden(x, hideEmpty) && Kept(init, hideEmpty) != []
    ensures Text.Join(delimiter, Kept(init + [x], hideEmpty)) == Text.Join(delimiter, Kept(init, hideEmpty)) + delimiter + x
  {
    KeptSnoc(init, x, hideEmpty);
    Text.JoinSnoc(delimiter, Kept(init, hideEmpty), x);
  }

  lemma Regroup(a: string, b: string, c: string, d: string)
    ensures a + b + (c + d) == a + (b + c + d)
  {
  }

  /**
   * What the render loop produces between the buffers: the shown blocks
   * joined by the delimiter, preceded by one more delimiter when block 0 is
   * hidden and a later block is not.
   */
  lemma {:induction false} PiecesAreJoinedKept(shown: seq<string>, k: nat, delimiter: string, hideEmpty: bool)
    requires k <= |shown|
    ensures Pieces(shown, k, delimiter, hideEmpty) ==
      Lead(shown[..k], delimiter, hideEmpty) + Text.Join(delimiter, Kept(shown[..k], hideEmpty))
    decreases k
  {
    if k > 0 {
      var init := shown[..k - 1];
      var x := shown[k - 1];
      var before := Pieces(shown, k - 1, delimiter, hideEmpty);
      assert before == Lead(init, delimiter, hideEmpty) + Text.Join(delimiter, Kept(init, hideEmpty)) by {
        PiecesAreJoinedKept(shown, k - 1, delimiter, hideEmpty);
      }
      assert Pieces(shown, k, delimiter, hideEmpty) == before + Piece(|init|, |shown|, x, delimiter, hideEmpty);
      assert shown[..k] == init + [x];
      assert before + Piece(|init|, |shown|, x, delimiter, hideEmpty) ==
        Lead(init + [x], delimiter, hideEmpty) + Text.Join(delimiter, Kept(init + [x], hideEmpty)) by {
        PieceStep(init, x, |shown|, before, delimiter, hideEmpty);
      }
    }
  }

  /** With hiding off, the bar is the buffers around all blocks joined by the delimiter. */
  lemma VisibleRenderIsJoin(shown: seq<string>, delimiter: string)
    ensures Pieces(shown, |shown|, delimiter, false) == Text.Join(delimiter, shown)
  {
    PiecesAreJoinedKept(shown, |shown|, delimiter, false);
    assert shown[..|shown|] == shown;
  }

  /**
   * With hiding on, a hidden block adds neither text nor a delimiter: when
   * block 0 is shown, the bar is the shown blocks joined by the delimiter.
   */
  lemma HiddenBlocksLeaveNoGap(shown: seq<string>, delimiter: string)
    requires |shown| > 0 && shown[0] != ""
    ensures Pieces(shown, |shown|, delimiter, true) == Text.Join(delimiter, Kept(shown, true))
  {
    PiecesAreJoinedKept(shown, |shown|, delimiter, true);
    assert shown[..|shown|] == shown;
  }

  /** As written, hiding block 0 still leaves a delimiter before the next block shown. */
  lemma HiddenFirstBlockLeavesDelimiter()
    ensures Pieces(["", "a"], 2, "|", true) == "|a"
  {
    assert Pieces(["", "a"], 1, "|", true) == "";
  }

  /** Two blocks "test1" and "test2", no delimiter and no buffers, render "test1test2". */
  lemma DrawsBlocks()
    ensures "" + Pieces(["test1", "test2"], 2, "", false) + "" == "test1test2"
  {
    assert Pieces(["test1", "test2"], 1, "", false) == "test1";
  }

  /** The same blocks with delimiter " | " between " >>> " and " <<< ". */
  lemma DrawsDelimiters()
    ensures " >>> " + Pieces(["test1", "test2"], 2, " | ", false) + " <<< " == " >>> test1 | test2 <<< "
  {
    assert Pieces(["test1", "test2"], 1, " | ", false) == "test1";
  }

  /** An empty middle block with hiding off keeps its delimiter. */
  lemma DrawsEmptyBlocks()
    ensures " >>> " + Pieces(["test1", "", "test3"], 3, " | ", false) + " <<< " == " >>> test1 |  | test3 <<< "
  {
    assert Pieces(["test1", "", "test3"], 1, " | ", false) == "test1";
    assert Pieces(["test1", "", "test3"], 2, " | ", false) == "test1 | ";
  }

  /** An empty middle block with hiding on leaves neither text nor delimiter. */
  lemma IgnoresEmptyBlocks()
    ensures " >>> " + Pieces(["test1", "", "test3"], 3, " | ", true) + " <<< " == " >>> test1 | test3 <<< "
  {
    assert Pieces(["test1", "", "test3"], 1, " | ", true) == "test1";
    assert Pieces(["test1", "", "test3"], 2, " | ", true) == "test1";
  }

  /**
   * `Display`: the left buffer, then each block's text (with its delimiter)
   * in order, then the right buffer.
   */
  method Display(bar: StatusBar, shown: seq<string>) returns (out: string)
    requires |shown| == |bar.blocks|
    ensures out == bar.leftBuffer + Pieces(shown, |shown|, bar.delimiter, bar.hideEmptyModules) + bar.rightBuffer
  {
    out := bar.leftBuffer;
    var i := 0;
    while i < |bar.blocks|
      invariant 0 <= i <= |bar.blocks|
      invariant out == bar.leftBuffer + Pieces(shown, i, bar.delimiter, bar.hideEmptyModules)
    {
      var cache := shown[i];
      ghost var piece := Piece(i, |shown|, cache, bar.delimiter, bar.hideEmptyModules);
      assert Pieces(shown, i + 1, bar.delimiter, bar.hideEmptyModules) ==
        Pieces(shown, i, bar.delimiter, bar.hideEmptyModules) + piece;
      ghost var before := out;
      if !(cache == "" && bar.hideEmptyModules) {
        if i > 0 && i < |bar.blocks| {
          out := out + bar.delimiter;
        }
        out := out + cache;
      }
      assert out == before + piece;
      i := i + 1;
    }
    out := out + bar.rightBuffer;
  }
}
