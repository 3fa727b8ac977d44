/**
 * The control commands of src/monitor.rs and the parse `Monitor::run`
 * applies to each message it reads: split on single spaces, match the first
 * piece exactly, and take the remaining pieces as block names for `update`.
 */
module Monitor {
  import opened Wrappers
  import Text

  datatype Command = Refresh | Shutdown | Update(names: seq<string>)

  /** Whether `data` has `word` as its first space-separated piece. */
  predicate FirstTokenIs(data: string, word: string)
  {
    data == word || word + " " <= data
  }

  /** The first piece of a split is a space-free word exactly when the text starts with that word as a piece. */
  lemma FirstPiece(data: string, word: string)
    requires ' ' !in word
    ensures Text.Split(data, ' ')[0] == word <==> FirstTokenIs(data, word)
    ensures data == word ==> Text.Split(data, ' ') == [word]
    ensures word + " " <= data ==> Text.Split(data, ' ')[1..] == Text.Split(data[|word| + 1..], ' ')
  {
    var pieces := Text.Split(data, ' ');
    if data == word {
      Text.SplitWithoutSeparator(word, ' ');
    }
    if word + " " <= data {
      var t := data[|word| + 1..];
      assert data == word + [' '] + t;
      Text.SplitAtFirstSeparator(word, ' ', t);
    }
    if pieces[0] == word && data != word {
      // The joined pieces give back `data`, so a second piece exists and a space follows `word`.
      assert |pieces| != 1;
      assert data == pieces[0] + [' '] + Text.Join([' '], pieces[1..]);
      assert word + " " <= data;
    }
  }

  /** The first piece of a message against `refresh`. */
  lemma RefreshWord(data: string)
    ensures Text.Split(data, ' ')[0] == "refresh" <==> FirstTokenIs(data, "refresh")
  {
    FirstPiece(data, "refresh");
  }

  /** The first piece of a message against `shutdown`. */
  lemma ShutdownWord(data: string)
    ensures Text.Split(data, ' ')[0] == "shutdown" <==> FirstTokenIs(data, "shutdown")
  {
    FirstPiece(data, "shutdown");
  }

  /** The first piece of a message against `update`, and the pieces after it. */
  lemma UpdateWord(data: string)
    ensures Text.Split(data, ' ')[0] == "update" <==> FirstTokenIs(data, "update")
    ensures data == "update" ==> Text.Split(data, ' ')[1..] == []
    ensures "update " <= data ==> Text.Split(data, ' ')[1..] == Text.Split(data[7..], ' ')
  {
    FirstPiece(data, "update");
  }

  /**
   * The message parse of `Monitor::run`: the first piece of the message
   * split on single spaces picks the command, and for `update` the
   * remaining pieces, in order and empty ones from doubled spaces included,
   * are the names. A first piece matching no command word, the empty
   * message among them, gives no command.
   */
  function Parse(data: string): (r: Option<Command>)
    ensures r.None? <==>
      !FirstTokenIs(data, "refresh") && !FirstTokenIs(data, "shutdown") && !FirstTokenIs(data, "update")
    ensures data == "update" ==> r == Some(Update([]))
    ensures "update " <= data ==> r == Some(Update(Text.Split(data[7..], ' ')))
  {
    RefreshWord(data);
    ShutdownWord(data);
    UpdateWord(data);
    var pieces := Text.Split(data, ' ');
    if pieces[0] == "refresh" then Some(Refresh)
    else if pieces[0] == "shutdown" then Some(Shutdown)
    else if pieces[0] == "update" then Some(Update(pieces[1..]))
    else None
  }

  /** Which command a message gives is decided by its first piece alone, matched exactly. */
  lemma ParseCommandWord(data: string)
    ensures Parse(data) == Some(Refresh) <==> FirstTokenIs(data, "refresh")
    ensures Parse(data) == Some(Shutdown) <==> FirstTokenIs(data, "shutdown")
    ensures Parse(data).Some? && Parse(data).value.Update? <==> FirstTokenIs(data, "update")
  {
    RefreshWord(data);
    ShutdownWord(data);
    UpdateWord(data);
  }

  /** The empty message is not a command. */
  lemma EmptyMessage()
    ensures Parse("") == None
  {
    assert !FirstTokenIs("", "refresh") && !FirstTokenIs("", "shutdown") && !FirstTokenIs("", "update");
  }

  /** A command word followed by a newline is not a command. */
  lemma TrailingNewline()
    ensures Parse("refresh\n") == None
  {
    var data := "refresh\n";
    assert data[7] != ("refresh" + " ")[7];
    assert data[0] != ("shutdown" + " ")[0] && data[0] != "shutdown"[0];
    assert data[0] != ("update" + " ")[0] && data[0] != "update"[0];
    assert !FirstTokenIs(data, "refresh") && !FirstTokenIs(data, "shutdown") && !FirstTokenIs(data, "update");
  }

  /** Doubled spaces leave empty names in an `update`. */
  lemma DoubledSpaceKeepsEmptyName()
    ensures Parse("update a  b") == Some(Update(["a", "", "b"]))
  {
    assert "update " <= "update a  b";
    assert "update a  b"[7..] == "a  b";
    SplitDoubledSpace();
  }

  lemma SplitDoubledSpace()
    ensures Text.Split("a  b", ' ') == ["a", "", "b"]
  {
    assert "a  b" == "a" + [' '] + " b";
    Text.SplitAtFirstSeparator("a", ' ', " b");
    assert " b" == "" + [' '] + "b";
    Text.SplitAtFirstSeparator("", ' ', "b");
    Text.SplitWithoutSeparator("b", ' ');
  }
}
