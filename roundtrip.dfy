/**
 * The client of src/cli.rs and the listener of src/monitor.rs agree: what
 * the client sends for `update` and space-free block names parses back as
 * an update of exactly those names, and `refresh`/`shutdown` alone parse as
 * those commands.
 */
module RoundTrip {
  import opened Wrappers
  import Cli
  import Monitor

  lemma ParseEncodedUpdate(names: seq<string>)
    requires forall i :: 0 <= i < |names| ==> ' ' !in names[i]
    ensures Monitor.Parse(Cli.Encode(["update"] + names)) == Some(Monitor.Update(names))
  {
    var args := ["update"] + names;
    assert forall i :: 0 <= i < |args| ==> ' ' !in args[i] by {
      forall i | 0 <= i < |args|
        ensures ' ' !in args[i]
      {
        if i > 0 { assert args[i] == names[i - 1]; }
      }
    }
    Monitor.FirstPiece(Cli.Encode(args), "update");
    assert args[1..] == names;
  }

  lemma ParseEncodedRefresh()
    ensures Monitor.Parse(Cli.Encode(["refresh"])) == Some(Monitor.Refresh)
  {
    assert Cli.Encode(["refresh"]) == "refresh";
    Monitor.ParseCommandWord("refresh");
  }

  lemma ParseEncodedShutdown()
    ensures Monitor.Parse(Cli.Encode(["shutdown"])) == Some(Monitor.Shutdown)
  {
    assert Cli.Encode(["shutdown"]) == "shutdown";
    Monitor.ParseCommandWord("shutdown");
  }
}
