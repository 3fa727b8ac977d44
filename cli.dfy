/**
 * The message the command-line client of src/cli.rs writes to the running
 * bar: its arguments after the program name, joined by single spaces.
 */
module Cli {
  import Text

  /** `args[1..].join(" ")`, given the arguments after the program name. */
  function Encode(args: seq<string>): (r: string)
    ensures |args| >= 1 && (forall i :: 0 <= i < |args| ==> ' ' !in args[i]) ==>
      Text.Split(r, ' ') == args
  {
    if |args| >= 1 && (forall i :: 0 <= i < |args| ==> ' ' !in args[i]) then
      Text.SplitJoin(args, ' ');
      Text.Join(" ", args)
    else
      Text.Join(" ", args)
  }
}
