/** The command line (index.js:200-220): the global help and version flags,
    looked for anywhere, then the command named by the first argument. */
module Cli {
  import opened Common

  datatype Command =
    | Help
    | Version
    | CompressCmd(input: Option<string>, output: Option<string>, splitSize: Option<string>)
    | RestoreCmd(folder: Option<string>)
    | UnknownCmd

  /** `args.includes(x)`. */
  function Includes(args: seq<string>, x: string): (b: bool)
    ensures b <==> x in args
  {
    if args == [] then false else args[0] == x || Includes(args[1..], x)
  }

  /** `args[i]`, which is `undefined` past the end. */
  function Arg(args: seq<string>, i: nat): (a: Option<string>)
    ensures a.Some? <==> i < |args|
    ensures a.Some? ==> a.value == args[i]
  {
    if i < |args| then Some(args[i]) else None
  }

  predicate WantsHelp(args: seq<string>) {
    |args| == 0 || "--help" in args || "-h" in args
  }

  predicate WantsVersion(args: seq<string>) {
    "--version" in args || "-v" in args
  }

  /** The command `process.argv.slice(2)` selects. */
  function Dispatch(args: seq<string>): (c: Command)
    ensures c == Help <==> WantsHelp(args)
    ensures c == Version <==> !WantsHelp(args) && WantsVersion(args)
    ensures c.CompressCmd? <==> !WantsHelp(args) && !WantsVersion(args) && args[0] in {"-compress", "-c"}
    ensures c.CompressCmd? ==> c == CompressCmd(Arg(args, 1), Arg(args, 2), Arg(args, 3))
    ensures c.RestoreCmd? <==> !WantsHelp(args) && !WantsVersion(args) && args[0] in {"-restore", "-r"}
    ensures c.RestoreCmd? ==> c == RestoreCmd(Arg(args, 1))
  {
    if |args| == 0 || Includes(args, "--help") || Includes(args, "-h") then Help
    else if Includes(args, "--version") || Includes(args, "-v") then Version
    else if args[0] == "-compress" || args[0] == "-c" then CompressCmd(Arg(args, 1), Arg(args, 2), Arg(args, 3))
    else if args[0] == "-restore" || args[0] == "-r" then RestoreCmd(Arg(args, 1))
    else UnknownCmd
  }

  /** A help flag anywhere wins over everything, a version flag anywhere over
      every command. */
  lemma FlagsAnywhere(before: seq<string>, after: seq<string>, flag: string)
    ensures flag in {"--help", "-h"} ==> Dispatch(before + [flag] + after) == Help
    ensures flag in {"--version", "-v"} && !WantsHelp(before + after)
            ==> Dispatch(before + [flag] + after) == Version
  {
    var args := before + [flag] + after;
    assert args[|before|] == flag;
    assert forall x :: x in args <==> x in before + after || x == flag;
  }

  /** The compress command with its three arguments. */
  lemma CompressExample()
    ensures Dispatch(["-c", "MyFolder", "backup", "2g"]) == CompressCmd(Some("MyFolder"), Some("backup"), Some("2g"))
  {
    var c := ["-c", "MyFolder", "backup", "2g"];
    assert "--help" !in c && "-h" !in c && "--version" !in c && "-v" !in c;
  }

  /** A missing positional argument reaches the command as absent. */
  lemma RestoreMissingFolder()
    ensures Dispatch(["-r"]) == RestoreCmd(None)
  {
  }

  /** The command word of the usage text, without its dash, is not a command. */
  lemma BareWordIsUnknown()
    ensures Dispatch(["compress", "MyFolder"]) == UnknownCmd
  {
    var u := ["compress", "MyFolder"];
    assert "--help" !in u && "-h" !in u && "--version" !in u && "-v" !in u;
  }

  /** A version flag among a command's arguments wins over the command. */
  lemma VersionAmongArguments()
    ensures Dispatch(["-c", "MyFolder", "-v"]) == Version
  {
    var v := ["-c", "MyFolder", "-v"];
    assert v[2] == "-v";
    assert "--help" !in v && "-h" !in v;
  }
}
