/**
 * The command line of the orchestrator: `--version {version} {file1} {file2} ...`,
 * with the flag pair allowed anywhere among the file paths.
 */
module Cli {
  import opened Common
  import opened Paths

  const VersionFlag := "--version"

  /** A parsed command line: the version to publish and the project files, in their given order. */
  datatype Invocation = Invocation(packageVersion: string, paths: seq<string>)

  /**
   * The arguments as the guard written in the orchestrator treats them: the flag must be
   * present, and a flag in last position is let through with no version after it.
   */
  function ParseArgsAsWritten(args: seq<string>): (r: Result<(Option<string>, seq<string>)>)
    ensures r.Err? <==> VersionFlag !in args
    ensures r.Err? ==> r.error == UsageError
  {
    var v := IndexOf(args, VersionFlag);
    if v == -1 || v >= |args| then Err(UsageError)
    else
      var version := if v + 1 < |args| then Some(args[v + 1]) else None;
      var rest := if v + 2 <= |args| then args[v + 2..] else [];
      Ok((version, args[..v] + rest))
  }

  /** The second half of the guard never fires: a position found by `indexOf` is always below the length. */
  lemma LengthGuardIsDead(args: seq<string>)
    ensures IndexOf(args, VersionFlag) == -1 || IndexOf(args, VersionFlag) < |args|
  {
  }

  /** A trailing `--version` is accepted and leaves the version undefined. */
  lemma TrailingVersionAccepted()
    ensures ParseArgsAsWritten(["C:/a.csproj", VersionFlag]) == Ok((None, ["C:/a.csproj"]))
  {
    var args := ["C:/a.csproj", VersionFlag];
    assert args[0][0] != VersionFlag[0];
    assert IndexOf(args[1..], VersionFlag) == 0;
    assert IndexOf(args, VersionFlag) == 1;
    assert args[..1] + [] == ["C:/a.csproj"];
  }

  /**
   * The command line as the guard evidently means it: the first `--version` must be followed
   * by a value; that value is the version, and every other argument is a project path.
   */
  function ParseArgs(args: seq<string>): (r: Result<Invocation>)
    ensures r.Err? ==> r.error == UsageError
    ensures r.Ok? <==> VersionFlag in args && IndexOf(args, VersionFlag) < |args| - 1
    ensures r.Ok? ==> var v := IndexOf(args, VersionFlag);
      && args[v] == VersionFlag && VersionFlag !in args[..v]
      && r.value == Invocation(args[v + 1], args[..v] + args[v + 2..])
  {
    var v := IndexOf(args, VersionFlag);
    if v == -1 || v + 1 >= |args| then Err(UsageError)
    else Ok(Invocation(args[v + 1], args[..v] + args[v + 2..]))
  }

  /** The corrected parser accepts exactly the command lines the written one gives a version for, and agrees with it there. */
  lemma ParseArgsAgrees(args: seq<string>)
    ensures ParseArgs(args).Ok? <==> (ParseArgsAsWritten(args).Ok? && ParseArgsAsWritten(args).value.0.Some?)
    ensures ParseArgs(args).Ok? ==>
      ParseArgsAsWritten(args).value == (Some(ParseArgs(args).value.packageVersion), ParseArgs(args).value.paths)
  {
  }
}
