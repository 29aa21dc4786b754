/** The child side of a launch: argv construction and search-path resolution
    (`executeCommand`). Process creation, descriptor wiring and the program image
    replacement are outside the model; what the operating system answers is given
    as oracles. */
module Launcher {

  /** A launch request, recorded in the parent where the source records a child's
      pid: the command name, its arguments, the search path as it was when the child
      was forked, and the output file ("" for none). */
  datatype Launch = Launch(command: string, args: seq<string>, path: seq<string>, outputFile: string)

  /** The operating system's answers.
      `chdirOk(n, dir)`: the parent's `n`-th `chdir` of the run (counting from 0),
      `chdir(dir)`, returns 0; the index lets an earlier `cd` or a child change the
      answer for the same `dir`.
      `forkOk(n)`: the parent's `n`-th fork of the run (counting from 0) succeeds.
      `accessible(p)`: `access(p, X_OK)` returns 0.
      `execOk(p)`: `execv(p, argv)` takes effect instead of returning. */
  datatype Os = Os(
    chdirOk: (nat, string) -> bool,
    forkOk: nat -> bool,
    accessible: string -> bool,
    execOk: string -> bool)

  /** The program image the child becomes and the argument vector it receives
      (without the terminating null pointer). */
  datatype Exec = Exec(program: string, argv: seq<string>)

  /** `Runs`: the child's image is replaced. `NotFound`: no directory worked, so the
      child prints the uniform error and exits with status 1. */
  datatype Outcome = Runs(exec: Exec) | NotFound

  function Candidate(dir: string, command: string): string {
    dir + "/" + command
  }

  /** The candidate passes the `access` test and `execv` on it takes effect. */
  predicate Starts(os: Os, dir: string, command: string) {
    os.accessible(Candidate(dir, command)) && os.execOk(Candidate(dir, command))
  }

  /** `executeCommand` after redirection: build argv as the command followed by its
      arguments, then try `dir + "/" + command` for each directory in order; an
      `execv` that returns falls through to the next directory. */
  method ExecuteCommand(launch: Launch, os: Os) returns (r: Outcome)
    ensures r.Runs? ==> r.exec.argv == [launch.command] + launch.args
    ensures r.Runs? <==> exists k :: 0 <= k < |launch.path| && Starts(os, launch.path[k], launch.command)
    ensures r.Runs? ==>
      (exists k :: 0 <= k < |launch.path| &&
         r.exec.program == Candidate(launch.path[k], launch.command) &&
         Starts(os, launch.path[k], launch.command) &&
         forall j :: 0 <= j < k ==> !Starts(os, launch.path[j], launch.command))
  {
    var command, args, customPath := launch.command, launch.args, launch.path;
    var commandArgs := [command];
    for a := 0 to |args|
      invariant commandArgs == [command] + args[..a]
    {
      commandArgs := commandArgs + [args[a]];
    }
    assert args[..|args|] == args;
    var k := 0;
    while k < |customPath|
      invariant 0 <= k <= |customPath|
      invariant forall j :: 0 <= j < k ==> !Starts(os, customPath[j], command)
    {
      var fullPath := Candidate(customPath[k], command);
      if os.accessible(fullPath) && os.execOk(fullPath) {
        return Runs(Exec(fullPath, commandArgs));
      }
      k := k + 1;
    }
    r := NotFound;
  }
}
