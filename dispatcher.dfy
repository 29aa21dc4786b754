/** The body of both driving loops for one input line: split it into a parallel
    group, parse each command's redirection and tokens, run the built-ins `exit`,
    `cd` and `path` in place, and record one launch request per other command. */
module Dispatcher {
  import opened Text
  import opened Tokenizer
  import opened Splitter
  import opened Redirection
  import opened Launcher

  /** The search path the shell starts with. */
  const DefaultPath: seq<string> := ["/bin", "/usr/bin"]

  /** The parent's state: the search path (`customPath`), the children recorded for
      the line being processed (`childPIDs`, as launch requests), how many times the
      uniform error message has been printed, whether `exit` has run, and how many
      forks and how many `chdir` calls the parent has tried so far in the whole run
      (the indices of the next outcomes in the oracles). */
  datatype Shell = Shell(path: seq<string>, children: seq<Launch>, errors: nat, exited: bool, forks: nat, chdirs: nat)

  const Initial: Shell := Shell(DefaultPath, [], 0, false, 0, 0)

  /** A command string once redirection and tokens are parsed. The built-ins ignore
      any output file. */
  datatype Command =
    | Malformed
    | Blank
    | Exit(args: seq<string>)
    | Cd(args: seq<string>)
    | SetPath(dirs: seq<string>)
    | External(name: string, args: seq<string>, outputFile: string)

  function Classify(full: string): Command {
    match Redirect(full)
    case MissingCommand => Malformed
    case BadTarget => Malformed
    case Ok(part, out) =>
      var tokens := Tokens(part);
      if tokens == [] then Blank
      else if tokens[0] == "exit" then Exit(tokens[1..])
      else if tokens[0] == "cd" then Cd(tokens[1..])
      else if tokens[0] == "path" then SetPath(tokens[1..])
      else External(tokens[0], tokens[1..], out)
  }

  /** What one command does to the state. */
  function Step(sh: Shell, command: Command, os: Os): Shell {
    match command
    case Malformed => sh.(errors := sh.errors + 1)
    case Blank => sh
    case Exit(args) =>
      if |args| > 0 then sh.(errors := sh.errors + 1) else sh.(exited := true)
    case Cd(args) =>
      if |args| != 1 then sh.(errors := sh.errors + 1)
      else if os.chdirOk(sh.chdirs, args[0]) then sh.(chdirs := sh.chdirs + 1)
      else sh.(errors := sh.errors + 1, chdirs := sh.chdirs + 1)
    case SetPath(dirs) => sh.(path := dirs)
    case External(name, args, out) =>
      if os.forkOk(sh.forks)
      then sh.(children := sh.children + [Launch(name, args, sh.path, out)], forks := sh.forks + 1)
      else sh.(errors := sh.errors + 1, forks := sh.forks + 1)
  }

  /** The commands of a group in order; `exit` ends the whole program, so nothing
      after it runs. */
  function RunGroup(sh: Shell, cmds: seq<Command>, os: Os): Shell
    decreases |cmds|
  {
    if cmds == [] || sh.exited then sh
    else RunGroup(Step(sh, cmds[0], os), cmds[1..], os)
  }

  function ClassifyAll(group: seq<string>): (cmds: seq<Command>)
    ensures |cmds| == |group|
    ensures forall k :: 0 <= k < |group| ==> cmds[k] == Classify(group[k])
  {
    if group == [] then [] else [Classify(group[0])] + ClassifyAll(group[1..])
  }

  /** One input line: a fresh list of children, then the group split on `&`. */
  function Line(sh: Shell, line: string, os: Os): Shell {
    RunGroup(sh.(children := []), ClassifyAll(Commands(line, '&')), os)
  }

  /** The loop body of the batch and interactive loops for one line. The final wait
      on every recorded child is a barrier with no effect on this state. */
  method ProcessLine(sh: Shell, line: string, os: Os) returns (r: Shell)
    ensures r == Line(sh, line, os)
  {
    var parallelCommands := SplitCommands(line, '&');
    ghost var cmds := ClassifyAll(parallelCommands);
    r := sh.(children := []);
    var i := 0;
    while i < |parallelCommands| && !r.exited
      invariant 0 <= i <= |parallelCommands|
      invariant RunGroup(r, cmds[i..], os) == Line(sh, line, os)
    {
      assert cmds[i..][0] == cmds[i] && cmds[i..][1..] == cmds[i + 1..];
      r := DispatchCommand(r, parallelCommands[i], os);
      i := i + 1;
    }
  }

  /** The part of the loop body for one command `fullCommand`: redirection,
      tokens, then the built-ins or a fork whose child is recorded. */
  method DispatchCommand(sh: Shell, fullCommand: string, os: Os) returns (r: Shell)
    ensures r == Step(sh, Classify(fullCommand), os)
  {
    var customPath, childPIDs, errors, exited := sh.path, sh.children, sh.errors, sh.exited;
    var forks, chdirs := sh.forks, sh.chdirs;
    var parsed := ParseRedirection(fullCommand);
    if !parsed.Ok? {
      errors := errors + 1;
    } else {
      var tokens := ParseInput(parsed.commandPart);
      ClassifyOk(fullCommand, parsed.commandPart, parsed.outputFile);
      if tokens != [] {
        var command, args := tokens[0], tokens[1..];
        if command == "exit" {
          if |args| > 0 {
            errors := errors + 1;
          } else {
            exited := true;
          }
        } else if command == "cd" {
          if |args| != 1 {
            errors := errors + 1;
          } else {
            if !os.chdirOk(chdirs, args[0]) {
              errors := errors + 1;
            }
            chdirs := chdirs + 1;
          }
        } else if command == "path" {
          customPath := args;
        } else {
          if os.forkOk(forks) {
            childPIDs := childPIDs + [Launch(command, args, customPath, parsed.outputFile)];
          } else {
            errors := errors + 1;
          }
          forks := forks + 1;
        }
      }
    }
    r := Shell(customPath, childPIDs, errors, exited, forks, chdirs);
  }

  lemma ClassifyOk(full: string, part: string, out: string)
    requires Redirect(full) == Ok(part, out)
    ensures var tokens := Tokens(part);
      Classify(full) ==
        if tokens == [] then Blank
        else if tokens[0] == "exit" then Exit(tokens[1..])
        else if tokens[0] == "cd" then Cd(tokens[1..])
        else if tokens[0] == "path" then SetPath(tokens[1..])
        else External(tokens[0], tokens[1..], out)
  {
  }

  /** Children recorded earlier stay, in order; each command adds at most one child
      and prints at most one error. */
  lemma {:induction false} GroupGrows(sh: Shell, cmds: seq<Command>, os: Os)
    ensures var r := RunGroup(sh, cmds, os);
      |sh.children| <= |r.children| <= |sh.children| + |cmds| &&
      r.children[..|sh.children|] == sh.children &&
      sh.errors <= r.errors <= sh.errors + |cmds|
    decreases |cmds|
  {
    if cmds != [] && !sh.exited {
      var next := Step(sh, cmds[0], os);
      GroupGrows(next, cmds[1..], os);
      var r := RunGroup(next, cmds[1..], os);
      assert r.children[..|sh.children|] == r.children[..|next.children|][..|sh.children|];
    }
  }

  /** Each command tries at most one fork; every child recorded took one fork, and
      every fork tried either recorded a child or printed an error. */
  lemma {:induction false} ForksCounted(sh: Shell, cmds: seq<Command>, os: Os)
    ensures var r := RunGroup(sh, cmds, os);
      sh.forks <= r.forks <= sh.forks + |cmds| &&
      r.forks - sh.forks <= (|r.children| - |sh.children|) + (r.errors - sh.errors) &&
      |r.children| - |sh.children| <= r.forks - sh.forks
    decreases |cmds|
  {
    if cmds != [] && !sh.exited {
      StepForks(sh, cmds[0], os);
      ForksCounted(Step(sh, cmds[0], os), cmds[1..], os);
    }
  }

  lemma StepForks(sh: Shell, command: Command, os: Os)
    ensures var r := Step(sh, command, os);
      sh.forks <= r.forks <= sh.forks + 1 && sh.errors <= r.errors &&
      (r.forks - sh.forks) <= (|r.children| - |sh.children|) + (r.errors - sh.errors) &&
      |sh.children| <= |r.children| <= |sh.children| + (r.forks - sh.forks)
  {
    match command {
      case External(name, args, out) =>
      case _ =>
    }
  }

  /** Built-ins, blank and malformed commands never record a child. */
  lemma {:induction false} BuiltinsRecordNothing(sh: Shell, cmds: seq<Command>, os: Os)
    requires forall k :: 0 <= k < |cmds| ==> !cmds[k].External?
    ensures RunGroup(sh, cmds, os).children == sh.children
    decreases |cmds|
  {
    if cmds != [] && !sh.exited {
      BuiltinsRecordNothing(Step(sh, cmds[0], os), cmds[1..], os);
    }
  }

  /** While no `path` command runs, the search path stays `dirs`, and every child
      recorded meanwhile carries it. */
  lemma {:induction false} PathKept(sh: Shell, cmds: seq<Command>, os: Os, dirs: seq<string>, from: nat)
    requires sh.path == dirs && from <= |sh.children|
    requires forall k :: from <= k < |sh.children| ==> sh.children[k].path == dirs
    requires forall k :: 0 <= k < |cmds| ==> !cmds[k].SetPath?
    ensures var r := RunGroup(sh, cmds, os);
      r.path == dirs && from <= |r.children| &&
      forall k :: from <= k < |r.children| ==> r.children[k].path == dirs
    decreases |cmds|
  {
    if cmds != [] && !sh.exited {
      var next := Step(sh, cmds[0], os);
      PathKept(next, cmds[1..], os, dirs, from);
    }
  }

  /** `path` takes effect at once: every later command of the same line that launches
      a child hands it the new search path, until the next `path`. */
  lemma LaterSiblingsSeeNewPath(sh: Shell, dirs: seq<string>, rest: seq<Command>, os: Os)
    requires !sh.exited
    requires forall k :: 0 <= k < |rest| ==> !rest[k].SetPath?
    ensures var r := RunGroup(sh, [SetPath(dirs)] + rest, os);
      r.path == dirs &&
      |sh.children| <= |r.children| && r.children[..|sh.children|] == sh.children &&
      forall k :: |sh.children| <= k < |r.children| ==> r.children[k].path == dirs
  {
    var cmds := [SetPath(dirs)] + rest;
    assert cmds[0] == SetPath(dirs) && cmds[1..] == rest;
    PathKept(sh.(path := dirs), rest, os, dirs, |sh.children|);
    GroupGrows(sh, cmds, os);
  }

  /** `exit` with no arguments stops everything after it. */
  lemma ExitStopsGroup(sh: Shell, rest: seq<Command>, os: Os)
    requires !sh.exited
    ensures RunGroup(sh, [Exit([])] + rest, os) == sh.(exited := true)
  {
    assert ([Exit([])] + rest)[0] == Exit([]);
  }

  /** A command whose redirection is refused costs one error, is skipped, and the
      next sibling is processed as if it had not been there. */
  lemma MalformedSkipped(sh: Shell, rest: seq<Command>, os: Os)
    requires !sh.exited
    ensures RunGroup(sh, [Malformed] + rest, os) == RunGroup(sh.(errors := sh.errors + 1), rest, os)
  {
    assert ([Malformed] + rest)[0] == Malformed && ([Malformed] + rest)[1..] == rest;
  }

  /** Words a command line can be written with: tokens with no `>` in them. */
  predicate PlainWords(ws: seq<string>) {
    forall k :: 0 <= k < |ws| ==> IsWord(ws[k]) && '>' !in ws[k]
  }

  /** Words joined by single spaces parse as themselves with no redirection. */
  lemma ParsePlain(ws: seq<string>)
    requires PlainWords(ws)
    ensures Redirect(Unwords(ws)) == Ok(Unwords(ws), "")
    ensures Tokens(Unwords(ws)) == ws
  {
    if '>' in Unwords(ws) {
      UnwordsChars(ws, '>');
    }
    RedirectWithoutMarker(Unwords(ws));
    TokensUnwords(ws);
  }

  /** How a command line written as plain words is classified: by its first word. */
  lemma ClassifyPlain(name: string, args: seq<string>)
    requires PlainWords([name] + args)
    ensures Classify(Unwords([name] + args)) ==
      if name == "exit" then Exit(args)
      else if name == "cd" then Cd(args)
      else if name == "path" then SetPath(args)
      else External(name, args, "")
  {
    var ws := [name] + args;
    ParsePlain(ws);
    ClassifyOk(Unwords(ws), Unwords(ws), "");
    assert ws[0] == name && ws[1..] == args;
  }

  /** `path a1 .. an` sets the search path to exactly `[a1, .., an]`, possibly
      empty, and changes nothing else. */
  lemma PathBuiltin(sh: Shell, dirs: seq<string>, os: Os)
    requires PlainWords(["path"] + dirs)
    ensures Step(sh, Classify(Unwords(["path"] + dirs)), os) == sh.(path := dirs)
  {
    ClassifyPlain("path", dirs);
  }

  /** `exit` alone ends the program; `exit` with arguments prints one error and
      leaves the path and the children as they were. */
  lemma ExitBuiltin(sh: Shell, args: seq<string>, os: Os)
    requires PlainWords(["exit"] + args)
    ensures Step(sh, Classify(Unwords(["exit"] + args)), os) ==
      if args == [] then sh.(exited := true) else sh.(errors := sh.errors + 1)
  {
    ClassifyPlain("exit", args);
  }

  /** `cd` with other than one argument prints one error and calls no `chdir`; with
      one argument it calls `chdir` once, which uses up one index of the oracle,
      and prints one error if that fails. Nothing else in the state changes. */
  lemma CdBuiltin(sh: Shell, args: seq<string>, os: Os)
    requires PlainWords(["cd"] + args)
    ensures Step(sh, Classify(Unwords(["cd"] + args)), os) ==
      if |args| != 1 then sh.(errors := sh.errors + 1)
      else if os.chdirOk(sh.chdirs, args[0]) then sh.(chdirs := sh.chdirs + 1)
      else sh.(errors := sh.errors + 1, chdirs := sh.chdirs + 1)
  {
    ClassifyCd(args);
    CdStep(sh, Classify(Unwords(["cd"] + args)), args, os);
  }

  /** Each `chdir` asks the oracle at a fresh index, so `cd d` can succeed and a
      second `cd d` in the same group fail (the directory is now the new one). */
  lemma CdRepeated(sh: Shell, d: string, os: Os)
    requires !sh.exited
    requires os.chdirOk(sh.chdirs, d) && !os.chdirOk(sh.chdirs + 1, d)
    ensures RunGroup(sh, [Cd([d]), Cd([d])], os) ==
      sh.(errors := sh.errors + 1, chdirs := sh.chdirs + 2)
  {
    var once := Step(sh, Cd([d]), os);
    assert once == sh.(chdirs := sh.chdirs + 1);
    assert [Cd([d]), Cd([d])][1..] == [Cd([d])];
    var twice := Step(once, Cd([d]), os);
    assert twice == sh.(errors := sh.errors + 1, chdirs := sh.chdirs + 2);
    assert RunGroup(once, [Cd([d])], os) == RunGroup(twice, [], os);
  }

  lemma CdStep(sh: Shell, c: Command, args: seq<string>, os: Os)
    requires c == Cd(args)
    ensures Step(sh, c, os) ==
      if |args| != 1 then sh.(errors := sh.errors + 1)
      else if os.chdirOk(sh.chdirs, args[0]) then sh.(chdirs := sh.chdirs + 1)
      else sh.(errors := sh.errors + 1, chdirs := sh.chdirs + 1)
  {
  }

  lemma ClassifyCd(args: seq<string>)
    requires PlainWords(["cd"] + args)
    ensures Classify(Unwords(["cd"] + args)) == Cd(args)
  {
    assert "cd"[0] != "exit"[0];
    ClassifyPlain("cd", args);
  }

  /** Any other command records one launch request, with argv taken from its
      tokens and the current search path, unless the fork fails (one error). */
  lemma ExternalLaunch(sh: Shell, name: string, args: seq<string>, os: Os)
    requires PlainWords([name] + args)
    requires name != "exit" && name != "cd" && name != "path"
    ensures Step(sh, Classify(Unwords([name] + args)), os) ==
      if os.forkOk(sh.forks)
      then sh.(children := sh.children + [Launch(name, args, sh.path, "")], forks := sh.forks + 1)
      else sh.(errors := sh.errors + 1, forks := sh.forks + 1)
  {
    ClassifyPlain(name, args);
  }

  /** `cmd args > file` is the same external command with `file` as its output
      file (so its launch request carries it); the file name may itself hold `>`. */
  lemma ClassifyRedirected(name: string, args: seq<string>, target: string)
    requires PlainWords([name] + args) && IsWord(target)
    requires name != "exit" && name != "cd" && name != "path"
    ensures Classify(Unwords([name] + args) + " > " + target) == External(name, args, target)
  {
    var ws := [name] + args;
    ParseRedirected(ws, target);
    ClassifyOk(Unwords(ws) + " > " + target, Unwords(ws) + " ", target);
    assert ws[0] == name && ws[1..] == args;
  }

  /** `w1 .. wn > file` splits into the words, followed by a space, and the target. */
  lemma ParseRedirected(ws: seq<string>, target: string)
    requires PlainWords(ws) && IsWord(target)
    ensures Redirect(Unwords(ws) + " > " + target) == Ok(Unwords(ws) + " ", target)
    ensures Tokens(Unwords(ws) + " ") == ws
  {
    var c := Unwords(ws) + " ";
    var rest := " " + target;
    assert Unwords(ws) + " > " + target == c + ">" + rest;
    ParsePlain(ws);
    assert '>' !in c;
    TargetToken(target);
    RedirectAtFirstMarker(c, rest);
    assert c == Unwords(ws) + [' '] + [];
    TokensSplit(Unwords(ws), ' ', []);
  }

  lemma TargetToken(target: string)
    requires IsWord(target)
    ensures Tokens(" " + target) == [target]
  {
    assert " " + target == [] + [' '] + target;
    TokensSplit([], ' ', target);
    TokensOfWord(target);
  }

  /** An empty command before `>`, or a target part without exactly one token,
      prints one error and changes nothing else. */
  lemma RedirectionRefused(sh: Shell, c: string, rest: string, os: Os)
    requires '>' !in c && (c == [] || |Tokens(rest)| != 1)
    ensures Step(sh, Classify(c + ">" + rest), os) == sh.(errors := sh.errors + 1)
  {
    RedirectAtFirstMarker(c, rest);
  }

  /** A command part of other whitespace passes the missing-command check and is
      then skipped without an error: nothing in the state changes. */
  lemma WhitespaceCommandSkipped(sh: Shell, os: Os)
    ensures Step(sh, Classify("\r> out"), os) == sh
  {
    WhitespaceCommandPartAccepted();
    ClassifyOk("\r> out", "\r", "out");
  }

  /** A line of nothing but whitespace and `&` does nothing: the group splitter
      strips only spaces and tabs, but whatever whitespace is left has no tokens.
      A lone `"\r"`, an empty line of a file with CRLF line ends, is such a line. */
  lemma BlankLine(sh: Shell, line: string, os: Os)
    requires forall k :: 0 <= k < |line| ==> IsSpace(line[k]) || line[k] == '&'
    ensures Line(sh, line, os) == sh.(children := [])
  {
    var group := Commands(line, '&');
    CommandsClean(line, '&');
    CommandsSubset(line, '&');
    forall k | 0 <= k < |group|
      ensures Classify(group[k]) == Blank
    {
      BlankCommand(line, group[k]);
    }
    BlanksDoNothing(sh.(children := []), ClassifyAll(group), os);
  }

  lemma BlankCommand(line: string, c: string)
    requires forall k :: 0 <= k < |line| ==> IsSpace(line[k]) || line[k] == '&'
    requires '&' !in c && forall x :: x in c ==> x in line
    ensures Classify(c) == Blank
  {
    forall k | 0 <= k < |c| ensures IsSpace(c[k]) {
      assert c[k] in line;
    }
    assert '>' !in c;
    RedirectWithoutMarker(c);
    TokensEmpty(c);
  }

  lemma {:induction false} BlanksDoNothing(sh: Shell, cmds: seq<Command>, os: Os)
    requires forall k :: 0 <= k < |cmds| ==> cmds[k] == Blank
    ensures RunGroup(sh, cmds, os) == sh
    decreases |cmds|
  {
    if cmds != [] && !sh.exited {
      BlanksDoNothing(sh, cmds[1..], os);
    }
  }
}
