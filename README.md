# A verified model of a small Unix shell's line engine

The shell (`shell.cpp`) reads commands from a batch file or interactively. It
splits each line into a parallel group on `&` and parses each command's output
redirection (`cmd args > file`) and tokens. It runs the built-ins `exit`, `cd`
and `path` in place. Every other command is forked, searched for on the current
search path and run. Each line's children are waited for before the next line
is read, unless the line runs `exit`, which ends the program at once. Errors of
every kind print one uniform message.

This project models the deterministic part of that engine in Dafny:

- `text.dfy` (module `Text`): the `std::string` searches the parsers are built
  from (`find`, `find_first_not_of(" \t")`, `find_last_not_of(" \t")`) and the
  two-step trim that uses them. `EraseLeadingBlanks` and `EraseTrailingBlanks`
  model the two erasures (shell.cpp:31-32), the second one including the
  `npos + 1` wrap to 0 for an all-blank string; `Trim` is both.
- `tokenizer.dfy` (`Tokenizer`): `parseInput`, whitespace tokenizing as
  `stringstream >>` does it with C `isspace`. `Tokens` is the specification
  function (shell.cpp:16-24).
- `splitter.dfy` (`Splitter`): `splitCommands`, the `getline`-based group
  splitter that trims and drops empty pieces. `Segments` gives the pieces
  `getline` yields (shell.cpp:30), `Keep` trims them and drops the empty ones
  (shell.cpp:31-35), and `Commands` is the two together (shell.cpp:26-38).
- `redirection.dfy` (`Redirection`): the inline redirection parser of the loop
  body. `Redirect` is its specification function (shell.cpp:128-163).
- `launcher.dfy` (`Launcher`): the child side of `executeCommand`, argv
  construction and the search along the path. `Candidate` is the string
  `dir + "/" + command` (shell.cpp:69).
- `dispatcher.dfy` (`Dispatcher`): the per-line loop body as a state machine
  over the search path, the recorded children, an error count, an `exited`
  flag and the counts of forks and `chdir` calls tried. `Classify` maps a
  command string to its branch (shell.cpp:128-186). `Step` is the effect of
  one branch on the state (shell.cpp:142-196): `exit` at 172-177, `cd` at
  178-183, `customPath = args` at 184-185 and the fork at 186-196. `RunGroup`
  runs the commands of a group in order, stopping after `exit`, and `Line` is
  the whole body for one line (shell.cpp:124-202).
- `driver.dfy` (`Driver`): the batch newline splitter and the interactive loop
  around that body. `Terminated` gives the newline-terminated lines of the
  batch input (shell.cpp:119-122). `RunLines` runs a sequence of lines until
  `exit` (shell.cpp:119-204 and 209-295).

The loops of `parseInput`, `splitCommands`, the per-line group and the batch and
interactive read loops are `method`s with `while` loops: `ParseInput`,
`SplitCommands`, `ProcessLine`, `RunBatch` and `RunInteractive`. Each is proved
equal to a pure specification function (`Tokens`, `Commands`, `Line`,
`RunLines`). The straight-line code of the redirection parser and of one
command's dispatch is the methods `ParseRedirection` and `DispatchCommand`,
proved equal to `Redirect` and to `Step` of `Classify`. The search loop
of `executeCommand` is also a `method`, specified relationally: it runs the first
candidate on the path that starts, or reports that none does. The loops that wait
for the children (shell.cpp:200-202, 291-293) are not methods; the wait is
modelled as a barrier with no effect on the state. The properties the shell
promises are lemmas about the specification functions.

The operating system is a parameter, `Os`, holding four oracles:

- whether the parent's n-th `chdir(dir)` of the run succeeds;
- whether the parent's n-th fork of the run succeeds;
- whether `access(p, X_OK)` succeeds;
- whether `execv(p, …)` takes effect.

A fork that succeeds is recorded as a launch request. A launch request holds
the command, its arguments, the search path it was forked with, and its output
file. `printErrorMessage` is modelled as incrementing the error count. The
shell state counts the forks and the `chdir` calls tried so far in the whole
run, so each fork and each `chdir` asks its oracle about a fresh index.

The batch and interactive loops carry the same body, duplicated in the source
(shell.cpp:127-202 and 218-293). Both call the one `Dispatcher.ProcessLine`.

Two behaviours of the code that are easy to misread, both modelled as written:

- The redirection check for a missing command, at shell.cpp:142, refuses only the
  empty string; it does not refuse a command part that merely trims to empty. A command part such as
  `"\r"` passes and is then skipped without an error, because it has no tokens
  (line 168).
- Tokens are separated by any C `isspace` character (space, tab, newline,
  vertical tab, form feed, carriage return), not only by spaces and tabs, because
  `operator>>` uses `isspace`. The group splitter and the target trim strip
  only spaces and tabs.

## Model

| member | source | states |
|---|---|---|
| Text.Find | shell.cpp:128 | `find` gives an index holding the character with no earlier occurrence, or none exactly when the character is absent |
| Text.FindFirst | shell.cpp:120 | the first occurrence of a character is the index `find` reports |
| Text.FindFirstNotBlank | shell.cpp:31 | `find_first_not_of(" \t")`: the first non-blank index with only blanks before it, or none exactly for an all-blank string |
| Text.FindLastNotBlank | shell.cpp:32 | `find_last_not_of(" \t")`: the last non-blank index with only blanks after it, or none exactly for an all-blank string |
| Text.TrimSlice | shell.cpp:31-32 | the two erasures remove exactly a blank prefix and a blank suffix, leaving the slice between them |
| Text.TrimEnds | shell.cpp:31-33 | the trimmed piece is empty exactly when the piece is all blanks; otherwise it starts and ends with a non-blank |
| Text.TrimSubset | shell.cpp:31-32 | trimming keeps only characters of the original |
| Text.TrimKeeps | shell.cpp:31-32 | a string with no blank at either end is left unchanged |
| Text.TrimIdempotent | shell.cpp:31-32 | trimming twice is trimming once |
| Tokenizer.WordLength | shell.cpp:20 | one extraction takes the longest whitespace-free prefix: every character before the end is non-space and the character at the end is space or the end of input |
| Tokenizer.ParseInput | shell.cpp:16-24 | the token loop returns exactly the tokens successive extractions yield |
| Tokenizer.TokensOfWord | shell.cpp:20-22 | a single word tokenizes to itself |
| Tokenizer.TokensAreWords | shell.cpp:16-24 | every token is non-empty and holds no whitespace |
| Tokenizer.TokensEmpty | shell.cpp:16-24 | there are no tokens exactly when the input is all whitespace |
| Tokenizer.TokensSplit | shell.cpp:20 | a whitespace character separates the tokens of the two sides: tokens of `a + [c] + b` are tokens of `a` then tokens of `b` |
| Tokenizer.TokensIgnoreSurrounding | shell.cpp:20 | leading and trailing whitespace does not change the tokens |
| Tokenizer.TokensOfTrim | shell.cpp:138-153 | trimming the redirection part before tokenizing does not change its tokens |
| Tokenizer.TokensUnwords | shell.cpp:16-24 | words joined by single spaces tokenize back to the same words |
| Tokenizer.Retokenize | shell.cpp:16-24 | re-tokenizing the tokens joined by single spaces returns the same tokens |
| Splitter.SplitCommands | shell.cpp:26-38 | the `getline` loop with in-place trimming returns exactly the trimmed non-empty pieces, in order |
| Splitter.ReadPiece | shell.cpp:30 | one `getline` call yields the next piece and leaves the rest of the stream, whose pieces follow |
| Splitter.SegmentsFree | shell.cpp:30 | no piece `getline` yields contains the delimiter |
| Splitter.KeepAppend | shell.cpp:30-36 | trimming and dropping pieces commutes with concatenating piece lists |
| Splitter.CommandsClean | shell.cpp:26-38 | every command is non-empty, has no space or tab at either end, and holds no delimiter |
| Splitter.CommandsOfPiece | shell.cpp:30-35 | a delimiter-free string gives its trimmed self, or nothing if it is blank |
| Splitter.CommandsConcat | shell.cpp:30-36 | source order: the commands of `a & b` are those of `a` followed by those of `b` |
| Splitter.CommandsSubset | shell.cpp:26-38 | every command is made of characters of the line |
| Splitter.CommandsEmpty | shell.cpp:26-38 | a line yields no commands exactly when it holds only spaces, tabs and delimiters (the empty line included) |
| Splitter.CommandsIdempotent | shell.cpp:30-35 | splitting any returned command again yields exactly that command |
| Redirection.ParseRedirection | shell.cpp:128-163 | the inline parser computes `Redirect`: split at the first `>`, refuse an empty command part, require exactly one target token |
| Redirection.RedirectWithoutMarker | shell.cpp:161-163 | with no `>` the whole string is the command part and there is no output file |
| Redirection.RedirectAtFirstMarker | shell.cpp:133-160 | with `c` before the first `>`: empty `c` is refused, a remainder without exactly one token is refused, otherwise `c` and that token are the result |
| Redirection.RedirectSound | shell.cpp:128-135 | an accepted result either has no `>` and no output file, or a non-empty `>`-free command part that is exactly the prefix before the first `>` and a single-word output file that is the only token after it |
| Redirection.TargetMayHoldMarker | shell.cpp:128-160 | `echo > a>b` is accepted with target `a>b` |
| Redirection.WhitespaceCommandPartAccepted | shell.cpp:142-145 | a `"\r"` command part passes the missing-command check, and has no tokens |
| Launcher.ExecuteCommand | shell.cpp:62-75 | argv is the command followed by its arguments; the child runs exactly when some `dir + "/" + command` is executable and `execv` takes effect, and then runs the first such candidate in path order; otherwise it fails (always so with an empty path) |
| Dispatcher.ProcessLine | shell.cpp:124-202 | the loop body for one line computes `Line`: a fresh child list, then each command of the `&` group in order, stopping after `exit` |
| Dispatcher.DispatchCommand | shell.cpp:127-196 | one command's redirection, tokens and built-in or launch branch computes `Step` of its classification |
| Dispatcher.ClassifyAll | shell.cpp:127 | one classification per command of the group, in order |
| Dispatcher.GroupGrows | shell.cpp:186-196 | earlier children stay in order; each command adds at most one child and at most one error |
| Dispatcher.ForksCounted | shell.cpp:186-196 | a group tries at most one fork per command; every fork tried either records a child or prints an error, and no child is recorded without a fork |
| Dispatcher.BuiltinsRecordNothing | shell.cpp:172-185 | a group with no external command records no child |
| Dispatcher.PathKept | shell.cpp:184-189 | while no `path` runs the search path is unchanged and every child recorded meanwhile carries it |
| Dispatcher.LaterSiblingsSeeNewPath | shell.cpp:184-189 | after `path dirs`, every later child recorded in the same line before another `path` carries `dirs`, and earlier children are untouched |
| Dispatcher.ExitStopsGroup | shell.cpp:172-177 | `exit` with no arguments stops the rest of the group and changes nothing but the flag |
| Dispatcher.MalformedSkipped | shell.cpp:142-159 | a refused redirection costs one error and processing continues with the next sibling |
| Dispatcher.ClassifyPlain | shell.cpp:166-186 | a command written as words separated by single spaces, with no `>`, is classified by its first word, with the rest as arguments and no output file |
| Dispatcher.PathBuiltin | shell.cpp:184-185 | `path a1 .. an` sets the search path to exactly `[a1, .., an]`, possibly empty, and changes nothing else (for a command written as words separated by single spaces, with no `>`) |
| Dispatcher.ExitBuiltin | shell.cpp:172-177 | `exit` alone ends the program; with arguments it prints one error and changes nothing else (for a command written as words separated by single spaces, with no `>`) |
| Dispatcher.CdBuiltin | shell.cpp:178-183 | `cd` with other than one argument prints one error and calls no `chdir`; with one argument it calls `chdir` once and prints one error if that fails; nothing else changes (for a command written as words separated by single spaces, with no `>`) |
| Dispatcher.CdRepeated | shell.cpp:178-183 | each `chdir` is a fresh question to the operating system: `cd d` can succeed and a second `cd d` fail, costing exactly one error |
| Dispatcher.ExternalLaunch | shell.cpp:186-196 | any other command records one launch with its name, arguments and the current path, or prints one error when the fork fails; either way it uses up one fork index (for a command written as words separated by single spaces, with no `>`) |
| Dispatcher.ClassifyRedirected | shell.cpp:128-189 | `cmd args > file` is the external command `cmd args` with output file `file` |
| Dispatcher.ParseRedirected | shell.cpp:128-160 | `w1 .. wn > file` parses into the words followed by a space, and the target |
| Dispatcher.RedirectionRefused | shell.cpp:141-159 | an empty command part before `>`, or a target part without exactly one token, prints one error and changes nothing else |
| Dispatcher.WhitespaceCommandSkipped | shell.cpp:142-168 | `"\r> out"` passes the redirection checks and is then skipped with no error and no change |
| Dispatcher.BlankLine | shell.cpp:124-168 | a line of only whitespace (any C `isspace` character, as a lone `"\r"`) and `&` does nothing beyond starting a fresh child list |
| Driver.RunBatch | shell.cpp:119-124 | the find/erase loop processes, in order, exactly the non-empty newline-terminated lines, until `exit` |
| Driver.RunInteractive | shell.cpp:209-215 | the `getline(cin)` loop processes, in order, exactly the non-empty lines read, until `exit` |
| Driver.ProcessAndLog | shell.cpp:124-202 | one line is processed and its children are logged as one group |
| Driver.TerminatedReassemble | shell.cpp:119-122 | the terminated lines, each followed by its newline, then the unterminated rest, rebuild the input; no line and not the rest holds a newline |
| Driver.TerminatedOfUnlines | shell.cpp:119-122 | conversely, newline-free lines written back with newlines plus newline-free text split into exactly those lines and that text |
| Driver.TrailingTextDropped | shell.cpp:119-123 | a file of terminated lines followed by unterminated text runs exactly its non-empty lines; the text is dropped |
| Driver.BatchLinesShape | shell.cpp:119-123 | every processed batch line is non-empty and holds no newline |
| Driver.SegmentsKeepTail | shell.cpp:30 | `getline` pieces are the terminated lines plus the unterminated rest when non-empty, which the batch loop drops |
| Driver.RunLinesAppend | shell.cpp:119-204 | running lines `a` then `b` is running `a + b`; once `a` has run `exit`, running `a + b` is running `a` alone, so nothing after it happens |

## Left out

- Process control is not modelled: `fork`, `execv`, `waitpid`, `exit` and the
  double fork (shell.cpp:41, 71, 87, 187-190, 200-202). A successful fork
  becomes a launch request appended to the line's children. The wait is a
  barrier with no effect on the state. `exit(0)` becomes the `exited` flag,
  after which nothing runs.
- A fork's success is an oracle indexed by how many forks the parent has tried
  before it in the whole run, not by any property of the system. The fork
  inside `executeCommand` (shell.cpp:41-45) is not modelled separately.
- `open`, `dup2` and `close` for redirection (shell.cpp:49-60) are OS
  descriptor I/O; only the chosen output-file name is kept, in the launch
  request.
- The replay of the redirect file in batch mode (shell.cpp:77-86) is I/O that
  races with the child it reads from; it is not modelled, nor is the
  `batchMode` flag it depends on.
- `chdir` (shell.cpp:181, 272) acts on the OS. Its success is an oracle indexed
  by how many `chdir` calls the parent has made before it in the whole run and
  by the argument. The working directory is not part of the state, so the model
  does not say which later answers a successful `chdir` or a child's effect on
  the file system implies; any sequence of answers is allowed.
- The reading of the batch file in 1023-byte chunks (shell.cpp:107-117) is not
  modelled, nor is the read error that exits with status 1; `RunBatch` takes
  the string the read loop builds.
- `input += string(buffer)` (shell.cpp:112) stops each chunk at its first NUL
  byte, so a file holding NUL bytes loses the rest of each such chunk; the model
  does not capture this and starts from the string already built.
- The interactive input, the `shell> ` prompt and `sleep(1)` (shell.cpp:207-213,
  294-295) are I/O and timing. `RunInteractive` takes the lines `getline(cin)`
  would return as a sequence.
- Program startup is not modelled: the argument-count check, opening the batch
  file and the `argv[0] == "./shell"` test (shell.cpp:94-104, 206).
- `printErrorMessage` (shell.cpp:11-14) is a write to stderr. It is modelled as
  one increment of the error count at each parent-side call.
- Launcher.ExecuteCommand: the child's own refusal of an output file that cannot
  be opened (shell.cpp:52-55) is not modelled, with the rest of the descriptor
  I/O. No executable candidate is the `NotFound` outcome; the child's error is not
  added to the parent's error count, which a child process cannot change.
- Launcher.ExecuteCommand: a C string is cut at its first NUL character; the
  model treats argv and paths as whole strings.
