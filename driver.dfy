/** The two driving loops of `main`: batch mode cuts the file's contents into
    newline-terminated lines; interactive mode takes the lines `getline` reads.
    Both skip empty lines and hand every other line to the same per-line body. */
module Driver {
  import opened Text
  import opened Splitter
  import opened Launcher
  import opened Dispatcher

  /** The shell between lines, and the children recorded for each processed line,
      in order. Every group but the one of a line that runs `exit` is waited for
      before the next line is read; `exit` ends the program without waiting. */
  datatype Session = Session(shell: Shell, groups: seq<seq<Launch>>)

  const Start: Session := Session(Initial, [])

  /** The `d`-terminated lines of `s`, in order, without their terminators. */
  function Terminated(s: string, d: char): seq<string>
    decreases |s|
  {
    match Find(s, d)
    case None => []
    case Some(i) => [s[..i]] + Terminated(s[i + 1..], d)
  }

  /** The text after the last `d`, or all of `s` when it has none. */
  function Unterminated(s: string, d: char): string
    decreases |s|
  {
    match Find(s, d)
    case None => s
    case Some(i) => Unterminated(s[i + 1..], d)
  }

  /** Lines written back, each followed by `d`. */
  function Unlines(lines: seq<string>, d: char): string {
    if lines == [] then [] else lines[0] + [d] + Unlines(lines[1..], d)
  }

  function NonEmpty(lines: seq<string>): seq<string> {
    if lines == [] then [] else (if lines[0] == [] then [] else [lines[0]]) + NonEmpty(lines[1..])
  }

  /** The lines the batch loop processes. */
  function BatchLines(input: string): seq<string> {
    NonEmpty(Terminated(input, '\n'))
  }

  /** One processed line: the shell after it, and its group logged. */
  function Next(sess: Session, line: string, os: Os): Session {
    var sh := Line(sess.shell, line, os);
    Session(sh, sess.groups + [sh.children])
  }

  /** Lines processed in order until `exit` ends the program. */
  function RunLines(sess: Session, lines: seq<string>, os: Os): Session
    decreases |lines|
  {
    if lines == [] || sess.shell.exited then sess
    else RunLines(Next(sess, lines[0], os), lines[1..], os)
  }

  /** The batch loop over the whole file's contents: find a newline, take the line
      before it, erase both from the front of `input`, process the line unless it is
      empty. Text after the last newline is never processed. */
  method RunBatch(input: string, os: Os) returns (sess: Session)
    ensures sess == RunLines(Start, BatchLines(input), os)
  {
    var rest := input;
    sess := Start;
    var pos := Find(rest, '\n');
    while pos.Some? && !sess.shell.exited
      invariant pos == Find(rest, '\n')
      invariant RunLines(sess, BatchLines(rest), os) == RunLines(Start, BatchLines(input), os)
      decreases |rest|
    {
      var line := rest[..pos.value];
      BatchLinesAt(rest, pos.value);
      rest := rest[pos.value + 1..];
      if line != [] {
        RunLinesCons(sess, line, BatchLines(rest), os);
        sess := ProcessAndLog(sess, line, os);
      } else {
        assert [] + BatchLines(rest) == BatchLines(rest);
      }
      pos := Find(rest, '\n');
    }
  }

  /** The interactive loop over the lines read from standard input. */
  method RunInteractive(lines: seq<string>, os: Os) returns (sess: Session)
    ensures sess == RunLines(Start, NonEmpty(lines), os)
  {
    sess := Start;
    var k := 0;
    while k < |lines| && !sess.shell.exited
      invariant 0 <= k <= |lines|
      invariant RunLines(sess, NonEmpty(lines[k..]), os) == RunLines(Start, NonEmpty(lines), os)
    {
      var input := lines[k];
      assert lines[k..] == [input] + lines[k + 1..];
      RunNonEmptyCons(sess, input, lines[k + 1..], os);
      if input != [] {
        sess := ProcessAndLog(sess, input, os);
      }
      k := k + 1;
    }
    if k == |lines| {
      assert lines[k..] == [];
    }
  }

  /** The loop body both modes share: process the line, then join its group. */
  method ProcessAndLog(sess: Session, line: string, os: Os) returns (r: Session)
    ensures r == Next(sess, line, os)
  {
    var sh := ProcessLine(sess.shell, line, os);
    r := Session(sh, sess.groups + [sh.children]);
  }

  lemma RunNonEmptyCons(sess: Session, line: string, lines: seq<string>, os: Os)
    requires !sess.shell.exited
    ensures RunLines(sess, NonEmpty([line] + lines), os) ==
      RunLines(if line == [] then sess else Next(sess, line, os), NonEmpty(lines), os)
  {
    NonEmptyCons(line, lines);
    if line == [] {
      assert [] + NonEmpty(lines) == NonEmpty(lines);
    } else {
      RunLinesCons(sess, line, NonEmpty(lines), os);
    }
  }

  lemma NonEmptyCons(line: string, lines: seq<string>)
    ensures NonEmpty([line] + lines) == (if line == [] then [] else [line]) + NonEmpty(lines)
  {
    assert ([line] + lines)[0] == line && ([line] + lines)[1..] == lines;
  }

  lemma BatchLinesAt(s: string, i: nat)
    requires Find(s, '\n') == Some(i)
    ensures BatchLines(s) == (if s[..i] == [] then [] else [s[..i]]) + BatchLines(s[i + 1..])
  {
    NonEmptyCons(s[..i], Terminated(s[i + 1..], '\n'));
  }

  lemma RunLinesCons(sess: Session, line: string, lines: seq<string>, os: Os)
    requires !sess.shell.exited
    ensures RunLines(sess, [line] + lines, os) == RunLines(Next(sess, line, os), lines, os)
  {
    assert ([line] + lines)[0] == line && ([line] + lines)[1..] == lines;
  }

  /** The terminated lines, each with its terminator, followed by the unterminated
      rest, make up the input again; no line holds the terminator and neither does
      the rest. */
  lemma {:induction false} TerminatedReassemble(s: string, d: char)
    ensures Unlines(Terminated(s, d), d) + Unterminated(s, d) == s
    ensures d !in Unterminated(s, d)
    ensures forall k :: 0 <= k < |Terminated(s, d)| ==> d !in Terminated(s, d)[k]
    decreases |s|
  {
    match Find(s, d) {
      case None =>
      case Some(i) =>
        TerminatedReassemble(s[i + 1..], d);
        TerminatedAt(s, d, i);
    }
  }

  /** One step of the reassembly: the line before the first `d`, `d`, then the rest. */
  lemma TerminatedAt(s: string, d: char, i: nat)
    requires Find(s, d) == Some(i)
    requires Unlines(Terminated(s[i + 1..], d), d) + Unterminated(s[i + 1..], d) == s[i + 1..]
    requires var ls := Terminated(s[i + 1..], d); forall k :: 0 <= k < |ls| ==> d !in ls[k]
    ensures Unlines(Terminated(s, d), d) + Unterminated(s, d) == s
    ensures forall k :: 0 <= k < |Terminated(s, d)| ==> d !in Terminated(s, d)[k]
  {
    var line, rest := s[..i], s[i + 1..];
    var ls, t := Terminated(rest, d), Unterminated(rest, d);
    TerminatedUnfold(s, d, i);
    Glue(line, ls, t, rest, d);
    Around(s, i);
    FreeCons(line, ls, d);
  }

  lemma TerminatedUnfold(s: string, d: char, i: nat)
    requires Find(s, d) == Some(i)
    ensures Terminated(s, d) == [s[..i]] + Terminated(s[i + 1..], d)
    ensures Unterminated(s, d) == Unterminated(s[i + 1..], d)
    ensures d !in s[..i]
  {
  }

  lemma FreeCons(line: string, ls: seq<string>, d: char)
    requires d !in line
    requires forall k :: 0 <= k < |ls| ==> d !in ls[k]
    ensures forall k :: 0 <= k < |[line] + ls| ==> d !in ([line] + ls)[k]
  {
  }

  lemma Glue(line: string, ls: seq<string>, t: string, rest: string, d: char)
    requires Unlines(ls, d) + t == rest
    ensures Unlines([line] + ls, d) + t == line + [d] + rest
  {
    UnlinesCons(line, ls, d);
    Assoc(line + [d], Unlines(ls, d), t);
  }

  lemma UnlinesCons(line: string, lines: seq<string>, d: char)
    ensures Unlines([line] + lines, d) == line + [d] + Unlines(lines, d)
  {
    assert ([line] + lines)[0] == line && ([line] + lines)[1..] == lines;
  }

  /** Conversely, writing terminator-free lines back and appending terminator-free
      text gives exactly those lines and that text. */
  lemma {:induction false} TerminatedOfUnlines(lines: seq<string>, t: string, d: char)
    requires forall k :: 0 <= k < |lines| ==> d !in lines[k]
    requires d !in t
    ensures Terminated(Unlines(lines, d) + t, d) == lines
    ensures Unterminated(Unlines(lines, d) + t, d) == t
  {
    if lines != [] {
      var s := Unlines(lines, d) + t;
      var l := lines[0];
      var more := Unlines(lines[1..], d) + t;
      assert s == l + [d] + more;
      assert s[..|l|] == l && s[|l|] == d && s[|l| + 1..] == more;
      FindFirst(s, d, |l|);
      TerminatedOfUnlines(lines[1..], t, d);
    }
  }

  /** Text after the last newline is dropped: a batch file made of newline-terminated
      lines and a final unterminated piece runs exactly its non-empty lines. */
  lemma TrailingTextDropped(lines: seq<string>, t: string)
    requires forall k :: 0 <= k < |lines| ==> '\n' !in lines[k]
    requires '\n' !in t
    ensures BatchLines(Unlines(lines, '\n') + t) == NonEmpty(lines)
  {
    TerminatedOfUnlines(lines, t, '\n');
  }

  /** Every processed batch line is non-empty and holds no newline. */
  lemma BatchLinesShape(input: string)
    ensures forall k :: 0 <= k < |BatchLines(input)| ==>
      BatchLines(input)[k] != [] && '\n' !in BatchLines(input)[k]
  {
    TerminatedReassemble(input, '\n');
    NonEmptyKeeps(Terminated(input, '\n'), '\n');
  }

  lemma {:induction false} NonEmptyKeeps(lines: seq<string>, d: char)
    requires forall k :: 0 <= k < |lines| ==> d !in lines[k]
    ensures forall k :: 0 <= k < |NonEmpty(lines)| ==> NonEmpty(lines)[k] != [] && d !in NonEmpty(lines)[k]
  {
    if lines != [] {
      NonEmptyKeeps(lines[1..], d);
    }
  }

  /** Where the batch loop and `getline` differ: `getline` also yields the text
      after the last delimiter, the batch loop drops it. */
  lemma {:induction false} SegmentsKeepTail(s: string, d: char)
    ensures Segments(s, d) == Terminated(s, d) + (if Unterminated(s, d) == [] then [] else [Unterminated(s, d)])
    decreases |s|
  {
    match Find(s, d) {
      case None =>
        assert Terminated(s, d) == [] && Unterminated(s, d) == s;
      case Some(i) =>
        SegmentsKeepTail(s[i + 1..], d);
        TerminatedUnfold(s, d, i);
        SegmentsUnfold(s, d, i);
        var t := Unterminated(s, d);
        Assoc([s[..i]], Terminated(s[i + 1..], d), if t == [] then [] else [t]);
    }
  }

  lemma SegmentsUnfold(s: string, d: char, i: nat)
    requires Find(s, d) == Some(i)
    ensures Segments(s, d) == [s[..i]] + Segments(s[i + 1..], d)
  {
  }

  /** Lines run one after another: running `a` then `b` is running `a + b`, and once
      `exit` has run nothing more happens. */
  lemma {:induction false} RunLinesAppend(sess: Session, a: seq<string>, b: seq<string>, os: Os)
    ensures RunLines(sess, a + b, os) == RunLines(RunLines(sess, a, os), b, os)
    ensures RunLines(sess, a, os).shell.exited ==> RunLines(sess, a + b, os) == RunLines(sess, a, os)
    decreases |a|
  {
    if a == [] {
      assert a + b == b;
    } else if sess.shell.exited {
      assert RunLines(sess, a, os) == sess;
      if b != [] {
        assert RunLines(sess, a + b, os) == sess;
      }
    } else {
      assert (a + b)[0] == a[0] && (a + b)[1..] == a[1..] + b;
      RunLinesAppend(Next(sess, a[0], os), a[1..], b, os);
    }
  }
}
