/** `splitCommands`: cutting one line into the commands of a parallel group. */
module Splitter {
  import opened Text

  /** The pieces `getline(ss, piece, d)` extracts from a stream over `s`, in order.
      A final delimiter does not produce a trailing empty piece: `getline` fails
      once it reaches the end of the stream without extracting anything. */
  function Segments(s: string, d: char): seq<string>
    decreases |s|
  {
    if s == [] then []
    else match Find(s, d)
      case None => [s]
      case Some(i) => [s[..i]] + Segments(s[i + 1..], d)
  }

  /** Each piece trimmed of spaces and tabs, and dropped if nothing is left. */
  function Keep(pieces: seq<string>): seq<string> {
    if pieces == [] then [] else Kept(pieces[0]) + Keep(pieces[1..])
  }

  /** One piece after trimming: itself, or nothing when it was blank. */
  function Kept(piece: string): seq<string> {
    if Trim(piece) == [] then [] else [Trim(piece)]
  }

  /** The result `splitCommands(s, d)` returns. */
  function Commands(s: string, d: char): seq<string> {
    Keep(Segments(s, d))
  }

  /** A command as the group splitter hands it on: non-empty, no space or tab at
      either end, no delimiter inside. */
  predicate Clean(c: string, d: char) {
    c != [] && !IsBlank(c[0]) && !IsBlank(c[|c| - 1]) && d !in c
  }

  /** `splitCommands(input, delimiter)`: `rest` is what the stream has not yet
      read, and each piece is trimmed by the two in-place erasures. */
  method SplitCommands(input: string, delimiter: char) returns (commands: seq<string>)
    ensures commands == Commands(input, delimiter)
  {
    commands := [];
    var rest := input;
    while rest != []
      invariant commands + Commands(rest, delimiter) == Commands(input, delimiter)
      decreases |rest|
    {
      var piece, next := ReadPiece(rest, delimiter);
      KeepCons(piece, Segments(next, delimiter));
      var command := EraseLeadingBlanks(piece);
      command := EraseTrailingBlanks(command);
      ghost var before := commands;
      if command != [] {
        commands := commands + [command];
      }
      assert commands == before + Kept(piece);
      Assoc(before, Kept(piece), Commands(next, delimiter));
      rest := next;
    }
  }

  /** One `getline(ss, piece, delimiter)` on a stream that still holds `rest`: the
      next piece, and what the stream holds after the delimiter is consumed. */
  method ReadPiece(rest: string, delimiter: char) returns (piece: string, next: string)
    requires rest != []
    ensures Segments(rest, delimiter) == [piece] + Segments(next, delimiter)
    ensures |next| < |rest|
  {
    var pos := Find(rest, delimiter);
    if pos.None? {
      piece, next := rest, [];
    } else {
      piece, next := rest[..pos.value], rest[pos.value + 1..];
    }
  }

  lemma KeepCons(piece: string, pieces: seq<string>)
    ensures Keep([piece] + pieces) == Kept(piece) + Keep(pieces)
  {
    assert ([piece] + pieces)[1..] == pieces;
  }

  lemma {:induction false} KeepAppend(a: seq<string>, b: seq<string>)
    ensures Keep(a + b) == Keep(a) + Keep(b)
  {
    if a == [] {
      assert a + b == b;
    } else {
      calc {
        Keep(a + b);
        { assert (a + b)[0] == a[0]; assert (a + b)[1..] == a[1..] + b; }
        Kept(a[0]) + Keep(a[1..] + b);
        { KeepAppend(a[1..], b); }
        Kept(a[0]) + (Keep(a[1..]) + Keep(b));
        { Assoc(Kept(a[0]), Keep(a[1..]), Keep(b)); }
        Keep(a) + Keep(b);
      }
    }
  }

  /** No piece contains the delimiter. */
  lemma {:induction false} SegmentsFree(s: string, d: char)
    ensures forall k :: 0 <= k < |Segments(s, d)| ==> d !in Segments(s, d)[k]
    decreases |s|
  {
    if s != [] {
      match Find(s, d) {
        case None =>
        case Some(i) => SegmentsFree(s[i + 1..], d);
      }
    }
  }

  lemma {:induction false} KeepClean(pieces: seq<string>, d: char)
    requires forall k :: 0 <= k < |pieces| ==> d !in pieces[k]
    ensures forall k :: 0 <= k < |Keep(pieces)| ==> Clean(Keep(pieces)[k], d)
  {
    if pieces != [] {
      KeepClean(pieces[1..], d);
      TrimEnds(pieces[0]);
      TrimSubset(pieces[0]);
    }
  }

  /** Every command is non-empty, has no leading or trailing space or tab, and
      holds no delimiter. */
  lemma CommandsClean(s: string, d: char)
    ensures forall k :: 0 <= k < |Commands(s, d)| ==> Clean(Commands(s, d)[k], d)
  {
    SegmentsFree(s, d);
    KeepClean(Segments(s, d), d);
  }

  /** Every piece is made of characters of the line. */
  lemma {:induction false} SegmentsSubset(s: string, d: char)
    ensures forall k, c :: 0 <= k < |Segments(s, d)| && c in Segments(s, d)[k] ==> c in s
    decreases |s|
  {
    if s != [] {
      match Find(s, d) {
        case None =>
        case Some(i) =>
          SegmentsSubset(s[i + 1..], d);
          SliceSubset(s, 0, i);
          SliceSubset(s, i + 1, |s|);
          assert s[..i] == s[0..i] && s[i + 1..] == s[i + 1..|s|];
      }
    }
  }

  lemma {:induction false} KeepSubset(pieces: seq<string>, s: string)
    requires forall j, c :: 0 <= j < |pieces| && c in pieces[j] ==> c in s
    ensures forall k, c :: 0 <= k < |Keep(pieces)| && c in Keep(pieces)[k] ==> c in s
  {
    if pieces != [] {
      KeepSubset(pieces[1..], s);
      TrimSubset(pieces[0]);
      assert forall c :: c in pieces[0] ==> c in s;
    }
  }

  /** Every command is made of characters of the line. */
  lemma CommandsSubset(s: string, d: char)
    ensures forall k, c :: 0 <= k < |Commands(s, d)| && c in Commands(s, d)[k] ==> c in s
  {
    SegmentsSubset(s, d);
    KeepSubset(Segments(s, d), s);
  }

  /** A string without the delimiter is one command, trimmed, or none at all. */
  lemma CommandsOfPiece(s: string, d: char)
    requires d !in s
    ensures Commands(s, d) == if Trim(s) == [] then [] else [Trim(s)]
  {
    if s == [] {
      assert Trim(s) == [];
    } else {
      assert Segments(s, d) == [s] + [];
      KeepCons(s, []);
    }
  }

  /** The delimiter right after a delimiter-free `a` ends the first piece. */
  lemma CommandsAfterPiece(a: string, b: string, d: char)
    requires d !in a
    ensures Commands(a + [d] + b, d) == Kept(a) + Commands(b, d)
  {
    var s := a + [d] + b;
    assert s[..|a|] == a && s[|a| + 1..] == b;
    FindFirst(s, d, |a|);
    CommandsAt(s, d, |a|);
  }

  lemma CommandsAfterWhole(a: string, b: string, d: char)
    requires d !in a
    ensures Commands(a + [d] + b, d) == Commands(a, d) + Commands(b, d)
  {
    CommandsAfterPiece(a, b, d);
    if a == [] {
      assert Kept(a) == [];
    } else {
      CommandsLast(a, d);
    }
  }

  /** Source order: the commands of `a`, then those of `b`. */
  lemma {:induction false} CommandsConcat(a: string, b: string, d: char)
    ensures Commands(a + [d] + b, d) == Commands(a, d) + Commands(b, d)
    decreases |a|
  {
    match Find(a, d) {
      case None =>
        CommandsAfterWhole(a, b, d);
      case Some(i) =>
        calc {
          Commands(a + [d] + b, d);
          { CommandsBeforeDelimiter(a, b, d, i); }
          Kept(a[..i]) + Commands(a[i + 1..] + [d] + b, d);
          { CommandsConcat(a[i + 1..], b, d); }
          Kept(a[..i]) + (Commands(a[i + 1..], d) + Commands(b, d));
          { Assoc(Kept(a[..i]), Commands(a[i + 1..], d), Commands(b, d)); }
          Kept(a[..i]) + Commands(a[i + 1..], d) + Commands(b, d);
          { CommandsAt(a, d, i); }
          Commands(a, d) + Commands(b, d);
        }
    }
  }

  lemma CommandsBeforeDelimiter(a: string, b: string, d: char, i: nat)
    requires Find(a, d) == Some(i)
    ensures Commands(a + [d] + b, d) == Kept(a[..i]) + Commands(a[i + 1..] + [d] + b, d)
  {
    var s := a + [d] + b;
    assert s[..i] == a[..i] && s[i] == d;
    FindFirst(s, d, i);
    assert s[i + 1..] == a[i + 1..] + [d] + b;
    CommandsAt(s, d, i);
  }

  /** Nothing but spaces, tabs and delimiters. */
  predicate Void(s: string, d: char) {
    forall k :: 0 <= k < |s| ==> IsBlank(s[k]) || s[k] == d
  }

  lemma VoidAt(s: string, d: char, i: nat)
    requires i < |s| && s[i] == d && d !in s[..i]
    ensures Void(s, d) <==> AllBlank(s[..i]) && Void(s[i + 1..], d)
  {
    if AllBlank(s[..i]) && Void(s[i + 1..], d) {
      forall k | 0 <= k < |s| ensures IsBlank(s[k]) || s[k] == d {
        if k < i {
          assert s[k] == s[..i][k];
        } else if k > i {
          assert s[k] == s[i + 1..][k - i - 1];
        }
      }
    }
    if Void(s, d) {
      forall k | 0 <= k < i ensures IsBlank(s[..i][k]) {
        assert s[..i][k] == s[k];
      }
    }
  }

  /** Reading up to the next delimiter yields one piece, then the rest of the stream. */
  lemma CommandsAt(s: string, d: char, i: nat)
    requires Find(s, d) == Some(i)
    ensures Commands(s, d) == Kept(s[..i]) + Commands(s[i + 1..], d)
  {
    KeepCons(s[..i], Segments(s[i + 1..], d));
  }

  /** With no delimiter left, the rest of the stream is the final piece. */
  lemma CommandsLast(s: string, d: char)
    requires s != [] && Find(s, d) == None
    ensures Commands(s, d) == Kept(s) && Commands([], d) == []
  {
    KeepCons(s, []);
    assert [s] + [] == [s];
  }

  /** A line yields no command exactly when it holds nothing but spaces, tabs and
      delimiters (an empty line included). */
  lemma {:induction false} CommandsEmpty(s: string, d: char)
    ensures Commands(s, d) == [] <==> Void(s, d)
    decreases |s|
  {
    if s != [] {
      match Find(s, d) {
        case None =>
          TrimEnds(s);
          CommandsOfPiece(s, d);
          assert Void(s, d) <==> AllBlank(s);
        case Some(i) =>
          CommandsEmpty(s[i + 1..], d);
          CommandsAt(s, d, i);
          TrimEnds(s[..i]);
          VoidAt(s, d, i);
      }
    }
  }

  /** Splitting is idempotent: each command, split again, is exactly itself. */
  lemma CommandsIdempotent(s: string, d: char)
    ensures forall k :: 0 <= k < |Commands(s, d)| ==> Commands(Commands(s, d)[k], d) == [Commands(s, d)[k]]
  {
    CommandsClean(s, d);
    forall k | 0 <= k < |Commands(s, d)| ensures Commands(Commands(s, d)[k], d) == [Commands(s, d)[k]] {
      CleanIsOwnCommand(Commands(s, d)[k], d);
    }
  }

  lemma CleanIsOwnCommand(c: string, d: char)
    requires Clean(c, d)
    ensures Commands(c, d) == [c]
  {
    TrimKeeps(c);
    CommandsOfPiece(c, d);
  }
}
