/** The redirection parser inlined in both driving loops: one command string
    becomes the part to tokenize and an output file, or is refused. */
module Redirection {
  import opened Text
  import opened Tokenizer

  /** The outcome for one command string. `outputFile` is "" when the string has
      no `>`. Both refusals print the same uniform error; they are told apart here
      only to state when each happens. */
  datatype Parsed =
    | Ok(commandPart: string, outputFile: string)
    | MissingCommand
    | BadTarget

  /** What the inline parser computes: split at the FIRST `>`; refuse an empty
      command part (the empty string only, not other whitespace); trim and
      tokenize the rest, which must hold exactly one token. */
  function Redirect(full: string): Parsed {
    match Find(full, '>')
    case None => Ok(full, "")
    case Some(p) =>
      if full[..p] == [] then MissingCommand
      else
        var targets := Tokens(Trim(full[p + 1..]));
        if |targets| != 1 then BadTarget else Ok(full[..p], targets[0])
  }

  /** The inline parser as the loop body runs it: `find`, two `substr`s, the two
      trimming erasures, the empty-command check, then the token loop. */
  method ParseRedirection(fullCommand: string) returns (r: Parsed)
    ensures r == Redirect(fullCommand)
  {
    var redirPos := Find(fullCommand, '>');
    if redirPos.None? {
      return Ok(fullCommand, "");
    }
    var commandPart := fullCommand[..redirPos.value];
    var redirectionPart := fullCommand[redirPos.value + 1..];
    redirectionPart := EraseLeadingBlanks(redirectionPart);
    redirectionPart := EraseTrailingBlanks(redirectionPart);
    if commandPart == [] {
      return MissingCommand;
    }
    var redirectionTokens := ParseInput(redirectionPart);
    if |redirectionTokens| != 1 {
      return BadTarget;
    }
    r := Ok(commandPart, redirectionTokens[0]);
  }

  /** Without `>` the whole string is the command part and there is no output file. */
  lemma RedirectWithoutMarker(full: string)
    requires '>' !in full
    ensures Redirect(full) == Ok(full, "")
  {
  }

  /** With `c` the text before the first `>`: an empty `c` is refused, a remainder
      without exactly one token is refused, and otherwise that token is the output
      file and `c` the command part. */
  lemma RedirectAtFirstMarker(c: string, rest: string)
    requires '>' !in c
    ensures Redirect(c + ">" + rest) ==
      if c == [] then MissingCommand
      else if |Tokens(rest)| != 1 then BadTarget
      else Ok(c, Tokens(rest)[0])
  {
    var full := c + ">" + rest;
    assert full[..|c|] == c && full[|c|] == '>';
    FindFirst(full, '>', |c|);
    assert full[|c| + 1..] == rest;
    TokensOfTrim(rest);
  }

  /** What an accepted result means: either there was no `>`, no output file and
      the whole string is the command part; or the command part is the non-empty,
      `>`-free text before the first `>`, and the output file is the one token
      after it, a proper word. So the output file is empty exactly when there is
      no redirection. */
  lemma RedirectSound(full: string)
    requires Redirect(full).Ok?
    ensures var c, o := Redirect(full).commandPart, Redirect(full).outputFile;
      ('>' !in full && c == full && o == "") ||
      ('>' in full && c != [] && '>' !in c && |c| < |full| && full[..|c|] == c && full[|c|] == '>' &&
       Tokens(full[|c| + 1..]) == [o] && IsWord(o))
  {
    match Find(full, '>') {
      case None =>
      case Some(p) => RedirectSoundAt(full, p);
    }
  }

  lemma RedirectSoundAt(full: string, p: nat)
    requires Find(full, '>') == Some(p) && Redirect(full).Ok?
    ensures var c, o := Redirect(full).commandPart, Redirect(full).outputFile;
      c == full[..p] && c != [] && '>' !in c && p < |full| && full[p] == '>' &&
      Tokens(full[p + 1..]) == [o] && IsWord(o)
  {
    var rest := full[p + 1..];
    TokensOfTrim(rest);
    TokensAreWords(rest);
    var ts := Tokens(rest);
    assert Redirect(full) == Ok(full[..p], ts[0]);
    assert ts == [ts[0]];
  }

  /** A target token may itself hold `>`: only the first `>` splits. */
  lemma TargetMayHoldMarker()
    ensures Redirect("echo > a>b") == Ok("echo ", "a>b")
  {
    assert "echo > a>b" == "echo " + ">" + " a>b";
    assert " a>b" == [] + [' '] + "a>b";
    TokensSplit([], ' ', "a>b");
    TokensOfWord("a>b");
    RedirectAtFirstMarker("echo ", " a>b");
  }

  /** Only the empty string counts as a missing command: a carriage return before
      `>` is accepted, and its command part then has no tokens at all. */
  lemma WhitespaceCommandPartAccepted()
    ensures Redirect("\r> out") == Ok("\r", "out")
    ensures Tokens("\r") == []
  {
    assert "\r> out" == "\r" + ">" + " out";
    assert " out" == [] + [' '] + "out";
    TokensSplit([], ' ', "out");
    TokensOfWord("out");
    RedirectAtFirstMarker("\r", " out");
  }
}
