/** `parseInput`: whitespace tokenizing as `while (ss >> token)` on a string stream does it. */
module Tokenizer {
  import opened Text

  /** What `operator>>` can produce: a non-empty run with no whitespace. */
  predicate IsWord(w: string) {
    w != [] && forall k :: 0 <= k < |w| ==> !IsSpace(w[k])
  }

  predicate AllSpace(s: string) {
    forall k :: 0 <= k < |s| ==> IsSpace(s[k])
  }

  /** Length of the longest whitespace-free prefix of `s`: the characters one
      extraction takes once leading whitespace has been skipped. */
  function WordLength(s: string): (n: nat)
    ensures n <= |s|
    ensures forall k :: 0 <= k < n ==> !IsSpace(s[k])
    ensures n == |s| || IsSpace(s[n])
  {
    if s == [] || IsSpace(s[0]) then 0 else 1 + WordLength(s[1..])
  }

  /** The tokens successive extractions yield: skip whitespace, take a maximal
      whitespace-free run, repeat until the stream is exhausted. */
  function Tokens(s: string): seq<string>
    decreases |s|
  {
    if s == [] then []
    else if IsSpace(s[0]) then Tokens(s[1..])
    else
      var n := WordLength(s);
      [s[..n]] + Tokens(s[n..])
  }

  /** Tokens joined by single spaces, the inverse direction of `Tokens`. */
  function Unwords(ws: seq<string>): string {
    if ws == [] then []
    else if |ws| == 1 then ws[0]
    else ws[0] + [' '] + Unwords(ws[1..])
  }

  /** `parseInput(input)`: the stream's read position is the index `i`. */
  method ParseInput(input: string) returns (tokens: seq<string>)
    ensures tokens == Tokens(input)
  {
    tokens := [];
    var i := 0;
    while i < |input|
      invariant 0 <= i <= |input|
      invariant tokens + Tokens(input[i..]) == Tokens(input)
    {
      if IsSpace(input[i]) {
        TokensAtSpace(input, i);
        i := i + 1;
      } else {
        var j := i;
        while j < |input| && !IsSpace(input[j])
          invariant i <= j <= |input|
          invariant forall k :: i <= k < j ==> !IsSpace(input[k])
        {
          j := j + 1;
        }
        TokensAtWord(input, i, j);
        Assoc(tokens, [input[i..j]], Tokens(input[j..]));
        tokens := tokens + [input[i..j]];
        i := j;
      }
    }
  }

  /** Whitespace at the read position is skipped. */
  lemma TokensAtSpace(s: string, i: nat)
    requires i < |s| && IsSpace(s[i])
    ensures Tokens(s[i..]) == Tokens(s[i + 1..])
  {
    assert s[i..][1..] == s[i + 1..];
  }

  /** A maximal whitespace-free run at the read position is the next token. */
  lemma TokensAtWord(s: string, i: nat, j: nat)
    requires i < j <= |s|
    requires forall k :: i <= k < j ==> !IsSpace(s[k])
    requires j == |s| || IsSpace(s[j])
    ensures Tokens(s[i..]) == [s[i..j]] + Tokens(s[j..])
  {
    var rest := s[i..];
    assert forall k :: 0 <= k < j - i ==> !IsSpace(rest[k]);
    assert j - i == |rest| || IsSpace(rest[j - i]);
    assert rest[..j - i] == s[i..j];
    assert rest[j - i..] == s[j..];
  }

  /** A word is its own only token. */
  lemma TokensOfWord(w: string)
    requires IsWord(w)
    ensures Tokens(w) == [w]
  {
    var n := WordLength(w);
    assert n == |w|;
    assert w[..n] == w;
  }

  /** Every token is non-empty and free of whitespace. */
  lemma {:induction false} TokensAreWords(s: string)
    ensures forall k :: 0 <= k < |Tokens(s)| ==> IsWord(Tokens(s)[k])
    decreases |s|
  {
    if s == [] {
    } else if IsSpace(s[0]) {
      TokensAreWords(s[1..]);
    } else {
      var n := WordLength(s);
      TokensAreWords(s[n..]);
    }
  }

  /** There are no tokens exactly when the input is all whitespace (the empty string included). */
  lemma {:induction false} TokensEmpty(s: string)
    ensures Tokens(s) == [] <==> AllSpace(s)
    decreases |s|
  {
    if s == [] {
    } else if IsSpace(s[0]) {
      TokensEmpty(s[1..]);
      if AllSpace(s[1..]) {
        forall k | 0 <= k < |s| ensures IsSpace(s[k]) {
          if k > 0 { assert s[k] == s[1..][k - 1]; }
        }
      }
    } else {
      assert !AllSpace(s);
    }
  }

  /** One whitespace character separates independently tokenized halves. */
  lemma {:induction false} TokensSplit(a: string, c: char, b: string)
    requires IsSpace(c)
    ensures Tokens(a + [c] + b) == Tokens(a) + Tokens(b)
    decreases |a|
  {
    if a == [] {
      assert (a + [c] + b)[1..] == b;
    } else if IsSpace(a[0]) {
      SplitAtSpace(a, c, b);
      TokensSplit(a[1..], c, b);
    } else {
      var n := WordLength(a);
      SplitAtWord(a, c, b);
      TokensSplit(a[n..], c, b);
      Assoc([a[..n]], Tokens(a[n..]), Tokens(b));
    }
  }

  lemma SplitAtSpace(a: string, c: char, b: string)
    requires a != [] && IsSpace(a[0])
    ensures Tokens(a + [c] + b) == Tokens(a[1..] + [c] + b)
    ensures Tokens(a) == Tokens(a[1..])
  {
    assert (a + [c] + b)[1..] == a[1..] + [c] + b;
  }

  lemma SplitAtWord(a: string, c: char, b: string)
    requires IsSpace(c) && a != [] && !IsSpace(a[0])
    ensures Tokens(a + [c] + b) == [a[..WordLength(a)]] + Tokens(a[WordLength(a)..] + [c] + b)
    ensures Tokens(a) == [a[..WordLength(a)]] + Tokens(a[WordLength(a)..])
  {
    var s := a + [c] + b;
    var n := WordLength(a);
    assert WordLength(s) == n by {
      assert forall k :: 0 <= k < n ==> s[k] == a[k];
      assert IsSpace(s[n]);
    }
    assert s[..n] == a[..n];
    assert s[n..] == a[n..] + [c] + b;
  }

  /** Leading and trailing whitespace does not change the tokens. */
  lemma {:induction false} TokensIgnoreSurrounding(lead: string, t: string, trail: string)
    requires AllSpace(lead) && AllSpace(trail)
    ensures Tokens(lead + t + trail) == Tokens(t)
    decreases |lead|
  {
    if lead == [] {
      assert lead + t + trail == t + trail;
      if trail != [] {
        assert t + trail == t + [trail[0]] + trail[1..];
        TokensSplit(t, trail[0], trail[1..]);
        TokensEmpty(trail[1..]);
      } else {
        assert t + trail == t;
      }
    } else {
      assert lead + t + trail == [] + [lead[0]] + (lead[1..] + t + trail);
      TokensSplit([], lead[0], lead[1..] + t + trail);
      TokensIgnoreSurrounding(lead[1..], t, trail);
    }
  }

  /** Trimming spaces and tabs before tokenizing changes nothing. */
  lemma TokensOfTrim(s: string)
    ensures Tokens(Trim(s)) == Tokens(s)
  {
    TrimSlice(s);
    var i, j :| 0 <= i <= j <= |s| && Trim(s) == s[i..j] && AllBlank(s[..i]) && AllBlank(s[j..]);
    Parts(s, i, j);
    BlankIsSpace(s[..i]);
    BlankIsSpace(s[j..]);
    TokensIgnoreSurrounding(s[..i], s[i..j], s[j..]);
  }

  lemma BlankIsSpace(s: string)
    requires AllBlank(s)
    ensures AllSpace(s)
  {
  }

  /** Joining words with single spaces and tokenizing gives the words back. */
  lemma {:induction false} TokensUnwords(ws: seq<string>)
    requires forall k :: 0 <= k < |ws| ==> IsWord(ws[k])
    ensures Tokens(Unwords(ws)) == ws
  {
    if ws == [] {
    } else if |ws| == 1 {
      TokensOfWord(ws[0]);
    } else {
      TokensUnwords(ws[1..]);
      TokensSplit(ws[0], ' ', Unwords(ws[1..]));
      TokensOfWord(ws[0]);
    }
  }

  /** Re-tokenizing the tokens joined by single spaces returns the same tokens. */
  lemma Retokenize(s: string)
    ensures Tokens(Unwords(Tokens(s))) == Tokens(s)
  {
    TokensAreWords(s);
    TokensUnwords(Tokens(s));
  }

  /** A character of the joined string is a space or a character of one of the words. */
  lemma {:induction false} UnwordsChars(ws: seq<string>, c: char)
    requires c in Unwords(ws)
    ensures c == ' ' || exists k :: 0 <= k < |ws| && c in ws[k]
  {
    if |ws| > 1 {
      if c in Unwords(ws[1..]) {
        UnwordsChars(ws[1..], c);
        if c != ' ' {
          var k :| 0 <= k < |ws[1..]| && c in ws[1..][k];
          assert c in ws[k + 1];
        }
      }
    }
  }
}
