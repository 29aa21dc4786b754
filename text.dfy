/** Character classes and the `std::string` searches the shell's parsing code is built from. */
module Text {

  datatype Option<T> = None | Some(value: T)

  /** Regrouping a concatenation, stated once so that proofs need not rediscover it. */
  lemma Assoc<T>(x: seq<T>, y: seq<T>, z: seq<T>)
    ensures x + y + z == x + (y + z)
  {
  }

  /** A sequence is what precedes index `i`, the element there, and what follows. */
  lemma Around<T>(s: seq<T>, i: nat)
    requires i < |s|
    ensures s == s[..i] + [s[i]] + s[i + 1..]
  {
    assert s[..i] + [s[i]] == s[..i + 1];
  }

  /** A sequence is its three slices around `i` and `j`, put back together. */
  lemma Parts<T>(s: seq<T>, i: nat, j: nat)
    requires i <= j <= |s|
    ensures s == s[..i] + s[i..j] + s[j..]
  {
    assert s[..i] + s[i..j] == s[..j];
    assert s[..j] + s[j..] == s;
  }

  /** C `isspace` in the "C" locale, the test `operator>>` on a string stream uses
      to skip and end tokens: space, tab, newline, vertical tab, form feed, carriage return. */
  predicate IsSpace(c: char) {
    c == ' ' || c == '\t' || c == '\n' || c == '\U{B}' || c == '\U{C}' || c == '\r'
  }

  /** The characters of the set `" \t"` that the trimming code strips. */
  predicate IsBlank(c: char) {
    c == ' ' || c == '\t'
  }

  predicate AllBlank(s: string) {
    forall k :: 0 <= k < |s| ==> IsBlank(s[k])
  }

  /** `s.find(c)`: the index of the first `c` in `s`, or None where C++ returns `npos`. */
  function Find(s: string, c: char): (r: Option<nat>)
    ensures r.Some? ==> r.value < |s| && s[r.value] == c && c !in s[..r.value]
    ensures r.None? <==> c !in s
  {
    var r := FindFrom(s, c, 0);
    if r.Some? then
      assert forall j :: 0 <= j < r.value ==> s[..r.value][j] == s[j];
      r
    else r
  }

  /** The scan `find` performs, from index `k` on. */
  function FindFrom(s: string, c: char, k: nat): (r: Option<nat>)
    requires k <= |s|
    ensures r.Some? ==> k <= r.value < |s| && s[r.value] == c && forall j :: k <= j < r.value ==> s[j] != c
    ensures r.None? <==> forall j :: k <= j < |s| ==> s[j] != c
    decreases |s| - k
  {
    if k == |s| then None
    else if s[k] == c then Some(k)
    else FindFrom(s, c, k + 1)
  }

  /** The first occurrence is the one `Find` reports. */
  lemma FindFirst(s: string, c: char, i: nat)
    requires i < |s| && s[i] == c && c !in s[..i]
    ensures Find(s, c) == Some(i)
  {
    assert forall j :: 0 <= j < i ==> s[j] == s[..i][j];
    FindFromFirst(s, c, 0, i);
  }

  lemma {:induction false} FindFromFirst(s: string, c: char, k: nat, i: nat)
    requires k <= i < |s| && s[i] == c
    requires forall j :: k <= j < i ==> s[j] != c
    ensures FindFrom(s, c, k) == Some(i)
    decreases i - k
  {
    if k < i {
      FindFromFirst(s, c, k + 1, i);
    }
  }

  /** `s.find_first_not_of(" \t")`. */
  function FindFirstNotBlank(s: string): (r: Option<nat>)
    ensures r.Some? ==> r.value < |s| && !IsBlank(s[r.value]) && AllBlank(s[..r.value])
    ensures r.None? <==> AllBlank(s)
  {
    var r := FirstNotBlankFrom(s, 0);
    if r.Some? then
      assert forall j :: 0 <= j < r.value ==> s[..r.value][j] == s[j];
      r
    else r
  }

  /** The forward scan `find_first_not_of` performs, from index `k` on. */
  function FirstNotBlankFrom(s: string, k: nat): (r: Option<nat>)
    requires k <= |s|
    ensures r.Some? ==> k <= r.value < |s| && !IsBlank(s[r.value]) && forall j :: k <= j < r.value ==> IsBlank(s[j])
    ensures r.None? <==> forall j :: k <= j < |s| ==> IsBlank(s[j])
    decreases |s| - k
  {
    if k == |s| then None
    else if !IsBlank(s[k]) then Some(k)
    else FirstNotBlankFrom(s, k + 1)
  }

  /** `s.find_last_not_of(" \t")`. */
  function FindLastNotBlank(s: string): (r: Option<nat>)
    ensures r.Some? ==> r.value < |s| && !IsBlank(s[r.value]) && AllBlank(s[r.value + 1..])
    ensures r.None? <==> AllBlank(s)
  {
    var r := LastNotBlankBelow(s, |s|);
    if r.Some? then
      assert forall j :: r.value + 1 <= j < |s| ==> s[r.value + 1..][j - r.value - 1] == s[j];
      r
    else r
  }

  /** The backward scan `find_last_not_of` performs, over the indices below `k`. */
  function LastNotBlankBelow(s: string, k: nat): (r: Option<nat>)
    requires k <= |s|
    ensures r.Some? ==> r.value < k && !IsBlank(s[r.value]) && forall j :: r.value < j < k ==> IsBlank(s[j])
    ensures r.None? <==> forall j :: 0 <= j < k ==> IsBlank(s[j])
  {
    if k == 0 then None
    else if !IsBlank(s[k - 1]) then Some(k - 1)
    else LastNotBlankBelow(s, k - 1)
  }

  /** `s.erase(0, s.find_first_not_of(" \t"))`: with `npos` the whole string is erased. */
  function EraseLeadingBlanks(s: string): string {
    match FindFirstNotBlank(s)
    case None => []
    case Some(i) => s[i..]
  }

  /** `s.erase(s.find_last_not_of(" \t") + 1)`: `npos + 1` wraps to 0, so with no
      non-blank character the whole string is erased. */
  function EraseTrailingBlanks(s: string): string {
    match FindLastNotBlank(s)
    case None => []
    case Some(i) => s[..i + 1]
  }

  /** The two erase steps in the order the shell applies them. */
  function Trim(s: string): string {
    EraseTrailingBlanks(EraseLeadingBlanks(s))
  }

  /** Trimming removes exactly a blank prefix and a blank suffix: what is left is
      the slice between them. */
  lemma TrimSlice(s: string)
    ensures exists i, j :: 0 <= i <= j <= |s| && Trim(s) == s[i..j] && AllBlank(s[..i]) && AllBlank(s[j..])
  {
    match FindFirstNotBlank(s) {
      case None =>
        assert Trim(s) == s[|s|..|s|];
        assert s[|s|..] == [];
      case Some(i) =>
        var left := s[i..];
        assert left[0] == s[i];
        match FindLastNotBlank(left) {
          case None =>
            assert false;
          case Some(j) =>
            assert Trim(s) == s[i..i + j + 1];
            assert s[i + j + 1..] == left[j + 1..];
        }
    }
  }

  /** What is left is empty precisely for an all-blank string, and otherwise
      begins and ends with a non-blank character. */
  lemma TrimEnds(s: string)
    ensures Trim(s) == [] <==> AllBlank(s)
    ensures Trim(s) != [] ==> !IsBlank(Trim(s)[0]) && !IsBlank(Trim(s)[|Trim(s)| - 1])
  {
    match FindFirstNotBlank(s) {
      case None =>
      case Some(i) =>
        var left := s[i..];
        assert left[0] == s[i];
        match FindLastNotBlank(left) {
          case None =>
            assert false;
          case Some(j) =>
            assert Trim(s) == left[..j + 1];
        }
    }
  }

  /** Trimming keeps only characters of the original. */
  lemma TrimSubset(s: string)
    ensures forall c :: c in Trim(s) ==> c in s
  {
    TrimSlice(s);
    var i, j :| 0 <= i <= j <= |s| && Trim(s) == s[i..j];
    SliceSubset(s, i, j);
  }

  lemma SliceSubset(s: string, i: nat, j: nat)
    requires i <= j <= |s|
    ensures forall c :: c in s[i..j] ==> c in s
  {
    forall c | c in s[i..j] ensures c in s {
      var k :| 0 <= k < j - i && s[i..j][k] == c;
      assert s[i + k] == c;
    }
  }

  /** A string that neither begins nor ends with a blank is left alone. */
  lemma TrimKeeps(s: string)
    requires s != [] ==> !IsBlank(s[0]) && !IsBlank(s[|s| - 1])
    ensures Trim(s) == s
  {
    if s != [] {
      assert FindFirstNotBlank(s) == Some(0);
      assert s[0..] == s;
      assert FindLastNotBlank(s) == Some(|s| - 1);
      assert s[..|s|] == s;
    }
  }

  /** Trimming twice is trimming once. */
  lemma TrimIdempotent(s: string)
    ensures Trim(Trim(s)) == Trim(s)
  {
    TrimEnds(s);
    TrimKeeps(Trim(s));
  }
}
