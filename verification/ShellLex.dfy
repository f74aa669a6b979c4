/** sh.c's lexer. A line is a string without NUL; reading at its end gives the NUL that follows it in memory. */
module ShellLex {
  const NUL := 0 as char

  function At(s: string, i: nat): char {
    if i < |s| then s[i] else NUL
  }

  predicate IsSpace(c: char) {
    c == ' ' || c == '\t' || c == '\r' || c == '\n' || c == 11 as char
  }

  predicate IsSymbol(c: char) {
    c == '<' || c == '|' || c == '>' || c == '&' || c == ';' || c == '(' || c == ')'
  }

  predicate InWord(c: char) {
    !IsSpace(c) && !IsSymbol(c)
  }

  /** The first place from i on that is not white space. */
  function SkipSpace(s: string, i: nat): (r: nat)
    ensures i <= r && (i <= |s| ==> r <= |s|)
    ensures forall k :: i <= k < r ==> IsSpace(At(s, k))
    ensures r < |s| ==> !IsSpace(s[r])
    decreases |s| - i
  {
    if i < |s| && IsSpace(s[i]) then SkipSpace(s, i + 1) else i
  }

  function SkipWord(s: string, i: nat): (r: nat)
    ensures i <= r && (i <= |s| ==> r <= |s|)
    ensures forall k :: i <= k < r ==> InWord(At(s, k))
    ensures r < |s| ==> !InWord(s[r])
    decreases |s| - i
  {
    if i < |s| && InWord(s[i]) then SkipWord(s, i + 1) else i
  }

  /** A token: 'a' for a word, '+' for >>, else the symbol; its text is s[q..eq]. */
  datatype Token = Token(kind: char, q: nat, eq: nat)

  /** The token that starts at i, where a character other than white space stands. */
  function TokenAt(s: string, i: nat): (t: Token)
    requires i < |s| && !IsSpace(s[i])
    ensures t.q == i < t.eq <= |s|
    ensures t.kind == 'a' <==> InWord(s[i])
    ensures t.kind != NUL
  {
    if !IsSymbol(s[i]) then Token('a', i, SkipWord(s, i))
    else if s[i] == '>' && At(s, i + 1) == '>' then Token('+', i, i + 2)
    else Token(s[i], i, i + 1)
  }

  /** The tokens from i to the end of the line. */
  function Tokens(s: string, i: nat): seq<Token>
    decreases |s| - i
  {
    var j := SkipSpace(s, i);
    if j < |s| then [TokenAt(s, j)] + Tokens(s, TokenAt(s, j).eq) else []
  }

  lemma {:induction false} SkipTwice(s: string, i: nat)
    requires i <= |s|
    ensures SkipSpace(s, SkipSpace(s, i)) == SkipSpace(s, i)
    ensures Tokens(s, SkipSpace(s, i)) == Tokens(s, i)
  {
  }

  lemma {:induction false} TokenBounds(s: string, i: nat, n: nat)
    requires i <= |s| && n < |Tokens(s, i)|
    ensures var t := Tokens(s, i)[n]; i <= t.q < t.eq <= |s| && (t.kind == 'a' <==> InWord(s[t.q]))
    ensures var t := Tokens(s, i)[n]; t.kind == 'a' ==> forall k :: t.q <= k < t.eq ==> InWord(At(s, k))
    decreases |s| - i
  {
    var j := SkipSpace(s, i);
    if n > 0 {
      TokenBounds(s, TokenAt(s, j).eq, n - 1);
    }
  }

  /** Tokens come in order, and a word ends before the next word begins. */
  lemma {:induction false} TokensOrdered(s: string, i: nat, m: nat, n: nat)
    requires i <= |s| && m < n < |Tokens(s, i)|
    ensures var ts := Tokens(s, i); i <= ts[m].q < ts[m].eq <= ts[n].q < ts[n].eq <= |s|
    ensures var ts := Tokens(s, i); ts[m].kind == 'a' && ts[n].kind == 'a' ==> ts[m].eq < ts[n].q
    decreases |s| - i
  {
    var j := SkipSpace(s, i);
    var t := TokenAt(s, j);
    if m == 0 {
      TokenBounds(s, t.eq, n - 1);
    } else {
      TokensOrdered(s, t.eq, m - 1, n - 1);
    }
  }
}
