/** grep.c's matcher against what a pattern means: a row of pieces, each matching a stretch of the text. */
module Grep {

  /** One piece of a pattern: a character (a dot standing for any), or any number of them. */
  datatype Piece = One(c: char) | Star(c: char)

  /** What a pattern is made of, the final $ apart. A star after a character belongs to it, whatever it is. */
  function Pieces(re: string): seq<Piece> {
    if re == "" then []
    else if |re| >= 2 && re[1] == '*' then [Star(re[0])] + Pieces(re[2..])
    else if re == "$" then []
    else [One(re[0])] + Pieces(re[1..])
  }

  predicate ToEnd(re: string) {
    if re == "" then false
    else if |re| >= 2 && re[1] == '*' then ToEnd(re[2..])
    else re == "$" || ToEnd(re[1..])
  }

  predicate Fits(c: char, x: char) {
    c == '.' || c == x
  }

  predicate AllFit(c: char, w: string) {
    forall i :: 0 <= i < |w| ==> Fits(c, w[i])
  }

  predicate PieceFits(piece: Piece, w: string) {
    match piece
    case One(c) => |w| == 1 && Fits(c, w[0])
    case Star(c) => AllFit(c, w)
  }

  function Joined(parts: seq<string>): string {
    if parts == [] then "" else parts[0] + Joined(parts[1..])
  }

  /** w is a row of parts, one for each piece and matching it. */
  ghost predicate IsRow(pieces: seq<Piece>, parts: seq<string>, w: string) {
    && |parts| == |pieces| && Joined(parts) == w
    && forall i {:trigger parts[i]} :: 0 <= i < |parts| ==> PieceFits(pieces[i], parts[i])
  }

  ghost predicate Means(pieces: seq<Piece>, w: string) {
    exists parts :: IsRow(pieces, parts, w)
  }

  /** text begins with a match of re, n characters long. */
  ghost predicate MatchesTo(re: string, text: string, n: int) {
    0 <= n <= |text| && Means(Pieces(re), text[..n]) && (ToEnd(re) ==> n == |text|)
  }

  ghost predicate Begins(re: string, text: string) {
    exists n :: MatchesTo(re, text, n)
  }

  /** The meaning of a pattern: a match at the start after ^, else a match anywhere. */
  ghost predicate Found(re: string, text: string) {
    if re != "" && re[0] == '^' then Begins(re[1..], text)
    else exists i :: 0 <= i <= |text| && Begins(re, text[i..])
  }

  lemma MeansNone(w: string)
    ensures Means([], w) <==> w == ""
  {
    if w == "" {
      assert IsRow([], [], w);
    }
  }

  lemma RowTail(pieces: seq<Piece>, parts: seq<string>, w: string)
    requires IsRow(pieces, parts, w) && pieces != []
    ensures IsRow(pieces[1..], parts[1..], Joined(parts[1..]))
  {
  }

  lemma RowCons(piece: Piece, pieces: seq<Piece>, part: string, parts: seq<string>, w: string)
    requires IsRow(pieces, parts, w) && PieceFits(piece, part)
    ensures IsRow([piece] + pieces, [part] + parts, part + w)
  {
  }

  lemma MeansOne(c: char, rest: seq<Piece>, w: string)
    ensures Means([One(c)] + rest, w) <==> w != "" && Fits(c, w[0]) && Means(rest, w[1..])
  {
    var pieces := [One(c)] + rest;
    if Means(pieces, w) {
      var parts :| IsRow(pieces, parts, w);
      assert PieceFits(pieces[0], parts[0]);
      assert w == parts[0] + Joined(parts[1..]);
      RowTail(pieces, parts, w);
      assert w[1..] == Joined(parts[1..]);
    }
    if w != "" && Fits(c, w[0]) && Means(rest, w[1..]) {
      var parts :| IsRow(rest, parts, w[1..]);
      RowCons(One(c), rest, w[..1], parts, w[1..]);
      assert w[..1] + w[1..] == w;
    }
  }

  lemma MeansStar(c: char, rest: seq<Piece>, w: string)
    ensures Means([Star(c)] + rest, w) <==> exists k :: 0 <= k <= |w| && AllFit(c, w[..k]) && Means(rest, w[k..])
  {
    var pieces := [Star(c)] + rest;
    if Means(pieces, w) {
      var parts :| IsRow(pieces, parts, w);
      assert PieceFits(pieces[0], parts[0]);
      assert w == parts[0] + Joined(parts[1..]);
      RowTail(pieces, parts, w);
      var k := |parts[0]|;
      assert w[..k] == parts[0] && w[k..] == Joined(parts[1..]);
    }
    if k :| 0 <= k <= |w| && AllFit(c, w[..k]) && Means(rest, w[k..]) {
      var parts :| IsRow(rest, parts, w[k..]);
      RowCons(Star(c), rest, w[..k], parts, w[k..]);
      assert w[..k] + w[k..] == w;
    }
  }

  lemma BeginsEmpty(text: string)
    ensures Begins("", text)
  {
    MeansNone(text[..0]);
    assert MatchesTo("", text, 0);
  }

  lemma BeginsDollar(text: string)
    ensures Begins("$", text) <==> text == ""
  {
    if Begins("$", text) {
      var n :| MatchesTo("$", text, n);
      MeansNone(text[..n]);
      assert text[..n] == text;
    }
    if text == "" {
      MeansNone(text[..0]);
      assert MatchesTo("$", text, 0);
    }
  }

  lemma BeginsOne(re: string, text: string)
    requires re != "" && re != "$" && !(|re| >= 2 && re[1] == '*')
    ensures Begins(re, text) <==> text != "" && Fits(re[0], text[0]) && Begins(re[1..], text[1..])
  {
    if Begins(re, text) {
      var n :| MatchesTo(re, text, n);
      MeansOne(re[0], Pieces(re[1..]), text[..n]);
      assert text[..n][1..] == text[1..][..n - 1];
      assert MatchesTo(re[1..], text[1..], n - 1);
    }
    if text != "" && Fits(re[0], text[0]) && Begins(re[1..], text[1..]) {
      var n :| MatchesTo(re[1..], text[1..], n);
      MeansOne(re[0], Pieces(re[1..]), text[..n + 1]);
      assert text[..n + 1][1..] == text[1..][..n];
      assert MatchesTo(re, text, n + 1);
    }
  }

  /** re can take up again after k characters that fit c. */
  ghost predicate TakesUp(c: char, re: string, text: string, k: int) {
    0 <= k <= |text| && AllFit(c, text[..k]) && Begins(re, text[k..])
  }

  lemma BeginsStar(re: string, text: string)
    requires |re| >= 2 && re[1] == '*'
    ensures Begins(re, text) <==> exists k :: TakesUp(re[0], re[2..], text, k)
  {
    var c, rest := re[0], re[2..];
    if Begins(re, text) {
      var n :| MatchesTo(re, text, n);
      MeansStar(c, Pieces(rest), text[..n]);
      var k :| 0 <= k <= n && AllFit(c, text[..n][..k]) && Means(Pieces(rest), text[..n][k..]);
      assert text[..n][..k] == text[..k] && text[..n][k..] == text[k..][..n - k];
      assert MatchesTo(rest, text[k..], n - k);
      assert TakesUp(c, rest, text, k);
    }
    if k :| TakesUp(c, rest, text, k) {
      var n :| MatchesTo(rest, text[k..], n);
      var w := text[..k + n];
      assert w[..k] == text[..k] && w[k..] == text[k..][..n];
      MeansStar(c, Pieces(rest), w);
      assert MatchesTo(re, text, k + n);
    }
  }

  /** matchhere: the pattern matches at the beginning of the text. */
  method Matchhere(re: string, text: string) returns (b: bool)
    ensures b <==> Begins(re, text)
    decreases |re|, 0
  {
    if re == "" {
      BeginsEmpty(text);
      return true;
    }
    if |re| >= 2 && re[1] == '*' {
      BeginsStar(re, text);
      b := Matchstar(re[0], re[2..], text);
      return;
    }
    if re[0] == '$' && |re| == 1 {
      BeginsDollar(text);
      return text == "";
    }
    BeginsOne(re, text);
    if text != "" && (re[0] == '.' || re[0] == text[0]) {
      b := Matchhere(re[1..], text[1..]);
      return;
    }
    return false;
  }

  /** matchstar: c*re matches at the beginning of the text. */
  method Matchstar(c: char, re: string, text: string) returns (b: bool)
    ensures b <==> exists k :: TakesUp(c, re, text, k)
    decreases |re|, 1
  {
    var i := 0;
    while true
      invariant 0 <= i <= |text| && AllFit(c, text[..i])
      invariant forall k :: 0 <= k < i ==> !TakesUp(c, re, text, k)
      decreases |text| - i
    {
      var here := Matchhere(re, text[i..]);
      if here {
        assert TakesUp(c, re, text, i);
        return true;
      }
      if !(i < |text| && (text[i] == c || c == '.')) {
        forall k | i < k <= |text|
          ensures !TakesUp(c, re, text, k)
        {
          assert text[..k][i] == text[i];
        }
        return false;
      }
      i := i + 1;
    }
  }

  /** match: the text contains what the pattern means. */
  method Match(re: string, text: string) returns (b: bool)
    ensures b <==> Found(re, text)
  {
    if re != "" && re[0] == '^' {
      b := Matchhere(re[1..], text);
      return;
    }
    var i := 0;
    while true
      invariant 0 <= i <= |text|
      invariant forall k :: 0 <= k < i ==> !Begins(re, text[k..])
      decreases |text| - i
    {
      var here := Matchhere(re, text[i..]);
      if here {
        return true;
      }
      if i == |text| {
        return false;
      }
      i := i + 1;
    }
  }
}
