/** sh.c's parser as it runs: a cursor moved along the line, and the NULs written into it at the end. */
module ShellCode {
  import opened ShellLex
  import opened ShellGrammar
  import opened ShellSyntax
  import ShellLine

  datatype Outcome = Tree(cmd: Cmd<Token>) | Panic

  ghost predicate Agrees(p: Parsed, r: Outcome, rest: seq<Token>) {
    match p
    case Fail => r.Panic?
    case Ok(c, rest') => r == Tree(c) && rest == rest'
  }

  function Joined(rs: seq<Redirect<Token>>, p: ParsedRedirs): ParsedRedirs {
    match p
    case FailRedirs => FailRedirs
    case OkRedirs(more, rest) => OkRedirs(rs + more, rest)
  }

  lemma {:induction false} EndsAtNul(s: string, i: nat)
    requires NUL !in s
    ensures At(s, i) == NUL <==> i >= |s|
  {
  }

  /** What peek sees in the first character tells the kind of the token. */
  lemma {:induction false} PeekKind(s: string, i: nat)
    requires i < |s| && !IsSpace(s[i])
    ensures var k := TokenAt(s, i).kind;
            && (IsRedir(k) <==> s[i] in "<>") && (IsEnd(k) <==> s[i] in "|)&;") && (k == '(' <==> s[i] in "(")
            && (k == ')' <==> s[i] in ")") && (k == '&' <==> s[i] in "&") && (k == ';' <==> s[i] in ";")
            && (k == '|' <==> s[i] in "|")
  {
  }

  class Parser {
    const s: string
    var pos: nat

    constructor (s: string)
      ensures this.s == s && pos == 0
    {
      this.s, pos := s, 0;
    }

    ghost function Rest(): seq<Token>
      reads this
    {
      Tokens(s, pos)
    }

    method SkipBlanks()
      requires pos <= |s|
      modifies this
      ensures pos == SkipSpace(s, old(pos)) && pos <= |s| && Rest() == old(Rest())
    {
      while pos < |s| && IsSpace(s[pos])
        invariant pos <= |s| && SkipSpace(s, pos) == SkipSpace(s, old(pos))
      {
        pos := pos + 1;
      }
      SkipTwice(s, old(pos));
    }

    /** Whether the next token starts with one of toks. */
    method Peek(toks: string) returns (b: bool)
      requires pos <= |s|
      modifies this
      ensures old(pos) <= pos <= |s| && Rest() == old(Rest())
      ensures b <==> pos < |s| && s[pos] in toks && !IsSpace(s[pos])
      ensures Rest() == [] <==> pos == |s|
      ensures pos < |s| ==> !IsSpace(s[pos]) && Rest()[0] == TokenAt(s, pos)
    {
      SkipBlanks();
      SkipTwice(s, old(pos));
      b := pos < |s| && s[pos] in toks;
    }

    /** The next token is taken; NUL at the end of the line. */
    method Gettoken() returns (t: Token)
      requires pos <= |s| && NUL !in s
      modifies this
      ensures old(pos) <= pos <= |s|
      ensures t.kind == NUL <==> old(Rest()) == []
      ensures if old(Rest()) == [] then Rest() == []
              else t == old(Rest())[0] && Rest() == old(Rest())[1..] && pos > old(pos)
    {
      SkipBlanks();
      ghost var start := pos;
      assert SkipSpace(s, pos) == pos by { SkipTwice(s, old(pos)); }
      var q := pos;
      var kind := At(s, pos);
      EndsAtNul(s, pos);
      if kind == NUL {
      } else if kind == '|' || kind == '(' || kind == ')' || kind == ';' || kind == '&' || kind == '<' {
        pos := pos + 1;
      } else if kind == '>' {
        pos := pos + 1;
        if At(s, pos) == '>' {
          kind := '+';
          pos := pos + 1;
        }
      } else {
        kind := 'a';
        while pos < |s| && !IsSpace(s[pos]) && !IsSymbol(s[pos])
          invariant pos <= |s| && SkipWord(s, pos) == SkipWord(s, start)
        {
          pos := pos + 1;
        }
      }
      t := Token(kind, q, pos);
      assert start < |s| ==> t == TokenAt(s, start);
      SkipBlanks();
    }

    /** Peek, in terms of the next token. */
    method PeekFor(toks: string) returns (b: bool)
      requires pos <= |s| && toks in {"<>", "|)&;", "(", ")", "&", ";", "|"}
      modifies this
      ensures old(pos) <= pos <= |s| && Rest() == old(Rest())
      ensures toks == "<>" ==> (b <==> IsRedir(First(Rest())))
      ensures toks == "|)&;" ==> (b <==> IsEnd(First(Rest())))
      ensures |toks| == 1 ==> (b <==> First(Rest()) == toks[0])
    {
      b := Peek(toks);
      if pos < |s| {
        PeekKind(s, pos);
      }
    }

    method Parseredirs() returns (ok: bool, rs: seq<Redirect<Token>>)
      requires pos <= |s| && NUL !in s
      modifies this
      ensures old(pos) <= pos <= |s|
      ensures ok <==> old(ParseRedirs(Rest())).OkRedirs?
      ensures ok ==> old(ParseRedirs(Rest())) == OkRedirs(rs, Rest())
    {
      rs := [];
      var more := PeekFor("<>");
      while more
        invariant old(pos) <= pos <= |s| && (more <==> IsRedir(First(Rest())))
        invariant Joined(rs, ParseRedirs(Rest())) == old(ParseRedirs(Rest()))
        decreases |s| - pos
      {
        ghost var ts := Rest();
        var tok := Gettoken();
        var file := Gettoken();
        if file.kind != 'a' {
          return false, rs;
        }
        assert ts[2..] == ts[1..][1..];
        rs := rs + [Redirect(file, tok.kind != '<')];
        more := PeekFor("<>");
      }
      ok := true;
      assert rs + [] == rs;
    }

    method Parseexec() returns (r: Outcome)
      requires pos <= |s| && NUL !in s
      modifies this
      ensures old(pos) <= pos <= |s| && Agrees(old(ParseExec(Rest())), r, Rest())
      decreases |s| - pos, 1
    {
      var paren := PeekFor("(");
      if paren {
        r := Parseblock();
        return;
      }
      var ok, rs := Parseredirs();
      if !ok {
        return Panic;
      }
      var args: seq<Token> := [];
      var stop := PeekFor("|)&;");
      while !stop
        invariant old(pos) <= pos <= |s| && (stop <==> IsEnd(First(Rest())))
        invariant ParseArgs(args, rs, Rest()) == old(ParseExec(Rest()))
        decreases |s| - pos
      {
        var tok := Gettoken();
        if tok.kind == NUL {
          break;
        }
        if tok.kind != 'a' {
          return Panic;
        }
        args := args + [tok];
        if |args| >= MAXARGS {
          return Panic;
        }
        var more;
        ok, more := Parseredirs();
        if !ok {
          return Panic;
        }
        rs := rs + more;
        stop := PeekFor("|)&;");
      }
      return Tree(Wrap(Exec(args), rs));
    }

    /** ( line ) and the redirections of the whole; the caller has seen the parenthesis. */
    method Parseblock() returns (r: Outcome)
      requires pos <= |s| && NUL !in s && First(Rest()) == '('
      modifies this
      ensures old(pos) <= pos <= |s| && Agrees(old(ParseExec(Rest())), r, Rest())
      decreases |s| - pos, 0
    {
      var _ := Gettoken();
      r := Parseline();
      if r.Panic? {
        return;
      }
      var close := PeekFor(")");
      if !close {
        return Panic;
      }
      var _ := Gettoken();
      var ok, rs := Parseredirs();
      if !ok {
        return Panic;
      }
      return Tree(Wrap(r.cmd, rs));
    }

    method Parsepipe() returns (r: Outcome)
      requires pos <= |s| && NUL !in s
      modifies this
      ensures old(pos) <= pos <= |s| && Agrees(old(ParsePipe(Rest())), r, Rest())
      decreases |s| - pos, 2
    {
      r := Parseexec();
      if r.Panic? {
        return;
      }
      var bar := PeekFor("|");
      if bar {
        var _ := Gettoken();
        var right := Parsepipe();
        if right.Panic? {
          return Panic;
        }
        r := Tree(Pipe(r.cmd, right.cmd));
      }
    }

    method Parseline() returns (r: Outcome)
      requires pos <= |s| && NUL !in s
      modifies this
      ensures old(pos) <= pos <= |s| && Agrees(old(ParseLine(Rest())), r, Rest())
      decreases |s| - pos, 3
    {
      r := Parsepipe();
      if r.Panic? {
        return;
      }
      var amp := PeekFor("&");
      while amp
        invariant old(pos) <= pos <= |s| && (amp <==> First(Rest()) == '&') && r.Tree?
        invariant ParseAfter(r.cmd, Rest()) == old(ParseLine(Rest()))
        decreases |s| - pos
      {
        var _ := Gettoken();
        r := Tree(Back(r.cmd));
        amp := PeekFor("&");
      }
      var semi := PeekFor(";");
      if semi {
        var _ := Gettoken();
        var right := Parseline();
        if right.Panic? {
          return Panic;
        }
        r := Tree(List(r.cmd, right.cmd));
      }
    }
  }

  function SetOf(ts: seq<Token>): set<Token> {
    set t | t in ts
  }

  /** The words of a command. */
  function Leaves(c: Cmd<Token>): set<Token> {
    match c
    case Exec(args) => SetOf(args)
    case Redir(d, f, _) => Leaves(d) + {f}
    case Pipe(l, r) => Leaves(l) + Leaves(r)
    case List(l, r) => Leaves(l) + Leaves(r)
    case Back(d) => Leaves(d)
  }

  ghost predicate EndsAt(words: set<Token>, i: int) {
    exists t :: t in words && t.eq == i
  }

  /** b with a NUL at the end of each of the words. */
  ghost predicate Terminated(b: seq<char>, words: set<Token>, b': seq<char>) {
    |b'| == |b| && forall i {:trigger b'[i]} :: 0 <= i < |b| ==> b'[i] == if EndsAt(words, i) then NUL else b[i]
  }

  lemma {:induction false} TerminatedBoth(b: seq<char>, x: set<Token>, b1: seq<char>, y: set<Token>, b2: seq<char>)
    requires Terminated(b, x, b1) && Terminated(b1, y, b2)
    ensures Terminated(b, x + y, b2)
  {
  }

  lemma {:induction false} TerminatedOne(b: seq<char>, t: Token, b': seq<char>)
    requires t.eq < |b| && b' == b[t.eq := NUL]
    ensures Terminated(b, {t}, b')
  {
  }

  method Nulterminate(buf: array<char>, c: Cmd<Token>)
    requires forall t :: t in Leaves(c) ==> t.eq < buf.Length
    modifies buf
    ensures Terminated(old(buf[..]), Leaves(c), buf[..])
    decreases c
  {
    match c
    case Exec(args) =>
      var i := 0;
      while i < |args|
        invariant 0 <= i <= |args|
        invariant Terminated(old(buf[..]), SetOf(args[..i]), buf[..])
      {
        ghost var b := buf[..];
        assert args[i] in Leaves(c);
        buf[args[i].eq] := NUL;
        TerminatedOne(b, args[i], buf[..]);
        TerminatedBoth(old(buf[..]), SetOf(args[..i]), b, {args[i]}, buf[..]);
        assert args[..i + 1] == args[..i] + [args[i]];
        assert SetOf(args[..i + 1]) == SetOf(args[..i]) + {args[i]};
        i := i + 1;
      }
      assert args[..i] == args;
    case Redir(d, f, _) =>
      Nulterminate(buf, d);
      ghost var b := buf[..];
      buf[f.eq] := NUL;
      TerminatedOne(b, f, buf[..]);
      TerminatedBoth(old(buf[..]), Leaves(d), b, {f}, buf[..]);
    case Pipe(l, r) =>
      Nulterminate(buf, l);
      ghost var b := buf[..];
      Nulterminate(buf, r);
      TerminatedBoth(old(buf[..]), Leaves(l), b, Leaves(r), buf[..]);
    case List(l, r) =>
      Nulterminate(buf, l);
      ghost var b := buf[..];
      Nulterminate(buf, r);
      TerminatedBoth(old(buf[..]), Leaves(l), b, Leaves(r), buf[..]);
    case Back(d) =>
      Nulterminate(buf, d);
  }

  // ----- a parsed command takes its words from the line -----

  ghost predicate AreWords(words: set<Token>, ts: seq<Token>) {
    forall t :: t in words ==> t in ts && t.kind == 'a'
  }

  ghost predicate Within(rest: seq<Token>, ts: seq<Token>) {
    forall t :: t in rest ==> t in ts
  }

  function Files(rs: seq<Redirect<Token>>): set<Token> {
    set i | 0 <= i < |rs| :: rs[i].file
  }

  lemma {:induction false} WrapLeaves(c: Cmd<Token>, rs: seq<Redirect<Token>>)
    ensures Leaves(Wrap(c, rs)) == Leaves(c) + Files(rs) && (Fits(Wrap(c, rs)) <==> Fits(c))
    decreases |rs|
  {
    if rs != [] {
      var n := |rs| - 1;
      WrapLeaves(c, rs[..n]);
      assert Files(rs) == Files(rs[..n]) + {rs[n].file};
    }
  }

  lemma {:induction false} FilesBoth(a: seq<Redirect<Token>>, b: seq<Redirect<Token>>)
    ensures Files(a + b) == Files(a) + Files(b)
  {
    forall t | t in Files(a) + Files(b)
      ensures t in Files(a + b)
    {
      if t in Files(a) {
        var i :| 0 <= i < |a| && a[i].file == t;
        assert (a + b)[i].file == t;
      } else {
        var i :| 0 <= i < |b| && b[i].file == t;
        assert (a + b)[|a| + i].file == t;
      }
    }
  }

  lemma {:induction false} RedirsFrom(ts: seq<Token>)
    ensures var p := ParseRedirs(ts); p.OkRedirs? ==> AreWords(Files(p.rs), ts) && Within(p.rest, ts)
    decreases |ts|
  {
    if IsRedir(First(ts)) && First(ts[1..]) == 'a' {
      RedirsFrom(ts[2..]);
      var p, q := ParseRedirs(ts), ParseRedirs(ts[2..]);
      if q.OkRedirs? {
        var one := [Redirect(ts[1], ts[0].kind != '<')];
        assert p.rs == one + q.rs;
        FilesBoth(one, q.rs);
        assert one[0].file in Files(one) && Files(one) == {ts[1]};
      }
    }
  }

  /** The words of the command are words of ts, the rest is of ts, and no command has too many arguments. */
  ghost predicate Drawn(p: Parsed, ts: seq<Token>) {
    p.Ok? ==> AreWords(Leaves(p.cmd), ts) && Within(p.rest, ts) && Fits(p.cmd)
  }

  lemma {:induction false} ArgsFrom(args: seq<Token>, rs: seq<Redirect<Token>>, ts: seq<Token>, all: seq<Token>)
    requires AreWords(SetOf(args), all) && AreWords(Files(rs), all) && Within(ts, all) && |args| < MAXARGS
    ensures Drawn(ParseArgs(args, rs, ts), all)
    decreases |ts|
  {
    WrapLeaves(Exec(args), rs);
    if ts != [] && First(ts) == 'a' && |args| + 1 < MAXARGS {
      RedirsFrom(ts[1..]);
      var q := ParseRedirs(ts[1..]);
      if q.OkRedirs? {
        assert SetOf(args + [ts[0]]) == SetOf(args) + {ts[0]};
        FilesBoth(rs, q.rs);
        ArgsFrom(args + [ts[0]], rs + q.rs, q.rest, all);
      }
    }
  }

  lemma {:induction false} ExecFrom(ts: seq<Token>)
    ensures Drawn(ParseExec(ts), ts)
    decreases |ts|, 0
  {
    if First(ts) == '(' {
      LineFrom(ts[1..]);
      var p := ParseLine(ts[1..]);
      if p.Ok? && First(p.rest) == ')' {
        RedirsFrom(p.rest[1..]);
        var q := ParseRedirs(p.rest[1..]);
        if q.OkRedirs? {
          WrapLeaves(p.cmd, q.rs);
          assert Within(p.rest[1..], ts[1..]) && Within(ts[1..], ts);
        }
      }
    } else {
      RedirsFrom(ts);
      var q := ParseRedirs(ts);
      if q.OkRedirs? {
        ArgsFrom([], q.rs, q.rest, ts);
      }
    }
  }

  lemma {:induction false} PipeFrom(ts: seq<Token>)
    ensures Drawn(ParsePipe(ts), ts)
    decreases |ts|, 1
  {
    ExecFrom(ts);
    var p := ParseExec(ts);
    if p.Ok? && First(p.rest) == '|' {
      PipeFrom(p.rest[1..]);
    }
  }

  lemma {:induction false} AfterFrom(c: Cmd<Token>, ts: seq<Token>, all: seq<Token>)
    requires AreWords(Leaves(c), all) && Within(ts, all) && Fits(c)
    ensures Drawn(ParseAfter(c, ts), all)
    decreases |ts|, 2
  {
    if First(ts) == '&' {
      AfterFrom(Back(c), ts[1..], all);
    } else if First(ts) == ';' {
      LineFrom(ts[1..]);
    }
  }

  lemma {:induction false} LineFrom(ts: seq<Token>)
    ensures Drawn(ParseLine(ts), ts)
    decreases |ts|, 3
  {
    PipeFrom(ts);
    var p := ParsePipe(ts);
    if p.Ok? {
      AfterFrom(p.cmd, p.rest, ts);
    }
  }

  // ----- the terminators -----

  /** From q on, the buffer reads as the C string w. */
  ghost predicate ReadsAs(b: seq<char>, q: int, w: string) {
    0 <= q && q + |w| < |b| && b[q..q + |w|] == w && b[q + |w|] == NUL && NUL !in w
  }

  /** The end of one word of a line never lies inside a word. */
  lemma {:induction false} EndOutside(s: string, t: Token, u: Token)
    requires t in Tokens(s, 0) && u in Tokens(s, 0) && t.kind == 'a' && u.kind == 'a'
    ensures !(u.q <= t.eq < u.eq) && u.q < u.eq <= |s|
  {
    var ts := Tokens(s, 0);
    var m :| 0 <= m < |ts| && ts[m] == t;
    var n :| 0 <= n < |ts| && ts[n] == u;
    TokenBounds(s, 0, n);
    if m < n {
      TokensOrdered(s, 0, m, n);
    } else if n < m {
      TokensOrdered(s, 0, n, m);
    }
  }

  lemma {:induction false} WordsRead(s: string, b: seq<char>, words: set<Token>, b': seq<char>, u: Token)
    requires NUL !in s && |b| > |s| && b[..|s|] == s && b[|s|] == NUL
    requires AreWords(words, Tokens(s, 0)) && Terminated(b, words, b') && u in words
    ensures ReadsAs(b', u.q, Text(s, u))
  {
    EndOutside(s, u, u);
    forall i | u.q <= i < u.eq
      ensures b'[i] == s[i]
    {
      if EndsAt(words, i) {
        var t :| t in words && t.eq == i;
        EndOutside(s, t, u);
      }
      assert b[i] == b[..|s|][i];
    }
    assert EndsAt(words, u.eq);
    assert b'[u.q..u.eq] == s[u.q..u.eq];
  }

  /** parsecmd in terms of the tokens of the line. */
  method ParseBuffer(buf: array<char>, n: nat) returns (r: Outcome)
    requires n < buf.Length && buf[n] == NUL && NUL !in buf[..n]
    modifies buf
    ensures r.Panic? <==> ParseAll(Tokens(old(buf[..n]), 0)).Fail?
    ensures r.Panic? ==> buf[..] == old(buf[..])
    ensures r.Tree? ==> ParseAll(Tokens(old(buf[..n]), 0)) == Ok(r.cmd, []) && Fits(r.cmd)
    ensures r.Tree? ==> forall t :: t in Leaves(r.cmd) ==> ReadsAs(buf[..], t.q, Text(old(buf[..n]), t))
    ensures r.Tree? ==> Terminated(old(buf[..]), Leaves(r.cmd), buf[..])
  {
    var s := buf[..n];
    var parser := new Parser(s);
    r := parser.Parseline();
    if r.Panic? {
      return;
    }
    var _ := parser.Peek("");
    if parser.pos != |s| {
      return Panic;
    }
    LineFrom(Tokens(s, 0));
    forall t | t in Leaves(r.cmd)
      ensures t.eq < buf.Length
    {
      EndOutside(s, t, t);
    }
    ghost var b := buf[..];
    Nulterminate(buf, r.cmd);
    assert b[..|s|] == s;
    forall t | t in Leaves(r.cmd)
      ensures ReadsAs(buf[..], t.q, Text(s, t))
    {
      WordsRead(s, b, Leaves(r.cmd), buf[..], t);
    }
  }

  /**
    parsecmd: a line of the grammar is parsed to the command it means and its words are made C strings; on anything else
    the shell panics, and buf is as it was.
  */
  method Parsecmd(buf: array<char>, n: nat) returns (r: Outcome)
    requires n < buf.Length && buf[n] == NUL && NUL !in buf[..n]
    modifies buf
    ensures r.Tree? <==> exists l, lead, gaps :: IsLine(old(buf[..n]), l, lead, gaps)
    ensures forall l, lead, gaps :: IsLine(old(buf[..n]), l, lead, gaps) ==>
              r.Tree? && Spelled(old(buf[..n]), r.cmd) == LineMeans(l)
    ensures r.Panic? ==> buf[..] == old(buf[..])
    ensures r.Tree? ==> forall t :: t in Leaves(r.cmd) ==> ReadsAs(buf[..], t.q, Text(old(buf[..n]), t))
    ensures r.Tree? ==> Terminated(old(buf[..]), Leaves(r.cmd), buf[..])
  {
    ghost var s := buf[..n];
    r := ParseBuffer(buf, n);
    ShellLine.ParsesIff(s);
    forall l, lead, gaps | IsLine(s, l, lead, gaps)
      ensures r.Tree? && Spelled(s, r.cmd) == LineMeans(l)
    {
      ShellLine.LineParses(s, l, lead, gaps);
    }
  }
}
