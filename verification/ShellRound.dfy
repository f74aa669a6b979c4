/** The parser accepts exactly the lines of the grammar, and gives each of them its meaning. */
module ShellRound {
  import opened ShellLex
  import opened ShellGrammar
  import opened ShellSyntax

  lemma {:induction false} SpellsSplit(s: string, ts: seq<Token>, a: seq<Item>, b: seq<Item>)
    requires Spells(s, ts, a + b)
    ensures Spells(s, ts[..|a|], a) && Spells(s, ts[|a|..], b) && ts == ts[..|a|] + ts[|a|..]
  {
  }

  lemma {:induction false} SpellsJoin(s: string, x: seq<Token>, y: seq<Token>, a: seq<Item>, b: seq<Item>)
    requires Spells(s, x, a) && Spells(s, y, b)
    ensures Spells(s, x + y, a + b)
  {
  }

  ghost predicate Ends(rest: seq<Token>) {
    rest == [] || IsEnd(First(rest))
  }

  /** The parse gave c, and left rest. */
  ghost predicate Gives(p: Parsed, s: string, c: Cmd<string>, rest: seq<Token>) {
    p.Ok? && p.rest == rest && Spelled(s, p.cmd) == c
  }

  // ----- redirections -----

  ghost predicate SpellsRedirs(s: string, ps: seq<Redirect<Token>>, rs: seq<Redirect<string>>) {
    |ps| == |rs| && forall i {:trigger ps[i]} ::
      0 <= i < |ps| ==> Text(s, ps[i].file) == rs[i].file && ps[i].out == rs[i].out
  }

  lemma {:induction false} WrapSpelled(s: string, c: Cmd<Token>, ps: seq<Redirect<Token>>, rs: seq<Redirect<string>>)
    requires SpellsRedirs(s, ps, rs)
    ensures Spelled(s, Wrap(c, ps)) == Wrap(Spelled(s, c), rs)
    decreases |ps|
  {
    if ps != [] {
      var n := |ps| - 1;
      WrapSpelled(s, c, ps[..n], rs[..n]);
    }
  }

  /** One redirection in front of what ParseRedirs reads. */
  lemma {:induction false} ParseRedir(sym: Token, file: Token, ts: seq<Token>, all: seq<Token>)
    requires all == [sym, file] + ts && IsRedir(sym.kind) && file.kind == 'a' && ParseRedirs(ts).OkRedirs?
    ensures ParseRedirs(all) == OkRedirs([Redirect(file, sym.kind != '<')] + ParseRedirs(ts).rs, ParseRedirs(ts).rest)
  {
    assert all[1..][0] == file && all[2..] == ts;
  }

  lemma {:induction false} FirstRedir(s: string, rs: seq<Redirection>, ts: seq<Token>)
    requires rs != [] && SignsOk(rs) && Spells(s, ts, PrintRedirs(rs))
    ensures |ts| >= 2 && IsRedir(ts[0].kind) && ts[1].kind == 'a' && Spells(s, ts[2..], PrintRedirs(rs[1..]))
    ensures Text(s, ts[1]) == rs[0].file && ts[0].kind == rs[0].sign
  {
    SpellsSplit(s, ts, [Symbol(rs[0].sign), Word(rs[0].file)], PrintRedirs(rs[1..]));
    assert SpellsOne(s, ts[0], PrintRedirs(rs)[0]) && SpellsOne(s, ts[1], PrintRedirs(rs)[1]);
  }

  lemma {:induction false} SpellsFirst(s: string, p: Redirect<Token>, ps: seq<Redirect<Token>>,
                                       rs: seq<Redirect<string>>)
    requires rs != [] && Text(s, p.file) == rs[0].file && p.out == rs[0].out && SpellsRedirs(s, ps, rs[1..])
    ensures SpellsRedirs(s, [p] + ps, rs)
  {
  }

  lemma {:induction false} RedirsRound(s: string, rs: seq<Redirection>, ts: seq<Token>, rest: seq<Token>,
                                       all: seq<Token>)
    returns (ps: seq<Redirect<Token>>)
    requires SignsOk(rs) && Spells(s, ts, PrintRedirs(rs)) && !IsRedir(First(rest)) && all == ts + rest
    ensures ParseRedirs(all) == OkRedirs(ps, rest) && SpellsRedirs(s, ps, Meant(rs))
    decreases |rs|
  {
    if rs == [] {
      assert |ts| == |PrintRedirs(rs)| == 0;
      assert all == rest;
      ps := [];
    } else {
      FirstRedir(s, rs, ts);
      var later := all[2..];
      assert later == ts[2..] + rest && all == [ts[0], ts[1]] + later;
      ps := RedirsRound(s, rs[1..], ts[2..], rest, later);
      ParseRedir(ts[0], ts[1], later, all);
      SpellsFirst(s, Redirect(ts[1], ts[0].kind != '<'), ps, Meant(rs));
      ps := [Redirect(ts[1], ts[0].kind != '<')] + ps;
    }
  }

  // ----- arguments and redirections -----

  lemma {:induction false} MeantBoth(a: seq<Redirection>, b: seq<Redirection>)
    ensures Meant(a + b) == Meant(a) + Meant(b)
  {
    if a == [] {
      assert a + b == b;
    } else {
      MeantBoth(a[1..], b);
      assert (a + b)[1..] == a[1..] + b;
    }
  }

  lemma {:induction false} SpellsRedirsBoth(s: string, ps: seq<Redirect<Token>>, qs: seq<Redirect<Token>>,
                                            a: seq<Redirection>, b: seq<Redirection>)
    requires SpellsRedirs(s, ps, Meant(a)) && SpellsRedirs(s, qs, Meant(b))
    ensures SpellsRedirs(s, ps + qs, Meant(a + b))
  {
    MeantBoth(a, b);
  }

  lemma {:induction false} SignsSplit(a: seq<Redirection>, b: seq<Redirection>)
    requires SignsOk(a + b)
    ensures SignsOk(a) && SignsOk(b)
  {
    assert forall i :: 0 <= i < |a| ==> (a + b)[i] == a[i];
    assert forall i :: 0 <= i < |b| ==> (a + b)[|a| + i] == b[i];
  }

  lemma {:induction false} EndIsNoRedir(rest: seq<Token>)
    requires Ends(rest)
    ensures !IsRedir(First(rest)) && First(rest) != '('
  {
    if rest != [] {
      var c := First(rest);
      assert c == '|' || c == ')' || c == '&' || c == ';';
    }
  }

  lemma {:induction false} SpellsThree(s: string, ts: seq<Token>, x: Item, a: seq<Item>, b: seq<Item>)
    returns (t: Token, ts0: seq<Token>, ts': seq<Token>)
    requires Spells(s, ts, [x] + (a + b))
    ensures ts == [t] + (ts0 + ts') && SpellsOne(s, t, x) && Spells(s, ts0, a) && Spells(s, ts', b)
  {
    SpellsSplit(s, ts, [x], a + b);
    var ts1 := ts[1..];
    assert SpellsOne(s, ts[..1][0], [x][0]);
    SpellsSplit(s, ts1, a, b);
    t, ts0, ts' := ts[0], ts1[..|a|], ts1[|a|..];
  }

  /** The tokens of a first argument, of the redirections after it, and of the other arguments. */
  lemma {:induction false} ArgTokens(s: string, args: seq<ArgForm>, ts: seq<Token>)
    returns (t: Token, ts0: seq<Token>, ts': seq<Token>)
    requires args != [] && Spells(s, ts, PrintArgs(args))
    ensures ts == [t] + (ts0 + ts') && t.kind == 'a' && Text(s, t) == args[0].word
    ensures Spells(s, ts0, PrintRedirs(args[0].rs)) && Spells(s, ts', PrintArgs(args[1..]))
  {
    t, ts0, ts' := SpellsThree(s, ts, Word(args[0].word), PrintRedirs(args[0].rs), PrintArgs(args[1..]));
  }

  lemma {:induction false} ArgsStop(s: string, args: seq<ArgForm>, ts: seq<Token>, rest: seq<Token>)
    requires Spells(s, ts, PrintArgs(args)) && Ends(rest)
    ensures !IsRedir(First(ts + rest)) && First(ts + rest) != '('
  {
    if args == [] {
      assert |ts| == |PrintArgs(args)| == 0;
      assert ts + rest == rest;
      EndIsNoRedir(rest);
    } else {
      var t, ts0, ts' := ArgTokens(s, args, ts);
    }
  }

  /** One turn of parseexec's loop. */
  lemma {:induction false} ParseArg(done: seq<Token>, before: seq<Redirect<Token>>, all: seq<Token>,
                                    qs: seq<Redirect<Token>>,
                 all': seq<Token>)
    requires all != [] && all[0].kind == 'a' && |done| + 1 < MAXARGS && ParseRedirs(all[1..]) == OkRedirs(qs, all')
    ensures ParseArgs(done, before, all) == ParseArgs(done + [all[0]], before + qs, all')
  {
  }

  /** It takes an argument and the redirections after it. */
  lemma {:induction false} OneArg(s: string, done: seq<Token>, before: seq<Redirect<Token>>, args: seq<ArgForm>,
                                  ts: seq<Token>, rest: seq<Token>, all: seq<Token>)
    returns (t: Token, qs: seq<Redirect<Token>>, ts': seq<Token>, later: seq<Token>)
    requires args != [] && SignsOk(RedirsOf(args)) && Spells(s, ts, PrintArgs(args)) && Ends(rest) && all == ts + rest
    requires |done| + 1 < MAXARGS
    ensures ParseArgs(done, before, all) == ParseArgs(done + [t], before + qs, later) && later == ts' + rest
    ensures Text(s, t) == args[0].word && SpellsRedirs(s, qs, Meant(args[0].rs))
    ensures Spells(s, ts', PrintArgs(args[1..])) && SignsOk(RedirsOf(args[1..]))
  {
    var ts0;
    t, ts0, ts' := ArgTokens(s, args, ts);
    later := ts' + rest;
    SignsSplit(args[0].rs, RedirsOf(args[1..]));
    ArgsStop(s, args[1..], ts', rest);
    assert all[1..] == ts0 + later && all[0] == t;
    qs := RedirsRound(s, args[0].rs, ts0, later, all[1..]);
    ParseArg(done, before, all, qs, later);
  }

  lemma {:induction false} ArgsJoin(s: string, done: seq<Token>, t: Token, words: seq<Token>, args: seq<ArgForm>)
    requires args != [] && done + [t] <= words && Text(s, t) == args[0].word
    requires Texts(s, words[|done| + 1..]) == WordsOf(args[1..])
    ensures done <= words && Texts(s, words[|done|..]) == WordsOf(args)
  {
    assert words[|done|..][0] == words[|done|] == (done + [t])[|done|];
    assert words[|done|..][1..] == words[|done| + 1..];
  }

  lemma {:induction false} RedirsJoin(s: string, before: seq<Redirect<Token>>, qs: seq<Redirect<Token>>,
                                      ps: seq<Redirect<Token>>,
                   a: seq<Redirection>, b: seq<Redirection>)
    requires before + qs <= ps && SpellsRedirs(s, qs, Meant(a)) && SpellsRedirs(s, ps[|before + qs|..], Meant(b))
    ensures before <= ps && SpellsRedirs(s, ps[|before|..], Meant(a + b))
  {
    var os := ps[|before + qs|..];
    SpellsRedirsBoth(s, qs, os, a, b);
    assert ps == before + qs + os;
    assert ps[|before|..] == qs + os;
  }

  /** words and ps are done and before and what the arguments add to them. */
  ghost predicate Collected(s: string, done: seq<Token>, before: seq<Redirect<Token>>, args: seq<ArgForm>,
                            words: seq<Token>, ps: seq<Redirect<Token>>) {
    && done <= words && Texts(s, words[|done|..]) == WordsOf(args)
    && before <= ps && SpellsRedirs(s, ps[|before|..], Meant(RedirsOf(args)))
  }

  lemma {:induction false} CollectedMore(s: string, done: seq<Token>, before: seq<Redirect<Token>>, args: seq<ArgForm>,
                                         t: Token, qs: seq<Redirect<Token>>, words: seq<Token>,
                                         ps: seq<Redirect<Token>>)
    requires args != [] && Text(s, t) == args[0].word && SpellsRedirs(s, qs, Meant(args[0].rs))
    requires Collected(s, done + [t], before + qs, args[1..], words, ps)
    ensures Collected(s, done, before, args, words, ps)
  {
    ArgsJoin(s, done, t, words, args);
    RedirsJoin(s, before, qs, ps, args[0].rs, RedirsOf(args[1..]));
  }

  /** parseexec's loop takes the arguments and the redirections among them. */
  lemma {:induction false} ArgsRound(s: string, done: seq<Token>, before: seq<Redirect<Token>>, args: seq<ArgForm>,
                                     ts: seq<Token>, rest: seq<Token>, all: seq<Token>)
    returns (words: seq<Token>, ps: seq<Redirect<Token>>)
    requires SignsOk(RedirsOf(args)) && Spells(s, ts, PrintArgs(args)) && Ends(rest) && all == ts + rest
    requires |done| + |args| < MAXARGS
    ensures ParseArgs(done, before, all) == Ok(Wrap(Exec(words), ps), rest)
    ensures Collected(s, done, before, args, words, ps)
    decreases |args|
  {
    if args == [] {
      assert |ts| == |PrintArgs(args)| == 0;
      assert all == rest;
      words, ps := done, before;
    } else {
      var t, qs, ts', later := OneArg(s, done, before, args, ts, rest, all);
      words, ps := ArgsRound(s, done + [t], before + qs, args[1..], ts', rest, later);
      CollectedMore(s, done, before, args, t, qs, words, ps);
    }
  }

  lemma {:induction false} SimpleRound(s: string, rs: seq<Redirection>, args: seq<ArgForm>, ts: seq<Token>,
                                       rest: seq<Token>)
    requires ExecOk(Simple(rs, args)) && Spells(s, ts, PrintRedirs(rs) + PrintArgs(args)) && Ends(rest)
    ensures Gives(ParseExec(ts + rest), s, ExecMeans(Simple(rs, args)), rest)
  {
    var n, all := |PrintRedirs(rs)|, ts + rest;
    SpellsSplit(s, ts, PrintRedirs(rs), PrintArgs(args));
    SignsSplit(rs, RedirsOf(args));
    ArgsStop(s, args, ts[n..], rest);
    var later := ts[n..] + rest;
    assert all == ts[..n] + later;
    if rs == [] {
      assert all == later;
    } else {
      FirstRedir(s, rs, ts[..n]);
    }
    assert First(all) != '(';
    var qs := RedirsRound(s, rs, ts[..n], later, all);
    var words, ps := ArgsRound(s, [], qs, args, ts[n..], rest, later);
    assert words[0..] == words;
    RedirsJoin(s, [], qs, ps, rs, RedirsOf(args));
    assert ps[0..] == ps;
    WrapSpelled(s, Exec(words), ps, Meant(rs + RedirsOf(args)));
  }

  // ----- the whole grammar -----

  lemma {:induction false} ParenSplit(s: string, ts: seq<Token>, line: seq<Item>, redirs: seq<Item>)
    returns (open: Token, inner: seq<Token>, close: Token, tail: seq<Token>)
    requires Spells(s, ts, [Symbol('(')] + (line + ([Symbol(')')] + redirs)))
    ensures open.kind == '(' && close.kind == ')' && Spells(s, inner, line) && Spells(s, tail, redirs)
    ensures ts == [open] + (inner + ([close] + tail))
  {
    var ts2;
    open, inner, ts2 := SpellsThree(s, ts, Symbol('('), line, [Symbol(')')] + redirs);
    SpellsSplit(s, ts2, [Symbol(')')], redirs);
    assert SpellsOne(s, ts2[..1][0], [Symbol(')')][0]);
    close, tail := ts2[0], ts2[1..];
  }

  lemma {:induction false} ParenRound(s: string, core: Cmd<string>, rs: seq<Redirection>, inner: seq<Token>,
                                      open: Token, close: Token, tail: seq<Token>, rest: seq<Token>)
    requires open.kind == '(' && close.kind == ')' && SignsOk(rs) && Spells(s, tail, PrintRedirs(rs)) && Ends(rest)
    requires Gives(ParseLine(inner + ([close] + (tail + rest))), s, core, [close] + (tail + rest))
    ensures Gives(ParseExec([open] + (inner + ([close] + (tail + rest)))), s, Wrap(core, Meant(rs)), rest)
  {
    var after := [close] + (tail + rest);
    var all := [open] + (inner + after);
    assert all[1..] == inner + after && after[1..] == tail + rest;
    var l := ParseLine(inner + after);
    EndIsNoRedir(rest);
    var ps := RedirsRound(s, rs, tail, rest, tail + rest);
    assert ParseExec(all) == Ok(Wrap(l.cmd, ps), rest);
    WrapSpelled(s, l.cmd, ps, Meant(rs));
  }

  lemma {:induction false} ExecRound(s: string, e: ExecForm, ts: seq<Token>, rest: seq<Token>)
    requires ExecOk(e) && Spells(s, ts, PrintExec(e)) && Ends(rest)
    ensures Gives(ParseExec(ts + rest), s, ExecMeans(e), rest)
    decreases e, 0
  {
    if e.Simple? {
      SimpleRound(s, e.rs, e.args, ts, rest);
    } else {
      var open, inner, close, tail := ParenSplit(s, ts, PrintLine(e.line), PrintRedirs(e.rs));
      assert ts + rest == [open] + (inner + ([close] + (tail + rest)));
      LineRound(s, e.line, inner, [close] + (tail + rest));
      ParenRound(s, LineMeans(e.line), e.rs, inner, open, close, tail, rest);
    }
  }

  lemma {:induction false} SpellsMiddle(s: string, ts: seq<Token>, a: seq<Item>, x: Item, b: seq<Item>)
    returns (ts0: seq<Token>, t: Token, ts': seq<Token>)
    requires Spells(s, ts, a + ([x] + b))
    ensures ts == ts0 + ([t] + ts') && Spells(s, ts0, a) && SpellsOne(s, t, x) && Spells(s, ts', b)
  {
    var n := |a|;
    SpellsSplit(s, ts, a, [x] + b);
    var ts1 := ts[n..];
    SpellsSplit(s, ts1, [x], b);
    assert SpellsOne(s, ts1[..1][0], [x][0]);
    ts0, t, ts' := ts[..n], ts1[0], ts1[1..];
  }

  lemma {:induction false} PipeRound(s: string, p: PipeForm, ts: seq<Token>, rest: seq<Token>)
    requires PipeOk(p) && Spells(s, ts, PrintPipe(p)) && Ends(rest) && First(rest) != '|'
    ensures Gives(ParsePipe(ts + rest), s, PipeMeans(p), rest)
    decreases p, 0
  {
    if p.Piped? {
      var ts0, t, ts' := SpellsMiddle(s, ts, PrintExec(p.e), Symbol('|'), PrintPipe(p.rest));
      var later := [t] + (ts' + rest);
      ExecRound(s, p.e, ts0, later);
      PipeRound(s, p.rest, ts', rest);
      assert ts + rest == ts0 + later && later[1..] == ts' + rest;
    } else {
      ExecRound(s, p.e, ts, rest);
    }
  }

  lemma {:induction false} BacksSpelled(s: string, c: Cmd<Token>, n: nat)
    ensures Spelled(s, Backs(c, n)) == Backs(Spelled(s, c), n)
    decreases n
  {
    if n > 0 {
      BacksSpelled(s, Back(c), n - 1);
    }
  }

  lemma {:induction false} AmpsRound(s: string, c: Cmd<Token>, n: nat, ts: seq<Token>, rest: seq<Token>)
    requires Spells(s, ts, Amps(n))
    ensures ParseAfter(c, ts + rest) == ParseAfter(Backs(c, n), rest)
    decreases n
  {
    if n == 0 {
      assert ts + rest == rest;
    } else {
      assert SpellsOne(s, ts[0], Amps(n)[0]);
      assert (ts + rest)[1..] == ts[1..] + rest;
      forall i | 0 <= i < |ts| - 1
        ensures SpellsOne(s, ts[1..][i], Amps(n - 1)[i])
      {
        assert SpellsOne(s, ts[i + 1], Amps(n)[i + 1]);
      }
      AmpsRound(s, Back(c), n - 1, ts[1..], rest);
    }
  }

  /** A pipeline and its & signs: the rest of the line is parsed with the command so far in hand. */
  lemma {:induction false} BackRound(s: string, p: PipeForm, amps: nat, ts: seq<Token>, rest: seq<Token>)
    returns (c: Cmd<Token>)
    requires PipeOk(p) && Spells(s, ts, PrintPipe(p) + Amps(amps)) && Ends(rest) && First(rest) != '|'
    ensures Spelled(s, c) == Backs(PipeMeans(p), amps) && ParseLine(ts + rest) == ParseAfter(c, rest)
    decreases p, 1
  {
    var n := |PrintPipe(p)|;
    SpellsSplit(s, ts, PrintPipe(p), Amps(amps));
    var ts1 := ts[n..];
    if ts1 != [] {
      assert SpellsOne(s, ts1[0], Amps(amps)[0]);
    }
    PipeRound(s, p, ts[..n], ts1 + rest);
    assert ts + rest == ts[..n] + (ts1 + rest);
    var d := ParsePipe(ts + rest).cmd;
    AmpsRound(s, d, amps, ts1, rest);
    BacksSpelled(s, d, amps);
    c := Backs(d, amps);
  }

  lemma {:induction false} LineRound(s: string, l: LineForm, ts: seq<Token>, rest: seq<Token>)
    requires LineOk(l) && Spells(s, ts, PrintLine(l)) && (rest == [] || First(rest) == ')')
    ensures Gives(ParseLine(ts + rest), s, LineMeans(l), rest)
    decreases l, 0
  {
    if l.Then? {
      var ts0, t, ts' := SpellsMiddle(s, ts, PrintPipe(l.pipe) + Amps(l.amps), Symbol(';'), PrintLine(l.rest));
      var later := [t] + (ts' + rest);
      var c := BackRound(s, l.pipe, l.amps, ts0, later);
      LineRound(s, l.rest, ts', rest);
      assert ts + rest == ts0 + later && later[1..] == ts' + rest;
    } else {
      var c := BackRound(s, l.pipe, l.amps, ts, rest);
    }
  }

  // ----- nothing else is accepted -----

  /** What the tokens ts have before rest spells the items. */
  ghost predicate Reads(s: string, ts: seq<Token>, rest: seq<Token>, items: seq<Item>) {
    |rest| <= |ts| && rest == ts[|ts| - |rest|..] && Spells(s, ts[..|ts| - |rest|], items)
  }

  lemma {:induction false} ReadsNone(s: string, ts: seq<Token>)
    ensures Reads(s, ts, ts, [])
  {
  }

  lemma {:induction false} ReadsOne(s: string, ts: seq<Token>, x: Item)
    requires ts != [] && SpellsOne(s, ts[0], x)
    ensures Reads(s, ts, ts[1..], [x])
  {
  }

  lemma {:induction false} ReadsJoin(s: string, ts: seq<Token>, mid: seq<Token>, rest: seq<Token>, a: seq<Item>,
                                     b: seq<Item>)
    requires Reads(s, ts, mid, a) && Reads(s, mid, rest, b)
    ensures Reads(s, ts, rest, a + b)
  {
    var m, n := |ts| - |mid|, |mid| - |rest|;
    SpellsJoin(s, ts[..m], mid[..n], a, b);
    assert ts[..m + n] == ts[..m] + mid[..n];
  }

  lemma {:induction false} RedirRead(s: string, ts: seq<Token>, rest: seq<Token>, later: seq<Redirection>,
                                     rs: seq<Redirection>)
    requires |ts| >= 2 && ts[1].kind == 'a' && rs == [Redirection(ts[0].kind, Text(s, ts[1]))] + later
    requires Reads(s, ts[2..], rest, PrintRedirs(later))
    ensures Reads(s, ts, rest, PrintRedirs(rs))
  {
    var a, b := Symbol(ts[0].kind), Word(Text(s, ts[1]));
    assert rs[1..] == later && ts[1..][1..] == ts[2..] && [a] + [b] == [a, b];
    ReadsOne(s, ts, a);
    ReadsOne(s, ts[1..], b);
    ReadsJoin(s, ts, ts[1..], ts[2..], [a], [b]);
    ReadsJoin(s, ts, ts[2..], rest, [a, b], PrintRedirs(later));
  }

  lemma {:induction false} ReadRedirs(s: string, ts: seq<Token>, p: ParsedRedirs) returns (rs: seq<Redirection>)
    requires p == ParseRedirs(ts) && p.OkRedirs?
    ensures Reads(s, ts, p.rest, PrintRedirs(rs)) && SignsOk(rs) && SpellsRedirs(s, p.rs, Meant(rs))
    decreases |ts|
  {
    if !IsRedir(First(ts)) {
      rs := [];
      ReadsNone(s, ts);
    } else {
      var sign, file, q := ts[0], ts[1], ParseRedirs(ts[2..]);
      assert ts[1..][0] == file && ts[1..][1..] == ts[2..];
      var later := ReadRedirs(s, ts[2..], q);
      rs := [Redirection(sign.kind, Text(s, file))] + later;
      assert rs[1..] == later;
      RedirRead(s, ts, p.rest, later, rs);
      SpellsFirst(s, Redirect(file, sign.kind != '<'), q.rs, Meant(rs));
    }
  }

  lemma {:induction false} ArgRead(s: string, ts: seq<Token>, mid: seq<Token>, rest: seq<Token>, rs: seq<Redirection>,
                                   later: seq<ArgForm>, args: seq<ArgForm>)
    requires ts != [] && ts[0].kind == 'a' && args == [ArgForm(Text(s, ts[0]), rs)] + later
    requires Reads(s, ts[1..], mid, PrintRedirs(rs)) && Reads(s, mid, rest, PrintArgs(later))
    requires SignsOk(rs) && SignsOk(RedirsOf(later))
    ensures Reads(s, ts, rest, PrintArgs(args)) && SignsOk(RedirsOf(args)) && args[1..] == later
  {
    assert args[1..] == later;
    ReadsOne(s, ts, Word(Text(s, ts[0])));
    ReadsJoin(s, ts[1..], mid, rest, PrintRedirs(rs), PrintArgs(later));
    ReadsJoin(s, ts, ts[1..], rest, [Word(Text(s, ts[0]))], PrintRedirs(rs) + PrintArgs(later));
  }

  lemma {:induction false} ReadArgs(s: string, done: seq<Token>, before: seq<Redirect<Token>>, ts: seq<Token>,
                                    p: Parsed)
    returns (args: seq<ArgForm>, words: seq<Token>, ps: seq<Redirect<Token>>)
    requires p == ParseArgs(done, before, ts) && p.Ok? && |done| < MAXARGS
    ensures p.cmd == Wrap(Exec(words), ps) && Ends(p.rest) && Collected(s, done, before, args, words, ps)
    ensures Reads(s, ts, p.rest, PrintArgs(args)) && SignsOk(RedirsOf(args)) && |done| + |args| < MAXARGS
    decreases |ts|
  {
    if ts == [] || IsEnd(First(ts)) {
      args, words, ps := [], done, before;
      ReadsNone(s, ts);
    } else {
      var t, q := ts[0], ParseRedirs(ts[1..]);
      var rs := ReadRedirs(s, ts[1..], q);
      var later;
      later, words, ps := ReadArgs(s, done + [t], before + q.rs, q.rest, p);
      args := [ArgForm(Text(s, t), rs)] + later;
      ArgRead(s, ts, q.rest, p.rest, rs, later, args);
      CollectedMore(s, done, before, args, t, q.rs, words, ps);
    }
  }

  lemma {:induction false} SimpleSpelled(s: string, rs: seq<Redirection>, qs: seq<Redirect<Token>>, args: seq<ArgForm>,
                                         words: seq<Token>, ps: seq<Redirect<Token>>)
    requires SpellsRedirs(s, qs, Meant(rs)) && Collected(s, [], qs, args, words, ps)
    ensures Spelled(s, Wrap(Exec(words), ps)) == ExecMeans(Simple(rs, args))
  {
    assert words[0..] == words;
    RedirsJoin(s, [], qs, ps, rs, RedirsOf(args));
    assert ps[0..] == ps;
    WrapSpelled(s, Exec(words), ps, Meant(rs + RedirsOf(args)));
  }

  lemma {:induction false} ReadSimple(s: string, ts: seq<Token>, p: Parsed) returns (e: ExecForm)
    requires p == ParseExec(ts) && p.Ok? && First(ts) != '('
    ensures ExecOk(e) && Reads(s, ts, p.rest, PrintExec(e)) && Spelled(s, p.cmd) == ExecMeans(e)
  {
    var q := ParseRedirs(ts);
    var rs := ReadRedirs(s, ts, q);
    var args, words, ps := ReadArgs(s, [], q.rs, q.rest, p);
    e := Simple(rs, args);
    ReadsJoin(s, ts, q.rest, p.rest, PrintRedirs(rs), PrintArgs(args));
    SimpleSpelled(s, rs, q.rs, args, words, ps);
  }

  lemma {:induction false} BlockRead(s: string, ts: seq<Token>, mid: seq<Token>, rest: seq<Token>, l: LineForm,
                                     rs: seq<Redirection>)
    requires ts != [] && ts[0].kind == '(' && Reads(s, ts[1..], mid, PrintLine(l)) && mid != [] && mid[0].kind == ')'
    requires Reads(s, mid[1..], rest, PrintRedirs(rs))
    ensures Reads(s, ts, rest, PrintExec(Block(l, rs)))
  {
    ReadsOne(s, ts, Symbol('('));
    ReadsOne(s, mid, Symbol(')'));
    ReadsJoin(s, mid, mid[1..], rest, [Symbol(')')], PrintRedirs(rs));
    ReadsJoin(s, ts[1..], mid, rest, PrintLine(l), [Symbol(')')] + PrintRedirs(rs));
    ReadsJoin(s, ts, ts[1..], rest, [Symbol('(')], PrintLine(l) + ([Symbol(')')] + PrintRedirs(rs)));
  }

  lemma {:induction false} ReadExec(s: string, ts: seq<Token>, p: Parsed) returns (e: ExecForm)
    requires p == ParseExec(ts) && p.Ok?
    ensures ExecOk(e) && Reads(s, ts, p.rest, PrintExec(e)) && Spelled(s, p.cmd) == ExecMeans(e)
    decreases |ts|, 0
  {
    if First(ts) == '(' {
      var q := ParseLine(ts[1..]);
      var l := ReadLine(s, ts[1..], q);
      var r := ParseRedirs(q.rest[1..]);
      var rs := ReadRedirs(s, q.rest[1..], r);
      e := Block(l, rs);
      BlockRead(s, ts, q.rest, p.rest, l, rs);
      WrapSpelled(s, q.cmd, r.rs, Meant(rs));
    } else {
      e := ReadSimple(s, ts, p);
    }
  }

  lemma {:induction false} ReadPipe(s: string, ts: seq<Token>, p: Parsed) returns (f: PipeForm)
    requires p == ParsePipe(ts) && p.Ok?
    ensures PipeOk(f) && Reads(s, ts, p.rest, PrintPipe(f)) && Spelled(s, p.cmd) == PipeMeans(f)
    decreases |ts|, 1
  {
    var q := ParseExec(ts);
    var e := ReadExec(s, ts, q);
    if First(q.rest) != '|' {
      f := Last(e);
    } else {
      var later := ReadPipe(s, q.rest[1..], ParsePipe(q.rest[1..]));
      f := Piped(e, later);
      ReadsOne(s, q.rest, Symbol('|'));
      ReadsJoin(s, q.rest, q.rest[1..], p.rest, [Symbol('|')], PrintPipe(later));
      ReadsJoin(s, ts, q.rest, p.rest, PrintExec(e), [Symbol('|')] + PrintPipe(later));
    }
  }

  /** What follows the first m & signs of a line. */
  function Remainder(l: LineForm, m: nat): seq<Item>
    requires m <= l.amps
  {
    Amps(l.amps - m) + (if l.End? then [] else [Symbol(';')] + PrintLine(l.rest))
  }

  lemma {:induction false} RemainderNext(l: LineForm, m: nat)
    requires m < l.amps
    ensures Remainder(l, m) == [Symbol('&')] + Remainder(l, m + 1)
  {
    assert [Symbol('&')] + Amps(l.amps - m - 1) == Amps(l.amps - m);
  }

  lemma {:induction false} BacksNext<T>(c: Cmd<T>, m: nat)
    ensures Back(Backs(c, m)) == Backs(c, m + 1)
    decreases m
  {
    if m > 0 {
      BacksNext(Back(c), m - 1);
    }
  }

  lemma {:induction false} ReadAfter(s: string, c: Cmd<Token>, f: PipeForm, m: nat, ts: seq<Token>, p: Parsed)
    returns (l: LineForm)
    requires p == ParseAfter(c, ts) && p.Ok? && PipeOk(f) && Spelled(s, c) == Backs(PipeMeans(f), m)
    ensures l.pipe == f && m <= l.amps && LineOk(l) && Reads(s, ts, p.rest, Remainder(l, m))
    ensures Spelled(s, p.cmd) == LineMeans(l)
    decreases |ts|, 2
  {
    if First(ts) == '&' {
      BacksNext(PipeMeans(f), m);
      l := ReadAfter(s, Back(c), f, m + 1, ts[1..], p);
      RemainderNext(l, m);
      ReadsOne(s, ts, Symbol('&'));
      ReadsJoin(s, ts, ts[1..], p.rest, [Symbol('&')], Remainder(l, m + 1));
    } else if First(ts) != ';' {
      l := End(f, m);
      ReadsNone(s, ts);
      assert Remainder(l, m) == [];
    } else {
      var later := ReadLine(s, ts[1..], ParseLine(ts[1..]));
      l := Then(f, m, later);
      ReadsOne(s, ts, Symbol(';'));
      ReadsJoin(s, ts, ts[1..], p.rest, [Symbol(';')], PrintLine(later));
      assert Remainder(l, m) == [Symbol(';')] + PrintLine(later);
    }
  }

  lemma {:induction false} ReadLine(s: string, ts: seq<Token>, p: Parsed) returns (l: LineForm)
    requires p == ParseLine(ts) && p.Ok?
    ensures LineOk(l) && Reads(s, ts, p.rest, PrintLine(l)) && Spelled(s, p.cmd) == LineMeans(l)
    decreases |ts|, 3
  {
    var q := ParsePipe(ts);
    var f := ReadPipe(s, ts, q);
    l := ReadAfter(s, q.cmd, f, 0, q.rest, p);
    ReadsJoin(s, ts, q.rest, p.rest, PrintPipe(f), Remainder(l, 0));
    assert PrintLine(l) == PrintPipe(f) + Remainder(l, 0);
  }
}
