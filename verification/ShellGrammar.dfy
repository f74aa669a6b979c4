/** sh.c's parser as functions on the token list. */
module ShellGrammar {
  import opened ShellLex

  const MAXARGS := 10

  /** A command over words of type T: tokens for the parser, strings for what they spell. */
  datatype Cmd<T> =
    | Exec(args: seq<T>)
    | Redir(cmd: Cmd<T>, file: T, out: bool)
    | Pipe(left: Cmd<T>, right: Cmd<T>)
    | List(left: Cmd<T>, right: Cmd<T>)
    | Back(cmd: Cmd<T>)

  datatype Redirect<T> = Redirect(file: T, out: bool)

  function Wrap<T>(c: Cmd<T>, rs: seq<Redirect<T>>): Cmd<T>
    decreases |rs|
  {
    if rs == [] then c else
    var n := |rs| - 1;
    Redir(Wrap(c, rs[..n]), rs[n].file, rs[n].out)
  }

  datatype Parsed = Ok(cmd: Cmd<Token>, rest: seq<Token>) | Fail
  datatype ParsedRedirs = OkRedirs(rs: seq<Redirect<Token>>, rest: seq<Token>) | FailRedirs

  /** The kind of the first token, NUL at the end. */
  function First(ts: seq<Token>): char {
    if ts == [] then NUL else ts[0].kind
  }

  predicate IsRedir(c: char) {
    c == '<' || c == '>' || c == '+'
  }

  predicate IsEnd(c: char) {
    c == '|' || c == ')' || c == '&' || c == ';'
  }

  function ParseRedirs(ts: seq<Token>): (r: ParsedRedirs)
    ensures r.OkRedirs? ==> |r.rest| <= |ts| && !IsRedir(First(r.rest))
    decreases |ts|
  {
    if !IsRedir(First(ts)) then OkRedirs([], ts)
    else if First(ts[1..]) != 'a' then FailRedirs
    else match ParseRedirs(ts[2..])
      case FailRedirs => FailRedirs
      case OkRedirs(rs, rest) => OkRedirs([Redirect(ts[1], ts[0].kind != '<')] + rs, rest)
  }

  /** parseexec's loop: args and redirections so far. */
  function ParseArgs(args: seq<Token>, rs: seq<Redirect<Token>>, ts: seq<Token>): (r: Parsed)
    ensures r.Ok? ==> |r.rest| <= |ts|
    decreases |ts|
  {
    if ts == [] || IsEnd(First(ts)) then Ok(Wrap(Exec(args), rs), ts)
    else if First(ts) != 'a' || |args| + 1 >= MAXARGS then Fail
    else match ParseRedirs(ts[1..])
      case FailRedirs => Fail
      case OkRedirs(more, rest) => ParseArgs(args + [ts[0]], rs + more, rest)
  }

  function ParseExec(ts: seq<Token>): (r: Parsed)
    ensures r.Ok? ==> |r.rest| <= |ts|
    decreases |ts|, 0
  {
    if First(ts) == '(' then
      match ParseLine(ts[1..])
      case Fail => Fail
      case Ok(c, rest) =>
        if First(rest) != ')' then Fail
        else match ParseRedirs(rest[1..])
          case FailRedirs => Fail
          case OkRedirs(rs, rest') => Ok(Wrap(c, rs), rest')
    else
      match ParseRedirs(ts)
      case FailRedirs => Fail
      case OkRedirs(rs, rest) => ParseArgs([], rs, rest)
  }

  function ParsePipe(ts: seq<Token>): (r: Parsed)
    ensures r.Ok? ==> |r.rest| <= |ts|
    decreases |ts|, 1
  {
    match ParseExec(ts)
    case Fail => Fail
    case Ok(c, rest) =>
      if First(rest) != '|' then Ok(c, rest)
      else match ParsePipe(rest[1..])
        case Fail => Fail
        case Ok(d, rest') => Ok(Pipe(c, d), rest')
  }

  /** parseline after its first pipeline: any number of &, then perhaps ; and another line. */
  function ParseAfter(c: Cmd<Token>, ts: seq<Token>): (r: Parsed)
    ensures r.Ok? ==> |r.rest| <= |ts|
    decreases |ts|, 2
  {
    if First(ts) == '&' then ParseAfter(Back(c), ts[1..])
    else if First(ts) != ';' then Ok(c, ts)
    else match ParseLine(ts[1..])
      case Fail => Fail
      case Ok(d, rest) => Ok(List(c, d), rest)
  }

  function ParseLine(ts: seq<Token>): (r: Parsed)
    ensures r.Ok? ==> |r.rest| <= |ts|
    decreases |ts|, 3
  {
    match ParsePipe(ts)
    case Fail => Fail
    case Ok(c, rest) => ParseAfter(c, rest)
  }

  /** parsecmd: a line with nothing left over. */
  function ParseAll(ts: seq<Token>): Parsed {
    match ParseLine(ts)
    case Fail => Fail
    case Ok(c, rest) => if rest == [] then Ok(c, []) else Fail
  }

  /** No single command has more than nine arguments. */
  predicate Fits<T>(c: Cmd<T>) {
    match c
    case Exec(args) => |args| < MAXARGS
    case Redir(d, _, _) => Fits(d)
    case Pipe(l, r) => Fits(l) && Fits(r)
    case List(l, r) => Fits(l) && Fits(r)
    case Back(d) => Fits(d)
  }

  // ----- what tokens spell -----

  /** A token as text: a word, or a symbol, where + stands for >>. */
  datatype Item = Word(text: string) | Symbol(c: char)

  function Text(s: string, t: Token): string {
    if t.q <= t.eq <= |s| then s[t.q..t.eq] else ""
  }

  function Texts(s: string, ts: seq<Token>): seq<string> {
    if ts == [] then [] else [Text(s, ts[0])] + Texts(s, ts[1..])
  }

  /** The command with every token replaced by what it spells in s. */
  function Spelled(s: string, c: Cmd<Token>): Cmd<string> {
    match c
    case Exec(args) => Exec(Texts(s, args))
    case Redir(d, f, out) => Redir(Spelled(s, d), Text(s, f), out)
    case Pipe(l, r) => Pipe(Spelled(s, l), Spelled(s, r))
    case List(l, r) => List(Spelled(s, l), Spelled(s, r))
    case Back(d) => Back(Spelled(s, d))
  }

  ghost predicate SpellsOne(s: string, t: Token, item: Item) {
    match item
    case Word(w) => t.kind == 'a' && Text(s, t) == w
    case Symbol(c) => t.kind == c
  }

  /** The tokens spell the items, one by one. */
  ghost predicate Spells(s: string, ts: seq<Token>, items: seq<Item>) {
    |ts| == |items| && forall i {:trigger ts[i]} :: 0 <= i < |ts| ==> SpellsOne(s, ts[i], items[i])
  }
}
